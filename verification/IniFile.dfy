/** Rendering sections into a runtime INI file, and what the readers find in it. */
module IniFile {
  import opened Wrappers
  import opened Text
  import opened IniLine
  import opened ProfileText
  import opened ProfileNormal
  import opened ProfileFixpoint

  /** A line that a reader looks at inside a section. */
  predicate Live(line: string) {
    var stripped := Trim(line);
    stripped != [] && !IsCommentChar(stripped[0]) && !HeaderLike(line)
  }

  /** The section that the reader is in after some lines. */
  function CurrentSection(lines: seq<string>): Option<string> {
    if lines == [] then None
    else if HeaderLike(lines[|lines| - 1]) then Some(HeaderName(lines[|lines| - 1]))
    else CurrentSection(lines[..|lines| - 1])
  }

  /** The stripped live lines of a section of a file. */
  function SectionContent(lines: seq<string>, section: string): seq<string> {
    if lines == [] then []
    else
      var front, line := lines[..|lines| - 1], lines[|lines| - 1];
      SectionContent(front, section) +
      if CurrentSection(front) == Some(section) && Live(line) then [Trim(line)] else []
  }

  /** The stripped live lines of a list of lines. */
  function Content(lines: seq<string>): seq<string> {
    if lines == [] then []
    else
      Content(lines[..|lines| - 1]) + if Live(lines[|lines| - 1]) then [Trim(lines[|lines| - 1])] else []
  }

  /** What a stripped line says of a key. */
  function ValueIn(stripped: string, key: string): Option<string> {
    match Cut(stripped, '=')
    case None => None
    case Some((left, right)) => if Trim(left) == key then Some(Strip(Quote, Trim(right))) else None
  }

  /** The first value of the key: an early return in the readers. */
  function FirstValue(content: seq<string>, key: string): Option<string> {
    if content == [] then None
    else
      match FirstValue(content[..|content| - 1], key)
      case Some(v) => Some(v)
      case None => ValueIn(content[|content| - 1], key)
  }

  /** An entry of the array key with this value, with or without a '+'. */
  predicate ArrayHit(stripped: string, key: string, value: string) {
    match Cut(stripped, '=')
    case None => false
    case Some((left, right)) => (Trim(left) == key || Trim(left) == "+" + key) && Trim(right) == value
  }

  predicate ArrayKey(stripped: string, keys: set<string>) {
    match Cut(stripped, '=')
    case None => false
    case Some((left, _)) => exists k :: k in keys && (Trim(left) == k || Trim(left) == "+" + k)
  }

  predicate AnyHit(content: seq<string>, key: string, value: string) {
    exists c :: c in content && ArrayHit(c, key, value)
  }

  predicate AnyKey(content: seq<string>, keys: set<string>) {
    exists c :: c in content && ArrayKey(c, keys)
  }

  // The readers

  /** read_ini_value on the lines of a file. */
  method ReadIniValue(lines: seq<string>, section: string, key: string) returns (r: Option<string>)
    ensures r == FirstValue(SectionContent(lines, section), key)
  {
    hide HeaderLike, HeaderName, Trim, ValueIn;
    var current: Option<string> := None;
    for i := 0 to |lines|
      invariant current == CurrentSection(lines[..i])
      invariant FirstValue(SectionContent(lines[..i], section), key) == None
    {
      assert lines[..i + 1][..i] == lines[..i];
      ghost var before := SectionContent(lines[..i], section);
      if Live(lines[i]) && current == Some(section) {
        var v := ValueIn(Trim(lines[i]), key);
        assert (before + [Trim(lines[i])])[..|before|] == before;
        if v.Some? {
          FirstValueStays(lines, i + 1, section, key);
          return v;
        }
      } else {
        assert before + [] == before;
      }
      if HeaderLike(lines[i]) {
        current := Some(HeaderName(lines[i]));
      }
    }
    assert lines[..|lines|] == lines;
    r := None;
  }

  lemma {:induction false} FirstValueStays(lines: seq<string>, i: nat, section: string, key: string)
    requires i <= |lines| && FirstValue(SectionContent(lines[..i], section), key).Some?
    ensures FirstValue(SectionContent(lines, section), key) == FirstValue(SectionContent(lines[..i], section), key)
    decreases |lines|
  {
    hide HeaderLike, HeaderName, Trim, Live, ValueIn;
    if i == |lines| {
      assert lines[..i] == lines;
    } else {
      var front := lines[..|lines| - 1];
      assert front[..i] == lines[..i];
      FirstValueStays(front, i, section, key);
      var a := SectionContent(front, section);
      var c := SectionContent(lines, section);
      if c != a {
        assert c[..|c| - 1] == a;
      }
    }
  }

  /** read_ini_array_contains. */
  method ReadArrayContains(lines: seq<string>, section: string, key: string, value: string) returns (r: bool)
    ensures r == AnyHit(SectionContent(lines, section), key, value)
  {
    hide HeaderLike, HeaderName, Trim, ArrayHit;
    var current: Option<string> := None;
    for i := 0 to |lines|
      invariant current == CurrentSection(lines[..i])
      invariant !AnyHit(SectionContent(lines[..i], section), key, value)
    {
      assert lines[..i + 1][..i] == lines[..i];
      if Live(lines[i]) && current == Some(section) && ArrayHit(Trim(lines[i]), key, value) {
        var c := Trim(lines[i]);
        assert SectionContent(lines[..i + 1], section) == SectionContent(lines[..i], section) + [c];
        assert c in SectionContent(lines[..i + 1], section);
        ContentGrows(lines, i + 1, section);
        return true;
      }
      if HeaderLike(lines[i]) {
        current := Some(HeaderName(lines[i]));
      }
    }
    assert lines[..|lines|] == lines;
    r := false;
  }

  /** read_ini_array_key_present. */
  method ReadArrayKeyPresent(lines: seq<string>, section: string, keys: set<string>) returns (r: bool)
    ensures r == AnyKey(SectionContent(lines, section), keys)
  {
    hide HeaderLike, HeaderName, Trim, ArrayKey;
    var current: Option<string> := None;
    for i := 0 to |lines|
      invariant current == CurrentSection(lines[..i])
      invariant !AnyKey(SectionContent(lines[..i], section), keys)
    {
      assert lines[..i + 1][..i] == lines[..i];
      if Live(lines[i]) && current == Some(section) && ArrayKey(Trim(lines[i]), keys) {
        var c := Trim(lines[i]);
        assert SectionContent(lines[..i + 1], section) == SectionContent(lines[..i], section) + [c];
        assert c in SectionContent(lines[..i + 1], section);
        ContentGrows(lines, i + 1, section);
        return true;
      }
      if HeaderLike(lines[i]) {
        current := Some(HeaderName(lines[i]));
      }
    }
    assert lines[..|lines|] == lines;
    r := false;
  }

  lemma {:induction false} ContentGrows(lines: seq<string>, i: nat, section: string)
    requires i <= |lines|
    ensures forall c :: c in SectionContent(lines[..i], section) ==> c in SectionContent(lines, section)
    decreases |lines|
  {
    hide HeaderLike, HeaderName, Trim, Live;
    if i == |lines| {
      assert lines[..i] == lines;
    } else {
      assert lines[..|lines| - 1][..i] == lines[..i];
      ContentGrows(lines[..|lines| - 1], i, section);
    }
  }

  // Rendering

  /** The section dictionary of a compilation: names in insertion order. */
  datatype Ini = Ini(names: seq<string>, lines: map<string, seq<string>>)

  const NO_SECTIONS := Ini([], map[])

  ghost predicate IniOk(ini: Ini) {
    (forall n :: n in ini.names <==> n in ini.lines) &&
    (forall i, j :: 0 <= i < j < |ini.names| ==> ini.names[i] != ini.names[j])
  }

  function LinesIn(ini: Ini, section: string): seq<string> {
    if section in ini.lines then ini.lines[section] else []
  }

  /** section_lines.setdefault(section, []).append(line) */
  function Append(ini: Ini, section: string, line: string): Ini {
    Assign(ini, section, LinesIn(ini, section) + [line])
  }

  /** section_lines[section] = lines */
  function Assign(ini: Ini, section: string, lines: seq<string>): Ini {
    Ini(if section in ini.lines then ini.names else ini.names + [section], ini.lines[section := lines])
  }

  lemma AssignOk(ini: Ini, section: string, lines: seq<string>)
    requires IniOk(ini)
    ensures IniOk(Assign(ini, section, lines))
    ensures forall s :: LinesIn(Assign(ini, section, lines), s) == if s == section then lines else LinesIn(ini, s)
  {
  }

  function Blocks(ini: Ini, names: seq<string>): (r: seq<Block>)
    ensures |r| == |names|
  {
    if names == [] then []
    else Blocks(ini, names[..|names| - 1]) +
           [Block(names[|names| - 1], ParseHeader(names[|names| - 1]), LinesIn(ini, names[|names| - 1]))]
  }

  /** render_ini_sections, before the lines are joined. */
  function Render(ini: Ini, comments: seq<string>): seq<string> {
    RstripLines(PrintLines(comments, Blocks(ini, ini.names)))
  }

  lemma {:induction false} AppendContent(a: seq<string>, b: seq<string>, section: string)
    requires forall l :: l in b ==> !HeaderLike(l)
    ensures CurrentSection(a + b) == CurrentSection(a)
    ensures SectionContent(a + b, section) ==
            SectionContent(a, section) + if CurrentSection(a) == Some(section) then Content(b) else []
  {
    hide HeaderLike, HeaderName, Live, Trim;
    if b == [] {
      assert a + b == a;
    } else {
      var front, last := b[..|b| - 1], b[|b| - 1];
      AppendContent(a, front, section);
      assert (a + b)[..|a + b| - 1] == a + front;
      assert last in b;
    }
  }

  lemma {:induction false} ContentAppend(a: seq<string>, b: seq<string>)
    ensures Content(a + b) == Content(a) + Content(b)
  {
    hide Live, Trim;
    if b == [] {
      assert a + b == a;
    } else {
      ContentAppend(a, b[..|b| - 1]);
      assert (a + b)[..|a + b| - 1] == a + b[..|b| - 1];
    }
  }

  lemma ContentOne(line: string)
    ensures Content([line]) == if Live(line) then [Trim(line)] else []
  {
    hide Live, Trim;
    assert [line][..0] == [];
  }

  lemma {:induction false} RstripContent(lines: seq<string>, section: string)
    ensures SectionContent(RstripLines(lines), section) == SectionContent(lines, section)
    decreases |lines|
  {
    hide HeaderLike, Live, Trim, StripRight, HeaderName;
    EmptyNotLive();
    if lines == [] {
      var one: seq<string> := [[]];
      assert one[..0] == [];
    } else {
      var front, last := lines[..|lines| - 1], lines[|lines| - 1];
      var cut := StripRight(White, last);
      StripRightLive(last);
      if cut == [] && |lines| > 1 {
        RstripContent(front, section);
      } else {
        assert (front + [cut])[..|front|] == front;
      }
    }
  }

  lemma EmptyNotLive()
    ensures !Live([]) && !HeaderLike([])
  {
  }

  lemma StripRightLive(line: string)
    ensures Live(StripRight(White, line)) == Live(line) && Trim(StripRight(White, line)) == Trim(line)
    ensures StripRight(White, line) == [] ==> !Live(line)
  {
    TrimOfStripRight(line);
  }

  lemma HeaderNotLive(header: string)
    ensures !Live(HeaderLine(header))
  {
    HeaderLineReads(header);
  }

  lemma {:induction false} PrintContent(comments: seq<string>, ini: Ini, names: seq<string>, section: string)
    requires forall l :: l in comments ==> !HeaderLike(l)
    requires forall n, l :: n in names && l in LinesIn(ini, n) ==> !HeaderLike(l)
    requires forall i, j :: 0 <= i < j < |names| ==> names[i] != names[j]
    ensures SectionContent(PrintLines(comments, Blocks(ini, names)), section) ==
            if section in names then Content(LinesIn(ini, section)) else []
    decreases |names|
  {
    hide HeaderLike, HeaderLine, ParseHeader, Separated, LinesIn, Content, SectionContent, PrintLines, Blocks;
    PrintNone(comments, ini, section);
    if names != [] {
      var front, last := names[..|names| - 1], names[|names| - 1];
      assert last in names && last !in front;
      assert forall n :: n in front ==> n in names;
      PrintContent(comments, ini, front, section);
      PrintOne(comments, ini, names, section);
      assert names == front + [last];
    }
  }

  lemma PrintNone(comments: seq<string>, ini: Ini, section: string)
    requires forall l :: l in comments ==> !HeaderLike(l)
    ensures SectionContent(PrintLines(comments, Blocks(ini, [])), section) == []
  {
    hide HeaderLike, Content;
    AppendContent([], comments, section);
    assert [] + comments == comments;
  }

  /** The last section adds its own content. */
  lemma PrintOne(comments: seq<string>, ini: Ini, names: seq<string>, section: string)
    requires names != [] && forall l :: l in LinesIn(ini, names[|names| - 1]) ==> !HeaderLike(l)
    ensures SectionContent(PrintLines(comments, Blocks(ini, names)), section)
      == SectionContent(PrintLines(comments, Blocks(ini, names[..|names| - 1])), section)
         + if names[|names| - 1] == section then Content(LinesIn(ini, section)) else []
  {
    hide HeaderLike, HeaderLine, ParseHeader, Separated, LinesIn, Content, SectionContent, CurrentSection;
    var front, last := names[..|names| - 1], names[|names| - 1];
    var x := PrintLines(comments, Blocks(ini, front));
    assert Blocks(ini, names)[..|front|] == Blocks(ini, front);
    SeparatedContent(x, section);
    HeaderContent(Separated(x), last, section);
    AppendContent(Separated(x) + [HeaderLine(last)], LinesIn(ini, last), section);
  }

  lemma SeparatedContent(x: seq<string>, section: string)
    ensures SectionContent(Separated(x), section) == SectionContent(x, section)
  {
    hide HeaderLike, HeaderName, Live, Trim, Blank;
    EmptyNotLive();
    if Separated(x) != x {
      AppendContent(x, [[]], section);
      ContentOne([]);
    }
  }

  lemma HeaderContent(x: seq<string>, header: string, section: string)
    ensures SectionContent(x + [HeaderLine(header)], section) == SectionContent(x, section)
    ensures CurrentSection(x + [HeaderLine(header)]) == Some(header)
  {
    hide HeaderLike, HeaderName, Live, Trim, HeaderLine;
    HeaderLineReads(header);
    HeaderNotLive(header);
    var r := x + [HeaderLine(header)];
    assert r[..|r| - 1] == x;
  }

  /** A reader of the rendered file sees exactly the lines of its section. */
  lemma RenderContent(ini: Ini, comments: seq<string>, section: string)
    requires IniOk(ini)
    requires forall l :: l in comments ==> !HeaderLike(l)
    requires forall n, l :: n in ini.lines && l in ini.lines[n] ==> !HeaderLike(l)
    ensures SectionContent(Render(ini, comments), section) == Content(LinesIn(ini, section))
  {
    hide HeaderLike, Live, Trim, PrintLines, RstripLines, SectionContent, Blocks;
    PrintContent(comments, ini, ini.names, section);
    RstripContent(PrintLines(comments, Blocks(ini, ini.names)), section);
  }

  lemma {:induction false} BlocksPrintable(ini: Ini, names: seq<string>)
    requires forall n :: n in names ==> NoBreak(n) && NoBreaks(LinesIn(ini, n))
    ensures forall b :: b in Blocks(ini, names) ==> NoBreak(b.header) && NoBreaks(b.lines)
  {
    hide NoBreak, ParseHeader;
    if names != [] {
      assert names[|names| - 1] in names;
      BlocksPrintable(ini, names[..|names| - 1]);
    }
  }

  lemma {:induction false} PrintedNoBreaks(comments: seq<string>, blocks: seq<Block>)
    requires NoBreaks(comments) && forall b :: b in blocks ==> NoBreak(b.header) && NoBreaks(b.lines)
    ensures NoBreaks(PrintLines(comments, blocks))
    decreases |blocks|
  {
    hide NoBreak, Blank, HeaderLine;
    if blocks != [] {
      var last := blocks[|blocks| - 1];
      assert last in blocks;
      PrintedNoBreaks(comments, blocks[..|blocks| - 1]);
      NoBreakEmpty();
      HeaderNoBreak(last.header);
    }
  }

  /** The rendered text gives its lines back. */
  lemma RenderText(ini: Ini, comments: seq<string>)
    requires NoBreaks(comments)
    requires forall n :: n in ini.names ==> NoBreak(n) && NoBreaks(LinesIn(ini, n))
    ensures SplitLines(Join(Render(ini, comments)) + "\n") == Render(ini, comments)
  {
    hide NoBreak, PrintLines, RstripLines, SplitLines, Join, Blocks;
    BlocksPrintable(ini, ini.names);
    PrintedNoBreaks(comments, Blocks(ini, ini.names));
    SplitJoin(Render(ini, comments));
  }
}
