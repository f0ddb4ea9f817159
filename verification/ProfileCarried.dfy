/** Which values a file carries: setting a key, writing the file and reading it
    back gives that value, and every other as before, exactly for those that hold
    no break but at their end. */
module ProfileCarried {
  import opened Wrappers
  import opened Text
  import opened IniLine
  import opened ProfileLines
  import opened ProfileText
  import opened ProfileNormal
  import opened ProfileRoundTrip
  import opened ProfileFixpoint
  import opened ProfileReads
  import opened ProfileMigration
  import opened ProfileBreaks
  import opened ProfileEdits
  import Sorting

  // The lines that reading makes of a value that opens with a break

  /** The value should read as something free of breaks, but does not come through:
      the breaks are in front of it. */
  ghost predicate Led(value: string) { !Carried(value) && NoBreak(Strip(Quote, Trim(value))) }

  lemma LedParts(value: string) returns (w: string)
    requires Led(value)
    ensures var core := Trim(value);
            core != [] && Trimmed(core) && NoBreak(core) && StripRight(White, value) == w + core
    ensures !NoBreak(w) && forall i :: 0 <= i < |w| ==> IsSpace(w[i])
  {
    hide Strip, StripRight, IsSpace, IsBreak;
    var l, r := StripParts(White, value);
    var core := Trim(value);
    var x, y := StripParts(Quote, core);
    EmptyStrips();
    QuotesUnbroken(x);
    QuotesUnbroken(y);
    NoBreakConcat(x, Strip(Quote, core));
    NoBreakConcat(x + Strip(Quote, core), y);
    assert (l + core)[|l + core| - 1] == core[|core| - 1];
    StripRightPadded(White, l + core, r);
    if NoBreak(l) { NoBreakConcat(l, core); }
    assert forall i :: 0 <= i < |l| ==> White.Has(l[i]);
    w := l;
  }

  lemma EmptyStrips()
    ensures Strip(Quote, []) == []
  {
  }

  lemma QuotesUnbroken(q: string)
    requires forall i :: 0 <= i < |q| ==> Quote.Has(q[i])
    ensures NoBreak(q)
  {
  }

  lemma {:induction false} BlankLines(w: string)
    requires forall i :: 0 <= i < |w| ==> IsSpace(w[i])
    ensures forall l :: l in SplitLines(w) ==> Blank(l)
    decreases |w|
  {
    hide Blank, IsSpace, IsBreak;
    if w != [] {
      var i := BreakIndex(w);
      SpacesBlank(w[..i]);
      if i == |w| {
        assert w[..i] == w;
      } else {
        SplitStep(w, i);
        BlankLines(w[i + Width(w, i)..]);
      }
    }
  }

  lemma SpacesBlank(w: string)
    requires forall i :: 0 <= i < |w| ==> IsSpace(w[i])
    ensures Blank(w) && Trim(w) == []
  {
    hide IsSpace;
    assert forall i :: 0 <= i < |w| ==> White.Has(w[i]);
    AllStrips(White, w);
  }

  /** White space, a text and white space: one line trims to the text, all others
      are blank. */
  lemma {:induction false} CoreLines(w: string, core: string, r: string)
    returns (before: seq<string>, c: string, after: seq<string>)
    requires forall i :: 0 <= i < |w| ==> IsSpace(w[i])
    requires forall i :: 0 <= i < |r| ==> IsSpace(r[i])
    requires core != [] && Trimmed(core) && NoBreak(core) && r != [] && r[|r| - 1] == '\n'
    ensures SplitLines(w + core + r) == before + [c] + after && Trim(c) == core
    ensures forall l :: l in before || l in after ==> Blank(l)
    decreases |w|
  {
    hide Blank, IsSpace, IsBreak, SplitLines, Trimmed, Trim, BreakIndex;
    var s, i := w + core + r, BreakIndex(w);
    NewlineBreaks();
    if i < |w| {
      assert forall j :: 0 <= j <= i ==> s[j] == w[j];
      SplitStep(s, i);
      StartsLate(w, core, r, i);
      var n := i + Width(s, i);
      SpacesBlank(w[..i]);
      assert s[..i] == w[..i] && s[n..] == w[n..] + core + r;
      before, c, after := CoreLines(w[n..], core, r);
      before := [w[..i]] + before;
      assert SplitLines(s) == before + [c] + after;
    } else {
      var q := BreakIndex(r);
      var n := |w| + |core| + q;
      assert q < |r|;
      assert forall j :: 0 <= j < n ==>
               s[j] == if j < |w| then w[j] else if j < |w| + |core| then core[j - |w|] else r[j - |w| - |core|];
      assert s[n] == r[q];
      SplitStep(s, n);
      c := w + core + r[..q];
      assert s[..n] == c;
      PaddedCore(w, core, r[..q]);
      var rest := s[n + Width(s, n)..];
      assert forall j :: 0 <= j < |rest| ==> rest[j] == r[q + Width(s, n) + j];
      BlankLines(rest);
      before, after := [], SplitLines(rest);
    }
  }

  /** A break in front of the text ends in front of it. */
  lemma StartsLate(w: string, core: string, r: string, i: nat)
    requires i < |w| && core != [] && Trimmed(core)
    ensures i + Width(w + core + r, i) <= |w|
  {
    var s := w + core + r;
    if i + 1 == |w| { assert s[i + 1] == core[0]; }
  }

  lemma PaddedCore(w: string, core: string, r: string)
    requires forall i :: 0 <= i < |w| ==> IsSpace(w[i])
    requires forall i :: 0 <= i < |r| ==> IsSpace(r[i])
    requires Trimmed(core)
    ensures Trim(w + core + r) == core
  {
    hide IsSpace, Strip;
    assert forall i :: 0 <= i < |w| ==> White.Has(w[i]);
    assert forall i :: 0 <= i < |r| ==> White.Has(r[i]);
    StripPadded(White, w, core, r);
  }

  /** The line is the entry of the value, but for white space at its end. */
  ghost predicate EntryOf(line: string, key: string, value: string) {
    StripRight(White, line) == StripRight(White, Entry([], key, value))
  }

  /** What reading makes of such a line: an empty entry, blank lines and one line with
      the text of the value. */
  ghost predicate Torn(g: seq<string>, first: string, before: seq<string>, c: string, after: seq<string>,
      key: string, value: string) {
    g == [first] + before + [c] + after && SplitAssignment(first) == Some(Assignment([], key, [])) &&
    !HeaderLike(first) && Trim(c) == Trim(value) && forall l :: l in before || l in after ==> Blank(l)
  }

  /** The first break behind a text that has none is the first of what follows. */
  lemma FirstBreak(head: string, w: string, tail: string) returns (i: nat)
    requires NoBreak(head) && !NoBreak(w)
    ensures i < |w| && SplitLines(head + w + tail) ==
      [head + w[..i]] + SplitLines((head + w + tail)[|head| + i + Width(head + w + tail, |head| + i)..])
  {
    hide IsBreak, SplitLines, Width, BreakIndex;
    i := BreakIndex(w);
    var s, n := head + w + tail, |head| + i;
    assert i < |w|;
    assert s[n] == w[i];
    assert forall j :: 0 <= j < n ==> s[j] == if j < |head| then head[j] else w[j - |head|];
    SplitStep(s, n);
    assert s[..n] == head + w[..i];
  }

  /** How such a line starts and ends. */
  lemma LedText(line: string, key: string, value: string) returns (w: string, r: string)
    requires CleanKey(key) && Led(value) && EntryOf(line, key, value)
    ensures line == [] + key + "=" + w + (Trim(value) + r) && !NoBreak(w)
    ensures forall i :: 0 <= i < |w| ==> IsSpace(w[i])
    ensures forall i :: 0 <= i < |r| ==> IsSpace(r[i])
    ensures Trim(value) != [] && Trimmed(Trim(value)) && NoBreak(Trim(value))
  {
    hide IsSpace, NoBreak, Led, CleanKey, StripRight, Trim;
    w := LedParts(value);
    EntryStripped([], key, value);
    r := RightPart(White, line);
    assert forall i :: 0 <= i < |r| ==> White.Has(r[i]);
    assert [] + key + "=" + (w + Trim(value)) + r == [] + key + "=" + w + (Trim(value) + r);
  }

  lemma LedLine(line: string, key: string, value: string)
    returns (first: string, before: seq<string>, c: string, after: seq<string>)
    requires CleanKey(key) && Led(value) && EntryOf(line, key, value)
    ensures Torn(SplitLines(line + "\n"), first, before, c, after, key, value)
  {
    hide Blank, IsSpace, SplitLines, Led, CleanKey, SplitAssignment, HeaderLike, Width, EntryOf, Trim, NoBreak;
    var w, r := LedText(line, key, value);
    var core, head := Trim(value), [] + key + "=";
    var tail := core + (r + "\n");
    assert line + "\n" == head + w + tail;
    NewlineSpace();
    assert IsPrefix([]);
    EntryBreaks([], key, value);
    var i := FirstBreak(head, w, tail);
    first := Entry([], key, w[..i]);
    EntryParses([], key, w[..i]);
    SpacesBlank(w[..i]);
    WidthWithin(head, w, core, r + "\n", i);
    assert head + w + core + (r + "\n") == head + w + tail;
    var m := i + Width(head + w + tail, |head| + i);
    assert (head + w + tail)[|head| + m..] == w[m..] + core + (r + "\n");
    before, c, after := CoreLines(w[m..], core, r + "\n");
    assert [first] + (before + [c] + after) == [first] + before + [c] + after;
  }

  lemma NewlineSpace()
    ensures IsSpace('\n')
  {
  }

  lemma WidthWithin(head: string, w: string, core: string, r: string, i: nat)
    requires i < |w| && core != [] && Trimmed(core)
    ensures i + Width(head + w + core + r, |head| + i) <= |w|
  {
    var s := head + w + core + r;
    if i + 1 == |w| { assert s[|head| + i + 1] == core[0]; }
  }

  // What it reads as

  lemma TrimSame(line: string)
    ensures SplitAssignment(Trim(line)) == SplitAssignment(line) && HeaderLike(Trim(line)) == HeaderLike(line)
  {
  }

  lemma BlankInert(line: string)
    requires Blank(line)
    ensures !HeaderLike(line) && SplitAssignment(line).None?
  {
  }

  /** A text that is itself an assignment assigns less than itself. */
  lemma ShorterValue(core: string)
    requires Trimmed(core) && SplitAssignment(core).Some?
    ensures |PlainValue(core)| < |Strip(Quote, core)|
  {
    hide Strip, IsSpace;
    assert Trim(core) == core by { TrimmedTrims(core); }
    var (left, right) := Cut(core, '=').value;
    assert core == left + ['='] + right && SplitAssignment(core).value.value == Trim(right);
    var whole := Strip(Quote, core);
    var l, r := StripParts(Quote, core);
    assert core[|left|] == '=' && !Quote.Has('=');
    assert |l| <= |left| < |l| + |whole|;
    var n := |core| - |left| - 1 - |r|;
    assert forall i :: n <= i < |right| ==> right[i] == core[|left| + 1 + i] == r[i - n] && Quote.Has(right[i]);
    QuotedTail(right, n);
  }

  lemma TrimmedTrims(s: string)
    requires Trimmed(s)
    ensures Trim(s) == s
  {
  }

  /** What is left of a text that ends in quotes is no longer than what they follow. */
  lemma QuotedTail(s: string, n: nat)
    requires n <= |s| && forall i :: n <= i < |s| ==> Quote.Has(s[i])
    ensures |Strip(Quote, Trim(s))| <= n
  {
    hide Strip;
    var l, r := StripParts(White, s);
    var x, y := StripParts(Quote, Trim(s));
    var z := Strip(Quote, Trim(s));
    QuoteStripped(Trim(s));
    assert s == l + (x + z + y) + r;
    assert z != [] ==> s[|l| + |x| + |z| - 1] == z[|z| - 1];
  }

  /** Behind any lines, a torn entry does not read as its value. */
  lemma TornReads(front: seq<string>, g: seq<string>, first: string, before: seq<string>, c: string,
      after: seq<string>, key: string, value: string)
    requires Torn(g, first, before, c, after, key, value) && Led(value)
    ensures LastPlain(front + g, key).Some? && LastPlain(front + g, key) != Some(Strip(Quote, Trim(value)))
  {
    hide Strip, Blank, HeaderLike, SplitAssignment, Trim, LastPlain;
    TornStart(front, first, before, key);
    var open := front + ([first] + before);
    forall l | l in after ensures !Assigns(l, [], key) { BlankInert(l); }
    assert front + g == open + [c] + after;
    LastPlainInert(open + [c], after, key);
    LastPlainOne(open, c, key);
    LedSomething(value);
    if Assigns(c, [], key) {
      TrimSame(c);
      TrimTrimmed(c);
      ShorterValue(Trim(c));
    }
  }

  lemma LastPlainOne(lines: seq<string>, line: string, key: string)
    ensures LastPlain(lines + [line], key) ==
            if Assigns(line, [], key) then Some(PlainValue(line)) else LastPlain(lines, key)
  {
    hide SplitAssignment, Strip;
    assert (lines + [line])[..|lines|] == lines;
  }

  /** Up to the text the entry is empty. */
  lemma TornStart(front: seq<string>, first: string, before: seq<string>, key: string)
    requires SplitAssignment(first) == Some(Assignment([], key, [])) && forall l :: l in before ==> Blank(l)
    ensures LastPlain(front + ([first] + before), key) == Some([])
  {
    hide Strip, Blank, HeaderLike, SplitAssignment, LastPlain;
    forall l | l in before ensures !Assigns(l, [], key) { BlankInert(l); }
    assert front + ([first] + before) == front + [first] + before;
    LastPlainInert(front + [first], before, key);
    LastPlainOne(front, first, key);
    EmptyStrips();
  }

  lemma LedSomething(value: string)
    requires Led(value)
    ensures Strip(Quote, Trim(value)) != []
  {
    hide Strip, Trim;
  }

  lemma TrimTrimmed(s: string)
    ensures Trimmed(Trim(s))
  {
  }

  // A text that is no header stays in its block

  lemma FlatSnoc(lines: seq<string>, line: string)
    ensures Flat(lines + [line]) == Flat(lines) + SplitLines(line + "\n")
  {
    hide SplitLines;
    assert (lines + [line])[..|lines|] == lines;
  }

  /** Every line is free of breaks, or is the entry of the value but for its end. */
  ghost predicate OnlyEntry(lines: seq<string>, key: string, value: string) {
    forall l :: l in lines ==> NoBreak(l) || EntryOf(l, key, value)
  }

  lemma EntryOfAssigns(line: string, key: string, value: string)
    requires CleanKey(key) && EntryOf(line, key, value)
    ensures Assigns(line, [], key) && !HeaderLike(line)
  {
    hide CleanKey, StripRight, SplitAssignment, HeaderLike, Entry;
    assert IsPrefix([]);
    EntryParses([], key, value);
    StripRightSame(line, []);
    StripRightSame(Entry([], key, value), []);
  }

  /** Lines that end in the entry end, once read, in a torn one. */
  lemma {:induction false} FlatReads(lines: seq<string>, key: string, value: string)
    requires CleanKey(key) && Led(value) && OnlyEntry(lines, key, value)
    requires LastEnd(lines, key) == Some(StripRight(White, Entry([], key, value)))
    ensures LastPlain(Flat(lines), key).Some? && LastPlain(Flat(lines), key) != Some(Strip(Quote, Trim(value)))
  {
    hide CleanKey, Led, NoBreak, StripRight, Entry, Strip, Trim, SplitAssignment, SplitLines, LastPlain, Torn;
    var front, last := lines[..|lines| - 1], lines[|lines| - 1];
    assert lines == front + [last] && last in lines;
    FlatSnoc(front, last);
    if Assigns(last, [], key) {
      var first, before, c, after := LedLine(last, key, value);
      TornReads(Flat(front), SplitLines(last + "\n"), first, before, c, after, key, value);
    } else {
      if !NoBreak(last) { EntryOfAssigns(last, key, value); }
      LineItself(last);
      FlatReads(front, key, value);
      LastPlainOne(Flat(front), last, key);
    }
  }

  /** Reading the line makes no header that it was not. */
  ghost predicate Whole(line: string) {
    if HeaderLike(line) then SplitLines(line + "\n") == [line]
    else forall l :: l in SplitLines(line + "\n") ==> !HeaderLike(l)
  }

  lemma LedWhole(line: string, key: string, value: string)
    requires CleanKey(key) && Led(value) && !HeaderLike(Trim(value))
    requires NoBreak(line) || EntryOf(line, key, value)
    ensures Whole(line)
  {
    hide CleanKey, Led, NoBreak, StripRight, Entry, Trim, SplitAssignment, SplitLines, HeaderLike, Blank;
    if NoBreak(line) {
      LineItself(line);
    } else {
      EntryOfAssigns(line, key, value);
      var first, before, c, after := LedLine(line, key, value);
      TrimSame(c);
      forall l | l in SplitLines(line + "\n") ensures !HeaderLike(l) {
        if l in before || l in after { BlankInert(l); } else { assert l == first || l == c; }
      }
    }
  }

  /** The blocks that a parse of the read lines gives. */
  ghost predicate Flattened(d: Doc, e: Doc) {
    |e.sections| == |d.sections| &&
    forall i :: 0 <= i < |d.sections| ==> e.sections[i] == d.sections[i].(lines := Flat(d.sections[i].lines))
  }

  lemma {:induction false} FlatBlocks(lines: seq<string>)
    requires forall l :: l in lines ==> Whole(l)
    ensures Flattened(ParseLines(lines), ParseLines(Flat(lines)))
  {
    hide HeaderLike, SplitLines, ParseStep, AddLines;
    if lines != [] {
      var front, last := lines[..|lines| - 1], lines[|lines| - 1];
      FlatBlocks(front);
      assert last in lines;
      assert lines == front + [last];
      FlatSnoc(front, last);
      var d, e, g := ParseLines(front), ParseLines(Flat(front)), SplitLines(last + "\n");
      ParseAppend(EMPTY, Flat(front), g);
      if HeaderLike(last) {
        assert [last][..0] == [];
        FlatHeader(d, e, last);
      } else {
        ParsePlain(e, g);
        FlatPlain(d, e, last, g);
      }
    }
  }

  lemma FlatHeader(d: Doc, e: Doc, line: string)
    requires Flattened(d, e) && HeaderLike(line)
    ensures Flattened(ParseStep(d, line), ParseStep(e, line))
  {
    hide HeaderLike, HeaderName, ParseHeader;
  }

  lemma FlatPlain(d: Doc, e: Doc, line: string, g: seq<string>)
    requires Flattened(d, e) && !HeaderLike(line) && g == SplitLines(line + "\n")
    ensures Flattened(ParseStep(d, line), AddLines(e, g))
  {
    hide HeaderLike, HeaderName, ParseHeader, SplitLines, Flat;
    if d.sections != [] { FlatSnoc(d.sections[|d.sections| - 1].lines, line); }
  }

  // A header closes the block

  /** What more lines leave of a parsed document. */
  lemma {:induction false} ParseMore(doc: Doc, lines: seq<string>)
    ensures var d := ParseFrom(doc, lines);
            |d.sections| >= |doc.sections| && doc.preamble <= d.preamble &&
            (forall i :: 0 <= i < |doc.sections| ==>
              d.sections[i].id == doc.sections[i].id) &&
            (forall i, l :: 0 <= i < |doc.sections| && l in doc.sections[i].lines ==> l in d.sections[i].lines) &&
            (forall i :: 0 <= i < |doc.sections| - 1 ==> d.sections[i] == doc.sections[i])
  {
    hide HeaderLike, HeaderName, ParseHeader;
    if lines != [] { ParseMore(doc, lines[..|lines| - 1]); }
  }

  lemma {:induction false} FlatUnbroken(lines: seq<string>)
    requires forall l :: l in lines ==> NoBreak(l)
    ensures Flat(lines) == lines
  {
    hide NoBreak, SplitLines;
    if lines != [] {
      var front, last := lines[..|lines| - 1], lines[|lines| - 1];
      assert lines == front + [last];
      assert last in lines;
      FlatUnbroken(front);
      LineItself(last);
    }
  }

  lemma {:induction false} FlatAppend(a: seq<string>, b: seq<string>)
    ensures Flat(a + b) == Flat(a) + Flat(b)
  {
    hide SplitLines, Flat;
    if b == [] {
      FlatNothing();
      assert a + b == a && Flat(a) + [] == Flat(a);
    } else {
      var front, last := b[..|b| - 1], b[|b| - 1];
      FlatAppend(a, front);
      FlatSnoc(a + front, last);
      FlatSnoc(front, last);
      assert a + b == (a + front) + [last] && b == front + [last];
      assert Flat(a) + (Flat(front) + SplitLines(last + "\n")) == Flat(a) + Flat(front) + SplitLines(last + "\n");
    }
  }

  lemma {:induction false} FirstBroken(lines: seq<string>) returns (j: nat)
    requires exists l :: l in lines && !NoBreak(l)
    ensures j < |lines| && !NoBreak(lines[j]) && forall l :: l in lines[..j] ==> NoBreak(l)
  {
    hide NoBreak;
    if NoBreak(lines[0]) {
      var i := FirstBroken(lines[1..]);
      j := i + 1;
      assert lines[..j] == [lines[0]] + lines[1..][..i];
    } else {
      j := 0;
    }
  }

  /** All breaks are in the block of the id. */
  ghost predicate FreeElsewhere(d: Doc, id: BlockId) {
    (forall l :: l in d.preamble ==> NoBreak(l)) &&
    forall b, l :: b in d.sections && b.id != id && l in b.lines ==> NoBreak(l)
  }

  /** A line with a break goes to the block of the id, which is the last so far. */
  lemma BrokenGoes(p: Doc, line: string, rest: seq<string>, id: BlockId)
    requires !NoBreak(line) && !HeaderLike(line)
    requires var d := ParseFrom(ParseStep(p, line), rest); FreeElsewhere(d, id) && UniqueIds(d.sections)
    ensures p.sections != [] && Find(p.sections, id) == Some(|p.sections| - 1)
  {
    hide NoBreak, HeaderLike, HeaderName, ParseHeader, UniqueIds, ParseFrom;
    var q := ParseStep(p, line);
    var d := ParseFrom(q, rest);
    ParseMore(q, rest);
    assert forall l :: l in q.preamble ==> l in d.preamble;
    if p.sections != [] {
      var k := |p.sections| - 1;
      assert line in q.sections[k].lines && |q.sections| == |p.sections|;
      assert forall i :: 0 <= i <= k ==> p.sections[i].id == q.sections[i].id == d.sections[i].id;
      assert line in d.sections[k].lines && d.sections[k] in d.sections;
      UniqueBefore(d.sections, k);
      OnlyLast(p.sections, id);
    }
  }

  lemma UniqueBefore(blocks: seq<Block>, k: nat)
    requires UniqueIds(blocks) && k < |blocks|
    ensures forall i :: 0 <= i < k ==> blocks[i].id != blocks[k].id
  {
  }

  lemma OnlyLast(blocks: seq<Block>, id: BlockId)
    requires blocks != [] && blocks[|blocks| - 1].id == id
    requires forall i :: 0 <= i < |blocks| - 1 ==> blocks[i].id != id
    ensures Find(blocks, id) == Some(|blocks| - 1)
  {
    hide Find;
    var f := Find(blocks, id);
  }

  /** The file around its first broken line. */
  lemma AroundBroken(lines: seq<string>, key: string, value: string)
    returns (head: seq<string>, line: string, tail: seq<string>)
    requires OnlyEntry(lines, key, value) && exists l :: l in lines && !NoBreak(l)
    ensures lines == head + [line] + tail && !NoBreak(line) && EntryOf(line, key, value)
    ensures Flat(lines) == head + SplitLines(line + "\n") + Flat(tail)
  {
    hide NoBreak, EntryOf, Flat, SplitLines;
    var j := FirstBroken(lines);
    head, line, tail := lines[..j], lines[j], lines[j + 1..];
    assert lines == head + [line] + tail && line in lines;
    FlatUnbroken(head);
    FlatAppend(head + [line], tail);
    FlatSnoc(head, line);
  }

  /** The header in the value closes the block behind the empty entry. */
  lemma HeaderCloses(lines: seq<string>, id: BlockId, key: string, value: string)
    requires CleanKey(key) && Led(value) && HeaderLike(Trim(value)) && OnlyEntry(lines, key, value)
    requires var d := ParseLines(lines); FreeElsewhere(d, id) && UniqueIds(d.sections)
    requires exists l :: l in lines && !NoBreak(l)
    ensures LastPlain(LinesOf(ParseLines(Flat(lines)).sections, id), key) == Some([])
  {
    hide CleanKey, Led, NoBreak, Trim, LastPlain, HeaderLike, ParseLines, FreeElsewhere, UniqueIds, Find, LinesOf,
         Flat, OnlyEntry, EntryOf, SplitLines, ParseStep;
    var head, line, tail := AroundBroken(lines, key, value);
    EntryOfAssigns(line, key, value);
    AroundLine(head, line, tail);
    BrokenGoes(ParseLines(head), line, tail, id);
    TornCloses(head, line, Flat(tail), id, key, value);
  }

  lemma AroundLine(head: seq<string>, line: string, tail: seq<string>)
    ensures ParseLines(head + [line] + tail) == ParseFrom(ParseStep(ParseLines(head), line), tail)
  {
    hide ParseStep;
    ParseAppend(EMPTY, head + [line], tail);
    ParseAppend(EMPTY, head, [line]);
    assert [line][..0] == [];
  }

  lemma TornCloses(head: seq<string>, line: string, rest: seq<string>, id: BlockId, key: string, value: string)
    requires CleanKey(key) && Led(value) && HeaderLike(Trim(value)) && EntryOf(line, key, value)
    requires var p := ParseLines(head); p.sections != [] && Find(p.sections, id) == Some(|p.sections| - 1)
    ensures var e := ParseLines(head + SplitLines(line + "\n") + rest);
            LastPlain(LinesOf(e.sections, id), key) == Some([])
  {
    hide CleanKey, Led, StripRight, Entry, Trim, SplitAssignment, SplitLines, LastPlain, HeaderLike, Blank, ParseStep,
         Find, LinesOf, EntryOf;
    var first, before, c, after := LedLine(line, key, value);
    TrimSame(c);
    var open, close := [first] + before, [c] + (after + rest);
    assert head + SplitLines(line + "\n") + rest == head + (open + close);
    ParseAppend(EMPTY, head, open + close);
    Closed(ParseLines(head), first, before, c, after + rest, id, key);
  }

  /** Lines of the last block, a header, and more. */
  lemma ClosedBlock(p: Doc, open: seq<string>, c: string, rest: seq<string>, id: BlockId)
    requires p.sections != [] && Find(p.sections, id) == Some(|p.sections| - 1)
    requires HeaderLike(c) && forall l :: l in open ==> !HeaderLike(l)
    ensures LinesOf(ParseFrom(p, open + ([c] + rest)).sections, id) == p.sections[|p.sections| - 1].lines + open
  {
    hide HeaderLike, HeaderName, ParseHeader;
    var q, k := AddLines(p, open), |p.sections| - 1;
    ParseAppend(p, open, [c] + rest);
    ParsePlain(p, open);
    ParseAppend(q, [c], rest);
    assert [c][..0] == [];
    ParseMore(ParseStep(q, c), rest);
    var e := ParseFrom(p, open + ([c] + rest));
    assert e == ParseFrom(ParseStep(q, c), rest);
    FoundAt(e.sections, p.sections, id, k);
  }

  lemma FoundAt(a: seq<Block>, b: seq<Block>, id: BlockId, k: nat)
    requires k < |a| && k < |b| && forall i :: 0 <= i <= k ==> a[i].id == b[i].id
    requires Find(b, id) == Some(k)
    ensures Find(a, id) == Some(k)
  {
    FindFirst(b, id);
    FindFirst(a, id);
  }

  lemma {:induction false} FindFirst(blocks: seq<Block>, id: BlockId)
    ensures Find(blocks, id).Some? ==> forall i :: 0 <= i < Find(blocks, id).value ==> blocks[i].id != id
  {
    if blocks != [] && blocks[0].id != id {
      FindFirst(blocks[1..], id);
      assert forall i :: 0 < i < |blocks| ==> blocks[i] == blocks[1..][i - 1];
    }
  }

  lemma Closed(p: Doc, first: string, before: seq<string>, c: string, rest: seq<string>, id: BlockId, key: string)
    requires p.sections != [] && Find(p.sections, id) == Some(|p.sections| - 1)
    requires SplitAssignment(first) == Some(Assignment([], key, [])) && !HeaderLike(first) && HeaderLike(c)
    requires forall l :: l in before ==> Blank(l)
    ensures var e := ParseFrom(p, ([first] + before) + ([c] + rest));
            LastPlain(LinesOf(e.sections, id), key) == Some([])
  {
    hide SplitAssignment, HeaderLike, Blank, LastPlain, Find, LinesOf, ParseFrom;
    forall l | l in before ensures !HeaderLike(l) { BlankInert(l); }
    ClosedBlock(p, [first] + before, c, rest, id);
    TornStart(p.sections[|p.sections| - 1].lines, first, before, key);
  }

  // Where the entry is in the written file

  lemma SetFree(doc: Doc, id: BlockId, key: string, value: string)
    requires DocOk(doc) && !id.scope.Raw?
    ensures FreeElsewhere(SetKey(doc, id, [], key, value), id)
  {
    hide NoBreak, SetLines, DocShaped, Header;
    forall b, l | b in doc.sections && l in b.lines ensures NoBreak(l) { assert InDoc(doc, l); }
    forall l | l in doc.preamble ensures NoBreak(l) { assert InDoc(doc, l); }
  }

  lemma MoveFree(doc: Doc, at: BlockId, key: string, value: string, id: BlockId)
    requires FreeElsewhere(doc, id) && !at.scope.Raw? && CleanKey(key) && NoBreak(value)
    ensures FreeElsewhere(SetKey(doc, at, [], key, value), id)
  {
    hide NoBreak, SetLines, CleanKey, Header, Entry;
    assert IsPrefix([]);
    EntryBreaks([], key, value);
    match Find(doc.sections, at)
    case Some(i) =>
      assert doc.sections[i] in doc.sections;
      SetLinesMembers(doc.sections[i].lines, [], key, value);
    case None => SetLinesMembers([], [], key, value);
  }

  lemma {:induction false} ApplyFree(s: Schema, doc: Doc, ms: seq<(BlockId, string)>, id: BlockId)
    requires CleanKey(s.newKey) && FreeElsewhere(doc, id)
    requires forall m :: m in ms ==> NoBreak(m.1)
    ensures FreeElsewhere(ApplyMigrations(s, doc, ms), id)
  {
    hide NoBreak, SetKey, CleanKey, FreeElsewhere;
    if ms != [] {
      ApplyFree(s, doc, ms[..|ms| - 1], id);
      var (at, v) := ms[|ms| - 1];
      assert ms[|ms| - 1] in ms;
      if !at.scope.Raw? { MoveFree(ApplyMigrations(s, doc, ms[..|ms| - 1]), at, s.newKey, v, id); }
    }
  }

  lemma MigrateFree(s: Schema, doc: Doc, id: BlockId)
    requires SchemaOk(s) && DocShaped(doc) && FreeElsewhere(doc, id)
    ensures FreeElsewhere(Migrate(s, doc), id)
  {
    hide NoBreak, CleanKey, FreeElsewhere, BlockShaped, LinesShaped, TargetOk, IsRetired;
    MigrationsOk(s, doc, doc.sections);
    ApplyFree(s, doc, Migrations(s, doc, doc.sections), id);
  }

  lemma CleanFree(s: Schema, doc: Doc, id: BlockId)
    requires FreeElsewhere(Migrate(s, doc), id)
    ensures FreeElsewhere(Clean(s, doc), id)
  {
    hide NoBreak, Migrate, NonBlank, Normalize, RetiredLine;
    var d := Migrate(s, doc);
    var cleaned := CleanBlocks(s, d.sections);
    PruneMembers(cleaned);
    NoBreakEmpty();
    forall b, l | b in cleaned && b.id != id && l in b.lines ensures NoBreak(l) {
      var i :| 0 <= i < |cleaned| && cleaned[i] == b;
      NormalizeMembers(DropRetired(s, d.sections[i].id, d.sections[i].lines));
      DropRetiredMembers(s, d.sections[i].id, d.sections[i].lines);
      assert d.sections[i] in d.sections;
    }
  }

  lemma StripLastFree(blocks: seq<Block>, id: BlockId)
    requires forall b, l :: b in blocks && b.id != id && l in b.lines ==> NoBreak(l)
    ensures forall b, l :: b in StripLast(blocks) && b.id != id && l in b.lines ==> NoBreak(l)
  {
    hide NoBreak, StripRight;
    if blocks != [] && blocks[|blocks| - 1].lines != [] {
      var k := |blocks| - 1;
      var j := |blocks[k].lines| - 1;
      assert blocks[k] in blocks && blocks[k].lines[j] in blocks[k].lines;
      if NoBreak(blocks[k].lines[j]) { StripNoBreak(White, blocks[k].lines[j]); }
      forall b, l | b in StripLast(blocks) && b.id != id && l in b.lines ensures NoBreak(l) {
        assert b in blocks || b == StripLast(blocks)[k];
        assert l in blocks[k].lines || b in blocks || l == StripRight(White, blocks[k].lines[j]);
      }
    }
  }

  lemma RstripFree(lines: seq<string>)
    requires forall l :: l in lines ==> NoBreak(l)
    ensures forall l :: l in RstripLines(lines) ==> NoBreak(l)
  {
    hide NoBreak;
    assert NoBreaks(RstripLines(lines));
  }

  lemma NormalFree(s: Schema, doc: Doc, id: BlockId)
    requires FreeElsewhere(Clean(s, doc), id)
    ensures FreeElsewhere(NormalForm(s, doc), id)
  {
    hide NoBreak, Clean, StripLast, BlockLe, Separated;
    var c := Clean(s, doc);
    var sorted := Sorting.Sort(BlockLe, c.sections);
    Sorting.SortMembers(BlockLe, c.sections);
    NoBreakEmpty();
    StripLastFree(sorted, id);
    RstripFree(c.preamble);
    SeparatedMembers(c.preamble);
  }

  lemma RereadFree(d: Doc, n: Doc, id: BlockId)
    requires Reread(d, n.preamble, n.sections) && FreeElsewhere(n, id)
    ensures FreeElsewhere(d, id)
  {
    hide NoBreak, Separated;
    NoBreakEmpty();
    SeparatedMembers(n.preamble);
    forall b, l | b in d.sections && b.id != id && l in b.lines ensures NoBreak(l) {
      var i :| 0 <= i < |d.sections| && d.sections[i] == b;
      SeparatedMembers(n.sections[i].lines);
      assert n.sections[i] in n.sections;
    }
  }

  lemma WrittenFree(s: Schema, doc: Doc, id: BlockId)
    requires SchemaOk(s) && DocShaped(doc) && FreeElsewhere(doc, id) && WrittenLines(s, doc).Some?
    ensures FreeElsewhere(ParseLines(WrittenLines(s, doc).value), id)
  {
    hide SchemaOk, DocShaped, FreeElsewhere, WrittenLines, NormalForm, NormalDoc, PrintLines, Clean, Reread, ParseLines,
         Migrate;
    MigrateFree(s, doc, id);
    CleanFree(s, doc, id);
    NormalFree(s, doc, id);
    WriteIsNormal(s, doc);
    NormalPrints(s, NormalForm(s, doc));
    RereadFree(ParseLines(WrittenLines(s, doc).value), NormalForm(s, doc), id);
  }

  /** Every broken line of the file is the entry. */
  lemma WrittenOnly(s: Schema, doc: Doc, id: BlockId, key: string, value: string)
    requires SchemaOk(s) && DocOk(doc) && TargetOk(id) && CleanKey(key)
    requires WrittenLines(s, SetKey(doc, id, [], key, value)).Some?
    ensures OnlyEntry(WrittenLines(s, SetKey(doc, id, [], key, value)).value, key, value)
    ensures DocShaped(SetKey(doc, id, [], key, value))
  {
    hide SchemaOk, DocShaped, NoBreak, CleanKey, WrittenLines, SetKey, InDoc, Entry, StripRight, CanonicalMap;
    var d := SetKey(doc, id, [], key, value);
    assert IsPrefix([]);
    SetKeyShaped(doc, id, [], key, value);
    SetKeyMembers(doc, id, [], key, value);
    WrittenMembers(s, d);
    forall l | l in WrittenLines(s, d).value && !NoBreak(l) ensures EntryOf(l, key, value) {
      var x :| InDoc(d, x) && Kin(l, x);
      KinBreaks(l, x);
      StripTwice(x);
      assert x == Entry([], key, value);
    }
  }

  lemma {:induction false} ParseMembers(lines: seq<string>)
    ensures forall l :: InDoc(ParseLines(lines), l) ==> l in lines
  {
    hide ParseStep, InDoc;
    if lines == [] {
      EmptyDoc();
    } else {
      var front, last := lines[..|lines| - 1], lines[|lines| - 1];
      assert lines == front + [last];
      ParseMembers(front);
      StepMembers(ParseLines(front), last);
    }
  }

  lemma EmptyDoc()
    ensures forall l :: !InDoc(EMPTY, l)
  {
  }

  lemma {:induction false} LastEndMember(lines: seq<string>, key: string)
    requires LastEnd(lines, key).Some?
    ensures exists l :: l in lines && StripRight(White, l) == LastEnd(lines, key).value
  {
    hide SplitAssignment, StripRight;
    var last := lines[|lines| - 1];
    assert last in lines;
    if !Assigns(last, [], key) { LastEndMember(lines[..|lines| - 1], key); }
  }

  lemma LinesInDoc(doc: Doc, id: BlockId)
    ensures forall l :: l in LinesOf(doc.sections, id) ==> InDoc(doc, l)
  {
    match Find(doc.sections, id)
    case Some(i) => assert doc.sections[i] in doc.sections;
    case None =>
  }

  // The theorem

  /** What reading the torn entry gives, wherever the file has it. */
  lemma TornFile(lines: seq<string>, id: BlockId, key: string, value: string)
    requires CleanKey(key) && Led(value) && OnlyEntry(lines, key, value)
    requires FreeElsewhere(ParseLines(lines), id) && UniqueIds(ParseLines(lines).sections)
    requires LastEnd(LinesOf(ParseLines(lines).sections, id), key) == Some(StripRight(White, Entry([], key, value)))
    ensures var r := GetKey(ParseLines(Flat(lines)), id, key); r.Some? && r != Some(Strip(Quote, Trim(value)))
  {
    hide CleanKey, Led, NoBreak, StripRight, Entry, Strip, Trim, LastPlain, LastEnd, HeaderLike, ParseLines, Flat,
         FreeElsewhere, UniqueIds, InDoc, LinesOf, Whole;
    LedSomething(value);
    if HeaderLike(Trim(value)) {
      EntryIsBroken(lines, id, key, value);
      HeaderCloses(lines, id, key, value);
    } else {
      forall l | l in lines ensures Whole(l) { LedWhole(l, key, value); }
      FlatBlocks(lines);
      FlatFound(ParseLines(lines), ParseLines(Flat(lines)), id);
      OnlyIn(lines, id, key, value);
      FlatReads(LinesOf(ParseLines(lines).sections, id), key, value);
    }
  }

  lemma OnlyIn(lines: seq<string>, id: BlockId, key: string, value: string)
    requires OnlyEntry(lines, key, value)
    ensures OnlyEntry(LinesOf(ParseLines(lines).sections, id), key, value)
  {
    hide NoBreak, EntryOf, ParseLines, InDoc, LinesOf;
    ParseMembers(lines);
    LinesInDoc(ParseLines(lines), id);
  }

  lemma EntryIsBroken(lines: seq<string>, id: BlockId, key: string, value: string)
    requires CleanKey(key) && Led(value)
    requires LastEnd(LinesOf(ParseLines(lines).sections, id), key) == Some(StripRight(White, Entry([], key, value)))
    ensures exists l :: l in lines && !NoBreak(l)
  {
    hide CleanKey, NoBreak, StripRight, Entry, Strip, Trim, LastEnd, ParseLines, InDoc, LinesOf;
    ParseMembers(lines);
    LinesInDoc(ParseLines(lines), id);
    var own := LinesOf(ParseLines(lines).sections, id);
    LastEndMember(own, key);
    var l :| l in own && StripRight(White, l) == LastEnd(own, key).value;
    EntryStripped([], key, value);
    assert IsPrefix([]);
    EntryBreaks([], key, StripRight(White, value));
    if NoBreak(l) {
      StripNoBreak(White, l);
      assert false;
    }
    assert l in lines;
  }

  lemma FlatFound(d: Doc, e: Doc, id: BlockId)
    requires Flattened(d, e)
    ensures LinesOf(e.sections, id) == Flat(LinesOf(d.sections, id))
  {
    hide Flat;
    FindAlike(e.sections, d.sections, id);
    assert Flat([]) == [] by { FlatNothing(); }
  }

  lemma FlatNothing()
    ensures Flat([]) == []
  {
  }

  /** A value that is not carried does not read back. */
  lemma BrokenLost(s: Schema, doc: Doc, id: BlockId, key: string, value: string)
    requires SchemaOk(s) && DocOk(doc) && UniqueIds(doc.sections) && TargetOk(id) && CleanKey(key)
    requires !IsRetired(s, id.scope, id.section, key) && !Carried(value)
    requires WrittenText(s, SetKey(doc, id, [], key, value)).Some?
    ensures GetKey(ReadText(s, WrittenText(s, SetKey(doc, id, [], key, value)).value), id, key) !=
            Some(Strip(Quote, Trim(value)))
  {
    hide SchemaOk, DocOk, UniqueIds, TargetOk, CleanKey, Carried, NoBreak, Strip, Trim, GetKey, ReadText, WrittenText;
    RawTarget(id);
    var t := WrittenText(s, SetKey(doc, id, [], key, value)).value;
    ReadOk(s, t);
    GetKeyValue(ReadText(s, t), id, key);
    if NoBreak(Strip(Quote, Trim(value))) {
      LedLost(s, doc, id, key, value);
    }
  }

  lemma RawTarget(id: BlockId)
    requires TargetOk(id)
    ensures !id.scope.Raw?
  {
  }

  lemma LedLost(s: Schema, doc: Doc, id: BlockId, key: string, value: string)
    requires SchemaOk(s) && DocOk(doc) && UniqueIds(doc.sections) && TargetOk(id) && CleanKey(key)
    requires !IsRetired(s, id.scope, id.section, key) && Led(value)
    requires WrittenText(s, SetKey(doc, id, [], key, value)).Some?
    ensures GetKey(ReadText(s, WrittenText(s, SetKey(doc, id, [], key, value)).value), id, key) !=
            Some(Strip(Quote, Trim(value)))
  {
    hide SchemaOk, UniqueIds, CleanKey, Led, NoBreak, Strip, Trim, GetKey, WrittenLines, SetKey, ParseLines, SplitLines,
         Join, Migrate, FreeElsewhere, DocShaped, InDoc, LastEnd, LinesOf, Entry, StripRight, CanonicalMap, IsRetired,
         NoRetired, OnlyEntry;
    var d := SetKey(doc, id, [], key, value);
    var lines := WrittenLines(s, d).value;
    assert IsPrefix([]);
    WrittenOnly(s, doc, id, key, value);
    SetFree(doc, id, key, value);
    WrittenFree(s, d, id);
    SetKeyBlocks(doc, id, [], key, value);
    MigrateBlocks(s, d);
    WrittenEnds(s, d, id, key);
    SetKeyReads(doc, id, [], key, value, id, key);
    MigratedEnds(s, d, id, key);
    SetKeyEnds(doc, id, [], key, value, id, key);
    TornFile(lines, id, key, value);
    WrittenSome(s, d);
    SplitFlat(lines);
    MigratedReads(s, ParseLines(Flat(lines)), id, key);
  }

  /** Everything reads as the edit says, in every block and under every live key. */
  ghost predicate AllAsEdited(s: Schema, before: Doc, e: Edit, after: Doc) {
    forall id: BlockId, key :: !IsRetired(s, id.scope, id.section, key) ==>
      GetKey(after, id, key) == Expected([e], id, key, GetKey(before, id, key))
  }

  /** Setting a live key, writing the file and reading it back: the key reads as the
      value exactly when the value is carried, and then every other key of the
      file reads as before. */
  lemma CarriedExactly(s: Schema, text: string, id: BlockId, key: string, value: string)
    requires SchemaOk(s) && UniqueIds(ReadText(s, text).sections) && TargetOk(id) && CleanKey(key)
    requires !IsRetired(s, id.scope, id.section, key)
    requires WrittenText(s, SetKey(ReadText(s, text), id, [], key, value)).Some?
    ensures var d := ReadText(s, WrittenText(s, SetKey(ReadText(s, text), id, [], key, value)).value);
            (GetKey(d, id, key) == Some(Strip(Quote, Trim(value))) <==> Carried(value)) &&
            (AllAsEdited(s, ReadText(s, text), Set(id, [], key, value), d) <==> Carried(value))
  {
    hide SchemaOk, UniqueIds, CleanKey, Carried, Strip, Trim, GetKey, ReadText, WrittenText, SetKey, IsRetired,
         CanonicalMap, NoBreak, LegacyHours, Expected, DocOk, NoRetired;
    var e := Set(id, [], key, value);
    var before := ReadText(s, text);
    var d := ReadText(s, WrittenText(s, SetKey(before, id, [], key, value)).value);
    assert IsPrefix([]);
    assert SetKey(before, id, [], key, value) == Edited(before, e);
    ExpectedSet(e, GetKey(before, id, key));
    if Carried(value) {
      assert EditOk(s, e);
      forall id2: BlockId, k | !IsRetired(s, id2.scope, id2.section, k)
        ensures GetKey(d, id2, k) == Expected([e], id2, k, GetKey(before, id2, k))
      {
        EditOutcome(s, text, e, id2, k);
      }
    } else {
      ReadOk(s, text);
      BrokenLost(s, before, id, key, value);
    }
  }

  lemma ExpectedSet(e: Edit, before: Option<string>)
    requires e.Set? && e.prefix == []
    ensures Expected([e], e.id, e.key, before) == Some(Strip(Quote, Trim(e.value)))
  {
    hide Strip, Trim;
  }
}
