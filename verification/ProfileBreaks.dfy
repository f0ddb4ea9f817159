/** Line breaks inside a value. The check of profile_set_key knows newline, carriage
    return and NUL, the reader also breaks lines elsewhere: what a read makes of a
    written line that holds such a break, and which values come through. */
module ProfileBreaks {
  import opened Wrappers
  import opened Text
  import opened IniLine
  import opened ProfileLines
  import opened ProfileText
  import opened ProfileNormal
  import opened ProfileRoundTrip
  import opened ProfileFixpoint
  import opened ProfileReads
  import opened ProfileMigration

  /** A value that comes through: free of breaks but for its end, or nothing at all
      once it is stripped. */
  predicate Carried(value: string) {
    NoBreak(StripRight(White, value)) || Strip(Quote, Trim(value)) == []
  }

  ghost predicate CarriedLine(line: string) {
    NoBreak(line) || exists p, k, v :: IsPrefix(p) && CleanKey(k) && Carried(v) && line == Entry(p, k, v)
  }

  // Splitting joined lines that may hold breaks

  /** The lines that reading makes of each written line. */
  function Flat(lines: seq<string>): seq<string> {
    if lines == [] then []
    else Flat(lines[..|lines| - 1]) + SplitLines(lines[|lines| - 1] + "\n")
  }

  /** The length of the break at i. */
  function Width(s: string, i: nat): (w: nat)
    requires i < |s|
    ensures i + w <= |s| && w > 0
  {
    if s[i] == '\r' && i + 1 < |s| && s[i + 1] == '\n' then 2 else 1
  }

  lemma SplitStep(s: string, i: nat)
    requires i < |s| && IsBreak(s[i]) && forall j :: 0 <= j < i ==> !IsBreak(s[j])
    ensures SplitLines(s) == [s[..i]] + SplitLines(s[i + Width(s, i)..])
    ensures BreakIndex(s) == i
  {
    hide IsBreak, BreakIndex;
    assert BreakIndex(s) == i;
  }

  lemma {:induction false} SplitAfter(a: string, b: string)
    requires a != [] && a[|a| - 1] == '\n'
    ensures SplitLines(a + b) == SplitLines(a) + SplitLines(b)
    decreases |a|
  {
    hide SplitLines, IsBreak;
    var s, i := a + b, BreakIndex(a);
    NewlineBreaks();
    assert s[i] == a[i];
    assert forall j :: 0 <= j < i ==> s[j] == a[j];
    SplitStep(a, i);
    SplitStep(s, i);
    var rest := a[i + Width(a, i)..];
    assert s[..i] == a[..i] && s[i + Width(s, i)..] == rest + b;
    if rest != [] {
      SplitAfter(rest, b);
    } else {
      SplitNothing();
      assert [] + b == b;
    }
  }

  lemma SplitNothing()
    ensures SplitLines([]) == []
  {
  }

  /** Reading joined lines reads each of them. */
  lemma {:induction false} SplitFlat(lines: seq<string>)
    requires lines != []
    ensures SplitLines(Join(lines) + "\n") == Flat(lines)
  {
    hide SplitLines, Join;
    var front, last := lines[..|lines| - 1], lines[|lines| - 1];
    if front == [] {
      assert Join(lines) == last by { JoinOne(lines); }
    } else {
      SplitFlat(front);
      assert lines == front + [last];
      JoinSnoc(front, last);
      assert Join(lines) + "\n" == (Join(front) + "\n") + (last + "\n");
      SplitAfter(Join(front) + "\n", last + "\n");
    }
  }

  lemma JoinOne(lines: seq<string>)
    requires |lines| == 1
    ensures Join(lines) == lines[0]
  {
  }

  /** A line that no parser or reader takes anything from. */
  predicate Inert(line: string) { !HeaderLike(line) && SplitAssignment(line).None? }

  /** Lines that the parser and the plain reads take for the same. */
  predicate Alike(a: string, b: string) {
    HeaderLike(a) == HeaderLike(b) && (HeaderLike(a) ==> HeaderName(a) == HeaderName(b)) &&
    SplitAssignment(a).Some? == SplitAssignment(b).Some? &&
    (SplitAssignment(a).Some? ==>
      SplitAssignment(a).value.prefix == SplitAssignment(b).value.prefix &&
      SplitAssignment(a).value.key == SplitAssignment(b).value.key &&
      PlainValue(a) == PlainValue(b))
  }

  /** Reading the line gives one that is alike, and lines that say nothing. */
  ghost predicate Loose(line: string) {
    var g := SplitLines(line + "\n");
    g != [] && Alike(g[0], line) && forall l :: l in g[1..] ==> Inert(l)
  }

  lemma LineItself(line: string)
    requires NoBreak(line)
    ensures SplitLines(line + "\n") == [line]
  {
    SplitHead(line, []);
    assert line + "\n" + [] == line + "\n";
  }

  predicate Padding(c: char) { IsSpace(c) || c == '"' }

  lemma {:induction false} PaddingLines(s: string)
    requires forall i :: 0 <= i < |s| ==> Padding(s[i])
    ensures forall l :: l in SplitLines(s) ==> Inert(l)
    decreases |s|
  {
    hide Inert, Padding, IsBreak;
    if s != [] {
      var i := BreakIndex(s);
      PaddingInert(s[..i]);
      if i == |s| {
        assert s[..i] == s;
      } else {
        SplitStep(s, i);
        PaddingLines(s[i + Width(s, i)..]);
      }
    }
  }

  lemma PaddingInert(line: string)
    requires forall i :: 0 <= i < |line| ==> Padding(line[i])
    ensures Inert(line)
  {
    hide Strip;
    var l, r := StripParts(White, line);
    var core := Trim(line);
    assert forall i :: 0 <= i < |core| ==> core[i] == line[|l| + i];
    assert !Padding('=') && !Padding('[');
    assert '=' !in core;
  }

  /** White space behind a text changes nothing of its trimmed form. */
  lemma TrimBehind(s: string, w: string)
    requires forall i :: 0 <= i < |w| ==> IsSpace(w[i])
    ensures Trim(s + w) == Trim(s)
  {
    StripRightSuffix(s, w);
    AllRight(w);
    TrimOfStripRight(s + w);
    TrimOfStripRight(s);
  }

  lemma {:induction false} AllRight(w: string)
    requires forall i :: 0 <= i < |w| ==> IsSpace(w[i])
    ensures StripRight(White, w) == []
  {
    if w != [] { AllRight(w[..|w| - 1]); }
  }

  lemma NothingQuoted(core: string)
    requires Strip(Quote, core) == []
    ensures forall i :: 0 <= i < |core| ==> core[i] == '"'
  {
    hide Strip;
    var x, y := StripParts(Quote, core);
    assert core == x + y;
  }

  /** The start of a value that strips to nothing strips to nothing. */
  lemma NothingStarts(v: string, n: nat)
    requires Strip(Quote, Trim(v)) == [] && n <= |v|
    ensures Strip(Quote, Trim(v[..n])) == []
    ensures forall i :: 0 <= i < |v| ==> Padding(v[i])
  {
    hide Strip, IsSpace;
    var l, r := StripParts(White, v);
    var core := Trim(v);
    NothingQuoted(core);
    assert v == l + core + r;
    assert forall i :: 0 <= i < |l| ==> v[i] == l[i] && White.Has(l[i]);
    assert forall i :: |l| <= i < |l| + |core| ==> v[i] == core[i - |l|] == '"';
    assert forall i :: |l| + |core| <= i < |v| ==> v[i] == r[i - |l| - |core|] && White.Has(r[i - |l| - |core|]);
    var u := v[..n];
    var m := if n < |l| then n else |l|;
    var k := if n < |l| + |core| then n else |l| + |core|;
    Between(u, m, k);
  }

  /** White space, quotes, white space. */
  lemma Between(u: string, m: nat, k: nat)
    requires m <= k <= |u|
    requires forall i :: 0 <= i < |u| ==> if m <= i < k then u[i] == '"' else White.Has(u[i])
    ensures Strip(Quote, Trim(u)) == []
  {
    hide Strip, IsSpace;
    var quotes := u[m..k];
    assert u == u[..m] + quotes + u[k..];
    assert forall i :: 0 <= i < |quotes| ==> quotes[i] == u[m + i];
    assert forall i :: 0 <= i < |u[k..]| ==> u[k..][i] == u[k + i];
    QuotesStripped(quotes);
    StripPadded(White, u[..m], quotes, u[k..]);
    AllStrips(Quote, quotes);
  }

  lemma QuotesStripped(quotes: string)
    requires forall i :: 0 <= i < |quotes| ==> quotes[i] == '"'
    ensures Stripped(White, quotes)
  {
    assert !IsSpace('"');
  }

  /** A carried entry reads as itself, with nothing behind it. */
  lemma EntryLoose(prefix: string, key: string, value: string)
    requires IsPrefix(prefix) && CleanKey(key) && Carried(value)
    ensures Loose(Entry(prefix, key, value))
  {
    hide IsPrefix, CleanKey, Strip, Padding, Alike, Inert, IsBreak, Carried, Width, SplitLines;
    var head := prefix + key + "=";
    var s, from := head + value + "\n", |head|;
    EntryBreaks(prefix, key, value);
    NewlineBreaks();
    var i := BreakIndex(s);
    assert s[|s| - 1] == '\n';
    assert forall j :: 0 <= j < from ==> s[j] == head[j];
    assert from <= i < |s|;
    assert s[from..|s| - 1] == value;
    PaddedBehind(value, s, from, i);
    assert s[..i] == Entry(prefix, key, value[..i - from]);
    EntryAlike(prefix, key, value, value[..i - from]);
    SplitStep(s, i);
    PaddingLines(s[i + Width(s, i)..]);
    assert s == Entry(prefix, key, value) + "\n";
    HeadAndRest(s[..i], SplitLines(s[i + Width(s, i)..]));
  }

  lemma HeadAndRest(line: string, rest: seq<string>)
    ensures ([line] + rest)[0] == line && ([line] + rest)[1..] == rest
  {
  }

  lemma NewlineBreaks()
    ensures IsBreak('\n') && Padding('\n')
  {
  }

  lemma EntryAlike(prefix: string, key: string, value: string, start: string)
    requires IsPrefix(prefix) && CleanKey(key) && Strip(Quote, Trim(start)) == Strip(Quote, Trim(value))
    ensures Alike(Entry(prefix, key, start), Entry(prefix, key, value))
  {
    hide IsPrefix, CleanKey, Strip, Trim, HeaderLike, SplitAssignment, Entry;
    EntryParses(prefix, key, value);
    EntryParses(prefix, key, start);
  }

  /** Behind the first break of a carried value there is only padding, and what
      comes before it strips to the same. */
  lemma PaddedBehind(value: string, s: string, from: nat, i: nat)
    requires Carried(value) && |s| == from + |value| + 1 && s[|s| - 1] == '\n' && s[from..|s| - 1] == value
    requires from <= i < |s| && IsBreak(s[i]) && forall j :: from <= j < i ==> !IsBreak(s[j])
    ensures forall j :: i <= j < |s| ==> Padding(s[j])
    ensures Strip(Quote, Trim(value[..i - from])) == Strip(Quote, Trim(value))
  {
    hide Strip, Padding, IsBreak;
    NewlineBreaks();
    assert forall j :: from <= j < |s| - 1 ==> s[j] == value[j - from];
    var n := i - from;
    if Strip(Quote, Trim(value)) == [] {
      NothingStarts(value, n);
    } else {
      assert forall j :: 0 <= j < n ==> value[j] == s[from + j];
      assert n < |value| ==> value[n] == s[i];
      OnlyEndBreaks(value, n);
    }
  }

  /** A value that breaks at n, and nowhere but at its end. */
  lemma OnlyEndBreaks(value: string, n: nat)
    requires n <= |value| && NoBreak(StripRight(White, value)) && (n < |value| ==> IsBreak(value[n]))
    ensures forall j :: n <= j < |value| ==> Padding(value[j])
    ensures Trim(value[..n]) == Trim(value)
  {
    hide NoBreak, IsBreak, IsSpace, Trim, StripRight, Padding;
    var q := StripRight(White, value);
    var r := RightPart(White, value);
    BreakPastHead(q, r, n);
    var w := r[..n - |q|];
    assert (q + r)[..n] == q + w;
    TrimBehind(q, r);
    TrimBehind(q, w);
    SpacePads(r);
    assert forall j :: n <= j < |value| ==> value[j] == r[j - |q|];
  }

  lemma BreakPastHead(q: string, r: string, n: nat)
    requires NoBreak(q) && n <= |q + r| && (n < |q + r| ==> IsBreak((q + r)[n]))
    ensures |q| <= n
  {
    hide IsBreak;
    assert forall j :: 0 <= j < |q| ==> (q + r)[j] == q[j];
  }

  lemma SpacePads(w: string)
    requires forall i :: 0 <= i < |w| ==> IsSpace(w[i])
    ensures forall i :: 0 <= i < |w| ==> Padding(w[i])
  {
    hide IsSpace;
  }

  lemma CarriedLoose(line: string)
    requires CarriedLine(line)
    ensures Loose(line)
  {
    hide NoBreak, SplitAssignment, HeaderLike, IsPrefix, CleanKey, Carried, Entry;
    if NoBreak(line) {
      LineItself(line);
    } else {
      var p, k, v :| IsPrefix(p) && CleanKey(k) && Carried(v) && line == Entry(p, k, v);
      EntryLoose(p, k, v);
    }
  }

  /** Stripping the end of a carried line leaves it carried. */
  lemma CarriedKin(line: string, of: string)
    requires CarriedLine(of) && Kin(line, of)
    ensures CarriedLine(line)
  {
    hide IsPrefix, CleanKey, Strip, NoBreak, StripRight, Entry;
    if NoBreak(of) {
      KinBreaks(line, of);
    } else if line != of {
      var p, k, v :| IsPrefix(p) && CleanKey(k) && Carried(v) && of == Entry(p, k, v);
      EntryStripped(p, k, v);
      StripTwice(v);
      TrimOfStripRight(v);
      assert Carried(StripRight(White, v));
    }
  }

  lemma EntryStripped(prefix: string, key: string, value: string)
    ensures StripRight(White, Entry(prefix, key, value)) == Entry(prefix, key, StripRight(White, value))
  {
    var head := prefix + key + "=";
    assert head[|head| - 1] == '=' && !IsSpace('=');
    StripRightSuffix(head, value);
    assert head + [] == head;
  }

  // Parsing what reading makes of the lines

  /** The second lines read as the first, and hold a retired line only if those do. */
  ghost predicate Follows(s: Schema, id: BlockId, a: seq<string>, b: seq<string>) {
    (forall k :: LastPlain(b, k) == LastPlain(a, k)) &&
    ((forall l :: l in a ==> !RetiredLine(s, id, l)) ==> forall l :: l in b ==> !RetiredLine(s, id, l))
  }

  ghost predicate DocFollows(s: Schema, d: Doc, e: Doc) {
    |d.sections| == |e.sections| &&
    forall i :: 0 <= i < |d.sections| ==>
      d.sections[i].id == e.sections[i].id && Follows(s, d.sections[i].id, d.sections[i].lines, e.sections[i].lines)
  }

  lemma {:induction false} LastPlainInert(a: seq<string>, b: seq<string>, key: string)
    requires forall l :: l in b ==> !Assigns(l, [], key)
    ensures LastPlain(a + b, key) == LastPlain(a, key)
  {
    hide SplitAssignment;
    if b == [] {
      assert a + b == a;
    } else {
      assert b[|b| - 1] in b;
      LastPlainInert(a, b[..|b| - 1], key);
      assert (a + b)[..|a + b| - 1] == a + b[..|b| - 1];
    }
  }

  lemma FollowsMore(s: Schema, id: BlockId, a: seq<string>, b: seq<string>, line: string, g: seq<string>)
    requires Follows(s, id, a, b) && g != [] && Alike(g[0], line) && forall l :: l in g[1..] ==> Inert(l)
    ensures Follows(s, id, a + [line], b + g)
  {
    hide SplitAssignment, HeaderLike, Strip, HeaderName;
    assert b + g == (b + [g[0]]) + g[1..];
    forall k ensures LastPlain(b + g, k) == LastPlain(a + [line], k) {
      LastPlainInert(b + [g[0]], g[1..], k);
      assert (b + [g[0]])[..|b|] == b && (a + [line])[..|a|] == a;
    }
    if forall l :: l in a + [line] ==> !RetiredLine(s, id, l) {
      assert line in a + [line];
      assert forall l :: l in a ==> l in a + [line];
      assert g == [g[0]] + g[1..];
    }
  }

  lemma FollowsNothing(s: Schema, id: BlockId, g: seq<string>)
    requires forall l :: l in g ==> Inert(l)
    ensures Follows(s, id, [], g)
  {
    hide SplitAssignment, HeaderLike;
    forall k ensures LastPlain(g, k) == LastPlain([], k) {
      LastPlainInert([], g, k);
      assert [] + g == g;
    }
  }

  lemma FollowsStep(s: Schema, d: Doc, e: Doc, line: string, g: seq<string>)
    requires DocFollows(s, d, e) && g != [] && Alike(g[0], line) && forall l :: l in g[1..] ==> Inert(l)
    ensures DocFollows(s, ParseStep(d, line), AddLines(ParseStep(e, g[0]), g[1..]))
  {
    hide HeaderLike, HeaderName, SplitAssignment, ParseHeader, Follows;
    if HeaderLike(line) {
      var k := |e.sections|;
      var id := ParseHeader(HeaderName(line));
      FollowsNothing(s, id, g[1..]);
      assert [] + g[1..] == g[1..];
    } else if d.sections != [] {
      var k := |d.sections| - 1;
      FollowsMore(s, d.sections[k].id, d.sections[k].lines, e.sections[k].lines, line, g);
      assert e.sections[k].lines + [g[0]] + g[1..] == e.sections[k].lines + g;
    }
  }

  lemma {:induction false} ParseFlat(s: Schema, lines: seq<string>)
    requires forall l :: l in lines ==> Loose(l)
    ensures DocFollows(s, ParseLines(lines), ParseLines(Flat(lines)))
  {
    hide Loose, ParseStep, Follows, SplitLines;
    if lines != [] {
      var front, last := lines[..|lines| - 1], lines[|lines| - 1];
      ParseFlat(s, front);
      assert last in lines;
      var g := SplitLines(last + "\n");
      LooseParts(last);
      var e := ParseLines(Flat(front));
      ParseAppend(EMPTY, Flat(front), g);
      ParseGroup(e, g);
      FollowsStep(s, ParseLines(front), e, last, g);
    }
  }

  lemma LooseParts(line: string)
    requires Loose(line)
    ensures var g := SplitLines(line + "\n");
            g != [] && Alike(g[0], line) && forall l :: l in g[1..] ==> Inert(l)
  {
    hide Alike, Inert;
  }

  lemma ParseGroup(e: Doc, g: seq<string>)
    requires g != [] && forall l :: l in g[1..] ==> Inert(l)
    ensures ParseFrom(e, g) == AddLines(ParseStep(e, g[0]), g[1..])
  {
    hide ParseStep, HeaderLike, SplitAssignment;
    assert g == [g[0]] + g[1..];
    ParseAppend(e, [g[0]], g[1..]);
    assert [g[0]][..0] == [];
    ParsePlain(ParseStep(e, g[0]), g[1..]);
  }

  lemma FollowsReads(s: Schema, d: Doc, e: Doc, id: BlockId, key: string)
    requires DocFollows(s, d, e)
    ensures GetKey(e, id, key) == GetKey(d, id, key)
    ensures UniqueIds(d.sections) ==> UniqueIds(e.sections)
    ensures NoRetired(s, d.sections) ==> NoRetired(s, e.sections)
  {
    hide LastPlain, RetiredLine;
    FindAlike(d.sections, e.sections, id);
    if NoRetired(s, d.sections) {
      forall b, l | b in e.sections && l in b.lines ensures !RetiredLine(s, b.id, l) {
        var i :| 0 <= i < |e.sections| && e.sections[i] == b;
        assert d.sections[i] in d.sections;
      }
    }
  }

  // Reads across a write

  ghost predicate CarriedDoc(doc: Doc) { forall l :: InDoc(doc, l) ==> CarriedLine(l) }

  lemma WrittenCarried(s: Schema, doc: Doc)
    requires SchemaOk(s) && DocShaped(doc) && CarriedDoc(doc) && WrittenLines(s, doc).Some?
    ensures forall l :: l in WrittenLines(s, doc).value ==> Loose(l)
  {
    hide SchemaOk, DocShaped, WrittenLines, InDoc, CarriedLine, Kin, Loose, NoBreak;
    WrittenMembers(s, doc);
    forall l | l in WrittenLines(s, doc).value ensures Loose(l) {
      if NoBreak(l) {
        FreeCarried(l);
      } else {
        var x :| InDoc(doc, x) && Kin(l, x);
        CarriedKin(l, x);
      }
      CarriedLoose(l);
    }
  }

  lemma FreeCarried(line: string)
    requires NoBreak(line)
    ensures CarriedLine(line)
  {
    hide NoBreak;
  }

  /** A write and a read keep every live key of the migrated profile, and leave no
      retired one. */
  lemma WriteKeepsReads(s: Schema, doc: Doc, id: BlockId, key: string)
    requires SchemaOk(s) && DocShaped(doc) && CarriedDoc(doc) && UniqueIds(doc.sections)
    requires WrittenText(s, doc).Some?
    ensures var d := ReadText(s, WrittenText(s, doc).value);
            GetKey(d, id, key) ==
              (if IsRetired(s, id.scope, id.section, key) then None else GetKey(Migrate(s, doc), id, key)) &&
            UniqueIds(d.sections) && NoRetired(s, d.sections)
  {
    hide SchemaOk, DocShaped, CarriedDoc, UniqueIds, NoRetired, WrittenLines, ParseLines, Loose, DocFollows, Migrate,
         LastPlain, LastEnd, LinesOf, SplitLines, Join, IsRetired, PlainValue;
    var lines := WrittenLines(s, doc).value;
    MigrateBlocks(s, doc);
    WrittenEnds(s, doc, id, key);
    WrittenCarried(s, doc);
    WrittenSome(s, doc);
    SplitFlat(lines);
    ParseFlat(s, lines);
    var d, e := ParseLines(lines), ParseLines(Flat(lines));
    FollowsReads(s, d, e, id, key);
    MigrateFixed(s, e);
    LastEndReads(LinesOf(d.sections, id), key);
    LastEndReads(LinesOf(Migrate(s, doc).sections, id), key);
  }
}
