/** Python's str operations on which the settings files depend: white space
    and line-break classes, strip, the first occurrence of a character,
    splitlines and join. */
module Text {
  import opened Wrappers

  /** The characters at which str.splitlines breaks. */
  predicate IsBreak(c: char) {
    c == '\n' || c == '\r' || c == '\U{0B}' || c == '\U{0C}' || ('\U{1C}' <= c <= '\U{1E}') ||
    c == '\U{85}' || c == '\U{2028}' || c == '\U{2029}'
  }

  /** The characters that str.strip() removes. */
  predicate IsSpace(c: char) {
    IsBreak(c) || c == ' ' || c == '\t' || c == '\U{1F}' || c == '\U{A0}' || c == '\U{1680}' ||
    ('\U{2000}' <= c <= '\U{200A}') || c == '\U{202F}' || c == '\U{205F}' || c == '\U{3000}'
  }

  /** What a strip call removes: white space, or the double quote of strip('"'). */
  datatype Class = White | Quote {
    predicate Has(c: char) {
      match this
      case White => IsSpace(c)
      case Quote => c == '"'
    }
  }

  function StripLeft(cls: Class, s: string): (r: string)
    ensures r == [] || !cls.Has(r[0])
    ensures s == [] || !cls.Has(s[0]) ==> r == s
  {
    if s != [] && cls.Has(s[0]) then StripLeft(cls, s[1..]) else s
  }

  function StripRight(cls: Class, s: string): (r: string)
    ensures r == [] || !cls.Has(r[|r| - 1])
    ensures s == [] || !cls.Has(s[|s| - 1]) ==> r == s
  {
    if s != [] && cls.Has(s[|s| - 1]) then StripRight(cls, s[..|s| - 1]) else s
  }

  function Strip(cls: Class, s: string): (r: string)
    ensures Stripped(cls, r)
    ensures Stripped(cls, s) ==> r == s
  {
    StripRightHead(cls, StripLeft(cls, s));
    StripRight(cls, StripLeft(cls, s))
  }

  lemma {:induction false} StripRightHead(cls: Class, s: string)
    ensures StripRight(cls, s) != [] ==> s != [] && StripRight(cls, s)[0] == s[0]
  {
    if s != [] && cls.Has(s[|s| - 1]) {
      StripRightHead(cls, s[..|s| - 1]);
    }
  }

  /** Neither end is a character of the class. */
  predicate Stripped(cls: Class, s: string) {
    s == [] || (!cls.Has(s[0]) && !cls.Has(s[|s| - 1]))
  }

  function Trim(s: string): (r: string)
    ensures Stripped(White, r)
    ensures Stripped(White, s) ==> r == s
  {
    Strip(White, s)
  }

  predicate Trimmed(s: string) { Stripped(White, s) }

  /** A line that is empty or all white space. */
  predicate Blank(line: string) { Trim(line) == [] }

  predicate NoBreak(s: string) { forall i :: 0 <= i < |s| ==> !IsBreak(s[i]) }

  /** The index of the first c in s, or |s|. */
  function IndexOf(s: string, c: char): (i: nat)
    ensures i <= |s|
    ensures i < |s| ==> s[i] == c
    ensures forall j :: 0 <= j < i ==> s[j] != c
  {
    if s == [] || s[0] == c then 0 else 1 + IndexOf(s[1..], c)
  }

  /** s.split(c, 1) when c occurs. */
  function Cut(s: string, c: char): (r: Option<(string, string)>)
    ensures r.Some? ==> s == r.value.0 + [c] + r.value.1 && c !in r.value.0
    ensures r.None? <==> c !in s
  {
    var i := IndexOf(s, c);
    if i == |s| then None else Some((s[..i], s[i + 1..]))
  }

  lemma CutUnique(a: string, c: char, b: string)
    requires c !in a
    ensures Cut(a + [c] + b, c) == Some((a, b))
  {
    var s := a + [c] + b;
    var i := IndexOf(s, c);
    assert s[|a|] == c;
    assert forall j :: 0 <= j < |a| ==> s[j] == a[j];
    assert i == |a|;
    assert s[..i] == a && s[i + 1..] == b;
  }

  /** Text that is a trimmed core between white space strips to that core. */
  lemma StripPadded(cls: Class, l: string, core: string, r: string)
    requires forall i :: 0 <= i < |l| ==> cls.Has(l[i])
    requires forall i :: 0 <= i < |r| ==> cls.Has(r[i])
    requires Stripped(cls, core)
    ensures Strip(cls, l + core + r) == core
  {
    if core == [] {
      assert l + core + r == l + r;
      AllStrips(cls, l + r);
    } else {
      StripLeftPadded(cls, l, core + r);
      assert l + (core + r) == l + core + r;
      StripRightPadded(cls, core, r);
    }
  }

  lemma {:induction false} AllStrips(cls: Class, s: string)
    requires forall i :: 0 <= i < |s| ==> cls.Has(s[i])
    ensures Strip(cls, s) == []
  {
    if s != [] { AllStrips(cls, s[1..]); }
  }

  lemma {:induction false} StripLeftPadded(cls: Class, l: string, s: string)
    requires forall i :: 0 <= i < |l| ==> cls.Has(l[i])
    requires s != [] && !cls.Has(s[0])
    ensures StripLeft(cls, l + s) == s
  {
    if l == [] {
      assert l + s == s;
    } else {
      StripLeftPadded(cls, l[1..], s);
      assert (l + s)[1..] == l[1..] + s;
    }
  }

  lemma {:induction false} StripRightPadded(cls: Class, s: string, r: string)
    requires forall i :: 0 <= i < |r| ==> cls.Has(r[i])
    requires s != [] && !cls.Has(s[|s| - 1])
    ensures StripRight(cls, s + r) == s
  {
    if r == [] {
      assert s + r == s;
    } else {
      StripRightPadded(cls, s, r[..|r| - 1]);
      assert (s + r)[..|s + r| - 1] == s + r[..|r| - 1];
    }
  }

  /** The characters that strip removes from each side. */
  lemma StripParts(cls: Class, s: string) returns (l: string, r: string)
    ensures s == l + Strip(cls, s) + r
    ensures forall i :: 0 <= i < |l| ==> cls.Has(l[i])
    ensures forall i :: 0 <= i < |r| ==> cls.Has(r[i])
  {
    l := LeftPart(cls, s);
    r := RightPart(cls, StripLeft(cls, s));
    assert l + (Strip(cls, s) + r) == l + Strip(cls, s) + r;
  }

  lemma {:induction false} LeftPart(cls: Class, s: string) returns (l: string)
    ensures s == l + StripLeft(cls, s)
    ensures forall i :: 0 <= i < |l| ==> cls.Has(l[i])
  {
    if s != [] && cls.Has(s[0]) {
      var l' := LeftPart(cls, s[1..]);
      l := [s[0]] + l';
    } else {
      l := [];
    }
  }

  lemma {:induction false} RightPart(cls: Class, s: string) returns (r: string)
    ensures s == StripRight(cls, s) + r
    ensures forall i :: 0 <= i < |r| ==> cls.Has(r[i])
  {
    if s != [] && cls.Has(s[|s| - 1]) {
      var r' := RightPart(cls, s[..|s| - 1]);
      r := r' + [s[|s| - 1]];
    } else {
      r := [];
    }
  }

  /** A right-stripped line strips to the same core. */
  lemma TrimOfStripRight(s: string)
    ensures Trim(StripRight(White, s)) == Trim(s)
  {
    var q := StripRight(White, s);
    var r := RightPart(White, s);
    var l, r2 := StripParts(White, q);
    var core := Trim(q);
    Regroup(l, core, r2, r);
    StripPadded(White, l, core, r2 + r);
  }

  lemma Regroup(a: string, b: string, c: string, d: string)
    ensures a + b + c + d == a + b + (c + d)
  {
  }

  lemma StripNoBreak(cls: Class, s: string)
    requires NoBreak(s)
    ensures NoBreak(Strip(cls, s)) && NoBreak(StripRight(cls, s))
  {
    var l, r := StripParts(cls, s);
    var core := Strip(cls, s);
    assert forall i :: 0 <= i < |core| ==> core[i] == s[|l| + i];
    var q := StripRight(cls, s);
    r := RightPart(cls, s);
    assert forall i :: 0 <= i < |q| ==> q[i] == s[i];
  }

  /** "\n".join(lines). */
  function Join(lines: seq<string>): string {
    if lines == [] then []
    else if |lines| == 1 then lines[0]
    else lines[0] + "\n" + Join(lines[1..])
  }

  /** The index of the first line break of s, or |s|. */
  function BreakIndex(s: string): (i: nat)
    ensures i <= |s|
    ensures i < |s| ==> IsBreak(s[i])
    ensures forall j :: 0 <= j < i ==> !IsBreak(s[j])
  {
    if s == [] || IsBreak(s[0]) then 0 else 1 + BreakIndex(s[1..])
  }

  /** str.splitlines: "\r\n" is one break and a final break ends the last line. */
  function SplitLines(s: string): (lines: seq<string>)
    ensures forall i :: 0 <= i < |lines| ==> NoBreak(lines[i])
    decreases |s|
  {
    if s == [] then []
    else
      var i := BreakIndex(s);
      if i == |s| then [s]
      else
        var width := if s[i] == '\r' && i + 1 < |s| && s[i + 1] == '\n' then 2 else 1;
        [s[..i]] + SplitLines(s[i + width..])
  }

  predicate NoBreaks(lines: seq<string>) {
    forall i :: 0 <= i < |lines| ==> NoBreak(lines[i])
  }

  lemma SplitHead(line: string, rest: string)
    requires NoBreak(line)
    ensures SplitLines(line + "\n" + rest) == [line] + SplitLines(rest)
  {
    var s := line + "\n" + rest;
    var i := BreakIndex(s);
    assert s[|line|] == '\n';
    assert forall j :: 0 <= j < |line| ==> s[j] == line[j];
    assert i == |line|;
    assert s[..i] == line && s[i + 1..] == rest;
  }

  /** Reading back joined lines gives the lines. */
  lemma {:induction false} SplitJoin(lines: seq<string>)
    requires NoBreaks(lines) && lines != []
    ensures SplitLines(Join(lines) + "\n") == lines
  {
    if |lines| == 1 {
      SplitHead(lines[0], []);
      assert lines[0] + "\n" + [] == lines[0] + "\n";
    } else {
      SplitJoin(lines[1..]);
      SplitHead(lines[0], Join(lines[1..]) + "\n");
      assert Join(lines) + "\n" == lines[0] + "\n" + (Join(lines[1..]) + "\n");
    }
  }

  /** The lines of "\n".join(lines).rstrip(): trailing blank lines go and the
      last kept line loses its trailing white space. */
  function RstripLines(lines: seq<string>): (r: seq<string>)
    ensures r != []
    ensures NoBreaks(lines) ==> NoBreaks(r)
    decreases |lines|
  {
    if lines == [] then [[]]
    else
      var last := StripRight(White, lines[|lines| - 1]);
      if last == [] && |lines| > 1 then RstripLines(lines[..|lines| - 1])
      else
        assert NoBreak(lines[|lines| - 1]) ==> NoBreak(last) by {
          if NoBreak(lines[|lines| - 1]) { StripNoBreak(White, lines[|lines| - 1]); }
        }
        lines[..|lines| - 1] + [last]
  }

  lemma {:induction false} JoinSnoc(lines: seq<string>, last: string)
    requires lines != []
    ensures Join(lines + [last]) == Join(lines) + "\n" + last
  {
    if |lines| == 1 {
      assert (lines + [last])[1..] == [last];
    } else {
      JoinSnoc(lines[1..], last);
      assert (lines + [last])[1..] == lines[1..] + [last];
      assert (lines + [last])[0] == lines[0];
      calc {
        Join(lines + [last]);
        lines[0] + "\n" + Join(lines[1..] + [last]);
        lines[0] + "\n" + (Join(lines[1..]) + "\n" + last);
        Join(lines) + "\n" + last;
      }
    }
  }

  lemma {:induction false} StripRightSuffix(a: string, b: string)
    ensures StripRight(White, b) != [] ==> StripRight(White, a + b) == a + StripRight(White, b)
    ensures StripRight(White, b) == [] ==> StripRight(White, a + b) == StripRight(White, a)
  {
    if b == [] {
      assert a + b == a;
    } else if White.Has(b[|b| - 1]) {
      StripRightSuffix(a, b[..|b| - 1]);
      assert (a + b)[..|a + b| - 1] == a + b[..|b| - 1];
    } else {
      assert (a + b)[|a + b| - 1] == b[|b| - 1];
    }
  }

  /** rstrip on the joined text is RstripLines on its lines. */
  lemma {:induction false} RstripJoin(lines: seq<string>)
    ensures StripRight(White, Join(lines)) == Join(RstripLines(lines))
    decreases |lines|
  {
    if |lines| > 1 {
      var front, last := lines[..|lines| - 1], lines[|lines| - 1];
      assert lines == front + [last];
      JoinSnoc(front, last);
      var cut := StripRight(White, last);
      StripRightSuffix(Join(front) + "\n", last);
      if cut == [] {
        RstripJoin(front);
        StripRightSuffix(Join(front), "\n");
        assert StripRight(White, "\n") == [] by { assert White.Has("\n"[0]); assert "\n"[..0] == []; }
      } else {
        JoinSnoc(front, cut);
      }
    }
  }
}
