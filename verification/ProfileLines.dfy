/** The lines of one profile block: the keyed edits, the blank-line clean-up,
    and what each leaves alone. */
module ProfileLines {
  import opened Wrappers
  import opened Text
  import opened IniLine

  /** The assignment of a line is prefix+key, with the value too when the prefix
      makes it an array entry. */
  predicate Targets(line: string, prefix: string, key: string, value: string) {
    var a := SplitAssignment(line);
    a.Some? && a.value.key == key && a.value.prefix == prefix &&
    (prefix != [] ==> a.value.value == value)
  }

  /** The assignment of a line is prefix+key, whatever its value. */
  predicate Assigns(line: string, prefix: string, key: string) {
    var a := SplitAssignment(line);
    a.Some? && a.value.key == key && a.value.prefix == prefix
  }

  function FirstTarget(lines: seq<string>, prefix: string, key: string, value: string): (r: Option<nat>)
    ensures r.Some? ==> r.value < |lines| && Targets(lines[r.value], prefix, key, value)
  {
    if lines == [] then None
    else if Targets(lines[0], prefix, key, value) then Some(0)
    else
      match FirstTarget(lines[1..], prefix, key, value)
      case None => None
      case Some(i) => Some(i + 1)
  }

  function LastTarget(lines: seq<string>, prefix: string, key: string, value: string): (r: Option<nat>)
    ensures r.Some? ==> r.value < |lines| && Targets(lines[r.value], prefix, key, value)
  {
    if lines == [] then None
    else if Targets(lines[|lines| - 1], prefix, key, value) then Some(|lines| - 1)
    else LastTarget(lines[..|lines| - 1], prefix, key, value)
  }

  /** The line a set replaces: the first equal array entry, or the last plain one. */
  function TargetIndex(lines: seq<string>, prefix: string, key: string, value: string): (r: Option<nat>)
    ensures r.Some? ==> r.value < |lines| && Targets(lines[r.value], prefix, key, value)
  {
    if prefix != [] then FirstTarget(lines, prefix, key, value) else LastTarget(lines, prefix, key, value)
  }

  /** Where the trailing blank lines start. */
  function TrailStart(lines: seq<string>): (k: nat)
    ensures k <= |lines|
    ensures k > 0 ==> !Blank(lines[k - 1])
  {
    if lines != [] && Blank(lines[|lines| - 1]) then TrailStart(lines[..|lines| - 1]) else |lines|
  }

  function SetLines(lines: seq<string>, prefix: string, key: string, value: string): seq<string> {
    var entry := Entry(prefix, key, value);
    match TargetIndex(lines, prefix, key, value)
    case Some(i) => lines[i := entry]
    case None => var k := TrailStart(lines); lines[..k] + [entry] + lines[k..]
  }

  /** Which lines profile_remove_key drops. */
  predicate Removes(line: string, key: string, prefixes: Option<set<string>>, value: Option<string>) {
    var a := SplitAssignment(line);
    a.Some? && a.value.key == key &&
    (prefixes.Some? ==> a.value.prefix in prefixes.value) &&
    (value.Some? ==> a.value.value == value.value)
  }

  function RemoveLines(lines: seq<string>, key: string, prefixes: Option<set<string>>,
      value: Option<string>): (r: seq<string>) {
    if lines == [] then []
    else if Removes(lines[0], key, prefixes, value) then RemoveLines(lines[1..], key, prefixes, value)
    else [lines[0]] + RemoveLines(lines[1..], key, prefixes, value)
  }

  /** profile_get_key on the lines of its block: the last plain assignment wins. */
  function LastPlain(lines: seq<string>, key: string): (r: Option<string>) {
    if lines == [] then None
    else if Assigns(lines[|lines| - 1], [], key) then
      Some(Strip(Quote, SplitAssignment(lines[|lines| - 1]).value.value))
    else LastPlain(lines[..|lines| - 1], key)
  }

  /** The last line that assigns the plain key, but for white space at its end. */
  function LastEnd(lines: seq<string>, key: string): Option<string> {
    if lines == [] then None
    else if Assigns(lines[|lines| - 1], [], key) then Some(StripRight(White, lines[|lines| - 1]))
    else LastEnd(lines[..|lines| - 1], key)
  }

  /** What a line assigns, as profile_get_key returns it. */
  function PlainValue(line: string): string {
    var a := SplitAssignment(line);
    if a.Some? then Strip(Quote, a.value.value) else []
  }

  function ValueAt(end: Option<string>): Option<string> {
    if end.Some? then Some(PlainValue(end.value)) else None
  }

  lemma {:induction false} LastEndReads(lines: seq<string>, key: string)
    ensures LastPlain(lines, key) == ValueAt(LastEnd(lines, key))
  {
    hide SplitAssignment, StripRight, Strip;
    if lines != [] {
      StripRightSame(lines[|lines| - 1], []);
      LastEndReads(lines[..|lines| - 1], key);
    }
  }

  /** The non-blank lines that are not an assignment to prefix+key. */
  function Others(lines: seq<string>, prefix: string, key: string): seq<string> {
    if lines == [] then []
    else
      var front := Others(lines[..|lines| - 1], prefix, key);
      var line := lines[|lines| - 1];
      if Blank(line) || Assigns(line, prefix, key) then front else front + [line]
  }

  function NonBlank(lines: seq<string>): seq<string> {
    if lines == [] then []
    else
      var front := NonBlank(lines[..|lines| - 1]);
      if Blank(lines[|lines| - 1]) then front else front + [lines[|lines| - 1]]
  }

  /** One round of the blank-line clean-up loop. */
  function CleanStep(cleaned: seq<string>, raw: string): seq<string> {
    if !Blank(raw) then cleaned + [raw]
    else if cleaned != [] && !Blank(cleaned[|cleaned| - 1]) then cleaned + [[]]
    else cleaned
  }

  function Collapse(lines: seq<string>): seq<string> {
    if lines == [] then [] else CleanStep(Collapse(lines[..|lines| - 1]), lines[|lines| - 1])
  }

  /** normalize_profile_blank_lines on one block. */
  function Normalize(lines: seq<string>): seq<string> {
    var c := Collapse(lines);
    c[..TrailStart(c)]
  }

  /** Blank lines are empty, single, and strictly between non-blank ones. */
  ghost predicate Canonical(lines: seq<string>) {
    (forall i :: 0 <= i < |lines| && Blank(lines[i]) ==> lines[i] == [] && 0 < i < |lines| - 1) &&
    (forall i :: 0 <= i < |lines| - 1 && Blank(lines[i]) ==> !Blank(lines[i + 1]))
  }

  // Where a set writes, and what a removal takes

  lemma {:induction false} FirstTargetAt(lines: seq<string>, prefix: string, key: string, value: string, i: nat)
    requires i < |lines| && Targets(lines[i], prefix, key, value)
    requires forall j :: 0 <= j < i ==> !Targets(lines[j], prefix, key, value)
    ensures FirstTarget(lines, prefix, key, value) == Some(i)
  {
    hide Targets;
    if i > 0 { FirstTargetAt(lines[1..], prefix, key, value, i - 1); }
  }

  lemma {:induction false} LastTargetAt(lines: seq<string>, prefix: string, key: string, value: string, i: nat)
    requires i < |lines| && Targets(lines[i], prefix, key, value)
    requires forall j :: i < j < |lines| ==> !Targets(lines[j], prefix, key, value)
    ensures LastTarget(lines, prefix, key, value) == Some(i)
  {
    hide Targets;
    if i < |lines| - 1 { LastTargetAt(lines[..|lines| - 1], prefix, key, value, i); }
  }

  /** A set of an array entry that is there rewrites its first line alone. */
  lemma SetEntryAt(lines: seq<string>, prefix: string, key: string, value: string, i: nat)
    requires prefix != [] && i < |lines| && SplitAssignment(lines[i]) == Some(Assignment(prefix, key, value))
    requires forall j :: 0 <= j < i ==> SplitAssignment(lines[j]) != Some(Assignment(prefix, key, value))
    ensures SetLines(lines, prefix, key, value) == lines[i := prefix + key + "=" + value]
  {
    hide SplitAssignment, FirstTarget;
    FirstTargetAt(lines, prefix, key, value, i);
  }

  /** A set of a plain key rewrites its last assignment alone. */
  lemma SetPlainAt(lines: seq<string>, key: string, value: string, i: nat)
    requires i < |lines| && Assigns(lines[i], [], key)
    requires forall j :: i < j < |lines| ==> !Assigns(lines[j], [], key)
    ensures SetLines(lines, [], key, value) == lines[i := key + "=" + value]
  {
    hide SplitAssignment, LastTarget;
    LastTargetAt(lines, [], key, value, i);
    assert [] + key == key;
  }

  /** Without such a line it adds one behind the last that is not blank. */
  lemma SetNewAt(lines: seq<string>, prefix: string, key: string, value: string, k: nat)
    requires forall j :: 0 <= j < |lines| ==> !Targets(lines[j], prefix, key, value)
    requires k <= |lines| && (k > 0 ==> !Blank(lines[k - 1])) && forall j :: k <= j < |lines| ==> Blank(lines[j])
    ensures SetLines(lines, prefix, key, value) == lines[..k] + [prefix + key + "=" + value] + lines[k..]
  {
    hide SplitAssignment, Blank, TrailStart, FirstTarget, LastTarget, Targets;
    TrailStartAt(lines, k);
    assert TargetIndex(lines, prefix, key, value).None?;
  }

  lemma {:induction false} TrailStartAt(lines: seq<string>, k: nat)
    requires k <= |lines| && (k > 0 ==> !Blank(lines[k - 1])) && forall j :: k <= j < |lines| ==> Blank(lines[j])
    ensures TrailStart(lines) == k
  {
    hide Blank;
    if k < |lines| { TrailStartAt(lines[..|lines| - 1], k); }
  }

  /** A removal takes every line of the key with an admitted prefix and value, as
      often as it stands there, and no other. */
  lemma {:induction false} RemoveExactly(lines: seq<string>, key: string, prefixes: Option<set<string>>,
      value: Option<string>, line: string)
    ensures var a := SplitAssignment(line);
            multiset(RemoveLines(lines, key, prefixes, value))[line] ==
              if a.Some? && a.value.key == key && (prefixes == None || a.value.prefix in prefixes.value) &&
                 (value == None || value == Some(a.value.value))
              then 0 else multiset(lines)[line]
  {
    hide SplitAssignment;
    if lines != [] {
      assert lines == [lines[0]] + lines[1..];
      RemoveExactly(lines[1..], key, prefixes, value, line);
    }
  }

  // What a set does

  lemma OthersAppend(a: seq<string>, b: seq<string>, prefix: string, key: string)
    ensures Others(a + b, prefix, key) == Others(a, prefix, key) + Others(b, prefix, key)
  {
    hide Blank, SplitAssignment;
    if b == [] {
      assert a + b == a;
    } else {
      OthersAppend(a, b[..|b| - 1], prefix, key);
      assert (a + b)[..|a + b| - 1] == a + b[..|b| - 1];
    }
  }

  lemma OthersOne(line: string, prefix: string, key: string)
    ensures Others([line], prefix, key) == if Blank(line) || Assigns(line, prefix, key) then [] else [line]
  {
    assert [line][..0] == [];
  }

  lemma OthersReplaced(lines: seq<string>, i: nat, entry: string, prefix: string, key: string)
    requires i < |lines| && Assigns(lines[i], prefix, key) && Assigns(entry, prefix, key)
    ensures Others(lines[i := entry], prefix, key) == Others(lines, prefix, key)
  {
    hide Blank, Assigns, Others;
    OthersOne(lines[i], prefix, key);
    OthersOne(entry, prefix, key);
    assert lines == lines[..i] + ([lines[i]] + lines[i + 1..]);
    assert lines[i := entry] == lines[..i] + ([entry] + lines[i + 1..]);
    OthersAppend(lines[..i], [lines[i]] + lines[i + 1..], prefix, key);
    OthersAppend(lines[..i], [entry] + lines[i + 1..], prefix, key);
    OthersAppend([lines[i]], lines[i + 1..], prefix, key);
    OthersAppend([entry], lines[i + 1..], prefix, key);
  }

  /** A set changes only lines that assign prefix+key. */
  lemma SetKeepsOthers(lines: seq<string>, prefix: string, key: string, value: string)
    requires IsPrefix(prefix) && CleanKey(key)
    ensures Others(SetLines(lines, prefix, key, value), prefix, key) == Others(lines, prefix, key)
  {
    hide Blank, SplitAssignment, Others, Entry, TrailStart, TargetIndex;
    var entry := Entry(prefix, key, value);
    EntryParses(prefix, key, value);
    OthersOne(entry, prefix, key);
    match TargetIndex(lines, prefix, key, value)
    case Some(i) => OthersReplaced(lines, i, entry, prefix, key);
    case None =>
      var k := TrailStart(lines);
      assert lines == lines[..k] + lines[k..];
      OthersAppend(lines[..k], lines[k..], prefix, key);
      OthersAppend(lines[..k] + [entry], lines[k..], prefix, key);
      OthersAppend(lines[..k], [entry], prefix, key);
  }

  /** A key that is read does not see lines that assign another key or an array. */
  lemma {:induction false} LastEndOthers(lines: seq<string>, prefix: string, key: string, k: string)
    requires prefix != [] || k != key
    ensures LastEnd(lines, k) == LastEnd(Others(lines, prefix, key), k)
  {
    hide Blank, SplitAssignment, StripRight;
    if lines != [] {
      LastEndOthers(lines[..|lines| - 1], prefix, key, k);
      var front, line := Others(lines[..|lines| - 1], prefix, key), lines[|lines| - 1];
      BlankUnassigned(line);
      if !(Blank(line) || Assigns(line, prefix, key)) {
        assert (front + [line])[..|front|] == front;
      }
    }
  }

  /** A plain set puts its entry last; other keys end where they did. */
  lemma SetEnds(lines: seq<string>, prefix: string, key: string, value: string, k: string)
    requires IsPrefix(prefix) && CleanKey(key)
    ensures LastEnd(SetLines(lines, prefix, key, value), k) ==
            if prefix == [] && k == key then Some(StripRight(White, Entry([], key, value))) else LastEnd(lines, k)
  {
    hide LastEnd, SetLines, StripRight, Entry;
    if prefix == [] && k == key {
      SetEndsLast(lines, key, value);
    } else {
      SetKeepsOthers(lines, prefix, key, value);
      LastEndOthers(SetLines(lines, prefix, key, value), prefix, key, k);
      LastEndOthers(lines, prefix, key, k);
    }
  }

  /** Setting a plain key makes it read as the value and changes no other read. */
  lemma SetReads(lines: seq<string>, prefix: string, key: string, value: string, k: string)
    requires IsPrefix(prefix) && CleanKey(key)
    ensures LastPlain(SetLines(lines, prefix, key, value), k) ==
            if prefix == [] && k == key then Some(Strip(Quote, Trim(value))) else LastPlain(lines, k)
  {
    hide LastPlain, LastEnd, SetLines, Strip, Trim, SplitAssignment;
    SetEnds(lines, prefix, key, value, k);
    LastEndReads(SetLines(lines, prefix, key, value), k);
    LastEndReads(lines, k);
    if prefix == [] && k == key { EntryValue(key, value); }
  }

  lemma EntryValue(key: string, value: string)
    requires CleanKey(key)
    ensures PlainValue(StripRight(White, Entry([], key, value))) == Strip(Quote, Trim(value))
  {
    hide CleanKey, SplitAssignment, StripRight;
    assert IsPrefix([]);
    EntryParses([], key, value);
    StripRightSame(Entry([], key, value), []);
  }

  lemma {:induction false} LastEndTail(a: seq<string>, line: string, b: seq<string>, key: string)
    requires Assigns(line, [], key)
    requires forall i :: 0 <= i < |b| ==> !Assigns(b[i], [], key)
    ensures LastEnd(a + [line] + b, key) == Some(StripRight(White, line))
  {
    hide SplitAssignment, StripRight;
    var s := a + [line] + b;
    if b == [] {
      assert s[|s| - 1] == line;
    } else {
      LastEndTail(a, line, b[..|b| - 1], key);
      assert s[..|s| - 1] == a + [line] + b[..|b| - 1];
      assert s[|s| - 1] == b[|b| - 1];
    }
  }

  lemma {:induction false} LastTargetIsLast(lines: seq<string>, key: string, value: string)
    ensures var t := LastTarget(lines, [], key, value);
            var from := if t.Some? then t.value + 1 else 0;
            forall i :: from <= i < |lines| ==> !Assigns(lines[i], [], key)
  {
    hide SplitAssignment;
    if lines != [] && !Targets(lines[|lines| - 1], [], key, value) {
      LastTargetIsLast(lines[..|lines| - 1], key, value);
      var t := LastTarget(lines, [], key, value);
      var from := if t.Some? then t.value + 1 else 0;
      forall i | from <= i < |lines| ensures !Assigns(lines[i], [], key) {
        if i < |lines| - 1 { assert lines[i] == lines[..|lines| - 1][i]; }
      }
    }
  }

  lemma {:induction false} FirstTargetNone(lines: seq<string>, prefix: string, key: string, value: string)
    ensures FirstTarget(lines, prefix, key, value).None? <==>
            forall i :: 0 <= i < |lines| ==> !Targets(lines[i], prefix, key, value)
  {
    hide SplitAssignment;
    if lines != [] && !Targets(lines[0], prefix, key, value) {
      FirstTargetNone(lines[1..], prefix, key, value);
      if FirstTarget(lines, prefix, key, value).None? {
        forall i | 0 <= i < |lines| ensures !Targets(lines[i], prefix, key, value) {
          if i > 0 { assert lines[i] == lines[1..][i - 1]; }
        }
      }
    }
  }

  lemma SetEndsLast(lines: seq<string>, key: string, value: string)
    requires CleanKey(key)
    ensures LastEnd(SetLines(lines, [], key, value), key) == Some(StripRight(White, Entry([], key, value)))
  {
    hide SplitAssignment, Blank, StripRight;
    var entry := Entry([], key, value);
    EntryParses([], key, value);
    LastTargetIsLast(lines, key, value);
    match TargetIndex(lines, [], key, value)
    case Some(i) =>
      assert lines[i := entry] == lines[..i] + [entry] + lines[i + 1..];
      LastEndTail(lines[..i], entry, lines[i + 1..], key);
    case None =>
      var k := TrailStart(lines);
      LastEndTail(lines[..k], entry, lines[k..], key);
  }

  // What the clean-up does

  lemma BlankEmpty()
    ensures Blank([])
  {
  }

  lemma BlankUnassigned(line: string)
    ensures Blank(line) ==> SplitAssignment(line).None? && !HeaderLike(line)
  {
  }

  lemma {:induction false} NonBlankPrefix(c: seq<string>)
    ensures NonBlank(c[..TrailStart(c)]) == NonBlank(c)
  {
    hide Blank;
    if c != [] && Blank(c[|c| - 1]) {
      NonBlankPrefix(c[..|c| - 1]);
      assert c[..|c| - 1][..TrailStart(c)] == c[..TrailStart(c)];
    } else {
      assert c[..|c|] == c;
    }
  }

  lemma {:induction false} CollapseNonBlank(lines: seq<string>)
    ensures NonBlank(Collapse(lines)) == NonBlank(lines)
  {
    hide Blank;
    BlankEmpty();
    if lines != [] {
      CollapseNonBlank(lines[..|lines| - 1]);
      var c, raw := Collapse(lines[..|lines| - 1]), lines[|lines| - 1];
      var r := CleanStep(c, raw);
      if r != c { assert r[..|r| - 1] == c; }
    }
  }

  /** The clean-up keeps every non-blank line, in order. */
  lemma NormalizeNonBlank(lines: seq<string>)
    ensures NonBlank(Normalize(lines)) == NonBlank(lines)
  {
    CollapseNonBlank(lines);
    NonBlankPrefix(Collapse(lines));
  }

  /** Reading a key ignores blank lines. */
  lemma {:induction false} LastEndNonBlank(lines: seq<string>, key: string)
    ensures LastEnd(lines, key) == LastEnd(NonBlank(lines), key)
  {
    hide SplitAssignment, StripRight;
    if lines != [] {
      LastEndNonBlank(lines[..|lines| - 1], key);
      var front := NonBlank(lines[..|lines| - 1]);
      BlankUnassigned(lines[|lines| - 1]);
      if !Blank(lines[|lines| - 1]) {
        assert (front + [lines[|lines| - 1]])[..|front|] == front;
      }
    }
  }

  /** What the clean-up loop keeps: blanks are empty, single and not first. */
  ghost predicate Collapsed(c: seq<string>) {
    (forall i :: 0 <= i < |c| && Blank(c[i]) ==> c[i] == [] && 0 < i) &&
    (forall i :: 0 <= i < |c| - 1 && Blank(c[i]) ==> !Blank(c[i + 1]))
  }

  lemma {:induction false} CollapseShape(lines: seq<string>)
    ensures Collapsed(Collapse(lines))
  {
    hide Blank;
    if lines != [] {
      CollapseShape(lines[..|lines| - 1]);
    }
  }

  /** The clean-up produces canonical lines. */
  lemma NormalizeCanonical(lines: seq<string>)
    ensures Canonical(Normalize(lines))
  {
    hide Blank, Collapse, TrailStart;
    CollapseShape(lines);
    var c, n := Collapse(lines), Normalize(lines);
    forall i | 0 <= i < |n| && Blank(n[i]) ensures n[i] == [] && 0 < i < |n| - 1 {
      assert n[i] == c[i];
    }
    forall i | 0 <= i < |n| - 1 && Blank(n[i]) ensures !Blank(n[i + 1]) {
      assert n[i] == c[i] && n[i + 1] == c[i + 1];
    }
  }

  lemma {:induction false} CollapseFixed(lines: seq<string>)
    requires Collapsed(lines)
    ensures Collapse(lines) == lines
  {
    hide Blank;
    if lines != [] {
      var front := lines[..|lines| - 1];
      forall i | 0 <= i < |front| - 1 && Blank(front[i]) ensures !Blank(front[i + 1]) {
        assert lines[i] == front[i] && lines[i + 1] == front[i + 1];
      }
      CollapseFixed(front);
      var k := |lines| - 1;
      if Blank(lines[k]) {
        assert k > 0 && front[|front| - 1] == lines[k - 1];
        assert !Blank(lines[k - 1]);
      }
      assert lines == front + [lines[k]];
    }
  }

  /** Canonical lines, with or without one separator behind them, clean up to themselves. */
  lemma NormalizeFixed(lines: seq<string>)
    requires Canonical(lines)
    ensures Normalize(lines) == lines
    ensures lines != [] ==> Normalize(lines + [[]]) == lines
  {
    CollapseFixed(lines);
    assert TrailStart(lines) == |lines|;
    if lines != [] {
      var s := lines + [[]];
      assert s[..|s| - 1] == lines;
      assert Collapse(s) == s;
      assert Blank(s[|s| - 1]);
      assert TrailStart(s) == |lines|;
    }
  }

  // What a removal does

  lemma {:induction false} RemoveNothing(lines: seq<string>, key: string, prefixes: Option<set<string>>,
      value: Option<string>)
    requires forall i :: 0 <= i < |lines| ==> !Removes(lines[i], key, prefixes, value)
    ensures RemoveLines(lines, key, prefixes, value) == lines
  {
    hide Removes;
    if lines != [] {
      RemoveNothing(lines[1..], key, prefixes, value);
    }
  }

  lemma {:induction false} RemoveAppend(a: seq<string>, b: seq<string>, key: string, prefixes: Option<set<string>>,
      value: Option<string>)
    ensures RemoveLines(a + b, key, prefixes, value) ==
            RemoveLines(a, key, prefixes, value) + RemoveLines(b, key, prefixes, value)
  {
    hide Removes;
    if a == [] {
      assert a + b == b;
    } else {
      RemoveAppend(a[1..], b, key, prefixes, value);
      assert (a + b)[1..] == a[1..] + b && (a + b)[0] == a[0];
      var x, y := RemoveLines(a[1..], key, prefixes, value), RemoveLines(b, key, prefixes, value);
      assert [a[0]] + (x + y) == [a[0]] + x + y;
    }
  }

  lemma RemoveOne(line: string, key: string, prefixes: Option<set<string>>, value: Option<string>)
    ensures RemoveLines([line], key, prefixes, value) == if Removes(line, key, prefixes, value) then [] else [line]
  {
    hide Removes;
  }

  lemma {:induction false} RemoveMembers(lines: seq<string>, key: string, prefixes: Option<set<string>>,
      value: Option<string>)
    ensures forall l :: l in RemoveLines(lines, key, prefixes, value) <==>
                        l in lines && !Removes(l, key, prefixes, value)
  {
    hide Removes;
    if lines != [] {
      RemoveMembers(lines[1..], key, prefixes, value);
      assert lines == [lines[0]] + lines[1..];
    }
  }

  /** Removing a key of any prefix and value makes it unreadable; other keys read as before. */
  lemma {:induction false} RemoveReads(lines: seq<string>, key: string, prefixes: Option<set<string>>,
      value: Option<string>, k: string)
    ensures k != key ==> LastPlain(RemoveLines(lines, key, prefixes, value), k) == LastPlain(lines, k)
    ensures k == key && value.None? && (prefixes.Some? ==> [] in prefixes.value) ==>
              LastPlain(RemoveLines(lines, key, prefixes, value), k).None?
    ensures k == key && prefixes.Some? && [] !in prefixes.value ==>
              LastPlain(RemoveLines(lines, key, prefixes, value), k) == LastPlain(lines, k)
    decreases |lines|
  {
    hide SplitAssignment;
    if lines != [] {
      var front, line := lines[..|lines| - 1], lines[|lines| - 1];
      RemoveReads(front, key, prefixes, value, k);
      RemoveAppend(front, [line], key, prefixes, value);
      assert lines == front + [line];
      var r := RemoveLines(front, key, prefixes, value);
      assert RemoveLines([line], key, prefixes, value) == if Removes(line, key, prefixes, value) then [] else [line];
      if Removes(line, key, prefixes, value) {
        assert r + [] == r;
      } else {
        assert (r + [line])[..|r|] == r;
      }
    }
  }
}
