/** The "(Name=Value,...)" structs of settings values: a tokenizer that knows
    quotes, escapes and nested parentheses, and the update of one member. */
module UnrealStruct {
  import opened Wrappers
  import opened Text

  /** The state of the tokenizer between two characters. */
  datatype Scan = Scan(depth: nat, quote: Option<char>, escaped: bool)

  const START := Scan(0, None, false)

  function Step(st: Scan, c: char): Scan {
    if st.escaped then st.(escaped := false)
    else if c == '\\' && st.quote.Some? then st.(escaped := true)
    else if st.quote.Some? then (if c == st.quote.value then st.(quote := None) else st)
    else if c == '"' || c == '\'' then st.(quote := Some(c))
    else if c == '(' then st.(depth := st.depth + 1)
    else if c == ')' then st.(depth := if st.depth == 0 then 0 else st.depth - 1)
    else st
  }

  /** A comma that separates members. */
  predicate Splits(st: Scan, c: char) { !st.escaped && st.quote.None? && c == ',' && st.depth == 0 }

  function StateOf(s: string): Scan {
    if s == [] then START else Step(StateOf(s[..|s| - 1]), s[|s| - 1])
  }

  /** The text between the separating commas. */
  function Pieces(s: string): (r: seq<string>)
    ensures r != []
  {
    if s == [] then [[]]
    else
      var front := Pieces(s[..|s| - 1]);
      var c := s[|s| - 1];
      if Splits(StateOf(s[..|s| - 1]), c) then front + [[]]
      else front[..|front| - 1] + [front[|front| - 1] + [c]]
  }

  /** The value without white space around it and without one outer pair of parentheses. */
  function Inner(value: string): string {
    var raw := Trim(value);
    if |raw| >= 2 && raw[0] == '(' && raw[|raw| - 1] == ')' then raw[1..|raw| - 1] else raw
  }

  function TrimAll(parts: seq<string>): (r: seq<string>)
    ensures |r| == |parts|
    ensures forall i :: 0 <= i < |parts| ==> r[i] == Trim(parts[i])
  {
    if parts == [] then [] else TrimAll(parts[..|parts| - 1]) + [Trim(parts[|parts| - 1])]
  }

  /** The members kept from the pieces: an empty last one is dropped. */
  function Members(pieces: seq<string>): seq<string>
    requires pieces != []
  {
    var front, tail := pieces[..|pieces| - 1], Trim(pieces[|pieces| - 1]);
    TrimAll(front) + if tail != [] then [tail] else []
  }

  /** split_unreal_struct. */
  function Split(value: string): seq<string> { Members(Pieces(Inner(value))) }

  function Comma(parts: seq<string>): string {
    if parts == [] then []
    else if |parts| == 1 then parts[0]
    else Comma(parts[..|parts| - 1]) + [','] + parts[|parts| - 1]
  }

  function Struct(parts: seq<string>): string { ['('] + Comma(parts) + [')'] }

  /** The name of a member, when the part has one. */
  function NameOf(part: string): Option<string> {
    match Cut(part, '=')
    case None => None
    case Some((name, _)) => Some(Trim(name))
  }

  function Names(parts: seq<string>): (r: seq<Option<string>>)
    ensures |r| == |parts| && forall i :: 0 <= i < |r| ==> r[i] == NameOf(parts[i])
  {
    seq(|parts|, i requires 0 <= i < |parts| => NameOf(parts[i]))
  }

  /** The first index of the name. */
  function FirstOf(names: seq<Option<string>>, member: string): (r: Option<nat>)
    ensures r.Some? ==> r.value < |names| && names[r.value] == Some(member)
    ensures r.Some? ==> forall j :: 0 <= j < r.value ==> names[j] != Some(member)
    ensures r.None? ==> forall j :: 0 <= j < |names| ==> names[j] != Some(member)
  {
    if names == [] then None
    else if names[0] == Some(member) then Some(0)
    else
      match FirstOf(names[1..], member)
      case None => None
      case Some(i) => Some(i + 1)
  }

  function FirstNamed(parts: seq<string>, member: string): Option<nat> { FirstOf(Names(parts), member) }

  function Assigned(member: string, value: string): string { member + ['='] + value }

  function UpdatedParts(parts: seq<string>, member: string, value: string): seq<string> {
    match FirstNamed(parts, member)
    case Some(i) => parts[i := Assigned(member, value)]
    case None => parts + [Assigned(member, value)]
  }

  /** update_unreal_struct. */
  function Update(value: string, member: string, memberValue: string): string {
    Struct(UpdatedParts(Split(value), member, memberValue))
  }

  /** unreal_struct_values: what the last part of that name says. */
  function ValueOfMember(parts: seq<string>, member: string): Option<string> {
    if parts == [] then None
    else if NameOf(parts[|parts| - 1]) == Some(member) then Some(Trim(Cut(parts[|parts| - 1], '=').value.1))
    else ValueOfMember(parts[..|parts| - 1], member)
  }

  /** Text that leaves the tokenizer where it was and holds no separating comma. */
  predicate Neutral(s: string) { StateOf(s) == START && Pieces(s) == [s] }

  // Concatenation

  function Glue(a: seq<string>, b: seq<string>): seq<string>
    requires a != [] && b != []
  {
    a[..|a| - 1] + [a[|a| - 1] + b[0]] + b[1..]
  }

  /** Behind text that ends in the start state the tokenizer starts afresh. */
  lemma {:induction false} Concat(a: string, b: string)
    requires StateOf(a) == START
    ensures StateOf(a + b) == StateOf(b)
    ensures Pieces(a + b) == Glue(Pieces(a), Pieces(b))
    decreases |b|
  {
    hide StateOf, Pieces, Step, Splits;
    EmptyState();
    if b == [] {
      assert a + b == a;
      assert Pieces(a)[|Pieces(a)| - 1] + [] == Pieces(a)[|Pieces(a)| - 1];
      assert Glue(Pieces(a), [[]]) == Pieces(a);
    } else {
      var front, c := b[..|b| - 1], b[|b| - 1];
      Concat(a, front);
      assert (a + b)[..|a + b| - 1] == a + front;
      StateStep(b);
      StateStep(a + b);
      PieceStep(b);
      PieceStep(a + b);
      GlueStep(Pieces(a), Pieces(front), c);
    }
  }

  lemma GlueStep(a: seq<string>, b: seq<string>, c: char)
    requires a != [] && b != []
    ensures Glue(a, b) + [[]] == Glue(a, b + [[]])
    ensures var g := Glue(a, b);
            g[..|g| - 1] + [g[|g| - 1] + [c]] == Glue(a, b[..|b| - 1] + [b[|b| - 1] + [c]])
  {
    var g := Glue(a, b);
    if |b| == 1 {
      assert g[|g| - 1] + [c] == a[|a| - 1] + (b[0] + [c]);
    } else {
      assert g[|g| - 1] == b[|b| - 1];
    }
  }

  lemma CommaSplits()
    ensures StateOf([',']) == START && Pieces([',']) == [[], []]
  {
    assert [','][..0] == [];
  }

  /** Neutral members joined by commas come apart again, behind any text so far. */
  lemma {:induction false} CommaPieces(parts: seq<string>)
    requires parts != [] && forall i :: 0 <= i < |parts| - 1 ==> Neutral(parts[i])
    requires Pieces(parts[|parts| - 1]) == [parts[|parts| - 1]]
    ensures Pieces(Comma(parts)) == parts
    ensures StateOf(Comma(parts)) == StateOf(parts[|parts| - 1])
  {
    hide StateOf, Pieces;
    if |parts| == 1 {
      assert parts == [parts[0]];
    } else {
      var front, last := parts[..|parts| - 1], parts[|parts| - 1];
      assert forall i :: 0 <= i < |front| ==> front[i] == parts[i];
      assert Neutral(front[|front| - 1]);
      CommaPieces(front);
      CommaOne(Comma(front), front, last);
      assert parts == front + [last];
    }
  }

  lemma CommaOne(x: string, front: seq<string>, last: string)
    requires StateOf(x) == START && Pieces(x) == front && Pieces(last) == [last]
    ensures Pieces(x + [','] + last) == front + [last] && StateOf(x + [','] + last) == StateOf(last)
  {
    hide StateOf, Pieces;
    CommaSplits();
    Concat(x, [',']);
    assert front[|front| - 1] + [] == front[|front| - 1];
    assert Glue(front, [[], []]) == front + [[]];
    Concat(x + [','], last);
    assert [] + last == last;
    assert Glue(front + [[]], [last]) == front + [last];
  }

  lemma {:induction false} TrimAllFixed(parts: seq<string>)
    requires forall i :: 0 <= i < |parts| ==> Trimmed(parts[i])
    ensures TrimAll(parts) == parts
  {
    hide Trimmed, Trim;
    forall i | 0 <= i < |parts| ensures TrimAll(parts)[i] == parts[i] {
      TrimFixed(parts[i]);
    }
  }

  lemma TrimFixed(s: string)
    requires Trimmed(s)
    ensures Trim(s) == s
  {
  }

  lemma InnerOfStruct(parts: seq<string>)
    ensures Inner(Struct(parts)) == Comma(parts)
  {
    var s := Struct(parts);
    assert s[0] == '(' && s[|s| - 1] == ')';
    assert !IsSpace('(') && !IsSpace(')');
    assert Trim(s) == s;
    assert s[1..|s| - 1] == Comma(parts);
  }

  /** Trimmed members, neutral but for the last, survive a print and a split
      exactly when the last one is not empty. */
  lemma SplitOfStruct(parts: seq<string>)
    requires forall i :: 0 <= i < |parts| ==> Trimmed(parts[i])
    requires forall i :: 0 <= i < |parts| - 1 ==> Neutral(parts[i])
    requires parts != [] ==> Pieces(parts[|parts| - 1]) == [parts[|parts| - 1]]
    ensures Split(Struct(parts)) == parts <==> parts == [] || parts[|parts| - 1] != []
  {
    hide Trimmed, Trim, Neutral, Struct, Inner;
    InnerOfStruct(parts);
    TrimFixed([]) by { EmptyTrimmed(); }
    if parts == [] {
      EmptyPieces();
    } else {
      CommaPieces(parts);
      TrimAllFixed(parts[..|parts| - 1]);
      TrimFixed(parts[|parts| - 1]);
      assert parts == parts[..|parts| - 1] + [parts[|parts| - 1]];
    }
  }

  lemma EmptyTrimmed()
    ensures Trimmed([])
  {
  }

  lemma EmptyPieces()
    ensures Pieces([]) == [[]]
  {
  }

  // What a split produces

  ghost predicate Shaped(ps: seq<string>, st: Scan) {
    ps != [] && (forall i :: 0 <= i < |ps| - 1 ==> Neutral(ps[i])) &&
    Pieces(ps[|ps| - 1]) == [ps[|ps| - 1]] && StateOf(ps[|ps| - 1]) == st
  }

  lemma GrowPiece(last: string, c: char)
    requires Pieces(last) == [last] && !Splits(StateOf(last), c)
    ensures Pieces(last + [c]) == [last + [c]] && StateOf(last + [c]) == Step(StateOf(last), c)
  {
    hide Splits, Step;
    assert (last + [c])[..|last|] == last;
    assert [last][..0] == [];
  }

  lemma EmptyState()
    ensures StateOf([]) == START && Pieces([]) == [[]]
  {
  }

  /** Every piece but the last is neutral; the last holds no separating comma. */
  lemma {:induction false} PieceShapes(s: string)
    ensures Shaped(Pieces(s), StateOf(s))
  {
    hide StateOf, Neutral, Step, Splits, Pieces;
    EmptyState();
    if s != [] {
      var front, c := s[..|s| - 1], s[|s| - 1];
      PieceShapes(front);
      PieceStep(s);
      StateStep(s);
      var ps := Pieces(front);
      var last := ps[|ps| - 1];
      if Splits(StateOf(front), c) {
        SplitState(StateOf(front), c);
        NeutralPiece(last);
        assert Pieces(s) == ps + [[]];
      } else {
        GrowPiece(last, c);
        assert Pieces(s) == ps[..|ps| - 1] + [last + [c]];
      }
    }
  }

  lemma StateStep(s: string)
    requires s != []
    ensures StateOf(s) == Step(StateOf(s[..|s| - 1]), s[|s| - 1])
  {
    hide Step;
  }

  lemma SplitState(st: Scan, c: char)
    requires Splits(st, c)
    ensures st == START && Step(st, c) == START
  {
  }

  lemma PieceStep(s: string)
    requires s != []
    ensures var front := Pieces(s[..|s| - 1]);
            Pieces(s) ==
            if Splits(StateOf(s[..|s| - 1]), s[|s| - 1]) then front + [[]]
            else front[..|front| - 1] + [front[|front| - 1] + [s[|s| - 1]]]
  {
    hide StateOf, Splits;
  }

  lemma SpaceStep(st: Scan, c: char)
    requires IsSpace(c) && QuoteKept(st) && Step(st, c) == START
    ensures st == START
  {
  }

  lemma NeutralPiece(s: string)
    requires StateOf(s) == START && Pieces(s) == [s]
    ensures Neutral(s)
  {
  }

  lemma {:induction false} SpaceNeutral(l: string)
    requires forall i :: 0 <= i < |l| ==> IsSpace(l[i])
    ensures Neutral(l)
  {
    EmptyState();
    if l != [] {
      var front, c := l[..|l| - 1], l[|l| - 1];
      SpaceNeutral(front);
      assert [front][..0] == [];
      assert front + [c] == l;
    }
  }

  /** Only a quote is escaped in, and only the two quote characters open one. */
  predicate QuoteKept(st: Scan) {
    (st.escaped ==> st.quote.Some?) && (st.quote.Some? ==> st.quote.value == '"' || st.quote.value == '\'')
  }

  lemma {:induction false} QuoteOpen(s: string)
    ensures QuoteKept(StateOf(s))
  {
    if s != [] { QuoteOpen(s[..|s| - 1]); }
  }

  /** White space behind a text cannot bring the tokenizer back to the start. */
  lemma {:induction false} SpaceKeeps(core: string, r: string)
    requires forall i :: 0 <= i < |r| ==> IsSpace(r[i])
    requires StateOf(core + r) == START
    ensures StateOf(core) == START
    decreases |r|
  {
    if r == [] {
      assert core + r == core;
    } else {
      var front, c := r[..|r| - 1], r[|r| - 1];
      assert (core + r)[..|core + r| - 1] == core + front;
      QuoteOpen(core + front);
      assert (core + r)[|core + r| - 1] == c;
      StateStep(core + r);
      SpaceStep(StateOf(core + front), c);
      SpaceKeeps(core, front);
    }
  }

  lemma {:induction false} PrefixWhole(a: string, b: string)
    requires Pieces(a + b) == [a + b]
    ensures Pieces(a) == [a]
    decreases |b|
  {
    hide StateOf, Pieces, Step, Splits;
    EmptyState();
    if b == [] {
      assert a + b == a;
    } else {
      var s := a + b;
      var front := b[..|b| - 1];
      assert s[..|s| - 1] == a + front;
      PieceStep(s);
      var ps := Pieces(a + front);
      assert Splits(StateOf(a + front), s[|s| - 1]) ==> |Pieces(s)| == |ps| + 1;
      assert |ps| == 1;
      assert Pieces(s)[0] == ps[0] + [s[|s| - 1]];
      assert ps[0] == (ps[0] + [s[|s| - 1]])[..|ps[0]|] == s[..|s| - 1];
      assert ps == [a + front];
      PrefixWhole(a, front);
    }
  }

  /** Trimming keeps a piece whole, and neutral if it was. */
  lemma TrimWhole(s: string)
    requires Pieces(s) == [s]
    ensures Pieces(Trim(s)) == [Trim(s)]
    ensures StateOf(s) == START ==> StateOf(Trim(s)) == START
  {
    hide Trim, StateOf, Pieces, IsSpace, Neutral;
    var l, r := TrimParts(s);
    var core := Trim(s);
    SpaceNeutral(l);
    assert s == l + (core + r);
    NeutralParts(l);
    Concat(l, core + r);
    UnGlue(l, Pieces(core + r), core + r);
    PrefixWhole(core, r);
    if StateOf(s) == START { SpaceKeeps(core, r); }
  }

  lemma NeutralParts(s: string)
    requires Neutral(s)
    ensures StateOf(s) == START && Pieces(s) == [s]
  {
  }

  lemma UnGlue(l: string, ps: seq<string>, t: string)
    requires ps != [] && Glue([l], ps) == [l + t]
    ensures ps == [t]
  {
    assert Glue([l], ps) == [l + ps[0]] + ps[1..];
    assert |ps| == 1;
    assert [l + t][0] == l + ps[0];
    assert ps[0] == (l + ps[0])[|l|..] == (l + t)[|l|..] == t;
  }

  lemma TrimParts(s: string) returns (l: string, r: string)
    ensures s == l + Trim(s) + r
    ensures forall i :: 0 <= i < |l| ==> IsSpace(l[i])
    ensures forall i :: 0 <= i < |r| ==> IsSpace(r[i])
  {
    hide StripLeft, StripRight;
    l, r := StripParts(White, s);
    assert forall i :: 0 <= i < |l| ==> White.Has(l[i]);
    assert forall i :: 0 <= i < |r| ==> White.Has(r[i]);
  }

  /** Whatever is split, the parts are trimmed, neutral but for the last, and whole. */
  lemma SplitShapes(value: string)
    ensures var ps := Split(value);
            (forall i :: 0 <= i < |ps| ==> Trimmed(ps[i])) &&
            (forall i :: 0 <= i < |ps| - 1 ==> Neutral(ps[i])) &&
            (ps != [] ==> Pieces(ps[|ps| - 1]) == [ps[|ps| - 1]])
  {
    hide Trim, Trimmed, Inner;
    PieceShapes(Inner(value));
    var pieces := Pieces(Inner(value));
    forall i | 0 <= i < |pieces|
      ensures Trimmed(Trim(pieces[i])) && Pieces(Trim(pieces[i])) == [Trim(pieces[i])]
      ensures i < |pieces| - 1 ==> Neutral(Trim(pieces[i]))
    {
      TrimIsTrimmed(pieces[i]);
      TrimWhole(pieces[i]);
    }
  }

  lemma TrimIsTrimmed(s: string)
    ensures Trimmed(Trim(s))
  {
  }

  /** For every text: printing its members and splitting again gives the members
      exactly when the last of them is not empty. */
  lemma SplitAgain(value: string)
    ensures Split(Struct(Split(value))) == Split(value) <==>
            Split(value) == [] || Split(value)[|Split(value)| - 1] != []
  {
    hide Trimmed, Neutral, Split, Struct, Pieces;
    SplitShapes(value);
    SplitOfStruct(Split(value));
  }

  // Updates

  lemma AssignedName(member: string, value: string)
    requires Trimmed(member) && '=' !in member
    ensures NameOf(Assigned(member, value)) == Some(member)
    ensures Cut(Assigned(member, value), '=') == Some((member, value))
    ensures Assigned(member, value) != []
  {
    hide Trimmed, Trim;
    CutUnique(member, '=', value);
    TrimFixed(member);
  }

  /** A member that an update can write: a trimmed name and a neutral, trimmed text. */
  ghost predicate MemberOk(member: string, value: string) {
    Trimmed(member) && '=' !in member && Trimmed(value) &&
    Trimmed(Assigned(member, value)) && Neutral(Assigned(member, value))
  }

  /** For every value whose last part is closed and not empty, an update replaces
      the first part of that name, or adds the member behind the others, and
      leaves every other part as and where it was. */
  lemma UpdateSplits(value: string, member: string, memberValue: string)
    requires MemberOk(member, memberValue)
    requires Split(value) != [] ==> Neutral(Split(value)[|Split(value)| - 1]) && Split(value)[|Split(value)| - 1] != []
    ensures Split(Update(value, member, memberValue)) == UpdatedParts(Split(value), member, memberValue)
  {
    hide Trimmed, Trim, Neutral, Split, Struct, Pieces, Assigned, NameOf, StateOf;
    SplitShapes(value);
    AssignedName(member, memberValue);
    var ps := Split(value);
    var qs := UpdatedParts(ps, member, memberValue);
    if ps != [] { NeutralWhole(ps[|ps| - 1]); }
    NeutralWhole(Assigned(member, memberValue));
    SplitOfStruct(qs);
  }

  lemma NeutralWhole(s: string)
    requires Neutral(s)
    ensures Pieces(s) == [s]
  {
  }

  /** How many parts carry the name. */
  function Count(parts: seq<string>, member: string): nat {
    if parts == [] then 0
    else Count(parts[..|parts| - 1], member) + if NameOf(parts[|parts| - 1]) == Some(member) then 1 else 0
  }

  lemma {:induction false} CountNone(parts: seq<string>, member: string)
    ensures Count(parts, member) == 0 <==> forall j :: 0 <= j < |parts| ==> NameOf(parts[j]) != Some(member)
    ensures ValueOfMember(parts, member).None? <==> Count(parts, member) == 0
  {
    hide NameOf;
    if parts != [] {
      var front := parts[..|parts| - 1];
      CountNone(front, member);
      assert forall j :: 0 <= j < |front| ==> front[j] == parts[j];
    }
  }

  lemma {:induction false} LastValue(parts: seq<string>, i: nat, member: string)
    requires i < |parts| && NameOf(parts[i]) == Some(member)
    requires forall j :: i < j < |parts| ==> NameOf(parts[j]) != Some(member)
    ensures ValueOfMember(parts, member) == Some(Trim(Cut(parts[i], '=').value.1))
  {
    hide NameOf, Trim;
    if i < |parts| - 1 {
      var front := parts[..|parts| - 1];
      assert forall j :: 0 <= j < |front| ==> front[j] == parts[j];
      LastValue(front, i, member);
    }
  }

  lemma {:induction false} ValueElsewhere(parts: seq<string>, i: nat, part: string, other: string)
    requires i < |parts| && NameOf(parts[i]) != Some(other) && NameOf(part) != Some(other)
    ensures ValueOfMember(parts[i := part], other) == ValueOfMember(parts, other)
  {
    hide NameOf, Trim;
    var front := parts[..|parts| - 1];
    if i < |front| {
      ValueElsewhere(front, i, part, other);
      assert parts[i := part][..|parts| - 1] == front[i := part];
    } else {
      assert parts[i := part][..|parts| - 1] == front;
    }
  }

  lemma {:induction false} ValueBehind(parts: seq<string>, i: nat, part: string, member: string)
    requires i < |parts| && exists j :: i < j < |parts| && NameOf(parts[j]) == Some(member)
    ensures ValueOfMember(parts[i := part], member) == ValueOfMember(parts, member)
  {
    hide NameOf, Trim;
    var front := parts[..|parts| - 1];
    if NameOf(parts[|parts| - 1]) != Some(member) {
      var j :| i < j < |parts| && NameOf(parts[j]) == Some(member);
      assert front[j] == parts[j];
      ValueBehind(front, i, part, member);
      assert parts[i := part][..|parts| - 1] == front[i := part];
    }
  }

  lemma AppendedValue(parts: seq<string>, part: string, name: string)
    ensures NameOf(part) != Some(name) ==> ValueOfMember(parts + [part], name) == ValueOfMember(parts, name)
  {
    hide NameOf;
    assert (parts + [part])[..|parts|] == parts;
  }

  /** An update reads back for every name but its own as before. */
  lemma UpdateKeepsOthers(parts: seq<string>, member: string, value: string, other: string)
    requires Trimmed(member) && '=' !in member && other != member
    ensures ValueOfMember(UpdatedParts(parts, member, value), other) == ValueOfMember(parts, other)
  {
    hide NameOf, Trimmed, ValueOfMember, Assigned;
    AssignedName(member, value);
    match FirstNamed(parts, member)
    case Some(i) => ValueElsewhere(parts, i, Assigned(member, value), other);
    case None => AppendedValue(parts, Assigned(member, value), other);
  }

  /** The update replaces the first part of the name while readers take the last:
      a value that changes the member reads back exactly when the name occurs at
      most once. */
  lemma UpdateReadsBack(parts: seq<string>, member: string, value: string)
    requires Trimmed(member) && '=' !in member && Trimmed(value)
    requires ValueOfMember(parts, member) != Some(value)
    ensures ValueOfMember(UpdatedParts(parts, member, value), member) == Some(value) <==> Count(parts, member) <= 1
  {
    hide NameOf, Trimmed, Trim, ValueOfMember, Assigned, Count;
    AssignedName(member, value);
    TrimFixed(value);
    var qs := UpdatedParts(parts, member, value);
    match FirstNamed(parts, member) {
      case None =>
        CountNone(parts, member);
        LastValue(qs, |parts|, member);
      case Some(i) =>
        CountSplit(parts, i, member);
        if forall j :: i < j < |parts| ==> NameOf(parts[j]) != Some(member) {
          LastValue(qs, i, member);
        } else {
          ValueBehind(parts, i, Assigned(member, value), member);
        }
    }
  }

  /** A name that occurs twice: the update changes the first, the last is read. */
  lemma RepeatedNameStale()
    ensures var value := "(A=1,A=2)";
            Split(value) == ["A=1", "A=2"] && Split(Update(value, "A", "3")) == ["A=3", "A=2"] &&
            ValueOfMember(Split(Update(value, "A", "3")), "A") == Some("2")
  {
    hide Trim, Trimmed, NameOf, Split, Pieces, Neutral, Struct, Cut, Assigned, ValueOfMember, FirstOf;
    var one, two, three := Assigned("A", "1"), Assigned("A", "2"), Assigned("A", "3");
    DigitMember('1');
    DigitMember('2');
    DigitMember('3');
    TwoMembers(one, two);
    SplitOfStruct([one, two]);
    SplitOfStruct([three, two]);
    assert FirstNamed([one, two], "A") == Some(0) by { assert Names([one, two])[0] == Some("A"); }
    assert [one, two][0 := three] == [three, two];
    LastValue([three, two], 1, "A");
  }

  lemma TwoMembers(one: string, two: string)
    requires one == Assigned("A", "1") && two == Assigned("A", "2")
    ensures Struct([one, two]) == "(A=1,A=2)" && one == "A=1" && two == "A=2" && Assigned("A", "3") == "A=3"
  {
    assert [one, two][..1] == [one];
    assert Comma([one, two]) == one + [','] + two;
    assert ['('] + (one + [','] + two) + [')'] == "(A=1,A=2)";
  }

  /** A character that the tokenizer passes over. */
  predicate PlainChar(c: char) { c == 'A' || c == '=' || '0' <= c <= '9' }

  lemma {:induction false} PlainNeutral(s: string)
    requires forall i :: 0 <= i < |s| ==> PlainChar(s[i])
    ensures Neutral(s)
  {
    EmptyState();
    if s != [] {
      var front := s[..|s| - 1];
      PlainNeutral(front);
      assert [front][..0] == [];
      assert front + [s[|s| - 1]] == s;
    }
  }

  lemma DigitMember(c: char)
    requires '0' <= c <= '9'
    ensures var s := Assigned("A", [c]);
            Trimmed(s) && Neutral(s) && Pieces(s) == [s] && s != [] && NameOf(s) == Some("A") &&
            Trim(Cut(s, '=').value.1) == [c]
  {
    CutUnique("A", '=', [c]);
    PlainNeutral(Assigned("A", [c]));
  }

  lemma {:induction false} CountSplit(parts: seq<string>, i: nat, member: string)
    requires i < |parts| && NameOf(parts[i]) == Some(member)
    requires forall j :: 0 <= j < i ==> NameOf(parts[j]) != Some(member)
    ensures Count(parts, member) >= 1
    ensures Count(parts, member) == 1 <==> forall j :: i < j < |parts| ==> NameOf(parts[j]) != Some(member)
  {
    hide NameOf;
    var front := parts[..|parts| - 1];
    assert forall j :: 0 <= j < |front| ==> front[j] == parts[j];
    if i == |front| {
      CountNone(front, member);
    } else {
      CountSplit(front, i, member);
      if forall j :: i < j < |parts| ==> NameOf(parts[j]) != Some(member) {
        assert NameOf(parts[|parts| - 1]) != Some(member);
      } else if NameOf(parts[|parts| - 1]) != Some(member) {
        var j :| i < j < |parts| && NameOf(parts[j]) == Some(member);
        assert NameOf(front[j]) == Some(member);
      }
    }
  }

  // The loops

  /** What the pass knows in front of a character: the state, the finished members
      and where the current one starts. */
  ghost predicate Reads(raw: string, index: nat, start: nat, st: Scan, parts: seq<string>) {
    start <= index <= |raw| && st == StateOf(raw[..index])
    && var ps := Pieces(raw[..index]); parts == TrimAll(ps[..|ps| - 1]) && ps[|ps| - 1] == raw[start..index]
  }

  lemma ReadsOn(raw: string, index: nat, start: nat, st: Scan, parts: seq<string>)
    requires index < |raw| && Reads(raw, index, start, st, parts)
    ensures start <= index
    ensures if Splits(st, raw[index])
      then Reads(raw, index + 1, index + 1, Step(st, raw[index]), parts + [Trim(raw[start..index])])
      else Reads(raw, index + 1, start, Step(st, raw[index]), parts)
  {
    hide StateOf, Pieces, Step, Splits, Trim;
    var s, ps := raw[..index + 1], Pieces(raw[..index]);
    assert s[..index] == raw[..index];
    StateStep(s);
    PieceStep(s);
    assert raw[start..index + 1] == raw[start..index] + [raw[index]];
    assert raw[index + 1..index + 1] == [];
    if Splits(st, raw[index]) {
      assert (ps + [[]])[..|ps|] == ps;
    } else {
      var more := ps[..|ps| - 1] + [ps[|ps| - 1] + [raw[index]]];
      assert more[..|more| - 1] == ps[..|ps| - 1];
    }
  }

  lemma ReadsNothing(raw: string)
    ensures Reads(raw, 0, 0, START, [])
  {
    assert raw[..0] == [] && raw[0..0] == [];
  }

  lemma ReadsAll(raw: string, start: nat, st: Scan, parts: seq<string>)
    requires Reads(raw, |raw|, start, st, parts)
    ensures start <= |raw| && Members(Pieces(raw)) == parts + if Trim(raw[start..]) != [] then [Trim(raw[start..])]
              else []
  {
    hide Trim, Pieces, StateOf;
    assert raw[..|raw|] == raw && raw[start..|raw|] == raw[start..];
  }

  /** split_unreal_struct: one pass over the characters. */
  method SplitStruct(value: string) returns (parts: seq<string>)
    ensures parts == Split(value)
  {
    hide Trim, Inner, Reads;
    var raw := Inner(value);
    parts := [];
    var start := 0;
    var depth: nat, quote: Option<char>, escaped := 0, None, false;
    ReadsNothing(raw);
    for index := 0 to |raw|
      invariant 0 <= start <= index && Reads(raw, index, start, Scan(depth, quote, escaped), parts)
    {
      ReadsOn(raw, index, start, Scan(depth, quote, escaped), parts);
      var c := raw[index];
      if escaped {
        escaped := false;
        continue;
      }
      if c == '\\' && quote.Some? {
        escaped := true;
        continue;
      }
      if quote.Some? {
        if c == quote.value { quote := None; }
        continue;
      }
      if c == '"' || c == '\'' {
        quote := Some(c);
      } else if c == '(' {
        depth := depth + 1;
      } else if c == ')' {
        depth := if depth == 0 then 0 else depth - 1;
      } else if c == ',' && depth == 0 {
        parts := parts + [Trim(raw[start..index])];
        start := index + 1;
      }
    }
    ReadsAll(raw, start, Scan(depth, quote, escaped), parts);
    var tail := Trim(raw[start..]);
    if tail != [] {
      parts := parts + [tail];
    }
  }

  /** update_unreal_struct: the first part of that name is replaced in place. */
  method UpdateStruct(value: string, member: string, memberValue: string) returns (r: string)
    ensures r == Update(value, member, memberValue)
  {
    hide Split, NameOf, Struct, Assigned;
    var parts := SplitStruct(value);
    var updated := false;
    var index := 0;
    while index < |parts| && !updated
      invariant 0 <= index <= |parts| && |parts| == |Split(value)|
      invariant !updated ==> parts == Split(value) && forall j :: 0 <= j < index ==> NameOf(parts[j]) != Some(member)
      invariant updated ==>
                  parts == UpdatedParts(Split(value), member, memberValue) && FirstNamed(Split(value), member).Some?
      decreases |parts| - index, !updated
    {
      if NameOf(parts[index]) == Some(member) {
        parts := parts[index := Assigned(member, memberValue)];
        updated := true;
      } else {
        index := index + 1;
      }
    }
    if !updated {
      parts := parts + [Assigned(member, memberValue)];
    }
    r := Struct(parts);
  }
}
