/** Structs as trees: plain characters, quoted text with escapes, and groups in
    parentheses. Independently of the tokenizer's state this says which commas
    separate members: those outside every quote and every group. */
module UnrealTree {
  import opened Wrappers
  import opened Text
  import opened UnrealStruct

  datatype Node = Plain(c: char) | Quoted(quote: char, body: string) | Group(items: seq<Node>)

  /** Neither the quote nor a backslash, or a backslash and the character behind it. */
  predicate Body(s: string, quote: char) {
    if s == [] then true
    else if s[0] == '\\' then |s| > 1 && Body(s[2..], quote)
    else s[0] != quote && Body(s[1..], quote)
  }

  predicate WellFormed(n: Node) {
    match n
    case Plain(c) => c !in "()\"'"
    case Quoted(quote, body) => quote in "\"'" && Body(body, quote)
    case Group(items) => forall i :: 0 <= i < |items| ==> WellFormed(items[i])
  }

  function Written(n: Node): string
    decreases n, 0
  {
    match n
    case Plain(c) => [c]
    case Quoted(quote, body) => [quote] + body + [quote]
    case Group(items) => ['('] + AllWritten(items) + [')']
  }

  function AllWritten(nodes: seq<Node>): string
    decreases nodes, 1
  {
    if nodes == [] then [] else Written(nodes[0]) + AllWritten(nodes[1..])
  }

  // The tokenizer from any state on

  function RunFrom(st: Scan, s: string): Scan
    decreases |s|
  {
    if s == [] then st else RunFrom(Step(st, s[0]), s[1..])
  }

  /** No comma of the text separates members. */
  predicate Whole(st: Scan, s: string)
    decreases |s|
  {
    s == [] || (!Splits(st, s[0]) && Whole(Step(st, s[0]), s[1..]))
  }

  lemma {:induction false} RunAppend(st: Scan, a: string, b: string)
    ensures RunFrom(st, a + b) == RunFrom(RunFrom(st, a), b)
    ensures Whole(st, a + b) <==> Whole(st, a) && Whole(RunFrom(st, a), b)
    decreases |a|
  {
    hide Step, Splits;
    if a == [] {
      assert a + b == b;
    } else {
      assert (a + b)[1..] == a[1..] + b;
      RunAppend(Step(st, a[0]), a[1..], b);
    }
  }

  lemma RunOne(st: Scan, c: char)
    ensures RunFrom(st, [c]) == Step(st, c) && (Whole(st, [c]) <==> !Splits(st, c))
  {
    hide Step, Splits;
    assert [c][1..] == [];
  }

  /** Within a quote the tokenizer stays until the body is over. */
  lemma {:induction false} BodyRuns(depth: nat, quote: char, s: string)
    requires quote in "\"'" && Body(s, quote)
    ensures RunFrom(Scan(depth, Some(quote), false), s) == Scan(depth, Some(quote), false)
    ensures Whole(Scan(depth, Some(quote), false), s)
    decreases |s|
  {
    var st := Scan(depth, Some(quote), false);
    if s != [] {
      if s[0] == '\\' {
        BodyRuns(depth, quote, s[2..]);
        var inside := Step(st, s[0]);
        assert inside == Scan(depth, Some(quote), true);
        assert Step(inside, s[1]) == st;
        assert s[1..][1..] == s[2..] && s[1..][0] == s[1];
        assert RunFrom(st, s) == RunFrom(inside, s[1..]) == RunFrom(st, s[2..]);
        assert Whole(inside, s[1..]) == Whole(st, s[2..]);
      } else {
        BodyRuns(depth, quote, s[1..]);
        assert Step(st, s[0]) == st;
      }
    }
  }

  /** A node leaves the tokenizer where it was, and separates nothing unless it is a
      comma outside every group. */
  lemma {:induction false} NodeRuns(n: Node, depth: nat)
    requires WellFormed(n)
    ensures RunFrom(Scan(depth, None, false), Written(n)) == Scan(depth, None, false)
    ensures Whole(Scan(depth, None, false), Written(n)) <==> depth > 0 || n != Plain(',')
    decreases n, 0
  {
    hide RunFrom, Whole;
    var st := Scan(depth, None, false);
    match n
    case Plain(c) => RunOne(st, c);
    case Quoted(quote, body) =>
      var inside := Scan(depth, Some(quote), false);
      assert Step(st, quote) == inside && Step(inside, quote) == st;
      RunOne(st, quote);
      RunOne(inside, quote);
      BodyRuns(depth, quote, body);
      RunAppend(st, [quote], body);
      RunAppend(st, [quote] + body, [quote]);
    case Group(items) =>
      var inside := Scan(depth + 1, None, false);
      assert Step(st, '(') == inside && Step(inside, ')') == st;
      RunOne(st, '(');
      RunOne(inside, ')');
      NodesRun(items, depth + 1);
      RunAppend(st, ['('], AllWritten(items));
      RunAppend(st, ['('] + AllWritten(items), [')']);
  }

  predicate NoComma(nodes: seq<Node>) { forall i :: 0 <= i < |nodes| ==> nodes[i] != Plain(',') }

  lemma {:induction false} NodesRun(nodes: seq<Node>, depth: nat)
    requires forall i :: 0 <= i < |nodes| ==> WellFormed(nodes[i])
    ensures RunFrom(Scan(depth, None, false), AllWritten(nodes)) == Scan(depth, None, false)
    ensures Whole(Scan(depth, None, false), AllWritten(nodes)) <==> depth > 0 || NoComma(nodes)
    decreases nodes, 1
  {
    hide RunFrom, Whole, WellFormed, Written;
    var st := Scan(depth, None, false);
    if nodes == [] {
      NothingRuns(st);
    } else {
      NodeRuns(nodes[0], depth);
      NodesRun(nodes[1..], depth);
      RunAppend(st, Written(nodes[0]), AllWritten(nodes[1..]));
      assert NoComma(nodes) <==> nodes[0] != Plain(',') && NoComma(nodes[1..]) by {
        assert nodes == [nodes[0]] + nodes[1..];
      }
    }
  }

  lemma NothingRuns(st: Scan)
    ensures RunFrom(st, []) == st && Whole(st, [])
  {
  }

  // From the start

  lemma {:induction false} WholePieces(s: string)
    ensures StateOf(s) == RunFrom(START, s)
    ensures Whole(START, s) <==> Pieces(s) == [s]
    ensures Whole(START, s) <==> |Pieces(s)| == 1
  {
    hide Step, Splits, RunFrom, Whole, StateOf, Pieces;
    if s == [] {
      EmptyState();
      NothingRuns(START);
    } else {
      var front, c := s[..|s| - 1], s[|s| - 1];
      assert s == front + [c];
      WholePieces(front);
      StateStep(s);
      PieceStep(s);
      RunAppend(START, front, [c]);
      RunOne(StateOf(front), c);
      assert [front][..0] == [];
    }
  }

  /** A member is whole exactly when its commas are all in quotes or groups. */
  lemma NeutralExactly(nodes: seq<Node>)
    requires forall i :: 0 <= i < |nodes| ==> WellFormed(nodes[i])
    ensures Neutral(AllWritten(nodes)) <==> NoComma(nodes)
  {
    hide WellFormed, AllWritten, StateOf, Pieces, RunFrom, Whole, NoComma;
    NodesRun(nodes, 0);
    WholePieces(AllWritten(nodes));
  }

  /** A struct splits into its members, whatever commas these hold in quotes and
      groups. */
  lemma TreesSplit(members: seq<seq<Node>>)
    requires members != []
    requires forall i, j :: 0 <= i < |members| && 0 <= j < |members[i]| ==>
               WellFormed(members[i][j]) && members[i][j] != Plain(',')
    requires forall i :: 0 <= i < |members| ==> Trimmed(AllWritten(members[i]))
    requires AllWritten(members[|members| - 1]) != []
    ensures var texts := seq(|members|, i requires 0 <= i < |members| => AllWritten(members[i]));
            Split(Struct(texts)) == texts
  {
    hide WellFormed, AllWritten, StateOf, Pieces, Neutral, Trimmed, Split, Struct;
    var texts := seq(|members|, i requires 0 <= i < |members| => AllWritten(members[i]));
    forall i | 0 <= i < |members| ensures Neutral(texts[i]) {
      NeutralExactly(members[i]);
    }
    NeutralPieces(texts[|texts| - 1]);
    SplitOfStruct(texts);
  }

  lemma NeutralPieces(s: string)
    requires Neutral(s)
    ensures Pieces(s) == [s]
  {
  }
}
