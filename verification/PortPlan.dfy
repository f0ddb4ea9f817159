/** The port plan of several hosts behind one address: every host takes the stock
    ports plus a stride, and a sorted sweep with an early break checks that no port
    is used twice. */
module PortPlan {
  import opened Sorting

  const STRIDE := 1000
  const SERVICES := 12

  /** A range of ports of one instance; index stands for the service's name. */
  datatype Row = Row(instance: nat, index: nat, start: int, end: int)

  /** Base port and last offset of each service, in the order of the table. */
  type Defaults = d: seq<(int, nat)> | |d| == SERVICES witness seq(SERVICES, i => (i, 0))

  function Allocations(d: Defaults, instance: nat): (rows: seq<Row>)
    ensures |rows| == SERVICES
    ensures forall k :: 0 <= k < SERVICES ==>
      rows[k] == Row(instance, k, d[k].0 + (instance - 1) * STRIDE, d[k].0 + (instance - 1) * STRIDE + d[k].1)
  {
    seq(SERVICES, k requires 0 <= k < SERVICES =>
      Row(instance, k, d[k].0 + (instance - 1) * STRIDE, d[k].0 + (instance - 1) * STRIDE + d[k].1))
  }

  predicate InRange(r: Row) { 1 <= r.start <= 65535 && 1 <= r.end <= 65535 && r.start <= r.end }

  predicate Holds(r: Row, port: int) { r.start <= port <= r.end }

  predicate Overlap(a: Row, b: Row) {
    (if a.start > b.start then a.start else b.start) <= (if a.end < b.end then a.end else b.end)
  }

  /** The sort key: start, end, instance, then the service. */
  predicate Before(a: Row, b: Row) {
    if a.start != b.start then a.start < b.start
    else if a.end != b.end then a.end < b.end
    else if a.instance != b.instance then a.instance < b.instance
    else a.index <= b.index
  }

  /** Every range is a valid one and no two of them share a port. */
  ghost predicate Disjoint(rows: seq<Row>) {
    (forall r :: r in rows ==> InRange(r))
    && forall i, j, port :: 0 <= i < j < |rows| ==> !(Holds(rows[i], port) && Holds(rows[j], port))
  }

  ghost predicate Apart(rows: seq<Row>) { forall i, j :: 0 <= i < j < |rows| ==> !Overlap(rows[i], rows[j]) }

  lemma BeforeOrders()
    ensures Total(Before) && Transitive(Before)
  {
  }

  /** validate_allocations: true when it raises nothing. */
  method ValidateAllocations(rows: seq<Row>) returns (ok: bool)
    ensures ok <==> Disjoint(rows)
  {
    hide Ordered, Overlap, Before, Holds;
    for i := 0 to |rows|
      invariant forall k :: 0 <= k < i ==> InRange(rows[k])
    {
      assert rows[i] in rows;
      if !(1 <= rows[i].start <= 65535) || !(1 <= rows[i].end <= 65535) || rows[i].start > rows[i].end { return false; }
    }
    var ordered := Sort(Before, rows);
    BeforeOrders();
    SortOrdered(Before, rows);
    SortMembers(Before, rows);
    ApartPermuted(rows);
    ApartIsDisjoint(rows);
    for i := 0 to |ordered|
      invariant forall a, b :: 0 <= a < i && a < b < |ordered| ==> !Overlap(ordered[a], ordered[b])
    {
      var clear := ClearBehind(ordered, i);
      if !clear { return false; }
    }
    return true;
  }

  /** The inner loop: whether a range overlaps none behind it; it may stop early
      because the starts only grow. */
  method ClearBehind(ordered: seq<Row>, i: nat) returns (clear: bool)
    requires i < |ordered| && Ordered(Before, ordered)
    ensures clear <==> forall b :: i < b < |ordered| ==> !Overlap(ordered[i], ordered[b])
  {
    var left := ordered[i];
    var j := i + 1;
    while j < |ordered|
      invariant i < j <= |ordered|
      invariant forall b :: i < b < j ==> !Overlap(left, ordered[b])
    {
      var right := ordered[j];
      if right.start > left.end {
        forall b | j <= b < |ordered| ensures !Overlap(left, ordered[b]) {
          assert b == j || Before(ordered[j], ordered[b]);
        }
        return true;
      }
      if Overlap(left, right) { return false; }
      j := j + 1;
    }
    return true;
  }

  /** Ranges in order share a port exactly when they overlap. */
  lemma ApartIsDisjoint(rows: seq<Row>)
    requires forall r :: r in rows ==> InRange(r)
    ensures Apart(rows) <==> Disjoint(rows)
  {
    forall i, j | 0 <= i < j < |rows|
      ensures Overlap(rows[i], rows[j]) <==> exists port :: Holds(rows[i], port) && Holds(rows[j], port)
    {
      if Overlap(rows[i], rows[j]) {
        var port := if rows[i].start > rows[j].start then rows[i].start else rows[j].start;
        assert Holds(rows[i], port) && Holds(rows[j], port);
      }
    }
  }

  /** Sorting keeps the pairs apart or not. */
  lemma ApartPermuted(rows: seq<Row>)
    ensures Apart(rows) <==> Apart(Sort(Before, rows))
  {
    ApartSort(rows);
  }

  lemma {:induction false} ApartSort(rows: seq<Row>)
    ensures Apart(rows) <==> Apart(Sort(Before, rows))
  {
    if rows != [] {
      var front, last := rows[..|rows| - 1], rows[|rows| - 1];
      ApartSort(front);
      var k := InsertSplit(Before, Sort(Before, front), last);
      SortMembers(Before, front);
      var s := Sort(Before, front);
      ApartInsert(s, k, last);
      ApartLast(front, last);
      assert rows == front + [last];
      assert (forall r :: r in front ==> !Overlap(r, last)) <==> (forall r :: r in s ==> !Overlap(r, last));
    }
  }

  lemma ApartLast(front: seq<Row>, last: Row)
    ensures Apart(front + [last]) <==> Apart(front) && forall r :: r in front ==> !Overlap(r, last)
  {
    ApartInsert(front, |front|, last);
    assert front[..|front|] + [last] + front[|front|..] == front + [last];
  }

  lemma ApartInsert(s: seq<Row>, k: nat, x: Row)
    requires k <= |s|
    ensures Apart(s[..k] + [x] + s[k..]) <==> Apart(s) && forall r :: r in s ==> !Overlap(r, x)
  {
    hide Apart, Overlap;
    if Apart(s[..k] + [x] + s[k..]) { ApartWithout(s, k, x); }
    if Apart(s) && forall r :: r in s ==> !Overlap(r, x) { ApartWith(s, k, x); }
  }

  /** Where an element of s stands once x is put in at k. */
  function Moved(k: nat, i: nat): nat { if i < k then i else i + 1 }

  lemma InsertedAt(s: seq<Row>, k: nat, x: Row)
    requires k <= |s|
    ensures var t := s[..k] + [x] + s[k..];
      t[k] == x && forall i :: 0 <= i < |s| ==> s[i] == t[Moved(k, i)]
  {
  }

  lemma OverlapFlips(a: Row, b: Row)
    ensures Overlap(a, b) <==> Overlap(b, a)
  {
  }

  lemma ApartWithout(s: seq<Row>, k: nat, x: Row)
    requires k <= |s| && Apart(s[..k] + [x] + s[k..])
    ensures Apart(s) && forall r :: r in s ==> !Overlap(r, x)
  {
    hide Overlap;
    var t := s[..k] + [x] + s[k..];
    InsertedAt(s, k, x);
    forall i, j | 0 <= i < j < |s| ensures !Overlap(s[i], s[j]) {
      assert !Overlap(t[Moved(k, i)], t[Moved(k, j)]);
    }
    forall r | r in s ensures !Overlap(r, x) {
      var i :| 0 <= i < |s| && s[i] == r;
      OverlapFlips(x, r);
      assert if i < k then !Overlap(t[i], t[k]) else !Overlap(t[k], t[i + 1]);
    }
  }

  lemma ApartWith(s: seq<Row>, k: nat, x: Row)
    requires k <= |s| && Apart(s) && forall r :: r in s ==> !Overlap(r, x)
    ensures Apart(s[..k] + [x] + s[k..])
  {
    hide Overlap;
    var t := s[..k] + [x] + s[k..];
    forall i, j | 0 <= i < j < |t| ensures !Overlap(t[i], t[j]) {
      if i == k {
        assert t[j] == s[j - 1] && s[j - 1] in s;
        OverlapFlips(x, t[j]);
      } else if j == k {
        assert t[i] == s[i] && s[i] in s;
      } else {
        var a, b := if i < k then i else i - 1, if j < k then j else j - 1;
        assert t[i] == s[a] && t[j] == s[b] && !Overlap(s[a], s[b]);
      }
    }
  }

  // ---- what a host validates before it is configured ----

  function Plan(d: Defaults, instances: nat): seq<Row> {
    if instances == 0 then [] else Plan(d, instances - 1) + Allocations(d, instances)
  }

  /** validate_instance_capacity: each profile alone, then all up to this instance. */
  method ValidateInstanceCapacity(d: Defaults, instance: nat) returns (ok: bool)
    ensures ok <==> Disjoint(Plan(d, instance))
  {
    var rows := [];
    for i := 1 to instance + 1
      invariant rows == Plan(d, i - 1)
    {
      var own := Allocations(d, i);
      var valid := ValidateAllocations(own);
      PlanContains(d, instance, i);
      if !valid { return false; }
      rows := rows + own;
    }
    ok := ValidateAllocations(rows);
  }

  /** The rows of instance i stand in any plan that has it, in its own stretch. */
  lemma {:induction false} PlanAt(d: Defaults, n: nat, i: nat, k: nat)
    requires 1 <= i <= n && k < SERVICES
    ensures |Plan(d, n)| == n * SERVICES && Plan(d, n)[(i - 1) * SERVICES + k] == Allocations(d, i)[k]
  {
    PlanSize(d, n);
    PlanSize(d, n - 1);
    if i < n {
      PlanAt(d, n - 1, i, k);
    }
  }

  /** A plan is valid only if each profile is. */
  lemma PlanContains(d: Defaults, n: nat, i: nat)
    requires 1 <= i <= n
    ensures Disjoint(Plan(d, n)) ==> Disjoint(Allocations(d, i))
  {
    var rows, from := Plan(d, n), (i - 1) * SERVICES;
    PlanSize(d, n);
    assert from + SERVICES <= |rows|;
    forall k | 0 <= k < SERVICES ensures rows[from..from + SERVICES][k] == Allocations(d, i)[k] {
      PlanAt(d, n, i, k);
    }
    assert rows[from..from + SERVICES] == Allocations(d, i);
    DisjointStretch(rows, from, from + SERVICES);
  }

  lemma {:induction false} PlanSize(d: Defaults, n: nat)
    ensures |Plan(d, n)| == n * SERVICES
  {
    if n > 0 { PlanSize(d, n - 1); }
  }

  lemma DisjointStretch(rows: seq<Row>, i: nat, j: nat)
    requires i <= j <= |rows|
    ensures Disjoint(rows) ==> Disjoint(rows[i..j])
  {
    assert forall k :: 0 <= k < j - i ==> rows[i..j][k] == rows[i + k];
    assert forall r :: r in rows[i..j] ==> r in rows;
  }

  /** Two hosts that each validated the plan up to themselves never share a port,
      whatever the services; the later one's check is enough. */
  lemma HostsNeverShare(d: Defaults, i: nat, j: nat, a: Row, b: Row, port: int)
    requires 1 <= i < j && Disjoint(Plan(d, j))
    requires a in Allocations(d, i) && b in Allocations(d, j)
    ensures !(Holds(a, port) && Holds(b, port))
  {
    var x :| 0 <= x < SERVICES && Allocations(d, i)[x] == a;
    var y :| 0 <= y < SERVICES && Allocations(d, j)[y] == b;
    PlanAt(d, j, i, x);
    PlanAt(d, j, j, y);
    assert (i - 1) * SERVICES + x < (j - 1) * SERVICES + y;
  }
}
