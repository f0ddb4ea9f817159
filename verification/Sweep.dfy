/** The buyback sweep: the claim loop over the eligible listings, cheapest first,
    that skips locked rows and stops when it has bought enough, and the two log
    rankings that explain such a walk from the rows alone. Prices and order ids are
    natural numbers. */
module Sweep {
  import opened Sorting

  datatype Label = Success | Eligible | PastMaxBuys | SkippedLocked | Skipped
  /** A log row; code 0 is a purchase or an eligible listing. */
  datatype Entry = Entry(id: nat, price: nat, code: nat, tag: Label)
  datatype Listing = Listing(id: nat, price: nat)

  predicate Less(price: nat, id: nat, price2: nat, id2: nat) { price < price2 || (price == price2 && id < id2) }

  /** compareLogOrder(a, b) <= 0 */
  predicate InLogOrder(a: Entry, b: Entry) { !Less(b.price, b.id, a.price, a.id) }

  /** compareLogEntries(a, b) <= 0 */
  predicate InLogFile(a: Entry, b: Entry) { a.code < b.code || (a.code == b.code && InLogOrder(a, b)) }

  predicate InBoardOrder(a: Listing, b: Listing) { !Less(b.price, b.id, a.price, a.id) }

  ghost predicate DistinctIds(s: seq<Entry>) { forall i, j :: 0 <= i < j < |s| ==> s[i].id != s[j].id }

  // ---- the walk ----

  /** What the loop has bought when it is through with the listings. */
  function Claim(walk: seq<Listing>, locked: set<nat>, max: nat): seq<Listing> {
    if walk == [] then []
    else
      var bought, next := Claim(walk[..|walk| - 1], locked, max), walk[|walk| - 1];
      if |bought| < max && next.id !in locked then bought + [next] else bought
  }

  /** The loop looks at the listing: it is not full when it gets there. */
  predicate Reached(walk: seq<Listing>, locked: set<nat>, max: nat, j: nat)
    requires j < |walk|
  {
    |Claim(walk[..j], locked, max)| < max
  }

  method ClaimLoop(walk: seq<Listing>, locked: set<nat>, max: nat) returns (bought: seq<Listing>, stop: nat)
    ensures bought == Claim(walk, locked, max)
    ensures stop <= |walk| && forall j :: 0 <= j < |walk| ==> (j < stop <==> Reached(walk, locked, max, j))
  {
    bought, stop := [], 0;
    while stop < |walk| && |bought| < max
      invariant stop <= |walk| && bought == Claim(walk[..stop], locked, max)
      invariant forall j :: 0 <= j < stop ==> Reached(walk, locked, max, j)
    {
      assert walk[..stop + 1][..stop] == walk[..stop];
      if walk[stop].id !in locked {
        bought := bought + [walk[stop]];
      }
      stop := stop + 1;
    }
    forall j | stop <= j <= |walk| ensures Claim(walk[..j], locked, max) == bought || stop == |walk| {
      if stop < |walk| { FullStays(walk, locked, max, stop, j); }
    }
    assert walk[..|walk|] == walk;
  }

  /** Once full, the loop buys nothing more. */
  lemma {:induction false} FullStays(walk: seq<Listing>, locked: set<nat>, max: nat, i: nat, j: nat)
    requires i <= j <= |walk| && |Claim(walk[..i], locked, max)| >= max
    ensures Claim(walk[..j], locked, max) == Claim(walk[..i], locked, max)
  {
    if i < j {
      FullStays(walk, locked, max, i, j - 1);
      assert walk[..j][..j - 1] == walk[..j - 1];
    }
  }

  ghost predicate DistinctListings(walk: seq<Listing>) {
    forall i, j :: 0 <= i < j < |walk| ==> walk[i].id != walk[j].id
  }

  function Ids(s: seq<Listing>): set<nat> { set l | l in s :: l.id }

  /** A listing of the walk is bought exactly when it is reached and not locked. */
  lemma {:induction false} BoughtExactly(walk: seq<Listing>, locked: set<nat>, max: nat, j: nat)
    requires DistinctListings(walk) && j < |walk|
    ensures walk[j] in Claim(walk, locked, max) <==> Reached(walk, locked, max, j) && walk[j].id !in locked
  {
    var front, last := walk[..|walk| - 1], walk[|walk| - 1];
    ClaimedFrom(front, locked, max);
    if j < |front| {
      BoughtExactly(front, locked, max, j);
      assert front[..j] == walk[..j];
      assert walk[j] != last;
    } else {
      assert last !in front;
    }
  }

  /** The board's order is by price, and by id among equals. */
  lemma WalkExactly(walk: seq<Listing>)
    ensures Walk(walk) <==>
            forall i, j :: 0 <= i < j < |walk| ==>
              walk[i].id != walk[j].id &&
              (walk[i].price < walk[j].price || (walk[i].price == walk[j].price && walk[i].id < walk[j].id))
  {
    if Walk(walk) {
      forall i, j | 0 <= i < j < |walk|
        ensures walk[i].id != walk[j].id &&
                (walk[i].price < walk[j].price || (walk[i].price == walk[j].price && walk[i].id < walk[j].id))
      {
        assert InBoardOrder(walk[i], walk[j]);
      }
    }
  }

  /** A sweep buys the cheapest listings it can: whatever is neither bought nor
      locked costs more than each purchase, or as much with a higher id; and it only
      stays below its limit when nothing of the kind is left. */
  lemma BoughtCheapest(walk: seq<Listing>, locked: set<nat>, max: nat, a: Listing, b: Listing)
    requires Walk(walk) && b in walk && b !in Claim(walk, locked, max) && b.id !in locked
    ensures |Claim(walk, locked, max)| == max
    ensures a in Claim(walk, locked, max) ==> a.price < b.price || (a.price == b.price && a.id < b.id)
  {
    hide Claim;
    WalkExactly(walk);
    ClaimedFrom(walk, locked, max);
    var j :| 0 <= j < |walk| && walk[j] == b;
    BoughtExactly(walk, locked, max, j);
    FullStays(walk, locked, max, j, |walk|);
    assert walk[..|walk|] == walk;
    ClaimedFrom(walk[..j], locked, max);
    if a in Claim(walk, locked, max) {
      var i :| 0 <= i < |walk[..j]| && walk[..j][i] == a;
      assert walk[i] == a;
    }
  }

  lemma {:induction false} ClaimedFrom(walk: seq<Listing>, locked: set<nat>, max: nat)
    ensures |Claim(walk, locked, max)| <= max
    ensures forall l :: l in Claim(walk, locked, max) ==> l in walk && l.id !in locked
  {
    if walk != [] {
      ClaimedFrom(walk[..|walk| - 1], locked, max);
    }
  }

  /** Bought listings have different ids, so counting ids counts purchases. */
  lemma {:induction false} ClaimIds(walk: seq<Listing>, locked: set<nat>, max: nat)
    requires DistinctListings(walk)
    ensures |Ids(Claim(walk, locked, max))| == |Claim(walk, locked, max)|
  {
    if walk != [] {
      var front, last := walk[..|walk| - 1], walk[|walk| - 1];
      ClaimIds(front, locked, max);
      ClaimedFrom(front, locked, max);
      var c := Claim(front, locked, max);
      assert Ids(c + [last]) == Ids(c) + {last.id};
      assert last.id !in Ids(c);
    }
  }

  // ---- the ranking after a sweep ----

  predicate Purchase(e: Entry) { e.tag.Success? }
  predicate Open(e: Entry) { e.code == 0 && e.tag.Eligible? }

  /** The purchases before the entry, in price and id order. */
  function BoughtBefore(entries: seq<Entry>, e: Entry): set<nat> {
    set x | x in entries && Purchase(x) && Less(x.price, x.id, e.price, e.id) :: x.id
  }

  /** Past the limit when enough was bought before it, else it was locked. */
  function Marked(e: Entry, past: bool): Entry {
    if past then e.(code := 5, tag := PastMaxBuys) else e.(code := 6, tag := SkippedLocked)
  }

  function AtLeastOne(max: nat): nat { if max < 1 then 1 else max }

  function Explained(entries: seq<Entry>, e: Entry, max: nat): Entry {
    if Open(e) then Marked(e, |BoughtBefore(entries, e)| >= AtLeastOne(max)) else e
  }

  function Considered(entries: seq<Entry>): (r: seq<Entry>)
    ensures forall e :: e in r ==> e in entries && (Purchase(e) || Open(e))
    ensures forall e :: e in entries && (Purchase(e) || Open(e)) ==> e in r
  {
    if entries == [] then []
    else
      var front, last := entries[..|entries| - 1], entries[|entries| - 1];
      var r := Considered(front);
      if Purchase(last) || Open(last) then r + [last] else r
  }

  lemma {:induction false} ConsideredDistinct(entries: seq<Entry>)
    requires DistinctIds(entries)
    ensures DistinctIds(Considered(entries))
  {
    if entries != [] {
      var front, last := entries[..|entries| - 1], entries[|entries| - 1];
      ConsideredDistinct(front);
      forall e | e in Considered(front) ensures e.id != last.id {
        var k :| 0 <= k < |front| && front[k] == e;
        assert entries[k] == e;
      }
    }
  }

  /** What the walk over the first rows of c has noted. */
  ghost predicate Noted(entries: seq<Entry>, c: seq<Entry>, i: nat, boughtBefore: nat, leftover: map<nat, nat>,
      max: nat)
    requires i <= |c|
  {
    && boughtBefore == |Bought(c[..i])|
    && (forall id :: id in leftover ==> exists k :: 0 <= k < i && c[k].id == id && !Purchase(c[k]))
    && (forall k :: 0 <= k < i && !Purchase(c[k]) ==> (
      c[k].id in leftover && leftover[c[k].id] == if |BoughtBefore(entries, c[k])| >= max then 5 else 6))
  }

  ghost predicate Considers(entries: seq<Entry>, c: seq<Entry>) {
    Ordered(InLogOrder, c) && DistinctIds(c) && forall e :: e in c <==> e in entries && (Purchase(e) || Open(e))
  }

  lemma NotedPurchase(entries: seq<Entry>, c: seq<Entry>, i: nat, boughtBefore: nat, leftover: map<nat, nat>, max: nat)
    requires i < |c| && Considers(entries, c) && Noted(entries, c, i, boughtBefore, leftover, max) && Purchase(c[i])
    ensures Noted(entries, c, i + 1, boughtBefore + 1, leftover, max)
  {
    hide BoughtBefore, Bought, Ordered;
    BoughtGrows(c, i);
    forall id | id in leftover ensures exists k :: 0 <= k < i + 1 && c[k].id == id && !Purchase(c[k]) {
      var k :| 0 <= k < i && c[k].id == id && !Purchase(c[k]);
    }
  }

  lemma NotedLeftover(entries: seq<Entry>, c: seq<Entry>, i: nat, boughtBefore: nat, leftover: map<nat, nat>, max: nat)
    requires i < |c| && Considers(entries, c) && Noted(entries, c, i, boughtBefore, leftover, max) && !Purchase(c[i])
    ensures Noted(entries, c, i + 1, boughtBefore, leftover[c[i].id := if boughtBefore >= max then 5 else 6], max)
  {
    hide BoughtBefore, Ordered;
    BoughtIsBefore(entries, c, i);
    assert c[..i + 1] == c[..i] + [c[i]];
    assert Bought(c[..i + 1]) == Bought(c[..i]);
    var more := leftover[c[i].id := if boughtBefore >= max then 5 else 6];
    forall id | id in more ensures exists k :: 0 <= k < i + 1 && c[k].id == id && !Purchase(c[k]) {
      if id in leftover {
        var k :| 0 <= k < i && c[k].id == id && !Purchase(c[k]);
      } else {
        assert c[i].id == id;
      }
    }
  }

  /** With all rows noted, looking an id up is explaining its row. */
  lemma LookedUp(entries: seq<Entry>, c: seq<Entry>, boughtBefore: nat, leftover: map<nat, nat>, max: nat, e: Entry)
    requires DistinctIds(entries) && Considers(entries, c) &&
             Noted(entries, c, |c|, boughtBefore, leftover, AtLeastOne(max))
    requires e in entries
    ensures (if e.id in leftover then Marked(e, leftover[e.id] == 5) else e) == Explained(entries, e, max)
  {
    if Open(e) {
      assert e in c;
      var k :| 0 <= k < |c| && c[k] == e;
      assert e.id in leftover;
    }
    if e.id in leftover {
      var k :| 0 <= k < |c| && c[k].id == e.id && !Purchase(c[k]);
      assert c[k] in c;
      SameRow(entries, e, c[k]);
    }
  }

  lemma SameRow(entries: seq<Entry>, a: Entry, b: Entry)
    requires DistinctIds(entries) && a in entries && b in entries && a.id == b.id
    ensures a == b
  {
    var i :| 0 <= i < |entries| && entries[i] == a;
    var j :| 0 <= j < |entries| && entries[j] == b;
  }

  function Explanations(entries: seq<Entry>, max: nat): (r: seq<Entry>)
    ensures |r| == |entries| && forall i :: 0 <= i < |r| ==> r[i] == Explained(entries, entries[i], max)
  {
    seq(|entries|, i requires 0 <= i < |entries| => Explained(entries, entries[i], max))
  }

  /** applySweepLeftoverRanking: one walk over purchases and eligible rows in order. */
  method ApplySweepLeftoverRanking(entries: seq<Entry>, maxBuys: nat) returns (r: seq<Entry>)
    ensures DistinctIds(entries) ==> r == Sort(InLogFile, Explanations(entries, maxBuys))
  {
    hide Noted, Considers, Explained, BoughtBefore, Bought, Ordered;
    var max := AtLeastOne(maxBuys);
    var considered := Sort(InLogOrder, Considered(entries));
    var leftover: map<nat, nat> := map[];
    var boughtBefore := 0;
    ConsideredInOrder(entries);
    NothingNoted(entries, considered, max);
    for i := 0 to |considered|
      invariant DistinctIds(entries) ==> Noted(entries, considered, i, boughtBefore, leftover, max)
    {
      var e := considered[i];
      if Purchase(e) {
        if DistinctIds(entries) { NotedPurchase(entries, considered, i, boughtBefore, leftover, max); }
        boughtBefore := boughtBefore + 1;
      } else {
        if DistinctIds(entries) { NotedLeftover(entries, considered, i, boughtBefore, leftover, max); }
        leftover := leftover[e.id := if boughtBefore >= max then 5 else 6];
      }
    }
    var marked := [];
    for i := 0 to |entries|
      invariant |marked| == i
      invariant DistinctIds(entries) ==> forall k :: 0 <= k < i ==> marked[k] == Explained(entries, entries[k], maxBuys)
    {
      var e := entries[i];
      if DistinctIds(entries) { LookedUp(entries, considered, boughtBefore, leftover, maxBuys, e); }
      marked := marked + [if e.id in leftover then Marked(e, leftover[e.id] == 5) else e];
    }
    assert DistinctIds(entries) ==> marked == Explanations(entries, maxBuys);
    r := Sort(InLogFile, marked);
  }

  lemma NothingNoted(entries: seq<Entry>, c: seq<Entry>, max: nat)
    ensures Noted(entries, c, 0, 0, map[], max)
  {
    assert Bought([]) == {};
  }

  function Bought(s: seq<Entry>): set<nat> { set x | x in s && Purchase(x) :: x.id }

  lemma DistinctPermuted(s: seq<Entry>, t: seq<Entry>)
    requires DistinctIds(s) && multiset(s) == multiset(t)
    ensures DistinctIds(t)
  {
    forall i, j | 0 <= i < j < |t| ensures t[i].id != t[j].id {
      if t[i].id == t[j].id {
        MembersAlike(s, t, i);
        MembersAlike(s, t, j);
        assert t[i] == t[j];
        TwiceInMultiset(t, i, j);
        OnceInMultiset(s, t[i]);
      }
    }
  }

  lemma MembersAlike(s: seq<Entry>, t: seq<Entry>, i: nat)
    requires multiset(s) == multiset(t) && i < |t|
    ensures t[i] in s
  {
    assert t[i] in multiset(t);
  }

  lemma TwiceInMultiset(t: seq<Entry>, i: nat, j: nat)
    requires i < j < |t| && t[i] == t[j]
    ensures multiset(t)[t[i]] >= 2
  {
    assert t == t[..i] + [t[i]] + t[i + 1..j] + [t[j]] + t[j + 1..];
  }

  lemma {:induction false} OnceInMultiset(s: seq<Entry>, e: Entry)
    requires DistinctIds(s)
    ensures multiset(s)[e] <= 1
  {
    if s != [] {
      assert s == s[..|s| - 1] + [s[|s| - 1]];
      OnceInMultiset(s[..|s| - 1], e);
    }
  }

  /** Sorted, the rows the ranking walks keep their ids apart and are in order. */
  lemma ConsideredInOrder(entries: seq<Entry>)
    ensures DistinctIds(entries) ==> Considers(entries, Sort(InLogOrder, Considered(entries)))
  {
    if DistinctIds(entries) {
      SortOrdered(InLogOrder, Considered(entries));
      SortMembers(InLogOrder, Considered(entries));
      SortMultiset(InLogOrder, Considered(entries));
      ConsideredDistinct(entries);
      DistinctPermuted(Considered(entries), Sort(InLogOrder, Considered(entries)));
    }
  }

  lemma BoughtGrows(c: seq<Entry>, i: nat)
    requires i < |c| && Purchase(c[i])
    ensures DistinctIds(c) ==> |Bought(c[..i + 1])| == |Bought(c[..i])| + 1
  {
    assert c[..i + 1] == c[..i] + [c[i]];
    assert Bought(c[..i + 1]) == Bought(c[..i]) + {c[i].id};
  }

  /** In order, the purchases walked so far are the ones before this row. */
  lemma BoughtIsBefore(entries: seq<Entry>, c: seq<Entry>, i: nat)
    requires i < |c| && !Purchase(c[i]) && Ordered(InLogOrder, c)
    requires forall e :: e in c <==> e in entries && (Purchase(e) || Open(e))
    ensures DistinctIds(c) ==> Bought(c[..i]) == BoughtBefore(entries, c[i])
  {
    if DistinctIds(c) {
      forall x | x in entries && Purchase(x) && Less(x.price, x.id, c[i].price, c[i].id) ensures x in c[..i] {
        assert x in c;
        var k :| 0 <= k < |c| && c[k] == x;
        assert k < i;
        assert c[..i][k] == x;
      }
      forall x | x in c[..i] && Purchase(x) ensures x in entries && Less(x.price, x.id, c[i].price, c[i].id) {
        var k :| 0 <= k < i && c[k] == x;
        assert InLogOrder(c[k], c[i]);
      }
    }
  }

  /** Either ranking returns its rows by result code, then price, then id. */
  lemma RankingInOrder(rows: seq<Entry>, i: nat, j: nat)
    requires i < j < |rows|
    ensures multiset(Sort(InLogFile, rows)) == multiset(rows)
    ensures var a, b := Sort(InLogFile, rows)[i], Sort(InLogFile, rows)[j];
            || a.code < b.code
            || (a.code == b.code && a.price < b.price)
            || (a.code == b.code && a.price == b.price && a.id <= b.id)
  {
    hide InLogFile, Total, Transitive, Ordered;
    SortMultiset(InLogFile, rows);
    LogFileOrder();
    SortOrdered(InLogFile, rows);
    OrderedAt(Sort(InLogFile, rows), i, j);
    InLogFileExactly(Sort(InLogFile, rows)[i], Sort(InLogFile, rows)[j]);
  }

  lemma LogFileOrder()
    ensures Total(InLogFile) && Transitive(InLogFile)
  {
  }

  lemma OrderedAt(s: seq<Entry>, i: nat, j: nat)
    requires i < j < |s| && Ordered(InLogFile, s)
    ensures InLogFile(s[i], s[j])
  {
  }

  lemma InLogFileExactly(a: Entry, b: Entry)
    ensures InLogFile(a, b) <==>
            || a.code < b.code
            || (a.code == b.code && a.price < b.price)
            || (a.code == b.code && a.price == b.price && a.id <= b.id)
  {
  }

  // ---- the log explains the walk ----

  function PurchaseRow(l: Listing): Entry { Entry(l.id, l.price, 0, Success) }
  function OpenRow(l: Listing): Entry { Entry(l.id, l.price, 0, Eligible) }

  /** The rows hold every purchase of the walk and no other; their order, the
      leftovers among them and rows of other listings are free. */
  ghost predicate LogOf(entries: seq<Entry>, walk: seq<Listing>, locked: set<nat>, max: nat) {
    DistinctIds(entries)
    && (forall l :: l in Claim(walk, locked, max) ==> PurchaseRow(l) in entries)
    && forall e :: e in entries && Purchase(e) ==> Listing(e.id, e.price) in Claim(walk, locked, max)
  }

  ghost predicate Walk(walk: seq<Listing>) { Ordered(InBoardOrder, walk) && DistinctListings(walk) }

  /** What was bought before a listing of the walk is what the loop held when it
      got there. */
  lemma BoughtAtRow(entries: seq<Entry>, walk: seq<Listing>, locked: set<nat>, max: nat, j: nat, e: Entry)
    requires Walk(walk) && LogOf(entries, walk, locked, max) && j < |walk| && e.id == walk[j].id &&
             e.price == walk[j].price
    ensures BoughtBefore(entries, e) == Ids(Claim(walk[..j], locked, max))
  {
    hide Claim, Reached;
    ClaimedFrom(walk, locked, max);
    ClaimedFrom(walk[..j], locked, max);
    forall x | x in entries && Purchase(x) && Less(x.price, x.id, e.price, e.id)
      ensures Listing(x.id, x.price) in Claim(walk[..j], locked, max)
    {
      var i :| 0 <= i < |walk| && walk[i] == Listing(x.id, x.price);
      assert i < j;
      ClaimOfFront(walk, locked, max, i, j);
    }
    forall l | l in Claim(walk[..j], locked, max)
      ensures PurchaseRow(l) in entries && Less(l.price, l.id, e.price, e.id)
    {
      var i :| 0 <= i < |walk[..j]| && walk[..j][i] == l;
      assert walk[i] == l && InBoardOrder(walk[i], walk[j]);
      ClaimOfFront(walk, locked, max, i, j);
    }
    assert forall id :: id in Ids(Claim(walk[..j], locked, max)) ==> id in BoughtBefore(entries, e) by {
      forall l | l in Claim(walk[..j], locked, max) ensures l.id in BoughtBefore(entries, e) {
        assert PurchaseRow(l) in entries && Purchase(PurchaseRow(l));
      }
    }
  }

  lemma ClaimOfFront(walk: seq<Listing>, locked: set<nat>, max: nat, i: nat, j: nat)
    requires DistinctListings(walk) && i < j <= |walk|
    ensures walk[i] in Claim(walk[..j], locked, max) <==> walk[i] in Claim(walk, locked, max)
  {
    BoughtExactly(walk, locked, max, i);
    BoughtExactly(walk[..j], locked, max, i);
    assert walk[..j][..i] == walk[..i];
  }

  /** A leftover is called past the limit exactly when the loop never reached it,
      else it is called locked, and then it was. */
  lemma SweepExplained(entries: seq<Entry>, walk: seq<Listing>, locked: set<nat>, max: nat, j: nat)
    requires Walk(walk) && max >= 1 && LogOf(entries, walk, locked, max) && j < |walk| && OpenRow(walk[j]) in entries
    ensures Explained(entries, OpenRow(walk[j]), max) ==
            if Reached(walk, locked, max, j) then Entry(walk[j].id, walk[j].price, 6, SkippedLocked)
            else Entry(walk[j].id, walk[j].price, 5, PastMaxBuys)
    ensures Reached(walk, locked, max, j) ==> walk[j].id in locked
  {
    var e := OpenRow(walk[j]);
    BoughtAtRow(entries, walk, locked, max, j, e);
    ClaimIds(walk[..j], locked, max);
    BoughtExactly(walk, locked, max, j);
    if walk[j] in Claim(walk, locked, max) {
      SameRow(entries, e, PurchaseRow(walk[j]));
    }
  }

  /** A listing that the loop never saw is called locked, exactly when the sweep
      was not full or bought something that does not come before it. */
  lemma NewcomerCalledLocked(entries: seq<Entry>, walk: seq<Listing>, locked: set<nat>, max: nat, newcomer: Listing)
    requires Walk(walk) && LogOf(entries, walk, locked, max)
    requires newcomer !in walk && OpenRow(newcomer) in entries
    ensures Explained(entries, OpenRow(newcomer), max).tag.SkippedLocked? <==>
            |Claim(walk, locked, max)| < AtLeastOne(max) ||
            exists l :: l in Claim(walk, locked, max) && !Less(l.price, l.id, newcomer.price, newcomer.id)
  {
    hide Less, LogOf, Walk, BoughtBefore, Claim;
    var before, claim := BoughtBefore(entries, OpenRow(newcomer)), Claim(walk, locked, max);
    BeforeAreBought(entries, walk, locked, max, OpenRow(newcomer));
    ClaimSize(walk, locked, max);
    SubsetSize(before, Ids(claim));
    if l :| l in claim && !Less(l.price, l.id, newcomer.price, newcomer.id) {
      LaterIsNotBefore(entries, walk, locked, max, newcomer, l);
      assert before <= Ids(claim) - {l.id};
      SubsetSize(before, Ids(claim) - {l.id});
    } else {
      AllBefore(entries, walk, locked, max, newcomer);
    }
  }

  lemma ClaimSize(walk: seq<Listing>, locked: set<nat>, max: nat)
    requires Walk(walk)
    ensures |Ids(Claim(walk, locked, max))| == |Claim(walk, locked, max)| <= max
  {
    ClaimIds(walk, locked, max);
    ClaimedFrom(walk, locked, max);
  }

  lemma AllBefore(entries: seq<Entry>, walk: seq<Listing>, locked: set<nat>, max: nat, newcomer: Listing)
    requires LogOf(entries, walk, locked, max)
    requires forall l :: l in Claim(walk, locked, max) ==> Less(l.price, l.id, newcomer.price, newcomer.id)
    ensures BoughtBefore(entries, OpenRow(newcomer)) == Ids(Claim(walk, locked, max))
  {
    hide Less, Claim;
    BeforeAreBought(entries, walk, locked, max, OpenRow(newcomer));
    forall l | l in Claim(walk, locked, max) ensures l.id in BoughtBefore(entries, OpenRow(newcomer)) {
      assert PurchaseRow(l) in entries && Purchase(PurchaseRow(l));
    }
  }

  lemma BeforeAreBought(entries: seq<Entry>, walk: seq<Listing>, locked: set<nat>, max: nat, e: Entry)
    requires LogOf(entries, walk, locked, max)
    ensures BoughtBefore(entries, e) <= Ids(Claim(walk, locked, max))
  {
    hide Less;
    forall id | id in BoughtBefore(entries, e) ensures id in Ids(Claim(walk, locked, max)) {
      var x :| x in entries && Purchase(x) && x.id == id;
      assert Listing(x.id, x.price) in Claim(walk, locked, max);
    }
  }

  lemma LaterIsNotBefore(entries: seq<Entry>, walk: seq<Listing>, locked: set<nat>, max: nat, newcomer: Listing,
      l: Listing)
    requires LogOf(entries, walk, locked, max) && l in Claim(walk, locked, max)
    requires !Less(l.price, l.id, newcomer.price, newcomer.id)
    ensures l.id !in BoughtBefore(entries, OpenRow(newcomer))
  {
    forall x | x in entries && Purchase(x) && x.id == l.id ensures x.price == l.price {
      SameRow(entries, x, PurchaseRow(l));
    }
  }

  /** Two boards: an empty sweep, and a full one with a newcomer cheaper than what
      it bought; neither newcomer was ever locked. */
  lemma NewcomersOnBoard()
    ensures var walk, rows := [Listing(7, 100)], [PurchaseRow(Listing(7, 100)), OpenRow(Listing(9, 50))];
            Walk(walk) && LogOf(rows, walk, {}, 1) && Explained(rows, rows[1], 1).tag.SkippedLocked? &&
            Walk([]) && LogOf([rows[1]], [], {}, 1) && Explained([rows[1]], rows[1], 1).tag.SkippedLocked?
  {
    var l, newcomer := Listing(7, 100), Listing(9, 50);
    var walk, rows := [l], [PurchaseRow(l), OpenRow(newcomer)];
    assert walk[..0] == [];
    assert Claim(walk, {}, 1) == [l];
    assert LogOf(rows, walk, {}, 1);
    NewcomerCalledLocked(rows, walk, {}, 1, newcomer);
    assert l in Claim(walk, {}, 1) && !Less(l.price, l.id, newcomer.price, newcomer.id);
    NewcomerCalledLocked([rows[1]], [], {}, 1, newcomer);
  }

  lemma {:induction false} SubsetSize(a: set<nat>, b: set<nat>)
    requires a <= b
    ensures |a| <= |b|
  {
    if a != {} {
      var x :| x in a;
      SubsetSize(a - {x}, b - {x});
    }
  }

  // ---- the ranking of a dry run ----

  function OpenBefore(entries: seq<Entry>, e: Entry): set<nat> {
    set x | x in entries && Open(x) && Less(x.price, x.id, e.price, e.id) :: x.id
  }

  function Ranked(entries: seq<Entry>, e: Entry, max: nat): Entry {
    if Open(e) && |OpenBefore(entries, e)| >= AtLeastOne(max) then Marked(e, true) else e
  }

  function Rankings(entries: seq<Entry>, max: nat): (r: seq<Entry>)
    ensures |r| == |entries| && forall i :: 0 <= i < |r| ==> r[i] == Ranked(entries, entries[i], max)
  {
    seq(|entries|, i requires 0 <= i < |entries| => Ranked(entries, entries[i], max))
  }

  function OpenOf(entries: seq<Entry>): (r: seq<Entry>)
    ensures forall e :: e in r <==> e in entries && Open(e)
  {
    if entries == [] then []
    else
      var front, last := entries[..|entries| - 1], entries[|entries| - 1];
      if Open(last) then OpenOf(front) + [last] else OpenOf(front)
  }

  lemma {:induction false} OpenDistinct(entries: seq<Entry>)
    requires DistinctIds(entries)
    ensures DistinctIds(OpenOf(entries))
  {
    if entries != [] {
      var front, last := entries[..|entries| - 1], entries[|entries| - 1];
      OpenDistinct(front);
      forall e | e in OpenOf(front) ensures e.id != last.id {
        var k :| 0 <= k < |front| && front[k] == e;
        assert entries[k] == e;
      }
    }
  }

  ghost predicate InRanks(entries: seq<Entry>, c: seq<Entry>) {
    Ordered(InLogOrder, c) && DistinctIds(c) && forall e :: e in c <==> e in entries && Open(e)
  }

  lemma OpenInOrder(entries: seq<Entry>)
    ensures DistinctIds(entries) ==> InRanks(entries, Sort(InLogOrder, OpenOf(entries)))
  {
    if DistinctIds(entries) {
      SortOrdered(InLogOrder, OpenOf(entries));
      SortMembers(InLogOrder, OpenOf(entries));
      SortMultiset(InLogOrder, OpenOf(entries));
      OpenDistinct(entries);
      DistinctPermuted(OpenOf(entries), Sort(InLogOrder, OpenOf(entries)));
    }
  }

  function EntryIds(s: seq<Entry>): set<nat> { set x | x in s :: x.id }

  lemma {:induction false} EntryIdsSize(s: seq<Entry>)
    requires DistinctIds(s)
    ensures |EntryIds(s)| == |s|
  {
    if s != [] {
      var front, last := s[..|s| - 1], s[|s| - 1];
      EntryIdsSize(front);
      assert EntryIds(s) == EntryIds(front) + {last.id};
    }
  }

  /** The position in the sorted rows is the rank. */
  lemma PositionIsRank(entries: seq<Entry>, c: seq<Entry>, i: nat)
    requires i < |c| && InRanks(entries, c)
    ensures |OpenBefore(entries, c[i])| == i
  {
    forall x | x in entries && Open(x) && Less(x.price, x.id, c[i].price, c[i].id) ensures x in c[..i] {
      assert x in c;
      var k :| 0 <= k < |c| && c[k] == x;
      assert k < i;
      assert c[..i][k] == x;
    }
    forall x | x in c[..i] ensures x in entries && Open(x) && Less(x.price, x.id, c[i].price, c[i].id) {
      var k :| 0 <= k < i && c[k] == x;
      assert InLogOrder(c[k], c[i]) && x in c;
    }
    assert OpenBefore(entries, c[i]) == EntryIds(c[..i]);
    EntryIdsSize(c[..i]);
  }

  /** applyDryRunMaxBuysRanking. */
  method ApplyDryRunMaxBuysRanking(entries: seq<Entry>, maxBuys: nat) returns (r: seq<Entry>)
    ensures DistinctIds(entries) ==> r == Sort(InLogFile, Rankings(entries, maxBuys))
  {
    hide InRanks, OpenBefore, Ordered;
    var max := AtLeastOne(maxBuys);
    var eligible := Sort(InLogOrder, OpenOf(entries));
    OpenInOrder(entries);
    var rank: map<nat, nat> := map[];
    for i := 0 to |eligible|
      invariant forall id :: id in rank <==> exists k :: 0 <= k < i && eligible[k].id == id
      invariant DistinctIds(entries) ==> forall k :: 0 <= k < i ==> rank[eligible[k].id] == k + 1
    {
      if DistinctIds(entries) { ApartIn(entries, eligible); }
      rank := rank[eligible[i].id := i + 1];
    }
    var marked := [];
    for i := 0 to |entries|
      invariant |marked| == i
      invariant DistinctIds(entries) ==> forall k :: 0 <= k < i ==> marked[k] == Ranked(entries, entries[k], maxBuys)
    {
      var e := entries[i];
      if DistinctIds(entries) && Open(e) { RankOf(entries, eligible, rank, e); }
      marked := marked + [if !Open(e) || (e.id in rank && rank[e.id] <= max) then e else Marked(e, true)];
    }
    assert DistinctIds(entries) ==> marked == Rankings(entries, maxBuys);
    r := Sort(InLogFile, marked);
  }

  lemma ApartIn(entries: seq<Entry>, c: seq<Entry>)
    requires InRanks(entries, c)
    ensures DistinctIds(c)
  {
  }

  lemma RankOf(entries: seq<Entry>, c: seq<Entry>, rank: map<nat, nat>, e: Entry)
    requires InRanks(entries, c) && e in entries && Open(e)
    requires forall k :: 0 <= k < |c| ==> c[k].id in rank && rank[c[k].id] == k + 1
    ensures e.id in rank && rank[e.id] == |OpenBefore(entries, e)| + 1
  {
    assert e in c;
    var k :| 0 <= k < |c| && c[k] == e;
    PositionIsRank(entries, c, k);
  }

  function Least(a: nat, b: nat): nat { if a < b then a else b }

  /** The classification lists the cheapest eligible rows up to its cap. */
  ghost predicate Classified(entries: seq<Entry>, walk: seq<Listing>, cap: nat) {
    DistinctIds(entries)
    && (forall j :: 0 <= j < Least(cap, |walk|) ==> OpenRow(walk[j]) in entries)
    && forall e :: e in entries && Open(e) ==> Listing(e.id, e.price) in walk[..Least(cap, |walk|)]
  }

  /** Without locks the loop buys the cheapest rows. */
  lemma {:induction false} UnlockedClaim(walk: seq<Listing>, max: nat)
    ensures Claim(walk, {}, max) == walk[..Least(max, |walk|)]
  {
    if walk != [] {
      UnlockedClaim(walk[..|walk| - 1], max);
    }
  }

  /** The dry run keeps a row exactly when it is among the first max; the others are
      past the limit. */
  lemma KeptExactly(entries: seq<Entry>, walk: seq<Listing>, cap: nat, max: nat, j: nat)
    requires Walk(walk) && Classified(entries, walk, cap) && max >= 1 && j < Least(cap, |walk|)
    ensures Ranked(entries, OpenRow(walk[j]), max) ==
            if j < max then OpenRow(walk[j]) else Entry(walk[j].id, walk[j].price, 5, PastMaxBuys)
  {
    hide OpenBefore, Ids;
    OpenBeforeRow(entries, walk, cap, j);
    IdsSize(walk[..j]);
  }

  /** The open rows before a listing are the listings before it. */
  lemma OpenBeforeRow(entries: seq<Entry>, walk: seq<Listing>, cap: nat, j: nat)
    requires Walk(walk) && Classified(entries, walk, cap) && j < Least(cap, |walk|)
    ensures OpenBefore(entries, OpenRow(walk[j])) == Ids(walk[..j])
  {
    var e := OpenRow(walk[j]);
    forall x | x in entries && Open(x) && Less(x.price, x.id, e.price, e.id) ensures x.id in Ids(walk[..j]) {
      RowBefore(entries, walk, cap, j, x);
    }
    forall l | l in walk[..j] ensures l.id in OpenBefore(entries, e) {
      var i :| 0 <= i < j && walk[..j][i] == l;
      assert InBoardOrder(walk[i], walk[j]) && OpenRow(walk[i]) in entries;
    }
  }

  lemma RowBefore(entries: seq<Entry>, walk: seq<Listing>, cap: nat, j: nat, x: Entry)
    requires Walk(walk) && Classified(entries, walk, cap) && j < Least(cap, |walk|)
    requires x in entries && Open(x) && Less(x.price, x.id, walk[j].price, walk[j].id)
    ensures x.id in Ids(walk[..j])
  {
    var n := Least(cap, |walk|);
    assert Listing(x.id, x.price) in walk[..n];
    var i :| 0 <= i < n && walk[..n][i] == Listing(x.id, x.price);
    assert i < j;
    assert walk[..j][i] == walk[i];
  }

  lemma {:induction false} IdsSize(s: seq<Listing>)
    requires DistinctListings(s)
    ensures |Ids(s)| == |s|
  {
    if s != [] {
      IdsSize(s[..|s| - 1]);
      assert Ids(s) == Ids(s[..|s| - 1]) + {s[|s| - 1].id};
    }
  }

  /** The rows a dry run keeps. */
  ghost predicate Kept(entries: seq<Entry>, max: nat, l: Listing) {
    OpenRow(l) in entries && Ranked(entries, OpenRow(l), max) == OpenRow(l)
  }

  /** With no locks the kept rows are the purchases exactly when the cap of the
      classification hides none of them. */
  lemma DryRunForetells(entries: seq<Entry>, walk: seq<Listing>, cap: nat, max: nat)
    requires Walk(walk) && Classified(entries, walk, cap) && max >= 1
    ensures (forall l :: Kept(entries, max, l) <==> l in Claim(walk, {}, max)) <==> |walk| <= cap || max <= cap
  {
    UnlockedClaim(walk, max);
    forall l ensures Kept(entries, max, l) <==> l in walk[..Least(Least(cap, |walk|), max)] {
      KeptAmong(entries, walk, cap, max, l);
    }
    if !(|walk| <= cap || max <= cap) {
      assert walk[..Least(max, |walk|)][cap] == walk[cap];
      assert walk[cap] in Claim(walk, {}, max);
      assert walk[cap] !in walk[..cap];
    }
  }

  const CLASSIFIED := 1000

  /** One listing more than the classification lists, and room for all of them:
      the last one is bought and no row foretells it. */
  lemma CapHidesPurchase()
    ensures var walk := Board(CLASSIFIED + 1); var rows := OpenRows(walk[..CLASSIFIED]);
            Walk(walk) && Classified(rows, walk, CLASSIFIED) &&
            walk[CLASSIFIED] in Claim(walk, {}, 5000) && !Kept(rows, 5000, walk[CLASSIFIED])
  {
    hide Claim;
    var walk := Board(CLASSIFIED + 1);
    var rows := OpenRows(walk[..CLASSIFIED]);
    forall e | e in rows ensures Listing(e.id, e.price) in walk[..CLASSIFIED] {
      var i :| 0 <= i < |rows| && rows[i] == e;
      assert walk[..CLASSIFIED][i] == Listing(e.id, e.price);
    }
    forall j | 0 <= j < CLASSIFIED ensures OpenRow(walk[j]) in rows {
      assert rows[j] == OpenRow(walk[j]);
    }
    UnlockedClaim(walk, 5000);
  }

  /** Listings of one price with ids from 0. */
  function Board(n: nat): (r: seq<Listing>)
    ensures |r| == n
  {
    seq(n, i requires 0 <= i < n => Listing(i, 10))
  }

  function OpenRows(walk: seq<Listing>): (r: seq<Entry>)
    ensures |r| == |walk|
  {
    seq(|walk|, i requires 0 <= i < |walk| => OpenRow(walk[i]))
  }

  lemma KeptAmong(entries: seq<Entry>, walk: seq<Listing>, cap: nat, max: nat, l: Listing)
    requires Walk(walk) && Classified(entries, walk, cap) && max >= 1
    ensures Kept(entries, max, l) <==> l in walk[..Least(Least(cap, |walk|), max)]
  {
    var n := Least(cap, |walk|);
    if OpenRow(l) in entries {
      assert Listing(l.id, l.price) in walk[..n];
      var j :| 0 <= j < n && walk[..n][j] == l;
      KeptExactly(entries, walk, cap, max, j);
      assert j < max ==> walk[..Least(n, max)][j] == l;
    }
    if l in walk[..Least(n, max)] {
      var j :| 0 <= j < Least(n, max) && walk[j] == l;
      KeptExactly(entries, walk, cap, max, j);
    }
  }
}
