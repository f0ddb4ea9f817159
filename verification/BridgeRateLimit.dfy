/** The sliding window of the add-on bridge: short queues that are pruned on every
    check decide as a count over the whole history would. Times are milliseconds. */
module BridgeRateLimit {
  const WINDOW_MS := 60_000
  const PER_KEY_MAX := 60
  const GLOBAL_MAX := 300

  /** A recorded request, and when the check that allowed it ran. */
  datatype Rec = Rec(key: string, checked: int, at: int)
  datatype Verdict = Allowed | Denied(retryAfterSeconds: int)

  // ---- the rule, over the whole history ----

  function AllTimes(h: seq<Rec>): (t: seq<int>)
    ensures |t| == |h| && forall i :: 0 <= i < |h| ==> t[i] == h[i].at
  {
    seq(|h|, i requires 0 <= i < |h| => h[i].at)
  }

  function KeyTimes(h: seq<Rec>, key: string): seq<int> {
    if h == [] then []
    else
      var last := h[|h| - 1];
      KeyTimes(h[..|h| - 1], key) + if last.key == key then [last.at] else []
  }

  /** The times after the window's start. */
  function Recent(times: seq<int>, now: int): (r: seq<int>)
    ensures forall i :: 0 <= i < |r| ==> r[i] > now - WINDOW_MS
  {
    if times == [] then []
    else
      var last := times[|times| - 1];
      Recent(times[..|times| - 1], now) + if last > now - WINDOW_MS then [last] else []
  }

  predicate KeyFull(h: seq<Rec>, key: string, now: int) { |Recent(KeyTimes(h, key), now)| >= PER_KEY_MAX }
  predicate AllFull(h: seq<Rec>, now: int) { |Recent(AllTimes(h), now)| >= GLOBAL_MAX }
  predicate Allows(h: seq<Rec>, key: string, now: int) { !KeyFull(h, key, now) && !AllFull(h, now) }

  ghost predicate Checked(before: seq<Rec>, r: Rec) {
    r.checked <= r.at && (before != [] ==> before[|before| - 1].at <= r.checked) && Allows(before, r.key, r.checked)
  }

  /** Every record follows its own allowed check, on a clock that never goes back. */
  ghost predicate Paced(h: seq<Rec>) {
    h != [] ==> Paced(h[..|h| - 1]) && Checked(h[..|h| - 1], h[|h| - 1])
  }

  ghost predicate Sorted(t: seq<int>) { forall i, j :: 0 <= i < j < |t| ==> t[i] <= t[j] }

  // ---- what the queues keep ----

  lemma {:induction false} RecentAppend(a: seq<int>, b: seq<int>, now: int)
    ensures Recent(a + b, now) == Recent(a, now) + Recent(b, now)
  {
    if b == [] {
      assert a + b == a;
    } else {
      RecentAppend(a, b[..|b| - 1], now);
      assert (a + b)[..|a + b| - 1] == a + b[..|b| - 1];
    }
  }

  /** Pruning early loses nothing that a later look would keep. */
  lemma {:induction false} RecentTwice(t: seq<int>, early: int, late: int)
    requires early <= late
    ensures Recent(Recent(t, early), late) == Recent(t, late)
  {
    if t != [] {
      var front, last := t[..|t| - 1], t[|t| - 1];
      RecentTwice(front, early, late);
      RecentAppend(Recent(front, early), if last > early - WINDOW_MS then [last] else [], late);
    }
  }

  lemma {:induction false} AllRecent(t: seq<int>, now: int)
    requires forall i :: 0 <= i < |t| ==> t[i] > now - WINDOW_MS
    ensures Recent(t, now) == t
  {
    if t != [] { AllRecent(t[..|t| - 1], now); }
  }

  /** Of a queue in order, the recent part is what is left once the head is recent. */
  lemma DropOld(q: seq<int>, now: int, n: nat)
    requires Sorted(q) && n <= |q|
    requires forall i :: 0 <= i < n ==> q[i] <= now - WINDOW_MS
    requires n < |q| ==> q[n] > now - WINDOW_MS
    ensures Recent(q, now) == q[n..]
  {
    hide Recent;
    assert q == q[..n] + q[n..];
    RecentAppend(q[..n], q[n..], now);
    assert forall i :: n <= i < |q| ==> q[n] <= q[i];
    NoneRecent(q[..n], now);
    AllRecent(q[n..], now);
  }

  lemma {:induction false} NoneRecent(t: seq<int>, now: int)
    requires forall i :: 0 <= i < |t| ==> t[i] <= now - WINDOW_MS
    ensures Recent(t, now) == []
  {
    if t != [] { NoneRecent(t[..|t| - 1], now); }
  }

  // ---- bounds on every window ----

  /** The times in the window that ends at t. */
  function Window(times: seq<int>, t: int): seq<int> {
    if times == [] then []
    else
      var last := times[|times| - 1];
      Window(times[..|times| - 1], t) + if t - WINDOW_MS < last <= t then [last] else []
  }

  ghost predicate Below(times: seq<int>, c: int) { forall i :: 0 <= i < |times| ==> times[i] <= c }

  /** A later window holds no more of the past than the look back at its end. */
  lemma {:induction false} WindowWithin(times: seq<int>, c: int, t: int)
    requires c <= t && Below(times, c)
    ensures |Window(times, t)| <= |Recent(times, c)|
  {
    if times != [] { WindowWithin(times[..|times| - 1], c, t); }
  }

  lemma {:induction false} KeyTimesBelow(h: seq<Rec>, key: string, c: int)
    requires forall i :: 0 <= i < |h| ==> h[i].at <= c
    ensures Below(KeyTimes(h, key), c)
  {
    if h != [] { KeyTimesBelow(h[..|h| - 1], key, c); }
  }

  lemma {:induction false} PacedOrder(h: seq<Rec>, i: nat)
    requires Paced(h) && i < |h|
    ensures h[i].at <= h[|h| - 1].at
  {
    if i < |h| - 1 {
      hide Allows;
      PacedOrder(h[..|h| - 1], i);
    }
  }

  /** The last record was checked after all others. */
  lemma PacedBelow(h: seq<Rec>, key: string)
    requires Paced(h) && h != []
    ensures Below(AllTimes(h[..|h| - 1]), h[|h| - 1].checked) && Below(KeyTimes(h[..|h| - 1], key), h[|h| - 1].checked)
  {
    hide Allows;
    var front := h[..|h| - 1];
    forall i | 0 <= i < |front| ensures front[i].at <= h[|h| - 1].checked { PacedOrder(front, i); }
    KeyTimesBelow(front, key, h[|h| - 1].checked);
  }

  /** No window of the given length ever holds more than the limits. */
  lemma {:induction false} WindowBounds(h: seq<Rec>, key: string, t: int)
    requires Paced(h)
    ensures |Window(KeyTimes(h, key), t)| <= PER_KEY_MAX && |Window(AllTimes(h), t)| <= GLOBAL_MAX
  {
    if h != [] {
      var front, last := h[..|h| - 1], h[|h| - 1];
      WindowBounds(front, key, t);
      PacedBelow(h, key);
      assert AllTimes(h) == AllTimes(front) + [last.at];
      WindowAppend(AllTimes(front), last.at, t);
      WindowAppend(KeyTimes(front, key), last.at, t);
      assert last.key != key ==> KeyTimes(h, key) == KeyTimes(front, key);
      if last.at <= t {
        WindowWithin(KeyTimes(front, key), last.checked, t);
        WindowWithin(AllTimes(front), last.checked, t);
      }
    }
  }

  lemma WindowAppend(times: seq<int>, x: int, t: int)
    ensures Window(times + [x], t) == Window(times, t) + if t - WINDOW_MS < x <= t then [x] else []
  {
    assert (times + [x])[..|times|] == times;
  }

  // ---- how long to wait ----

  function WaitSeconds(now: int, oldest: int): int {
    var seconds := (WINDOW_MS - (now - oldest) + 999) / 1000;
    if seconds < 1 then 1 else seconds
  }

  /** What a check says, from the whole history. */
  function CheckOver(h: seq<Rec>, key: string, now: int): Verdict {
    if KeyFull(h, key, now) then Denied(WaitSeconds(now, Recent(KeyTimes(h, key), now)[0]))
    else if AllFull(h, now) then Denied(WaitSeconds(now, Recent(AllTimes(h), now)[0]))
    else Allowed
  }

  lemma {:induction false} WindowIsRecent(times: seq<int>, now: int)
    requires Below(times, now)
    ensures Window(times, now) == Recent(times, now)
  {
    if times != [] { WindowIsRecent(times[..|times| - 1], now); }
  }

  /** After the wait the oldest recent time is out. */
  lemma WaitFrees(times: seq<int>, now: int)
    requires Below(times, now) && Recent(times, now) != []
    ensures var wait := WaitSeconds(now, Recent(times, now)[0]);
      1 <= wait <= 60 && |Recent(times, now + 1000 * wait)| < |Recent(times, now)|
  {
    hide Recent;
    var q := Recent(times, now);
    RecentBelow(times, now, now);
    var later := now + 1000 * WaitSeconds(now, q[0]);
    RecentTwice(times, now, later);
    assert q == [q[0]] + q[1..];
    RecentAppend([q[0]], q[1..], later);
    NoneRecent([q[0]], later);
    RecentShorter(q[1..], later);
  }

  lemma {:induction false} RecentBelow(times: seq<int>, now: int, c: int)
    requires Below(times, c)
    ensures Below(Recent(times, now), c)
  {
    if times != [] { RecentBelow(times[..|times| - 1], now, c); }
  }

  lemma {:induction false} RecentShorter(times: seq<int>, now: int)
    ensures |Recent(times, now)| <= |times|
  {
    if times != [] { RecentShorter(times[..|times| - 1], now); }
  }

  /** A denied caller that waits as told, with nothing recorded meanwhile, finds the
      window that refused it below its limit. */
  lemma RetryIsEnough(h: seq<Rec>, key: string, now: int)
    requires Paced(h) && (h != [] ==> h[|h| - 1].at <= now) && CheckOver(h, key, now).Denied?
    ensures var wait := CheckOver(h, key, now).retryAfterSeconds;
      1 <= wait <= 60
      && if KeyFull(h, key, now) then !KeyFull(h, key, now + 1000 * wait) else !AllFull(h, now + 1000 * wait)
  {
    hide Paced, Recent, KeyTimes, Window, WaitSeconds;
    forall i | 0 <= i < |h| ensures h[i].at <= now { PacedOrder(h, i); }
    KeyTimesBelow(h, key, now);
    WindowBounds(h, key, now);
    if KeyFull(h, key, now) {
      WindowIsRecent(KeyTimes(h, key), now);
      WaitFrees(KeyTimes(h, key), now);
    } else {
      WindowIsRecent(AllTimes(h), now);
      WaitFrees(AllTimes(h), now);
    }
  }

  /** Waiting a second less is not enough: the window that refused is still full. */
  lemma RetryIsNeeded(h: seq<Rec>, key: string, now: int)
    requires Paced(h) && (h != [] ==> h[|h| - 1].at <= now) && CheckOver(h, key, now).Denied?
    requires CheckOver(h, key, now).retryAfterSeconds > 1
    ensures var early := now + 1000 * (CheckOver(h, key, now).retryAfterSeconds - 1);
      if KeyFull(h, key, now) then KeyFull(h, key, early) else AllFull(h, early)
  {
    hide Paced, Recent, KeyTimes, AllTimes, WaitSeconds;
    PacedSorted(h, key);
    if KeyFull(h, key, now) {
      WaitHolds(KeyTimes(h, key), now);
    } else {
      WaitHolds(AllTimes(h), now);
    }
  }

  lemma WaitHolds(times: seq<int>, now: int)
    requires Sorted(times) && Recent(times, now) != [] && WaitSeconds(now, Recent(times, now)[0]) > 1
    ensures Recent(times, now + 1000 * (WaitSeconds(now, Recent(times, now)[0]) - 1)) == Recent(times, now)
  {
    hide Recent;
    var q := Recent(times, now);
    var early := now + 1000 * (WaitSeconds(now, q[0]) - 1);
    RecentTwice(times, now, early);
    RecentSorted(times, now);
    assert q[0] > early - WINDOW_MS;
    AllRecent(q, early);
  }

  lemma {:induction false} PacedSorted(h: seq<Rec>, key: string)
    requires Paced(h)
    ensures Sorted(AllTimes(h)) && Sorted(KeyTimes(h, key))
  {
    hide Allows;
    if h != [] {
      var front, last := h[..|h| - 1], h[|h| - 1];
      PacedSorted(front, key);
      PacedBelow(h, key);
      assert AllTimes(h) == AllTimes(front) + [last.at];
    }
  }

  // ---- the rule in numbers ----

  /** The records within the last minute, and those of a key. */
  function Latest(h: seq<Rec>, now: int): set<int> { set i | 0 <= i < |h| && h[i].at > now - 60_000 }

  function LatestOf(h: seq<Rec>, key: string, now: int): set<int> {
    set i | 0 <= i < |h| && h[i].at > now - 60_000 && h[i].key == key
  }

  lemma LatestMore(h: seq<Rec>, r: Rec, key: string, now: int)
    ensures Latest(h + [r], now) == Latest(h, now) + if r.at > now - 60_000 then {|h|} else {}
    ensures LatestOf(h + [r], key, now) == LatestOf(h, key, now) +
              if r.at > now - 60_000 && r.key == key then {|h|} else {}
    ensures |h| !in Latest(h, now) && |h| !in LatestOf(h, key, now)
  {
  }

  lemma RecentOne(x: int, now: int)
    ensures Recent([x], now) == (if x > now - 60_000 then [x] else []) && Recent([], now) == []
  {
    assert [x][..0] == [];
  }

  lemma {:induction false} RecentCounts(h: seq<Rec>, key: string, now: int)
    ensures |Recent(AllTimes(h), now)| == |Latest(h, now)|
    ensures |Recent(KeyTimes(h, key), now)| == |LatestOf(h, key, now)|
  {
    hide Recent, Latest, LatestOf, KeyTimes, AllTimes;
    if h == [] {
      NoRecords(key, now);
    } else {
      var front, last := h[..|h| - 1], h[|h| - 1];
      assert h == front + [last];
      RecentCounts(front, key, now);
      TimesMore(front, last);
      RecentAppend(AllTimes(front), [last.at], now);
      RecentAppend(KeyTimes(front, key), [last.at], now);
      RecentOne(last.at, now);
      LatestMore(front, last, key, now);
    }
  }

  lemma NoRecords(key: string, now: int)
    ensures Recent(AllTimes([]), now) == Recent(KeyTimes([], key), now) == []
    ensures Latest([], now) == LatestOf([], key, now) == {}
  {
  }

  /** A request passes exactly when fewer than 60 of its key and fewer than 300 in all
      were recorded within the last minute. */
  lemma AllowedExactly(h: seq<Rec>, key: string, now: int)
    ensures CheckOver(h, key, now) == Allowed <==>
            |set i | 0 <= i < |h| && h[i].at > now - 60_000 && h[i].key == key| < 60 &&
            |set i | 0 <= i < |h| && h[i].at > now - 60_000| < 300
  {
    hide Recent, KeyTimes, AllTimes, WaitSeconds;
    RecentCounts(h, key, now);
  }

  // ---- the limiter with its queues ----

  /** A queue pruned at some point before now stands for all the times. */
  ghost predicate StandsFor(q: seq<int>, times: seq<int>, now: int) {
    Sorted(q) && Below(q, now) && Recent(q, now) == Recent(times, now)
  }

  lemma StandsLater(q: seq<int>, times: seq<int>, now: int, later: int)
    requires StandsFor(q, times, now) && now <= later
    ensures StandsFor(q, times, later)
  {
    RecentTwice(q, now, later);
    RecentTwice(times, now, later);
  }

  lemma StandsMore(q: seq<int>, times: seq<int>, now: int, later: int)
    requires StandsFor(q, times, now) && now <= later
    ensures StandsFor(q + [later], times + [later], later)
  {
    hide Recent;
    StandsLater(q, times, now, later);
    RecentAppend(q, [later], later);
    RecentAppend(times, [later], later);
  }

  lemma PacedMore(h: seq<Rec>, r: Rec)
    requires Paced(h) && Checked(h, r)
    ensures Paced(h + [r])
  {
    hide Allows;
    assert (h + [r])[..|h|] == h;
  }

  lemma TimesMore(h: seq<Rec>, r: Rec)
    ensures AllTimes(h + [r]) == AllTimes(h) + [r.at]
    ensures forall key :: KeyTimes(h + [r], key) == if key == r.key then KeyTimes(h, key) + [r.at] else KeyTimes(h, key)
  {
    assert (h + [r])[..|h|] == h;
    forall key | key != r.key ensures KeyTimes(h, key) + [] == KeyTimes(h, key) {
    }
  }

  class Limiter {
    var requests: map<string, seq<int>>
    var globalRequests: seq<int>
    ghost var history: seq<Rec>
    ghost var clock: int

    function Queue(key: string): seq<int>
      reads this
    {
      if key in requests then requests[key] else []
    }

    ghost predicate Valid()
      reads this
    {
      Paced(history) && (history != [] ==> history[|history| - 1].at <= clock)
      && StandsFor(globalRequests, AllTimes(history), clock)
      && forall key :: StandsFor(Queue(key), KeyTimes(history, key), clock)
    }

    constructor ()
      ensures Valid() && history == [] && clock == 0
    {
      requests, globalRequests, history, clock := map[], [], [], 0;
    }

    /** Shifts old times off the front of a queue. */
    static method Pruned(times: seq<int>, now: int) returns (q: seq<int>)
      requires Sorted(times)
      ensures q == Recent(times, now)
    {
      q := times;
      ghost var n := 0;
      while q != [] && q[0] <= now - WINDOW_MS
        invariant n <= |times| && q == times[n..]
        invariant forall i :: 0 <= i < n ==> times[i] <= now - WINDOW_MS
      {
        q := q[1..];
        n := n + 1;
      }
      DropOld(times, now, n);
    }

    method Check(key: string, now: int) returns (verdict: Verdict)
      requires Valid() && now >= clock
      modifies this
      ensures Valid() && history == old(history) && clock == now
      ensures verdict == CheckOver(history, key, now)
    {
      hide StandsFor, Recent, KeyTimes, AllTimes, Sorted, Paced;
      ghost var before := clock;
      StandsLater(globalRequests, AllTimes(history), before, now);
      forall k ensures StandsFor(Queue(k), KeyTimes(history, k), now) {
        StandsLater(Queue(k), KeyTimes(history, k), before, now);
      }
      clock := now;
      PrunedStands(globalRequests, AllTimes(history), now);
      globalRequests := Pruned(globalRequests, now);
      PrunedStands(Queue(key), KeyTimes(history, key), now);
      if key in requests {
        var left := Pruned(requests[key], now);
        requests := if left == [] then requests - {key} else requests[key := left];
      }
      NoneRecent([], now);
      var entries := Queue(key);
      if |entries| >= PER_KEY_MAX || |globalRequests| >= GLOBAL_MAX {
        var oldest := if |entries| >= PER_KEY_MAX then entries[0] else globalRequests[0];
        verdict := Denied(WaitSeconds(now, oldest));
      } else {
        verdict := Allowed;
      }
    }

    /** A request that its own check at the given time allowed is recorded. */
    method Record(key: string, now: int, ghost checked: int)
      requires Valid() && clock <= now
      requires Checked(history, Rec(key, checked, now))
      modifies this
      ensures Valid() && history == old(history) + [Rec(key, checked, now)] && clock == now
    {
      hide StandsFor, Recent, Paced, Checked, KeyTimes, AllTimes;
      ghost var before, past, r := clock, history, Rec(key, checked, now);
      history, clock := history + [r], now;
      PacedMore(past, r);
      TimesMore(past, r);
      StandsMore(globalRequests, AllTimes(past), before, now);
      forall k ensures StandsFor(if k == key then Queue(k) + [now] else Queue(k), KeyTimes(history, k), now) {
        StandsLater(Queue(k), KeyTimes(past, k), before, now);
        StandsMore(Queue(k), KeyTimes(past, k), before, now);
      }
      requests := if key in requests then requests[key := requests[key] + [now]] else requests[key := [now]];
      globalRequests := globalRequests + [now];
      assert Queue(key) == old(Queue(key)) + [now];
      assert forall k :: k != key ==> Queue(k) == old(Queue(k));
    }
  }

  /** Pruned, the queue is exactly the recent part. */
  lemma PrunedStands(q: seq<int>, times: seq<int>, now: int)
    requires StandsFor(q, times, now)
    ensures Sorted(q) && StandsFor(Recent(q, now), times, now) && Recent(q, now) == Recent(times, now)
  {
    RecentTwice(q, now, now);
    RecentBelow(q, now, now);
    RecentSorted(q, now);
  }

  lemma {:induction false} RecentSorted(q: seq<int>, now: int)
    requires Sorted(q)
    ensures Sorted(Recent(q, now))
  {
    if q != [] {
      var front, last := q[..|q| - 1], q[|q| - 1];
      RecentSorted(front, now);
      RecentBelow(front, now, last);
    }
  }
}
