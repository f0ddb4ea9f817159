/** The limiter of the TLS front: an address is blocked after max rejected keys
    within the window, in a map that forgets stale addresses once it is large. */
module FailLimiter {
  import opened Wrappers

  /** The limiter counts remote addresses only. */
  datatype Address = Absent | Loopback | Remote(ip: string)
  datatype Config = Config(max: int, window: int, block: int)
  /** until is None while it is the zero time, which is before every other. */
  datatype Entry = Entry(first: int, until: Option<int>, n: int)
  datatype Event = Fail(addr: Address, now: int) | Ask(addr: Address, now: int)

  const EVICT_ABOVE := 10_000

  type Ips = map<string, Entry>

  predicate Stale(c: Config, e: Entry, now: int) {
    now - e.first > c.window && (e.until.Some? ==> now > e.until.value)
  }

  function Evicted(c: Config, ips: Ips, now: int): Ips {
    if |ips| > EVICT_ABOVE then map ip | ip in ips && !Stale(c, ips[ip], now) :: ips[ip] else ips
  }

  /** The entry a fail counts in: a new one when there is none or its window is over. */
  function Counted(c: Config, ips: Ips, ip: string, now: int): Entry {
    if ip in ips && now - ips[ip].first <= c.window then ips[ip] else Entry(now, None, 0)
  }

  function AfterFail(c: Config, e: Entry, now: int): Entry {
    if e.n + 1 >= c.max then Entry(now, Some(now + c.block), 0) else e.(n := e.n + 1)
  }

  predicate Blocked(ips: Ips, addr: Address, now: int) {
    addr.Remote? && addr.ip in ips && ips[addr.ip].until.Some? && now < ips[addr.ip].until.value
  }

  predicate Trips(c: Config, ips: Ips, addr: Address, now: int) {
    addr.Remote? && Counted(c, ips, addr.ip, now).n + 1 >= c.max
  }

  /** What an event answers, and what it leaves; evicting or keeping everything. */
  function Answer(c: Config, ips: Ips, e: Event, evict: bool): bool {
    match e
    case Ask(addr, now) => Blocked(ips, addr, now)
    case Fail(addr, now) => Trips(c, if evict then Evicted(c, ips, now) else ips, addr, now)
  }

  function Next(c: Config, ips: Ips, e: Event, evict: bool): Ips {
    if e.Fail? && e.addr.Remote? then
      var kept := if evict then Evicted(c, ips, e.now) else ips;
      kept[e.addr.ip := AfterFail(c, Counted(c, kept, e.addr.ip, e.now), e.now)]
    else ips
  }

  function Run(c: Config, events: seq<Event>, evict: bool): Ips {
    if events == [] then map[] else Next(c, Run(c, events[..|events| - 1], evict), events[|events| - 1], evict)
  }

  function Answers(c: Config, events: seq<Event>, evict: bool): (r: seq<bool>)
    ensures |r| == |events|
  {
    if events == [] then []
    else
      var front, last := events[..|events| - 1], events[|events| - 1];
      Answers(c, front, evict) + [Answer(c, Run(c, front, evict), last, evict)]
  }

  ghost predicate InTime(events: seq<Event>) { forall i, j :: 0 <= i < j < |events| ==> events[i].now <= events[j].now }

  // ---- eviction never shows ----

  /** The small map holds what the full one holds, but for stale entries. */
  ghost predicate Alike(c: Config, small: Ips, full: Ips, now: int) {
    (forall ip :: ip in small ==> ip in full && small[ip] == full[ip])
    && forall ip :: ip in full && ip !in small ==> Stale(c, full[ip], now)
  }

  lemma AlikeNext(c: Config, small: Ips, full: Ips, e: Event)
    requires Alike(c, small, full, e.now)
    ensures Answer(c, small, e, true) == Answer(c, full, e, false)
    ensures Alike(c, Next(c, small, e, true), Next(c, full, e, false), e.now)
  {
    var kept := Evicted(c, small, e.now);
    assert Alike(c, kept, full, e.now);
    if e.Fail? && e.addr.Remote? {
      assert Counted(c, kept, e.addr.ip, e.now) == Counted(c, full, e.addr.ip, e.now);
    }
  }

  lemma {:induction false} AlikeRun(c: Config, events: seq<Event>, now: int)
    requires InTime(events) && forall i :: 0 <= i < |events| ==> events[i].now <= now
    ensures Alike(c, Run(c, events, true), Run(c, events, false), now)
  {
    if events != [] {
      var front, last := events[..|events| - 1], events[|events| - 1];
      AlikeRun(c, front, last.now);
      AlikeNext(c, Run(c, front, true), Run(c, front, false), last);
    }
  }

  /** However many addresses come, every answer is that of a limiter that keeps
      them all. */
  lemma {:induction false} EvictionNeverShows(c: Config, events: seq<Event>)
    requires InTime(events)
    ensures Answers(c, events, true) == Answers(c, events, false)
  {
    if events != [] {
      var front, last := events[..|events| - 1], events[|events| - 1];
      EvictionNeverShows(c, front);
      AlikeRun(c, front, last.now);
      AlikeNext(c, Run(c, front, true), Run(c, front, false), last);
    }
  }

  // ---- how many fails pass ----

  predicate FailOf(e: Event, ip: string) { e.Fail? && e.addr == Remote(ip) }

  function Fails(events: seq<Event>, ip: string): nat {
    if events == [] then 0
    else Fails(events[..|events| - 1], ip) + if FailOf(events[|events| - 1], ip) then 1 else 0
  }

  /** Answers depend on what came before: the events from i on, after the first i. */
  ghost predicate NeverTrips(c: Config, events: seq<Event>, i: nat, ip: string) {
    forall k :: i <= k < |events| && FailOf(events[k], ip) ==> !Answer(c, Run(c, events[..k], false), events[k], false)
  }

  lemma {:induction false} CountBelowMax(c: Config, events: seq<Event>, ip: string)
    requires c.max >= 1
    ensures var ips := Run(c, events, false); ip in ips ==> 0 <= ips[ip].n < c.max
  {
    if events != [] { CountBelowMax(c, events[..|events| - 1], ip); }
  }

  /** In one window an entry is renewed at most once, and each of its two lives
      counts below max. */
  lemma {:induction false} CountedInWindow(c: Config, events: seq<Event>, i: nat, ip: string)
    requires c.max >= 1 && i <= |events| && InTime(events) && NeverTrips(c, events, i, ip)
    requires i < |events| ==> events[|events| - 1].now - events[i].now <= c.window
    ensures var ips, count := Run(c, events, false), Fails(events[i..], ip);
      count == 0 || (ip in ips && (count <= ips[ip].n
        || (i < |events| && ips[ip].first >= events[i].now && count <= c.max - 1 + ips[ip].n)))
  {
    if i < |events| {
      var front, last := events[..|events| - 1], events[|events| - 1];
      assert events[i..][..|events| - i - 1] == front[i..];
      forall k | i <= k < |front| && FailOf(front[k], ip)
        ensures !Answer(c, Run(c, front[..k], false), front[k], false)
      {
        assert front[..k] == events[..k];
      }
      CountedInWindow(c, front, i, ip);
      CountBelowMax(c, front, ip);
      assert events[..|events| - 1] == front;
    } else {
      assert events[i..] == [];
    }
  }

  /** Any stretch no longer than the window in which an address is never refused
      holds at most 2 * (max - 1) of its fails. */
  lemma FailsInWindow(c: Config, events: seq<Event>, i: nat, j: nat, ip: string)
    requires c.max >= 1 && i <= j <= |events| && InTime(events)
    requires i < j ==> events[j - 1].now - events[i].now <= c.window
    requires forall k :: i <= k < j && FailOf(events[k], ip) ==> !Answers(c, events, true)[k]
    ensures Fails(events[i..j], ip) <= 2 * (c.max - 1)
  {
    EvictionNeverShows(c, events);
    forall k | i <= k < j && FailOf(events[..j][k], ip)
      ensures !Answer(c, Run(c, events[..j][..k], false), events[..j][k], false)
    {
      AnswersAt(c, events, k);
      assert events[..j][..k] == events[..k];
    }
    CountedInWindow(c, events[..j], i, ip);
    CountBelowMax(c, events[..j], ip);
    assert events[..j][i..] == events[i..j];
  }

  lemma {:induction false} AnswersAt(c: Config, events: seq<Event>, k: nat)
    requires k < |events|
    ensures Answers(c, events, false)[k] == Answer(c, Run(c, events[..k], false), events[k], false)
  {
    var front := events[..|events| - 1];
    if k < |front| {
      AnswersAt(c, front, k);
      assert front[..k] == events[..k];
    } else {
      assert front == events[..k];
    }
  }

  // ---- how long a block lasts ----

  /** The last fail of the address so far that was answered by a block. */
  function LastTrip(c: Config, events: seq<Event>, ip: string): (r: Option<nat>)
    ensures r.Some? ==> r.value < |events| && FailOf(events[r.value], ip)
  {
    if events == [] then None
    else
      var front, last := events[..|events| - 1], events[|events| - 1];
      if FailOf(last, ip) && Answer(c, Run(c, front, false), last, false) then Some(|front|)
      else LastTrip(c, front, ip)
  }

  /** No fail behind event i comes more than a window after it. */
  ghost predicate FailsSoon(c: Config, events: seq<Event>, i: nat, ip: string)
    requires i < |events|
  {
    forall k :: i < k < |events| && FailOf(events[k], ip) ==> events[k].now - events[i].now <= c.window
  }

  /** What the limiter holds of an address, told by the last block: its time, unless
      a fail came more than a window behind it. */
  lemma {:induction false} HoldsLastTrip(c: Config, events: seq<Event>, ip: string)
    requires InTime(events)
    ensures var ips, trip := Run(c, events, false), LastTrip(c, events, ip);
      if trip.None? then ip in ips ==> ips[ip].until.None?
      else ip in ips && if FailsSoon(c, events, trip.value, ip)
        then ips[ip].first == events[trip.value].now && ips[ip].until == Some(events[trip.value].now + c.block)
        else ips[ip].until.None?
  {
    if events != [] {
      var front, last := events[..|events| - 1], events[|events| - 1];
      HoldsLastTrip(c, front, ip);
      var trip := LastTrip(c, front, ip);
      if LastTrip(c, events, ip) == trip && trip.Some? {
        SoonMore(c, front, last, trip.value, ip);
        assert events == front + [last];
      }
    }
  }

  lemma SoonMore(c: Config, front: seq<Event>, last: Event, i: nat, ip: string)
    requires i < |front|
    ensures FailsSoon(c, front + [last], i, ip) <==>
            FailsSoon(c, front, i, ip) && (FailOf(last, ip) ==> last.now - front[i].now <= c.window)
  {
    var events := front + [last];
    assert events[|front|] == last && forall k :: 0 <= k < |front| ==> events[k] == front[k];
  }

  /** The answers show which fail was the last to block. */
  lemma {:induction false} LastTripAnswered(c: Config, events: seq<Event>, ip: string, i: nat)
    requires i < |events| && FailOf(events[i], ip) && Answers(c, events, false)[i]
    requires forall k :: i < k < |events| && FailOf(events[k], ip) ==> !Answers(c, events, false)[k]
    ensures LastTrip(c, events, ip) == Some(i)
  {
    var front := events[..|events| - 1];
    if i < |front| {
      assert forall k :: 0 <= k < |front| ==>
        front[k] == events[k] && Answers(c, front, false)[k] == Answers(c, events, false)[k];
      LastTripAnswered(c, front, ip, i);
    }
  }

  lemma {:induction false} NoTripAnswered(c: Config, events: seq<Event>, ip: string)
    requires forall k :: 0 <= k < |events| && FailOf(events[k], ip) ==> !Answers(c, events, false)[k]
    ensures LastTrip(c, events, ip).None?
  {
    if events != [] {
      var front := events[..|events| - 1];
      assert forall k :: 0 <= k < |front| ==>
        front[k] == events[k] && Answers(c, front, false)[k] == Answers(c, events, false)[k];
      NoTripAnswered(c, front, ip);
    }
  }

  lemma {:induction false} AnswersFront(c: Config, events: seq<Event>, n: nat, evict: bool)
    requires n <= |events|
    ensures Answers(c, events[..n], evict) == Answers(c, events, evict)[..n]
  {
    if n < |events| {
      var front := events[..|events| - 1];
      AnswersFront(c, front, n, evict);
      assert front[..n] == events[..n];
    } else {
      assert events[..n] == events;
    }
  }

  /** An address is told to be blocked exactly while less than the block time has
      passed since the last fail that was answered by a block, and none of its
      fails came more than a window behind that one. */
  lemma BlockLasts(c: Config, events: seq<Event>, i: nat, j: nat, ip: string)
    requires InTime(events) && i < j < |events| && events[j].Ask? && events[j].addr == Remote(ip)
    requires FailOf(events[i], ip) && Answers(c, events, true)[i]
    requires forall k :: i < k < j && FailOf(events[k], ip) ==> !Answers(c, events, true)[k]
    ensures Answers(c, events, true)[j] <==>
            events[j].now < events[i].now + c.block &&
            forall k :: i < k < j && FailOf(events[k], ip) ==> events[k].now - events[i].now <= c.window
  {
    hide Run, Answers;
    var past := events[..j];
    EvictionNeverShows(c, events);
    AnswersFront(c, events, j, false);
    LastTripAnswered(c, past, ip, i);
    HoldsLastTrip(c, past, ip);
    AnswersAt(c, events, j);
    assert FailsSoon(c, past, i, ip) <==>
      forall k :: i < k < j && FailOf(events[k], ip) ==> events[k].now - events[i].now <= c.window;
  }

  /** With no fail in between the block ends when its time is over. */
  lemma BlockEnds(c: Config, events: seq<Event>, i: nat, j: nat, ip: string)
    requires InTime(events) && i < j < |events| && events[j].Ask? && events[j].addr == Remote(ip)
    requires FailOf(events[i], ip) && Answers(c, events, true)[i]
    requires forall k :: i < k < j ==> !FailOf(events[k], ip)
    ensures Answers(c, events, true)[j] <==> events[j].now < events[i].now + c.block
  {
    hide Answers;
    BlockLasts(c, events, i, j, ip);
  }

  /** An address none of whose fails was answered by a block is never blocked, nor
      is any that is not counted. */
  lemma NeverBlocked(c: Config, events: seq<Event>, j: nat)
    requires InTime(events) && j < |events| && events[j].Ask?
    requires forall k :: 0 <= k < j && events[k].Fail? && events[k].addr == events[j].addr ==>
               !Answers(c, events, true)[k]
    ensures !Answers(c, events, true)[j]
  {
    hide Run, Answers;
    EvictionNeverShows(c, events);
    AnswersAt(c, events, j);
    if events[j].addr.Remote? {
      var past, ip := events[..j], events[j].addr.ip;
      AnswersFront(c, events, j, false);
      NoTripAnswered(c, past, ip);
      HoldsLastTrip(c, past, ip);
    }
  }

  /** A fail while the address is blocked keeps it blocked exactly when it falls
      into the window that began with the block, or blocks it anew. */
  lemma BlockSurvivesFail(c: Config, ips: Ips, ip: string, now: int)
    requires Blocked(ips, Remote(ip), now) && c.block > 0
    ensures Blocked(Next(c, ips, Fail(Remote(ip), now), false), Remote(ip), now)
      <==> now - ips[ip].first <= c.window || c.max <= 1
  {
  }

  /** Fails of one address at one time. */
  function Burst(ip: string, now: int, n: nat): (r: seq<Event>)
    ensures |r| == n && forall i :: 0 <= i < n ==> r[i] == Fail(Remote(ip), now)
  {
    seq(n, i => Fail(Remote(ip), now))
  }

  lemma BurstMore(before: seq<Event>, ip: string, now: int, n: nat)
    requires n > 0
    ensures before + Burst(ip, now, n) == before + Burst(ip, now, n - 1) + [Fail(Remote(ip), now)]
  {
    assert Burst(ip, now, n) == Burst(ip, now, n - 1) + [Fail(Remote(ip), now)];
  }

  /** A burst below max passes and counts in one entry. */
  lemma {:induction false} BurstPasses(c: Config, before: seq<Event>, ip: string, now: int, n: nat)
    requires c.window >= 0 && Counted(c, Run(c, before, false), ip, now).n + n < c.max
    ensures var events := before + Burst(ip, now, n);
            var e := Counted(c, Run(c, before, false), ip, now);
            Counted(c, Run(c, events, false), ip, now) == e.(n := e.n + n) &&
            forall k :: |before| <= k < |events| ==> !Answers(c, events, false)[k]
  {
    if n == 0 {
      assert before + Burst(ip, now, 0) == before;
    } else {
      BurstPasses(c, before, ip, now, n - 1);
      BurstMore(before, ip, now, n);
      More(c, before + Burst(ip, now, n - 1), Fail(Remote(ip), now));
    }
  }

  lemma {:induction false} BurstFails(before: seq<Event>, ip: string, now: int, n: nat)
    ensures Fails(before + Burst(ip, now, n), ip) == Fails(before, ip) + n
  {
    if n == 0 {
      assert before + Burst(ip, now, 0) == before;
    } else {
      BurstFails(before, ip, now, n - 1);
      BurstMore(before, ip, now, n);
      var events := before + Burst(ip, now, n);
      assert events[..|events| - 1] == before + Burst(ip, now, n - 1);
    }
  }

  /** max fails block, max - 1 more end the window that the block began, and max - 1
      open another. */
  function Schedule(c: Config, ip: string): seq<Event>
    requires c.max >= 1
  {
    Burst(ip, 0, c.max) + Burst(ip, c.window, c.max - 1) + Burst(ip, c.window + 1, c.max - 1)
  }

  /** The bound is reached, whatever the limit and the window. */
  lemma BoundIsReached(c: Config, ip: string)
    requires c.max >= 1 && c.window >= 1
    ensures var events := Schedule(c, ip);
            InTime(events) &&
            (forall k :: c.max <= k < |events| ==> !Answers(c, events, true)[k]) &&
            (c.max < |events| ==> events[|events| - 1].now - events[c.max].now <= c.window) &&
            Fails(events[c.max..], ip) == 2 * (c.max - 1)
  {
    hide Run, Answers, Answer, Fails;
    var first, second, third := Burst(ip, 0, c.max), Burst(ip, c.window, c.max - 1), Burst(ip, c.window + 1, c.max - 1);
    var two, events := first + second, Schedule(c, ip);
    FirstBlocks(c, ip);
    BurstPasses(c, first, ip, c.window, c.max - 1);
    assert Counted(c, Run(c, two, false), ip, c.window).first == 0;
    BurstPasses(c, two, ip, c.window + 1, c.max - 1);
    forall k | c.max <= k < |two| ensures !Answers(c, events, false)[k] {
      AnswersAt(c, two, k);
      AnswersAt(c, events, k);
      assert events[..k] == two[..k];
    }
    assert InTime(events);
    EvictionNeverShows(c, events);
    assert events[c.max..] == second + third;
    NoFails(ip);
    BurstFails([], ip, c.window, c.max - 1);
    assert [] + second == second;
    BurstFails(second, ip, c.window + 1, c.max - 1);
  }

  lemma NoFails(ip: string)
    ensures Fails([], ip) == 0
  {
  }

  /** The first burst ends in a block. */
  lemma FirstBlocks(c: Config, ip: string)
    requires c.max >= 1 && c.window >= 1
    ensures var ips := Run(c, Burst(ip, 0, c.max), false);
            ip in ips && ips[ip] == Entry(0, Some(c.block), 0)
  {
    BurstPasses(c, [], ip, 0, c.max - 1);
    BurstMore([], ip, 0, c.max);
    More(c, [] + Burst(ip, 0, c.max - 1), Fail(Remote(ip), 0));
    assert [] + Burst(ip, 0, c.max) == Burst(ip, 0, c.max);
  }

  lemma More(c: Config, events: seq<Event>, e: Event)
    ensures Run(c, events + [e], false) == Next(c, Run(c, events, false), e, false)
    ensures Answers(c, events + [e], false) == Answers(c, events, false) + [Answer(c, Run(c, events, false), e, false)]
  {
    assert (events + [e])[..|events|] == events;
  }

  // ---- the limiter as the front keeps it ----

  class Limiter {
    const c: Config
    var ips: Ips

    constructor (max: int, window: int, block: int)
      ensures c == Config(max, window, block) && ips == map[]
    {
      c, ips := Config(max, window, block), map[];
    }

    method IsBlocked(addr: Address, now: int) returns (blocked: bool)
      ensures blocked == Answer(c, ips, Ask(addr, now), true)
    {
      if addr.Absent? || addr.Loopback? { return false; }
      blocked := addr.ip in ips && ips[addr.ip].until.Some? && now < ips[addr.ip].until.value;
    }

    /** Deletes the stale entries one by one. */
    method Evict(now: int)
      modifies this`ips
      ensures ips == map ip | ip in old(ips) && !Stale(c, old(ips)[ip], now) :: old(ips)[ip]
    {
      var todo := ips.Keys;
      while todo != {}
        invariant todo <= ips.Keys
        invariant ips == map ip | ip in old(ips) && (ip in todo || !Stale(c, old(ips)[ip], now)) :: old(ips)[ip]
        decreases |todo|
      {
        var k :| k in todo;
        todo := todo - {k};
        if now - ips[k].first > c.window && (ips[k].until.Some? ==> now > ips[k].until.value) {
          ips := ips - {k};
        }
      }
    }

    method RecordFail(addr: Address, now: int) returns (justBlocked: bool)
      modifies this`ips
      ensures justBlocked == Answer(c, old(ips), Fail(addr, now), true)
      ensures ips == Next(c, old(ips), Fail(addr, now), true)
    {
      if addr.Absent? || addr.Loopback? { return false; }
      if |ips| > EVICT_ABOVE { Evict(now); }
      var e := if addr.ip in ips && now - ips[addr.ip].first <= c.window then ips[addr.ip] else Entry(now, None, 0);
      e := e.(n := e.n + 1);
      justBlocked := e.n >= c.max;
      if justBlocked {
        e := Entry(now, Some(now + c.block), 0);
      }
      ips := ips[addr.ip := e];
    }
  }
}
