/** Add-on deliveries as a state machine. One step is what the service does between
    two awaits: it queues a request, starts the operation at the head of a key's
    queue, takes the answer of a deliver call, looks at one key during a tick, or
    dies and comes back with nothing but the files. Clocks, permissions, failing
    writes and the point of a crash are chosen by the step. */
module Deliveries {
  import opened Wrappers

  /** Permission and payload; the fingerprint is an injective function of them. */
  datatype Details = Details(permission: string, payload: string)
  datatype Status = Pending | Processing | Delivered | Failed | Uncertain
  datatype Record = Record(details: Details, status: Status, attempts: nat, nextAttempt: Option<int>)
  datatype Key = Key(addon: string, request: string)

  datatype Op = RequestOp(details: Details) | TickOp(seen: Record)
  datatype Answer = Success | Deferral | Failure
  datatype Event = Called(key: Key, at: int) | Answered(key: Key, answer: Answer, at: int)

  /** The files, the service's memory, and the log of the outside calls. */
  datatype State = State(
    disk: map<Key, Record>,
    pendingKeys: set<Key>, loaded: bool,
    counts: map<string, nat>,
    queues: map<Key, seq<Op>>,
    inFlight: map<Key, Record>,
    log: seq<Event>)

  const MAX_RECORDS := 100_000
  const RETRY_MS := 30_000

  /** How a start goes: after so many good writes the next one fails, or the
      service dies. Two good writes are all a start can ask for. */
  datatype Fate = Proceeds(good: nat) | Crashes(good: nat)

  datatype Step =
    | Enqueue(key: Key, details: Details)
    | Start(key: Key, canRun: bool, now: int, fate: Fate)
    | Reply(key: Key, answer: Answer, now: int, firstWrite: bool, secondWrite: bool, crashes: bool)
    | Tick(key: Key, canRun: bool, now: int, write: bool, crashes: bool)
    | Crash

  predicate Open(r: Record) { r.status.Pending? || r.status.Processing? }

  function Queue(s: State, key: Key): seq<Op> { if key in s.queues then s.queues[key] else [] }

  function OfAddon(disk: map<Key, Record>, addon: string): set<Key> { set k | k in disk && k.addon == addon }

  /** deliveryCount: nothing without records, else the cached count, else a listing. */
  function CountNow(s: State, addon: string): nat {
    if OfAddon(s.disk, addon) == {} then 0
    else if addon in s.counts then s.counts[addon]
    else |OfAddon(s.disk, addon)|
  }

  function Attempting(r: Record): Record { r.(status := Processing, attempts := r.attempts + 1) }

  predicate Waits(r: Record, now: int) { r.nextAttempt.Some? && r.nextAttempt.value > now }

  /** What the operation would write, in order; a Processing record at the end
      is followed by the deliver call. */
  function Writes(s: State, key: Key, op: Op, canRun: bool, now: int): seq<Record> {
    match op
    case TickOp(seen) =>
      var r := if key in s.disk then s.disk[key] else seen;
      if canRun then [Attempting(r)] else []
    case RequestOp(details) =>
      if key in s.disk then
        var r := s.disk[key];
        if r.details != details || !r.status.Pending? || Waits(r, now) || !canRun then [] else [Attempting(r)]
      else if CountNow(s, key.addon) >= MAX_RECORDS then []
      else
        var first := Record(details, Pending, 0, None);
        [first] + (if canRun then [Attempting(first)] else [])
  }

  function Written(disk: map<Key, Record>, key: Key, writes: seq<Record>, n: nat): map<Key, Record>
    requires n <= |writes|
  {
    if n == 0 then disk else disk[key := writes[n - 1]]
  }

  function Restarted(s: State, disk: map<Key, Record>): State {
    State(disk, {}, false, map[], map[], map[], s.log)
  }

  /** The queues without the head of one. */
  function TailOf(queues: map<Key, seq<Op>>, key: Key): map<Key, seq<Op>> {
    if key in queues && |queues[key]| > 1 then queues[key := queues[key][1..]] else queues - {key}
  }

  function QueuesAfter(s: State, key: Key): map<Key, seq<Op>> { TailOf(s.queues, key) }

  /** A request without a record looks the count up, and so caches it; its first
      record raises it. */
  function CountsAfter(s: State, key: Key, op: Op, wrote: bool): map<string, nat> {
    if op.RequestOp? && key !in s.disk
    then s.counts[key.addon := CountNow(s, key.addon) + if wrote then 1 else 0]
    else s.counts
  }

  function IndexAfter(s: State, key: Key, op: Op, wrote: bool): set<Key> {
    if op.RequestOp? && key !in s.disk && wrote then s.pendingKeys + {key} else s.pendingKeys
  }

  /** The operation ends after its first good writes. */
  function Ended(s: State, key: Key, op: Op, writes: seq<Record>, good: nat): State
    requires good <= |writes|
  {
    State(Written(s.disk, key, writes, good), IndexAfter(s, key, op, good > 0), s.loaded,
      CountsAfter(s, key, op, good > 0), QueuesAfter(s, key), s.inFlight, s.log)
  }

  /** The operation has written that it is processing and calls deliver. */
  function Calling(s: State, key: Key, op: Op, writes: seq<Record>, now: int): State
    requires writes != []
  {
    State(Written(s.disk, key, writes, |writes|), IndexAfter(s, key, op, true), s.loaded,
      CountsAfter(s, key, op, true), s.queues, s.inFlight[key := writes[|writes| - 1]], s.log + [Called(key, now)])
  }

  function AfterStart(s: State, key: Key, op: Op, writes: seq<Record>, now: int, fate: Fate): State {
    match fate
    case Crashes(n) => Restarted(s, Written(s.disk, key, writes, if n <= |writes| then n else |writes|))
    case Proceeds(n) =>
      if n < |writes| then Ended(s, key, op, writes, n)
      else if writes != [] && writes[|writes| - 1].status.Processing? then Calling(s, key, op, writes, now)
      else Ended(s, key, op, writes, |writes|)
  }

  /** The record an answer leaves behind; a success that cannot be written down
      is written down as a failure. */
  function Outcome(r: Record, answer: Answer, now: int, first: bool, second: bool): Option<Record> {
    match answer
    case Success =>
      if first then Some(r.(status := Delivered)) else if second then Some(r.(status := Failed)) else None
    case Deferral => if first then Some(r.(status := Pending, nextAttempt := Some(now + RETRY_MS))) else None
    case Failure => if first then Some(r.(status := Failed)) else None
  }

  function AfterReply(s: State, key: Key, answer: Answer, now: int, first: bool, second: bool, crashes: bool): State
    requires key in s.inFlight
  {
    var outcome := Outcome(s.inFlight[key], answer, now, first, second);
    var disk := if outcome.Some? then s.disk[key := outcome.value] else s.disk;
    var log := s.log + [Answered(key, answer, now)];
    if crashes then Restarted(s.(log := log), disk)
    else
      var closed := outcome.Some? && !outcome.value.status.Pending?;
      State(disk, if closed then s.pendingKeys - {key} else s.pendingKeys, s.loaded, s.counts,
        QueuesAfter(s, key), s.inFlight - {key}, log)
  }

  function Loaded(s: State): State {
    if s.loaded then s
    else s.(loaded := true, pendingKeys := s.pendingKeys + set k | k in s.disk && Open(s.disk[k]))
  }

  /** The tick picks the key's record for another attempt. */
  predicate Picks(s: State, key: Key, canRun: bool, now: int) {
    key in s.disk && s.disk[key].status.Pending? && !Waits(s.disk[key], now) && canRun
  }

  datatype Visit = Forget | Leave | Mark | Pick

  /** What the tick does about one key. */
  function Visited(s: State, key: Key, canRun: bool, now: int, write: bool): Visit {
    if key !in s.disk || !Open(s.disk[key]) then Forget
    else if s.disk[key].status.Processing? then if key in s.queues || !write then Leave else Mark
    else if Picks(s, key, canRun, now) then Pick
    else Leave
  }

  function AfterTick(s: State, key: Key, canRun: bool, now: int, write: bool, crashes: bool): State {
    var t := Loaded(s);
    match Visited(t, key, canRun, now, write)
    case Forget => t.(pendingKeys := t.pendingKeys - {key})
    case Leave => t
    case Mark =>
      var disk := t.disk[key := t.disk[key].(status := Uncertain)];
      if crashes then Restarted(s, disk) else t.(disk := disk, pendingKeys := t.pendingKeys - {key})
    case Pick => t.(queues := t.queues[key := Queue(t, key) + [TickOp(t.disk[key])]])
  }

  /** One step of the service; a step that cannot happen changes nothing. */
  function Next(s: State, step: Step): State {
    match step
    case Enqueue(key, details) => s.(queues := s.queues[key := Queue(s, key) + [RequestOp(details)]])
    case Start(key, canRun, now, fate) =>
      if key in s.queues && s.queues[key] != [] && key !in s.inFlight
      then AfterStart(s, key, s.queues[key][0], Writes(s, key, s.queues[key][0], canRun, now), now, fate) else s
    case Reply(key, answer, now, first, second, crashes) =>
      if key in s.inFlight then AfterReply(s, key, answer, now, first, second, crashes) else s
    case Tick(key, canRun, now, write, crashes) => AfterTick(s, key, canRun, now, write, crashes)
    case Crash => Restarted(s, s.disk)
  }

  function Run(s: State, steps: seq<Step>): State {
    if steps == [] then s else Next(Run(s, steps[..|steps| - 1]), steps[|steps| - 1])
  }

  /** No queued operation of the key would attempt the delivery of r. */
  predicate Idle(q: seq<Op>, r: Record) {
    forall i :: 0 <= i < |q| ==> q[i].RequestOp? && q[i].details != r.details
  }

  /** A tick that picks a record finds nothing queued that would attempt it too. */
  predicate Guarded(s: State, step: Step) {
    step.Tick? && Picks(s, step.key, step.canRun, step.now) ==> Idle(Queue(s, step.key), s.disk[step.key])
  }

  ghost predicate AllGuarded(s: State, steps: seq<Step>) {
    forall i :: 0 <= i < |steps| ==> Guarded(Run(s, steps[..i]), steps[i])
  }

  /** A call of the key counts, until it is answered by a deferral. */
  function Weight(e: Event, key: Key): int {
    if e.key != key then 0
    else
      match e
      case Called(_, _) => 1
      case Answered(_, answer, _) => if answer.Deferral? then -1 else 0
  }

  /** Deliver calls of the key that were not answered by a deferral. */
  function Calls(log: seq<Event>, key: Key): int {
    if log == [] then 0 else Calls(log[..|log| - 1], key) + Weight(log[|log| - 1], key)
  }

  lemma CallsOfMore(log: seq<Event>, e: Event, key: Key)
    ensures Calls(log + [e], key) == Calls(log, key) + Weight(e, key)
  {
    assert (log + [e])[..|log|] == log;
  }

  // ---- what every step keeps ----

  /** A queued tick operation has only strangers before it and is alone. */
  predicate TickAlone(q: seq<Op>, r: Record, i: nat)
    requires i < |q|
  {
    Idle(q[..i], r) && forall j :: 0 <= j < |q| && j != i ==> q[j].RequestOp?
  }

  ghost predicate KeySafe(s: State, base: map<Key, Record>, key: Key) {
    var calls := Calls(s.log, key);
    && (key in base ==> key in s.disk)
    && (key !in s.disk ==> calls == 0 && key !in s.inFlight)
    && (key in s.disk ==> 0 <= calls <= 1)
    && (key in s.disk && s.disk[key].status.Pending? ==> calls == 0 && key !in s.inFlight)
    && (key in s.disk && s.disk[key].status.Delivered? && key !in base ==> calls == 1)
    && (key in s.inFlight ==> (
      key in s.disk && s.disk[key] == s.inFlight[key] && s.inFlight[key].status.Processing?
      && calls == 1 && Queue(s, key) != []))
  }

  ghost predicate QueueSafe(s: State, key: Key) {
    (key in s.queues ==> s.queues[key] != [])
    && forall i :: 0 <= i < |Queue(s, key)| && Queue(s, key)[i].TickOp? && !(i == 0 && key in s.inFlight) ==>
      key !in s.inFlight && key in s.disk && s.disk[key].status.Pending? && TickAlone(Queue(s, key), s.disk[key], i)
  }

  ghost predicate MemorySafe(s: State) {
    (s.loaded ==> forall k :: k in s.disk && Open(s.disk[k]) ==> k in s.pendingKeys)
    && (forall a :: a in s.counts ==> s.counts[a] == |OfAddon(s.disk, a)|)
    && forall a :: |OfAddon(s.disk, a)| <= MAX_RECORDS
  }

  ghost predicate Inv(s: State, base: map<Key, Record>) {
    MemorySafe(s) && forall key :: KeySafe(s, base, key) && QueueSafe(s, key)
  }

  // ---- one step at a time ----

  /** Replacing a record keeps the count of every add-on, a new one adds to its own. */
  lemma CountAfterWrite(disk: map<Key, Record>, key: Key, r: Record, addon: string)
    ensures |OfAddon(disk[key := r], addon)|
      == |OfAddon(disk, addon)| + (if key !in disk && key.addon == addon then 1 else 0)
  {
    if key !in disk && key.addon == addon {
      assert OfAddon(disk[key := r], addon) == OfAddon(disk, addon) + {key};
    } else {
      assert OfAddon(disk[key := r], addon) == OfAddon(disk, addon);
    }
  }

  lemma CountNowExact(s: State, addon: string)
    requires MemorySafe(s)
    ensures CountNow(s, addon) == |OfAddon(s.disk, addon)|
  {
  }

  /** The writes of an operation are of one record: first pending, then processing. */
  ghost predicate AttemptOf(writes: seq<Record>, disk: map<Key, Record>, key: Key) {
    |writes| <= 2
    && (|writes| == 2 ==> key !in disk && writes[0].status.Pending?)
    && (|writes| == 1 && !(writes[0].status.Pending? && key !in disk) ==> (
      key in disk && disk[key].status.Pending? && writes[0].status.Processing?))
    && (|writes| == 2 ==> writes[1].status.Processing?)
  }

  lemma HeadAttempts(s: State, base: map<Key, Record>, key: Key, canRun: bool, now: int)
    requires KeySafe(s, base, key) && QueueSafe(s, key) && key in s.queues && key !in s.inFlight
    ensures AttemptOf(Writes(s, key, s.queues[key][0], canRun, now), s.disk, key)
  {
    assert Queue(s, key)[0] == s.queues[key][0];
  }

  ghost predicate SameAt(s: State, t: State, k: Key) {
    (k in s.disk <==> k in t.disk) && (k in s.disk ==> s.disk[k] == t.disk[k])
    && (k in s.inFlight <==> k in t.inFlight) && (k in s.inFlight ==> s.inFlight[k] == t.inFlight[k])
    && (k in s.queues <==> k in t.queues) && Queue(s, k) == Queue(t, k)
    && Calls(s.log, k) == Calls(t.log, k)
  }

  lemma Elsewhere(s: State, t: State, base: map<Key, Record>, k: Key)
    requires KeySafe(s, base, k) && QueueSafe(s, k) && SameAt(s, t, k)
    ensures KeySafe(t, base, k) && QueueSafe(t, k)
  {
  }

  predicate Stranger(op: Op, r: Record) { op.RequestOp? && op.details != r.details }

  /** A queue without its head still has a tick operation alone. */
  lemma PoppedSafe(s: State, t: State, key: Key)
    requires key in s.queues && QueueSafe(s, key) && key !in t.inFlight
    requires t.queues == QueuesAfter(s, key)
    requires (key in s.disk && s.disk[key].status.Pending? && key !in s.inFlight &&
             Stranger(s.queues[key][0], s.disk[key]))
      ==> key in t.disk && t.disk[key] == s.disk[key]
    ensures QueueSafe(t, key)
  {
    var q, r := Queue(s, key), Queue(t, key);
    assert r == if |q| <= 1 then [] else q[1..];
    forall i | 0 <= i < |r| && r[i].TickOp?
      ensures key in t.disk && t.disk[key].status.Pending? && TickAlone(r, t.disk[key], i)
    {
      assert q[i + 1] == r[i];
      assert TickAlone(q, s.disk[key], i + 1);
      assert q[..i + 1][0] == q[0];
      assert forall j :: 0 <= j < i ==> r[..i][j] == q[..i + 1][j + 1];
    }
  }

  lemma EnqueueSafe(s: State, base: map<Key, Record>, key: Key, op: Op)
    requires KeySafe(s, base, key) && QueueSafe(s, key)
    requires op.TickOp? ==> key in s.disk && s.disk[key].status.Pending? && Idle(Queue(s, key), s.disk[key])
    ensures var t := s.(queues := s.queues[key := Queue(s, key) + [op]]); KeySafe(t, base, key) && QueueSafe(t, key)
  {
    var t := s.(queues := s.queues[key := Queue(s, key) + [op]]);
    var q, r := Queue(s, key), Queue(t, key);
    assert key in t.queues && t.queues[key] != [];
    forall i | 0 <= i < |r| && r[i].TickOp? && !(i == 0 && key in t.inFlight)
      ensures key !in t.inFlight && key in t.disk && t.disk[key].status.Pending? && TickAlone(r, t.disk[key], i)
    {
      if i < |q| {
        assert q[i] == r[i];
        assert r[..i] == q[..i];
        assert TickAlone(q, s.disk[key], i);
        assert !op.TickOp?;
      } else {
        assert r[..i] == q;
      }
    }
  }

  lemma RestartSafe(s: State, base: map<Key, Record>, disk: map<Key, Record>, key: Key)
    requires KeySafe(s, base, key) && (key in s.disk ==> key in disk)
    requires key in disk && disk[key].status.Pending? ==> Calls(s.log, key) == 0
    requires key in disk && disk[key].status.Delivered? && key !in base ==> Calls(s.log, key) == 1
    requires key !in s.disk && key in disk ==> !disk[key].status.Delivered?
    ensures KeySafe(Restarted(s, disk), base, key) && QueueSafe(Restarted(s, disk), key)
  {
  }

  /** Before a tick operation that waits stands nothing that writes. */
  lemma HeadIdle(s: State, key: Key, i: nat, canRun: bool, now: int)
    requires QueueSafe(s, key) && key in s.queues && key !in s.inFlight && 0 < i < |s.queues[key]|
    ensures s.queues[key][i].RequestOp? || Writes(s, key, s.queues[key][0], canRun, now) == []
  {
    var q := Queue(s, key);
    if q[i].TickOp? {
      assert TickAlone(q, s.disk[key], i);
      assert q[..i][0] == q[0];
    }
  }

  lemma StartSafe(s: State, base: map<Key, Record>, key: Key, canRun: bool, now: int, fate: Fate)
    requires KeySafe(s, base, key) && QueueSafe(s, key)
    requires key in s.queues && s.queues[key] != [] && key !in s.inFlight
    ensures var t := Next(s, Start(key, canRun, now, fate)); KeySafe(t, base, key) && QueueSafe(t, key)
  {
    hide KeySafe, QueueSafe, Writes, AttemptOf;
    HeadAttempts(s, base, key, canRun, now);
    var op := s.queues[key][0];
    var writes := Writes(s, key, op, canRun, now);
    StrangerWritesNothing(s, key, canRun, now);
    AttemptEnds(writes, s.disk, key);
    match fate
    case Crashes(n) =>
      CrashSafe(s, base, key, writes, if n <= |writes| then n else |writes|);
    case Proceeds(n) =>
      if n < |writes| {
        EndsSafe(s, base, key, writes, n);
      } else if writes != [] && writes[|writes| - 1].status.Processing? {
        CallingSafe(s, base, key, writes, canRun, now);
      } else {
        EndsSafe(s, base, key, writes, |writes|);
      }
  }

  lemma AttemptEnds(writes: seq<Record>, disk: map<Key, Record>, key: Key)
    requires AttemptOf(writes, disk, key)
    ensures forall n :: 0 <= n < |writes| - 1 ==> writes[n].status.Pending?
    ensures writes != [] && !writes[|writes| - 1].status.Processing? ==> writes[|writes| - 1].status.Pending?
  {
  }

  lemma CrashSafe(s: State, base: map<Key, Record>, key: Key, writes: seq<Record>, good: nat)
    requires KeySafe(s, base, key) && AttemptOf(writes, s.disk, key) && good <= |writes|
    ensures var t := Restarted(s, Written(s.disk, key, writes, good)); KeySafe(t, base, key) && QueueSafe(t, key)
  {
    RestartSafe(s, base, Written(s.disk, key, writes, good), key);
  }

  /** The operation ends without a call: nothing was written, or a first record. */
  lemma EndsSafe(s: State, base: map<Key, Record>, key: Key, writes: seq<Record>, good: nat)
    requires KeySafe(s, base, key) && QueueSafe(s, key)
    requires key in s.queues && s.queues[key] != [] && key !in s.inFlight
    requires AttemptOf(writes, s.disk, key) && good <= |writes|
    requires good > 0 ==> writes[good - 1].status.Pending?
    requires key in s.disk && Stranger(s.queues[key][0], s.disk[key]) ==> writes == []
    ensures var t := Ended(s, key, s.queues[key][0], writes, good); KeySafe(t, base, key) && QueueSafe(t, key)
  {
    PoppedSafe(s, Ended(s, key, s.queues[key][0], writes, good), key);
  }

  lemma StrangerWritesNothing(s: State, key: Key, canRun: bool, now: int)
    requires key in s.queues && s.queues[key] != []
    ensures key in s.disk && Stranger(s.queues[key][0], s.disk[key])
      ==> Writes(s, key, s.queues[key][0], canRun, now) == []
  {
  }

  lemma CallingSafe(s: State, base: map<Key, Record>, key: Key, writes: seq<Record>, canRun: bool, now: int)
    requires KeySafe(s, base, key) && QueueSafe(s, key)
    requires key in s.queues && s.queues[key] != [] && key !in s.inFlight
    requires writes == Writes(s, key, s.queues[key][0], canRun, now) && AttemptOf(writes, s.disk, key)
    requires writes != [] && writes[|writes| - 1].status.Processing?
    ensures var t := Calling(s, key, s.queues[key][0], writes, now); KeySafe(t, base, key) && QueueSafe(t, key)
  {
    hide Writes;
    var t := Calling(s, key, s.queues[key][0], writes, now);
    CallsOfMore(s.log, Called(key, now), key);
    assert Queue(t, key) == Queue(s, key);
    forall i | 0 < i < |Queue(t, key)| ensures Queue(t, key)[i].RequestOp? {
      HeadIdle(s, key, i, canRun, now);
    }
  }

  lemma ReplySafe(s: State, base: map<Key, Record>, key: Key, answer: Answer, now: int, first: bool, second: bool,
      crashes: bool)
    requires KeySafe(s, base, key) && QueueSafe(s, key) && key in s.inFlight
    ensures var t := AfterReply(s, key, answer, now, first, second, crashes); KeySafe(t, base, key) && QueueSafe(t, key)
  {
    var t := AfterReply(s, key, answer, now, first, second, crashes);
    CallsOfMore(s.log, Answered(key, answer, now), key);
    if !crashes {
      assert forall i :: 0 < i < |Queue(s, key)| ==> Queue(s, key)[i].RequestOp?;
    }
  }

  lemma TickSafe(s: State, base: map<Key, Record>, key: Key, canRun: bool, now: int, write: bool, crashes: bool)
    requires KeySafe(s, base, key) && QueueSafe(s, key) && Guarded(s, Step.Tick(key, canRun, now, write, crashes))
    ensures var t := AfterTick(s, key, canRun, now, write, crashes); KeySafe(t, base, key) && QueueSafe(t, key)
  {
    hide KeySafe, QueueSafe, Calls;
    var l, t := Loaded(s), AfterTick(s, key, canRun, now, write, crashes);
    Elsewhere(s, l, base, key);
    match Visited(l, key, canRun, now, write)
    case Forget => Elsewhere(s, t, base, key);
    case Leave =>
    case Mark =>
      MarkSafe(l, base, key);
      assert crashes ==> t == Restarted(l, t.disk);
      if !crashes { Elsewhere(l.(disk := t.disk), t, base, key); }
    case Pick => EnqueueSafe(l, base, key, TickOp(l.disk[key]));
  }

  /** Marking an orphan uncertain, and dying right after. */
  lemma MarkSafe(s: State, base: map<Key, Record>, key: Key)
    requires KeySafe(s, base, key) && QueueSafe(s, key) && key in s.disk && key !in s.queues
    requires s.disk[key].status.Processing?
    ensures var t := s.(disk := s.disk[key := s.disk[key].(status := Uncertain)]);
      KeySafe(t, base, key) && QueueSafe(t, key)
      && KeySafe(Restarted(s, t.disk), base, key) && QueueSafe(Restarted(s, t.disk), key)
  {
  }

  /** Writing one record in memory and on disk keeps the index and the counts. */
  lemma MemoryAfterWrite(s: State, t: State, key: Key, r: Record)
    requires MemorySafe(s) && t.disk == s.disk[key := r] && t.loaded == s.loaded
    requires t.loaded ==> s.pendingKeys - {key} <= t.pendingKeys && (Open(r) ==> key in t.pendingKeys)
    requires key in s.disk ==> t.counts == s.counts
    requires key !in s.disk ==> (
      CountNow(s, key.addon) < MAX_RECORDS && t.counts == s.counts[key.addon := CountNow(s, key.addon) + 1])
    ensures MemorySafe(t)
  {
    forall addon ensures |OfAddon(t.disk, addon)| <= MAX_RECORDS
      && (addon in t.counts ==> t.counts[addon] == |OfAddon(t.disk, addon)|)
    {
      CountAfterWrite(s.disk, key, r, addon);
    }
  }

  lemma StartMemory(s: State, base: map<Key, Record>, key: Key, canRun: bool, now: int, fate: Fate)
    requires MemorySafe(s) && KeySafe(s, base, key) && QueueSafe(s, key)
    requires key in s.queues && s.queues[key] != [] && key !in s.inFlight
    ensures MemorySafe(Next(s, Start(key, canRun, now, fate)))
  {
    hide KeySafe, QueueSafe, MemorySafe, Writes;
    var op := s.queues[key][0];
    var writes := Writes(s, key, op, canRun, now);
    HeadAttempts(s, base, key, canRun, now);
    HeadCreates(s, key, canRun, now);
    match fate
    case Crashes(n) => CrashMemory(s, key, writes, if n <= |writes| then n else |writes|);
    case Proceeds(n) =>
      EndedMemory(s, key, op, writes, if n < |writes| then n else |writes|);
      if n >= |writes| && writes != [] && writes[|writes| - 1].status.Processing? {
        MemoryAlike(Ended(s, key, op, writes, |writes|), Calling(s, key, op, writes, now));
      }
  }

  /** Only a request below the limit creates a record; others write one there is. */
  ghost predicate Creates(s: State, key: Key, op: Op, writes: seq<Record>) {
    key !in s.disk ==> op.RequestOp? && (writes != [] ==> CountNow(s, key.addon) < MAX_RECORDS)
  }

  lemma HeadCreates(s: State, key: Key, canRun: bool, now: int)
    requires QueueSafe(s, key) && key in s.queues && s.queues[key] != [] && key !in s.inFlight
    ensures Creates(s, key, s.queues[key][0], Writes(s, key, s.queues[key][0], canRun, now))
  {
    assert Queue(s, key)[0] == s.queues[key][0];
  }

  lemma MemoryAlike(s: State, t: State)
    requires s.disk == t.disk && s.counts == t.counts && s.pendingKeys == t.pendingKeys && s.loaded == t.loaded
    ensures MemorySafe(s) <==> MemorySafe(t)
  {
  }

  lemma EndedMemory(s: State, key: Key, op: Op, writes: seq<Record>, good: nat)
    requires MemorySafe(s) && Creates(s, key, op, writes) && AttemptOf(writes, s.disk, key) && good <= |writes|
    ensures MemorySafe(Ended(s, key, op, writes, good))
  {
    if good > 0 { MemoryAfterWrite(s, Ended(s, key, op, writes, good), key, writes[good - 1]); }
  }

  lemma CrashMemory(s: State, key: Key, writes: seq<Record>, good: nat)
    requires MemorySafe(s) && good <= |writes| &&
             (key !in s.disk && writes != [] ==> CountNow(s, key.addon) < MAX_RECORDS)
    ensures MemorySafe(Restarted(s, Written(s.disk, key, writes, good)))
  {
    if good > 0 {
      CountNowExact(s, key.addon);
      var disk := s.disk[key := writes[good - 1]];
      forall addon ensures |OfAddon(disk, addon)| <= MAX_RECORDS {
        CountAfterWrite(s.disk, key, writes[good - 1], addon);
      }
    }
  }

  lemma ReplyMemory(s: State, base: map<Key, Record>, key: Key, answer: Answer, now: int, first: bool, second: bool,
      crashes: bool)
    requires MemorySafe(s) && KeySafe(s, base, key) && key in s.inFlight
    ensures MemorySafe(AfterReply(s, key, answer, now, first, second, crashes))
  {
    var t := AfterReply(s, key, answer, now, first, second, crashes);
    forall addon ensures |OfAddon(t.disk, addon)| == |OfAddon(s.disk, addon)| {
      CountAfterWrite(s.disk, key, t.disk[key], addon);
    }
  }

  lemma TickMemory(s: State, key: Key, canRun: bool, now: int, write: bool, crashes: bool)
    requires MemorySafe(s)
    ensures MemorySafe(AfterTick(s, key, canRun, now, write, crashes))
  {
    hide MemorySafe;
    var l, t := Loaded(s), AfterTick(s, key, canRun, now, write, crashes);
    LoadedMemory(s);
    match Visited(l, key, canRun, now, write)
    case Forget => ForgottenMemory(l, key);
    case Leave =>
    case Mark => MarkedMemory(l, key);
      if crashes { RestartedMemory(t); }
    case Pick => MemoryAlike(l, t);
  }

  lemma LoadedMemory(s: State)
    requires MemorySafe(s)
    ensures MemorySafe(Loaded(s))
  {
  }

  lemma RestartedMemory(t: State)
    requires !t.loaded && t.counts == map[] && forall addon :: |OfAddon(t.disk, addon)| <= MAX_RECORDS
    ensures MemorySafe(t)
  {
  }

  lemma ForgottenMemory(s: State, key: Key)
    requires MemorySafe(s) && (key in s.disk ==> !Open(s.disk[key]))
    ensures MemorySafe(s.(pendingKeys := s.pendingKeys - {key}))
  {
  }

  lemma MarkedMemory(s: State, key: Key)
    requires MemorySafe(s) && key in s.disk
    ensures var t := s.(disk := s.disk[key := s.disk[key].(status := Uncertain)], pendingKeys := s.pendingKeys - {key});
      MemorySafe(t) && forall addon :: |OfAddon(t.disk, addon)| <= MAX_RECORDS
  {
    var marked := s.disk[key].(status := Uncertain);
    var disk := s.disk[key := marked];
    forall addon ensures |OfAddon(disk, addon)| == |OfAddon(s.disk, addon)| {
      CountAfterWrite(s.disk, key, marked, addon);
    }
  }

  /** Every guarded step keeps the invariant. */
  lemma StepSafe(s: State, base: map<Key, Record>, step: Step)
    requires Inv(s, base) && Guarded(s, step)
    ensures Inv(Next(s, step), base)
  {
    hide KeySafe, QueueSafe, MemorySafe;
    var t := Next(s, step);
    assert MemorySafe(t) by { StepMemory(s, base, step); }
    forall k ensures KeySafe(t, base, k) && QueueSafe(t, k) {
      StepKeys(s, base, step, k);
    }
  }

  lemma StepMemory(s: State, base: map<Key, Record>, step: Step)
    requires Inv(s, base) && Guarded(s, step)
    ensures MemorySafe(Next(s, step))
  {
    match step
    case Enqueue(key, details) =>
    case Start(key, canRun, now, fate) =>
      assert KeySafe(s, base, key) && QueueSafe(s, key);
      if Next(s, step) != s { StartMemory(s, base, key, canRun, now, fate); }
    case Reply(key, answer, now, first, second, crashes) =>
      assert KeySafe(s, base, key);
      if key in s.inFlight { ReplyMemory(s, base, key, answer, now, first, second, crashes); }
    case Tick(key, canRun, now, write, crashes) => TickMemory(s, key, canRun, now, write, crashes);
    case Crash =>
  }

  /** The key a step is about; a crash is about all. */
  lemma StepKeys(s: State, base: map<Key, Record>, step: Step, k: Key)
    requires Inv(s, base) && Guarded(s, step)
    ensures KeySafe(Next(s, step), base, k) && QueueSafe(Next(s, step), k)
  {
    hide KeySafe, QueueSafe, MemorySafe;
    var t := Next(s, step);
    assert KeySafe(s, base, k) && QueueSafe(s, k);
    if step.Crash? {
      CrashKeepsKey(s, base, s.disk, k);
    } else if k != step.key {
      OtherKeys(s, base, step, k);
    } else {
      match step
      case Enqueue(key, details) => EnqueueSafe(s, base, key, RequestOp(details));
      case Start(key, canRun, now, fate) => if t != s { StartSafe(s, base, key, canRun, now, fate); }
      case Reply(key, answer, now, first, second, crashes) =>
        if key in s.inFlight { ReplySafe(s, base, key, answer, now, first, second, crashes); }
      case Tick(key, canRun, now, write, crashes) => TickSafe(s, base, key, canRun, now, write, crashes);
    }
  }

  lemma CrashKeepsKey(s: State, base: map<Key, Record>, disk: map<Key, Record>, k: Key)
    requires KeySafe(s, base, k) && (k in s.disk <==> k in disk) && (k in s.disk ==> s.disk[k] == disk[k])
    ensures KeySafe(Restarted(s, disk), base, k) && QueueSafe(Restarted(s, disk), k)
  {
    RestartSafe(s, base, disk, k);
  }

  /** A step leaves other keys alone, unless it crashes. */
  lemma OtherKeys(s: State, base: map<Key, Record>, step: Step, k: Key)
    requires KeySafe(s, base, k) && QueueSafe(s, k) && !step.Crash? && k != step.key
    ensures KeySafe(Next(s, step), base, k) && QueueSafe(Next(s, step), k)
  {
    hide KeySafe, QueueSafe, AfterStart, AfterReply, AfterTick, Writes;
    var t := Next(s, step);
    match step
    case Enqueue(key, details) => Elsewhere(s, t, base, k);
    case Start(key, canRun, now, fate) => if t != s { OtherStart(s, base, key, canRun, now, fate, k); }
    case Reply(key, answer, now, first, second, died) => OtherReply(s, base, key, answer, now, first, second, died, k);
    case Tick(key, canRun, now, write, died) => OtherTick(s, base, key, canRun, now, write, died, k);
  }

  lemma OtherStart(s: State, base: map<Key, Record>, key: Key, canRun: bool, now: int, fate: Fate, k: Key)
    requires KeySafe(s, base, k) && QueueSafe(s, k) && k != key
    ensures var t := Next(s, Start(key, canRun, now, fate)); KeySafe(t, base, k) && QueueSafe(t, k)
  {
    hide KeySafe, QueueSafe, Writes, AfterStart;
    if key in s.queues && s.queues[key] != [] && key !in s.inFlight {
      var op := s.queues[key][0];
      var writes := Writes(s, key, op, canRun, now);
      StartElsewhere(s, key, op, writes, now, fate, k);
      var t := AfterStart(s, key, op, writes, now, fate);
      if t == Restarted(s, t.disk) {
        CrashKeepsKey(s, base, t.disk, k);
      } else {
        Elsewhere(s, t, base, k);
      }
    }
  }

  lemma TailElsewhere(queues: map<Key, seq<Op>>, key: Key, k: Key)
    requires k != key
    ensures (k in TailOf(queues, key) <==> k in queues) && (k in queues ==> TailOf(queues, key)[k] == queues[k])
  {
  }

  lemma WrittenElsewhere(disk: map<Key, Record>, key: Key, writes: seq<Record>, k: Key)
    requires k != key
    ensures forall n :: 0 <= n <= |writes| ==>
      (k in Written(disk, key, writes, n) <==> k in disk) && (k in disk ==> Written(disk, key, writes, n)[k] == disk[k])
  {
  }

  lemma StartElsewhere(s: State, key: Key, op: Op, writes: seq<Record>, now: int, fate: Fate, k: Key)
    requires k != key
    ensures var t := AfterStart(s, key, op, writes, now, fate);
      (k in t.disk <==> k in s.disk) && (k in s.disk ==> t.disk[k] == s.disk[k])
      && (t == Restarted(s, t.disk) || SameAt(s, t, k))
  {
    hide Calls, CountsAfter, IndexAfter, TailOf, Written;
    CallsOfMore(s.log, Called(key, now), k);
    TailElsewhere(s.queues, key, k);
    WrittenElsewhere(s.disk, key, writes, k);
    match fate
    case Crashes(n) =>
    case Proceeds(n) =>
  }

  lemma OtherReply(s: State, base: map<Key, Record>, key: Key, answer: Answer, now: int, first: bool, second: bool,
      died: bool, k: Key)
    requires KeySafe(s, base, k) && QueueSafe(s, k) && k != key
    ensures var t := Next(s, Reply(key, answer, now, first, second, died)); KeySafe(t, base, k) && QueueSafe(t, k)
  {
    hide KeySafe, QueueSafe, Outcome;
    var t := Next(s, Reply(key, answer, now, first, second, died));
    CallsOfMore(s.log, Answered(key, answer, now), k);
    if t == s {
    } else if died {
      Elsewhere(s, s.(log := t.log), base, k);
      CrashKeepsKey(s.(log := t.log), base, t.disk, k);
    } else {
      Elsewhere(s, t, base, k);
    }
  }

  lemma OtherTick(s: State, base: map<Key, Record>, key: Key, canRun: bool, now: int, write: bool, died: bool, k: Key)
    requires KeySafe(s, base, k) && QueueSafe(s, k) && k != key
    ensures var t := AfterTick(s, key, canRun, now, write, died); KeySafe(t, base, k) && QueueSafe(t, k)
  {
    hide KeySafe, QueueSafe;
    var t := AfterTick(s, key, canRun, now, write, died);
    TickElsewhere(s, key, canRun, now, write, died, k);
    if t == Restarted(s, t.disk) {
      CrashKeepsKey(s, base, t.disk, k);
    } else {
      Elsewhere(s, t, base, k);
    }
  }

  lemma TickElsewhere(s: State, key: Key, canRun: bool, now: int, write: bool, died: bool, k: Key)
    requires k != key
    ensures var t := AfterTick(s, key, canRun, now, write, died);
      (k in t.disk <==> k in s.disk) && (k in s.disk ==> t.disk[k] == s.disk[k])
      && (t == Restarted(s, t.disk) || SameAt(s, t, k))
  {
    match Visited(Loaded(s), key, canRun, now, write)
    case Forget =>
    case Leave =>
    case Mark =>
    case Pick =>
  }

  // ---- whole runs ----

  lemma {:induction false} RunSafe(s: State, base: map<Key, Record>, steps: seq<Step>)
    requires Inv(s, base) && AllGuarded(s, steps)
    ensures Inv(Run(s, steps), base)
  {
    hide Inv;
    if steps != [] {
      var front, step := steps[..|steps| - 1], steps[|steps| - 1];
      forall i | 0 <= i < |front| ensures Guarded(Run(s, front[..i]), front[i]) {
        assert front[..i] == steps[..i] && front[i] == steps[i];
      }
      RunSafe(s, base, front);
      StepSafe(Run(s, front), base, step);
    }
  }

  /** The service as it comes up on the files it finds. */
  function Opened(disk: map<Key, Record>): State { State(disk, {}, false, map[], map[], map[], []) }

  ghost predicate WithinLimit(disk: map<Key, Record>) { forall a :: |OfAddon(disk, a)| <= MAX_RECORDS }

  lemma OpenedSafe(disk: map<Key, Record>)
    requires WithinLimit(disk)
    ensures Inv(Opened(disk), disk)
  {
  }

  /** Over every guarded run, whatever fails and whenever it dies: one deliver call
      per request that was not answered by a deferral, exactly one behind each
      new delivered record; the index covers every open record, the cached counts
      are right and no add-on has more records than the limit. */
  lemma AtMostOnce(disk: map<Key, Record>, steps: seq<Step>, key: Key)
    requires WithinLimit(disk) && AllGuarded(Opened(disk), steps)
    ensures var s := Run(Opened(disk), steps);
      && Calls(s.log, key) <= 1
      && (key in s.disk && s.disk[key].status.Delivered? && key !in disk ==> Calls(s.log, key) == 1)
      && (key in s.disk && s.disk[key].status.Pending? ==> Calls(s.log, key) == 0)
      && MemorySafe(s)
  {
    OpenedSafe(disk);
    RunSafe(Opened(disk), disk, steps);
    assert KeySafe(Run(Opened(disk), steps), disk, key);
  }

  /** A record is never lost, its details never change, and once it is closed it
      never changes at all. */
  ghost predicate Keeps(s: State, t: State, key: Key) {
    key in s.disk ==> (
      key in t.disk && t.disk[key].details == s.disk[key].details
      && (!Open(s.disk[key]) ==> t.disk[key] == s.disk[key]))
  }

  lemma StepKeeps(s: State, base: map<Key, Record>, step: Step, key: Key)
    requires Inv(s, base) && Guarded(s, step)
    ensures Keeps(s, Next(s, step), key)
  {
    hide KeySafe, QueueSafe, MemorySafe, AfterStart, AfterReply, AfterTick, Writes;
    assert KeySafe(s, base, key) && QueueSafe(s, key);
    match step
    case Enqueue(_, _) =>
    case Start(k, canRun, now, fate) =>
      if key !in s.queues || s.queues[key] == [] || key in s.inFlight || k != key {
        StartKeepsOthers(s, k, canRun, now, fate, key);
      } else {
        StartKeeps(s, base, key, canRun, now, fate);
      }
    case Reply(k, answer, now, first, second, died) => ReplyKeeps(s, base, k, answer, now, first, second, died, key);
    case Tick(k, canRun, now, write, died) => TickKeeps(s, k, canRun, now, write, died, key);
    case Crash =>
  }

  lemma StartKeepsOthers(s: State, k: Key, canRun: bool, now: int, fate: Fate, key: Key)
    requires k != key || k !in s.queues || s.queues[k] == [] || k in s.inFlight
    ensures Keeps(s, Next(s, Start(k, canRun, now, fate)), key)
  {
    hide Writes, CountsAfter, IndexAfter, QueuesAfter;
  }

  lemma ReplyKeeps(s: State, base: map<Key, Record>, k: Key, answer: Answer, now: int, first: bool, second: bool,
      died: bool, key: Key)
    requires KeySafe(s, base, key)
    ensures Keeps(s, Next(s, Reply(k, answer, now, first, second, died)), key)
  {
    hide Calls, QueuesAfter;
  }

  lemma TickKeeps(s: State, k: Key, canRun: bool, now: int, write: bool, died: bool, key: Key)
    ensures Keeps(s, AfterTick(s, k, canRun, now, write, died), key)
  {
    match Visited(Loaded(s), k, canRun, now, write)
    case Forget =>
    case Leave =>
    case Mark =>
    case Pick =>
  }

  lemma StartKeeps(s: State, base: map<Key, Record>, key: Key, canRun: bool, now: int, fate: Fate)
    requires KeySafe(s, base, key) && QueueSafe(s, key)
    requires key in s.queues && s.queues[key] != [] && key !in s.inFlight
    ensures Keeps(s, Next(s, Start(key, canRun, now, fate)), key)
  {
    assert Queue(s, key)[0] == s.queues[key][0];
    HeadAttempts(s, base, key, canRun, now);
  }

  lemma {:induction false} RunKeeps(s: State, base: map<Key, Record>, steps: seq<Step>, key: Key)
    requires Inv(s, base) && AllGuarded(s, steps)
    ensures Keeps(s, Run(s, steps), key)
  {
    hide Inv;
    if steps != [] {
      var front, step := steps[..|steps| - 1], steps[|steps| - 1];
      forall i | 0 <= i < |front| ensures Guarded(Run(s, front[..i]), front[i]) {
        assert front[..i] == steps[..i] && front[i] == steps[i];
      }
      RunKeeps(s, base, front, key);
      RunSafe(s, base, front);
      StepKeeps(Run(s, front), base, step, key);
    }
  }

  /** A request id that comes back with other details only leaves its queue. */
  lemma OtherDetailsChangeNothing(s: State, key: Key, canRun: bool, now: int, fate: Fate)
    requires key in s.queues && s.queues[key] != [] && key !in s.inFlight && !fate.Crashes?
    requires key in s.disk && Stranger(s.queues[key][0], s.disk[key])
    ensures Next(s, Start(key, canRun, now, fate)) == s.(queues := QueuesAfter(s, key))
  {
    StrangerWritesNothing(s, key, canRun, now);
  }

  // ---- the guard is exact ----

  /** Start the head of the queue and let it succeed. */
  function Round(key: Key, now: int): seq<Step> {
    [Start(key, true, now, Proceeds(2)), Reply(key, Success, now, true, true, false)]
  }

  function Rounds(key: Key, now: int, n: nat): seq<Step> {
    if n == 0 then [] else Round(key, now) + Rounds(key, now, n - 1)
  }

  lemma {:induction false} RunAppend(s: State, a: seq<Step>, b: seq<Step>)
    ensures Run(s, a + b) == Run(Run(s, a), b)
  {
    if b == [] {
      assert a + b == a;
    } else {
      var front := b[..|b| - 1];
      assert (a + b)[..|a + b| - 1] == a + front;
      RunAppend(s, a, front);
    }
  }

  ghost predicate Settled(s: State, key: Key, q: seq<Op>) {
    key in s.disk && key !in s.inFlight && Queue(s, key) == q && (key in s.queues ==> q != [])
  }

  /** One round takes the head off; it calls deliver if the head attempts. */
  lemma RoundRuns(s: State, key: Key, now: int, q: seq<Op>)
    requires Settled(s, key, q) && q != []
    ensures var t := Run(s, Round(key, now));
      Settled(t, key, q[1..])
      && if Writes(s, key, q[0], true, now) == [] then t.disk == s.disk && t.log == s.log
         else t.disk[key].status.Delivered? && Calls(t.log, key) == Calls(s.log, key) + 1
  {
    hide Writes, Next;
    TwoSteps(s, Round(key, now)[0], Round(key, now)[1]);
    HeadStarts(s, key, now, q);
    var t := Next(s, Round(key, now)[0]);
    if key in t.inFlight {
      HeadSucceeds(t, key, now);
    } else {
      NothingToReply(t, key, now);
    }
  }

  lemma TwoSteps(s: State, a: Step, b: Step)
    ensures Run(s, [a, b]) == Next(Next(s, a), b)
  {
    assert [a, b][..1] == [a] && [a][..0] == [];
    assert Run(s, []) == s;
    assert Run(s, [a]) == Next(s, a);
  }

  lemma NothingToReply(s: State, key: Key, now: int)
    requires key !in s.inFlight
    ensures Next(s, Reply(key, Success, now, true, true, false)) == s
  {
  }

  lemma HeadStarts(s: State, key: Key, now: int, q: seq<Op>)
    requires Settled(s, key, q) && q != []
    ensures var t := Next(s, Start(key, true, now, Proceeds(2)));
      key in t.disk && Queue(s, key) == q
      && if Writes(s, key, q[0], true, now) == [] then Settled(t, key, q[1..]) && t.disk == s.disk && t.log == s.log
         else key in t.inFlight && Queue(t, key) == q && Calls(t.log, key) == Calls(s.log, key) + 1
              && (key in t.queues ==> t.queues[key] != [])
  {
    hide Calls;
    CallsOfMore(s.log, Called(key, now), key);
    var writes := Writes(s, key, q[0], true, now);
    assert |writes| <= 1 && (writes != [] ==> writes[0].status.Processing?);
  }

  lemma HeadSucceeds(s: State, key: Key, now: int)
    requires key in s.inFlight && key in s.disk && Queue(s, key) != []
    ensures var t := Next(s, Reply(key, Success, now, true, true, false));
      Settled(t, key, Queue(s, key)[1..]) && t.disk[key].status.Delivered? && Calls(t.log, key) == Calls(s.log, key)
  {
    hide Calls;
    CallsOfMore(s.log, Answered(key, Success, now), key);
  }

  /** With the record closed, a tick operation still calls deliver. */
  lemma {:induction false} ClosedRounds(s: State, key: Key, now: int, q: seq<Op>)
    requires Settled(s, key, q) && !s.disk[key].status.Pending?
    ensures Calls(Run(s, Rounds(key, now, |q|)).log, key)
      >= Calls(s.log, key) + if q != [] && q[|q| - 1].TickOp? then 1 else 0
    decreases |q|
  {
    hide Settled, Calls, Run, Writes, Next;
    if q == [] {
      NoSteps(s);
    } else {
      var t := Run(s, Round(key, now));
      RoundRuns(s, key, now, q);
      RunAppend(s, Round(key, now), Rounds(key, now, |q| - 1));
      ClosedHead(s, key, now, q);
      ClosedRounds(t, key, now, q[1..]);
    }
  }

  lemma NoSteps(s: State)
    ensures Run(s, []) == s
  {
  }

  lemma ClosedHead(s: State, key: Key, now: int, q: seq<Op>)
    requires Settled(s, key, q) && !s.disk[key].status.Pending? && q != []
    ensures (Writes(s, key, q[0], true, now) == []) <==> q[0].RequestOp?
  {
  }

  lemma PendingHead(s: State, key: Key, now: int, q: seq<Op>)
    requires Settled(s, key, q) && s.disk[key].status.Pending? && !Waits(s.disk[key], now) && q != []
    ensures (Writes(s, key, q[0], true, now) == []) <==> Stranger(q[0], s.disk[key])
  {
  }

  /** With the record pending and due, the first operation that would attempt and
      the tick operation behind it both call deliver. */
  lemma {:induction false} PendingRounds(s: State, key: Key, now: int, q: seq<Op>)
    requires Settled(s, key, q) && q != [] && q[|q| - 1].TickOp?
    requires key in s.disk && s.disk[key].status.Pending? && !Waits(s.disk[key], now) &&
             !Idle(q[..|q| - 1], s.disk[key])
    ensures Calls(Run(s, Rounds(key, now, |q|)).log, key) >= Calls(s.log, key) + 2
    decreases |q|
  {
    hide Settled, Calls, Run, Writes, Next;
    var t := Run(s, Round(key, now));
    RoundRuns(s, key, now, q);
    RunAppend(s, Round(key, now), Rounds(key, now, |q| - 1));
    PendingHead(s, key, now, q);
    if Stranger(q[0], s.disk[key]) {
      assert |q| > 1;
      var i :| 0 <= i < |q| - 1 && !Stranger(q[i], s.disk[key]);
      assert q[1..][..|q| - 2][i - 1] == q[i];
      PendingRounds(t, key, now, q[1..]);
    } else {
      ClosedRounds(t, key, now, q[1..]);
    }
  }

  lemma NoTicksGuarded(s: State, steps: seq<Step>)
    requires forall i :: 0 <= i < |steps| ==> !steps[i].Tick?
    ensures AllGuarded(s, steps)
  {
  }

  lemma {:induction false} RoundsHaveNoTicks(key: Key, now: int, n: nat)
    ensures forall i :: 0 <= i < |Rounds(key, now, n)| ==> !Rounds(key, now, n)[i].Tick?
  {
    if n > 0 { RoundsHaveNoTicks(key, now, n - 1); }
  }

  /** From a safe state, a tick that picks a record keeps every continuation to one
      call exactly when nothing queued would attempt the record. */
  lemma GuardExact(s: State, base: map<Key, Record>, key: Key, now: int, write: bool)
    requires Inv(s, base) && Picks(s, key, true, now)
    ensures var t := Next(s, Step.Tick(key, true, now, write, false));
      Idle(Queue(s, key), s.disk[key])
      <==> forall steps :: AllGuarded(t, steps) ==> Calls(Run(t, steps).log, key) <= 1
  {
    var tick := Step.Tick(key, true, now, write, false);
    var t := Next(s, tick);
    if Idle(Queue(s, key), s.disk[key]) {
      StepSafe(s, base, tick);
      forall steps | AllGuarded(t, steps) ensures Calls(Run(t, steps).log, key) <= 1 {
        RunSafe(t, base, steps);
        assert KeySafe(Run(t, steps), base, key);
      }
    } else {
      var q := Queue(s, key) + [TickOp(s.disk[key])];
      assert KeySafe(s, base, key);
      assert q[..|q| - 1] == Queue(s, key);
      PendingRounds(t, key, now, q);
      RoundsHaveNoTicks(key, now, |q|);
      NoTicksGuarded(t, Rounds(key, now, |q|));
    }
  }

  /** Such a state is reached: a request waits for its permission, is repeated, and
      a tick comes before the repetition starts. The reward is given twice. */
  lemma RepeatedRequestRaces(key: Key, details: Details)
    ensures var steps := [Enqueue(key, details), Start(key, false, 0, Proceeds(2)), Enqueue(key, details)];
      var s := Run(Opened(map[]), steps);
      AllGuarded(Opened(map[]), steps) && Picks(s, key, true, 0) && !Idle(Queue(s, key), s.disk[key])
      && Calls(Run(Next(s, Step.Tick(key, true, 0, true, false)), Rounds(key, 0, 2)).log, key) == 2
  {
    var steps := [Enqueue(key, details), Start(key, false, 0, Proceeds(2)), Enqueue(key, details)];
    var empty := Opened(map[]);
    NoTicksGuarded(empty, steps);
    TwoSteps(empty, steps[0], steps[1]);
    assert steps[..2] == [steps[0], steps[1]];
    var s := Run(empty, steps);
    var r := Record(details, Pending, 0, None);
    RaceState(key, details);
    assert s.disk == map[key := r] && s.queues == map[key := [RequestOp(details)]] && s.inFlight == map[] &&
           s.log == [];
    var t := Next(s, Step.Tick(key, true, 0, true, false));
    var q := [RequestOp(details), TickOp(r)];
    assert Queue(s, key)[0] == RequestOp(details);
    assert q[..1] == [RequestOp(details)] && q[0] == q[..1][0];
    PendingRounds(t, key, 0, q);
    RoundsAtMost(t, key, 0, q);
  }

  lemma RaceState(key: Key, details: Details)
    ensures var s := Next(Next(Next(Opened(map[]), Enqueue(key, details)), Start(key, false, 0, Proceeds(2))),
        Enqueue(key, details));
      s.disk == map[key := Record(details, Pending, 0, None)] && s.queues == map[key := [RequestOp(details)]]
      && s.inFlight == map[] && s.log == []
  {
    assert OfAddon(map[], key.addon) == {};
    assert [] + [RequestOp(details)] == [RequestOp(details)];
    var a := Next(Opened(map[]), Enqueue(key, details));
    assert a.queues == map[key := [RequestOp(details)]];
    var b := Next(a, Start(key, false, 0, Proceeds(2)));
    assert b.queues == map[] && b.disk == map[key := Record(details, Pending, 0, None)];
    assert Queue(b, key) == [];
  }

  /** A round calls deliver at most once. */
  lemma {:induction false} RoundsAtMost(s: State, key: Key, now: int, q: seq<Op>)
    requires Settled(s, key, q)
    ensures Calls(Run(s, Rounds(key, now, |q|)).log, key) <= Calls(s.log, key) + |q|
    decreases |q|
  {
    hide Settled, Calls, Run, Writes, Next;
    if q == [] {
      NoSteps(s);
    } else {
      RoundRuns(s, key, now, q);
      RunAppend(s, Round(key, now), Rounds(key, now, |q| - 1));
      RoundsAtMost(Run(s, Round(key, now)), key, now, q[1..]);
    }
  }
}
