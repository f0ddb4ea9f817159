/** What the answers of the deliver calls leave behind, when an operation calls
    deliver at all, and how long a deferred one rests. */
module DeliveryOutcomes {
  import opened Wrappers
  import opened Deliveries

  // ---- one step ----

  /** The record that each answer leaves, by which of its writes go well. A success
      that cannot be written down becomes a failure, never a second attempt; the
      service dying afterwards changes nothing about it. */
  lemma ReplyLeaves(s: State, key: Key, answer: Answer, now: int, first: bool, second: bool, dies: bool)
    requires key in s.inFlight
    ensures var disk := Next(s, Reply(key, answer, now, first, second, dies)).disk;
      var called := s.inFlight[key];
      && disk - {key} == s.disk - {key}
      && (answer == Success && first ==> disk == s.disk[key := called.(status := Delivered)])
      && (answer == Success && !first && second ==> disk == s.disk[key := called.(status := Failed)])
      && (answer == Success && !first && !second ==> disk == s.disk)
      && (answer == Failure && first ==> disk == s.disk[key := called.(status := Failed)])
      && (answer == Failure && !first ==> disk == s.disk)
      && (answer == Deferral && first ==>
            disk == s.disk[key := called.(status := Pending, nextAttempt := Some(now + 30_000))])
      && (answer == Deferral && !first ==> disk == s.disk)
  {
    hide QueuesAfter;
  }

  /** A step adds at most one event: a call, by a start that is permitted, or the
      answer to a call that is out. */
  lemma LogGrows(s: State, step: Step)
    ensures var t := Next(s, step);
      || t.log == s.log
      || (step.Start? && step.canRun && t.log == s.log + [Called(step.key, step.now)])
      || (step.Reply? && step.key in s.inFlight && t.log == s.log + [Answered(step.key, step.answer, step.now)])
  {
    hide Written, CountsAfter, IndexAfter, QueuesAfter, Outcome, CountNow;
    match step
    case Enqueue(_, _) =>
    case Start(_, _, _, _) =>
    case Reply(_, _, _, _, _, _) =>
    case Tick(key, canRun, now, write, dies) => TickLogsNothing(s, key, canRun, now, write, dies);
    case Crash =>
  }

  lemma TickLogsNothing(s: State, key: Key, canRun: bool, now: int, write: bool, dies: bool)
    ensures AfterTick(s, key, canRun, now, write, dies).log == s.log
  {
    match Visited(Loaded(s), key, canRun, now, write)
    case Forget =>
    case Leave =>
    case Mark =>
    case Pick =>
  }

  /** When all writes go well, the operation at the head of a queue calls deliver
      exactly if it may run and either comes from a tick, repeats a pending request
      with the same details that is due, or is a first request of an add-on that is
      not full. The file then says that it is processing, one attempt more. */
  lemma CallsExactly(s: State, key: Key, canRun: bool, now: int)
    requires key in s.queues && s.queues[key] != [] && key !in s.inFlight
    ensures var t := Next(s, Start(key, canRun, now, Proceeds(2)));
      var op := s.queues[key][0];
      && (t.log == s.log + [Called(key, now)] <==>
           canRun && (
             || op.TickOp?
             || (key in s.disk && op.details == s.disk[key].details && s.disk[key].status == Pending &&
                 (s.disk[key].nextAttempt.None? || s.disk[key].nextAttempt.value <= now))
             || (key !in s.disk && CountNow(s, key.addon) < 100_000)))
      && (t.log != s.log ==>
            key in t.disk && t.disk[key].status == Processing && t.disk[key] == t.inFlight[key] &&
            t.disk[key].attempts == 1 + if key in s.disk then s.disk[key].attempts
                                        else if op.TickOp? then op.seen.attempts else 0)
  {
    hide CountsAfter, IndexAfter, QueuesAfter, CountNow;
    assert s.log != s.log + [Called(key, now)];
  }

  /** A tick makes an unclaimed processing record uncertain, hands a pending record
      that is due and permitted to its queue, and forgets what is closed or gone. */
  lemma TickExactly(s: State, key: Key, canRun: bool, now: int, write: bool)
    ensures var t := Next(s, Step.Tick(key, canRun, now, write, false));
      && t.log == s.log && t.inFlight == s.inFlight
      && (key in s.disk && s.disk[key].status == Processing && key !in s.queues && write ==>
            t.disk == s.disk[key := s.disk[key].(status := Uncertain)] && key !in t.pendingKeys)
      && (key in s.disk && s.disk[key].status == Pending && canRun &&
          (s.disk[key].nextAttempt.None? || s.disk[key].nextAttempt.value <= now) ==>
            t.disk == s.disk && Queue(t, key) == Queue(s, key) + [TickOp(s.disk[key])])
      && (!(key in s.disk && s.disk[key].status == Processing && key !in s.queues && write) ==> t.disk == s.disk)
      && (key !in s.disk || s.disk[key].status != Pending || !canRun || Waits(s.disk[key], now) ==>
            t.queues == s.queues)
      && (key !in s.disk || s.disk[key].status in {Delivered, Failed, Uncertain} ==> key !in t.pendingKeys)
  {
    hide Loaded;
    LoadedSame(s);
    match Visited(Loaded(s), key, canRun, now, write)
    case Forget =>
    case Leave =>
    case Mark =>
    case Pick =>
  }

  /** Listing the files touches the index only. */
  lemma LoadedSame(s: State)
    ensures Loaded(s) == s.(loaded := true, pendingKeys := Loaded(s).pendingKeys)
  {
  }

  // ---- whole runs: answers ----

  function Last(log: seq<Event>, key: Key): Option<Event> {
    if log == [] then None
    else if log[|log| - 1].key == key then Some(log[|log| - 1])
    else Last(log[..|log| - 1], key)
  }

  /** How often deliver was called for the key. */
  function Tries(log: seq<Event>, key: Key): nat {
    if log == [] then 0
    else
      var e := log[|log| - 1];
      Tries(log[..|log| - 1], key) + if e.Called? && e.key == key then 1 else 0
  }

  lemma LastOfMore(log: seq<Event>, e: Event, key: Key)
    ensures Last(log + [e], key) == if e.key == key then Some(e) else Last(log, key)
    ensures Tries(log + [e], key) == Tries(log, key) + if e.Called? && e.key == key then 1 else 0
  {
    assert (log + [e])[..|log|] == log;
  }

  /** The key had its last call answered so. */
  predicate LastAnswer(log: seq<Event>, key: Key, answer: Answer) {
    var last := Last(log, key);
    last.Some? && last.value.Answered? && last.value.answer == answer
  }

  predicate StatusWas(base: map<Key, Record>, key: Key, status: Status) { key in base && base[key].status == status }

  function AttemptsBefore(base: map<Key, Record>, key: Key): nat { if key in base then base[key].attempts else 0 }

  /** What the record of a key tells about its calls. */
  ghost predicate Told(s: State, base: map<Key, Record>, key: Key) {
    var last := Last(s.log, key);
    && (key !in s.disk ==> last == None && Tries(s.log, key) == 0)
    && (key in s.inFlight ==> last.Some? && last.value.Called?)
    && (key in s.disk ==> RecordTold(s, base, key, s.disk[key]))
  }

  ghost predicate RecordTold(s: State, base: map<Key, Record>, key: Key, r: Record) {
    var last := Last(s.log, key);
    && (r.status == Delivered && !StatusWas(base, key, Delivered) ==> LastAnswer(s.log, key, Success))
    && (r.status == Failed && !StatusWas(base, key, Failed) ==>
          LastAnswer(s.log, key, Failure) || LastAnswer(s.log, key, Success))
    && (r.status == Pending ==>
          last == None || (LastAnswer(s.log, key, Deferral) && r.nextAttempt == Some(last.value.at + 30_000)))
    && (r.status in {Pending, Delivered, Failed} || key in s.inFlight ==>
          r.attempts == AttemptsBefore(base, key) + Tries(s.log, key))
  }

  /** What the head of a queue writes: nothing, an attempt of the pending record, or
      a first record and perhaps its attempt. */
  ghost predicate HeadWritten(disk: map<Key, Record>, key: Key, writes: seq<Record>) {
    || writes == []
    || (key in disk && disk[key].status.Pending? && writes == [Attempting(disk[key])])
    || (key !in disk && writes[0].status.Pending? && writes[0].attempts == 0 &&
        (writes == [writes[0]] || writes == [writes[0], Attempting(writes[0])]))
  }

  lemma HeadWrites(s: State, key: Key, canRun: bool, now: int)
    requires QueueSafe(s, key) && key in s.queues && s.queues[key] != [] && key !in s.inFlight
    ensures HeadWritten(s.disk, key, Writes(s, key, s.queues[key][0], canRun, now))
  {
    hide CountNow;
    assert Queue(s, key)[0] == s.queues[key][0];
  }

  /** Where neither the log nor the record of the key changes, nor a call of it goes
      out, its record tells the same. */
  lemma ToldAlike(s: State, t: State, base: map<Key, Record>, key: Key)
    requires Told(s, base, key) && Last(t.log, key) == Last(s.log, key) && Tries(t.log, key) == Tries(s.log, key)
    requires key in t.disk <==> key in s.disk
    requires key in s.disk ==> t.disk[key] == s.disk[key]
    requires key in t.inFlight ==> key in s.inFlight
    ensures Told(t, base, key)
  {
    hide Last, Tries;
  }

  lemma WrittenTold(s: State, t: State, base: map<Key, Record>, key: Key, writes: seq<Record>, good: nat)
    requires KeySafe(s, base, key) && Told(s, base, key) && key !in s.inFlight && key !in t.inFlight
    requires HeadWritten(s.disk, key, writes) && good <= |writes|
    requires t.disk == Written(s.disk, key, writes, good) && t.log == s.log
    ensures Told(t, base, key)
  {
    hide Last, Tries, Calls;
  }

  lemma CallingTold(s: State, base: map<Key, Record>, key: Key, op: Op, writes: seq<Record>, now: int)
    requires KeySafe(s, base, key) && Told(s, base, key) && key !in s.inFlight
    requires HeadWritten(s.disk, key, writes) && writes != [] && writes[|writes| - 1].status.Processing?
    ensures Told(Calling(s, key, op, writes, now), base, key)
  {
    hide Last, Tries, Calls, CountsAfter, IndexAfter;
    LastOfMore(s.log, Called(key, now), key);
  }

  lemma StartTold(s: State, base: map<Key, Record>, key: Key, canRun: bool, now: int, fate: Fate)
    requires KeySafe(s, base, key) && QueueSafe(s, key) && Told(s, base, key)
    ensures Told(Next(s, Start(key, canRun, now, fate)), base, key)
  {
    hide KeySafe, QueueSafe, Told, Writes, HeadWritten, Written, Calling;
    var t := Next(s, Start(key, canRun, now, fate));
    if key in s.queues && s.queues[key] != [] && key !in s.inFlight {
      var op := s.queues[key][0];
      var writes := Writes(s, key, op, canRun, now);
      HeadWrites(s, key, canRun, now);
      match fate
      case Crashes(n) => WrittenTold(s, t, base, key, writes, if n <= |writes| then n else |writes|);
      case Proceeds(n) =>
        if n < |writes| {
          WrittenTold(s, t, base, key, writes, n);
        } else if writes != [] && writes[|writes| - 1].status.Processing? {
          CallingTold(s, base, key, op, writes, now);
        } else {
          WrittenTold(s, t, base, key, writes, |writes|);
        }
    }
  }

  lemma ReplyTold(s: State, base: map<Key, Record>, key: Key, answer: Answer, now: int, first: bool, second: bool,
      dies: bool)
    requires KeySafe(s, base, key) && Told(s, base, key)
    ensures Told(Next(s, Reply(key, answer, now, first, second, dies)), base, key)
  {
    hide Last, Tries, Calls, QueuesAfter;
    LastOfMore(s.log, Answered(key, answer, now), key);
  }

  lemma TickTold(s: State, base: map<Key, Record>, key: Key, canRun: bool, now: int, write: bool, dies: bool)
    requires KeySafe(s, base, key) && QueueSafe(s, key) && Told(s, base, key)
    ensures Told(Next(s, Step.Tick(key, canRun, now, write, dies)), base, key)
  {
    hide Last, Tries, Calls, Loaded, Told, QueueSafe;
    LoadedSame(s);
    var t := Next(s, Step.Tick(key, canRun, now, write, dies));
    match Visited(Loaded(s), key, canRun, now, write)
    case Forget => ToldAlike(s, t, base, key);
    case Leave => ToldAlike(s, t, base, key);
    case Mark => MarkedTold(s, t, base, key);
    case Pick => ToldAlike(s, t, base, key);
  }

  lemma MarkedTold(s: State, t: State, base: map<Key, Record>, key: Key)
    requires Told(s, base, key) && key in s.disk && t.log == s.log
    requires t.disk == s.disk[key := s.disk[key].(status := Uncertain)]
    requires key !in t.inFlight || (key in s.inFlight && key in t.inFlight)
    ensures Told(t, base, key)
  {
    hide Last, Tries;
  }

  /** Steps about other keys. */
  lemma OtherTold(s: State, base: map<Key, Record>, step: Step, k: Key)
    requires Told(s, base, k) && !step.Crash? && k != step.key
    ensures Told(Next(s, step), base, k)
  {
    hide Told, Last, Tries;
    var t := Next(s, step);
    OtherDisk(s, step, k);
    LogGrows(s, step);
    if t.log != s.log {
      var e := t.log[|s.log|];
      assert t.log == s.log + [e];
      LastOfMore(s.log, e, k);
    }
    ToldAlike(s, t, base, k);
  }

  /** A step leaves the records, the calls and the queues of other keys alone. */
  lemma OtherDisk(s: State, step: Step, k: Key)
    requires !step.Crash? && k != step.key
    ensures var t := Next(s, step);
      && (k in t.disk <==> k in s.disk) && (k in s.disk ==> t.disk[k] == s.disk[k])
      && (k in t.inFlight ==> k in s.inFlight)
      && ((Queue(t, k) == Queue(s, k) && (k in s.inFlight ==> k in t.inFlight)) || Queue(t, k) == [])
  {
    hide AfterTick, AfterStart, Writes, Calls, Outcome;
    match step
    case Enqueue(_, _) =>
    case Start(key, canRun, now, fate) =>
      if key in s.queues && s.queues[key] != [] && key !in s.inFlight {
        StartElsewhere(s, key, s.queues[key][0], Writes(s, key, s.queues[key][0], canRun, now), now, fate, k);
      }
    case Reply(key, _, _, _, _, _) => TailElsewhere(s.queues, key, k);
    case Tick(key, canRun, now, write, dies) => TickElsewhere(s, key, canRun, now, write, dies, k);
  }

  lemma StepTold(s: State, base: map<Key, Record>, step: Step, k: Key)
    requires Inv(s, base) && Told(s, base, k)
    ensures Told(Next(s, step), base, k)
  {
    hide KeySafe, QueueSafe, MemorySafe, Told, Next;
    assert KeySafe(s, base, k) && QueueSafe(s, k);
    if step.Crash? {
      CrashTold(s, base, k);
    } else if k != step.key {
      OtherTold(s, base, step, k);
    } else {
      match step
      case Enqueue(key, details) => EnqueueTold(s, base, key, details);
      case Start(key, canRun, now, fate) => StartTold(s, base, key, canRun, now, fate);
      case Reply(key, answer, now, first, second, dies) => ReplyTold(s, base, key, answer, now, first, second, dies);
      case Tick(key, canRun, now, write, dies) => TickTold(s, base, key, canRun, now, write, dies);
    }
  }

  lemma CrashTold(s: State, base: map<Key, Record>, k: Key)
    requires Told(s, base, k)
    ensures Told(Next(s, Crash), base, k)
  {
    hide Last, Tries;
  }

  lemma EnqueueTold(s: State, base: map<Key, Record>, key: Key, details: Details)
    requires Told(s, base, key)
    ensures Told(Next(s, Enqueue(key, details)), base, key)
  {
    hide Last, Tries;
  }

  lemma {:induction false} RunTold(disk: map<Key, Record>, steps: seq<Step>, key: Key)
    requires WithinLimit(disk) && AllGuarded(Opened(disk), steps)
    ensures Told(Run(Opened(disk), steps), disk, key)
  {
    hide Inv, Told;
    if steps == [] {
      OpenedTold(disk, key);
    } else {
      var front, step := steps[..|steps| - 1], steps[|steps| - 1];
      FrontGuarded(Opened(disk), steps);
      RunTold(disk, front, key);
      OpenedSafe(disk);
      RunSafe(Opened(disk), disk, front);
      StepTold(Run(Opened(disk), front), disk, step, key);
    }
  }

  lemma OpenedTold(disk: map<Key, Record>, key: Key)
    ensures Told(Opened(disk), disk, key)
  {
  }

  lemma FrontGuarded(s: State, steps: seq<Step>)
    requires AllGuarded(s, steps) && steps != []
    ensures AllGuarded(s, steps[..|steps| - 1])
  {
    var front := steps[..|steps| - 1];
    forall i | 0 <= i < |front| ensures Guarded(Run(s, front[..i]), front[i]) {
      assert front[..i] == steps[..i] && front[i] == steps[i];
    }
  }

  /** Over every guarded run, whatever fails and whenever it dies: a record that has
      become delivered had its last call answered by a success, one that has failed
      by a failure or by a success that could not be written down, and one that is
      pending has not been tried or was deferred, to just half a minute after that
      answer. A record that is at rest counts every call there was. */
  lemma StatusTellsAnswer(disk: map<Key, Record>, steps: seq<Step>, key: Key)
    requires WithinLimit(disk) && AllGuarded(Opened(disk), steps)
    requires key in Run(Opened(disk), steps).disk
    ensures var s := Run(Opened(disk), steps);
      var r, last := s.disk[key], Last(s.log, key);
      && (r.status == Delivered && !StatusWas(disk, key, Delivered) ==> LastAnswer(s.log, key, Success))
      && (r.status == Failed && !StatusWas(disk, key, Failed) ==>
            LastAnswer(s.log, key, Failure) || LastAnswer(s.log, key, Success))
      && (r.status == Pending ==>
            last == None || (LastAnswer(s.log, key, Deferral) && r.nextAttempt == Some(last.value.at + 30_000)))
      && (r.status in {Pending, Delivered, Failed} ==>
            r.attempts == AttemptsBefore(disk, key) + Tries(s.log, key))
  {
    hide Run, Last, Tries, AllGuarded;
    RunTold(disk, steps, key);
  }

  // ---- whole runs: time ----

  /** When a step happens, for those that look at the clock. */
  function TimeOf(step: Step): Option<int> {
    match step
    case Start(_, _, now, _) => Some(now)
    case Reply(_, _, now, _, _, _) => Some(now)
    case Tick(_, _, now, _, _) => Some(now)
    case Enqueue(_, _) => None
    case Crash => None
  }

  /** The clock never goes back. */
  predicate Forward(steps: seq<Step>) {
    forall i, j :: 0 <= i < j < |steps| && TimeOf(steps[i]).Some? && TimeOf(steps[j]).Some? ==>
      TimeOf(steps[i]).value <= TimeOf(steps[j]).value
  }

  predicate NoLater(steps: seq<Step>, clock: int) {
    forall i :: 0 <= i < |steps| && TimeOf(steps[i]).Some? ==> TimeOf(steps[i]).value <= clock
  }

  predicate DeferredAt(e: Event, key: Key) { e.Answered? && e.key == key && e.answer == Deferral }

  /** What rests, up to a time: the key's deferred record, and the events of the key. */
  ghost predicate Rested(s: State, key: Key, clock: int) {
    && (forall i :: 0 <= i < |s.log| ==> s.log[i].at <= clock)
    && (key !in s.disk ==> forall i :: 0 <= i < |s.log| ==> s.log[i].key != key)
    && (key in s.disk && s.disk[key].status.Pending? ==>
          forall i :: 0 <= i < |s.log| && DeferredAt(s.log[i], key) ==> RestsFrom(s.disk[key], s.log[i].at))
    && (forall i :: 0 <= i < |Queue(s, key)| && Queue(s, key)[i].TickOp? && !(i == 0 && key in s.inFlight) ==>
          key in s.disk && !Waits(s.disk[key], clock))
    && CallsRested(s.log, key)
  }

  predicate RestsFrom(r: Record, at: int) { r.nextAttempt.Some? && at + 30_000 <= r.nextAttempt.value }

  predicate CallsRested(log: seq<Event>, key: Key) {
    forall i, j :: 0 <= i < j < |log| && DeferredAt(log[i], key) && log[j].Called? && log[j].key == key ==>
      log[i].at + 30_000 <= log[j].at
  }

  lemma RestedLater(s: State, key: Key, clock: int, later: int)
    requires Rested(s, key, clock) && clock <= later
    ensures Rested(s, key, later)
  {
  }

  lemma CallsRestedMore(log: seq<Event>, e: Event, key: Key)
    requires CallsRested(log, key)
    requires e.Called? && e.key == key ==>
               forall i :: 0 <= i < |log| && DeferredAt(log[i], key) ==> log[i].at + 30_000 <= e.at
    ensures CallsRested(log + [e], key)
  {
  }

  lemma OtherRested(s: State, step: Step, k: Key, clock: int)
    requires Rested(s, k, clock) && !step.Crash? && k != step.key
    requires TimeOf(step).Some? ==> TimeOf(step).value <= clock
    ensures Rested(Next(s, step), k, clock)
  {
    hide Next;
    var t := Next(s, step);
    OtherDisk(s, step, k);
    LogGrows(s, step);
    if t.log != s.log {
      CallsRestedMore(s.log, t.log[|s.log|], k);
      assert t.log == s.log + [t.log[|s.log|]];
    }
  }

  lemma CrashRested(s: State, k: Key, clock: int)
    requires Rested(s, k, clock)
    ensures Rested(Next(s, Crash), k, clock)
  {
    hide CallsRested;
  }

  lemma EnqueueRested(s: State, key: Key, details: Details, clock: int)
    requires Rested(s, key, clock)
    ensures Rested(Next(s, Enqueue(key, details)), key, clock)
  {
    hide CallsRested, Waits;
    var t := Next(s, Enqueue(key, details));
    assert Queue(t, key) == Queue(s, key) + [RequestOp(details)];
  }

  lemma TickRested(s: State, base: map<Key, Record>, key: Key, canRun: bool, clock: int, write: bool, dies: bool)
    requires KeySafe(s, base, key) && QueueSafe(s, key) && Rested(s, key, clock)
    ensures Rested(Next(s, Step.Tick(key, canRun, clock, write, dies)), key, clock)
  {
    hide CallsRested, RestsFrom, Calls, Loaded;
    LoadedSame(s);
    var t := Next(s, Step.Tick(key, canRun, clock, write, dies));
    match Visited(Loaded(s), key, canRun, clock, write)
    case Forget => assert Queue(t, key) == Queue(s, key);
    case Leave => assert Queue(t, key) == Queue(s, key);
    case Mark =>
    case Pick =>
      assert Queue(t, key) == Queue(s, key) + [TickOp(s.disk[key])];
  }

  lemma ReplyRested(s: State, base: map<Key, Record>, key: Key, answer: Answer, clock: int, first: bool, second: bool,
      dies: bool)
    requires KeySafe(s, base, key) && QueueSafe(s, key) && Rested(s, key, clock)
    ensures Rested(Next(s, Reply(key, answer, clock, first, second, dies)), key, clock)
  {
    hide CallsRested, Calls;
    var t := Next(s, Reply(key, answer, clock, first, second, dies));
    if key in s.inFlight {
      CallsRestedMore(s.log, Answered(key, answer, clock), key);
      var q := Queue(s, key);
      assert Queue(t, key) == [] || Queue(t, key) == q[1..];
      assert forall i :: 0 < i < |q| ==> q[i].RequestOp?;
    }
  }

  /** An attempt of a record there is comes when the record is due. */
  lemma HeadDue(s: State, key: Key, canRun: bool, clock: int)
    requires QueueSafe(s, key) && Rested(s, key, clock)
    requires key in s.queues && s.queues[key] != [] && key !in s.inFlight && key in s.disk
    ensures Writes(s, key, s.queues[key][0], canRun, clock) != [] ==> !Waits(s.disk[key], clock)
  {
    assert Queue(s, key)[0] == s.queues[key][0];
  }

  lemma TailRested(s: State, t: State, key: Key, clock: int)
    requires Rested(s, key, clock) && key in s.queues && s.queues[key] != [] && key !in s.inFlight
    requires t.queues == QueuesAfter(s, key) && t.log == s.log && t.inFlight == s.inFlight
    requires forall i :: 0 < i < |s.queues[key]| && s.queues[key][i].TickOp? ==>
               key in t.disk && key in s.disk && t.disk[key] == s.disk[key]
    requires key in s.disk ==> key in t.disk
    requires key in t.disk && t.disk[key].status.Pending? ==>
               key !in s.disk || (s.disk[key].status.Pending? && t.disk[key].nextAttempt == s.disk[key].nextAttempt)
    ensures Rested(t, key, clock)
  {
    hide CallsRested;
    assert Queue(t, key) == s.queues[key][1..];
    forall i | 0 <= i < |Queue(t, key)| && Queue(t, key)[i].TickOp?
      ensures key in t.disk && !Waits(t.disk[key], clock)
    {
      assert Queue(s, key)[i + 1].TickOp?;
    }
  }

  lemma DiesRested(s: State, key: Key, writes: seq<Record>, good: nat, clock: int)
    requires Rested(s, key, clock) && HeadWritten(s.disk, key, writes) && good <= |writes|
    ensures Rested(Restarted(s, Written(s.disk, key, writes, good)), key, clock)
  {
    hide CallsRested, RestsFrom;
  }

  lemma EndedRested(s: State, key: Key, canRun: bool, good: nat, clock: int)
    requires QueueSafe(s, key) && Rested(s, key, clock)
    requires key in s.queues && s.queues[key] != [] && key !in s.inFlight
    requires HeadWritten(s.disk, key, Writes(s, key, s.queues[key][0], canRun, clock))
    requires good <= |Writes(s, key, s.queues[key][0], canRun, clock)|
    requires good > 0 ==> Writes(s, key, s.queues[key][0], canRun, clock)[good - 1].status.Pending?
    ensures Rested(Ended(s, key, s.queues[key][0], Writes(s, key, s.queues[key][0], canRun, clock), good), key, clock)
  {
    hide Writes, CountsAfter, IndexAfter, TailOf, RestsFrom, CallsRested, Rested, QueueSafe;
    var writes := Writes(s, key, s.queues[key][0], canRun, clock);
    var t := Ended(s, key, s.queues[key][0], writes, good);
    forall i | 0 < i < |s.queues[key]| && s.queues[key][i].TickOp?
      ensures key in t.disk && key in s.disk && t.disk[key] == s.disk[key]
    {
      HeadIdle(s, key, i, canRun, clock);
      TickHasRecord(s, key, i);
    }
    TailRested(s, t, key, clock);
  }

  lemma TickHasRecord(s: State, key: Key, i: nat)
    requires QueueSafe(s, key) && key in s.queues && key !in s.inFlight
    requires i < |s.queues[key]| && s.queues[key][i].TickOp?
    ensures key in s.disk
  {
    assert Queue(s, key)[i].TickOp?;
  }

  lemma CallingRested(s: State, key: Key, canRun: bool, clock: int)
    requires QueueSafe(s, key) && Rested(s, key, clock)
    requires key in s.queues && s.queues[key] != [] && key !in s.inFlight
    requires var writes := Writes(s, key, s.queues[key][0], canRun, clock);
             HeadWritten(s.disk, key, writes) && writes != [] && writes[|writes| - 1].status.Processing?
    ensures var writes := Writes(s, key, s.queues[key][0], canRun, clock);
            Rested(Calling(s, key, s.queues[key][0], writes, clock), key, clock)
  {
    hide Writes, CountsAfter, IndexAfter, QueueSafe;
    var writes := Writes(s, key, s.queues[key][0], canRun, clock);
    var t := Calling(s, key, s.queues[key][0], writes, clock);
    if key in s.disk { HeadDue(s, key, canRun, clock); }
    CallsRestedMore(s.log, Called(key, clock), key);
    assert Queue(t, key) == s.queues[key];
    forall i | 0 < i < |s.queues[key]| ensures s.queues[key][i].RequestOp? { HeadIdle(s, key, i, canRun, clock); }
  }

  lemma StartRested(s: State, key: Key, canRun: bool, clock: int, fate: Fate)
    requires QueueSafe(s, key) && Rested(s, key, clock)
    ensures Rested(Next(s, Start(key, canRun, clock, fate)), key, clock)
  {
    hide QueueSafe, Rested, Writes, Written, Calling, Ended, HeadWritten;
    if key in s.queues && s.queues[key] != [] && key !in s.inFlight {
      var writes := Writes(s, key, s.queues[key][0], canRun, clock);
      HeadWrites(s, key, canRun, clock);
      WritesEnd(s.disk, key, writes);
      match fate
      case Crashes(n) => DiesRested(s, key, writes, if n <= |writes| then n else |writes|, clock);
      case Proceeds(n) =>
        if n >= |writes| && writes != [] && writes[|writes| - 1].status.Processing? {
          CallingRested(s, key, canRun, clock);
        } else {
          EndedRested(s, key, canRun, if n < |writes| then n else |writes|, clock);
        }
    }
  }

  lemma WritesEnd(disk: map<Key, Record>, key: Key, writes: seq<Record>)
    requires HeadWritten(disk, key, writes)
    ensures forall n :: 0 <= n < |writes| - 1 ==> writes[n].status.Pending?
    ensures writes != [] && !writes[|writes| - 1].status.Processing? ==> writes[|writes| - 1].status.Pending?
  {
  }

  lemma StepRested(s: State, base: map<Key, Record>, step: Step, k: Key, clock: int)
    requires Inv(s, base) && Rested(s, k, clock)
    requires TimeOf(step).Some? ==> TimeOf(step).value == clock
    ensures Rested(Next(s, step), k, clock)
  {
    hide KeySafe, QueueSafe, MemorySafe, Rested, Next;
    assert KeySafe(s, base, k) && QueueSafe(s, k);
    if step.Crash? {
      CrashRested(s, k, clock);
    } else if k != step.key {
      OtherRested(s, step, k, clock);
    } else {
      match step
      case Enqueue(key, details) => EnqueueRested(s, key, details, clock);
      case Start(key, canRun, now, fate) => StartRested(s, key, canRun, now, fate);
      case Reply(key, answer, now, first, second, dies) =>
        ReplyRested(s, base, key, answer, now, first, second, dies);
      case Tick(key, canRun, now, write, dies) => TickRested(s, base, key, canRun, now, write, dies);
    }
  }

  lemma {:induction false} RunRested(disk: map<Key, Record>, steps: seq<Step>, key: Key, clock: int)
    requires WithinLimit(disk) && AllGuarded(Opened(disk), steps) && Forward(steps) && NoLater(steps, clock)
    ensures Rested(Run(Opened(disk), steps), key, clock)
  {
    hide Inv, Rested;
    if steps == [] {
      OpenedRested(disk, key, clock);
    } else {
      var front, step := steps[..|steps| - 1], steps[|steps| - 1];
      var now := if TimeOf(step).Some? then TimeOf(step).value else clock;
      assert NoLater(front, now) by {
        forall i | 0 <= i < |front| && TimeOf(front[i]).Some? ensures TimeOf(front[i]).value <= now {
          assert front[i] == steps[i];
        }
      }
      assert Forward(front) by {
        assert forall i :: 0 <= i < |front| ==> front[i] == steps[i];
      }
      FrontGuarded(Opened(disk), steps);
      RunRested(disk, front, key, now);
      OpenedSafe(disk);
      RunSafe(Opened(disk), disk, front);
      StepRested(Run(Opened(disk), front), disk, step, key, now);
      RestedLater(Run(Opened(disk), steps), key, now, clock);
    }
  }

  lemma OpenedRested(disk: map<Key, Record>, key: Key, clock: int)
    ensures Rested(Opened(disk), key, clock)
  {
  }

  /** Over every guarded run whose clock does not go back, no call follows a
      deferral of its request within half a minute. */
  lemma DeferredRests(disk: map<Key, Record>, steps: seq<Step>, key: Key, i: nat, j: nat)
    requires WithinLimit(disk) && AllGuarded(Opened(disk), steps) && Forward(steps)
    requires i < j < |Run(Opened(disk), steps).log|
    requires Run(Opened(disk), steps).log[i].key == key == Run(Opened(disk), steps).log[j].key
    requires Run(Opened(disk), steps).log[i].Answered? && Run(Opened(disk), steps).log[i].answer == Deferral
    requires Run(Opened(disk), steps).log[j].Called?
    ensures Run(Opened(disk), steps).log[i].at + 30_000 <= Run(Opened(disk), steps).log[j].at
  {
    hide Run, AllGuarded, WithinLimit;
    var clock := LatestTime(steps);
    RunRested(disk, steps, key, clock);
  }

  lemma {:induction false} LatestTime(steps: seq<Step>) returns (clock: int)
    ensures NoLater(steps, clock)
  {
    clock := 0;
    if steps != [] {
      var front, step := steps[..|steps| - 1], steps[|steps| - 1];
      clock := LatestTime(front);
      clock := if TimeOf(step).Some? && TimeOf(step).value > clock then TimeOf(step).value else clock;
      assert forall i :: 0 <= i < |front| ==> front[i] == steps[i];
    }
  }
}
