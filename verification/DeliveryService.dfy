/** The delivery service in its own form: an object that changes its index, counts,
    queues and files step by step. Each method is what runs between two awaits and
    is proved to make exactly one step of the machine in Deliveries. */
module DeliveryService {
  import opened Wrappers
  import opened Deliveries

  /** Only a request without a record touches the index and the counts. */
  lemma MemoryUntouched(s: State, key: Key, op: Op)
    ensures op.TickOp? || key in s.disk ==> forall wrote ::
      CountsAfter(s, key, op, wrote) == s.counts && IndexAfter(s, key, op, wrote) == s.pendingKeys
  {
  }

  class Service {
    var disk: map<Key, Record>
    var pendingKeys: set<Key>
    var loaded: bool
    var counts: map<string, nat>
    var queues: map<Key, seq<Op>>
    var inFlight: map<Key, Record>
    ghost var log: seq<Event>

    ghost function S(): State
      reads this
    {
      State(disk, pendingKeys, loaded, counts, queues, inFlight, log)
    }

    constructor (files: map<Key, Record>)
      ensures S() == Opened(files)
    {
      disk, pendingKeys, loaded, counts, queues, inFlight, log := files, {}, false, map[], map[], map[], [];
    }

    method Restart()
      modifies this
      ensures S() == Next(old(S()), Crash)
    {
      pendingKeys, loaded, counts, queues, inFlight := {}, false, map[], map[], map[];
    }

    /** serialize: the operation goes behind those of its key. */
    method Serialize(key: Key, op: Op)
      modifies this`queues
      ensures S() == old(S()).(queues := old(S()).queues[key := Queue(old(S()), key) + [op]])
    {
      var waiting := if key in queues then queues[key] else [];
      queues := queues[key := waiting + [op]];
    }

    method Request(key: Key, details: Details)
      modifies this`queues
      ensures S() == Next(old(S()), Enqueue(key, details))
    {
      Serialize(key, RequestOp(details));
    }

    /** The operation is over and leaves its queue. */
    method Finish(key: Key)
      modifies this`queues
      ensures queues == TailOf(old(queues), key)
    {
      var waiting := if key in queues then queues[key] else [];
      if |waiting| <= 1 {
        queues := queues - {key};
      } else {
        queues := queues[key := waiting[1..]];
      }
    }

    method DeliveryCount(addon: string) returns (n: nat)
      modifies this`counts
      ensures n == CountNow(old(S()), addon) && counts == old(counts)[addon := n]
    {
      var files := OfAddon(disk, addon);
      if files == {} {
        n := 0;
      } else if addon in counts {
        n := counts[addon];
      } else {
        n := |files|;
      }
      counts := counts[addon := n];
    }

    /** attempt, up to its deliver call: false when the operation is over. */
    method Attempt(key: Key, record: Record, canRun: bool, now: int, left: nat, dies: bool) returns (calls: bool)
      modifies this`disk, this`inFlight, this`log
      ensures calls <==> canRun && left > 0 && !dies
      ensures disk == if canRun && left > 0 then old(disk)[key := Attempting(record)] else old(disk)
      ensures inFlight == if calls then old(inFlight)[key := Attempting(record)] else old(inFlight)
      ensures log == if calls then old(log) + [Called(key, now)] else old(log)
    {
      calls := false;
      if !canRun || left == 0 { return; }
      disk := disk[key := record.(status := Processing, attempts := record.attempts + 1)];
      if dies { return; }
      calls := true;
      inFlight, log := inFlight[key := disk[key]], log + [Called(key, now)];
    }

    /** The first record of a request, unless the add-on is full, and its attempt. */
    method Create(key: Key, details: Details, canRun: bool, now: int, left: nat, dies: bool) returns (calls: bool)
      requires key !in disk
      modifies this`disk, this`inFlight, this`log, this`counts, this`pendingKeys
      ensures var writes := Writes(old(S()), key, RequestOp(details), canRun, now);
        var good := if left < |writes| then left else |writes|;
        && disk == Written(old(disk), key, writes, good)
        && counts == CountsAfter(old(S()), key, RequestOp(details), good > 0)
        && pendingKeys == IndexAfter(old(S()), key, RequestOp(details), good > 0)
        && (calls <==> |writes| == 2 && good == 2 && !dies)
        && inFlight == (if calls then old(inFlight)[key := writes[1]] else old(inFlight))
        && log == (if calls then old(log) + [Called(key, now)] else old(log))
    {
      hide CountNow, Attempting;
      calls := false;
      var count := DeliveryCount(key.addon);
      if count >= MAX_RECORDS || left == 0 { return; }
      var record := Record(details, Pending, 0, None);
      disk := disk[key := record];
      counts := counts[key.addon := count + 1];
      pendingKeys := pendingKeys + {key};
      calls := Attempt(key, record, canRun, now, left - 1, dies);
    }

    /** The operation at the head of a queue, up to its deliver call. */
    method Begin(key: Key, canRun: bool, now: int, fate: Fate)
      modifies this
      ensures S() == Next(old(S()), Start(key, canRun, now, fate))
    {
      hide TailOf, CountsAfter, IndexAfter, CountNow;
      if key !in queues || queues[key] == [] || key in inFlight { return; }
      var op := queues[key][0];
      var left, dies := fate.good, fate.Crashes?;
      var calls := false;
      MemoryUntouched(S(), key, op);
      if op.TickOp? {
        calls := Attempt(key, if key in disk then disk[key] else op.seen, canRun, now, left, dies);
      } else if key in disk {
        var existing := disk[key];
        if existing.details == op.details && existing.status.Pending? && !Waits(existing, now) {
          calls := Attempt(key, existing, canRun, now, left, dies);
        }
      } else {
        calls := Create(key, op.details, canRun, now, left, dies);
      }
      if dies {
        Restart();
      } else if !calls {
        Finish(key);
      }
    }

    /** The rest of attempt, once deliver has answered. */
    method Answered(key: Key, answer: Answer, now: int, first: bool, second: bool, crashes: bool)
      requires key in inFlight
      modifies this
      ensures S() == Next(old(S()), Reply(key, answer, now, first, second, crashes))
    {
      hide TailOf;
      var processing := inFlight[key];
      ghost var outcome := Outcome(processing, answer, now, first, second);
      inFlight, log := inFlight - {key}, log + [Event.Answered(key, answer, now)];
      if answer.Success? && (first || second) {
        disk := disk[key := processing.(status := if first then Delivered else Failed)];
        pendingKeys := pendingKeys - {key};
      } else if answer.Deferral? {
        if first {
          disk := disk[key := processing.(status := Pending, nextAttempt := Some(now + RETRY_MS))];
        }
      } else if first {
        disk := disk[key := processing.(status := Failed)];
        pendingKeys := pendingKeys - {key};
      }
      assert disk == if outcome.Some? then old(disk)[key := outcome.value] else old(disk);
      if crashes { Restart(); } else { Finish(key); }
    }

    /** loadPendingKeys: the first tick lists the files. */
    method LoadPendingKeys()
      modifies this`loaded, this`pendingKeys
      ensures S() == Loaded(old(S()))
    {
      if loaded { return; }
      loaded := true;
      var todo, found := disk.Keys, {};
      while todo != {}
        invariant todo <= disk.Keys && found == set k | k in disk && k !in todo && Open(disk[k])
        invariant unchanged(`disk) && loaded && pendingKeys == old(pendingKeys) + found
        decreases |todo|
      {
        var k :| k in todo;
        todo := todo - {k};
        if Open(disk[k]) {
          found := found + {k};
          pendingKeys := pendingKeys + {k};
        }
      }
    }

    /** What a tick does about one of the keys it lists. */
    method Visit(key: Key, canRun: bool, now: int, write: bool, crashes: bool)
      modifies this
      ensures S() == Next(old(S()), Step.Tick(key, canRun, now, write, crashes))
    {
      LoadPendingKeys();
      if key !in disk || !Open(disk[key]) {
        pendingKeys := pendingKeys - {key};
        return;
      }
      var record := disk[key];
      if record.status.Processing? {
        if key in queues || !write { return; }
        disk := disk[key := record.(status := Uncertain)];
        pendingKeys := pendingKeys - {key};
        if crashes { Restart(); }
        return;
      }
      if Waits(record, now) || !canRun { return; }
      Serialize(key, TickOp(record));
    }
  }
}
