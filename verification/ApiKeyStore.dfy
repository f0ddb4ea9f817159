/** The API key store in its own form: fields changed in place and put back when a
    write fails. Each method makes exactly one step of the machine in ApiKeys. */
module ApiKeyStore {
  import opened Wrappers
  import opened ApiKeyScopes
  import opened ApiKeys

  class Store {
    const env: Env
    var keys: seq<Record>
    var pending: map<string, Use>
    var file: File

    ghost function S(): State
      reads this
    {
      State(keys, pending, file)
    }

    /** load: valid records are normalised, the others dropped. */
    constructor (env: Env, file: File)
      ensures this.env == env && S() == Opened(env, file)
    {
      var loaded: seq<Record> := [];
      if file.Keys? {
        for i := 0 to |file.raw|
          invariant loaded == Normalized(env, file.raw[..i])
        {
          assert file.raw[..i + 1][..i] == file.raw[..i];
          if ValidRecord(file.raw[i]) {
            loaded := loaded + [NormalizeRecord(env, file.raw[i].fields)];
          }
        }
        assert file.raw[..|file.raw|] == file.raw;
      }
      this.env, this.file, keys, pending := env, file, loaded, map[];
    }

    method Find(id: string) returns (i: nat)
      ensures i == ById(keys, id)
    {
      i := 0;
      while i < |keys| && Id(keys[i]) != id
        invariant i <= |keys| && forall j :: 0 <= j < i ==> Id(keys[j]) != id
      {
        i := i + 1;
      }
    }

    /** The write: it replaces the file or leaves it. */
    method Persist(ok: bool)
      modifies this`file
      ensures file == if ok then Stored(keys) else old(file)
    {
      if ok { file := Stored(keys); }
    }

    /** Draws until an id is free, at most nine times. */
    method DrawId(draws: seq<string>) returns (id: Option<string>)
      requires |draws| == DRAWS
      ensures id == if Has(keys, Drawn(keys, draws)) then None else Some(Drawn(keys, draws))
    {
      var attempt := 0;
      var at := Find(draws[0]);
      while at < |keys| && attempt < DRAWS - 1
        invariant 0 <= attempt < DRAWS && at == ById(keys, draws[attempt])
        invariant Drawn(keys, draws) == Drawn(keys, draws[attempt..])
        decreases DRAWS - attempt
      {
        assert draws[attempt..][1..] == draws[attempt + 1..];
        attempt := attempt + 1;
        at := Find(draws[attempt]);
      }
      id := if at < |keys| then None else Some(draws[attempt]);
    }

    method Create(draws: seq<string>, hash: string, stamp: string, input: map<string, Json>, ok: bool)
      requires |draws| == DRAWS
      modifies this
      ensures S() == Next(env, old(S()), Step.Create(draws, hash, stamp, input, ok))
    {
      var id := DrawId(draws);
      if id.None? { return; }
      var name := env.nameOf(Field(input, "name"));
      if name.None? { return; }
      var expiresAt := Expiry(env, Field(input, "expiresAt"));
      if expiresAt.None? { return; }
      var record := NewRecord(env, id.value, hash, stamp, name.value, expiresAt.value, input);
      keys := keys + [record];
      Persist(ok);
      if !ok { keys := keys[..|keys| - 1]; }
    }

    /** Everything is validated into a staged copy; a failed write puts the old
        fields back and takes the added ones away. */
    method Update(id: string, patch: map<string, Json>, ok: bool)
      modifies this
      ensures S() == Next(env, old(S()), Step.Update(id, patch, ok))
    {
      var i := Find(id);
      if i == |keys| { return; }
      var staged := Staged(env, patch);
      if staged.None? { return; }
      var record := keys[i];
      var before := record;
      var added := set f | f in staged.value && f !in record;
      record := record + staged.value;
      keys := keys[i := record];
      Persist(ok);
      if !ok {
        record := (record + before) - added;
        assert record == before;
        keys := keys[i := record];
      }
    }

    method Revoke(id: string, ok: bool)
      modifies this
      ensures S() == Next(env, old(S()), Step.Revoke(id, ok))
    {
      hide Stored, ById;
      var i := Find(id);
      if i == |keys| { return; }
      PutBack(keys, i);
      var removed := keys[i];
      keys := keys[..i] + keys[i + 1..];
      var bufferedUse := if id in pending then Some(pending[id]) else None;
      pending := pending - {id};
      Persist(ok);
      if !ok {
        keys := keys[..i] + [removed] + keys[i..];
        if bufferedUse.Some? { pending := pending[id := bufferedUse.value]; }
        assert pending == old(pending);
      }
    }

    method RecordUse(id: string, ip: Json, stamp: string)
      modifies this`pending
      ensures S() == Next(env, old(S()), Step.RecordUse(id, ip, stamp))
    {
      var i := Find(id);
      if i < |keys| { pending := pending[id := Use(stamp, OrNull(ip))]; }
    }

    /** The records that have a buffered use get it; a failed write gives them their
        old values back and keeps the buffer. */
    method FlushLastUsed(ok: bool)
      modifies this
      ensures S() == Next(env, old(S()), Flush(ok))
    {
      hide Applied, Stored, ById;
      if pending == map[] { return; }
      var before := keys;
      var applied := ApplyBuffered();
      if !applied {
        AppliedToNone(before, pending);
        pending := map[];
        return;
      }
      Persist(ok);
      if ok {
        pending := map[];
      } else {
        keys := before;
      }
    }

    /** The loop over the buffer; false when no record had a use. */
    method ApplyBuffered() returns (applied: bool)
      modifies this`keys
      ensures keys == Applied(old(keys), pending)
      ensures applied <==> exists id :: id in pending && Has(old(keys), id)
    {
      hide Applied, Used, ById;
      applied := false;
      var todo := pending.Keys;
      AppliedNothing(keys);
      assert pending - todo == map[];
      while todo != {}
        invariant todo <= pending.Keys
        invariant applied <==> exists id :: id in pending && id !in todo && Has(old(keys), id)
        invariant keys == Applied(old(keys), pending - todo)
        decreases |todo|
      {
        var id :| id in todo;
        AppliedOneMore(old(keys), pending - todo, id, pending[id]);
        FoundAlike(old(keys), keys, pending - todo, id);
        todo := todo - {id};
        assert pending - todo == (pending - (todo + {id}))[id := pending[id]];
        var i := Find(id);
        if i < |keys| {
          applied := true;
          keys := keys[i := Used(keys[i], pending[id])];
        }
      }
      assert pending - todo == pending;
    }
  }

  lemma PutBack(keys: seq<Record>, i: nat)
    requires i < |keys|
    ensures var cut := keys[..i] + keys[i + 1..]; cut[..i] + [keys[i]] + cut[i..] == keys
  {
  }

  lemma AppliedNothing(keys: seq<Record>)
    ensures Applied(keys, map[]) == keys
  {
  }

  lemma AppliedToNone(keys: seq<Record>, pending: map<string, Use>)
    requires forall id :: id in pending ==> !Has(keys, id)
    ensures Applied(keys, pending) == keys
  {
  }

  /** Applying uses moves no record and changes no id. */
  lemma FoundAlike(before: seq<Record>, keys: seq<Record>, pending: map<string, Use>, id: string)
    requires keys == Applied(before, pending)
    ensures ById(keys, id) == ById(before, id)
  {
    hide Used, Id;
    assert forall i :: 0 <= i < |keys| ==> Id(keys[i]) == Id(before[i]) by {
      forall i | 0 <= i < |keys| ensures Id(keys[i]) == Id(before[i]) {
        if Id(before[i]) in pending { IdOfUsed(before[i], pending[Id(before[i])]); }
      }
    }
    SameFirst(keys, before, id);
  }

  lemma IdOfUsed(r: Record, use: Use)
    ensures Id(Used(r, use)) == Id(r)
  {
    OtherNames();
  }

  lemma SameFirst(a: seq<Record>, b: seq<Record>, id: string)
    requires |a| == |b| && forall i :: 0 <= i < |a| ==> Id(a[i]) == Id(b[i])
    ensures ById(a, id) == ById(b, id)
  {
    hide Id;
    var i, j := ById(a, id), ById(b, id);
    if i < |a| { assert Id(b[i]) == id; }
    if j < |b| { assert Id(a[j]) == id; }
  }

  /** One more buffered use changes the first record of its id. */
  lemma AppliedOneMore(keys: seq<Record>, pending: map<string, Use>, id: string, use: Use)
    requires id !in pending
    ensures var i, r := ById(keys, id), Applied(keys, pending);
      Applied(keys, pending[id := use]) == if i < |keys| then r[i := Used(r[i], use)] else r
  {
    hide Used, Id;
    var i, r, more := ById(keys, id), Applied(keys, pending), Applied(keys, pending[id := use]);
    forall k | 0 <= k < |keys| ensures more[k] == if k == i then Used(r[k], use) else r[k] {
    }
  }
}
