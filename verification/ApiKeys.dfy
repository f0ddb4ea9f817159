/** The API key store: the records in memory, the buffered last uses and the file.
    Any write may fail and then leaves the file as it was. Draws of ids, hashes and
    time stamps, and how names, expiry dates and numbers are read, are parameters. */
module ApiKeys {
  import opened Wrappers
  import opened ApiKeyScopes

  /** nameOf and expiryOf reject with None; numberOf is Number(), None when not finite. */
  datatype Env = Env(
    catalog: Catalog,
    nameOf: Json -> Option<string>, expiryOf: Json -> Option<string>, numberOf: Json -> Option<real>)

  type Record = map<string, Json>
  datatype File = Missing | Corrupt | Keys(raw: seq<Json>)
  datatype Use = Use(at: string, ip: Json)
  datatype State = State(keys: seq<Record>, pending: map<string, Use>, file: File)

  const DEFAULT_RATE := 60
  const MIN_RATE := 1
  const MAX_RATE := 10_000
  const DRAWS := 9

  function Field(r: Record, name: string): Json { if name in r then r[name] else Null }

  /** JavaScript's value || null. */
  function OrNull(v: Json): Json {
    if v == Bool(false) || v == Num(0.0) || v == Str("") then Null else v
  }

  function Clamped(n: int): int { if n < MIN_RATE then MIN_RATE else if n > MAX_RATE then MAX_RATE else n }

  /** validateRateLimit. */
  function RateLimit(env: Env, v: Json): Json {
    if v == Null || v == Str("") then Num(DEFAULT_RATE as real)
    else
      var n := if v.Num? then Some(v.number) else env.numberOf(v);
      Num(if n.Some? then Clamped(n.value.Floor) as real else DEFAULT_RATE as real)
  }

  /** validateExpiry: None rejects. */
  function Expiry(env: Env, v: Json): Option<Json> {
    if v == Null || v == Str("") then Some(Null)
    else match env.expiryOf(v)
      case None => None
      case Some(date) => Some(OrNull(Str(date)))
  }

  predicate ValidRecord(v: Json) {
    v.Obj? && "id" in v.fields && v.fields["id"].Str? && "hash" in v.fields && v.fields["hash"].Str?
  }

  function NormalizeRecord(env: Env, r: Record): Record {
    r + map["scopes" := NormalizeScopes(env.catalog, Field(r, "scopes")),
            "enabled" := Bool(Field(r, "enabled") != Bool(false)),
            "expiresAt" := OrNull(Field(r, "expiresAt")),
            "rateLimitPerMinute" := RateLimit(env, Field(r, "rateLimitPerMinute"))]
  }

  function Normalized(env: Env, raw: seq<Json>): seq<Record> {
    if raw == [] then []
    else
      var front, last := Normalized(env, raw[..|raw| - 1]), raw[|raw| - 1];
      if ValidRecord(last) then front + [NormalizeRecord(env, last.fields)] else front
  }

  /** load: an unreadable file authenticates nobody. */
  function Load(env: Env, file: File): seq<Record> {
    match file
    case Missing => []
    case Corrupt => []
    case Keys(raw) => Normalized(env, raw)
  }

  function Stored(keys: seq<Record>): (f: File)
    ensures f.Keys? && |f.raw| == |keys| && forall i :: 0 <= i < |keys| ==> f.raw[i] == Obj(keys[i])
  {
    Keys(seq(|keys|, i requires 0 <= i < |keys| => Obj(keys[i])))
  }

  function Id(r: Record): string { if "id" in r && r["id"].Str? then r["id"].text else "" }

  /** The first record with the id, or |keys|. */
  function ById(keys: seq<Record>, id: string): (i: nat)
    ensures i <= |keys| && (i < |keys| ==> Id(keys[i]) == id)
    ensures forall j :: 0 <= j < i ==> Id(keys[j]) != id
  {
    if keys == [] || Id(keys[0]) == id then 0 else 1 + ById(keys[1..], id)
  }

  predicate Has(keys: seq<Record>, id: string) { ById(keys, id) < |keys| }

  // ---- the operations ----

  datatype Step =
    | Create(draws: seq<string>, hash: string, stamp: string, input: map<string, Json>, ok: bool)
    | Update(id: string, patch: map<string, Json>, ok: bool)
    | Revoke(id: string, ok: bool)
    | RecordUse(id: string, ip: Json, stamp: string)
    | Flush(ok: bool)

  /** The id that is tried last: the first free draw, or the ninth. */
  function Drawn(keys: seq<Record>, draws: seq<string>): string
    requires draws != []
  {
    if |draws| == 1 || !Has(keys, draws[0]) then draws[0] else Drawn(keys, draws[1..])
  }

  function NewRecord(env: Env, id: string, hash: string, stamp: string, name: string, expiresAt: Json,
      input: map<string, Json>): Record
  {
    map["id" := Str(id), "name" := Str(name), "scopes" := NormalizeScopes(env.catalog, Field(input, "scopes")),
        "enabled" := Bool(true), "createdAt" := Str(stamp), "expiresAt" := expiresAt,
        "lastUsedAt" := Null, "lastUsedIp" := Null,
        "rateLimitPerMinute" := RateLimit(env, Field(input, "rateLimitPerMinute")),
        "prefix" := Str("dak_" + id), "hash" := Str(hash)]
  }

  function Saved(s: State, keys: seq<Record>): State { s.(keys := keys, file := Stored(keys)) }

  function AfterCreate(env: Env, s: State, draws: seq<string>, hash: string, stamp: string, input: map<string, Json>,
      ok: bool): State
    requires |draws| == DRAWS
  {
    var id := Drawn(s.keys, draws);
    var name, expiresAt := env.nameOf(Field(input, "name")), Expiry(env, Field(input, "expiresAt"));
    if Has(s.keys, id) || name.None? || expiresAt.None? || !ok then s
    else Saved(s, s.keys + [NewRecord(env, id, hash, stamp, name.value, expiresAt.value, input)])
  }

  /** The staged fields of a patch; None when one is rejected. */
  function Staged(env: Env, patch: map<string, Json>): Option<map<string, Json>> {
    if "name" in patch && env.nameOf(patch["name"]).None? then None
    else if "enabled" in patch && !patch["enabled"].Bool? then None
    else if "expiresAt" in patch && Expiry(env, patch["expiresAt"]).None? then None
    else
      var a: map<string, Json> := if "name" in patch then map["name" := Str(env.nameOf(patch["name"]).value)]
        else map[];
      var b := if "scopes" in patch then a["scopes" := NormalizeScopes(env.catalog, patch["scopes"])] else a;
      var c := if "enabled" in patch then b["enabled" := patch["enabled"]] else b;
      var d := if "expiresAt" in patch then c["expiresAt" := Expiry(env, patch["expiresAt"]).value] else c;
      Some(if "rateLimitPerMinute" in patch
           then d["rateLimitPerMinute" := RateLimit(env, patch["rateLimitPerMinute"])] else d)
  }

  function AfterUpdate(env: Env, s: State, id: string, patch: map<string, Json>, ok: bool): State {
    var i, staged := ById(s.keys, id), Staged(env, patch);
    if i == |s.keys| || staged.None? || !ok then s else Saved(s, s.keys[i := s.keys[i] + staged.value])
  }

  function AfterRevoke(s: State, id: string, ok: bool): State {
    var i := ById(s.keys, id);
    if i == |s.keys| || !ok then s
    else Saved(s, s.keys[..i] + s.keys[i + 1..]).(pending := s.pending - {id})
  }

  function AfterUse(s: State, id: string, ip: Json, stamp: string): State {
    if Has(s.keys, id) then s.(pending := s.pending[id := Use(stamp, OrNull(ip))]) else s
  }

  function Used(r: Record, use: Use): Record { r["lastUsedAt" := Str(use.at)]["lastUsedIp" := use.ip] }

  /** The first record of every buffered id carries its last use. */
  function Applied(keys: seq<Record>, pending: map<string, Use>): (r: seq<Record>)
    ensures |r| == |keys|
    ensures forall i :: 0 <= i < |keys| ==>
      r[i] == if Id(keys[i]) in pending && ById(keys, Id(keys[i])) == i then Used(keys[i], pending[Id(keys[i])])
        else keys[i]
  {
    seq(|keys|, i requires 0 <= i < |keys| =>
      if Id(keys[i]) in pending && ById(keys, Id(keys[i])) == i then Used(keys[i], pending[Id(keys[i])]) else keys[i])
  }

  function AfterFlush(s: State, ok: bool): State {
    if forall id :: id in s.pending ==> !Has(s.keys, id) then s.(pending := map[])
    else if !ok then s
    else Saved(s, Applied(s.keys, s.pending)).(pending := map[])
  }

  function Next(env: Env, s: State, step: Step): State {
    match step
    case Create(draws, hash, stamp, input, ok) =>
      if |draws| == DRAWS then AfterCreate(env, s, draws, hash, stamp, input, ok) else s
    case Update(id, patch, ok) => AfterUpdate(env, s, id, patch, ok)
    case Revoke(id, ok) => AfterRevoke(s, id, ok)
    case RecordUse(id, ip, stamp) => AfterUse(s, id, ip, stamp)
    case Flush(ok) => AfterFlush(s, ok)
  }

  function Run(env: Env, s: State, steps: seq<Step>): State {
    if steps == [] then s else Next(env, Run(env, s, steps[..|steps| - 1]), steps[|steps| - 1])
  }

  function Opened(env: Env, file: File): State { State(Load(env, file), map[], file) }

  // ---- what is stored loads as it is ----

  /** A record that a reload keeps unchanged. */
  ghost predicate Settled(env: Env, r: Record) { ValidRecord(Obj(r)) && NormalizeRecord(env, r) == r }

  lemma RateTwice(env: Env, v: Json)
    ensures RateLimit(env, RateLimit(env, v)) == RateLimit(env, v)
  {
  }

  /** The four fields a reload normalises are already as it would leave them. */
  ghost predicate FieldsSettled(env: Env, r: Record) {
    "scopes" in r && NormalizeScopes(env.catalog, r["scopes"]) == r["scopes"]
    && "enabled" in r && r["enabled"].Bool?
    && "expiresAt" in r && OrNull(r["expiresAt"]) == r["expiresAt"]
    && "rateLimitPerMinute" in r && RateLimit(env, r["rateLimitPerMinute"]) == r["rateLimitPerMinute"]
  }

  lemma FieldNames()
    ensures "scopes" != "enabled" && "scopes" != "expiresAt" && "scopes" != "rateLimitPerMinute"
    ensures "enabled" != "expiresAt" && "enabled" != "rateLimitPerMinute" && "expiresAt" != "rateLimitPerMinute"
    ensures "id" != "scopes" && "id" != "enabled" && "id" != "expiresAt" && "id" != "rateLimitPerMinute" &&
            "id" != "hash"
    ensures "hash" != "scopes" && "hash" != "enabled" && "hash" != "expiresAt" && "hash" != "rateLimitPerMinute"
  {
    assert |"scopes"| == 6 && |"enabled"| == 7 && |"expiresAt"| == 9 && |"rateLimitPerMinute"| == 18;
  }

  lemma SettledFields(env: Env, r: Record)
    ensures NormalizeRecord(env, r) == r <==> FieldsSettled(env, r)
  {
    FieldNames();
  }

  lemma NormalizedSettles(env: Env, r: Record)
    requires ValidRecord(Obj(r))
    ensures Settled(env, NormalizeRecord(env, r))
  {
    hide NormalizeScopes, RateLimit;
    FieldNames();
    NormalizeTwice(env.catalog, Field(r, "scopes"));
    RateTwice(env, Field(r, "rateLimitPerMinute"));
    SettledFields(env, NormalizeRecord(env, r));
  }

  ghost predicate AllSettled(env: Env, keys: seq<Record>) { forall i :: 0 <= i < |keys| ==> Settled(env, keys[i]) }

  lemma {:induction false} LoadSettles(env: Env, raw: seq<Json>)
    ensures AllSettled(env, Normalized(env, raw))
  {
    hide Settled;
    if raw != [] {
      LoadSettles(env, raw[..|raw| - 1]);
      if ValidRecord(raw[|raw| - 1]) { NormalizedSettles(env, raw[|raw| - 1].fields); }
    }
  }

  lemma {:induction false} LoadStored(env: Env, keys: seq<Record>)
    requires AllSettled(env, keys)
    ensures Load(env, Stored(keys)) == keys
  {
    hide NormalizeRecord, Stored;
    if keys != [] {
      var front, last := keys[..|keys| - 1], keys[|keys| - 1];
      LoadStored(env, front);
      StoredLast(keys);
      assert Settled(env, last);
      assert keys == front + [last];
    }
  }

  lemma StoredLast(keys: seq<Record>)
    requires keys != []
    ensures Stored(keys[..|keys| - 1]) == Keys(Stored(keys).raw[..|keys| - 1])
  {
    hide Stored;
    assert Stored(keys).raw[..|keys| - 1] == Stored(keys[..|keys| - 1]).raw;
  }

  lemma NewSettled(env: Env, id: string, hash: string, stamp: string, name: string, v: Json, input: map<string, Json>)
    requires Expiry(env, v).Some?
    ensures Settled(env, NewRecord(env, id, hash, stamp, name, Expiry(env, v).value, input))
    ensures Id(NewRecord(env, id, hash, stamp, name, Expiry(env, v).value, input)) == id
  {
    FieldNames();
    OtherNames();
    NormalizeTwice(env.catalog, Field(input, "scopes"));
    RateTwice(env, Field(input, "rateLimitPerMinute"));
    SettledFields(env, NewRecord(env, id, hash, stamp, name, Expiry(env, v).value, input));
  }

  /** Not one of the fields that a reload looks at. */
  predicate Inert(f: string) {
    f != "id" && f != "hash" && f != "scopes" && f != "enabled" && f != "expiresAt" && f != "rateLimitPerMinute"
  }

  lemma OtherNames()
    ensures Inert("name") && Inert("createdAt") && Inert("lastUsedAt") && Inert("lastUsedIp") && Inert("prefix")
  {
    assert "name"[0] == 'n' && "hash"[0] == 'h';
    assert "createdAt"[0] == 'c' && "expiresAt"[0] == 'e';
    assert "prefix"[0] == 'p' && "scopes"[0] == 's';
    assert |"lastUsedAt"| == 10 && |"lastUsedIp"| == 10 && |"rateLimitPerMinute"| == 18;
  }

  lemma StagedSettled(env: Env, r: Record, patch: map<string, Json>)
    requires Settled(env, r) && Staged(env, patch).Some?
    ensures Settled(env, r + Staged(env, patch).value) && Id(r + Staged(env, patch).value) == Id(r)
  {
    var staged := Staged(env, patch).value;
    FieldNames();
    OtherNames();
    SettledFields(env, r);
    assert "id" !in staged && "hash" !in staged;
    if "scopes" in patch { NormalizeTwice(env.catalog, patch["scopes"]); }
    if "rateLimitPerMinute" in patch { RateTwice(env, patch["rateLimitPerMinute"]); }
    StagedFields(env, patch);
    SettledFields(env, r + staged);
  }

  lemma StagedFields(env: Env, patch: map<string, Json>)
    requires Staged(env, patch).Some?
    ensures var staged := Staged(env, patch).value;
      && ("scopes" in staged <==> "scopes" in patch)
      && ("scopes" in staged ==> staged["scopes"] == NormalizeScopes(env.catalog, patch["scopes"]))
      && ("enabled" in staged ==> staged["enabled"].Bool?)
      && ("expiresAt" in staged ==> OrNull(staged["expiresAt"]) == staged["expiresAt"])
      && ("rateLimitPerMinute" in staged <==> "rateLimitPerMinute" in patch)
      && ("rateLimitPerMinute" in staged ==>
        staged["rateLimitPerMinute"] == RateLimit(env, patch["rateLimitPerMinute"]))
  {
    hide NormalizeScopes, RateLimit, Expiry, OrNull;
    FieldNames();
    OtherNames();
    if "expiresAt" in patch { ExpirySettled(env, patch["expiresAt"]); }
  }

  lemma ExpirySettled(env: Env, v: Json)
    ensures Expiry(env, v).Some? ==> OrNull(Expiry(env, v).value) == Expiry(env, v).value
  {
  }

  lemma UsedSettled(env: Env, r: Record, use: Use)
    requires Settled(env, r)
    ensures Settled(env, Used(r, use)) && Id(Used(r, use)) == Id(r)
  {
    FieldNames();
    OtherNames();
    SettledFields(env, r);
    SettledFields(env, Used(r, use));
  }

  // ---- every history ----

  ghost predicate Faithful(env: Env, s: State) { AllSettled(env, s.keys) && Load(env, s.file) == s.keys }

  lemma StepFaithful(env: Env, s: State, step: Step)
    requires Faithful(env, s)
    ensures Faithful(env, Next(env, s, step))
  {
    hide Settled, NewRecord, Staged, RateLimit, Used;
    var t := Next(env, s, step);
    match step
    case Create(draws, hash, stamp, input, ok) =>
      if t != s {
        NewSettled(env, Drawn(s.keys, draws), hash, stamp, env.nameOf(Field(input, "name")).value,
          Field(input, "expiresAt"), input);
        LoadStored(env, t.keys);
      }
    case Update(id, patch, ok) =>
      if t != s {
        StagedSettled(env, s.keys[ById(s.keys, id)], patch);
        LoadStored(env, t.keys);
      }
    case Revoke(id, ok) => if t.keys != s.keys { LoadStored(env, t.keys); }
    case RecordUse(id, ip, stamp) =>
    case Flush(ok) =>
      if t.file != s.file || t.keys != s.keys {
        forall i | 0 <= i < |s.keys| ensures Settled(env, t.keys[i]) {
          if Id(s.keys[i]) in s.pending { UsedSettled(env, s.keys[i], s.pending[Id(s.keys[i])]); }
        }
        LoadStored(env, t.keys);
      }
  }

  /** Whatever file the store starts on and whichever writes fail, a restart finds
      exactly the keys in memory. */
  lemma {:induction false} RestartInvisible(env: Env, file: File, steps: seq<Step>)
    ensures var s := Run(env, Opened(env, file), steps); Load(env, s.file) == s.keys && AllSettled(env, s.keys)
  {
    if steps == [] {
      if file.Keys? { LoadSettles(env, file.raw); }
    } else {
      RestartInvisible(env, file, steps[..|steps| - 1]);
      StepFaithful(env, Run(env, Opened(env, file), steps[..|steps| - 1]), steps[|steps| - 1]);
    }
  }

  predicate Writes(step: Step) { step.Create? || step.Update? || step.Revoke? }

  /** A change whose write fails has not happened, in memory or in the buffer. */
  lemma FailedChangesNothing(env: Env, s: State, step: Step)
    requires (Writes(step) || step.Flush?) && !step.ok
    ensures Next(env, s, step).keys == s.keys && Next(env, s, step).file == s.file
    ensures Writes(step) ==> Next(env, s, step) == s
  {
  }

  // ---- revoked keys stay away ----

  function Count(keys: seq<Record>, id: string): nat {
    if keys == [] then 0 else Count(keys[..|keys| - 1], id) + if Id(keys[|keys| - 1]) == id then 1 else 0
  }

  lemma {:induction false} CountAppend(a: seq<Record>, b: seq<Record>, id: string)
    ensures Count(a + b, id) == Count(a, id) + Count(b, id)
  {
    if b == [] {
      assert a + b == a;
    } else {
      CountAppend(a, b[..|b| - 1], id);
      assert (a + b)[..|a + b| - 1] == a + b[..|b| - 1];
    }
  }

  lemma {:induction false} HasCounts(keys: seq<Record>, id: string)
    ensures Has(keys, id) <==> Count(keys, id) > 0
  {
    if keys != [] {
      var front, last := keys[..|keys| - 1], keys[|keys| - 1];
      HasCounts(front, id);
      if Has(front, id) { assert front[ById(front, id)] == keys[ById(front, id)]; }
      if Has(keys, id) && ById(keys, id) < |front| { assert front[ById(keys, id)] == keys[ById(keys, id)]; }
    }
  }

  lemma CountOne(r: Record, id: string)
    ensures Count([r], id) == if Id(r) == id then 1 else 0
  {
    assert [r][..0] == [];
  }

  /** Records with the same ids at the same places count alike. */
  lemma {:induction false} CountAlike(a: seq<Record>, b: seq<Record>, id: string)
    requires |a| == |b| && forall i :: 0 <= i < |a| ==> Id(a[i]) == Id(b[i])
    ensures Count(a, id) == Count(b, id)
  {
    if a != [] { CountAlike(a[..|a| - 1], b[..|b| - 1], id); }
  }

  /** A revoke that reports success takes one record of the id out of memory and
      file; the id is gone exactly when it was there once. */
  lemma RevokeTakesOne(env: Env, s: State, id: string)
    requires Faithful(env, s) && Has(s.keys, id)
    ensures var t := AfterRevoke(s, id, true);
      Count(t.keys, id) == Count(s.keys, id) - 1
      && (!Has(t.keys, id) <==> Count(s.keys, id) == 1)
      && Load(env, t.file) == t.keys && id !in t.pending
  {
    hide Faithful, Count, Has, AfterRevoke, Load;
    var t := AfterRevoke(s, id, true);
    StepFaithful(env, s, Revoke(id, true));
    RevokeCounts(s, id, true, id);
    HasCounts(t.keys, id);
    FaithfulLoads(env, t);
    RevokeDropsUse(s, id);
  }

  lemma RevokeDropsUse(s: State, id: string)
    requires Has(s.keys, id)
    ensures id !in AfterRevoke(s, id, true).pending
  {
  }

  /** A file with one id in two records: a revoke that succeeds leaves the key. */
  lemma DuplicateSurvivesRevoke(env: Env)
    ensures var r: Record := map["id" := Str("k"), "hash" := Str("h")];
            var s := Opened(env, Keys([Obj(r), Obj(r)]));
            Faithful(env, s) && Has(s.keys, "k") && Has(AfterRevoke(s, "k", true).keys, "k")
  {
    hide NormalizeRecord;
    var r: Record := map["id" := Str("k"), "hash" := Str("h")];
    var raw := [Obj(r), Obj(r)];
    var s := Opened(env, Keys(raw));
    LoadSettles(env, raw);
    FieldNames();
    assert ValidRecord(raw[0]);
    var n := NormalizeRecord(env, r);
    assert raw[..1] == [raw[0]] && [raw[0]][..0] == [];
    assert Normalized(env, []) == [];
    assert Normalized(env, [raw[0]]) == [n];
    assert s.keys == [n, n];
    assert Id(n) == "k" by { NormalizedId(env, r); }
    assert [n, n][..1] == [n];
    CountOne(n, "k");
    assert Count(s.keys, "k") == 2;
    HasCounts(s.keys, "k");
    RevokeTakesOne(env, s, "k");
  }

  lemma NormalizedId(env: Env, r: Record)
    requires ValidRecord(Obj(r))
    ensures Id(NormalizeRecord(env, r)) == Id(r)
  {
    hide NormalizeScopes, RateLimit;
    FieldNames();
  }

  lemma FaithfulLoads(env: Env, s: State)
    requires Faithful(env, s)
    ensures Load(env, s.file) == s.keys
  {
  }

  /** How one step changes the number of records of an id. */
  lemma StepCounts(env: Env, s: State, step: Step, id: string)
    requires Faithful(env, s)
    ensures Count(Next(env, s, step).keys, id) <= Count(s.keys, id)
      || (step.Create? && |step.draws| == DRAWS && Drawn(s.keys, step.draws) == id
          && Count(s.keys, id) == 0 && Count(Next(env, s, step).keys, id) == 1)
  {
    hide AfterCreate, AfterUpdate, AfterRevoke, AfterFlush, Faithful, Count;
    match step
    case Create(draws, hash, stamp, input, ok) =>
      if |draws| == DRAWS { CreateCounts(env, s, draws, hash, stamp, input, ok, id); }
    case Update(other, patch, ok) => UpdateCounts(env, s, other, patch, ok, id);
    case Revoke(other, ok) => RevokeCounts(s, other, ok, id);
    case RecordUse(_, _, _) =>
    case Flush(ok) => FlushCounts(env, s, ok, id);
  }

  lemma CreateCounts(env: Env, s: State, draws: seq<string>, hash: string, stamp: string, input: map<string, Json>,
      ok: bool, id: string)
    requires |draws| == DRAWS
    ensures var t, drawn := AfterCreate(env, s, draws, hash, stamp, input, ok), Drawn(s.keys, draws);
      Count(t.keys, id) == Count(s.keys, id)
      || (drawn == id && Count(s.keys, id) == 0 && Count(t.keys, id) == 1)
  {
    hide NewRecord, RateLimit, Settled, Count;
    var t, drawn := AfterCreate(env, s, draws, hash, stamp, input, ok), Drawn(s.keys, draws);
    if t != s {
      NewSettled(env, drawn, hash, stamp, env.nameOf(Field(input, "name")).value, Field(input, "expiresAt"), input);
      CountAppend(s.keys, [t.keys[|s.keys|]], id);
      CountOne(t.keys[|s.keys|], id);
      HasCounts(s.keys, drawn);
    }
  }

  lemma UpdateCounts(env: Env, s: State, other: string, patch: map<string, Json>, ok: bool, id: string)
    requires Faithful(env, s)
    ensures Count(AfterUpdate(env, s, other, patch, ok).keys, id) == Count(s.keys, id)
  {
    hide Staged, Settled, Count;
    var t := AfterUpdate(env, s, other, patch, ok);
    if t != s {
      StagedSettled(env, s.keys[ById(s.keys, other)], patch);
      CountAlike(s.keys, t.keys, id);
    }
  }

  lemma FlushCounts(env: Env, s: State, ok: bool, id: string)
    requires Faithful(env, s)
    ensures Count(AfterFlush(s, ok).keys, id) == Count(s.keys, id)
  {
    hide Used, Settled, Count;
    var t := AfterFlush(s, ok);
    forall i | 0 <= i < |s.keys| ensures Id(t.keys[i]) == Id(s.keys[i]) {
      if Id(s.keys[i]) in s.pending { UsedSettled(env, s.keys[i], s.pending[Id(s.keys[i])]); }
    }
    CountAlike(s.keys, t.keys, id);
  }

  lemma RevokeCounts(s: State, other: string, ok: bool, id: string)
    ensures Count(AfterRevoke(s, other, ok).keys, id)
      == Count(s.keys, id) - if ok && Has(s.keys, other) && other == id then 1 else 0
  {
    var i := ById(s.keys, other);
    if i < |s.keys| && ok {
      assert s.keys == s.keys[..i] + [s.keys[i]] + s.keys[i + 1..];
      CountAppend(s.keys[..i] + [s.keys[i]], s.keys[i + 1..], id);
      CountAppend(s.keys[..i], [s.keys[i]], id);
      CountAppend(s.keys[..i], s.keys[i + 1..], id);
      CountOne(s.keys[i], id);
    }
  }

  /** Over any history that starts without an id and never draws it, the id is in
      neither memory nor file. */
  lemma {:induction false} GoneStaysGone(env: Env, s: State, steps: seq<Step>, id: string)
    requires Faithful(env, s) && !Has(s.keys, id)
    requires forall i :: 0 <= i < |steps| && steps[i].Create? ==> id !in steps[i].draws
    ensures var t := Run(env, s, steps); Faithful(env, t) && !Has(t.keys, id)
  {
    hide Faithful;
    if steps != [] {
      var front, last := steps[..|steps| - 1], steps[|steps| - 1];
      GoneStaysGone(env, s, front, id);
      var t := Run(env, s, front);
      StepFaithful(env, t, last);
      StepCounts(env, t, last, id);
      HasCounts(t.keys, id);
      HasCounts(Next(env, t, last).keys, id);
      if last.Create? && |last.draws| == DRAWS { DrawnAmong(t.keys, last.draws); }
    }
  }

  lemma {:induction false} DrawnAmong(keys: seq<Record>, draws: seq<string>)
    requires draws != []
    ensures Drawn(keys, draws) in draws
  {
    if |draws| > 1 && Has(keys, draws[0]) { DrawnAmong(keys, draws[1..]); }
  }

  /** No id ever occurs twice in a store whose file has none twice, so every revoke
      that succeeds takes its key away. */
  lemma {:induction false} IdsStayUnique(env: Env, s: State, steps: seq<Step>)
    requires Faithful(env, s) && forall id :: Count(s.keys, id) <= 1
    ensures var t := Run(env, s, steps); Faithful(env, t) && forall id :: Count(t.keys, id) <= 1
  {
    hide Faithful;
    if steps != [] {
      IdsStayUnique(env, s, steps[..|steps| - 1]);
      var t := Run(env, s, steps[..|steps| - 1]);
      StepFaithful(env, t, steps[|steps| - 1]);
      var next := Next(env, t, steps[|steps| - 1]);
      forall id ensures Count(next.keys, id) <= 1 {
        StepCounts(env, t, steps[|steps| - 1], id);
      }
    }
  }
}
