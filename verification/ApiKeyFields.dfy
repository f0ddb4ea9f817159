/** What the key store does to the fields of its records: which values a load, a
    create, an update and a flushed use leave under each name. */
module ApiKeyFields {
  import opened Wrappers
  import opened ApiKeyScopes
  import opened ApiKeys

  /** A rate limit is a whole number from 1 to 10 000: the stored number rounded
      down and held in that range, or 60 where no number is stored. */
  lemma RateLimitExactly(env: Env, v: Json)
    ensures var r := RateLimit(env, v);
      && r.Num? && 1.0 <= r.number <= 10_000.0 && r.number == r.number.Floor as real
      && (v == Null || v == Str("") ==> r == Num(60.0))
      && (v.Num? && 1.0 <= v.number <= 10_000.0 ==> r == Num(v.number.Floor as real))
      && (v.Num? && v.number < 1.0 ==> r == Num(1.0))
      && (v.Num? && v.number > 10_000.0 ==> r == Num(10_000.0))
      && (v != Null && v != Str("") && !v.Num? ==>
            r == match env.numberOf(v) case None => Num(60.0) case Some(n) => RateLimit(env, Num(n)))
  {
  }

  // ---- load ----

  function ValidAmong(raw: seq<Json>): nat {
    if raw == [] then 0 else ValidAmong(raw[..|raw| - 1]) + if ValidRecord(raw[|raw| - 1]) then 1 else 0
  }

  lemma {:induction false} NormalizedSize(env: Env, raw: seq<Json>)
    ensures |Normalized(env, raw)| == ValidAmong(raw)
  {
    if raw != [] { NormalizedSize(env, raw[..|raw| - 1]); }
  }

  lemma {:induction false} NormalizedAt(env: Env, raw: seq<Json>, i: nat)
    requires i < |raw| && ValidRecord(raw[i])
    ensures ValidAmong(raw[..i]) < |Normalized(env, raw)|
    ensures Normalized(env, raw)[ValidAmong(raw[..i])] == NormalizeRecord(env, raw[i].fields)
  {
    hide NormalizeRecord, ValidRecord;
    var front := raw[..|raw| - 1];
    NormalizedSize(env, front);
    if i < |front| {
      NormalizedAt(env, front, i);
      assert front[..i] == raw[..i];
    }
  }

  predicate Reread(f: string) { f == "scopes" || f == "enabled" || f == "expiresAt" || f == "rateLimitPerMinute" }

  /** A load keeps the records that have an id and a hash, in order. Of each it reads
      four fields anew: a key is disabled only where false is stored, its expiry is
      null where nothing is, its scopes and its rate are normalised. Every other field
      is as it was stored. */
  lemma LoadKeeps(env: Env, raw: seq<Json>, i: nat)
    requires i < |raw|
    ensures |Load(env, Keys(raw))| == ValidAmong(raw)
    ensures raw[i].Obj? && "id" in raw[i].fields && raw[i].fields["id"].Str? &&
            "hash" in raw[i].fields && raw[i].fields["hash"].Str? ==>
              var k := ValidAmong(raw[..i]);
              k < |Load(env, Keys(raw))| &&
              var stored, r := raw[i].fields, Load(env, Keys(raw))[k];
              && (forall f :: !Reread(f) ==> (f in r <==> f in stored) && (f in stored ==> r[f] == stored[f]))
              && (forall f :: Reread(f) ==> f in r)
              && Field(r, "enabled") == Bool(Field(stored, "enabled") != Bool(false))
              && Field(r, "expiresAt") == (if Field(stored, "expiresAt") in {Str(""), Bool(false), Num(0.0)} then Null
                                           else Field(stored, "expiresAt"))
              && Field(r, "scopes") == NormalizeScopes(env.catalog, Field(stored, "scopes"))
              && Field(r, "rateLimitPerMinute") == RateLimit(env, Field(stored, "rateLimitPerMinute"))
  {
    hide NormalizeScopes, RateLimit, Normalized, ValidAmong, NormalizeRecord;
    NormalizedSize(env, raw);
    if ValidRecord(raw[i]) {
      NormalizedAt(env, raw, i);
      RereadExactly(env, raw[i].fields);
    }
  }

  lemma RereadExactly(env: Env, stored: Record)
    ensures var r := NormalizeRecord(env, stored);
      && (forall f :: !Reread(f) ==> (f in r <==> f in stored) && (f in stored ==> r[f] == stored[f]))
      && (forall f :: Reread(f) ==> f in r)
      && Field(r, "enabled") == Bool(Field(stored, "enabled") != Bool(false))
      && Field(r, "expiresAt") == OrNull(Field(stored, "expiresAt"))
      && Field(r, "scopes") == NormalizeScopes(env.catalog, Field(stored, "scopes"))
      && Field(r, "rateLimitPerMinute") == RateLimit(env, Field(stored, "rateLimitPerMinute"))
  {
    hide NormalizeScopes, RateLimit, OrNull;
    FieldNames();
  }

  // ---- create ----

  lemma {:induction false} DrawnFirst(keys: seq<Record>, draws: seq<string>) returns (k: nat)
    requires draws != []
    ensures k < |draws| && Drawn(keys, draws) == draws[k] && forall j :: 0 <= j < k ==> Has(keys, draws[j])
    ensures k < |draws| - 1 ==> !Has(keys, draws[k])
  {
    hide Has;
    if |draws| == 1 || !Has(keys, draws[0]) {
      k := 0;
    } else {
      k := DrawnFirst(keys, draws[1..]);
      k := k + 1;
    }
  }

  /** A create appends one record, to memory and file alike, exactly when name and
      expiry are accepted, one of the nine draws is free and the write goes well. The
      record has the first free id and reaches whatever its scopes normalise to; it is
      enabled, never used, and holds the hash of its secret. */
  lemma CreateStores(env: Env, s: State, draws: seq<string>, hash: string, stamp: string, input: map<string, Json>,
      ok: bool)
    requires |draws| == 9
    ensures var t := Next(env, s, Create(draws, hash, stamp, input, ok));
      var accepted := ok && env.nameOf(Field(input, "name")).Some? && Expiry(env, Field(input, "expiresAt")).Some? &&
        exists k :: 0 <= k < 9 && !Has(s.keys, draws[k]);
      && (!accepted ==> t == s)
      && (accepted ==>
            |t.keys| == |s.keys| + 1 && t.keys[..|s.keys|] == s.keys && t.file == Stored(t.keys) &&
            var r := t.keys[|s.keys|];
            && r.Keys == {"id", "name", "scopes", "enabled", "createdAt", "expiresAt", "lastUsedAt", "lastUsedIp",
                          "rateLimitPerMinute", "prefix", "hash"}
            && (exists k :: 0 <= k < 9 && r["id"] == Str(draws[k]) && r["prefix"] == Str("dak_" + draws[k]) &&
                 !Has(s.keys, draws[k]) && forall j :: 0 <= j < k ==> Has(s.keys, draws[j]))
            && r["name"] == Str(env.nameOf(Field(input, "name")).value)
            && r["scopes"] == NormalizeScopes(env.catalog, Field(input, "scopes"))
            && r["expiresAt"] == Expiry(env, Field(input, "expiresAt")).value
            && r["rateLimitPerMinute"] == RateLimit(env, Field(input, "rateLimitPerMinute"))
            && r["enabled"] == Bool(true) && r["createdAt"] == Str(stamp) && r["hash"] == Str(hash)
            && r["lastUsedAt"] == r["lastUsedIp"] == Null)
  {
    hide Has, NormalizeScopes, RateLimit, Expiry, Stored, NewRecord, Drawn;
    var k := DrawnFirst(s.keys, draws);
    var id := Drawn(s.keys, draws);
    var name, expiresAt := env.nameOf(Field(input, "name")), Expiry(env, Field(input, "expiresAt"));
    assert !Has(s.keys, id) <==> exists i :: 0 <= i < 9 && !Has(s.keys, draws[i]);
    if !Has(s.keys, id) && name.Some? && expiresAt.Some? && ok {
      NewFields(env, id, hash, stamp, name.value, expiresAt.value, input);
      var r := NewRecord(env, id, hash, stamp, name.value, expiresAt.value, input);
      assert Next(env, s, Create(draws, hash, stamp, input, ok)).keys == s.keys + [r];
    }
  }

  lemma NewFields(env: Env, id: string, hash: string, stamp: string, name: string, expiresAt: Json,
      input: map<string, Json>)
    ensures var r := NewRecord(env, id, hash, stamp, name, expiresAt, input);
      && r.Keys == {"id", "name", "scopes", "enabled", "createdAt", "expiresAt", "lastUsedAt", "lastUsedIp",
                    "rateLimitPerMinute", "prefix", "hash"}
      && r["id"] == Str(id) && r["prefix"] == Str("dak_" + id) && r["name"] == Str(name)
      && r["scopes"] == NormalizeScopes(env.catalog, Field(input, "scopes")) && r["expiresAt"] == expiresAt
      && r["rateLimitPerMinute"] == RateLimit(env, Field(input, "rateLimitPerMinute"))
      && r["enabled"] == Bool(true) && r["createdAt"] == Str(stamp) && r["hash"] == Str(hash)
      && r["lastUsedAt"] == r["lastUsedIp"] == Null
  {
    hide NormalizeScopes, RateLimit;
    Apart();
    var names := ["id", "name", "scopes", "enabled", "createdAt", "expiresAt", "lastUsedAt", "lastUsedIp",
                  "rateLimitPerMinute", "prefix", "hash"];
    var values := [Str(id), Str(name), NormalizeScopes(env.catalog, Field(input, "scopes")), Bool(true), Str(stamp),
                   expiresAt, Null, Null, RateLimit(env, Field(input, "rateLimitPerMinute")), Str("dak_" + id),
                   Str(hash)];
    Tabled(names, values);
  }

  /** A record written out under eleven different names. */
  lemma Tabled(n: seq<string>, v: seq<Json>)
    requires |n| == |v| == 11 && forall i, j :: 0 <= i < j < 11 ==> n[i] != n[j]
    ensures var m := map[n[0] := v[0], n[1] := v[1], n[2] := v[2], n[3] := v[3], n[4] := v[4], n[5] := v[5],
                         n[6] := v[6], n[7] := v[7], n[8] := v[8], n[9] := v[9], n[10] := v[10]];
      && m.Keys == {n[0], n[1], n[2], n[3], n[4], n[5], n[6], n[7], n[8], n[9], n[10]}
      && m[n[0]] == v[0] && m[n[1]] == v[1] && m[n[2]] == v[2] && m[n[3]] == v[3] && m[n[4]] == v[4]
      && m[n[5]] == v[5] && m[n[6]] == v[6] && m[n[7]] == v[7] && m[n[8]] == v[8] && m[n[9]] == v[9]
      && m[n[10]] == v[10]
  {
  }

  /** The eleven names of a new record are different. */
  lemma Apart()
    ensures var n := ["id", "name", "scopes", "enabled", "createdAt", "expiresAt", "lastUsedAt", "lastUsedIp",
                      "rateLimitPerMinute", "prefix", "hash"];
      forall i, j :: 0 <= i < j < 11 ==> n[i] != n[j]
  {
    var n := ["id", "name", "scopes", "enabled", "createdAt", "expiresAt", "lastUsedAt", "lastUsedIp",
              "rateLimitPerMinute", "prefix", "hash"];
    assert |n[0]| == 2 && |n[1]| == 4 && |n[2]| == 6 && |n[3]| == 7 && |n[4]| == 9 && |n[5]| == 9;
    assert |n[6]| == 10 && |n[7]| == 10 && |n[8]| == 18 && |n[9]| == 6 && |n[10]| == 4;
    assert n[1][0] == 'n' && n[10][0] == 'h' && n[2][0] == 's' && n[9][0] == 'p';
    assert n[4][0] == 'c' && n[5][0] == 'e' && n[6][9] == 't' && n[7][9] == 'p';
  }

  // ---- update ----

  /** What a patch is refused for. */
  predicate Refused(env: Env, patch: map<string, Json>) {
    || ("name" in patch && env.nameOf(patch["name"]).None?)
    || ("enabled" in patch && !patch["enabled"].Bool?)
    || ("expiresAt" in patch && Expiry(env, patch["expiresAt"]).None?)
  }

  /** An update changes the first record of its id alone, in memory and file, exactly
      when there is one, the patch is accepted as a whole and the write goes well. It
      replaces the fields that the patch names, scopes wholesale, and no other. */
  lemma UpdateStores(env: Env, s: State, id: string, patch: map<string, Json>, ok: bool)
    ensures var t := Next(env, s, Update(id, patch, ok));
      var i := ById(s.keys, id);
      && (i == |s.keys| || Refused(env, patch) || !ok ==> t == s)
      && (i < |s.keys| && !Refused(env, patch) && ok ==>
            |t.keys| == |s.keys| && t.file == Stored(t.keys) &&
            (forall j :: 0 <= j < |s.keys| && j != i ==> t.keys[j] == s.keys[j]) &&
            var was, now := s.keys[i], t.keys[i];
            && ("name" in patch ==> "name" in now && now["name"] == Str(env.nameOf(patch["name"]).value))
            && ("scopes" in patch ==>
                  "scopes" in now && now["scopes"] == NormalizeScopes(env.catalog, patch["scopes"]))
            && ("enabled" in patch ==> "enabled" in now && now["enabled"] == patch["enabled"])
            && ("expiresAt" in patch ==>
                  "expiresAt" in now && now["expiresAt"] == Expiry(env, patch["expiresAt"]).value)
            && ("rateLimitPerMinute" in patch ==>
                  Field(now, "rateLimitPerMinute") == RateLimit(env, patch["rateLimitPerMinute"]))
            && forall f :: !(f in patch && (f == "name" || Reread(f))) ==>
                 (f in now <==> f in was) && (f in was ==> now[f] == was[f]))
  {
    hide NormalizeScopes, RateLimit, Expiry, Stored, ById;
    var i := ById(s.keys, id);
    if i < |s.keys| && !Refused(env, patch) && ok {
      StagedExactly(env, patch);
    }
  }

  lemma StagedExactly(env: Env, patch: map<string, Json>)
    requires !Refused(env, patch)
    ensures Staged(env, patch).Some?
    ensures var staged := Staged(env, patch).value;
      && (forall f :: f in staged <==> f in patch && (f == "name" || Reread(f)))
      && ("name" in patch ==> staged["name"] == Str(env.nameOf(patch["name"]).value))
      && ("scopes" in patch ==> staged["scopes"] == NormalizeScopes(env.catalog, patch["scopes"]))
      && ("enabled" in patch ==> staged["enabled"] == patch["enabled"])
      && ("expiresAt" in patch ==> staged["expiresAt"] == Expiry(env, patch["expiresAt"]).value)
      && ("rateLimitPerMinute" in patch ==>
            staged["rateLimitPerMinute"] == RateLimit(env, patch["rateLimitPerMinute"]))
  {
    hide NormalizeScopes, RateLimit, Expiry;
    FieldNames();
    OtherNames();
  }

  // ---- uses ----

  /** A use of a key that the store has is in memory and file after the next flush
      whose write goes well: the first record of the id shows when and from where it
      was last used, and is otherwise as it was. */
  lemma UseReachesFile(env: Env, s: State, id: string, ip: Json, stamp: string)
    requires ById(s.keys, id) < |s.keys|
    ensures var t := Next(env, Next(env, s, RecordUse(id, ip, stamp)), Flush(true));
      var i := ById(s.keys, id);
      && t.pending == map[] && t.file == Stored(t.keys) && |t.keys| == |s.keys|
      && "lastUsedAt" in t.keys[i] && t.keys[i]["lastUsedAt"] == Str(stamp)
      && "lastUsedIp" in t.keys[i] && t.keys[i]["lastUsedIp"] ==
           (if ip in {Str(""), Bool(false), Num(0.0)} then Null else ip)
      && forall f :: f != "lastUsedAt" && f != "lastUsedIp" ==>
           (f in t.keys[i] <==> f in s.keys[i]) && (f in s.keys[i] ==> t.keys[i][f] == s.keys[i][f])
  {
    hide Stored, ById;
    var i := ById(s.keys, id);
    var u := Next(env, s, RecordUse(id, ip, stamp));
    assert u.pending[id] == Use(stamp, OrNull(ip)) && Has(u.keys, id);
    assert Next(env, u, Flush(true)).keys[i] == Used(s.keys[i], Use(stamp, OrNull(ip)));
    UsedExactly(s.keys[i], Use(stamp, OrNull(ip)));
  }

  lemma UsedExactly(r: Record, use: Use)
    ensures var t := Used(r, use);
      && "lastUsedAt" in t && t["lastUsedAt"] == Str(use.at) && "lastUsedIp" in t && t["lastUsedIp"] == use.ip
      && forall f :: f != "lastUsedAt" && f != "lastUsedIp" ==> (f in t <==> f in r) && (f in r ==> t[f] == r[f])
  {
    assert "lastUsedAt"[9] == 't' && "lastUsedIp"[9] == 'p';
  }

  /** A flush changes no record without a buffered use, and none behind the first of
      its id. */
  lemma FlushLeaves(env: Env, s: State, ok: bool, i: nat)
    requires i < |s.keys| && (Id(s.keys[i]) !in s.pending || exists j :: 0 <= j < i && Id(s.keys[j]) == Id(s.keys[i]))
    ensures var t := Next(env, s, Flush(ok)); |t.keys| == |s.keys| && t.keys[i] == s.keys[i]
  {
    hide Used;
  }
}
