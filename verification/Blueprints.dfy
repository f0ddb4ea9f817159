/** Importing a blueprint file into stored rows and exporting them again: ids are
    shifted away from zero and filled in, shields follow their placeables, claim
    consoles stay out, old archives get their axes turned. Which building types are
    claim consoles or structural are parameters; numbers are exact. */
module Blueprints {
  import opened Wrappers

  datatype Result<+T> = Ok(value: T) | Error(message: string)

  // ---- files and rows ----

  /** Ids are what optionalNonnegativeInteger makes of them. */
  datatype Instance = Instance(id: Option<nat>, kind: string, x: real, y: real, z: real, rotation: real,
      stability: Option<bool>)
  datatype Placeable = Placeable(id: Option<nat>, kind: string, x: real, y: real, z: real,
    rx: Option<real>, ry: Option<real>, rz: Option<real>)
  /** A shield's reference: a number, one that reads as zero, or none. */
  datatype Ref = Whole(n: int) | BlankRef | NoNumber
  datatype Scale = Scale(a: int, b: int, c: int)
  datatype Shield = Shield(ref: Ref, scale: Option<Scale>)
  datatype File = File(instances: seq<Instance>, placeables: seq<Placeable>, shields: seq<Shield>)

  datatype InstanceRow = InstanceRow(id: nat, kind: string, x: real, y: real, z: real, rotation: real, stability: bool)
  datatype PlaceableRow = PlaceableRow(id: nat, kind: string, x: real, y: real, z: real, yaw: real, pitch: real,
      roll: real)
  datatype ShieldRow = ShieldRow(id: int, scale: Scale)
  datatype Blueprint = Blueprint(instances: seq<InstanceRow>, placeables: seq<PlaceableRow>, shields: seq<ShieldRow>)

  type Kinds = string -> bool

  // ---- ids ----

  const DUPLICATE := "Blueprint contains a duplicate ID"

  function Offset(ids: seq<Option<nat>>): nat { if Some(0) in ids then 1 else 0 }

  predicate Duplicates(ids: seq<Option<nat>>) { exists i, j :: 0 <= i < j < |ids| && ids[i].Some? && ids[i] == ids[j] }

  /** The ids the file names, shifted. */
  function Reserved(ids: seq<Option<nat>>): set<nat> { Taken(ids, Offset(ids)) }

  /** The first number from n on that is not taken. */
  function NextFree(taken: set<nat>, n: nat): (m: nat)
    ensures m >= n && m !in taken
    decreases |taken|
  {
    if n in taken then NextFree(taken - {n}, n + 1) else n
  }

  lemma {:induction false} NextFreeFirst(taken: set<nat>, n: nat, k: nat)
    requires n <= k < NextFree(taken, n)
    ensures k in taken
    decreases |taken|
  {
    if n < k { NextFreeFirst(taken - {n}, n + 1, k); }
  }

  function Assigned(ids: seq<Option<nat>>, offset: nat, taken: set<nat>, next: nat): (r: seq<nat>)
    ensures |r| == |ids|
    decreases |ids|
  {
    if ids == [] then []
    else if ids[0].Some? then [ids[0].value + offset] + Assigned(ids[1..], offset, taken, next)
    else
      var free := NextFree(taken, next);
      [free] + Assigned(ids[1..], offset, taken + {free}, free + 1)
  }

  /** The resolved ids of rows without duplicates. */
  function Resolved(ids: seq<Option<nat>>): (r: seq<nat>)
    ensures |r| == |ids|
  {
    Assigned(ids, Offset(ids), Reserved(ids), 1)
  }

  function SourceToId(ids: seq<Option<nat>>, offset: nat): map<nat, nat> {
    map x | x in ids && x.Some? :: x.value := x.value + offset
  }

  function Taken(ids: seq<Option<nat>>, offset: nat): set<nat> { set x | x in ids && x.Some? :: x.value + offset }

  lemma DuplicateOf(ids: seq<Option<nat>>, x: Option<nat>)
    requires !Duplicates(ids)
    ensures Duplicates(ids + [x]) <==> x.Some? && x in ids
  {
    var more := ids + [x];
    assert more[|ids|] == x && forall i :: 0 <= i < |ids| ==> more[i] == ids[i];
    if x.Some? && x in ids {
      var i :| 0 <= i < |ids| && ids[i] == x;
      assert more[i] == more[|ids|];
    }
    if Duplicates(more) {
      var i, j :| 0 <= i < j < |more| && more[i].Some? && more[i] == more[j];
      assert j == |ids|;
      assert ids[i] in ids;
    }
  }

  /** One more row adds its id, or names one twice. */
  lemma OneMoreId(ids: seq<Option<nat>>, x: Option<nat>, offset: nat)
    requires !Duplicates(ids)
    ensures Duplicates(ids + [x]) <==> x.Some? && x.value + offset in Taken(ids, offset)
    ensures Taken(ids + [x], offset) == Taken(ids, offset) + if x.Some? then {x.value + offset} else {}
    ensures SourceToId(ids + [x], offset)
      == if x.Some? then SourceToId(ids, offset)[x.value := x.value + offset] else SourceToId(ids, offset)
  {
    hide Duplicates;
    DuplicateOf(ids, x);
    var more := ids + [x];
    assert forall y :: y in more <==> y in ids || y == x;
    assert x.Some? ==> (x in ids <==> x.value + offset in Taken(ids, offset));
  }

  lemma {:induction false} DuplicatesStay(ids: seq<Option<nat>>, n: nat)
    requires n <= |ids| && Duplicates(ids[..n])
    ensures Duplicates(ids)
  {
    var i, j :| 0 <= i < j < n && ids[..n][i].Some? && ids[..n][i] == ids[..n][j];
    assert ids[i] == ids[j];
  }

  /** The ids the file names, unless one comes twice. */
  method ReserveIds(sourceIds: seq<Option<nat>>, offset: nat)
    returns (twice: bool, reserved: set<nat>, sourceToId: map<nat, nat>)
    ensures twice <==> Duplicates(sourceIds)
    ensures !twice ==> reserved == Taken(sourceIds, offset) && sourceToId == SourceToId(sourceIds, offset)
  {
    hide Duplicates, Taken, SourceToId;
    reserved, sourceToId := {}, map[];
    NoIds(offset);
    for i := 0 to |sourceIds|
      invariant !Duplicates(sourceIds[..i])
      invariant reserved == Taken(sourceIds[..i], offset) && sourceToId == SourceToId(sourceIds[..i], offset)
    {
      OneMoreId(sourceIds[..i], sourceIds[i], offset);
      assert sourceIds[..i + 1] == sourceIds[..i] + [sourceIds[i]];
      if sourceIds[i].None? { continue; }
      var resolved := sourceIds[i].value + offset;
      if resolved in reserved {
        DuplicatesStay(sourceIds, i + 1);
        return true, {}, map[];
      }
      reserved := reserved + {resolved};
      sourceToId := sourceToId[sourceIds[i].value := resolved];
    }
    assert sourceIds[..|sourceIds|] == sourceIds;
    twice := false;
  }

  lemma NoIds(offset: nat)
    ensures !Duplicates([]) && Taken([], offset) == {} && SourceToId([], offset) == map[]
  {
  }

  /** resolveImportIds. */
  method ResolveImportIds(sourceIds: seq<Option<nat>>) returns (r: Result<seq<nat>>, sourceToId: map<nat, nat>)
    ensures Duplicates(sourceIds) <==> r.Error?
    ensures r.Ok? ==> r.value == Resolved(sourceIds) && sourceToId == SourceToId(sourceIds, Offset(sourceIds))
  {
    hide Duplicates, Taken, SourceToId, Assigned, NextFree;
    var offset := Offset(sourceIds);
    var twice, reserved, named := ReserveIds(sourceIds, offset);
    sourceToId := named;
    if twice { return Error(DUPLICATE), named; }
    var nextId := 1;
    var ids: seq<nat> := [];
    for i := 0 to |sourceIds|
      invariant Resolved(sourceIds) == ids + Assigned(sourceIds[i..], offset, reserved, nextId)
    {
      assert sourceIds[i..][1..] == sourceIds[i + 1..];
      AssignedNext(sourceIds[i..], offset, reserved, nextId);
      if sourceIds[i].Some? {
        ids := ids + [sourceIds[i].value + offset];
      } else {
        var free := FindFree(reserved, nextId);
        reserved := reserved + {free};
        nextId := free + 1;
        ids := ids + [free];
      }
    }
    r := Ok(ids);
  }

  lemma AssignedNext(ids: seq<Option<nat>>, offset: nat, taken: set<nat>, next: nat)
    requires ids != []
    ensures Assigned(ids, offset, taken, next)
      == if ids[0].Some? then [ids[0].value + offset] + Assigned(ids[1..], offset, taken, next)
         else [NextFree(taken, next)] +
                Assigned(ids[1..], offset, taken + {NextFree(taken, next)}, NextFree(taken, next) + 1)
  {
    hide NextFree;
  }

  method FindFree(reserved: set<nat>, nextId: nat) returns (free: nat)
    ensures free == NextFree(reserved, nextId)
  {
    free := nextId;
    while free in reserved
      invariant nextId <= free <= NextFree(reserved, nextId)
      decreases NextFree(reserved, nextId) - free
    {
      free := free + 1;
    }
    if free < NextFree(reserved, nextId) { NextFreeFirst(reserved, nextId, free); }
  }

  /** Named ids are shifted, the others fresh. */
  lemma {:induction false} AssignedEach(ids: seq<Option<nat>>, offset: nat, taken: set<nat>, next: nat, i: nat)
    requires i < |ids|
    ensures var r := Assigned(ids, offset, taken, next);
      if ids[i].Some? then r[i] == ids[i].value + offset else r[i] >= next && r[i] !in taken
    decreases |ids|
  {
    if i > 0 {
      var free := NextFree(taken, next);
      if ids[0].Some? {
        AssignedEach(ids[1..], offset, taken, next, i - 1);
      } else {
        AssignedEach(ids[1..], offset, taken + {free}, free + 1, i - 1);
      }
    }
  }

  lemma {:induction false} AssignedApart(ids: seq<Option<nat>>, offset: nat, taken: set<nat>, next: nat, i: nat, j: nat)
    requires i < j < |ids|
    requires ids[i].Some? ==> ids[i] != ids[j]
    requires forall k :: 0 <= k < |ids| && ids[k].Some? ==> ids[k].value + offset in taken
    ensures var r := Assigned(ids, offset, taken, next); r[i] != r[j]
    decreases |ids|
  {
    var rest, free := ids[1..], NextFree(taken, next);
    assert forall k :: 0 <= k < |rest| ==> rest[k] == ids[k + 1];
    if ids[0].Some? {
      if i == 0 {
        AssignedEach(rest, offset, taken, next, j - 1);
      } else {
        AssignedApart(rest, offset, taken, next, i - 1, j - 1);
      }
    } else {
      if i == 0 {
        AssignedEach(rest, offset, taken + {free}, free + 1, j - 1);
        assert ids[j].Some? ==> ids[j].value + offset in taken;
      } else {
        AssignedApart(rest, offset, taken + {free}, free + 1, i - 1, j - 1);
      }
    }
  }

  /** Imported ids are positive and distinct, and keep the order of the ids the
      file names. */
  lemma ResolvedIds(ids: seq<Option<nat>>)
    requires !Duplicates(ids)
    ensures var r := Resolved(ids);
      && (forall i :: 0 <= i < |r| ==> r[i] >= 1)
      && (forall i, j :: 0 <= i < j < |r| ==> r[i] != r[j])
      && (forall i :: 0 <= i < |r| && ids[i].Some? ==> r[i] == ids[i].value + Offset(ids))
      && forall i, j :: 0 <= i < |r| && 0 <= j < |r| && ids[i].Some? && ids[j].Some? ==> (
        ids[i].value < ids[j].value ==> r[i] < r[j])
  {
    var r := Resolved(ids);
    forall i | 0 <= i < |ids| ensures r[i] >= 1 && (ids[i].Some? ==> r[i] == ids[i].value + Offset(ids)) {
      AssignedEach(ids, Offset(ids), Reserved(ids), 1, i);
      assert ids[i].Some? && ids[i].value == 0 ==> ids[i] == Some(0);
    }
    forall i, j | 0 <= i < j < |ids| ensures r[i] != r[j] {
      AssignedApart(ids, Offset(ids), Reserved(ids), 1, i, j);
    }
  }

  // ---- old archives ----

  predicate NearZero(v: Option<real>) { v.None? || -0.0001 < v.value < 0.0001 }

  /** Every yaw in the third axis, nothing in the others. */
  predicate LegacyAxes(ps: seq<Placeable>) {
    (forall i :: 0 <= i < |ps| ==> NearZero(ps[i].rx) && NearZero(ps[i].ry))
    && exists i :: 0 <= i < |ps| && !NearZero(ps[i].rz)
  }

  function OrZero(v: Option<real>): real { if v.Some? then v.value else 0.0 }

  function Turned(p: Placeable): Placeable { p.(ry := Some(OrZero(p.rz)), rz := Some(0.0)) }

  function TurnedAll(ps: seq<Placeable>): (r: seq<Placeable>)
    ensures |r| == |ps| && forall i :: 0 <= i < |ps| ==> r[i] == Turned(ps[i])
  {
    seq(|ps|, i requires 0 <= i < |ps| => Turned(ps[i]))
  }

  function Normalized(ps: seq<Placeable>): (r: seq<Placeable>)
    ensures |r| == |ps| && forall i :: 0 <= i < |ps| ==> r[i].id == ps[i].id && r[i].kind == ps[i].kind
  {
    if LegacyAxes(ps) then TurnedAll(ps) else ps
  }

  // ---- import ----

  function InstanceIds(rows: seq<Instance>): (r: seq<Option<nat>>)
    ensures |r| == |rows| && forall i :: 0 <= i < |rows| ==> r[i] == rows[i].id
  {
    seq(|rows|, i requires 0 <= i < |rows| => rows[i].id)
  }

  function PlaceableIds(rows: seq<Placeable>): (r: seq<Option<nat>>)
    ensures |r| == |rows| && forall i :: 0 <= i < |rows| ==> r[i] == rows[i].id
  {
    seq(|rows|, i requires 0 <= i < |rows| => rows[i].id)
  }

  function StoredInstance(i: Instance, id: nat, structural: Kinds): InstanceRow {
    InstanceRow(id, i.kind, i.x, i.y, i.z, i.rotation,
      if i.stability.Some? then i.stability.value else structural(i.kind))
  }

  /** The file's axes are pitch, yaw and roll; rows keep yaw first. */
  function StoredPlaceable(p: Placeable, id: nat): PlaceableRow {
    PlaceableRow(id, p.kind, p.x, p.y, p.z, OrZero(p.ry), OrZero(p.rx), OrZero(p.rz))
  }

  function StoredInstances(rows: seq<Instance>, structural: Kinds): (r: seq<InstanceRow>)
    ensures |r| == |rows|
    ensures forall i :: 0 <= i < |r| ==> r[i] == StoredInstance(rows[i], Resolved(InstanceIds(rows))[i], structural)
  {
    var ids := Resolved(InstanceIds(rows));
    seq(|rows|, i requires 0 <= i < |rows| => StoredInstance(rows[i], ids[i], structural))
  }

  function StoredPlaceables(rows: seq<Placeable>): (r: seq<PlaceableRow>)
    ensures |r| == |rows|
    ensures forall i :: 0 <= i < |r| ==> r[i] == StoredPlaceable(rows[i], Resolved(PlaceableIds(rows))[i])
  {
    var ids := Resolved(PlaceableIds(rows));
    seq(|rows|, i requires 0 <= i < |rows| => StoredPlaceable(rows[i], ids[i]))
  }

  /** Number(placeable_id), and optionalNonnegativeInteger of it. */
  function Number(ref: Ref): Option<int> {
    match ref case Whole(n) => Some(n) case BlankRef => Some(0) case NoNumber => None
  }

  function Named(ref: Ref): Option<nat> { if ref.Whole? && ref.n >= 0 then Some(ref.n) else None }

  /** Where a shield's row points: at the placeable it names, else at the number itself. */
  function Target(ref: Ref, kept: seq<Option<nat>>): int {
    match Number(ref)
    case None => 0
    case Some(n) => if n >= 0 && Some(n as nat) in kept then n + Offset(kept) else n
  }

  function StoredShields(shields: seq<Shield>, kept: seq<Option<nat>>): seq<ShieldRow> {
    if shields == [] then []
    else
      var front, last := StoredShields(shields[..|shields| - 1], kept), shields[|shields| - 1];
      if last.scale.None? then front else front + [ShieldRow(Target(last.ref, kept), last.scale.value)]
  }

  function Safe(ps: seq<Placeable>, claim: Kinds): seq<Placeable> {
    if ps == [] then []
    else
      var front, last := Safe(ps[..|ps| - 1], claim), ps[|ps| - 1];
      if claim(last.kind) then front else front + [last]
  }

  function Removed(ps: seq<Placeable>, claim: Kinds): set<nat> {
    set p | p in ps && claim(p.kind) && p.id.Some? :: p.id.value
  }

  predicate NamesAny(s: Shield, ids: set<nat>) { Named(s.ref).Some? && Named(s.ref).value in ids }

  /** Shields that name no removed console. */
  function Linked(shields: seq<Shield>, removed: set<nat>): seq<Shield> {
    if shields == [] then []
    else
      var front, last := Linked(shields[..|shields| - 1], removed), shields[|shields| - 1];
      if NamesAny(last, removed) then front else front + [last]
  }

  /** importBlueprint: the rows it stores. */
  function Import(f: File, claim: Kinds, structural: Kinds): Result<Blueprint> {
    var placeables := Safe(f.placeables, claim);
    var shields := Linked(f.shields, Removed(f.placeables, claim));
    if f.instances == [] && placeables == [] && shields == [] then Error("Blueprint has nothing to import")
    else if Duplicates(InstanceIds(f.instances)) || Duplicates(PlaceableIds(placeables)) then Error(DUPLICATE)
    else Ok(Blueprint(StoredInstances(f.instances, structural), StoredPlaceables(Normalized(placeables)),
                      StoredShields(shields, PlaceableIds(placeables))))
  }

  lemma {:induction false} SafeOnly(ps: seq<Placeable>, claim: Kinds)
    ensures forall p :: p in Safe(ps, claim) <==> p in ps && !claim(p.kind)
  {
    if ps != [] {
      SafeOnly(ps[..|ps| - 1], claim);
      assert ps == ps[..|ps| - 1] + [ps[|ps| - 1]];
    }
  }

  lemma {:induction false} LinkedOnly(shields: seq<Shield>, removed: set<nat>)
    ensures forall s :: s in Linked(shields, removed) <==> s in shields && !NamesAny(s, removed)
  {
    if shields != [] {
      LinkedOnly(shields[..|shields| - 1], removed);
      assert shields == shields[..|shields| - 1] + [shields[|shields| - 1]];
    }
  }

  predicate RowOf(s: Shield, row: ShieldRow, kept: seq<Option<nat>>) {
    s.scale == Some(row.scale) && row.id == Target(s.ref, kept)
  }

  lemma {:induction false} ShieldRows(shields: seq<Shield>, kept: seq<Option<nat>>)
    ensures forall row :: row in StoredShields(shields, kept) <==> exists s :: s in shields && RowOf(s, row, kept)
  {
    if shields != [] {
      var front, last := shields[..|shields| - 1], shields[|shields| - 1];
      ShieldRows(front, kept);
      assert shields == front + [last];
      forall row ensures row in StoredShields(shields, kept) <==> exists s :: s in shields && RowOf(s, row, kept) {
        if row in StoredShields(front, kept) {
          var s :| s in front && RowOf(s, row, kept);
          assert s in shields;
        } else if row in StoredShields(shields, kept) {
          assert last in shields && RowOf(last, row, kept);
        }
        if s :| s in shields && RowOf(s, row, kept) {
          assert s in front || s == last;
        }
      }
    }
  }

  /** An accepted file: a row per instance and per placeable that is no claim
      console, their ids positive, distinct and in the order of the ids named. */
  lemma ImportedRows(f: File, claim: Kinds, structural: Kinds)
    requires Import(f, claim, structural).Ok?
    ensures var b, kept := Import(f, claim, structural).value, Safe(f.placeables, claim);
      && |b.instances| == |f.instances| && |b.placeables| == |kept|
      && (forall i :: 0 <= i < |kept| ==> !claim(b.placeables[i].kind) && b.placeables[i].id >= 1)
      && (forall i, j :: 0 <= i < j < |kept| ==> b.placeables[i].id != b.placeables[j].id)
      && (forall i, j :: 0 <= i < j < |f.instances| ==> b.instances[i].id != b.instances[j].id)
      && (forall i :: 0 <= i < |f.instances| ==> b.instances[i].id >= 1)
      && OrderKept(InstanceIds(f.instances), seq(|b.instances|, i requires 0 <= i < |b.instances| => b.instances[i].id))
      && OrderKept(PlaceableIds(kept), seq(|b.placeables|, i requires 0 <= i < |b.placeables| => b.placeables[i].id))
  {
    var b, kept := Import(f, claim, structural).value, Safe(f.placeables, claim);
    SafeOnly(f.placeables, claim);
    ResolvedIds(InstanceIds(f.instances));
    ResolvedIds(PlaceableIds(kept));
    assert PlaceableIds(Normalized(kept)) == PlaceableIds(kept);
    forall i | 0 <= i < |kept| ensures !claim(b.placeables[i].kind) { assert kept[i] in kept; }
  }

  ghost predicate OrderKept(named: seq<Option<nat>>, ids: seq<nat>) {
    |named| == |ids|
    && forall i, j :: 0 <= i < |ids| && 0 <= j < |ids| && named[i].Some? && named[j].Some? ==> (
      named[i].value < named[j].value ==> ids[i] < ids[j])
  }

  /** A shield that names a kept placeable, and no removed console, gets a row that
      points at the placeable's row. */
  lemma ShieldsFollow(f: File, claim: Kinds, structural: Kinds, s: Shield, k: nat, id: nat)
    requires Import(f, claim, structural).Ok? && s in f.shields && s.scale.Some? && s.ref == Whole(id)
    requires k < |Safe(f.placeables, claim)| && Safe(f.placeables, claim)[k].id == Some(id)
    requires id !in Removed(f.placeables, claim)
    ensures var b := Import(f, claim, structural).value; ShieldRow(b.placeables[k].id, s.scale.value) in b.shields
  {
    var b, kept := Import(f, claim, structural).value, Safe(f.placeables, claim);
    var ids := PlaceableIds(kept);
    LinkedOnly(f.shields, Removed(f.placeables, claim));
    ShieldRows(Linked(f.shields, Removed(f.placeables, claim)), ids);
    ResolvedIds(ids);
    assert PlaceableIds(Normalized(kept)) == ids;
    assert ids[k] in ids;
    assert Target(s.ref, ids) == b.placeables[k].id;
  }

  /** No row of a shield that names a removed console is stored. */
  lemma ShieldsOfConsolesGo(f: File, claim: Kinds, structural: Kinds, row: ShieldRow)
    requires Import(f, claim, structural).Ok? && row in Import(f, claim, structural).value.shields
    ensures var kept := PlaceableIds(Safe(f.placeables, claim));
      exists s :: s in f.shields && !NamesAny(s, Removed(f.placeables, claim)) && RowOf(s, row, kept)
  {
    LinkedOnly(f.shields, Removed(f.placeables, claim));
    ShieldRows(Linked(f.shields, Removed(f.placeables, claim)), PlaceableIds(Safe(f.placeables, claim)));
  }

  /** How many of the placeables are no claim consoles. */
  function Others(ps: seq<Placeable>, claim: Kinds): nat {
    if ps == [] then 0 else Others(ps[..|ps| - 1], claim) + if claim(ps[|ps| - 1].kind) then 0 else 1
  }

  /** The placeables that are kept stand in the order of the file. */
  lemma {:induction false} SafeAt(ps: seq<Placeable>, claim: Kinds, j: nat)
    requires j < |ps| && !claim(ps[j].kind)
    ensures |Safe(ps, claim)| == Others(ps, claim)
    ensures Others(ps[..j], claim) < |Safe(ps, claim)| && Safe(ps, claim)[Others(ps[..j], claim)] == ps[j]
  {
    var front := ps[..|ps| - 1];
    SafeSize(front, claim);
    if j < |front| {
      SafeAt(front, claim, j);
      assert front[..j] == ps[..j];
    }
  }

  lemma {:induction false} SafeSize(ps: seq<Placeable>, claim: Kinds)
    ensures |Safe(ps, claim)| == Others(ps, claim)
  {
    if ps != [] { SafeSize(ps[..|ps| - 1], claim); }
  }

  predicate Small(v: Option<real>) { v == None || -0.0001 < v.value < 0.0001 }

  /** Each piece keeps its kind and place, and its own word on stability before that
      of its kind. Each placeable that is no claim console keeps its kind and place
      and its turn: yaw from the file's second axis, pitch from the first and roll
      from the third; only when no kept placeable of the file has anything on the
      first two and some has something on the third, the yaw comes from there. */
  lemma ImportedGeometry(f: File, claim: Kinds, structural: Kinds, i: nat, j: nat)
    requires Import(f, claim, structural).Ok?
    ensures var b := Import(f, claim, structural).value;
      i < |f.instances| ==>
        var piece, row := f.instances[i], b.instances[i];
        && row.kind == piece.kind && (row.x, row.y, row.z) == (piece.x, piece.y, piece.z)
        && row.rotation == piece.rotation
        && row.stability == if piece.stability == None then structural(piece.kind) else piece.stability.value
    ensures var b := Import(f, claim, structural).value;
      j < |f.placeables| && !claim(f.placeables[j].kind) ==>
        var k := Others(f.placeables[..j], claim);
        k < |b.placeables| &&
        var p, row := f.placeables[j], b.placeables[k];
        && row.kind == p.kind && (row.x, row.y, row.z) == (p.x, p.y, p.z)
        && row.pitch == OrZero(p.rx)
        && (row.yaw, row.roll) ==
             if (forall q :: q in f.placeables && !claim(q.kind) ==> Small(q.rx) && Small(q.ry)) &&
                (exists q :: q in f.placeables && !claim(q.kind) && !Small(q.rz))
             then (OrZero(p.rz), 0.0) else (OrZero(p.ry), OrZero(p.rz))
  {
    hide Resolved, Duplicates, StoredShields, Safe, LegacyAxes, Others, Linked, Removed;
    if j < |f.placeables| && !claim(f.placeables[j].kind) {
      SafeAt(f.placeables, claim, j);
      LegacyExactly(f.placeables, claim);
    }
  }

  lemma LegacyExactly(ps: seq<Placeable>, claim: Kinds)
    ensures LegacyAxes(Safe(ps, claim)) <==>
            (forall q :: q in ps && !claim(q.kind) ==> Small(q.rx) && Small(q.ry)) &&
            (exists q :: q in ps && !claim(q.kind) && !Small(q.rz))
  {
    hide Safe;
    SafeOnly(ps, claim);
    var kept := Safe(ps, claim);
    assert forall i :: 0 <= i < |kept| ==> kept[i] in kept;
  }

  predicate PiecesClash(rows: seq<Instance>) {
    exists i, j :: 0 <= i < j < |rows| && rows[i].id.Some? && rows[i].id == rows[j].id
  }

  predicate PlaceablesClash(rows: seq<Placeable>) {
    exists i, j :: 0 <= i < j < |rows| && rows[i].id.Some? && rows[i].id == rows[j].id
  }

  /** A file is refused exactly when nothing is left of it, or two of its pieces or
      two of its kept placeables name one id. */
  lemma ImportRefuses(f: File, claim: Kinds, structural: Kinds)
    ensures var kept := Safe(f.placeables, claim);
      Import(f, claim, structural).Error? <==>
      || (f.instances == [] && kept == [] && Linked(f.shields, Removed(f.placeables, claim)) == [])
      || PiecesClash(f.instances)
      || PlaceablesClash(kept)
  {
    hide Safe, Linked, Removed, StoredInstances, StoredPlaceables, StoredShields, Normalized, Duplicates, PiecesClash,
         PlaceablesClash;
    PieceTwice(f.instances);
    PlaceableTwice(Safe(f.placeables, claim));
  }

  lemma PieceTwice(rows: seq<Instance>)
    ensures Duplicates(InstanceIds(rows)) <==> PiecesClash(rows)
  {
    var ids := InstanceIds(rows);
    if i, j :| 0 <= i < j < |rows| && rows[i].id.Some? && rows[i].id == rows[j].id {
      assert ids[i] == ids[j];
    }
  }

  lemma PlaceableTwice(rows: seq<Placeable>)
    ensures Duplicates(PlaceableIds(rows)) <==> PlaceablesClash(rows)
  {
    var ids := PlaceableIds(rows);
    if i, j :| 0 <= i < j < |rows| && rows[i].id.Some? && rows[i].id == rows[j].id {
      assert ids[i] == ids[j];
    }
  }

  /** What a shield with a scale is stored under, unless it names a removed console:
      its placeable's id, moved with it when some kept placeable has the id zero;
      else the number it gives; else zero. */
  lemma ShieldStored(f: File, claim: Kinds, structural: Kinds, s: Shield)
    requires Import(f, claim, structural).Ok? && s in f.shields && s.scale.Some?
    requires !(exists p :: p in f.placeables && claim(p.kind) && p.id.Some? && s.ref == Whole(p.id.value))
    ensures var rows := Import(f, claim, structural).value.shields;
      var number := if s.ref.Whole? then s.ref.n else 0;
      var named := exists p :: p in f.placeables && !claim(p.kind) && p.id.Some? && p.id.value == number;
      var zero := exists p :: p in f.placeables && !claim(p.kind) && p.id == Some(0);
      ShieldRow(if named && zero && s.ref != NoNumber then number + 1 else number, s.scale.value) in rows
  {
    hide Resolved, Duplicates, StoredInstances, StoredPlaceables, Normalized, StoredShields, Safe, Linked;
    var kept := Safe(f.placeables, claim);
    var ids := PlaceableIds(kept);
    SafeOnly(f.placeables, claim);
    LinkedOnly(f.shields, Removed(f.placeables, claim));
    ShieldRows(Linked(f.shields, Removed(f.placeables, claim)), ids);
    var number := if s.ref.Whole? then s.ref.n else 0;
    KeptNames(f.placeables, claim, number);
    KeptNames(f.placeables, claim, 0);
    assert RowOf(s, ShieldRow(Target(s.ref, ids), s.scale.value), ids);
  }

  lemma KeptNames(ps: seq<Placeable>, claim: Kinds, n: int)
    ensures n >= 0 && Some(n as nat) in PlaceableIds(Safe(ps, claim)) <==>
            exists p :: p in ps && !claim(p.kind) && p.id.Some? && p.id.value == n
  {
    hide Safe;
    SafeOnly(ps, claim);
    var kept := Safe(ps, claim);
    if p :| p in ps && !claim(p.kind) && p.id.Some? && p.id.value == n {
      var i :| 0 <= i < |kept| && kept[i] == p;
      assert PlaceableIds(kept)[i] == Some(n as nat);
    }
  }

  method InsertInstances(instances: seq<Instance>, ids: seq<nat>, structural: Kinds) returns (rows: seq<InstanceRow>)
    requires ids == Resolved(InstanceIds(instances))
    ensures rows == StoredInstances(instances, structural)
  {
    hide Resolved;
    rows := [];
    for i := 0 to |instances|
      invariant rows == StoredInstances(instances, structural)[..i]
    {
      rows := rows + [StoredInstance(instances[i], ids[i], structural)];
    }
  }

  method InsertPlaceables(placeables: seq<Placeable>, ids: seq<nat>) returns (rows: seq<PlaceableRow>)
    requires ids == Resolved(PlaceableIds(placeables))
    ensures rows == StoredPlaceables(placeables)
  {
    hide Resolved;
    rows := [];
    for i := 0 to |placeables|
      invariant rows == StoredPlaceables(placeables)[..i]
    {
      rows := rows + [StoredPlaceable(placeables[i], ids[i])];
    }
  }

  /** A shield points where the map sends its number, else at the number. */
  method InsertShields(shields: seq<Shield>, ghost kept: seq<Option<nat>>, sourceToId: map<nat, nat>)
    returns (rows: seq<ShieldRow>)
    requires sourceToId == SourceToId(kept, Offset(kept))
    ensures rows == StoredShields(shields, kept)
  {
    rows := [];
    for i := 0 to |shields|
      invariant rows == StoredShields(shields[..i], kept)
    {
      assert shields[..i + 1][..i] == shields[..i];
      if shields[i].scale.None? { continue; }
      var source := Number(shields[i].ref);
      var id := if source.None? then 0
                else if source.value >= 0 && (source.value as nat) in sourceToId then sourceToId[source.value]
                else source.value;
      assert id == Target(shields[i].ref, kept);
      rows := rows + [ShieldRow(id, shields[i].scale.value)];
    }
    assert shields[..|shields|] == shields;
  }

  /** importBlueprint: what is left of the file after the safety filters. */
  method ImportBlueprint(f: File, claim: Kinds, structural: Kinds) returns (r: Result<Blueprint>)
    ensures r == Import(f, claim, structural)
  {
    hide Duplicates, Resolved, StoredShields, SourceToId, Linked, Safe, Removed;
    var placeables := Safe(f.placeables, claim);
    var shields := Linked(f.shields, Removed(f.placeables, claim));
    if f.instances == [] && placeables == [] && shields == [] { return Error("Blueprint has nothing to import"); }
    var instanceIds, _ := ResolveImportIds(InstanceIds(f.instances));
    if instanceIds.Error? { return Error(DUPLICATE); }
    var placeableIds, sourceToId := ResolveImportIds(PlaceableIds(placeables));
    if placeableIds.Error? { return Error(DUPLICATE); }
    var normalized := Normalized(placeables);
    assert PlaceableIds(normalized) == PlaceableIds(placeables);
    var instanceRows := InsertInstances(f.instances, instanceIds.value, structural);
    var placeableRows := InsertPlaceables(normalized, placeableIds.value);
    var shieldRows := InsertShields(shields, PlaceableIds(placeables), sourceToId);
    r := Ok(Blueprint(instanceRows, placeableRows, shieldRows));
  }

  // ---- export and back ----

  function ExportedInstances(rows: seq<InstanceRow>): (r: seq<Instance>)
    ensures |r| == |rows|
    ensures forall i :: 0 <= i < |r| ==> var t := rows[i];
      r[i] == Instance(Some(t.id), t.kind, t.x, t.y, t.z, t.rotation, Some(t.stability))
  {
    seq(|rows|, i requires 0 <= i < |rows| => var t := rows[i];
      Instance(Some(t.id), t.kind, t.x, t.y, t.z, t.rotation, Some(t.stability)))
  }

  function ExportedPlaceable(t: PlaceableRow): Placeable {
    Placeable(Some(t.id), t.kind, t.x, t.y, t.z, Some(t.pitch), Some(t.yaw), Some(t.roll))
  }

  function ExportedPlaceables(rows: seq<PlaceableRow>, claim: Kinds): seq<Placeable> {
    if rows == [] then []
    else
      var front, last := ExportedPlaceables(rows[..|rows| - 1], claim), rows[|rows| - 1];
      if claim(last.kind) then front else front + [ExportedPlaceable(last)]
  }

  function ExportedShields(rows: seq<ShieldRow>, removed: set<nat>): seq<Shield> {
    if rows == [] then []
    else
      var front, last := ExportedShields(rows[..|rows| - 1], removed), rows[|rows| - 1];
      if last.id >= 0 && last.id in removed then front else front + [Shield(Whole(last.id), Some(last.scale))]
  }

  /** exportBlueprint; rows come in the order of their ids. */
  function Export(b: Blueprint, claim: Kinds): File {
    var removed := set p | p in b.placeables && claim(p.kind) :: p.id;
    File(ExportedInstances(b.instances), ExportedPlaceables(b.placeables, claim), ExportedShields(b.shields, removed))
  }

  /** An exported file holds every row that is no claim console, its axes in the
      file's order, and every shield row that points at none. */
  lemma ExportExactly(b: Blueprint, claim: Kinds)
    ensures var f := Export(b, claim);
      && |f.instances| == |b.instances|
      && (forall i :: 0 <= i < |b.instances| ==> var t := b.instances[i];
            f.instances[i] == Instance(Some(t.id), t.kind, t.x, t.y, t.z, t.rotation, Some(t.stability)))
      && (forall p :: p in f.placeables <==>
            exists t :: t in b.placeables && !claim(t.kind) &&
              p == Placeable(Some(t.id), t.kind, t.x, t.y, t.z, Some(t.pitch), Some(t.yaw), Some(t.roll)))
      && (forall s :: s in f.shields <==>
            exists t :: t in b.shields && s == Shield(Whole(t.id), Some(t.scale)) &&
              !(exists p :: p in b.placeables && claim(p.kind) && p.id == t.id))
  {
    hide ExportedPlaceables, ExportedShields;
    var removed := set p | p in b.placeables && claim(p.kind) :: p.id;
    ExportedOnly(b.placeables, claim);
    ExportedShieldsOnly(b.shields, removed);
  }

  lemma {:induction false} ExportedOnly(rows: seq<PlaceableRow>, claim: Kinds)
    ensures forall p :: p in ExportedPlaceables(rows, claim) <==>
              exists t :: t in rows && !claim(t.kind) &&
                p == Placeable(Some(t.id), t.kind, t.x, t.y, t.z, Some(t.pitch), Some(t.yaw), Some(t.roll))
  {
    if rows != [] {
      var front, last := rows[..|rows| - 1], rows[|rows| - 1];
      ExportedOnly(front, claim);
      assert rows == front + [last];
    }
  }

  lemma {:induction false} ExportedShieldsOnly(rows: seq<ShieldRow>, removed: set<nat>)
    ensures forall s :: s in ExportedShields(rows, removed) <==>
              exists t :: t in rows && s == Shield(Whole(t.id), Some(t.scale)) && !(t.id >= 0 && t.id in removed)
  {
    if rows != [] {
      var front, last := rows[..|rows| - 1], rows[|rows| - 1];
      ExportedShieldsOnly(front, removed);
      assert rows == front + [last];
    }
  }

  /** Ids are the keys of their tables, and no row is a claim console. */
  ghost predicate Plain(b: Blueprint, claim: Kinds) {
    (forall i, j :: 0 <= i < j < |b.instances| ==> b.instances[i].id != b.instances[j].id)
    && (forall i, j :: 0 <= i < j < |b.placeables| ==> b.placeables[i].id != b.placeables[j].id)
    && forall i :: 0 <= i < |b.placeables| ==> !claim(b.placeables[i].kind)
  }

  function ShiftOf(zero: bool): nat { if zero then 1 else 0 }

  predicate ZeroInstance(b: Blueprint) { exists i :: 0 <= i < |b.instances| && b.instances[i].id == 0 }
  predicate ZeroPlaceable(b: Blueprint) { exists i :: 0 <= i < |b.placeables| && b.placeables[i].id == 0 }

  /** The same blueprint with each id space that contains zero moved up by one. */
  function Shifted(b: Blueprint): (r: Blueprint)
    ensures |r.instances| == |b.instances| && |r.placeables| == |b.placeables| && |r.shields| == |b.shields|
    ensures forall i :: 0 <= i < |b.instances| ==>
      r.instances[i] == b.instances[i].(id := b.instances[i].id + ShiftOf(ZeroInstance(b)))
    ensures forall i :: 0 <= i < |b.placeables| ==>
      r.placeables[i] == b.placeables[i].(id := b.placeables[i].id + ShiftOf(ZeroPlaceable(b)))
    ensures forall i :: 0 <= i < |b.shields| ==>
      r.shields[i] == b.shields[i].(id := b.shields[i].id + ShiftOf(ZeroPlaceable(b)))
  {
    Blueprint(
      seq(|b.instances|,
        i requires 0 <= i < |b.instances| => b.instances[i].(id := b.instances[i].id + ShiftOf(ZeroInstance(b)))),
      seq(|b.placeables|,
        i requires 0 <= i < |b.placeables| => b.placeables[i].(id := b.placeables[i].id + ShiftOf(ZeroPlaceable(b)))),
      seq(|b.shields|,
        i requires 0 <= i < |b.shields| => b.shields[i].(id := b.shields[i].id + ShiftOf(ZeroPlaceable(b)))))
  }

  predicate NearlyZero(x: real) { -0.0001 < x < 0.0001 }

  /** What an old archive looks like: no yaw, no pitch, some roll. */
  predicate LegacyRows(b: Blueprint) {
    (forall i :: 0 <= i < |b.placeables| ==> NearlyZero(b.placeables[i].pitch) && NearlyZero(b.placeables[i].yaw))
    && exists i :: 0 <= i < |b.placeables| && !NearlyZero(b.placeables[i].roll)
  }

  predicate NamesPlaceable(b: Blueprint, shield: ShieldRow) {
    exists i :: 0 <= i < |b.placeables| && b.placeables[i].id == shield.id
  }

  predicate AllNamed(b: Blueprint) { forall i :: 0 <= i < |b.shields| ==> NamesPlaceable(b, b.shields[i]) }

  predicate HasRows(b: Blueprint) { b.instances != [] || b.placeables != [] || b.shields != [] }

  lemma KindKept(t: PlaceableRow)
    ensures ExportedPlaceable(t).kind == t.kind
  {
  }

  lemma {:induction false} ExportedAll(rows: seq<PlaceableRow>, claim: Kinds)
    requires forall i :: 0 <= i < |rows| ==> !claim(rows[i].kind)
    ensures var r := ExportedPlaceables(rows, claim);
      |r| == |rows| && (forall i :: 0 <= i < |r| ==> r[i] == ExportedPlaceable(rows[i])) && Safe(r, claim) == r
  {
    hide ExportedPlaceable;
    if rows != [] {
      var front, last := rows[..|rows| - 1], rows[|rows| - 1];
      ExportedAll(front, claim);
      var r := ExportedPlaceables(rows, claim);
      assert r[..|r| - 1] == ExportedPlaceables(front, claim) && r[|r| - 1] == ExportedPlaceable(last);
      KindKept(last);
    }
  }

  lemma {:induction false} ExportedShieldsAll(rows: seq<ShieldRow>)
    ensures var r := ExportedShields(rows, {});
      |r| == |rows| && (forall i :: 0 <= i < |r| ==> r[i] == Shield(Whole(rows[i].id), Some(rows[i].scale))) &&
      Linked(r, {}) == r
  {
    if rows != [] { ExportedShieldsAll(rows[..|rows| - 1]); }
  }

  lemma {:induction false} ShieldsBack(rows: seq<ShieldRow>, shields: seq<Shield>, kept: seq<Option<nat>>)
    requires |shields| == |rows|
    requires forall i :: 0 <= i < |rows| ==> shields[i] == Shield(Whole(rows[i].id), Some(rows[i].scale))
    ensures var r := StoredShields(shields, kept);
      |r| == |rows| && forall i :: 0 <= i < |r| ==> r[i] == ShieldRow(Target(Whole(rows[i].id), kept), rows[i].scale)
  {
    if rows != [] { ShieldsBack(rows[..|rows| - 1], shields[..|shields| - 1], kept); }
  }

  /** The instances come back, shifted. */
  lemma InstancesBack(b: Blueprint, claim: Kinds, structural: Kinds)
    requires Plain(b, claim)
    ensures var rows := ExportedInstances(b.instances);
      !Duplicates(InstanceIds(rows)) && StoredInstances(rows, structural) == Shifted(b).instances
  {
    var rows := ExportedInstances(b.instances);
    var ids := InstanceIds(rows);
    assert !Duplicates(ids);
    ResolvedIds(ids);
    OffsetIs(ids, ZeroInstance(b));
  }

  lemma OffsetIs(ids: seq<Option<nat>>, zero: bool)
    requires zero <==> exists i :: 0 <= i < |ids| && ids[i] == Some(0)
    ensures Offset(ids) == ShiftOf(zero)
  {
  }

  /** Exported ids are the rows' own, and read back shifted. */
  lemma PlaceableIdsBack(b: Blueprint, claim: Kinds)
    requires Plain(b, claim)
    ensures var ids := PlaceableIds(ExportedPlaceables(b.placeables, claim));
      && |ids| == |b.placeables| && (forall i :: 0 <= i < |ids| ==> ids[i] == Some(b.placeables[i].id))
      && !Duplicates(ids) && Offset(ids) == ShiftOf(ZeroPlaceable(b))
      && forall i :: 0 <= i < |ids| ==> Resolved(ids)[i] == b.placeables[i].id + ShiftOf(ZeroPlaceable(b))
  {
    var ids := PlaceableIds(ExportedPlaceables(b.placeables, claim));
    ExportedAll(b.placeables, claim);
    assert forall i :: 0 <= i < |ids| ==> ids[i] == Some(b.placeables[i].id);
    assert !Duplicates(ids);
    ResolvedIds(ids);
    OffsetIs(ids, ZeroPlaceable(b));
  }

  /** The placeables come back, shifted, unless they look like an old archive. */
  lemma PlaceablesBack(b: Blueprint, claim: Kinds)
    requires Plain(b, claim)
    ensures StoredPlaceables(Normalized(ExportedPlaceables(b.placeables, claim))) == Shifted(b).placeables <==>
            !LegacyRows(b)
  {
    hide Resolved, Duplicates, LegacyAxes, ExportedPlaceables, LegacyRows, ZeroPlaceable;
    var rows := ExportedPlaceables(b.placeables, claim);
    ExportedAll(b.placeables, claim);
    PlaceableIdsBack(b, claim);
    assert PlaceableIds(Normalized(rows)) == PlaceableIds(rows);
    LegacyAlike(b, rows);
    var stored, want := StoredPlaceables(Normalized(rows)), Shifted(b).placeables;
    if LegacyRows(b) {
      var i := SomeRoll(b);
      assert stored[i].roll == 0.0 && want[i].roll != 0.0;
    } else {
      assert forall i :: 0 <= i < |rows| ==> stored[i] == want[i];
      assert stored == want;
    }
  }

  lemma SomeRoll(b: Blueprint) returns (i: nat)
    requires LegacyRows(b)
    ensures i < |b.placeables| && b.placeables[i].roll != 0.0
  {
    i :| 0 <= i < |b.placeables| && !NearlyZero(b.placeables[i].roll);
  }

  lemma LegacyAlike(b: Blueprint, rows: seq<Placeable>)
    requires |rows| == |b.placeables| && forall i :: 0 <= i < |rows| ==> rows[i] == ExportedPlaceable(b.placeables[i])
    ensures LegacyAxes(rows) <==> LegacyRows(b)
  {
    assert forall i :: 0 <= i < |rows| ==>
      (NearZero(rows[i].rx) <==> NearlyZero(b.placeables[i].pitch))
      && (NearZero(rows[i].ry) <==> NearlyZero(b.placeables[i].yaw))
      && (NearZero(rows[i].rz) <==> NearlyZero(b.placeables[i].roll));
  }

  /** The shields follow the shift exactly when there is none or all of them name
      a placeable. */
  lemma ShieldsShift(b: Blueprint, claim: Kinds)
    requires Plain(b, claim)
    ensures var ids, shields := PlaceableIds(ExportedPlaceables(b.placeables, claim)), ExportedShields(b.shields, {});
      StoredShields(shields, ids) == Shifted(b).shields
      <==> (ZeroPlaceable(b) ==> AllNamed(b))
  {
    hide Resolved, Duplicates, ExportedPlaceables, StoredShields, ExportedShields, NamesPlaceable, ZeroPlaceable;
    var ids, shields := PlaceableIds(ExportedPlaceables(b.placeables, claim)), ExportedShields(b.shields, {});
    ExportedShieldsAll(b.shields);
    ShieldsBack(b.shields, shields, ids);
    PlaceableIdsBack(b, claim);
    var stored, want := StoredShields(shields, ids), Shifted(b).shields;
    forall i | 0 <= i < |b.shields|
      ensures stored[i] == want[i] <==> (ZeroPlaceable(b) ==> NamesPlaceable(b, b.shields[i]))
    {
      NamedInIds(b, ids, b.shields[i]);
    }
    if forall i :: 0 <= i < |stored| ==> stored[i] == want[i] { assert stored == want; }
  }

  lemma NamedInIds(b: Blueprint, ids: seq<Option<nat>>, s: ShieldRow)
    requires |ids| == |b.placeables| && forall i :: 0 <= i < |ids| ==> ids[i] == Some(b.placeables[i].id)
    ensures s.id >= 0 && Some(s.id as nat) in ids <==> NamesPlaceable(b, s)
  {
    if s.id >= 0 && Some(s.id as nat) in ids {
      var i :| 0 <= i < |ids| && ids[i] == Some(s.id as nat);
      assert b.placeables[i].id == s.id;
    }
    if NamesPlaceable(b, s) {
      var i :| 0 <= i < |b.placeables| && b.placeables[i].id == s.id;
      assert ids[i] in ids;
    }
  }

  /** What an import makes of an exported blueprint that is plain and upright. */
  lemma PlainImport(b: Blueprint, claim: Kinds, structural: Kinds)
    requires Plain(b, claim) && HasRows(b) && !LegacyRows(b)
    ensures Import(Export(b, claim), claim, structural) ==
            Ok(Blueprint(Shifted(b).instances, Shifted(b).placeables,
              StoredShields(ExportedShields(b.shields, {}), PlaceableIds(ExportedPlaceables(b.placeables, claim)))))
  {
    hide Duplicates, Resolved, LegacyRows, StoredShields, StoredPlaceables, StoredInstances, Normalized,
         ExportedShields, ExportedPlaceables;
    ExportKeepsAll(b, claim);
    InstancesBack(b, claim, structural);
    PlaceableIdsBack(b, claim);
    PlaceablesBack(b, claim);
  }

  /** Exporting a plain blueprint and importing the file gives its rows back, up to
      the shift away from zero, exactly when it has rows, does not look like an old
      archive, and no shield is left behind by a shift. */
  lemma RoundTrip(b: Blueprint, claim: Kinds, structural: Kinds)
    requires Plain(b, claim)
    ensures Import(Export(b, claim), claim, structural) == Ok(Shifted(b))
      <==> HasRows(b) && !LegacyRows(b) && (ZeroPlaceable(b) ==> AllNamed(b))
  {
    hide Duplicates, Resolved, LegacyRows, StoredShields, StoredPlaceables, StoredInstances, Normalized, NamesPlaceable;
    var f := Export(b, claim);
    ExportKeepsAll(b, claim);
    InstancesBack(b, claim, structural);
    PlaceableIdsBack(b, claim);
    PlaceablesBack(b, claim);
    ShieldsShift(b, claim);
  }

  /** Nothing of a plain blueprint is filtered out, on the way out or in. */
  lemma ExportKeepsAll(b: Blueprint, claim: Kinds)
    requires Plain(b, claim)
    ensures var f := Export(b, claim);
      && |f.instances| == |b.instances| && |f.placeables| == |b.placeables| && |f.shields| == |b.shields|
      && f.shields == ExportedShields(b.shields, {})
      && Safe(f.placeables, claim) == f.placeables && Linked(f.shields, Removed(f.placeables, claim)) == f.shields
  {
    var f := Export(b, claim);
    assert (set p | p in b.placeables && claim(p.kind) :: p.id) == {};
    ExportedAll(b.placeables, claim);
    ExportedShieldsAll(b.shields);
    assert Removed(f.placeables, claim) == {};
  }

  /** A shield left behind can end up at a placeable it never named. */
  lemma ShieldCaptured(claim: Kinds, structural: Kinds, kind: string)
    requires !claim(kind)
    ensures var row := PlaceableRow(0, kind, 0.0, 0.0, 0.0, 0.0, 0.0, 0.0);
      var b := Blueprint([], [row], [ShieldRow(1, Scale(1, 1, 1))]);
      var back := Import(Export(b, claim), claim, structural);
      !NamesPlaceable(b, b.shields[0]) && back.Ok? && |back.value.shields| == 1 &&
      NamesPlaceable(back.value, back.value.shields[0])
  {
    hide Import, Export, Shifted, StoredShields, ExportedShields, ExportedPlaceables, Target, LegacyRows;
    var row := PlaceableRow(0, kind, 0.0, 0.0, 0.0, 0.0, 0.0, 0.0);
    var b := Blueprint([], [row], [ShieldRow(1, Scale(1, 1, 1))]);
    assert b.placeables[0].id == 0;
    FlatRow(b, row);
    PlainImport(b, claim, structural);
    PlaceableIdsBack(b, claim);
    var ids := PlaceableIds(ExportedPlaceables(b.placeables, claim));
    ExportedShieldsAll(b.shields);
    ShieldsBack(b.shields, ExportedShields(b.shields, {}), ids);
    NamedInIds(b, ids, b.shields[0]);
    TargetOfOther(1, ids);
    var back := Import(Export(b, claim), claim, structural).value;
    assert back.placeables[0].id == 1 == back.shields[0].id;
  }

  lemma FlatRow(b: Blueprint, row: PlaceableRow)
    requires b.placeables == [row] && row.roll == 0.0
    ensures !LegacyRows(b)
  {
  }

  lemma TargetOfOther(n: nat, kept: seq<Option<nat>>)
    requires Some(n) !in kept
    ensures Target(Whole(n), kept) == n
  {
  }
}
