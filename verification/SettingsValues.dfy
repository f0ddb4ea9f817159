/** Which value a setting has: scopes override one another, and each retired
    setting id is kept in step with the id that replaced it. */
module SettingsValues {
  import opened Wrappers
  import opened Text
  import opened IniLine
  import opened ProfileLines
  import opened ProfileText

  /** A row of the field table. */
  datatype Field = Field(id: string, section: string, key: string, defaultValue: string, boolean: bool)

  /** A scope that takes part in a value, from least to most specific. */
  datatype Layer = GlobalLayer | MapLayer(mapName: string) | PartitionLayer(mapName: string, partition: string)

  function At(layer: Layer, section: string): BlockId {
    match layer
    case GlobalLayer => BlockId(Global, "", "", section)
    case MapLayer(m) => BlockId(Map, CanonicalMap(m), "", section)
    case PartitionLayer(m, p) => BlockId(Partition, CanonicalMap(m), p, section)
  }

  function Explicit(doc: Doc, f: Field, layer: Layer): Option<string> {
    GetKey(doc, At(layer, f.section), f.key)
  }

  /** The most specific explicit value. */
  function Effective(doc: Doc, f: Field, layers: seq<Layer>): Option<string> {
    if layers == [] then None
    else
      match Explicit(doc, f, layers[|layers| - 1])
      case Some(v) => Some(v)
      case None => Effective(doc, f, layers[..|layers| - 1])
  }

  /** Some scope of the chain states the field (_field_explicitly_present). */
  predicate Present(doc: Doc, f: Field, layers: seq<Layer>) {
    exists l :: l in layers && Explicit(doc, f, l).Some?
  }

  type Values = map<string, string>

  function OrDefault(v: Option<string>, d: string): string {
    match v
    case None => d
    case Some(x) => x
  }

  function ValueOf(values: Values, f: Field): string {
    if f.id in values then values[f.id] else f.defaultValue
  }

  /** The fields of the table and the pairs of a retired field with its successor. */
  ghost predicate TableOk(fields: seq<Field>, aliases: seq<(Field, Field)>) {
    (forall i, j :: 0 <= i < j < |fields| ==> fields[i].id != fields[j].id) &&
    (forall a :: a in aliases ==> a.0 in fields && a.1 in fields) &&
    AliasesOk(aliases)
  }

  /** No field is in two pairs, or twice in one. */
  ghost predicate AliasesOk(aliases: seq<(Field, Field)>) {
    forall i, j :: 0 <= i < |aliases| && 0 <= j < |aliases| ==>
      aliases[i].0.id != aliases[j].1.id &&
      (i != j ==> aliases[i].0.id != aliases[j].0.id && aliases[i].1.id != aliases[j].1.id)
  }

  /** The defaults of the fields. */
  function Defaults(fields: seq<Field>): Values {
    if fields == [] then map[]
    else Defaults(fields[..|fields| - 1])[fields[|fields| - 1].id := fields[|fields| - 1].defaultValue]
  }

  /** The values with what one layer states laid over them. */
  function Overlaid(doc: Doc, fields: seq<Field>, layer: Layer, values: Values): Values {
    if fields == [] then values
    else
      var f := fields[|fields| - 1];
      var rest := Overlaid(doc, fields[..|fields| - 1], layer, values);
      match Explicit(doc, f, layer)
      case None => rest
      case Some(v) => rest[f.id := v]
  }

  /** sync_legacy_values. */
  function Synced(doc: Doc, aliases: seq<(Field, Field)>, layers: seq<Layer>, values: Values): Values {
    if aliases == [] then values
    else
      var (former, current) := aliases[|aliases| - 1];
      var rest := Synced(doc, aliases[..|aliases| - 1], layers, values);
      if Present(doc, current, layers) then rest[former.id := ValueOf(rest, current)]
      else if Present(doc, former, layers) then rest[current.id := ValueOf(rest, former)]
      else rest
  }

  function MapLayers(m: string): seq<Layer> { [GlobalLayer, MapLayer(m)] }

  function PartitionLayers(m: string, p: string): seq<Layer> { [GlobalLayer, MapLayer(m), PartitionLayer(m, p)] }

  /** profile_map_values on the table's fields. */
  function MapValues(doc: Doc, fields: seq<Field>, aliases: seq<(Field, Field)>, m: string): Values {
    Synced(doc, aliases, MapLayers(m),
      Overlaid(doc, fields, MapLayer(m), Overlaid(doc, fields, GlobalLayer, Defaults(fields))))
  }

  /** profile_partition_values on the table's fields: a second overlay and a second sync. */
  function PartitionValues(doc: Doc, fields: seq<Field>, aliases: seq<(Field, Field)>, m: string, p: string): Values {
    Synced(doc, aliases, PartitionLayers(m, p),
      Overlaid(doc, fields, PartitionLayer(m, p), MapValues(doc, fields, aliases, m)))
  }

  /** The rule that the two stages are meant to follow. */
  function SimpleRule(doc: Doc, aliases: seq<(Field, Field)>, f: Field, layers: seq<Layer>): string {
    match PairOf(aliases, f)
    case None => OrDefault(Effective(doc, f, layers), f.defaultValue)
    case Some((former, current)) =>
      match Effective(doc, current, layers)
      case Some(v) => v
      case None => OrDefault(Effective(doc, former, layers), f.defaultValue)
  }

  /** The alias pair that a field belongs to. */
  function PairOf(aliases: seq<(Field, Field)>, f: Field): (r: Option<(Field, Field)>)
    ensures r.Some? ==> r.value in aliases && (f.id == r.value.0.id || f.id == r.value.1.id)
    ensures r.None? ==> forall a :: a in aliases ==> f.id != a.0.id && f.id != a.1.id
  {
    if aliases == [] then None
    else if f.id == aliases[0].0.id || f.id == aliases[0].1.id then Some(aliases[0])
    else PairOf(aliases[1..], f)
  }

  lemma {:induction false} PresentEffective(doc: Doc, f: Field, layers: seq<Layer>)
    ensures Present(doc, f, layers) <==> Effective(doc, f, layers).Some?
  {
    hide Explicit;
    if layers != [] {
      var front, last := layers[..|layers| - 1], layers[|layers| - 1];
      PresentEffective(doc, f, front);
      assert layers == front + [last];
      if Present(doc, f, layers) {
        var l :| l in layers && Explicit(doc, f, l).Some?;
        assert l in front || l == last;
      } else {
        assert last in layers;
        assert forall l :: l in front ==> l in layers;
      }
    }
  }

  lemma {:induction false} DefaultsValue(fields: seq<Field>, f: Field)
    requires f in fields && forall i, j :: 0 <= i < j < |fields| ==> fields[i].id != fields[j].id
    ensures f.id in Defaults(fields) && Defaults(fields)[f.id] == f.defaultValue
  {
    if fields[|fields| - 1] != f {
      var front := fields[..|fields| - 1];
      assert f in front;
      DefaultsValue(front, f);
    }
  }

  lemma {:induction false} OverlaidValue(doc: Doc, fields: seq<Field>, layer: Layer, values: Values, f: Field)
    requires f in fields && forall i, j :: 0 <= i < j < |fields| ==> fields[i].id != fields[j].id
    requires f.id in values
    ensures f.id in Overlaid(doc, fields, layer, values)
    ensures Overlaid(doc, fields, layer, values)[f.id] == OrDefault(Explicit(doc, f, layer), values[f.id])
  {
    hide Explicit;
    var front, last := fields[..|fields| - 1], fields[|fields| - 1];
    if last == f {
      assert forall g :: g in front ==> g.id != f.id;
      OverlaidOther(doc, front, layer, values, f.id);
    } else {
      assert f in front;
      OverlaidValue(doc, front, layer, values, f);
    }
  }

  lemma {:induction false} OverlaidOther(doc: Doc, fields: seq<Field>, layer: Layer, values: Values, id: string)
    requires forall g :: g in fields ==> g.id != id
    ensures id in Overlaid(doc, fields, layer, values) <==> id in values
    ensures id in values ==> Overlaid(doc, fields, layer, values)[id] == values[id]
  {
    hide Explicit;
    if fields != [] {
      assert fields[|fields| - 1] in fields;
      OverlaidOther(doc, fields[..|fields| - 1], layer, values, id);
    }
  }

  /** A sync leaves fields outside its pairs alone. */
  lemma {:induction false} SyncedOther(doc: Doc, aliases: seq<(Field, Field)>, layers: seq<Layer>, values: Values,
      id: string)
    requires forall a :: a in aliases ==> a.0.id != id && a.1.id != id
    ensures id in Synced(doc, aliases, layers, values) <==> id in values
    ensures id in values ==> Synced(doc, aliases, layers, values)[id] == values[id]
  {
    hide Present;
    if aliases != [] {
      assert aliases[|aliases| - 1] in aliases;
      SyncedOther(doc, aliases[..|aliases| - 1], layers, values, id);
    }
  }

  /** What a sync does to one pair. */
  lemma {:induction false} SyncedPair(doc: Doc, aliases: seq<(Field, Field)>, layers: seq<Layer>, values: Values,
      i: nat)
    requires AliasesOk(aliases) && i < |aliases|
    requires aliases[i].0.id in values && aliases[i].1.id in values
    ensures var (former, current) := aliases[i];
            var r := Synced(doc, aliases, layers, values);
            former.id in r && current.id in r &&
            r[former.id] == (if Present(doc, current, layers) then values[current.id] else values[former.id]) &&
            r[current.id] == (
              if !Present(doc, current, layers) && Present(doc, former, layers) then values[former.id]
              else values[current.id])
  {
    hide Present;
    var front := aliases[..|aliases| - 1];
    var k := |aliases| - 1;
    if i == k {
      SyncedOther(doc, front, layers, values, aliases[i].0.id);
      SyncedOther(doc, front, layers, values, aliases[i].1.id);
    } else {
      assert front[i] == aliases[i];
      SyncedPair(doc, front, layers, values, i);
    }
  }

  /** The map-level values follow the rule over the map-level scopes. */
  lemma MapFollowsRule(doc: Doc, fields: seq<Field>, aliases: seq<(Field, Field)>, m: string, f: Field)
    requires TableOk(fields, aliases) && f in fields
    ensures f.id in MapValues(doc, fields, aliases, m)
    ensures MapValues(doc, fields, aliases, m)[f.id] == SimpleRule(doc, aliases, f, MapLayers(m))
  {
    hide Explicit, Present;
    var layers := MapLayers(m);
    LaidValue(doc, fields, m, f);
    var laid := Overlaid(doc, fields, MapLayer(m), Overlaid(doc, fields, GlobalLayer, Defaults(fields)));
    match PairOf(aliases, f)
    case None => SyncedOther(doc, aliases, layers, laid, f.id);
    case Some(pair) =>
      var i :| 0 <= i < |aliases| && aliases[i] == pair;
      LaidValue(doc, fields, m, pair.0);
      LaidValue(doc, fields, m, pair.1);
      SyncedPair(doc, aliases, layers, laid, i);
      PresentEffective(doc, pair.0, layers);
      PresentEffective(doc, pair.1, layers);
      SameField(fields, f, pair.0);
      SameField(fields, f, pair.1);
  }

  lemma SameField(fields: seq<Field>, f: Field, g: Field)
    requires forall i, j :: 0 <= i < j < |fields| ==> fields[i].id != fields[j].id
    requires f in fields && g in fields
    ensures f.id == g.id ==> f == g
  {
  }

  lemma LaidValue(doc: Doc, fields: seq<Field>, m: string, f: Field)
    requires f in fields && forall i, j :: 0 <= i < j < |fields| ==> fields[i].id != fields[j].id
    ensures var laid := Overlaid(doc, fields, MapLayer(m), Overlaid(doc, fields, GlobalLayer, Defaults(fields)));
            f.id in laid && laid[f.id] == OrDefault(Effective(doc, f, MapLayers(m)), f.defaultValue)
  {
    hide Explicit;
    DefaultsValue(fields, f);
    OverlaidValue(doc, fields, GlobalLayer, Defaults(fields), f);
    OverlaidValue(doc, fields, MapLayer(m), Overlaid(doc, fields, GlobalLayer, Defaults(fields)), f);
    var layers := MapLayers(m);
    assert layers[..1] == [GlobalLayer] && [GlobalLayer][..0] == [];
    assert Effective(doc, f, []) == None;
    assert Effective(doc, f, [GlobalLayer]) == Explicit(doc, f, GlobalLayer);
  }

  lemma EffectivePartition(doc: Doc, f: Field, m: string, p: string)
    ensures Effective(doc, f, PartitionLayers(m, p)) ==
            match Explicit(doc, f, PartitionLayer(m, p))
            case Some(v) => Some(v)
            case None => Effective(doc, f, MapLayers(m))
  {
    hide Explicit;
    assert PartitionLayers(m, p)[..2] == MapLayers(m);
  }

  /** Two syncs around a partition overlay give what the simple rule gives over
      the whole chain: the most specific successor value, else the most specific
      retired value, else the field's default. */
  lemma StagesFollowRule(doc: Doc, fields: seq<Field>, aliases: seq<(Field, Field)>, m: string, p: string, f: Field)
    requires TableOk(fields, aliases) && f in fields
    ensures f.id in PartitionValues(doc, fields, aliases, m, p)
    ensures PartitionValues(doc, fields, aliases, m, p)[f.id] == SimpleRule(doc, aliases, f, PartitionLayers(m, p))
  {
    hide Explicit, Present, MapValues, Effective, PartitionLayers, MapLayers;
    var layers := PartitionLayers(m, p);
    var base := MapValues(doc, fields, aliases, m);
    var laid := Overlaid(doc, fields, PartitionLayer(m, p), base);
    MapFollowsRule(doc, fields, aliases, m, f);
    OverlaidValue(doc, fields, PartitionLayer(m, p), base, f);
    EffectivePartition(doc, f, m, p);
    match PairOf(aliases, f)
    case None => SyncedOther(doc, aliases, layers, laid, f.id);
    case Some(pair) =>
      var i :| 0 <= i < |aliases| && aliases[i] == pair;
      PairLaid(doc, fields, aliases, m, p, pair);
      SyncedPair(doc, aliases, layers, laid, i);
      PresentEffective(doc, pair.0, layers);
      PresentEffective(doc, pair.1, layers);
      SameField(fields, f, pair.0);
      SameField(fields, f, pair.1);
  }

  /** Both fields of a pair before the second sync. */
  lemma PairLaid(doc: Doc, fields: seq<Field>, aliases: seq<(Field, Field)>, m: string, p: string, pair: (Field, Field))
    requires TableOk(fields, aliases) && pair in aliases
    ensures var laid := Overlaid(doc, fields, PartitionLayer(m, p), MapValues(doc, fields, aliases, m));
            pair.0.id in laid && pair.1.id in laid &&
            (Effective(doc, pair.1, PartitionLayers(m, p)).Some? ==>
              laid[pair.1.id] == Effective(doc, pair.1, PartitionLayers(m, p)).value) &&
            (Effective(doc, pair.1, PartitionLayers(m, p)).None? ==>
              laid[pair.0.id] == OrDefault(Effective(doc, pair.0, PartitionLayers(m, p)), pair.0.defaultValue) &&
              (Effective(doc, pair.0, PartitionLayers(m, p)).None? ==> laid[pair.1.id] == pair.1.defaultValue))
  {
    hide Explicit, MapValues, Effective, PartitionLayers, MapLayers;
    var base := MapValues(doc, fields, aliases, m);
    MapFollowsRule(doc, fields, aliases, m, pair.0);
    MapFollowsRule(doc, fields, aliases, m, pair.1);
    OverlaidValue(doc, fields, PartitionLayer(m, p), base, pair.0);
    OverlaidValue(doc, fields, PartitionLayer(m, p), base, pair.1);
    EffectivePartition(doc, pair.0, m, p);
    EffectivePartition(doc, pair.1, m, p);
    PairOwn(aliases, pair);
  }

  lemma PairOwn(aliases: seq<(Field, Field)>, pair: (Field, Field))
    requires AliasesOk(aliases) && pair in aliases
    ensures PairOf(aliases, pair.0) == Some(pair) && PairOf(aliases, pair.1) == Some(pair)
  {
  }

  /** Both ids of a pair read equal exactly when some scope states one of them or
      their defaults agree. */
  lemma PairsReadEqual(doc: Doc, fields: seq<Field>, aliases: seq<(Field, Field)>, m: string, p: string,
      pair: (Field, Field))
    requires TableOk(fields, aliases) && pair in aliases
    ensures var v := PartitionValues(doc, fields, aliases, m, p);
            pair.0.id in v && pair.1.id in v &&
            (v[pair.0.id] == v[pair.1.id] <==>
              Present(doc, pair.0, PartitionLayers(m, p)) || Present(doc, pair.1, PartitionLayers(m, p)) ||
              pair.0.defaultValue == pair.1.defaultValue)
  {
    hide Explicit, Present, PartitionValues, Effective, PartitionLayers;
    StagesFollowRule(doc, fields, aliases, m, p, pair.0);
    StagesFollowRule(doc, fields, aliases, m, p, pair.1);
    PairOwn(aliases, pair);
    PresentEffective(doc, pair.0, PartitionLayers(m, p));
    PresentEffective(doc, pair.1, PartitionLayers(m, p));
  }

  // The loops that fill the dictionary

  method OverlayFields(doc: Doc, fields: seq<Field>, layer: Layer, start: Values) returns (values: Values)
    ensures values == Overlaid(doc, fields, layer, start)
  {
    hide Explicit;
    values := start;
    for i := 0 to |fields|
      invariant values == Overlaid(doc, fields[..i], layer, start)
    {
      assert fields[..i + 1][..i] == fields[..i];
      var found := Explicit(doc, fields[i], layer);
      if found.Some? {
        values := values[fields[i].id := found.value];
      }
    }
    assert fields[..|fields|] == fields;
  }

  method SyncLegacy(doc: Doc, aliases: seq<(Field, Field)>, layers: seq<Layer>, start: Values) returns (values: Values)
    ensures values == Synced(doc, aliases, layers, start)
  {
    hide Present;
    values := start;
    for i := 0 to |aliases|
      invariant values == Synced(doc, aliases[..i], layers, start)
    {
      assert aliases[..i + 1][..i] == aliases[..i];
      var (former, current) := aliases[i];
      if Present(doc, current, layers) {
        values := values[former.id := ValueOf(values, current)];
      } else if Present(doc, former, layers) {
        values := values[current.id := ValueOf(values, former)];
      }
    }
    assert aliases[..|aliases|] == aliases;
  }

  /** profile_partition_values: seed, lay each scope over, and sync after the map
      stage and again after the partition stage. */
  method ResolvePartition(doc: Doc, fields: seq<Field>, aliases: seq<(Field, Field)>, m: string, p: string)
    returns (values: Values)
    requires TableOk(fields, aliases)
    ensures values == PartitionValues(doc, fields, aliases, m, p)
    ensures forall f ::
              f in fields ==> f.id in values && values[f.id] == SimpleRule(doc, aliases, f, PartitionLayers(m, p))
  {
    hide TableOk, Overlaid, Synced, SimpleRule, PartitionLayers, MapLayers;
    values := map[];
    for i := 0 to |fields|
      invariant values == Defaults(fields[..i])
    {
      assert fields[..i + 1][..i] == fields[..i];
      values := values[fields[i].id := fields[i].defaultValue];
    }
    assert fields[..|fields|] == fields;
    values := OverlayFields(doc, fields, GlobalLayer, values);
    values := OverlayFields(doc, fields, MapLayer(m), values);
    values := SyncLegacy(doc, aliases, MapLayers(m), values);
    values := OverlayFields(doc, fields, PartitionLayer(m, p), values);
    values := SyncLegacy(doc, aliases, PartitionLayers(m, p), values);
    forall f | f in fields
      ensures f.id in values && values[f.id] == SimpleRule(doc, aliases, f, PartitionLayers(m, p))
    {
      StagesFollowRule(doc, fields, aliases, m, p, f);
    }
  }
}
