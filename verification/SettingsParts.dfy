/** The parts of the compiled file beside the plain settings, as a reader of the
    text finds them: the mirrored cooldown, the data struct, the staking arrays,
    retired keys, lines that are passed through and defaults that are left out. */
module SettingsParts {
  import opened Wrappers
  import opened Text
  import opened IniLine
  import opened ProfileLines
  import opened ProfileText
  import opened SettingsValues
  import opened IniFile
  import opened SettingsCompile
  import opened SettingsReadBack
  import opened SettingsMeaning
  import opened SettingsDrift

  /** What a reader of the compiled text takes from a section under a key. */
  function Read(text: string, section: string, key: string): Option<string> {
    FirstValue(SectionContent(SplitLines(text), section), key)
  }

  lemma ReadFound(c: Catalog, doc: Doc, m: string, p: Option<string>, section: string, key: string)
    requires CatalogOk(c) && DocOk(doc) && PartitionOk(p) && CompiledText(c, doc, m, p).Some?
    ensures Compile(c, doc, m, p).Some?
    ensures Read(CompiledText(c, doc, m, p).value, section, key) ==
            Found(LinesIn(Compile(c, doc, m, p).value, section), key)
  {
    hide CatalogOk, DocOk, PartitionOk, CompiledText, Compile, SplitLines, SectionContent, FirstValue, Content;
    CompiledContent(c, doc, m, p, section);
    CompiledSome(c, doc, m, p);
  }

  lemma {:induction false} FieldsSilent(c: Catalog, doc: Doc, fields: seq<Field>, m: string, p: Option<string>,
      values: Values, section: string, key: string)
    requires CatalogOk(c) && CleanKey(key)
    requires forall g :: g in fields ==> g in c.fields && (g.section == section ==> g.key != key)
    ensures Found(Pick(FieldItems(c, doc, fields, m, p, values), section), key) == None
  {
    hide CatalogOk, CleanKey, FieldLines, Found;
    if fields == [] {
      FoundNothing(key);
    } else {
      var front, g := fields[..|fields| - 1], fields[|fields| - 1];
      assert g in fields;
      FieldsSilent(c, doc, front, m, p, values, section, key);
      var lines := FieldLines(c, doc, g, m, p, values);
      var a := Pick(FieldItems(c, doc, front, m, p, values), section);
      PickAppend(FieldItems(c, doc, front, m, p, values), InSection(g.section, lines), section);
      PickInSection(g.section, lines, section);
      if g.section == section {
        FieldLinesOther(c, doc, g, m, p, values, key);
        FoundSilent(lines, key);
        FoundAppend(a, lines, key);
      } else {
        assert a + [] == a;
      }
    }
  }

  // The value of a setting

  /** What the scopes state under a key: the partition, else the map, else all. */
  function Stated(doc: Doc, m: string, p: Option<string>, section: string, key: string): Option<string> {
    var everywhere := GetKey(doc, BlockId(Global, "", "", section), key);
    var ofMap := GetKey(doc, BlockId(Map, CanonicalMap(m), "", section), key);
    var ofPartition :=
      if p.None? then None else GetKey(doc, BlockId(Partition, CanonicalMap(m), p.value, section), key);
    if ofPartition.Some? then ofPartition else if ofMap.Some? then ofMap else everywhere
  }

  lemma StatedEffective(doc: Doc, f: Field, m: string, p: Option<string>)
    ensures Effective(doc, f, Layers(m, p)) == Stated(doc, m, p, f.section, f.key)
  {
    hide GetKey, CanonicalMap, Effective;
    NoEffect(doc, f);
    EffectMore(doc, f, [], GlobalLayer);
    EffectMore(doc, f, [GlobalLayer], MapLayer(m));
    assert [] + [GlobalLayer] == [GlobalLayer] && [GlobalLayer] + [MapLayer(m)] == MapLayers(m);
    if p.Some? {
      EffectMore(doc, f, MapLayers(m), PartitionLayer(m, p.value));
      assert MapLayers(m) + [PartitionLayer(m, p.value)] == PartitionLayers(m, p.value);
    }
  }

  lemma NoEffect(doc: Doc, f: Field)
    ensures Effective(doc, f, []) == None
  {
  }

  lemma EffectMore(doc: Doc, f: Field, layers: seq<Layer>, layer: Layer)
    ensures Effective(doc, f, layers + [layer]) ==
            OrElse(GetKey(doc, At(layer, f.section), f.key), Effective(doc, f, layers))
  {
    hide GetKey, At;
    assert (layers + [layer])[..|layers|] == layers;
  }

  /** The file gives a trimmed setting that is no boolean as the most specific scope
      states it, or its default; one that took over a retired setting falls back on
      what is stated under the retired name, and the retired one follows it. */
  lemma StatedReads(c: Catalog, doc: Doc, m: string, p: Option<string>, f: Field)
    requires CatalogOk(c) && DocOk(doc) && PartitionOk(p) && f in c.fields && f !in c.staking && !f.boolean
    requires CompiledText(c, doc, m, p).Some?
    ensures (forall a :: a in c.aliases ==> a.0 != f && a.1 != f) ==>
              var v := OrDefault(Stated(doc, m, p, f.section, f.key), f.defaultValue);
              Trimmed(v) ==> ReadSetting(CompiledText(c, doc, m, p).value, f) == v
    ensures forall a :: a in c.aliases && (a.0 == f || a.1 == f) ==>
              var current, former := Stated(doc, m, p, a.1.section, a.1.key), Stated(doc, m, p, a.0.section, a.0.key);
              var v := if current.Some? then current.value else OrDefault(former, f.defaultValue);
              Trimmed(v) ==> ReadSetting(CompiledText(c, doc, m, p).value, f) == v
  {
    hide DocOk, PartitionOk, CompiledText, ReadSetting, Stated, Effective, FieldOk, Trimmed, CleanKey, GetKey, Layers;
    MeaningPreserved(c, doc, m, p, f);
    StatedEffective(doc, f, m, p);
    if a :| a in c.aliases && (a.0 == f || a.1 == f) {
      PairOwn(c.aliases, a);
      StatedEffective(doc, a.0, m, p);
      StatedEffective(doc, a.1, m, p);
    } else {
      UnpairedField(c, f);
    }
    forall a | a in c.aliases && (a.0 == f || a.1 == f)
      ensures PairOf(c.aliases, f) == Some(a)
    {
      PairOwn(c.aliases, a);
    }
  }

  lemma UnpairedField(c: Catalog, f: Field)
    requires TableOk(c.fields, c.aliases) && f in c.fields && forall a :: a in c.aliases ==> a.0 != f && a.1 != f
    ensures PairOf(c.aliases, f) == None
  {
    if PairOf(c.aliases, f).Some? {
      var pair := PairOf(c.aliases, f).value;
      SameField(c.fields, f, pair.0);
      SameField(c.fields, f, pair.1);
    }
  }

  // The mirrored cooldown

  lemma CooldownPicked(c: Catalog, seconds: Option<string>, section: string, key: string)
    requires CatalogOk(c) && CleanKey(key)
    ensures Found(Pick(CooldownItems(c, seconds), section), key) ==
            if section == c.building && key == c.cooldownKey && seconds.Some?
            then Some(Strip(Quote, Trim(seconds.value))) else None
  {
    hide TableOk, FieldOk, CleanKey, Found, Entry, Strip, Trim, IniValue;
    FoundNothing(key);
    if seconds.Some? {
      var line := Entry("", c.cooldownKey, seconds.value);
      assert CooldownItems(c, seconds)[..0] == [];
      assert Pick(CooldownItems(c, seconds), section) == if section == c.building then [line] else [];
      FoundOne(line, key);
      EntryReads("", c.cooldownKey, seconds.value, key);
    } else {
      assert Pick([], section) == [];
    }
  }

  /** The native cooldown that the compiler finds is that of the partition, else of
      the map, else the global one. */
  lemma NativeHours(c: Catalog, doc: Doc, m: string, p: Option<string>)
    ensures var everywhere := GetKey(doc, BlockId(ServerCustomGlobal, "", "", c.customSection), c.customKey);
            var ofMap :=
              if m == "" then None
              else GetKey(doc, BlockId(ServerCustomMap, CanonicalMap(m), "", c.customSection), c.customKey);
            var ofPartition :=
              if m == "" || p.None? then None
              else GetKey(doc, BlockId(ServerCustomPartition, CanonicalMap(m), p.value, c.customSection), c.customKey);
            CooldownHours(c, doc, CustomLayers(m, p)) ==
              OrElse(ofPartition, OrElse(ofMap, everywhere))
  {
    hide GetKey, CanonicalMap, CooldownHours;
    var everywhere := BlockId(ServerCustomGlobal, "", "", "");
    NoHours(c, doc);
    HoursMore(c, doc, [], everywhere);
    assert [] + [everywhere] == [everywhere];
    if m != "" {
      var ofMap := BlockId(ServerCustomMap, CanonicalMap(m), "", "");
      HoursMore(c, doc, [everywhere], ofMap);
      assert [everywhere] + [ofMap] == [everywhere, ofMap];
      if p.Some? {
        var ofPartition := BlockId(ServerCustomPartition, CanonicalMap(m), p.value, "");
        HoursMore(c, doc, [everywhere, ofMap], ofPartition);
        assert CustomLayers(m, p) == [everywhere, ofMap] + [ofPartition];
      } else {
        assert CustomLayers(m, p) == [everywhere, ofMap];
      }
    } else {
      assert CustomLayers(m, p) == [everywhere];
    }
  }

  lemma NoHours(c: Catalog, doc: Doc)
    ensures CooldownHours(c, doc, []) == None
  {
  }

  lemma HoursMore(c: Catalog, doc: Doc, ids: seq<BlockId>, id: BlockId)
    ensures CooldownHours(c, doc, ids + [id]) ==
            OrElse(GetKey(doc, id.(section := c.customSection), c.customKey), CooldownHours(c, doc, ids))
  {
    hide GetKey;
    assert (ids + [id])[..|ids|] == ids;
  }

  /** The file mirrors, in seconds, the native cooldown of the most specific scope
      that states one, and has no such line when none does; a cooldown that cannot be
      converted refuses the compilation. */
  lemma MirroredCooldown(c: Catalog, doc: Doc, m: string, p: Option<string>)
    requires CatalogOk(c) && DocOk(doc) && PartitionOk(p) && CompiledText(c, doc, m, p).Some?
    requires c.building != c.landsraad && c.building in c.retired && c.cooldownKey in c.retired[c.building]
    ensures var everywhere := GetKey(doc, BlockId(ServerCustomGlobal, "", "", c.customSection), c.customKey);
            var ofMap :=
              if m == "" then None
              else GetKey(doc, BlockId(ServerCustomMap, CanonicalMap(m), "", c.customSection), c.customKey);
            var ofPartition :=
              if m == "" || p.None? then None
              else GetKey(doc, BlockId(ServerCustomPartition, CanonicalMap(m), p.value, c.customSection), c.customKey);
            var hours := if ofPartition.Some? then ofPartition else if ofMap.Some? then ofMap else everywhere;
            var read := Read(CompiledText(c, doc, m, p).value, c.building, c.cooldownKey);
            if hours.None? then read == None
            else c.cooldown(hours.value).Some? && read == Some(Strip(Quote, Trim(c.cooldown(hours.value).value)))
  {
    hide DocOk, PartitionOk, CompiledText, Compile, Read, Found, FieldItems, ProfileValues, CooldownItems, CustomLayers,
         CooldownHours, GetKey, CanonicalMap, TableOk, CleanKey, Strip, Trim;
    CooldownSteady(c);
    ReadFound(c, doc, m, p, c.building, c.cooldownKey);
    KeyFound(c, doc, m, p, c.building, c.cooldownKey);
    FieldsSilent(c, doc, c.fields, m, p, ProfileValues(c, doc, m, p), c.building, c.cooldownKey);
    var seconds := CompiledSeconds(c, doc, m, p);
    CooldownPicked(c, seconds, c.building, c.cooldownKey);
    NativeHours(c, doc, m, p);
  }

  lemma CooldownSteady(c: Catalog)
    requires CatalogOk(c) && c.building != c.landsraad
    requires c.building in c.retired && c.cooldownKey in c.retired[c.building]
    ensures Steady(c, c.building, c.cooldownKey) && IsKnown(c, c.building, c.cooldownKey)
    ensures forall g :: g in c.fields ==> (g.section == c.building ==> g.key != c.cooldownKey)
  {
    hide TableOk, CleanKey;
    forall g | g in c.fields ensures g.section == c.building ==> g.key != c.cooldownKey { assert FieldOk(c, g); }
  }

  // Retired keys and defaults

  /** A retired key that is no setting of its own is not in the file. */
  lemma RetiredAbsent(c: Catalog, doc: Doc, m: string, p: Option<string>, section: string, key: string)
    requires CatalogOk(c) && DocOk(doc) && PartitionOk(p) && CompiledText(c, doc, m, p).Some?
    requires CleanKey(key) && section in c.retired && key in c.retired[section]
    requires forall g :: g in c.fields ==> !(g.section == section && g.key == key)
    requires section == c.building ==> key != c.cooldownKey
    requires section == c.landsraad ==> key != c.dataKey
    ensures Read(CompiledText(c, doc, m, p).value, section, key) == None
  {
    hide CatalogOk, DocOk, PartitionOk, CompiledText, Compile, Read, Found, FieldItems, ProfileValues, CooldownItems,
         CooldownSeconds, CleanKey;
    StakingInTable(c);
    assert Steady(c, section, key) && IsKnown(c, section, key);
    ReadFound(c, doc, m, p, section, key);
    KeyFound(c, doc, m, p, section, key);
    FieldsSilent(c, doc, c.fields, m, p, ProfileValues(c, doc, m, p), section, key);
    var seconds := CompiledSeconds(c, doc, m, p);
    CooldownPicked(c, seconds, section, key);
  }

  lemma StakingInTable(c: Catalog)
    requires CatalogOk(c)
    ensures forall g :: g in c.staking ==> g in c.fields && g.section == c.building
  {
    hide TableOk, FieldOk, CleanKey;
  }

  /** A scalar setting is missing in the file exactly when its layered value is the
      default, or for a boolean as true as the default; but the switch that forces PvP
      is there for every partition in selector mode. */
  lemma DefaultsLeftOut(c: Catalog, doc: Doc, m: string, p: Option<string>, f: Field)
    requires CatalogOk(c) && DocOk(doc) && PartitionOk(p) && f in c.fields && f !in c.staking
    requires CompiledText(c, doc, m, p).Some?
    ensures var v := SimpleRule(doc, c.aliases, f, Layers(m, p));
            Read(CompiledText(c, doc, m, p).value, f.section, f.key).None? <==>
            !(f == c.force && p.Some? && SelectorMode(c, doc, m, p.value)) &&
            (v == f.defaultValue ||
             (f.boolean && v != "" && f.defaultValue != "" && (Truthy(v) <==> Truthy(f.defaultValue))))
  {
    hide CatalogOk, DocOk, PartitionOk, CompiledText, Compile, Read, Found, ProfileValues, SimpleRule, Layers,
         SelectorMode, Truthy, Strip, Trim;
    ReadFound(c, doc, m, p, f.section, f.key);
    CompiledFound(c, doc, m, p, f);
    ValuesFollowRule(c, doc, m, p, f);
  }

  // The data struct

  /** What a scope states of the data struct: its key, or the former one. */
  function StatedData(c: Catalog, doc: Doc, id: BlockId): Option<string> {
    var own, former := GetKey(doc, id, c.dataKey), GetKey(doc, id, c.legacyDataKey);
    if own.Some? && own.value != "" then own
    else if former.Some? && former.value != "" then former
    else None
  }

  /** The lines of the section are silent ones, and the struct of the layers so far. */
  ghost predicate HoldsData(c: Catalog, lines: seq<string>, data: Option<string>) {
    if data.None? then Silent(lines, c.dataKey)
    else
      lines != [] && Silent(lines[..|lines| - 1], c.dataKey) &&
      lines[|lines| - 1] == Entry("", c.dataKey, data.value)
  }

  lemma {:induction false} WithoutPrefixSilent(c: Catalog, lines: seq<string>, key: string)
    requires Silent(lines, key)
    ensures Silent(WithoutPrefix(lines, c.dataKey + "="), key)
  {
    hide IniValue;
    if lines != [] {
      var front, last := lines[..|lines| - 1], lines[|lines| - 1];
      assert lines == front + [last];
      WithoutPrefixSilent(c, front, key);
    }
  }

  lemma HoldsSilent(c: Catalog, lines: seq<string>, data: Option<string>)
    requires HoldsData(c, lines, data)
    ensures Silent(WithoutPrefix(lines, c.dataKey + "="), c.dataKey)
  {
    hide IniValue, WithoutPrefix;
    if data.None? {
      WithoutPrefixSilent(c, lines, c.dataKey);
    } else {
      WithoutPrefixSilent(c, lines[..|lines| - 1], c.dataKey);
      EntryDropped(c, lines[..|lines| - 1], data.value);
      assert lines == lines[..|lines| - 1] + [Entry("", c.dataKey, data.value)];
    }
  }

  lemma EntryDropped(c: Catalog, lines: seq<string>, data: string)
    ensures WithoutPrefix(lines + [Entry("", c.dataKey, data)], c.dataKey + "=") ==
              WithoutPrefix(lines, c.dataKey + "=")
  {
    var line := Entry("", c.dataKey, data);
    assert line == c.dataKey + "=" + data;
    assert c.dataKey + "=" <= line;
    assert (lines + [line])[..|lines|] == lines;
  }

  lemma {:induction false} WithDataHolds(c: Catalog, doc: Doc, layers: seq<Layer>, ini: Ini)
    requires IniOk(ini) && Silent(LinesIn(ini, c.landsraad), c.dataKey)
    ensures IniOk(WithData(c, doc, layers, ini))
    ensures HoldsData(c, LinesIn(WithData(c, doc, layers, ini), c.landsraad), LastData(c, doc, layers))
  {
    hide IniValue, DataOverride, WithoutPrefix, Entry, GetKey, At, StatedData;
    if layers != [] {
      var front, last := layers[..|layers| - 1], layers[|layers| - 1];
      WithDataHolds(c, doc, front, ini);
      var rest := WithData(c, doc, front, ini);
      DataStated(c, doc, last);
      var data := DataOverride(c, doc, last);
      if data.Some? {
        var kept := WithoutPrefix(LinesIn(rest, c.landsraad), c.dataKey + "=");
        HoldsSilent(c, LinesIn(rest, c.landsraad), LastData(c, doc, front));
        AssignOk(rest, c.landsraad, kept + [Entry("", c.dataKey, data.value)]);
        assert (kept + [Entry("", c.dataKey, data.value)])[..|kept|] == kept;
      }
    }
  }

  lemma DataStated(c: Catalog, doc: Doc, layer: Layer)
    ensures DataOverride(c, doc, layer) == StatedData(c, doc, At(layer, c.landsraad))
  {
    hide GetKey, At;
  }

  function LastData(c: Catalog, doc: Doc, layers: seq<Layer>): Option<string> {
    if layers == [] then None
    else OrElse(StatedData(c, doc, At(layers[|layers| - 1], c.landsraad)), LastData(c, doc, layers[..|layers| - 1]))
  }

  lemma HeldFound(c: Catalog, lines: seq<string>, data: Option<string>)
    requires CleanKey(c.dataKey) && HoldsData(c, lines, data)
    ensures Found(lines, c.dataKey) == if data.Some? then Some(Strip(Quote, Trim(data.value))) else None
  {
    hide IniValue, Found, Entry, CleanKey, Strip, Trim;
    if data.None? {
      FoundSilent(lines, c.dataKey);
    } else {
      var front, line := lines[..|lines| - 1], Entry("", c.dataKey, data.value);
      assert lines == front + [line];
      FoundSilent(front, c.dataKey);
      FoundAppend(front, [line], c.dataKey);
      FoundOne(line, c.dataKey);
      EntryReads("", c.dataKey, data.value, c.dataKey);
    }
  }

  lemma LastOfLayers(c: Catalog, doc: Doc, m: string, p: Option<string>)
    ensures var everywhere := StatedData(c, doc, BlockId(Global, "", "", c.landsraad));
            var ofMap := StatedData(c, doc, BlockId(Map, CanonicalMap(m), "", c.landsraad));
            var ofPartition :=
              if p.None? then None else StatedData(c, doc, BlockId(Partition, CanonicalMap(m), p.value, c.landsraad));
            LastData(c, doc, Layers(m, p)) == OrElse(ofPartition, OrElse(ofMap, everywhere))
  {
    hide StatedData, CanonicalMap, LastData;
    assert LastData(c, doc, []) == None by { NoData(c, doc); }
    DataMore(c, doc, [], GlobalLayer);
    assert [] + [GlobalLayer] == [GlobalLayer];
    DataMore(c, doc, [GlobalLayer], MapLayer(m));
    assert MapLayers(m) == [GlobalLayer] + [MapLayer(m)];
    if p.Some? {
      DataMore(c, doc, MapLayers(m), PartitionLayer(m, p.value));
      assert PartitionLayers(m, p.value) == MapLayers(m) + [PartitionLayer(m, p.value)];
    }
  }

  lemma NoData(c: Catalog, doc: Doc)
    ensures LastData(c, doc, []) == None
  {
  }

  lemma DataMore(c: Catalog, doc: Doc, layers: seq<Layer>, layer: Layer)
    ensures LastData(c, doc, layers + [layer]) ==
            OrElse(StatedData(c, doc, At(layer, c.landsraad)), LastData(c, doc, layers))
  {
    hide StatedData, At;
    assert (layers + [layer])[..|layers|] == layers;
  }

  /** The file has one data struct: that of the partition, else of the map, else the
      global one, each scope's own key before its former one. */
  lemma DataOfMostSpecific(c: Catalog, doc: Doc, m: string, p: Option<string>)
    requires CatalogOk(c) && DocOk(doc) && PartitionOk(p) && CompiledText(c, doc, m, p).Some?
    requires c.building != c.landsraad
    ensures var everywhere := StatedData(c, doc, BlockId(Global, "", "", c.landsraad));
            var ofMap := StatedData(c, doc, BlockId(Map, CanonicalMap(m), "", c.landsraad));
            var ofPartition :=
              if p.None? then None else StatedData(c, doc, BlockId(Partition, CanonicalMap(m), p.value, c.landsraad));
            var data := if ofPartition.Some? then ofPartition else if ofMap.Some? then ofMap else everywhere;
            Read(CompiledText(c, doc, m, p).value, c.landsraad, c.dataKey) ==
              if data.Some? then Some(Strip(Quote, Trim(data.value))) else None
  {
    hide CatalogOk, DocOk, PartitionOk, CompiledText, Compile, Read, Found, StatedData, CanonicalMap, Layers, CleanKey,
         Strip, Trim, LastData, HoldsData;
    ReadFound(c, doc, m, p, c.landsraad, c.dataKey);
    DataLines(c, doc, m, p);
    DataKeyClean(c);
    HeldFound(c, LinesIn(Compile(c, doc, m, p).value, c.landsraad), LastData(c, doc, Layers(m, p)));
    LastOfLayers(c, doc, m, p);
  }

  lemma DataKeyClean(c: Catalog)
    requires CatalogOk(c)
    ensures CleanKey(c.dataKey) && c.force.section != c.landsraad && IsKnown(c, c.landsraad, c.dataKey)
    ensures forall g :: g in c.fields ==> (g.section == c.landsraad ==> g.key != c.dataKey)
  {
    hide TableOk, CleanKey;
    forall g | g in c.fields ensures g.section == c.landsraad ==> g.key != c.dataKey { assert FieldOk(c, g); }
  }

  lemma DataLines(c: Catalog, doc: Doc, m: string, p: Option<string>)
    requires CatalogOk(c) && Compile(c, doc, m, p).Some? && c.building != c.landsraad
    ensures HoldsData(c, LinesIn(Compile(c, doc, m, p).value, c.landsraad), LastData(c, doc, Layers(m, p)))
  {
    hide CatalogOk, FieldItems, StakingItems, ProfileValues, CooldownSeconds, Layers, BaseItems, Patched, WithData,
         LastData, HoldsData, Silent, IsKnown, LinesIn, AppendAll, Pick, CleanKey;
    DataKeyClean(c);
    var values := ProfileValues(c, doc, m, p);
    var seconds := CompiledSeconds(c, doc, m, p);
    var items := BaseItems(c, doc, m, p, seconds);
    var base := AppendAll(NO_SECTIONS, items);
    NoLines(c.landsraad);
    AppendAllLines(NO_SECTIONS, items, c.landsraad);
    BaseSilent(c, doc, m, p, seconds);
    assert [] + Pick(items, c.landsraad) == Pick(items, c.landsraad);
    WithDataHolds(c, doc, Layers(m, p), base);
    PatchedData(c, doc, m, p, base);
    var ini := Patched(c, doc, m, p, base);
    var arrays := StakingItems(c, c.staking, values).value;
    AppendAllLines(ini, arrays, c.landsraad);
    StakingElsewhere(c, c.staking, values, c.landsraad);
    assert LinesIn(ini, c.landsraad) + [] == LinesIn(ini, c.landsraad);
  }

  /** The other patches leave the section of the data struct alone. */
  lemma PatchedData(c: Catalog, doc: Doc, m: string, p: Option<string>, ini: Ini)
    requires IniOk(WithData(c, doc, Layers(m, p), ini))
    requires c.building != c.landsraad && c.force.section != c.landsraad
    ensures IniOk(Patched(c, doc, m, p, ini))
    ensures LinesIn(Patched(c, doc, m, p, ini), c.landsraad) ==
            LinesIn(WithData(c, doc, Layers(m, p), ini), c.landsraad)
  {
    hide WithData, Deduped, WithoutStaking, Layers;
    var a := WithData(c, doc, Layers(m, p), ini);
    AssignOk(a, c.force.section, Deduped(LinesIn(a, c.force.section)));
    var b := if c.force.section in a.lines then Assign(a, c.force.section, Deduped(LinesIn(a, c.force.section))) else a;
    AssignOk(b, c.building, WithoutStaking(c, LinesIn(b, c.building)));
  }

  lemma BaseSilent(c: Catalog, doc: Doc, m: string, p: Option<string>, seconds: Option<string>)
    requires CatalogOk(c) && c.building != c.landsraad
    ensures Silent(Pick(BaseItems(c, doc, m, p, seconds), c.landsraad), c.dataKey)
  {
    hide CatalogOk, Found, FieldItems, UnknownItems, CooldownItems, ProfileValues, Layers, CleanKey, Silent, IsKnown;
    DataKeyClean(c);
    var values := ProfileValues(c, doc, m, p);
    var fieldItems, unknown := FieldItems(c, doc, c.fields, m, p, values), UnknownItems(c, doc.sections, Layers(m, p));
    var cooldown := CooldownItems(c, seconds);
    PickAppend(fieldItems + cooldown, unknown, c.landsraad);
    PickAppend(fieldItems, cooldown, c.landsraad);
    FieldsSilent(c, doc, c.fields, m, p, values, c.landsraad, c.dataKey);
    CooldownPicked(c, seconds, c.landsraad, c.dataKey);
    UnknownSilent(c, doc, Layers(m, p), c.landsraad, c.dataKey);
    var x, y, z := Pick(fieldItems, c.landsraad), Pick(cooldown, c.landsraad), Pick(unknown, c.landsraad);
    FoundSilent(z, c.dataKey);
    FoundAppend(x + y, z, c.dataKey);
    FoundAppend(x, y, c.dataKey);
    FoundSilent(x + y + z, c.dataKey);
  }
}
