/** What the compiled file shows of everything beside the plain settings and the
    mirrored cooldown: lines that are passed through, and the staking arrays. */
module SettingsPassed {
  import opened Wrappers
  import opened Text
  import opened IniLine
  import opened ProfileLines
  import opened ProfileText
  import opened ProfileReads
  import opened SettingsValues
  import opened IniFile
  import opened SettingsCompile
  import opened SettingsReadBack
  import opened SettingsMeaning
  import opened SettingsDrift
  import opened SettingsParts

  // Unknown keys

  lemma {:induction false} UnknownFound(c: Catalog, section: string, lines: seq<string>, key: string)
    requires CleanKey(key) && !IsKnown(c, section, key)
    ensures Found(Unknown(c, section, lines), key) == Found(lines, key)
  {
    hide IniValue, Found, CleanKey, IsKnown, PassesThrough;
    if lines != [] {
      var front, last := lines[..|lines| - 1], lines[|lines| - 1];
      assert lines == front + [last];
      UnknownFound(c, section, front, key);
      FoundAppend(front, [last], key);
      FoundOne(last, key);
      KeptIfRead(c, section, last, key);
      if PassesThrough(c, section, last) {
        FoundAppend(Unknown(c, section, front), [last], key);
      } else {
        assert Unknown(c, section, front) + [] == Unknown(c, section, front);
      }
    }
  }

  lemma KeptIfRead(c: Catalog, section: string, line: string, key: string)
    requires CleanKey(key) && !IsKnown(c, section, key)
    ensures IniValue(line, key).Some? ==> PassesThrough(c, section, line)
  {
    hide SplitAssignment, IniValue, CleanKey, IsKnown;
    ReadsArePlain(line, key);
  }

  lemma LayerMore(c: Catalog, front: seq<Block>, b: Block, layer: Layer, section: string)
    ensures Pick(LayerItems(c, front + [b], layer), section) ==
            Pick(LayerItems(c, front, layer), section) +
              if b.id == At(layer, section) then Unknown(c, section, b.lines) else []
  {
    hide At, Unknown, Pick;
    assert (front + [b])[..|front|] == front;
    AtSection(layer, section);
    var items := LayerItems(c, front, layer);
    var own := InSection(b.id.section, Unknown(c, b.id.section, b.lines));
    PickInSection(b.id.section, Unknown(c, b.id.section, b.lines), section);
    PickAppend(items, own, section);
    assert items + [] == items && Pick(items, section) + [] == Pick(items, section);
  }

  /** The lines that one scope passes through into a section. */
  lemma {:induction false} LayerPicked(c: Catalog, blocks: seq<Block>, layer: Layer, section: string)
    requires UniqueIds(blocks)
    ensures Pick(LayerItems(c, blocks, layer), section) == Unknown(c, section, LinesOf(blocks, At(layer, section)))
  {
    hide At, Unknown, UniqueIds, LinesOf, LayerItems, Pick;
    NoneUnknown(c, layer, section);
    if blocks == [] {
      LinesOfNone(blocks, At(layer, section));
    } else {
      var front, b := blocks[..|blocks| - 1], blocks[|blocks| - 1];
      assert blocks == front + [b];
      UniqueFront(front, b);
      LayerPicked(c, front, layer, section);
      LayerMore(c, front, b, layer, section);
      if b.id == At(layer, section) {
        assert b in blocks;
        LinesOfMember(blocks, b);
        LinesOfNone(front, b.id);
        assert [] + Unknown(c, section, b.lines) == Unknown(c, section, b.lines);
      } else {
        OtherLast(front, b, At(layer, section));
      }
    }
  }

  lemma NoneUnknown(c: Catalog, layer: Layer, section: string)
    ensures Unknown(c, section, []) == [] && Pick(LayerItems(c, [], layer), section) == []
  {
  }

  lemma LayersFound(c: Catalog, doc: Doc, layers: seq<Layer>, layer: Layer, section: string, key: string)
    requires UniqueIds(doc.sections) && CleanKey(key) && !IsKnown(c, section, key)
    ensures Found(Pick(UnknownItems(c, doc.sections, layers + [layer]), section), key) ==
            OrElse(Found(Pick(UnknownItems(c, doc.sections, layers), section), key),
              Found(LinesOf(doc.sections, At(layer, section)), key))
    ensures Found(Pick(UnknownItems(c, doc.sections, []), section), key) == None
  {
    hide UniqueIds, CleanKey, IsKnown, Found, LayerItems, At, LinesOf;
    assert (layers + [layer])[..|layers|] == layers;
    PickAppend(UnknownItems(c, doc.sections, layers), LayerItems(c, doc.sections, layer), section);
    LayerPicked(c, doc.sections, layer, section);
    UnknownFound(c, section, LinesOf(doc.sections, At(layer, section)), key);
    FoundAppend(Pick(UnknownItems(c, doc.sections, layers), section),
      Pick(LayerItems(c, doc.sections, layer), section), key);
    assert Pick([], section) == [];
    FoundNothing(key);
  }

  /** A key that the compiler does not know reads, in the compiled text, as the first
      value that the global block gives it, else the map's, else the partition's:
      for such keys it is the least specific scope that the first-match reader sees. */
  lemma UnknownReads(c: Catalog, doc: Doc, m: string, p: Option<string>, section: string, key: string)
    requires CatalogOk(c) && DocOk(doc) && UniqueIds(doc.sections) && PartitionOk(p)
    requires CompiledText(c, doc, m, p).Some?
    requires CleanKey(key) && !IsKnown(c, section, key) && !(section == c.building && key == c.cooldownKey)
    ensures var everywhere := Found(LinesOf(doc.sections, BlockId(Global, "", "", section)), key);
            var ofMap := Found(LinesOf(doc.sections, BlockId(Map, CanonicalMap(m), "", section)), key);
            var ofPartition :=
              if p.None? then None
              else Found(LinesOf(doc.sections, BlockId(Partition, CanonicalMap(m), p.value, section)), key);
            Read(CompiledText(c, doc, m, p).value, section, key) ==
              if everywhere.Some? then everywhere else if ofMap.Some? then ofMap else ofPartition
  {
    hide CatalogOk, DocOk, UniqueIds, PartitionOk, CompiledText, Compile, Read, Found, FieldItems, ProfileValues,
         CooldownItems, CooldownSeconds, UnknownItems, CanonicalMap, CleanKey, LinesOf, IsKnown, Steady;
    UnknownSteady(c, section, key);
    ReadFound(c, doc, m, p, section, key);
    SteadyFound(c, doc, m, p, section, key);
    FieldsSilent(c, doc, c.fields, m, p, ProfileValues(c, doc, m, p), section, key);
    var seconds := CompiledSeconds(c, doc, m, p);
    CooldownPicked(c, seconds, section, key);
    LayersFound(c, doc, [], GlobalLayer, section, key);
    LayersFound(c, doc, [GlobalLayer], MapLayer(m), section, key);
    assert [] + [GlobalLayer] == [GlobalLayer] && [GlobalLayer] + [MapLayer(m)] == MapLayers(m);
    if p.Some? {
      LayersFound(c, doc, MapLayers(m), PartitionLayer(m, p.value), section, key);
      assert MapLayers(m) + [PartitionLayer(m, p.value)] == PartitionLayers(m, p.value);
    }
  }

  lemma UnknownSteady(c: Catalog, section: string, key: string)
    requires CatalogOk(c) && CleanKey(key) && !IsKnown(c, section, key)
    ensures Steady(c, section, key)
    ensures forall g :: g in c.fields ==> (g.section == section ==> g.key != key)
  {
    hide TableOk, FieldOk, CleanKey;
  }

  // What is passed through

  /** A line of a scope that takes part stays in the file's section, whatever it
      holds, unless it plainly assigns a key that the compiler writes or retires. */
  lemma UnknownStays(c: Catalog, doc: Doc, m: string, p: Option<string>, b: Block, line: string)
    requires CatalogOk(c) && DocOk(doc) && PartitionOk(p) && CompiledText(c, doc, m, p).Some?
    requires b in doc.sections && line in b.lines && Live(line)
    requires b.id == BlockId(Global, "", "", b.id.section) ||
             b.id == BlockId(Map, CanonicalMap(m), "", b.id.section) ||
             (p.Some? && b.id == BlockId(Partition, CanonicalMap(m), p.value, b.id.section))
    requires var a := SplitAssignment(line);
             a.Some? && a.value.prefix == "" ==>
               (forall f :: f in c.fields ==> !(f.section == b.id.section && f.key == a.value.key)) &&
               !(b.id.section in c.retired && a.value.key in c.retired[b.id.section]) &&
               !(b.id.section == c.landsraad && a.value.key in {c.dataKey, c.legacyDataKey}) &&
               !(b.id.section == c.force.section && a.value.key in {c.pvpKey, c.pveKey})
    requires b.id.section == c.building && SplitAssignment(line).Some? ==>
               forall f :: f in c.staking ==> f.key != SplitAssignment(line).value.key
    ensures Trim(line) in SectionContent(SplitLines(CompiledText(c, doc, m, p).value), b.id.section)
  {
    hide CatalogOk, DocOk, PartitionOk, CompiledText, Compile, SplitLines, SectionContent, Content, Live, Trim,
         CanonicalMap, SplitAssignment;
    assert PassesThrough(c, b.id.section, line);
    var s := b.id.section;
    var layer := if b.id.scope == Global then GlobalLayer
                 else if b.id.scope == Map then MapLayer(m)
                 else PartitionLayer(m, p.value);
    assert layer in Layers(m, p) && b.id == At(layer, s);
    CompiledContent(c, doc, m, p, s);
    CompiledSome(c, doc, m, p);
    assert FromBlocks(c, doc.sections, Layers(m, p), (s, line));
    PassedIsThere(c, doc, m, p, s, line);
    ContentMembers(LinesIn(Compile(c, doc, m, p).value, s), Trim(line));
  }

  lemma NoDataLine(c: Catalog, doc: Doc, layers: seq<Layer>, s: string, line: string)
    requires CatalogOk(c) && FromBlocks(c, doc.sections, layers, (s, line))
    ensures s == c.landsraad ==> !(c.dataKey + "=" <= line)
  {
    hide TableOk, FieldOk, SplitAssignment, At, CleanKey;
    var head := c.dataKey + "=";
    if s == c.landsraad && head <= line {
      assert line == Entry("", c.dataKey, line[|head|..]);
      assert IsPrefix("");
      EntryParses("", c.dataKey, line[|head|..]);
    }
  }

  lemma {:induction false} DataKeeps(c: Catalog, doc: Doc, layers: seq<Layer>, ini: Ini, s: string, line: string)
    requires IniOk(ini) && line in LinesIn(ini, s)
    requires s == c.landsraad ==> !(c.dataKey + "=" <= line)
    ensures IniOk(WithData(c, doc, layers, ini)) && line in LinesIn(WithData(c, doc, layers, ini), s)
  {
    hide DataOverride, WithoutPrefix, Entry;
    if layers != [] {
      var front, last := layers[..|layers| - 1], layers[|layers| - 1];
      DataKeeps(c, doc, front, ini, s, line);
      var rest := WithData(c, doc, front, ini);
      var data := DataOverride(c, doc, last);
      if data.Some? {
        if s == c.landsraad { WithoutPrefixKeeps(LinesIn(rest, c.landsraad), c.dataKey + "=", line); }
        AssignOk(rest, c.landsraad,
          WithoutPrefix(LinesIn(rest, c.landsraad), c.dataKey + "=") + [Entry("", c.dataKey, data.value)]);
      }
    }
  }

  lemma {:induction false} WithoutPrefixKeeps(lines: seq<string>, p: string, line: string)
    requires !(p <= line)
    ensures line in WithoutPrefix(lines, p) <==> line in lines
  {
    if lines != [] {
      WithoutPrefixKeeps(lines[..|lines| - 1], p, line);
      assert lines == lines[..|lines| - 1] + [lines[|lines| - 1]];
    }
  }

  lemma PatchKeeps(c: Catalog, doc: Doc, m: string, p: Option<string>, ini: Ini, s: string, line: string)
    requires IniOk(ini) && line in LinesIn(ini, s)
    requires s == c.building ==> !IsStakingLine(c, line)
    requires s == c.landsraad ==> !(c.dataKey + "=" <= line)
    ensures IniOk(Patched(c, doc, m, p, ini)) && line in LinesIn(Patched(c, doc, m, p, ini), s)
  {
    hide WithData, Deduped, WithoutStaking, Layers, IsStakingLine;
    var a := WithData(c, doc, Layers(m, p), ini);
    DataKeeps(c, doc, Layers(m, p), ini, s, line);
    DedupedMembers(LinesIn(a, c.force.section));
    AssignOk(a, c.force.section, Deduped(LinesIn(a, c.force.section)));
    var b := if c.force.section in a.lines then Assign(a, c.force.section, Deduped(LinesIn(a, c.force.section))) else a;
    WithoutStakingMembers(c, LinesIn(b, c.building));
    AssignOk(b, c.building, WithoutStaking(c, LinesIn(b, c.building)));
  }

  lemma PassedIsThere(c: Catalog, doc: Doc, m: string, p: Option<string>, s: string, line: string)
    requires CatalogOk(c) && Compile(c, doc, m, p).Some?
    requires FromBlocks(c, doc.sections, Layers(m, p), (s, line))
    requires s == c.building ==> !IsStakingLine(c, line)
    ensures line in LinesIn(Compile(c, doc, m, p).value, s)
  {
    hide CatalogOk, FieldItems, UnknownItems, StakingItems, CooldownItems, ProfileValues, CooldownSeconds, Layers,
         FromBlocks, IsStakingLine, Patched;
    var values := ProfileValues(c, doc, m, p);
    var seconds := CooldownSeconds(c, doc, m, p).value;
    var items := BaseItems(c, doc, m, p, seconds);
    AppendAllLines(NO_SECTIONS, items, s);
    UnknownItemsMembers(c, doc.sections, Layers(m, p), (s, line));
    assert (s, line) in items;
    PickMembers(items, s);
    var base := AppendAll(NO_SECTIONS, items);
    assert LinesIn(NO_SECTIONS, s) + Pick(items, s) == Pick(items, s);
    NoDataLine(c, doc, Layers(m, p), s, line);
    PatchKeeps(c, doc, m, p, base, s, line);
    AppendAllLines(Patched(c, doc, m, p, base), StakingItems(c, c.staking, values).value, s);
  }

  // The staking arrays

  /** The lines that assign a key, under whatever prefix. */
  function Assigning(lines: seq<string>, key: string): seq<string> {
    if lines == [] then []
    else
      Assigning(lines[..|lines| - 1], key) +
      if Assigns(lines[|lines| - 1], key) then [lines[|lines| - 1]] else []
  }

  predicate Assigns(line: string, key: string) {
    SplitAssignment(line).Some? && SplitAssignment(line).value.key == key
  }

  /** What a reader of a section sees assigned to a key. */
  function Shown(lines: seq<string>, key: string): seq<string> { Assigning(Content(lines), key) }

  lemma {:induction false} AssigningAppend(a: seq<string>, b: seq<string>, key: string)
    ensures Assigning(a + b, key) == Assigning(a, key) + Assigning(b, key)
  {
    hide Assigns;
    if b == [] {
      assert a + b == a;
    } else {
      AssigningAppend(a, b[..|b| - 1], key);
      assert (a + b)[..|a + b| - 1] == a + b[..|b| - 1];
    }
  }

  lemma ShownAppend(a: seq<string>, b: seq<string>, key: string)
    ensures Shown(a + b, key) == Shown(a, key) + Shown(b, key)
  {
    hide Assigning, Content;
    ContentAppend(a, b);
    AssigningAppend(Content(a), Content(b), key);
  }

  lemma ShownOne(line: string, key: string)
    ensures Shown([line], key) == if Live(line) && Assigns(line, key) then [Trim(line)] else []
    ensures Shown([], key) == []
  {
    hide Live, Trim, Content, Assigns, Assigning;
    ContentOne(line);
    AssigningOne(Trim(line), key);
    AssignsTrimmed(line, key);
    assert Content([]) == [] by { NoContent(); }
  }

  lemma AssigningOne(line: string, key: string)
    ensures Assigning([line], key) == if Assigns(line, key) then [line] else []
    ensures Assigning([], key) == []
  {
    hide Assigns;
    assert [line][..0] == [];
  }

  lemma NoContent()
    ensures Content([]) == []
  {
  }

  lemma AssignsTrimmed(line: string, key: string)
    ensures Assigns(Trim(line), key) == Assigns(line, key)
  {
    hide Trim;
    TrimTwice(line);
  }

  lemma {:induction false} ShownNone(lines: seq<string>, key: string)
    requires forall l :: l in lines ==> !Assigns(l, key)
    ensures Shown(lines, key) == []
  {
    hide Assigns, Shown;
    if lines == [] {
      ShownOne("", key);
    } else {
      var front, last := lines[..|lines| - 1], lines[|lines| - 1];
      assert lines == front + [last] && last in lines;
      ShownNone(front, key);
      ShownAppend(front, [last], key);
      ShownOne(last, key);
    }
  }

  /** How an entry is shown, and under which key. */
  lemma EntryShown(prefix: string, name: string, value: string, key: string)
    requires IsPrefix(prefix) && CleanKey(name)
    ensures Shown([Entry(prefix, name, value)], key) ==
            if name == key then [prefix + name + "=" + StripRight(White, value)] else []
  {
    hide Shown, CleanKey, StripRight, HeaderLike;
    var line := Entry(prefix, name, value);
    EntryParses(prefix, name, value);
    EntryShape(prefix, name, value);
    PrefixedKey(prefix, name);
    TrimEntry(prefix + name, value);
    EntryLive(prefix, name, value);
    ShownOne(line, key);
  }

  lemma EntryLive(prefix: string, name: string, value: string)
    requires IsPrefix(prefix) && CleanKey(name)
    ensures Live(Entry(prefix, name, value))
  {
    hide StripRight;
    EntryShape(prefix, name, value);
    EntryParses(prefix, name, value);
  }

  lemma {:induction false} RepeatedShown(prefix: string, name: string, value: string, n: nat, key: string)
    requires IsPrefix(prefix) && CleanKey(name)
    ensures var r := Shown(Repeated(Entry(prefix, name, value), n), key);
            if name == key
            then |r| == n && forall i :: 0 <= i < n ==> r[i] == prefix + name + "=" + StripRight(White, value)
            else r == []
  {
    hide Shown, CleanKey, StripRight, Entry, IsPrefix;
    if n == 0 {
      ShownOne("", key);
    } else {
      RepeatedShown(prefix, name, value, n - 1, key);
      ShownAppend(Repeated(Entry(prefix, name, value), n - 1), [Entry(prefix, name, value)], key);
      EntryShown(prefix, name, value, key);
    }
  }

  /** The lines of one array: cleared, and then the time ten times. */
  predicate IsArray(lines: seq<string>, key: string, time: string) {
    if time == "" then lines == []
    else
      |lines| == 11 && lines[0] == "!" + key + "=ClearArray" &&
      forall i :: 1 <= i < 11 ==> lines[i] == "." + key + "=" + StripRight(White, time)
  }

  lemma StakingLinesShown(c: Catalog, f: Field, v: string, key: string)
    requires CleanKey(f.key) && StakingLines(c, f, v).Some?
    ensures var r := Shown(StakingLines(c, f, v).value, key);
            if f.key == key then c.stakingTime(v).Some? && IsArray(r, key, c.stakingTime(v).value) else r == []
  {
    hide Shown, CleanKey, StripRight, Repeated;
    var time := c.stakingTime(v).value;
    if time == "" {
      ShownOne("", key);
    } else {
      assert IsPrefix("!") && IsPrefix(".");
      EntryShown("!", f.key, "ClearArray", key);
      RepeatedShown(".", f.key, time, STAKING_ARRAY_LENGTH, key);
      ShownAppend([Entry("!", f.key, "ClearArray")], Repeated(Entry(".", f.key, time), STAKING_ARRAY_LENGTH), key);
      ClearStripped();
    }
  }

  lemma ClearStripped()
    ensures StripRight(White, "ClearArray") == "ClearArray"
  {
    assert "ClearArray"[|"ClearArray"| - 1] == 'y';
  }

  lemma {:induction false} ArraysShown(c: Catalog, fields: seq<Field>, values: Values, f: Field)
    requires StakingItems(c, fields, values).Some?
    requires forall g :: g in fields ==> CleanKey(g.key) && (g.key == f.key ==> g == f)
    requires forall i, j :: 0 <= i < j < |fields| ==> fields[i] != fields[j]
    ensures var r := Shown(Pick(StakingItems(c, fields, values).value, c.building), f.key);
            if f in fields
            then c.stakingTime(ValueOf(values, f)).Some? && IsArray(r, f.key, c.stakingTime(ValueOf(values, f)).value)
            else r == []
  {
    hide Shown, CleanKey, StakingLines, IsArray, ValueOf;
    if fields == [] {
      ShownOne("", f.key);
    } else {
      var front, g := fields[..|fields| - 1], fields[|fields| - 1];
      assert fields == front + [g] && g in fields;
      ArraysShown(c, front, values, f);
      var lines := StakingLines(c, g, ValueOf(values, g)).value;
      var items := StakingItems(c, front, values).value;
      PickAppend(items, InSection(c.building, lines), c.building);
      PickInSection(c.building, lines, c.building);
      ShownAppend(Pick(items, c.building), lines, f.key);
      StakingLinesShown(c, g, ValueOf(values, g), f.key);
      if g == f { assert f !in front; }
      assert [] + Shown(lines, f.key) == Shown(lines, f.key);
      assert Shown(Pick(items, c.building), f.key) + [] == Shown(Pick(items, c.building), f.key);
    }
  }

  /** Whatever the profile's blocks hold, the file assigns to a staking setting just
      the array of its converted time, and nothing when that is empty. */
  lemma StakingExactly(c: Catalog, doc: Doc, m: string, p: Option<string>, f: Field)
    requires CatalogOk(c) && DocOk(doc) && PartitionOk(p) && CompiledText(c, doc, m, p).Some?
    requires f in c.staking && forall i, j :: 0 <= i < j < |c.staking| ==> c.staking[i] != c.staking[j]
    ensures var time := c.stakingTime(SimpleRule(doc, c.aliases, f, Layers(m, p)));
            time.Some? &&
            IsArray(Assigning(SectionContent(SplitLines(CompiledText(c, doc, m, p).value), c.building), f.key),
              f.key, time.value)
  {
    hide CatalogOk, DocOk, PartitionOk, CompiledText, SplitLines, SectionContent, Content, Assigning, ProfileValues,
         SimpleRule, Layers, IsArray, StakingItems, Patched, BaseItems, CooldownSeconds, CleanKey;
    StakingClean(c, f);
    CompiledContent(c, doc, m, p, c.building);
    CompiledSome(c, doc, m, p);
    var values := ProfileValues(c, doc, m, p);
    var seconds := CompiledSeconds(c, doc, m, p);
    var items := BaseItems(c, doc, m, p, seconds);
    var base := AppendAll(NO_SECTIONS, items);
    AppendAllLines(NO_SECTIONS, items, c.building);
    PatchedClean(c, doc, m, p, base, f);
    var ini := Patched(c, doc, m, p, base);
    var arrays := StakingItems(c, c.staking, values).value;
    AppendAllLines(ini, arrays, c.building);
    ShownAppend(LinesIn(ini, c.building), Pick(arrays, c.building), f.key);
    ArraysShown(c, c.staking, values, f);
    ValuesFollowRule(c, doc, m, p, f);
    assert [] + Shown(Pick(arrays, c.building), f.key) == Shown(Pick(arrays, c.building), f.key);
  }

  lemma StakingClean(c: Catalog, f: Field)
    requires CatalogOk(c) && f in c.staking
    ensures f in c.fields
    ensures forall g :: g in c.staking ==> CleanKey(g.key) && (g.key == f.key ==> g == f)
  {
    hide TableOk, CleanKey;
    forall g | g in c.staking ensures CleanKey(g.key) && (g.key == f.key ==> g == f) { assert FieldOk(c, g); }
  }

  lemma PatchedClean(c: Catalog, doc: Doc, m: string, p: Option<string>, ini: Ini, f: Field)
    requires IniOk(ini) && f in c.staking
    ensures IniOk(Patched(c, doc, m, p, ini))
    ensures Shown(LinesIn(Patched(c, doc, m, p, ini), c.building), f.key) == []
  {
    hide WithData, Deduped, WithoutStaking, Layers, Shown, SplitAssignment;
    var a := WithData(c, doc, Layers(m, p), ini);
    DataOk(c, doc, Layers(m, p), ini);
    AssignOk(a, c.force.section, Deduped(LinesIn(a, c.force.section)));
    var b := if c.force.section in a.lines then Assign(a, c.force.section, Deduped(LinesIn(a, c.force.section))) else a;
    var kept := WithoutStaking(c, LinesIn(b, c.building));
    WithoutStakingMembers(c, LinesIn(b, c.building));
    AssignOk(b, c.building, kept);
    ShownNone(kept, f.key);
    ShownOne("", f.key);
  }

  lemma {:induction false} DataOk(c: Catalog, doc: Doc, layers: seq<Layer>, ini: Ini)
    requires IniOk(ini)
    ensures IniOk(WithData(c, doc, layers, ini))
  {
    hide DataOverride, WithoutPrefix, Entry;
    if layers != [] {
      var front, last := layers[..|layers| - 1], layers[|layers| - 1];
      DataOk(c, doc, front, ini);
      var rest := WithData(c, doc, front, ini);
      var data := DataOverride(c, doc, last);
      if data.Some? {
        AssignOk(rest, c.landsraad,
          WithoutPrefix(LinesIn(rest, c.landsraad), c.dataKey + "=") + [Entry("", c.dataKey, data.value)]);
      }
    }
  }

  // Refusals

  lemma {:induction false} StakingRefuses(c: Catalog, fields: seq<Field>, values: Values)
    ensures StakingItems(c, fields, values).None? <==>
            exists f :: f in fields && c.stakingTime(ValueOf(values, f)).None?
  {
    hide ValueOf;
    if fields != [] {
      var front, g := fields[..|fields| - 1], fields[|fields| - 1];
      assert fields == front + [g];
      StakingRefuses(c, front, values);
      if f :| f in front && c.stakingTime(ValueOf(values, f)).None? { assert f in fields; }
    }
  }

  /** A compilation is refused exactly when the native cooldown of the most specific
      scope that states one cannot be converted, or the value of a staking setting. */
  lemma CompileRefuses(c: Catalog, doc: Doc, m: string, p: Option<string>)
    requires CatalogOk(c)
    ensures var everywhere := GetKey(doc, BlockId(ServerCustomGlobal, "", "", c.customSection), c.customKey);
            var ofMap :=
              if m == "" then None
              else GetKey(doc, BlockId(ServerCustomMap, CanonicalMap(m), "", c.customSection), c.customKey);
            var ofPartition :=
              if m == "" || p.None? then None
              else GetKey(doc, BlockId(ServerCustomPartition, CanonicalMap(m), p.value, c.customSection), c.customKey);
            var hours := if ofPartition.Some? then ofPartition else if ofMap.Some? then ofMap else everywhere;
            CompiledText(c, doc, m, p).None? <==>
              (hours.Some? && c.cooldown(hours.value).None?) ||
              exists f :: f in c.staking && c.stakingTime(SimpleRule(doc, c.aliases, f, Layers(m, p))).None?
  {
    hide CatalogOk, ProfileValues, StakingItems, BaseItems, Patched, CooldownHours, CustomLayers, CompiledLines, GetKey,
         CanonicalMap, SimpleRule, Layers, ValueOf, Render, Join;
    NativeHours(c, doc, m, p);
    StakingRefuses(c, c.staking, ProfileValues(c, doc, m, p));
    TableFields(c);
    forall f | f in c.staking
      ensures ValueOf(ProfileValues(c, doc, m, p), f) == SimpleRule(doc, c.aliases, f, Layers(m, p))
    {
      ValuesFollowRule(c, doc, m, p, f);
    }
  }
}
