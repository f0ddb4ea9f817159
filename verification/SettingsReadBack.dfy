/** Compilation preserves meaning: reading a setting back from the compiled file
    gives the layered value. */
module SettingsReadBack {
  import opened Wrappers
  import opened Text
  import opened IniLine
  import opened ProfileLines
  import opened ProfileText
  import opened ProfileNormal
  import opened SettingsValues
  import opened IniFile
  import opened SettingsCompile

  /** The value that a list of section lines gives a key. */
  function Found(lines: seq<string>, key: string): Option<string> { FirstValue(Content(lines), key) }

  ghost predicate Silent(lines: seq<string>, key: string) {
    forall l :: l in lines ==> IniValue(l, key).None?
  }

  function OrElse(a: Option<string>, b: Option<string>): Option<string> { if a.Some? then a else b }

  lemma {:induction false} FirstValueAppend(a: seq<string>, b: seq<string>, key: string)
    ensures FirstValue(a + b, key) == OrElse(FirstValue(a, key), FirstValue(b, key))
  {
    hide ValueIn;
    if b == [] {
      assert a + b == a;
    } else {
      FirstValueAppend(a, b[..|b| - 1], key);
      assert (a + b)[..|a + b| - 1] == a + b[..|b| - 1];
    }
  }

  lemma FoundAppend(a: seq<string>, b: seq<string>, key: string)
    ensures Found(a + b, key) == OrElse(Found(a, key), Found(b, key))
  {
    hide FirstValue, Content;
    ContentAppend(a, b);
    FirstValueAppend(Content(a), Content(b), key);
  }

  lemma FoundOne(line: string, key: string)
    ensures Found([line], key) == IniValue(line, key)
  {
    hide Trim, HeaderLike;
    ContentOne(line);
    FirstOne(Trim(line), key);
  }

  lemma FirstOne(stripped: string, key: string)
    ensures FirstValue([stripped], key) == ValueIn(stripped, key) && FirstValue([], key) == None
  {
    hide ValueIn;
    assert [stripped][..0] == [];
  }

  lemma {:induction false} FoundSilent(lines: seq<string>, key: string)
    ensures Found(lines, key).None? <==> Silent(lines, key)
  {
    hide IniValue, Found;
    if lines == [] {
      FoundNothing(key);
    } else {
      var front, last := lines[..|lines| - 1], lines[|lines| - 1];
      assert lines == front + [last];
      FoundSilent(front, key);
      FoundAppend(front, [last], key);
      FoundOne(last, key);
      assert last in lines;
    }
  }

  lemma FoundNothing(key: string)
    ensures Found([], key) == None
  {
  }

  // Items and sections

  /** The lines that the items put under a section. */
  function Pick(items: seq<Item>, section: string): seq<string> {
    if items == [] then []
    else
      Pick(items[..|items| - 1], section) +
      if items[|items| - 1].0 == section then [items[|items| - 1].1] else []
  }

  lemma {:induction false} PickAppend(a: seq<Item>, b: seq<Item>, section: string)
    ensures Pick(a + b, section) == Pick(a, section) + Pick(b, section)
  {
    if b == [] {
      assert a + b == a;
    } else {
      PickAppend(a, b[..|b| - 1], section);
      assert (a + b)[..|a + b| - 1] == a + b[..|b| - 1];
    }
  }

  lemma {:induction false} PickInSection(s: string, lines: seq<string>, section: string)
    ensures Pick(InSection(s, lines), section) == if s == section then lines else []
  {
    if lines != [] {
      var front := lines[..|lines| - 1];
      PickInSection(s, front, section);
      assert InSection(s, lines)[..|front|] == InSection(s, front);
    }
  }

  lemma {:induction false} AppendAllLines(ini: Ini, items: seq<Item>, section: string)
    requires IniOk(ini)
    ensures IniOk(AppendAll(ini, items))
    ensures LinesIn(AppendAll(ini, items), section) == LinesIn(ini, section) + Pick(items, section)
  {
    hide LinesIn, Assign, IniOk;
    if items == [] {
      assert LinesIn(ini, section) + [] == LinesIn(ini, section);
    } else {
      var front, last := items[..|items| - 1], items[|items| - 1];
      AppendAllLines(ini, front, section);
      var rest := AppendAll(ini, front);
      AssignOk(rest, last.0, LinesIn(rest, last.0) + [last.1]);
      assert LinesIn(ini, section) + Pick(front, section) + [] == LinesIn(ini, section) + Pick(front, section);
      assert LinesIn(ini, section) + Pick(front, section) + [last.1] ==
        LinesIn(ini, section) + (Pick(front, section) + [last.1]);
    }
  }

  // The field loop

  lemma FieldLinesOther(c: Catalog, doc: Doc, g: Field, m: string, p: Option<string>, values: Values, key: string)
    requires CatalogOk(c) && g in c.fields && CleanKey(key) && g.key != key
    ensures Silent(FieldLines(c, doc, g, m, p, values), key)
  {
    hide IniValue, Written, SelectorActive, CleanKey, TableOk, Entry;
    assert FieldOk(c, g);
    EntryReads("", g.key, ValueOf(values, g), key);
    if p.Some? {
      assert IsPrefix("+");
      EntryReads("+", c.pvpKey, p.value, key);
      EntryReads("+", c.pveKey, p.value, key);
    }
  }

  lemma FieldLinesOwn(c: Catalog, doc: Doc, f: Field, m: string, p: Option<string>, values: Values)
    requires CatalogOk(c) && f in c.fields && f !in c.staking
    ensures Found(FieldLines(c, doc, f, m, p, values), f.key) ==
            if Written(c, doc, f, m, p, ValueOf(values, f)) then Some(Strip(Quote, Trim(ValueOf(values, f)))) else None
  {
    hide IniValue, Written, SelectorActive, CleanKey, TableOk, Entry, Found, Strip, Trim;
    assert FieldOk(c, f);
    var v := ValueOf(values, f);
    EntryReads("", f.key, v, f.key);
    var first := if Written(c, doc, f, m, p, v) then [Entry("", f.key, v)] else [];
    var rest := if f == c.force then Selected(c, doc, c.pvpKey, m, p) + Selected(c, doc, c.pveKey, m, p) else [];
    if p.Some? {
      assert IsPrefix("+");
      EntryReads("+", c.pvpKey, p.value, f.key);
      EntryReads("+", c.pveKey, p.value, f.key);
    }
    FoundSilent(rest, f.key);
    FoundOne(Entry("", f.key, v), f.key);
    FoundNothing(f.key);
    FoundAppend(first, rest, f.key);
  }

  /** Among the field loop's lines only the field's own line speaks of its key. */
  lemma {:induction false} FieldFound(c: Catalog, doc: Doc, fields: seq<Field>, m: string, p: Option<string>,
      values: Values, f: Field)
    requires CatalogOk(c) && f in c.fields && f !in c.staking
    requires forall g :: g in fields ==> g in c.fields
    requires forall i, j :: 0 <= i < j < |fields| ==> fields[i].id != fields[j].id
    ensures Found(Pick(FieldItems(c, doc, fields, m, p, values), f.section), f.key) ==
            if f in fields && Written(c, doc, f, m, p, ValueOf(values, f))
            then Some(Strip(Quote, Trim(ValueOf(values, f)))) else None
  {
    hide CatalogOk, Written, FieldLines, Found, Strip, Trim;
    if fields == [] {
      FoundNothing(f.key);
    } else {
      var front, g := fields[..|fields| - 1], fields[|fields| - 1];
      assert fields == front + [g];
      assert g in fields;
      FieldFound(c, doc, front, m, p, values, f);
      var lines := FieldLines(c, doc, g, m, p, values);
      PickAppend(FieldItems(c, doc, front, m, p, values), InSection(g.section, lines), f.section);
      PickInSection(g.section, lines, f.section);
      var a := Pick(FieldItems(c, doc, front, m, p, values), f.section);
      if g.section == f.section {
        FoundAppend(a, lines, f.key);
        OneField(c, doc, g, f, m, p, values);
      } else {
        assert a + [] == a;
      }
      if g == f { assert f !in front; }
    }
  }

  lemma OneField(c: Catalog, doc: Doc, g: Field, f: Field, m: string, p: Option<string>, values: Values)
    requires CatalogOk(c) && f in c.fields && f !in c.staking && g in c.fields && g.section == f.section
    ensures Found(FieldLines(c, doc, g, m, p, values), f.key) ==
            if g == f && Written(c, doc, f, m, p, ValueOf(values, f))
            then Some(Strip(Quote, Trim(ValueOf(values, f)))) else None
  {
    hide Written, FieldLines, Found, Strip, Trim, TableOk, CleanKey;
    assert FieldOk(c, f);
    if g == f {
      FieldLinesOwn(c, doc, f, m, p, values);
    } else {
      assert g.key != f.key;
      FieldLinesOther(c, doc, g, m, p, values, f.key);
      FoundSilent(FieldLines(c, doc, g, m, p, values), f.key);
    }
  }

  // The lines passed through

  /** A key that neither the patch of the data struct nor that of the staking arrays
      writes. */
  ghost predicate Steady(c: Catalog, section: string, key: string) {
    CleanKey(key) && (section == c.landsraad ==> key != c.dataKey) && (section == c.building ==> NoStaking(c, key))
  }

  /** No array of the staking fields has the key. */
  ghost predicate NoStaking(c: Catalog, key: string) { forall g :: g in c.staking ==> g.key != key }

  lemma FieldSteady(c: Catalog, f: Field)
    requires CatalogOk(c) && f in c.fields && f !in c.staking
    ensures Steady(c, f.section, f.key) && IsKnown(c, f.section, f.key)
  {
    hide TableOk, CleanKey;
    assert FieldOk(c, f);
  }

  lemma PassedSilent(c: Catalog, section: string, key: string, line: string)
    requires CleanKey(key) && IsKnown(c, section, key) && PassesThrough(c, section, line)
    ensures IniValue(line, key).None?
  {
    hide SplitAssignment, IniValue, IsKnown;
    ReadsArePlain(line, key);
  }

  lemma {:induction false} UnknownMembers(c: Catalog, section: string, lines: seq<string>)
    ensures forall l :: l in Unknown(c, section, lines) <==> l in lines && PassesThrough(c, section, l)
  {
    hide PassesThrough;
    if lines != [] {
      UnknownMembers(c, section, lines[..|lines| - 1]);
      assert lines == lines[..|lines| - 1] + [lines[|lines| - 1]];
    }
  }

  lemma {:induction false} PickMembers(items: seq<Item>, section: string)
    ensures forall l :: l in Pick(items, section) <==> (section, l) in items
  {
    if items != [] {
      PickMembers(items[..|items| - 1], section);
      assert items == items[..|items| - 1] + [items[|items| - 1]];
    }
  }

  lemma InSectionMembers(section: string, lines: seq<string>, item: Item)
    ensures item in InSection(section, lines) <==> item.0 == section && item.1 in lines
  {
    if item.0 == section && item.1 in lines {
      var i :| 0 <= i < |lines| && lines[i] == item.1;
      assert InSection(section, lines)[i] == item;
    }
  }

  /** Which items are passed through: the lines of the blocks of the scopes. */
  ghost predicate FromBlocks(c: Catalog, blocks: seq<Block>, layers: seq<Layer>, item: Item) {
    exists l, b :: l in layers && b in blocks && b.id == At(l, b.id.section) && b.id.section == item.0 &&
      item.1 in b.lines && PassesThrough(c, item.0, item.1)
  }

  lemma {:induction false} LayerMembers(c: Catalog, blocks: seq<Block>, layer: Layer, item: Item)
    ensures item in LayerItems(c, blocks, layer) <==> FromBlocks(c, blocks, [layer], item)
  {
    hide PassesThrough, At;
    if blocks != [] {
      var front, b := blocks[..|blocks| - 1], blocks[|blocks| - 1];
      assert blocks == front + [b];
      LayerMembers(c, front, layer, item);
      UnknownMembers(c, b.id.section, b.lines);
      var own := InSection(b.id.section, Unknown(c, b.id.section, b.lines));
      InSectionMembers(b.id.section, Unknown(c, b.id.section, b.lines), item);
      assert item in LayerItems(c, blocks, layer) <==>
        item in LayerItems(c, front, layer) || (InLayer(b, layer) && item in own);
      if FromBlocks(c, front, [layer], item) {
        var b' :| b' in front && b'.id == At(layer, b'.id.section) && b'.id.section == item.0 &&
          item.1 in b'.lines && PassesThrough(c, item.0, item.1);
        assert b' in blocks;
        assert layer in [layer];
      }
      if InLayer(b, layer) && item in own {
        assert b in blocks && layer in [layer];
      }
      if FromBlocks(c, blocks, [layer], item) {
        var b' :| b' in blocks && b'.id == At(layer, b'.id.section) && b'.id.section == item.0 &&
          item.1 in b'.lines && PassesThrough(c, item.0, item.1);
        assert b' in front || b' == b;
      }
    }
  }

  lemma {:induction false} UnknownItemsMembers(c: Catalog, blocks: seq<Block>, layers: seq<Layer>, item: Item)
    ensures item in UnknownItems(c, blocks, layers) <==> FromBlocks(c, blocks, layers, item)
  {
    hide PassesThrough, At, LayerItems;
    if layers != [] {
      var front, last := layers[..|layers| - 1], layers[|layers| - 1];
      assert layers == front + [last];
      UnknownItemsMembers(c, blocks, front, item);
      LayerMembers(c, blocks, last, item);
      if FromBlocks(c, blocks, layers, item) {
        var l, b :| l in layers && b in blocks && b.id == At(l, b.id.section) && b.id.section == item.0 &&
          item.1 in b.lines && PassesThrough(c, item.0, item.1);
        if l in front {
          assert FromBlocks(c, blocks, front, item);
        } else {
          assert l in [last];
          assert FromBlocks(c, blocks, [last], item);
        }
      }
      if FromBlocks(c, blocks, front, item) {
        var l, b :| l in front && b in blocks && b.id == At(l, b.id.section) && b.id.section == item.0 &&
          item.1 in b.lines && PassesThrough(c, item.0, item.1);
        assert l in layers;
      }
      if FromBlocks(c, blocks, [last], item) {
        var l, b :| l in [last] && b in blocks && b.id == At(l, b.id.section) && b.id.section == item.0 &&
          item.1 in b.lines && PassesThrough(c, item.0, item.1);
        assert l in layers;
      }
    }
  }

  lemma UnknownSilent(c: Catalog, doc: Doc, layers: seq<Layer>, section: string, key: string)
    requires CleanKey(key) && IsKnown(c, section, key)
    ensures Silent(Pick(UnknownItems(c, doc.sections, layers), section), key)
  {
    hide PassesThrough, UnknownItems, At, CleanKey, IniValue, IsKnown;
    var items := UnknownItems(c, doc.sections, layers);
    PickMembers(items, section);
    forall l | l in Pick(items, section) ensures IniValue(l, key).None? {
      UnknownItemsMembers(c, doc.sections, layers, (section, l));
      PassedSilent(c, section, key, l);
    }
  }

  // The patches

  lemma DataSilent(c: Catalog, key: string, rest: string)
    requires CleanKey(key) && CleanKey(c.dataKey) && key != c.dataKey
    ensures IniValue(Entry("", c.dataKey, rest), key).None?
  {
    hide IniValue, Entry, CleanKey;
    EntryReads("", c.dataKey, rest, key);
  }

  lemma {:induction false} WithoutPrefixFound(c: Catalog, key: string, lines: seq<string>)
    requires CleanKey(key) && CleanKey(c.dataKey) && key != c.dataKey
    ensures Found(WithoutPrefix(lines, c.dataKey + "="), key) == Found(lines, key)
  {
    hide IniValue, Found, CleanKey;
    if lines != [] {
      var front, last := lines[..|lines| - 1], lines[|lines| - 1];
      assert lines == front + [last];
      var p := c.dataKey + "=";
      WithoutPrefixFound(c, key, front);
      FoundAppend(front, [last], key);
      FoundOne(last, key);
      if p <= last {
        assert last == Entry("", c.dataKey, last[|p|..]);
        DataSilent(c, key, last[|p|..]);
        assert WithoutPrefix(front, p) + [] == WithoutPrefix(front, p);
      } else {
        FoundAppend(WithoutPrefix(front, p), [last], key);
      }
    }
  }

  lemma {:induction false} WithDataFound(c: Catalog, doc: Doc, layers: seq<Layer>, ini: Ini, section: string,
      key: string)
    requires CleanKey(c.dataKey) && IniOk(ini) && Steady(c, section, key)
    ensures IniOk(WithData(c, doc, layers, ini))
    ensures Found(LinesIn(WithData(c, doc, layers, ini), section), key) == Found(LinesIn(ini, section), key)
  {
    hide Found, CleanKey, DataOverride, Entry, WithoutPrefix;
    if layers != [] {
      var front, last := layers[..|layers| - 1], layers[|layers| - 1];
      WithDataFound(c, doc, front, ini, section, key);
      var rest := WithData(c, doc, front, ini);
      var data := DataOverride(c, doc, last);
      if data.Some? {
        var kept := WithoutPrefix(LinesIn(rest, c.landsraad), c.dataKey + "=");
        AssignOk(rest, c.landsraad, kept + [Entry("", c.dataKey, data.value)]);
        if section == c.landsraad {
          WithoutPrefixFound(c, key, LinesIn(rest, c.landsraad));
          FoundAppend(kept, [Entry("", c.dataKey, data.value)], key);
          FoundOne(Entry("", c.dataKey, data.value), key);
          DataSilent(c, key, data.value);
        }
      }
    }
  }

  lemma {:induction false} WithDataElsewhere(c: Catalog, doc: Doc, layers: seq<Layer>, ini: Ini, s: string)
    requires IniOk(ini) && s != c.landsraad
    ensures IniOk(WithData(c, doc, layers, ini)) && LinesIn(WithData(c, doc, layers, ini), s) == LinesIn(ini, s)
  {
    hide DataOverride, WithoutPrefix, Entry;
    if layers != [] {
      var front, last := layers[..|layers| - 1], layers[|layers| - 1];
      WithDataElsewhere(c, doc, front, ini, s);
      var rest := WithData(c, doc, front, ini);
      var data := DataOverride(c, doc, last);
      if data.Some? {
        AssignOk(rest, c.landsraad,
          WithoutPrefix(LinesIn(rest, c.landsraad), c.dataKey + "=") + [Entry("", c.dataKey, data.value)]);
      }
    }
  }

  lemma {:induction false} DedupedFound(lines: seq<string>, key: string)
    ensures Found(Deduped(lines), key) == Found(lines, key)
  {
    hide IniValue, Found;
    if lines != [] {
      var front, last := lines[..|lines| - 1], lines[|lines| - 1];
      assert lines == front + [last];
      DedupedFound(front, key);
      FoundAppend(front, [last], key);
      FoundAppend(Deduped(front), [last], key);
      FoundOne(last, key);
      FoundSilent(front, key);
      assert Deduped(front) + [] == Deduped(front);
    }
  }

  lemma StakingSilent(c: Catalog, key: string, line: string)
    requires CleanKey(key) && NoStaking(c, key) && IsStakingLine(c, line)
    ensures IniValue(line, key).None?
  {
    hide SplitAssignment, IniValue, CleanKey;
    ReadsArePlain(line, key);
  }

  lemma {:induction false} WithoutStakingFound(c: Catalog, key: string, lines: seq<string>)
    requires CleanKey(key) && NoStaking(c, key)
    ensures Found(WithoutStaking(c, lines), key) == Found(lines, key)
  {
    hide IniValue, Found, CleanKey, NoStaking, IsStakingLine;
    if lines != [] {
      var front, last := lines[..|lines| - 1], lines[|lines| - 1];
      assert lines == front + [last];
      WithoutStakingFound(c, key, front);
      FoundAppend(front, [last], key);
      FoundOne(last, key);
      if IsStakingLine(c, last) {
        StakingSilent(c, key, last);
        assert WithoutStaking(c, front) + [] == WithoutStaking(c, front);
      } else {
        FoundAppend(WithoutStaking(c, front), [last], key);
      }
    }
  }

  lemma PatchedFound(c: Catalog, doc: Doc, m: string, p: Option<string>, ini: Ini, section: string, key: string)
    requires CleanKey(c.dataKey) && IniOk(ini) && Steady(c, section, key)
    ensures IniOk(Patched(c, doc, m, p, ini))
    ensures Found(LinesIn(Patched(c, doc, m, p, ini), section), key) == Found(LinesIn(ini, section), key)
  {
    hide CleanKey, Found, WithData, Deduped, WithoutStaking, Layers;
    var a := WithData(c, doc, Layers(m, p), ini);
    WithDataFound(c, doc, Layers(m, p), ini, section, key);
    DedupedFound(LinesIn(a, c.force.section), key);
    AssignOk(a, c.force.section, Deduped(LinesIn(a, c.force.section)));
    var b := if c.force.section in a.lines then Assign(a, c.force.section, Deduped(LinesIn(a, c.force.section))) else a;
    AssignOk(b, c.building, WithoutStaking(c, LinesIn(b, c.building)));
    if section == c.building {
      WithoutStakingFound(c, key, LinesIn(b, c.building));
    }
  }

  lemma {:induction false} RepeatedMembers(line: string, n: nat)
    ensures forall l :: l in Repeated(line, n) ==> l == line
  {
    if n > 0 { RepeatedMembers(line, n - 1); }
  }

  lemma {:induction false} StakingItemsSilent(c: Catalog, fields: seq<Field>, values: Values, section: string,
      key: string)
    requires CatalogOk(c) && CleanKey(key) && forall g :: g in fields ==> g in c.fields
    requires StakingItems(c, fields, values).Some?
    ensures Silent(Pick(StakingItems(c, fields, values).value, section), key)
  {
    hide CatalogOk, IniValue, StakingLines, CleanKey;
    if fields != [] {
      var front, g := fields[..|fields| - 1], fields[|fields| - 1];
      assert g in fields;
      StakingItemsSilent(c, front, values, section, key);
      var lines := StakingLines(c, g, ValueOf(values, g)).value;
      PickAppend(StakingItems(c, front, values).value, InSection(c.building, lines), section);
      PickInSection(c.building, lines, section);
      StakingLinesSilent(c, g, ValueOf(values, g), key);
    }
  }

  lemma {:induction false} StakingElsewhere(c: Catalog, fields: seq<Field>, values: Values, section: string)
    requires section != c.building && StakingItems(c, fields, values).Some?
    ensures Pick(StakingItems(c, fields, values).value, section) == []
  {
    hide StakingLines;
    if fields != [] {
      var front, g := fields[..|fields| - 1], fields[|fields| - 1];
      StakingElsewhere(c, front, values, section);
      var lines := StakingLines(c, g, ValueOf(values, g)).value;
      PickAppend(StakingItems(c, front, values).value, InSection(c.building, lines), section);
      PickInSection(c.building, lines, section);
    }
  }

  lemma StakingLinesSilent(c: Catalog, g: Field, v: string, key: string)
    requires CatalogOk(c) && CleanKey(key) && g in c.fields && StakingLines(c, g, v).Some?
    ensures Silent(StakingLines(c, g, v).value, key)
  {
    hide TableOk, IniValue, CleanKey, Entry, STAKING_ARRAY_LENGTH;
    assert FieldOk(c, g);
    assert IsPrefix("!") && IsPrefix(".");
    var time := c.stakingTime(v).value;
    EntryReads("!", g.key, "ClearArray", key);
    EntryReads(".", g.key, time, key);
    RepeatedMembers(Entry(".", g.key, time), STAKING_ARRAY_LENGTH);
  }

  /** Of a steady key the compiled file holds what the field loop and the mirrored
      cooldown write, and then what is passed through. */
  lemma SteadyFound(c: Catalog, doc: Doc, m: string, p: Option<string>, section: string, key: string)
    requires CatalogOk(c) && Steady(c, section, key) && Compile(c, doc, m, p).Some?
    ensures IniOk(Compile(c, doc, m, p).value)
    ensures var fieldItems := FieldItems(c, doc, c.fields, m, p, ProfileValues(c, doc, m, p));
            var cooldown := CooldownItems(c, CooldownSeconds(c, doc, m, p).value);
            var passed := UnknownItems(c, doc.sections, Layers(m, p));
            Found(LinesIn(Compile(c, doc, m, p).value, section), key) ==
              OrElse(OrElse(Found(Pick(fieldItems, section), key), Found(Pick(cooldown, section), key)),
                Found(Pick(passed, section), key))
  {
    hide CatalogOk, Found, Patched, FieldItems, UnknownItems, StakingItems, CooldownItems, ProfileValues,
         CooldownSeconds, Layers, Steady, CleanKey;
    var values := ProfileValues(c, doc, m, p);
    var seconds := CooldownSeconds(c, doc, m, p).value;
    var fieldItems, unknown := FieldItems(c, doc, c.fields, m, p, values), UnknownItems(c, doc.sections, Layers(m, p));
    var cooldown := CooldownItems(c, seconds);
    var items := BaseItems(c, doc, m, p, seconds);
    var base := AppendAll(NO_SECTIONS, items);
    AppendAllLines(NO_SECTIONS, items, section);
    PickAppend(fieldItems + cooldown, unknown, section);
    PickAppend(fieldItems, cooldown, section);
    TableFields(c);
    SteadyKey(c, section, key);
    var a, b, d := Pick(fieldItems, section), Pick(cooldown, section), Pick(unknown, section);
    FoundAppend(a + b, d, key);
    FoundAppend(a, b, key);
    assert LinesIn(NO_SECTIONS, section) + (a + b + d) == a + b + d;
    PatchedFound(c, doc, m, p, base, section, key);
    var ini := Patched(c, doc, m, p, base);
    var arrays := StakingItems(c, c.staking, values).value;
    AppendAllLines(ini, arrays, section);
    StakingItemsSilent(c, c.staking, values, section, key);
    FoundSilent(Pick(arrays, section), key);
    FoundAppend(LinesIn(ini, section), Pick(arrays, section), key);
  }

  lemma SteadyKey(c: Catalog, section: string, key: string)
    requires CatalogOk(c) && Steady(c, section, key)
    ensures CleanKey(key) && CleanKey(c.dataKey)
  {
    hide TableOk, FieldOk, CleanKey;
  }

  /** Nothing that is passed through speaks of a key that the compiler knows. */
  lemma KeyFound(c: Catalog, doc: Doc, m: string, p: Option<string>, section: string, key: string)
    requires CatalogOk(c) && Steady(c, section, key) && IsKnown(c, section, key) && Compile(c, doc, m, p).Some?
    ensures IniOk(Compile(c, doc, m, p).value)
    ensures var fieldItems := FieldItems(c, doc, c.fields, m, p, ProfileValues(c, doc, m, p));
            var cooldown := CooldownItems(c, CooldownSeconds(c, doc, m, p).value);
            Found(LinesIn(Compile(c, doc, m, p).value, section), key) ==
              OrElse(Found(Pick(fieldItems, section), key), Found(Pick(cooldown, section), key))
  {
    hide CatalogOk, Found, Compile, FieldItems, UnknownItems, CooldownItems, ProfileValues, CooldownSeconds, Layers,
         CleanKey, IsKnown, Steady;
    SteadyFound(c, doc, m, p, section, key);
    SteadyKey(c, section, key);
    UnknownSilent(c, doc, Layers(m, p), section, key);
    FoundSilent(Pick(UnknownItems(c, doc.sections, Layers(m, p)), section), key);
    var seconds := CompiledSeconds(c, doc, m, p);
  }

  /** In the compiled sections a scalar setting is found exactly when it is written. */
  lemma CompiledFound(c: Catalog, doc: Doc, m: string, p: Option<string>, f: Field)
    requires CatalogOk(c) && f in c.fields && f !in c.staking && Compile(c, doc, m, p).Some?
    ensures IniOk(Compile(c, doc, m, p).value)
    ensures var v := ValueOf(ProfileValues(c, doc, m, p), f);
            Found(LinesIn(Compile(c, doc, m, p).value, f.section), f.key) ==
            if Written(c, doc, f, m, p, v) then Some(Strip(Quote, Trim(v))) else None
  {
    hide CatalogOk, Found, Written, FieldItems, Strip, Trim, ProfileValues, CooldownSeconds, CooldownItems, Compile,
         Steady;
    FieldSteady(c, f);
    KeyFound(c, doc, m, p, f.section, f.key);
    TableFields(c);
    FieldFound(c, doc, c.fields, m, p, ProfileValues(c, doc, m, p), f);
    var seconds := CompiledSeconds(c, doc, m, p);
    CooldownSilent(c, seconds, f);
    FoundSilent(Pick(CooldownItems(c, seconds), f.section), f.key);
  }

  lemma CompiledSeconds(c: Catalog, doc: Doc, m: string, p: Option<string>) returns (seconds: Option<string>)
    requires Compile(c, doc, m, p).Some?
    ensures CooldownSeconds(c, doc, m, p) == Some(seconds)
  {
    hide CooldownSeconds, Patched, StakingItems, BaseItems;
    seconds := CooldownSeconds(c, doc, m, p).value;
  }

  lemma TableFields(c: Catalog)
    requires CatalogOk(c)
    ensures forall i, j :: 0 <= i < j < |c.fields| ==> c.fields[i].id != c.fields[j].id
    ensures forall g :: g in c.staking ==> g in c.fields
  {
    hide FieldOk, AliasesOk, CleanKey;
  }

  lemma CooldownSilent(c: Catalog, seconds: Option<string>, f: Field)
    requires CatalogOk(c) && f in c.fields
    ensures Silent(Pick(CooldownItems(c, seconds), f.section), f.key)
  {
    hide TableOk, IniValue, CleanKey, Entry;
    assert FieldOk(c, f);
    PickMembers(CooldownItems(c, seconds), f.section);
    if seconds.Some? {
      EntryReads("", c.cooldownKey, seconds.value, f.key);
    }
  }
}
