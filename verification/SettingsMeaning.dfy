/** The compiled text means what the profile says: for every scalar setting a
    reader of the text, with the schema default for what is absent, gets the value
    the scopes resolve to. */
module SettingsMeaning {
  import opened Wrappers
  import opened Text
  import opened IniLine
  import opened ProfileLines
  import opened ProfileText
  import opened ProfileNormal
  import opened ProfileReads
  import opened SettingsValues
  import opened IniFile
  import opened SettingsCompile
  import opened SettingsReadBack

  // Nothing that is written breaks its line or reads as a header

  ghost predicate Fine(line: string) { NoBreak(line) && !HeaderLike(line) }

  lemma EntryFine(prefix: string, key: string, value: string)
    requires IsPrefix(prefix) && CleanKey(key) && NoBreak(value)
    ensures Fine(Entry(prefix, key, value))
  {
    hide HeaderLike, NoBreak, CleanKey, IsPrefix, Entry;
    PrefixNoBreak(prefix);
    EntryParses(prefix, key, value);
    EntryNoBreak(prefix, key, value);
  }

  lemma EntryNoBreak(prefix: string, key: string, value: string)
    requires IsPrefix(prefix) && CleanKey(key) && NoBreak(value)
    ensures NoBreak(Entry(prefix, key, value))
  {
    var head := prefix + key + "=";
    assert NoBreak(head);
    assert Entry(prefix, key, value) == head + value;
  }

  lemma {:induction false} EffectiveValue(doc: Doc, f: Field, layers: seq<Layer>)
    requires DocOk(doc)
    ensures Effective(doc, f, layers).Some? ==> ReadValue(Effective(doc, f, layers).value)
  {
    hide DocOk, ReadValue, At, GetKey;
    if layers != [] {
      GetKeyValue(doc, At(layers[|layers| - 1], f.section), f.key);
      EffectiveValue(doc, f, layers[..|layers| - 1]);
    }
  }

  lemma RuleValue(c: Catalog, doc: Doc, f: Field, layers: seq<Layer>)
    requires CatalogOk(c) && DocOk(doc) && f in c.fields
    ensures ReadValue(SimpleRule(doc, c.aliases, f, layers))
  {
    hide DocOk, Effective, TableOk, CleanKey;
    assert FieldOk(c, f);
    EffectiveValue(doc, f, layers);
    match PairOf(c.aliases, f)
    case None =>
    case Some((former, current)) =>
      EffectiveValue(doc, former, layers);
      EffectiveValue(doc, current, layers);
  }

  /** The values that are compiled are those of the simple rule. */
  lemma ValuesFollowRule(c: Catalog, doc: Doc, m: string, p: Option<string>, f: Field)
    requires CatalogOk(c) && f in c.fields
    ensures ValueOf(ProfileValues(c, doc, m, p), f) == SimpleRule(doc, c.aliases, f, Layers(m, p))
  {
    hide FieldOk, CleanKey, SimpleRule, MapValues, PartitionValues, AliasesOk;
    match p
    case None => MapFollowsRule(doc, c.fields, c.aliases, m, f);
    case Some(id) => StagesFollowRule(doc, c.fields, c.aliases, m, id, f);
  }

  ghost predicate FineItems(items: seq<Item>) {
    forall item :: item in items ==> NoBreak(item.0) && Fine(item.1)
  }

  ghost predicate FineIni(ini: Ini) {
    IniOk(ini) && forall n :: n in ini.lines ==> NoBreak(n) && forall l :: l in ini.lines[n] ==> Fine(l)
  }

  ghost predicate PartitionOk(p: Option<string>) {
    p.Some? ==> NoBreak(p.value) && Trimmed(p.value)
  }

  lemma FieldLinesFine(c: Catalog, doc: Doc, f: Field, m: string, p: Option<string>, values: Values)
    requires CatalogOk(c) && PartitionOk(p) && f in c.fields && NoBreak(ValueOf(values, f))
    ensures forall l :: l in FieldLines(c, doc, f, m, p, values) ==> Fine(l)
  {
    hide Fine, Written, SelectorActive, CleanKey, TableOk, Entry, NoBreak, Trimmed;
    assert FieldOk(c, f);
    assert IsPrefix("") && IsPrefix("+");
    EntryFine("", f.key, ValueOf(values, f));
    if p.Some? {
      EntryFine("+", c.pvpKey, p.value);
      EntryFine("+", c.pveKey, p.value);
    }
  }

  lemma {:induction false} FieldItemsFine(c: Catalog, doc: Doc, fields: seq<Field>, m: string, p: Option<string>,
      values: Values)
    requires CatalogOk(c) && PartitionOk(p)
    requires forall f :: f in fields ==> f in c.fields && NoBreak(ValueOf(values, f))
    ensures FineItems(FieldItems(c, doc, fields, m, p, values))
  {
    hide Fine, CatalogOk, FieldLines, NoBreak, PartitionOk;
    if fields != [] {
      var front, f := fields[..|fields| - 1], fields[|fields| - 1];
      assert f in fields;
      FieldItemsFine(c, doc, front, m, p, values);
      FieldLinesFine(c, doc, f, m, p, values);
      FieldSection(c, f);
    }
  }

  lemma FieldSection(c: Catalog, f: Field)
    requires CatalogOk(c) && f in c.fields
    ensures NoBreak(f.section) && CleanKey(f.key)
  {
    hide CleanKey, TableOk;
    assert FieldOk(c, f);
  }

  lemma UnknownFine(c: Catalog, doc: Doc, layers: seq<Layer>)
    requires DocOk(doc) && forall l :: l in layers ==> true
    ensures FineItems(UnknownItems(c, doc.sections, layers))
  {
    hide UnknownItems, HeaderLike, NoBreak, At, PassesThrough, ParseHeader;
    forall item | item in UnknownItems(c, doc.sections, layers)
      ensures NoBreak(item.0) && Fine(item.1)
    {
      UnknownItemsMembers(c, doc.sections, layers, item);
      var l, b :| l in layers && b in doc.sections && b.id == At(l, b.id.section) && b.id.section == item.0 &&
        item.1 in b.lines && PassesThrough(c, item.0, item.1);
      assert BlockShaped(b);
      NotRawLayer(l, b.id.section);
      ParsedTarget(b.header);
      TargetSection(b.id);
    }
  }

  lemma NotRawLayer(l: Layer, section: string)
    ensures !At(l, section).scope.Raw?
  {
  }

  lemma TargetSection(id: BlockId)
    requires TargetOk(id)
    ensures NoBreak(id.section)
  {
  }

  lemma {:induction false} AppendAllFine(ini: Ini, items: seq<Item>)
    requires FineIni(ini) && FineItems(items)
    ensures FineIni(AppendAll(ini, items))
  {
    hide Fine, NoBreak;
    if items != [] {
      var front, last := items[..|items| - 1], items[|items| - 1];
      assert last in items;
      AppendAllFine(ini, front);
      AssignFine(AppendAll(ini, front), last.0, LinesIn(AppendAll(ini, front), last.0) + [last.1]);
    }
  }

  lemma AssignFine(ini: Ini, section: string, lines: seq<string>)
    requires FineIni(ini) && NoBreak(section) && forall l :: l in lines ==> Fine(l)
    ensures FineIni(Assign(ini, section, lines))
  {
    hide Fine, NoBreak;
    AssignOk(ini, section, lines);
  }

  lemma {:induction false} WithoutPrefixMembers(lines: seq<string>, p: string)
    ensures forall l :: l in WithoutPrefix(lines, p) ==> l in lines
  {
    if lines != [] { WithoutPrefixMembers(lines[..|lines| - 1], p); }
  }

  lemma {:induction false} DedupedMembers(lines: seq<string>)
    ensures forall l :: l in Deduped(lines) <==> l in lines
  {
    if lines != [] {
      DedupedMembers(lines[..|lines| - 1]);
      assert lines == lines[..|lines| - 1] + [lines[|lines| - 1]];
    }
  }

  lemma {:induction false} WithoutStakingMembers(c: Catalog, lines: seq<string>)
    ensures forall l :: l in WithoutStaking(c, lines) <==> l in lines && !IsStakingLine(c, l)
  {
    hide IsStakingLine;
    if lines != [] {
      WithoutStakingMembers(c, lines[..|lines| - 1]);
      assert lines == lines[..|lines| - 1] + [lines[|lines| - 1]];
    }
  }

  lemma OverrideValue(c: Catalog, doc: Doc, layer: Layer)
    requires DocOk(doc)
    ensures DataOverride(c, doc, layer).Some? ==> NoBreak(DataOverride(c, doc, layer).value)
  {
    hide DocOk, NoBreak, At, GetKey;
    GetKeyValue(doc, At(layer, c.landsraad), c.dataKey);
    GetKeyValue(doc, At(layer, c.landsraad), c.legacyDataKey);
  }

  lemma {:induction false} WithDataFine(c: Catalog, doc: Doc, layers: seq<Layer>, ini: Ini)
    requires CatalogOk(c) && DocOk(doc) && FineIni(ini)
    ensures FineIni(WithData(c, doc, layers, ini))
  {
    hide Fine, NoBreak, DocOk, TableOk, CleanKey, DataOverride, Entry, WithoutPrefix, FieldOk;
    if layers != [] {
      var front, last := layers[..|layers| - 1], layers[|layers| - 1];
      WithDataFine(c, doc, front, ini);
      var rest := WithData(c, doc, front, ini);
      OverrideValue(c, doc, last);
      var data := DataOverride(c, doc, last);
      if data.Some? {
        assert IsPrefix("");
        EntryFine("", c.dataKey, data.value);
        WithoutPrefixMembers(LinesIn(rest, c.landsraad), c.dataKey + "=");
        AssignFine(rest, c.landsraad,
          WithoutPrefix(LinesIn(rest, c.landsraad), c.dataKey + "=") + [Entry("", c.dataKey, data.value)]);
      }
    }
  }

  lemma PatchedFine(c: Catalog, doc: Doc, m: string, p: Option<string>, ini: Ini)
    requires CatalogOk(c) && DocOk(doc) && FineIni(ini)
    ensures FineIni(Patched(c, doc, m, p, ini))
  {
    hide Fine, NoBreak, DocOk, CatalogOk, WithData, Deduped, WithoutStaking, Layers;
    var a := WithData(c, doc, Layers(m, p), ini);
    WithDataFine(c, doc, Layers(m, p), ini);
    DedupedMembers(LinesIn(a, c.force.section));
    var b := if c.force.section in a.lines then Assign(a, c.force.section, Deduped(LinesIn(a, c.force.section))) else a;
    if c.force.section in a.lines {
      AssignFine(a, c.force.section, Deduped(LinesIn(a, c.force.section)));
    }
    WithoutStakingMembers(c, LinesIn(b, c.building));
    if c.building in b.lines {
      AssignFine(b, c.building, WithoutStaking(c, LinesIn(b, c.building)));
    }
  }

  lemma {:induction false} StakingItemsFine(c: Catalog, fields: seq<Field>, values: Values)
    requires CatalogOk(c) && StakingItems(c, fields, values).Some? && forall g :: g in fields ==> g in c.fields
    ensures FineItems(StakingItems(c, fields, values).value)
  {
    hide Fine, NoBreak, CatalogOk, StakingLines;
    if fields != [] {
      var front, g := fields[..|fields| - 1], fields[|fields| - 1];
      assert g in fields;
      StakingItemsFine(c, front, values);
      StakingLinesFine(c, g, ValueOf(values, g));
    }
  }

  lemma StakingLinesFine(c: Catalog, g: Field, v: string)
    requires CatalogOk(c) && g in c.fields && StakingLines(c, g, v).Some?
    ensures NoBreak(c.building) && forall l :: l in StakingLines(c, g, v).value ==> Fine(l)
  {
    hide CatalogOk, Fine, CleanKey, Entry, NoBreak, IsPrefix, STAKING_ARRAY_LENGTH;
    StakingParts(c, g, v);
    var time := c.stakingTime(v).value;
    EntryFine("!", g.key, "ClearArray");
    EntryFine(".", g.key, time);
    RepeatedMembers(Entry(".", g.key, time), STAKING_ARRAY_LENGTH);
  }

  lemma StakingParts(c: Catalog, g: Field, v: string)
    requires CatalogOk(c) && g in c.fields && c.stakingTime(v).Some?
    ensures CleanKey(g.key) && NoBreak(c.stakingTime(v).value) && NoBreak("ClearArray") && NoBreak(c.building)
    ensures IsPrefix("!") && IsPrefix(".")
  {
    hide TableOk, CleanKey, NoBreak;
    assert FieldOk(c, g);
    ClearWordy();
  }

  lemma ClearWordy()
    ensures NoBreak("ClearArray")
  {
    hide NoBreak;
    WordyText("ClearArray");
  }

  lemma CooldownFine(c: Catalog, doc: Doc, m: string, p: Option<string>)
    requires CatalogOk(c) && CooldownSeconds(c, doc, m, p).Some?
    ensures FineItems(CooldownItems(c, CooldownSeconds(c, doc, m, p).value))
  {
    hide TableOk, Fine, CleanKey, Entry, NoBreak, CooldownHours, CustomLayers, FieldOk;
    var seconds := CooldownSeconds(c, doc, m, p).value;
    assert IsPrefix("");
    if seconds.Some? {
      EntryFine("", c.cooldownKey, seconds.value);
    }
  }

  lemma ValuesFine(c: Catalog, doc: Doc, m: string, p: Option<string>)
    requires CatalogOk(c) && DocOk(doc)
    ensures forall f :: f in c.fields ==> NoBreak(ValueOf(ProfileValues(c, doc, m, p), f))
  {
    hide CatalogOk, DocOk, NoBreak, ProfileValues, Layers, SimpleRule;
    forall f | f in c.fields ensures NoBreak(ValueOf(ProfileValues(c, doc, m, p), f)) {
      ValuesFollowRule(c, doc, m, p, f);
      RuleValue(c, doc, f, Layers(m, p));
    }
  }

  /** Everything that a compilation writes stays on its line and in its section. */
  lemma CompileFine(c: Catalog, doc: Doc, m: string, p: Option<string>)
    requires CatalogOk(c) && DocOk(doc) && PartitionOk(p) && Compile(c, doc, m, p).Some?
    ensures FineIni(Compile(c, doc, m, p).value)
  {
    hide CatalogOk, DocOk, PartitionOk, Fine, NoBreak, FieldItems, UnknownItems, StakingItems, Patched, ProfileValues,
         Layers, CooldownSeconds, CooldownItems, AppendAll;
    var values := ProfileValues(c, doc, m, p);
    var seconds := CooldownSeconds(c, doc, m, p).value;
    ValuesFine(c, doc, m, p);
    FieldItemsFine(c, doc, c.fields, m, p, values);
    CooldownFine(c, doc, m, p);
    UnknownFine(c, doc, Layers(m, p));
    assert FineIni(NO_SECTIONS);
    AppendAllFine(NO_SECTIONS, BaseItems(c, doc, m, p, seconds));
    var base := AppendAll(NO_SECTIONS, BaseItems(c, doc, m, p, seconds));
    PatchedFine(c, doc, m, p, base);
    TableFields(c);
    StakingItemsFine(c, c.staking, values);
    AppendAllFine(Patched(c, doc, m, p, base), StakingItems(c, c.staking, values).value);
  }

  /** A reader of the compiled text sees the lines of the compiled section. */
  lemma CompiledContent(c: Catalog, doc: Doc, m: string, p: Option<string>, section: string)
    requires CatalogOk(c) && DocOk(doc) && PartitionOk(p) && CompiledText(c, doc, m, p).Some?
    ensures SectionContent(SplitLines(CompiledText(c, doc, m, p).value), section) ==
            Content(LinesIn(Compile(c, doc, m, p).value, section))
  {
    hide DocOk, PartitionOk, NoBreak, HeaderLike, Compile, SplitLines, Join, Render, SectionContent, Content, CatalogOk,
         Fine;
    CompileFine(c, doc, m, p);
    var ini := Compile(c, doc, m, p).value;
    FineRenders(c, ini);
    RenderContent(ini, c.comments, section);
    RenderText(ini, c.comments);
  }

  lemma FineRenders(c: Catalog, ini: Ini)
    requires CatalogOk(c) && FineIni(ini)
    ensures NoBreaks(c.comments) && forall l :: l in c.comments ==> !HeaderLike(l)
    ensures forall n :: n in ini.names ==> NoBreak(n) && NoBreaks(LinesIn(ini, n))
    ensures forall n, l :: n in ini.lines && l in ini.lines[n] ==> !HeaderLike(l)
  {
    hide NoBreak, HeaderLike, TableOk, FieldOk, CleanKey;
    forall n | n in ini.names ensures NoBreak(n) && NoBreaks(LinesIn(ini, n)) {
      assert n in ini.lines;
      forall i | 0 <= i < |ini.lines[n]| ensures NoBreak(ini.lines[n][i]) {
        assert ini.lines[n][i] in ini.lines[n];
      }
    }
  }

  // The theorem

  /** Equal, or equally true for a setting that is a boolean. */
  predicate SameMeaning(f: Field, a: string, b: string) {
    a == b || (f.boolean && Truthy(a) == Truthy(b))
  }

  /** What a reader of the compiled text takes the setting to be. */
  function ReadSetting(text: string, f: Field): string {
    OrDefault(FirstValue(SectionContent(SplitLines(text), f.section), f.key), f.defaultValue)
  }

  lemma StripLength(cls: Class, s: string)
    ensures |Strip(cls, s)| <= |s|
    ensures |Strip(cls, s)| == |s| ==> Stripped(cls, s)
  {
    hide Strip;
    var l, r := StripParts(cls, s);
    if |Strip(cls, s)| == |s| {
      assert l == [] && r == [];
      assert s == Strip(cls, s);
      StripIsStripped(cls, s);
    }
  }

  lemma StripIsStripped(cls: Class, s: string)
    ensures Stripped(cls, Strip(cls, s))
  {
  }

  lemma TrimmedExactly(v: string)
    requires Stripped(Quote, v)
    ensures Strip(Quote, Trim(v)) == v <==> Trimmed(v)
  {
    StripLength(White, v);
    StripLength(Quote, Trim(v));
  }

  /** What the compiled text gives for a scalar setting, whatever else the profile
      passes through: the layered value, up to truthy() for booleans, when that
      value is trimmed; for other settings only then. */
  lemma MeaningPreserved(c: Catalog, doc: Doc, m: string, p: Option<string>, f: Field)
    requires CatalogOk(c) && DocOk(doc) && PartitionOk(p) && f in c.fields && f !in c.staking
    requires CompiledText(c, doc, m, p).Some?
    ensures var v := SimpleRule(doc, c.aliases, f, Layers(m, p));
            var r := ReadSetting(CompiledText(c, doc, m, p).value, f);
            (Trimmed(v) ==> SameMeaning(f, r, v)) && (!f.boolean ==> (r == v <==> Trimmed(v)))
  {
    hide CatalogOk, DocOk, PartitionOk, CompiledText, SplitLines, SectionContent, FirstValue, Content, SimpleRule,
         Layers, ProfileValues, Truthy, Trimmed, Strip, Trim, Forced;
    var v := SimpleRule(doc, c.aliases, f, Layers(m, p));
    ReadsWritten(c, doc, m, p, f);
    RuleValue(c, doc, f, Layers(m, p));
    TrimmedExactly(v);
    DefaultTrimmed(c, f);
  }

  lemma DefaultTrimmed(c: Catalog, f: Field)
    requires CatalogOk(c) && f in c.fields
    ensures Trimmed(f.defaultValue)
  {
    hide TableOk, CleanKey;
    assert FieldOk(c, f);
  }

  /** A setting is in the compiled text exactly when it is written. */
  lemma ReadsWritten(c: Catalog, doc: Doc, m: string, p: Option<string>, f: Field)
    requires CatalogOk(c) && DocOk(doc) && PartitionOk(p) && f in c.fields && f !in c.staking
    requires CompiledText(c, doc, m, p).Some?
    ensures var v := SimpleRule(doc, c.aliases, f, Layers(m, p));
            ReadSetting(CompiledText(c, doc, m, p).value, f) ==
            if Written(c, doc, f, m, p, v) then Strip(Quote, Trim(v)) else f.defaultValue
  {
    hide CatalogOk, DocOk, PartitionOk, SplitLines, SectionContent, FirstValue, Content, SimpleRule, Layers,
         ProfileValues, Strip, Trim, Written, Compile, Join, Render;
    CompiledContent(c, doc, m, p, f.section);
    CompiledFound(c, doc, m, p, f);
    ValuesFollowRule(c, doc, m, p, f);
  }
}
