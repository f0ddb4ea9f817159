/** The combat flags of a partition, read from the profile and from the freshly
    compiled file: exactly when the two readings agree. */
module SettingsDrift {
  import opened Wrappers
  import opened Text
  import opened IniLine
  import opened ProfileLines
  import opened ProfileText
  import opened ProfileNormal
  import opened ProfileReads
  import opened SettingsValues
  import opened IniFile
  import opened SettingsCompile
  import opened SettingsReadBack
  import opened SettingsMeaning

  predicate IsOff(v: string) { v == "0" || v == "false" || v == "no" || v == "off" }

  /** bool_or_none. */
  function BoolOrNone(v: string): Option<bool> {
    var text := Lower(Trim(v));
    if IsOn(text) then Some(true) else if IsOff(text) then Some(false) else None
  }

  /** COMBAT_STATE_FIELDS. */
  datatype Flags = Flags(
    force: Option<bool>, mode: Option<bool>, pvp: Option<bool>, pve: Option<bool>,
    legacyPvp: Option<bool>, serverPve: Option<bool>, zones: Option<bool>)

  datatype CombatFields = CombatFields(legacyPvp: Field, serverPve: Field, zones: Field)

  /** The combat fields are scalar booleans, and the reader's own defaults are the schema's. */
  ghost predicate CombatOk(c: Catalog, k: CombatFields) {
    CatalogOk(c) &&
    (forall f :: f in [c.force, k.legacyPvp, k.serverPve, k.zones] ==>
      f in c.fields && f !in c.staking && f.boolean && BoolOrNone(f.defaultValue).Some?)
  }

  /** profile_partition_values, read as flags. */
  function Configured(c: Catalog, k: CombatFields, doc: Doc, m: string, p: string): Flags {
    var values := ProfileValues(c, doc, m, Some(p));
    Flags(
      BoolOrNone(ValueOf(values, c.force)), Some(SelectorMode(c, doc, m, p)),
      Some(SelectorActive(c, doc, c.pvpKey, m, p)), Some(SelectorActive(c, doc, c.pveKey, m, p)),
      BoolOrNone(ValueOf(values, k.legacyPvp)), BoolOrNone(ValueOf(values, k.serverPve)),
      BoolOrNone(ValueOf(values, k.zones)))
  }

  /** materialized_partition_combat_values, read as flags. */
  function Materialized(c: Catalog, k: CombatFields, text: string, p: string): Flags {
    var content := SectionContent(SplitLines(text), c.force.section);
    Flags(
      BoolOrNone(ReadSetting(text, c.force)), Some(AnyKey(content, {c.pvpKey, c.pveKey})),
      Some(AnyHit(content, c.pvpKey, p)), Some(AnyHit(content, c.pveKey, p)),
      BoolOrNone(ReadSetting(text, k.legacyPvp)), BoolOrNone(ReadSetting(text, k.serverPve)),
      BoolOrNone(ReadSetting(text, k.zones)))
  }

  // Scalar flags

  lemma TruthyIsOn(v: string)
    ensures Truthy(v) <==> BoolOrNone(v) == Some(true)
  {
  }

  /** Lower case changes no quote, and no text into one. */
  lemma LowerQuotes(v: string)
    requires Lower(v) != [] && Lower(v)[0] != '"' && Lower(v)[|v| - 1] != '"'
    ensures Stripped(Quote, v)
  {
  }

  lemma WordsUnquoted(w: string)
    requires IsOn(w) || IsOff(w)
    ensures w != [] && w[0] != '"' && w[|w| - 1] != '"'
  {
  }

  /** A recognised flag survives the strips of the reader. */
  lemma RecognisedSurvives(v: string)
    requires BoolOrNone(v).Some?
    ensures BoolOrNone(Strip(Quote, Trim(v))) == BoolOrNone(v)
  {
    hide IsOn, IsOff, Lower, Trim, Strip;
    WordsUnquoted(Lower(Trim(v)));
    LowerQuotes(Trim(v));
    TrimTwice(v);
    StripFixed(Trim(v));
  }

  lemma TrimTwice(v: string)
    ensures Trim(Trim(v)) == Trim(v)
  {
  }

  lemma StripFixed(v: string)
    requires Stripped(Quote, v)
    ensures Strip(Quote, v) == v
  {
  }

  /** A flag that survives a compilation: a recognised boolean, or one that is
      written out and still none when the reader has stripped it. */
  predicate FlagKept(c: Catalog, doc: Doc, f: Field, m: string, p: string) {
    var v := ValueOf(ProfileValues(c, doc, m, Some(p)), f);
    BoolOrNone(v).Some? || (Written(c, doc, f, m, Some(p), v) && BoolOrNone(Strip(Quote, Trim(v))).None?)
  }

  /** A flag reads back the same exactly when it is kept. */
  lemma FlagAgrees(c: Catalog, doc: Doc, m: string, p: string, f: Field)
    requires CatalogOk(c) && DocOk(doc) && PartitionOk(Some(p)) && f in c.fields && f !in c.staking
    requires f.boolean && BoolOrNone(f.defaultValue).Some?
    requires CompiledText(c, doc, m, Some(p)).Some?
    ensures FlagKept(c, doc, f, m, p) <==>
            BoolOrNone(ReadSetting(CompiledText(c, doc, m, Some(p)).value, f)) ==
              BoolOrNone(ValueOf(ProfileValues(c, doc, m, Some(p)), f))
  {
    hide CatalogOk, DocOk, PartitionOk, CompiledText, ReadSetting, ProfileValues, Layers, SimpleRule, Forced,
         BoolOrNone, Truthy, Strip, Trim;
    var v := ValueOf(ProfileValues(c, doc, m, Some(p)), f);
    ValuesFollowRule(c, doc, m, Some(p), f);
    ReadsWritten(c, doc, m, Some(p), f);
    TruthyIsOn(v);
    TruthyIsOn(f.defaultValue);
    var b, d := BoolOrNone(v), BoolOrNone(f.defaultValue);
    if b.Some? { RecognisedSurvives(v); }
    if !Written(c, doc, f, m, Some(p), v) && b.Some? {
      assert b.value == d.value;
    }
  }

  // The selector arrays

  lemma {:induction false} ContentMembers(lines: seq<string>, s: string)
    ensures s in Content(lines) <==> exists l :: l in lines && Live(l) && Trim(l) == s
  {
    hide Live, Trim;
    if lines != [] {
      var front, last := lines[..|lines| - 1], lines[|lines| - 1];
      ContentMembers(front, s);
      assert lines == front + [last];
      if Live(last) && Trim(last) == s { assert last in lines; }
      if s in Content(front) {
        var l :| l in front && Live(l) && Trim(l) == s;
        assert l in lines;
      }
    }
  }

  /** How the assignment splitter sees a line that the array readers match. */
  lemma ArrayLine(line: string, key: string)
    requires CleanKey(key)
    ensures Live(line) && ArrayKey(Trim(line), {key}) ==>
              SplitAssignment(line).Some? && SplitAssignment(line).value.key == key &&
              (SplitAssignment(line).value.prefix == "" || SplitAssignment(line).value.prefix == "+")
    ensures forall v :: Live(line) && ArrayHit(Trim(line), key, v) ==>
              ArrayKey(Trim(line), {key}) && SplitAssignment(line).value.value == v
  {
    if Live(line) && ArrayKey(Trim(line), {key}) {
      var (left, right) := Cut(Trim(line), '=').value;
      assert ("+" + key)[1..] == key;
    }
  }

  /** An exactly written '+' entry of the key. */
  predicate Tight(line: string, key: string) {
    Live(line) &&
    match Cut(Trim(line), '=')
    case None => false
    case Some((left, _)) => Trim(left) == "+" + key
  }

  lemma ArrayLineTight(line: string, key: string)
    requires CleanKey(key)
    ensures Live(line) && ArrayKey(Trim(line), {key}) &&
            (SplitAssignment(line).Some? ==> SplitAssignment(line).value.prefix != "") ==>
              Tight(line, key)
    ensures Tight(line, key) ==>
              Live(line) && ArrayKey(Trim(line), {key}) && SplitAssignment(line).Some? &&
              SplitAssignment(line).value.prefix == "+" && SplitAssignment(line).value.key == key
  {
    assert ("+" + key)[0] == '+' && ("+" + key)[1..] == key;
    if Tight(line, key) {
      assert key in {key};
    }
  }

  lemma EntryTight(key: string, value: string)
    requires CleanKey(key) && Trimmed(value)
    ensures Tight(Entry("+", key, value), key) && ArrayHit(Trim(Entry("+", key, value)), key, value)
  {
    hide CleanKey, StripRight;
    assert IsPrefix("+");
    EntryShape("+", key, value);
    EntryParses("+", key, value);
    TrimOfStripRight(value);
    PlusNoComment(key);
  }

  lemma PlusNoComment(key: string)
    ensures !IsCommentChar(("+" + key)[0])
  {
  }

  /** The lines that the scopes of a partition hold for the selector section. */
  ghost predicate ScopeLine(c: Catalog, doc: Doc, m: string, p: string, line: string) {
    exists l :: l in PartitionLayers(m, p) && line in LinesOf(doc.sections, At(l, c.force.section))
  }

  lemma ScopeItem(c: Catalog, doc: Doc, m: string, p: string, line: string)
    requires UniqueIds(doc.sections)
    ensures FromBlocks(c, doc.sections, PartitionLayers(m, p), (c.force.section, line)) <==>
            ScopeLine(c, doc, m, p, line) && PassesThrough(c, c.force.section, line)
  {
    hide PassesThrough, PartitionLayers, At, LinesOf, UniqueIds;
    var s := c.force.section;
    if FromBlocks(c, doc.sections, PartitionLayers(m, p), (s, line)) {
      var l, b :| l in PartitionLayers(m, p) && b in doc.sections && b.id == At(l, b.id.section) && b.id.section == s &&
        line in b.lines && PassesThrough(c, s, line);
      LinesOfMember(doc.sections, b);
    }
    if ScopeLine(c, doc, m, p, line) && PassesThrough(c, s, line) {
      var l :| l in PartitionLayers(m, p) && line in LinesOf(doc.sections, At(l, s));
      LinesOfSome(doc.sections, At(l, s), line);
      AtSection(l, s);
    }
  }

  lemma AtSection(l: Layer, section: string)
    ensures At(l, section).section == section
  {
  }

  lemma LinesOfSome(blocks: seq<Block>, id: BlockId, line: string)
    requires line in LinesOf(blocks, id)
    ensures exists b :: b in blocks && b.id == id && line in b.lines
  {
    var i := Find(blocks, id).value;
    assert blocks[i] in blocks;
  }

  /** The lines of the compiled selector section. */
  lemma SelectorLines(c: Catalog, doc: Doc, m: string, p: Option<string>, line: string)
    requires CatalogOk(c) && Compile(c, doc, m, p).Some?
    ensures line in LinesIn(Compile(c, doc, m, p).value, c.force.section) <==>
            (c.force.section, line) in FieldItems(c, doc, c.fields, m, p, ProfileValues(c, doc, m, p)) ||
            FromBlocks(c, doc.sections, Layers(m, p), (c.force.section, line))
  {
    hide CatalogOk, Patched, FieldItems, StakingItems, ProfileValues, CooldownSeconds, Layers, FromBlocks, BaseItems,
         LinesIn, AppendAll, Pick;
    KeysClean(c);
    var s := c.force.section;
    var values := ProfileValues(c, doc, m, p);
    var seconds := CompiledSeconds(c, doc, m, p);
    var items := BaseItems(c, doc, m, p, seconds);
    AppendAllLines(NO_SECTIONS, items, s);
    SelectorItems(c, doc, m, p, seconds, line);
    var base := AppendAll(NO_SECTIONS, items);
    NoLines(s);
    assert [] + Pick(items, s) == Pick(items, s);
    PatchedSelectors(c, doc, m, p, base, line);
    var ini := Patched(c, doc, m, p, base);
    var arrays := StakingItems(c, c.staking, values).value;
    AppendAllLines(ini, arrays, s);
    StakingElsewhere(c, c.staking, values, s);
    assert LinesIn(ini, s) + [] == LinesIn(ini, s);
  }

  lemma NoLines(section: string)
    ensures IniOk(NO_SECTIONS) && LinesIn(NO_SECTIONS, section) == []
  {
  }

  lemma SelectorItems(c: Catalog, doc: Doc, m: string, p: Option<string>, seconds: Option<string>, line: string)
    requires c.force.section != c.building
    ensures line in Pick(BaseItems(c, doc, m, p, seconds), c.force.section) <==>
            (c.force.section, line) in FieldItems(c, doc, c.fields, m, p, ProfileValues(c, doc, m, p)) ||
            FromBlocks(c, doc.sections, Layers(m, p), (c.force.section, line))
  {
    hide FieldItems, UnknownItems, ProfileValues, Layers, FromBlocks, Entry, Pick;
    PickMembers(BaseItems(c, doc, m, p, seconds), c.force.section);
    UnknownItemsMembers(c, doc.sections, Layers(m, p), (c.force.section, line));
  }

  lemma PatchedSelectors(c: Catalog, doc: Doc, m: string, p: Option<string>, ini: Ini, line: string)
    requires IniOk(ini) && c.force.section != c.building && c.force.section != c.landsraad
    ensures IniOk(Patched(c, doc, m, p, ini))
    ensures line in LinesIn(Patched(c, doc, m, p, ini), c.force.section) <==> line in LinesIn(ini, c.force.section)
  {
    hide WithData, Deduped, WithoutStaking, Layers;
    var s := c.force.section;
    WithDataElsewhere(c, doc, Layers(m, p), ini, s);
    var a := WithData(c, doc, Layers(m, p), ini);
    DedupedMembers(LinesIn(a, s));
    AssignOk(a, s, Deduped(LinesIn(a, s)));
    var b := if s in a.lines then Assign(a, s, Deduped(LinesIn(a, s))) else a;
    AssignOk(b, c.building, WithoutStaking(c, LinesIn(b, c.building)));
  }

  lemma {:induction false} FieldItemMembers(c: Catalog, doc: Doc, fields: seq<Field>, m: string, p: Option<string>,
      values: Values, item: Item)
    ensures item in FieldItems(c, doc, fields, m, p, values) <==>
            exists f :: f in fields && f.section == item.0 && item.1 in FieldLines(c, doc, f, m, p, values)
  {
    hide FieldLines;
    if fields != [] {
      var front, f := fields[..|fields| - 1], fields[|fields| - 1];
      assert fields == front + [f];
      FieldItemMembers(c, doc, front, m, p, values, item);
      InSectionMembers(f.section, FieldLines(c, doc, f, m, p, values), item);
      if item in FieldItems(c, doc, front, m, p, values) {
        var g :| g in front && g.section == item.0 && item.1 in FieldLines(c, doc, g, m, p, values);
        assert g in fields;
      }
      assert f in fields;
    }
  }

  /** Among the field lines only the emitted selectors are array entries. */
  lemma FieldArrayLine(c: Catalog, doc: Doc, f: Field, m: string, p: Option<string>, values: Values, line: string,
      key: string)
    requires CatalogOk(c) && f in c.fields && f.section == c.force.section && (key == c.pvpKey || key == c.pveKey)
    requires line in FieldLines(c, doc, f, m, p, values) && Live(line) && ArrayKey(Trim(line), {key})
    ensures f == c.force && line in Selected(c, doc, c.pvpKey, m, p) + Selected(c, doc, c.pveKey, m, p)
  {
    hide Live, Trim, ArrayKey, SelectorActive, Written, CleanKey, TableOk, Entry, SplitAssignment;
    assert FieldOk(c, f);
    var v := ValueOf(values, f);
    assert IsPrefix("");
    if line == Entry("", f.key, v) {
      EntryParses("", f.key, v);
      ArrayLine(line, key);
    }
  }

  /** Being listed in an array is read the same from the file and from the profile. */
  lemma MembershipAgrees(c: Catalog, doc: Doc, m: string, p: string, key: string)
    requires CatalogOk(c) && DocOk(doc) && UniqueIds(doc.sections) && PartitionOk(Some(p))
    requires key == c.pvpKey || key == c.pveKey
    requires CompiledText(c, doc, m, Some(p)).Some?
    ensures AnyHit(SectionContent(SplitLines(CompiledText(c, doc, m, Some(p)).value), c.force.section), key, p) <==>
            SelectorActive(c, doc, key, m, p)
  {
    hide CatalogOk, DocOk, UniqueIds, PartitionOk, CompiledText, SplitLines, SectionContent, Content, Compile, LinesIn,
         ArrayHit, SelectorActive;
    CompiledContent(c, doc, m, Some(p), c.force.section);
    CompiledSome(c, doc, m, Some(p));
    var lines := LinesIn(Compile(c, doc, m, Some(p)).value, c.force.section);
    if AnyHit(Content(lines), key, p) {
      var s :| s in Content(lines) && ArrayHit(s, key, p);
      ContentMembers(lines, s);
      var line :| line in lines && Live(line) && Trim(line) == s;
      HitIsActive(c, doc, m, p, key, line);
    }
    if SelectorActive(c, doc, key, m, p) {
      ActiveIsWritten(c, doc, m, p, key);
      var line := Entry("+", key, p);
      KeysClean(c);
      PartitionTrimmed(p);
      EntryTight(key, p);
      ContentMembers(lines, Trim(line));
    }
  }

  lemma PartitionTrimmed(p: string)
    requires PartitionOk(Some(p))
    ensures Trimmed(p)
  {
  }

  lemma KeysClean(c: Catalog)
    requires CatalogOk(c)
    ensures CleanKey(c.pvpKey) && CleanKey(c.pveKey)
    ensures c.force.section != c.building && c.force.section != c.landsraad
  {
    hide TableOk, FieldOk, CleanKey;
  }

  lemma CompiledSome(c: Catalog, doc: Doc, m: string, p: Option<string>)
    requires CompiledText(c, doc, m, p).Some?
    ensures Compile(c, doc, m, p).Some?
  {
    hide Compile, Join, Render;
  }

  lemma ActiveIsWritten(c: Catalog, doc: Doc, m: string, p: string, key: string)
    requires CatalogOk(c) && (key == c.pvpKey || key == c.pveKey) && SelectorActive(c, doc, key, m, p)
    requires Compile(c, doc, m, Some(p)).Some?
    ensures Entry("+", key, p) in LinesIn(Compile(c, doc, m, Some(p)).value, c.force.section)
  {
    hide Compile, SelectorActive, ProfileValues, Entry, Written, TableOk, FieldOk, CleanKey;
    var line := Entry("+", key, p);
    var values := ProfileValues(c, doc, m, Some(p));
    assert line in FieldLines(c, doc, c.force, m, Some(p), values);
    FieldItemMembers(c, doc, c.fields, m, Some(p), values, (c.force.section, line));
    SelectorLines(c, doc, m, Some(p), line);
  }

  /** A line of the compiled section that lists the partition comes from an active selector. */
  lemma HitIsActive(c: Catalog, doc: Doc, m: string, p: string, key: string, line: string)
    requires CatalogOk(c) && UniqueIds(doc.sections) && PartitionOk(Some(p)) && (key == c.pvpKey || key == c.pveKey)
    requires Compile(c, doc, m, Some(p)).Some?
    requires line in LinesIn(Compile(c, doc, m, Some(p)).value, c.force.section)
    requires Live(line) && ArrayHit(Trim(line), key, p)
    ensures SelectorActive(c, doc, key, m, p)
  {
    hide CatalogOk, UniqueIds, PartitionOk, Compile, LinesIn, Live, Trim, ArrayHit, ArrayKey, ProfileValues, FieldLines,
         FromBlocks, SplitAssignment, LinesOf, PartitionLayers, Entry;
    KeysClean(c);
    ArrayLine(line, key);
    SelectorLines(c, doc, m, Some(p), line);
    var values := ProfileValues(c, doc, m, Some(p));
    FieldItemMembers(c, doc, c.fields, m, Some(p), values, (c.force.section, line));
    if f :| f in c.fields && f.section == c.force.section && line in FieldLines(c, doc, f, m, Some(p), values) {
      FieldArrayLine(c, doc, f, m, Some(p), values, line, key);
      SelectedKey(c, doc, m, p, key, line);
    } else {
      ScopeItem(c, doc, m, p, line);
      PassedPlus(c, line, key);
      assert Targets(line, "+", key, p);
    }
  }

  lemma PassedPlus(c: Catalog, line: string, key: string)
    requires PassesThrough(c, c.force.section, line) && (key == c.pvpKey || key == c.pveKey)
    requires SplitAssignment(line).Some? && SplitAssignment(line).value.key == key
    ensures SplitAssignment(line).value.prefix != ""
  {
    hide SplitAssignment;
  }

  lemma SelectedKey(c: Catalog, doc: Doc, m: string, p: string, key: string, line: string)
    requires CatalogOk(c) && PartitionOk(Some(p)) && (key == c.pvpKey || key == c.pveKey)
    requires line in Selected(c, doc, c.pvpKey, m, Some(p)) + Selected(c, doc, c.pveKey, m, Some(p))
    requires SplitAssignment(line).Some? && SplitAssignment(line).value.key == key
    ensures SelectorActive(c, doc, key, m, p)
  {
    hide SplitAssignment, SelectorActive, Entry, CatalogOk;
    KeysClean(c);
    assert IsPrefix("+");
    EntryParses("+", c.pvpKey, p);
    EntryParses("+", c.pveKey, p);
  }

  /** A '+' entry of a selector array that is written without a space after the '+'. */
  predicate HasTight(c: Catalog, doc: Doc, m: string, p: string) {
    exists l, line :: l in PartitionLayers(m, p) && line in LinesOf(doc.sections, At(l, c.force.section)) &&
      (Tight(line, c.pvpKey) || Tight(line, c.pveKey))
  }

  /** The file shows selector mode exactly when a tight '+' entry or the partition's own selection is there. */
  lemma ModeInFile(c: Catalog, doc: Doc, m: string, p: string)
    requires CatalogOk(c) && DocOk(doc) && UniqueIds(doc.sections) && PartitionOk(Some(p))
    requires CompiledText(c, doc, m, Some(p)).Some?
    ensures AnyKey(SectionContent(SplitLines(CompiledText(c, doc, m, Some(p)).value), c.force.section),
              {c.pvpKey, c.pveKey}) <==>
            HasTight(c, doc, m, p) || SelectorActive(c, doc, c.pvpKey, m, p) || SelectorActive(c, doc, c.pveKey, m, p)
  {
    hide CatalogOk, DocOk, UniqueIds, PartitionOk, CompiledText, SplitLines, SectionContent, Content, Compile, LinesIn,
         ArrayKey, SelectorActive, Live, Trim, Tight, Entry;
    CompiledContent(c, doc, m, Some(p), c.force.section);
    CompiledSome(c, doc, m, Some(p));
    var lines := LinesIn(Compile(c, doc, m, Some(p)).value, c.force.section);
    if AnyKey(Content(lines), {c.pvpKey, c.pveKey}) { ShownIsThere(c, doc, m, p, lines); }
    if HasTight(c, doc, m, p) {
      var l, line :| l in PartitionLayers(m, p) && line in LinesOf(doc.sections, At(l, c.force.section)) &&
        (Tight(line, c.pvpKey) || Tight(line, c.pveKey));
      TightIsWritten(c, doc, m, p, line);
      ShowsKey(c, lines, line);
    }
    forall key | (key == c.pvpKey || key == c.pveKey) && SelectorActive(c, doc, key, m, p)
      ensures AnyKey(Content(lines), {c.pvpKey, c.pveKey})
    {
      ActiveShows(c, doc, m, p, key, lines);
    }
  }

  lemma ShownIsThere(c: Catalog, doc: Doc, m: string, p: string, lines: seq<string>)
    requires CatalogOk(c) && UniqueIds(doc.sections) && PartitionOk(Some(p)) && Compile(c, doc, m, Some(p)).Some?
    requires lines == LinesIn(Compile(c, doc, m, Some(p)).value, c.force.section)
    requires AnyKey(Content(lines), {c.pvpKey, c.pveKey})
    ensures HasTight(c, doc, m, p) || SelectorActive(c, doc, c.pvpKey, m, p) || SelectorActive(c, doc, c.pveKey, m, p)
  {
    hide CatalogOk, UniqueIds, PartitionOk, Content, Compile, LinesIn, ArrayKey, SelectorActive, Live, Trim, HasTight;
    var s :| s in Content(lines) && ArrayKey(s, {c.pvpKey, c.pveKey});
    ContentMembers(lines, s);
    var line :| line in lines && Live(line) && Trim(line) == s;
    OneOfKeys(s, c.pvpKey, c.pveKey);
    var key := if ArrayKey(s, {c.pvpKey}) then c.pvpKey else c.pveKey;
    KeyIsTight(c, doc, m, p, key, line);
  }

  lemma ActiveShows(c: Catalog, doc: Doc, m: string, p: string, key: string, lines: seq<string>)
    requires CatalogOk(c) && UniqueIds(doc.sections) && PartitionOk(Some(p)) && Compile(c, doc, m, Some(p)).Some?
    requires lines == LinesIn(Compile(c, doc, m, Some(p)).value, c.force.section)
    requires (key == c.pvpKey || key == c.pveKey) && SelectorActive(c, doc, key, m, p)
    ensures AnyKey(Content(lines), {c.pvpKey, c.pveKey})
  {
    hide CatalogOk, UniqueIds, PartitionOk, Content, Compile, LinesIn, SelectorActive, AnyKey, Tight, Entry, Trimmed;
    ActiveIsWritten(c, doc, m, p, key);
    KeysClean(c);
    PartitionTrimmed(p);
    EntryTight(key, p);
    ShowsKey(c, lines, Entry("+", key, p));
  }

  lemma OneOfKeys(s: string, a: string, b: string)
    ensures ArrayKey(s, {a, b}) <==> ArrayKey(s, {a}) || ArrayKey(s, {b})
  {
    if ArrayKey(s, {a}) { assert a in {a, b}; }
    if ArrayKey(s, {b}) { assert b in {a, b}; }
    if ArrayKey(s, {a, b}) {
      var (left, right) := Cut(s, '=').value;
      var k :| k in {a, b} && (Trim(left) == k || Trim(left) == "+" + k);
      if k == a { assert a in {a}; } else { assert b in {b}; }
    }
  }

  lemma ShowsKey(c: Catalog, lines: seq<string>, line: string)
    requires CatalogOk(c) && line in lines && (Tight(line, c.pvpKey) || Tight(line, c.pveKey))
    ensures AnyKey(Content(lines), {c.pvpKey, c.pveKey})
  {
    hide CatalogOk, Live, Trim, ArrayKey, Tight, Content, SplitAssignment;
    KeysClean(c);
    ArrayLineTight(line, c.pvpKey);
    ArrayLineTight(line, c.pveKey);
    OneOfKeys(Trim(line), c.pvpKey, c.pveKey);
    ContentMembers(lines, Trim(line));
  }

  lemma TightIsWritten(c: Catalog, doc: Doc, m: string, p: string, line: string)
    requires CatalogOk(c) && UniqueIds(doc.sections) && Compile(c, doc, m, Some(p)).Some?
    requires ScopeLine(c, doc, m, p, line) && (Tight(line, c.pvpKey) || Tight(line, c.pveKey))
    ensures line in LinesIn(Compile(c, doc, m, Some(p)).value, c.force.section)
  {
    hide CatalogOk, UniqueIds, Compile, LinesIn, Tight, FromBlocks, SplitAssignment, ProfileValues, FieldItems,
         ScopeLine, PartitionLayers;
    KeysClean(c);
    ArrayLineTight(line, c.pvpKey);
    ArrayLineTight(line, c.pveKey);
    ScopeItem(c, doc, m, p, line);
    SelectorLines(c, doc, m, Some(p), line);
  }

  lemma KeyIsTight(c: Catalog, doc: Doc, m: string, p: string, key: string, line: string)
    requires CatalogOk(c) && UniqueIds(doc.sections) && PartitionOk(Some(p)) && (key == c.pvpKey || key == c.pveKey)
    requires Compile(c, doc, m, Some(p)).Some?
    requires line in LinesIn(Compile(c, doc, m, Some(p)).value, c.force.section)
    requires Live(line) && ArrayKey(Trim(line), {key})
    ensures HasTight(c, doc, m, p) || SelectorActive(c, doc, c.pvpKey, m, p) || SelectorActive(c, doc, c.pveKey, m, p)
  {
    hide CatalogOk, UniqueIds, PartitionOk, Compile, LinesIn, Live, Trim, ArrayKey, ProfileValues, FieldLines,
         FromBlocks, SplitAssignment, LinesOf, PartitionLayers, Entry, Tight;
    KeysClean(c);
    ArrayLine(line, key);
    SelectorLines(c, doc, m, Some(p), line);
    var values := ProfileValues(c, doc, m, Some(p));
    FieldItemMembers(c, doc, c.fields, m, Some(p), values, (c.force.section, line));
    if f :| f in c.fields && f.section == c.force.section && line in FieldLines(c, doc, f, m, Some(p), values) {
      FieldArrayLine(c, doc, f, m, Some(p), values, line, key);
      SelectedKey(c, doc, m, p, key, line);
    } else {
      ScopeItem(c, doc, m, p, line);
      PassedPlus(c, line, key);
      ArrayLineTight(line, key);
    }
  }

  lemma ActiveIsMode(c: Catalog, doc: Doc, m: string, p: string)
    requires CatalogOk(c)
    ensures HasTight(c, doc, m, p) || SelectorActive(c, doc, c.pvpKey, m, p) ||
            SelectorActive(c, doc, c.pveKey, m, p) ==>
              SelectorMode(c, doc, m, p)
  {
    hide CatalogOk, SplitAssignment, Tight, LinesOf, PartitionLayers, At;
    KeysClean(c);
    if HasTight(c, doc, m, p) {
      var l, line :| l in PartitionLayers(m, p) && line in LinesOf(doc.sections, At(l, c.force.section)) &&
        (Tight(line, c.pvpKey) || Tight(line, c.pveKey));
      ArrayLineTight(line, c.pvpKey);
      ArrayLineTight(line, c.pveKey);
      assert SelectorLine(c, line);
    }
    forall key | (key == c.pvpKey || key == c.pveKey) && SelectorActive(c, doc, key, m, p)
      ensures SelectorMode(c, doc, m, p)
    {
      var l, line :| l in PartitionLayers(m, p) && line in LinesOf(doc.sections, At(l, c.force.section)) &&
                     Targets(line, "+", key, p);
      assert SelectorLine(c, line);
    }
  }

  // The theorem

  /** A partition in selector mode has an entry that the readers of the file see. */
  predicate ModeShown(c: Catalog, doc: Doc, m: string, p: string) {
    SelectorMode(c, doc, m, p) ==>
      HasTight(c, doc, m, p) || SelectorActive(c, doc, c.pvpKey, m, p) || SelectorActive(c, doc, c.pveKey, m, p)
  }

  /** Reading the flags from the freshly compiled text gives the configured flags
      exactly when the four scalar flags are kept, and a partition
      in selector mode has a tight '+' entry or is itself selected. */
  lemma NoDriftExactly(c: Catalog, k: CombatFields, doc: Doc, m: string, p: string)
    requires CombatOk(c, k) && DocOk(doc) && UniqueIds(doc.sections) && PartitionOk(Some(p))
    requires CompiledText(c, doc, m, Some(p)).Some?
    ensures Materialized(c, k, CompiledText(c, doc, m, Some(p)).value, p) == Configured(c, k, doc, m, p) <==>
            FlagKept(c, doc, c.force, m, p) && FlagKept(c, doc, k.legacyPvp, m, p) &&
            FlagKept(c, doc, k.serverPve, m, p) && FlagKept(c, doc, k.zones, m, p) &&
            ModeShown(c, doc, m, p)
  {
    hide CatalogOk, DocOk, UniqueIds, PartitionOk, CompiledText, ReadSetting, SplitLines, SectionContent, BoolOrNone,
         ProfileValues, Written, SelectorMode, SelectorActive, HasTight, AnyKey, AnyHit, FlagKept;
    MembershipAgrees(c, doc, m, p, c.pvpKey);
    MembershipAgrees(c, doc, m, p, c.pveKey);
    ModeInFile(c, doc, m, p);
    ActiveIsMode(c, doc, m, p);
    var fields := [c.force, k.legacyPvp, k.serverPve, k.zones];
    assert c.force in fields && k.legacyPvp in fields && k.serverPve in fields && k.zones in fields;
    FlagAgrees(c, doc, m, p, c.force);
    FlagAgrees(c, doc, m, p, k.legacyPvp);
    FlagAgrees(c, doc, m, p, k.serverPve);
    FlagAgrees(c, doc, m, p, k.zones);
  }

  /** The profile with one plain, empty line for a selector array, which a user
      writes to clear the array. */
  function ClearedSelectors(c: Catalog): Doc {
    var id := At(GlobalLayer, c.force.section);
    Doc([], [Block(Header(id), id, [Entry("", c.pvpKey, "")])])
  }

  /** That line puts the partition in selector mode, and the compiled file shows no
      selector at all. */
  lemma PlainSelectorDrifts(c: Catalog, k: CombatFields, m: string, p: string)
    requires CombatOk(c, k) && PartitionOk(Some(p)) && CompiledText(c, ClearedSelectors(c), m, Some(p)).Some?
    ensures var doc := ClearedSelectors(c);
            DocOk(doc) && UniqueIds(doc.sections) && Configured(c, k, doc, m, p).mode == Some(true) &&
            Materialized(c, k, CompiledText(c, doc, m, Some(p)).value, p).mode == Some(false)
  {
    hide CatalogOk, PartitionOk, CompiledText, ReadSetting, SplitLines, SectionContent, BoolOrNone, ProfileValues,
         AnyKey, AnyHit, SplitAssignment, Entry, PartitionLayers, Header, Tight, CanonicalMap;
    var doc := ClearedSelectors(c);
    var line := Entry("", c.pvpKey, "");
    ClearedOk(c);
    GlobalOnly(c, m, p);
    LineCleared(c);
    assert SelectorMode(c, doc, m, p);
    forall l, line' | l in PartitionLayers(m, p) && line' in LinesOf(doc.sections, At(l, c.force.section))
      ensures line' == line
    {
      LinesOfSome(doc.sections, At(l, c.force.section), line');
    }
    assert !HasTight(c, doc, m, p);
    ModeInFile(c, doc, m, p);
  }

  lemma GlobalOnly(c: Catalog, m: string, p: string)
    ensures GlobalLayer in PartitionLayers(m, p)
    ensures LinesOf(ClearedSelectors(c).sections, At(GlobalLayer, c.force.section)) == [Entry("", c.pvpKey, "")]
  {
    hide Entry, Header;
  }

  lemma LineCleared(c: Catalog)
    requires CatalogOk(c)
    ensures var line := Entry("", c.pvpKey, "");
            SelectorLine(c, line) && !Tight(line, c.pvpKey) && !Tight(line, c.pveKey) &&
            forall key, p :: !Targets(line, "+", key, p)
  {
    hide CatalogOk, SplitAssignment, CleanKey, Entry, Tight;
    KeysClean(c);
    assert IsPrefix("");
    EntryParses("", c.pvpKey, "");
    ArrayLineTight(Entry("", c.pvpKey, ""), c.pvpKey);
    ArrayLineTight(Entry("", c.pvpKey, ""), c.pveKey);
  }

  lemma ClearedOk(c: Catalog)
    requires CatalogOk(c)
    ensures DocOk(ClearedSelectors(c))
  {
    hide ParseHeader, Header, CanonicalMap, NoBreak, HeaderLike, CleanKey, TableOk;
    var id := At(GlobalLayer, c.force.section);
    EmptyName();
    NoBreakEmpty();
    assert FieldOk(c, c.force);
    assert TargetOk(id);
    HeaderRoundTrip(id);
    assert IsPrefix("");
    EntryParses("", c.pvpKey, "");
    EntryBreaks("", c.pvpKey, "");
  }

  datatype CombatState = PVP | PVE | CONFLICT | UNKNOWN

  datatype Source =
    | PartitionSelectors | ForceAllVsPartition | ForceAll | PvpSelector | PveSelector
    | SelectorDefault | LegacyFlags | Unresolved

  /** resolve_partition_combat_state. */
  function Resolve(f: Flags): (CombatState, Source) {
    if f.pvp == Some(true) && f.pve == Some(true) then (CONFLICT, PartitionSelectors)
    else if f.force == Some(true) && f.pve == Some(true) then (CONFLICT, ForceAllVsPartition)
    else if f.force == Some(true) then (PVP, ForceAll)
    else if f.pvp == Some(true) then (PVP, PvpSelector)
    else if f.pve == Some(true) then (PVE, PveSelector)
    else if f.mode == Some(true) then (PVE, SelectorDefault)
    else if f.legacyPvp == Some(true) && f.serverPve == Some(false) then (PVP, LegacyFlags)
    else if f.legacyPvp == Some(false) && f.serverPve == Some(true) then (PVE, LegacyFlags)
    else (UNKNOWN, Unresolved)
  }

  /** The state, from the flags alone. Only a recognised flag counts, for whatever
      it says; listed partitions come first, then forcing, then selector mode. */
  lemma StateExactly(f: Flags)
    ensures Resolve(f).0 == CONFLICT <==> f.pve == Some(true) && (f.pvp == Some(true) || f.force == Some(true))
    ensures Resolve(f).0 == PVP <==>
            f.pve != Some(true) &&
            (f.pvp == Some(true) || f.force == Some(true) ||
             (f.mode != Some(true) && f.legacyPvp == Some(true) && f.serverPve == Some(false)))
    ensures Resolve(f).0 == PVE <==>
            f.pvp != Some(true) && f.force != Some(true) &&
            (f.pve == Some(true) || f.mode == Some(true) || (f.legacyPvp == Some(false) && f.serverPve == Some(true)))
    ensures Resolve(f).0 == UNKNOWN <==>
            f.pvp != Some(true) && f.pve != Some(true) && f.force != Some(true) && f.mode != Some(true) &&
            (f.legacyPvp.None? || f.serverPve.None? || f.legacyPvp.value == f.serverPve.value)
  {
  }

  /** Where the answer comes from: the name of the first rule that applies. */
  lemma SourceExactly(f: Flags)
    ensures Resolve(f).1 == ForceAll <==> Resolve(f).0 == PVP && f.force == Some(true)
    ensures Resolve(f).1 == PvpSelector <==> Resolve(f).0 == PVP && f.force != Some(true) && f.pvp == Some(true)
    ensures Resolve(f).1 == PveSelector <==> Resolve(f).0 == PVE && f.pve == Some(true)
    ensures Resolve(f).1 == SelectorDefault <==> Resolve(f).0 == PVE && f.pve != Some(true) && f.mode == Some(true)
    ensures Resolve(f).1 == PartitionSelectors <==> f.pvp == Some(true) && f.pve == Some(true)
    ensures Resolve(f).1 == ForceAllVsPartition <==> Resolve(f).0 == CONFLICT && f.pvp != Some(true)
    ensures Resolve(f).1 == LegacyFlags ==> f.legacyPvp.Some? && f.serverPve.Some? && f.legacyPvp != f.serverPve
    ensures Resolve(f).1 == Unresolved <==> Resolve(f).0 == UNKNOWN
  {
  }

  /** An unrecognised flag counts as neither true nor false: for forcing and the
      selectors it is as good as off, and no legacy answer is built on it. */
  lemma UnrecognisedIsNothing(f: Flags, x: Option<bool>)
    ensures Resolve(f.(force := None)) == Resolve(f.(force := Some(false)))
    ensures Resolve(f.(mode := None)) == Resolve(f.(mode := Some(false)))
    ensures Resolve(f.(pvp := None)) == Resolve(f.(pvp := Some(false)))
    ensures Resolve(f.(pve := None)) == Resolve(f.(pve := Some(false)))
    ensures Resolve(f.(legacyPvp := None)) == Resolve(f.(legacyPvp := None, serverPve := x))
    ensures Resolve(f.(serverPve := None)) == Resolve(f.(serverPve := None, legacyPvp := x))
    ensures Resolve(f.(zones := x)) == Resolve(f)
  {
  }

  /** The legacy flags say nothing about a listed partition. */
  lemma ListedIgnoresLegacy(f: Flags, x: Option<bool>, y: Option<bool>)
    requires f.pvp == Some(true) || f.pve == Some(true)
    ensures Resolve(f.(legacyPvp := x, serverPve := y)) == Resolve(f)
  {
  }

  /** A partition that is only in the PvP array resolves from the compiled text to
      PVP, one only in the PvE array to PVE, unless the text forces PvP on all,
      which conflicts; one in both conflicts. */
  lemma ListedResolves(c: Catalog, k: CombatFields, doc: Doc, m: string, p: string)
    requires CombatOk(c, k) && DocOk(doc) && UniqueIds(doc.sections) && PartitionOk(Some(p))
    requires CompiledText(c, doc, m, Some(p)).Some?
    ensures var text := CompiledText(c, doc, m, Some(p)).value;
            var state := Resolve(Materialized(c, k, text, p)).0;
            var pvp, pve := SelectorActive(c, doc, c.pvpKey, m, p), SelectorActive(c, doc, c.pveKey, m, p);
            (pvp && !pve ==> state == PVP) && (pvp && pve ==> state == CONFLICT) &&
            (pve && !pvp ==> state == if BoolOrNone(ReadSetting(text, c.force)) == Some(true) then CONFLICT else PVE)
  {
    hide CatalogOk, DocOk, UniqueIds, PartitionOk, CompiledText, ReadSetting, SplitLines, SectionContent, BoolOrNone,
         SelectorActive, AnyKey, AnyHit, Resolve;
    MembershipAgrees(c, doc, m, p, c.pvpKey);
    MembershipAgrees(c, doc, m, p, c.pveKey);
    StateExactly(Materialized(c, k, CompiledText(c, doc, m, Some(p)).value, p));
  }

  /** With recognised booleans and its mode shown a partition's freshly compiled file
      resolves to the state that is configured. */
  lemma SameStateAfterCompile(c: Catalog, k: CombatFields, doc: Doc, m: string, p: string)
    requires CombatOk(c, k) && DocOk(doc) && UniqueIds(doc.sections) && PartitionOk(Some(p))
    requires CompiledText(c, doc, m, Some(p)).Some?
    requires forall f :: f in [c.force, k.legacyPvp, k.serverPve, k.zones] ==>
      BoolOrNone(ValueOf(ProfileValues(c, doc, m, Some(p)), f)).Some?
    requires ModeShown(c, doc, m, p)
    ensures Materialized(c, k, CompiledText(c, doc, m, Some(p)).value, p) == Configured(c, k, doc, m, p)
    ensures Resolve(Materialized(c, k, CompiledText(c, doc, m, Some(p)).value, p)) ==
              Resolve(Configured(c, k, doc, m, p))
  {
    hide CombatOk, DocOk, UniqueIds, PartitionOk, CompiledText, BoolOrNone, ProfileValues, Written, SelectorActive,
         SelectorLine, Tight, Configured, Materialized, Resolve, PartitionLayers, At, LinesOf;
    NoDriftExactly(c, k, doc, m, p);
    var fields := [c.force, k.legacyPvp, k.serverPve, k.zones];
    assert c.force in fields && k.legacyPvp in fields && k.serverPve in fields && k.zones in fields;
  }
}
