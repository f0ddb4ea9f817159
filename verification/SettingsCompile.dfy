/** Compiling the profile into one runtime UserGame.ini, and why a reader of that
    file finds the layered values. */
module SettingsCompile {
  import opened Wrappers
  import opened Text
  import opened IniLine
  import opened ProfileLines
  import opened ProfileText
  import opened ProfileNormal
  import opened SettingsValues
  import opened IniFile

  /** The schema that the compiler is written over. */
  datatype Catalog = Catalog(
    fields: seq<Field>, aliases: seq<(Field, Field)>,
    retired: map<string, set<string>>,
    staking: seq<Field>,
    force: Field, pvpKey: string, pveKey: string,
    building: string, cooldownKey: string, customSection: string, customKey: string,
    landsraad: string, dataKey: string, legacyDataKey: string,
    comments: seq<string>,
    stakingTime: string -> Option<string>, cooldown: string -> Option<string>)

  const STAKING_ARRAY_LENGTH: nat := 10

  /** The sections the readers know and the values the schema may hold. */
  ghost predicate CatalogOk(c: Catalog) {
    TableOk(c.fields, c.aliases) &&
    (forall f :: f in c.fields ==> FieldOk(c, f)) &&
    (forall f, g :: f in c.fields && g in c.fields && f.section == g.section && f.key == g.key ==> f == g) &&
    (forall f :: f in c.staking ==> f in c.fields && f.section == c.building) &&
    c.force in c.fields && c.force !in c.staking &&
    c.force.section != c.building && c.force.section != c.landsraad &&
    CleanKey(c.pvpKey) && CleanKey(c.pveKey) && CleanKey(c.cooldownKey) &&
    CleanKey(c.dataKey) && CleanKey(c.legacyDataKey) && NoBreak(c.building) && NoBreak(c.landsraad) &&
    (forall l :: l in c.comments ==> NoBreak(l) && !HeaderLike(l)) &&
    (forall v :: c.stakingTime(v).Some? ==> NoBreak(c.stakingTime(v).value)) &&
    (forall v :: c.cooldown(v).Some? ==> NoBreak(c.cooldown(v).value))
  }

  /** A row that no other part of the compiler writes under. */
  ghost predicate FieldOk(c: Catalog, f: Field) {
    CleanKey(f.key) && NoBreak(f.section) && NoBreak(f.defaultValue) &&
    Trimmed(f.defaultValue) && Stripped(Quote, f.defaultValue) &&
    (f.section == c.force.section ==> f.key != c.pvpKey && f.key != c.pveKey) &&
    (f.section == c.building ==> f.key != c.cooldownKey) &&
    (f.section == c.landsraad ==> f.key != c.dataKey)
  }

  /** truthy(). */
  predicate Truthy(v: string) { IsOn(Lower(Trim(v))) }

  predicate IsOn(v: string) { v == "1" || v == "true" || v == "yes" || v == "on" }

  /** field_value_is_default. */
  predicate IsDefault(f: Field, v: string) {
    v == f.defaultValue ||
    (v != "" && f.defaultValue != "" && f.boolean && Truthy(v) == Truthy(f.defaultValue))
  }

  // What the profile says about the partition selectors

  function Layers(m: string, p: Option<string>): seq<Layer> {
    match p
    case None => MapLayers(m)
    case Some(id) => PartitionLayers(m, id)
  }

  function ProfileValues(c: Catalog, doc: Doc, m: string, p: Option<string>): Values {
    match p
    case None => MapValues(doc, c.fields, c.aliases, m)
    case Some(id) => PartitionValues(doc, c.fields, c.aliases, m, id)
  }

  /** profile_array_contains over the scopes of a partition. */
  predicate SelectorActive(c: Catalog, doc: Doc, key: string, m: string, p: string) {
    exists l, line ::
      l in PartitionLayers(m, p) && line in LinesOf(doc.sections, At(l, c.force.section)) && Targets(line, "+", key, p)
  }

  /** A plain or '+' line of one of the selector arrays. */
  predicate SelectorLine(c: Catalog, line: string) {
    var a := SplitAssignment(line);
    a.Some? && (a.value.prefix == "" || a.value.prefix == "+") && (a.value.key == c.pvpKey || a.value.key == c.pveKey)
  }

  /** profile_partition_selector_mode_active. */
  predicate SelectorMode(c: Catalog, doc: Doc, m: string, p: string) {
    exists l, line ::
      l in PartitionLayers(m, p) && line in LinesOf(doc.sections, At(l, c.force.section)) && SelectorLine(c, line)
  }

  // Compilation: first every (section, line) in order, then the sections

  type Item = (string, string)

  /** The field is written although it has its default. */
  predicate Forced(c: Catalog, doc: Doc, f: Field, m: string, p: Option<string>) {
    f == c.force && p.Some? && SelectorMode(c, doc, m, p.value)
  }

  predicate Written(c: Catalog, doc: Doc, f: Field, m: string, p: Option<string>, v: string) {
    f !in c.staking && (Forced(c, doc, f, m, p) || !IsDefault(f, v))
  }

  function Selected(c: Catalog, doc: Doc, key: string, m: string, p: Option<string>): seq<string> {
    if p.Some? && SelectorActive(c, doc, key, m, p.value) then [Entry("+", key, p.value)] else []
  }

  /** The lines of one round of the field loop. */
  function FieldLines(c: Catalog, doc: Doc, f: Field, m: string, p: Option<string>, values: Values): seq<string> {
    if f in c.staking then []
    else
      (if Written(c, doc, f, m, p, ValueOf(values, f)) then [Entry("", f.key, ValueOf(values, f))] else []) +
      (if f == c.force then Selected(c, doc, c.pvpKey, m, p) + Selected(c, doc, c.pveKey, m, p) else [])
  }

  function InSection(section: string, lines: seq<string>): (r: seq<Item>)
    ensures |r| == |lines|
  {
    seq(|lines|, i requires 0 <= i < |lines| => (section, lines[i]))
  }

  function FieldItems(c: Catalog, doc: Doc, fields: seq<Field>, m: string, p: Option<string>,
      values: Values): seq<Item> {
    if fields == [] then []
    else
      var f := fields[|fields| - 1];
      FieldItems(c, doc, fields[..|fields| - 1], m, p, values) +
        InSection(f.section, FieldLines(c, doc, f, m, p, values))
  }

  function CustomLayers(m: string, p: Option<string>): seq<BlockId> {
    [BlockId(ServerCustomGlobal, "", "", "")] +
    if m == "" then []
    else
      [BlockId(ServerCustomMap, CanonicalMap(m), "", "")] +
      if p.Some? then [BlockId(ServerCustomPartition, CanonicalMap(m), p.value, "")] else []
  }

  /** The most specific native cooldown, in the hours it is stored in. */
  function CooldownHours(c: Catalog, doc: Doc, ids: seq<BlockId>): Option<string> {
    if ids == [] then None
    else
      match GetKey(doc, ids[|ids| - 1].(section := c.customSection), c.customKey)
      case Some(v) => Some(v)
      case None => CooldownHours(c, doc, ids[..|ids| - 1])
  }

  predicate IsKnown(c: Catalog, section: string, key: string) {
    (exists f :: f in c.fields && f.section == section && f.key == key) ||
    (section in c.retired && key in c.retired[section]) ||
    (section == c.landsraad && (key == c.dataKey || key == c.legacyDataKey)) ||
    (section == c.force.section && (key == c.pvpKey || key == c.pveKey))
  }

  /** A line that append_profile_unknown_lines passes through. */
  predicate PassesThrough(c: Catalog, section: string, line: string) {
    var a := SplitAssignment(line);
    !(a.Some? && a.value.prefix == "" && IsKnown(c, section, a.value.key))
  }

  function Unknown(c: Catalog, section: string, lines: seq<string>): seq<string> {
    if lines == [] then []
    else
      Unknown(c, section, lines[..|lines| - 1]) +
      if PassesThrough(c, section, lines[|lines| - 1]) then [lines[|lines| - 1]] else []
  }

  predicate InLayer(b: Block, layer: Layer) { b.id == At(layer, b.id.section) }

  function LayerItems(c: Catalog, blocks: seq<Block>, layer: Layer): seq<Item> {
    if blocks == [] then []
    else
      var b := blocks[|blocks| - 1];
      LayerItems(c, blocks[..|blocks| - 1], layer) +
      if InLayer(b, layer) then InSection(b.id.section, Unknown(c, b.id.section, b.lines)) else []
  }

  /** append_profile_unknown_lines: scope by scope, block by block. */
  function UnknownItems(c: Catalog, blocks: seq<Block>, layers: seq<Layer>): seq<Item> {
    if layers == [] then []
    else UnknownItems(c, blocks, layers[..|layers| - 1]) + LayerItems(c, blocks, layers[|layers| - 1])
  }

  function CooldownItems(c: Catalog, seconds: Option<string>): seq<Item> {
    match seconds
    case None => []
    case Some(s) => [(c.building, Entry("", c.cooldownKey, s))]
  }

  function AppendAll(ini: Ini, items: seq<Item>): Ini {
    if items == [] then ini
    else
      var last := items[|items| - 1];
      Append(AppendAll(ini, items[..|items| - 1]), last.0, last.1)
  }

  /** landsraad_data_override. */
  function DataOverride(c: Catalog, doc: Doc, layer: Layer): Option<string> {
    match GetKey(doc, At(layer, c.landsraad), c.dataKey)
    case Some(v) => if v != "" then Some(v) else LegacyData(c, doc, layer)
    case None => LegacyData(c, doc, layer)
  }

  function LegacyData(c: Catalog, doc: Doc, layer: Layer): Option<string> {
    match GetKey(doc, At(layer, c.landsraad), c.legacyDataKey)
    case Some(v) => if v != "" then Some(v) else None
    case None => None
  }

  function WithoutPrefix(lines: seq<string>, p: string): seq<string> {
    if lines == [] then []
    else
      WithoutPrefix(lines[..|lines| - 1], p) + if p <= lines[|lines| - 1] then [] else [lines[|lines| - 1]]
  }

  /** The struct of the most specific scope replaces the one written before. */
  function WithData(c: Catalog, doc: Doc, layers: seq<Layer>, ini: Ini): Ini {
    if layers == [] then ini
    else
      var rest := WithData(c, doc, layers[..|layers| - 1], ini);
      match DataOverride(c, doc, layers[|layers| - 1])
      case None => rest
      case Some(data) =>
        Assign(rest, c.landsraad,
          WithoutPrefix(LinesIn(rest, c.landsraad), c.dataKey + "=") + [Entry("", c.dataKey, data)])
  }

  function Deduped(lines: seq<string>): seq<string> {
    if lines == [] then []
    else
      var front := lines[..|lines| - 1];
      Deduped(front) + if lines[|lines| - 1] in front then [] else [lines[|lines| - 1]]
  }

  predicate IsStakingLine(c: Catalog, line: string) {
    var a := SplitAssignment(line);
    a.Some? && exists f :: f in c.staking && f.key == a.value.key
  }

  /** strip_unsafe_staking_extension_lines. */
  function WithoutStaking(c: Catalog, lines: seq<string>): seq<string> {
    if lines == [] then []
    else
      WithoutStaking(c, lines[..|lines| - 1]) +
        if IsStakingLine(c, lines[|lines| - 1]) then [] else [lines[|lines| - 1]]
  }

  function Repeated(line: string, n: nat): seq<string> {
    if n == 0 then [] else Repeated(line, n - 1) + [line]
  }

  /** The array that one staking field is expanded into; None refuses its value. */
  function StakingLines(c: Catalog, f: Field, v: string): Option<seq<string>> {
    match c.stakingTime(v)
    case None => None
    case Some(time) =>
      if time == "" then Some([])
      else Some([Entry("!", f.key, "ClearArray")] + Repeated(Entry(".", f.key, time), STAKING_ARRAY_LENGTH))
  }

  function StakingItems(c: Catalog, fields: seq<Field>, values: Values): Option<seq<Item>> {
    if fields == [] then Some([])
    else
      var f := fields[|fields| - 1];
      var rest := StakingItems(c, fields[..|fields| - 1], values);
      var lines := StakingLines(c, f, ValueOf(values, f));
      if rest.None? || lines.None? then None
      else Some(rest.value + InSection(c.building, lines.value))
  }

  function Patched(c: Catalog, doc: Doc, m: string, p: Option<string>, ini: Ini): Ini {
    var a := WithData(c, doc, Layers(m, p), ini);
    var b := if c.force.section in a.lines then Assign(a, c.force.section, Deduped(LinesIn(a, c.force.section))) else a;
    if c.building in b.lines then Assign(b, c.building, WithoutStaking(c, LinesIn(b, c.building))) else b
  }

  /** The cooldown in seconds that is mirrored into the file; None refuses it. */
  function CooldownSeconds(c: Catalog, doc: Doc, m: string, p: Option<string>): Option<Option<string>> {
    match CooldownHours(c, doc, CustomLayers(m, p))
    case None => Some(None)
    case Some(v) =>
      match c.cooldown(v)
      case None => None
      case Some(seconds) => Some(Some(seconds))
  }

  function BaseItems(c: Catalog, doc: Doc, m: string, p: Option<string>, seconds: Option<string>): seq<Item> {
    FieldItems(c, doc, c.fields, m, p, ProfileValues(c, doc, m, p)) + CooldownItems(c, seconds) +
    UnknownItems(c, doc.sections, Layers(m, p))
  }

  /** compiled_usergame_ini up to rendering; None when a value is refused. */
  function Compile(c: Catalog, doc: Doc, m: string, p: Option<string>): Option<Ini> {
    var values := ProfileValues(c, doc, m, p);
    match CooldownSeconds(c, doc, m, p)
    case None => None
    case Some(seconds) =>
      var ini := Patched(c, doc, m, p, AppendAll(NO_SECTIONS, BaseItems(c, doc, m, p, seconds)));
      match StakingItems(c, c.staking, values)
      case None => None
      case Some(arrays) => Some(AppendAll(ini, arrays))
  }

  /** The lines and the text of the compiled file. */
  function CompiledLines(c: Catalog, ini: Ini): seq<string> { Render(ini, c.comments) }

  function CompiledText(c: Catalog, doc: Doc, m: string, p: Option<string>): Option<string> {
    match Compile(c, doc, m, p)
    case None => None
    case Some(ini) => Some(Join(CompiledLines(c, ini)) + "\n")
  }
}
