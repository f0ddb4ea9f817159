/** The settings profile as a document: a preamble and scoped blocks. Headers,
    parsing, the block order, the edits, and the text that a write produces. */
module ProfileText {
  import opened Wrappers
  import opened Text
  import opened IniLine
  import opened ProfileLines
  import Sorting

  datatype Scope =
    | Engine | Global | MapEngine | Map | PartitionEngine | Partition
    | ServerCustomGlobal | ServerCustomMap | ServerCustomPartition | Raw

  /** Which of map and partition a scope is keyed by. */
  datatype Shape = Plain | PerMap | PerPartition

  function ShapeOf(scope: Scope): Shape {
    match scope
    case Engine | Global | ServerCustomGlobal | Raw => Plain
    case MapEngine | Map | ServerCustomMap => PerMap
    case PartitionEngine | Partition | ServerCustomPartition => PerPartition
  }

  function ScopeName(scope: Scope): string {
    match scope
    case Engine => "Engine"
    case Global => "Global"
    case MapEngine => "MapEngine"
    case Map => "Map"
    case PartitionEngine => "PartitionEngine"
    case Partition => "Partition"
    case ServerCustomGlobal => "ServerCustomGlobal"
    case ServerCustomMap => "ServerCustomMap"
    case ServerCustomPartition => "ServerCustomPartition"
    case Raw => ""
  }

  function ScopeNamed(name: string): Option<Scope> {
    if name == "Engine" then Some(Engine)
    else if name == "Global" then Some(Global)
    else if name == "MapEngine" then Some(MapEngine)
    else if name == "Map" then Some(Map)
    else if name == "PartitionEngine" then Some(PartitionEngine)
    else if name == "Partition" then Some(Partition)
    else if name == "ServerCustomGlobal" then Some(ServerCustomGlobal)
    else if name == "ServerCustomMap" then Some(ServerCustomMap)
    else if name == "ServerCustomPartition" then Some(ServerCustomPartition)
    else None
  }

  /** PROFILE_HEADER_ORDER, with 99 for a scope it does not list. */
  function Rank(scope: Scope): nat {
    match scope
    case Engine => 0
    case Global => 1
    case MapEngine => 2
    case Map => 3
    case PartitionEngine => 4
    case Partition => 5
    case ServerCustomGlobal => 6
    case ServerCustomMap => 7
    case ServerCustomPartition => 8
    case Raw => 99
  }

  predicate IsEngineScope(scope: Scope) { scope.Engine? || scope.MapEngine? || scope.PartitionEngine? }

  const SURVIVAL := "Survival_1"
  const DEEP_DESERT := "DeepDesert_1"
  const OVERMAP := "Overmap"

  /** The map that a lower-case spelling is an alias of. */
  function MapAlias(target: string): (r: Option<string>)
    ensures r.Some? ==> r.value == SURVIVAL || r.value == DEEP_DESERT || r.value == OVERMAP
  {
    if target == "survival" || target == "survival-1" || target == "survival_1" then Some(SURVIVAL)
    else if target == "deepdesert" || target == "deepdesert-1" || target == "deepdesert_1" then Some(DEEP_DESERT)
    else if target == "overmap" then Some(OVERMAP)
    else None
  }

  /** canonical_map: the known spellings of a map name, any other name as it is. */
  function CanonicalMap(name: string): string {
    match MapAlias(Lower(Trim(name)))
    case None => name
    case Some(canonical) => canonical
  }

  function LowerChar(c: char): char {
    if 'A' <= c <= 'Z' then c - 'A' + 'a' else c
  }

  function Lower(s: string): (r: string)
    ensures |r| == |s|
  {
    seq(|s|, i requires 0 <= i < |s| => LowerChar(s[i]))
  }

  /** What identifies a block; a keyed edit names it the same way. */
  datatype BlockId = BlockId(scope: Scope, mapName: string, partition: string, section: string)

  datatype Block = Block(header: string, id: BlockId, lines: seq<string>)

  datatype Doc = Doc(preamble: seq<string>, sections: seq<Block>)

  /** What follows the scope name of a header: map, partition and section. */
  function ParseTail(scope: Scope, rest: string): Option<BlockId> {
    match ShapeOf(scope)
    case Plain => Some(BlockId(scope, "", "", rest))
    case PerMap =>
      (match Cut(rest, ':')
       case None => None
       case Some((m, section)) => Some(BlockId(scope, CanonicalMap(m), "", section)))
    case PerPartition =>
      match Cut(rest, ':')
      case None => None
      case Some((m, tail)) =>
        match Cut(tail, ':')
        case None => None
        case Some((p, section)) => Some(BlockId(scope, CanonicalMap(m), p, section))
  }

  /** parse_profile_header. */
  function ParseHeader(header: string): BlockId {
    var raw := BlockId(Raw, "", "", header);
    match Cut(header, ':')
    case None => raw
    case Some((name, rest)) =>
      match ScopeNamed(name)
      case None => raw
      case Some(scope) =>
        match ParseTail(scope, rest)
        case None => raw
        case Some(id) => id
  }

  function HeaderTail(id: BlockId): string {
    match ShapeOf(id.scope)
    case Plain => id.section
    case PerMap => id.mapName + [':'] + id.section
    case PerPartition => id.mapName + [':'] + (id.partition + [':'] + id.section)
  }

  /** profile_header. */
  function Header(id: BlockId): string
    requires !id.scope.Raw?
  {
    ScopeName(id.scope) + [':'] + HeaderTail(id)
  }

  /** An id that a header can carry: what profile_header and parse_profile_header exchange. */
  ghost predicate TargetOk(id: BlockId) {
    !id.scope.Raw? &&
    (ShapeOf(id.scope).Plain? ==> id.mapName == "") &&
    (!ShapeOf(id.scope).PerPartition? ==> id.partition == "") &&
    CanonicalMap(id.mapName) == id.mapName &&
    ':' !in id.mapName && ':' !in id.partition &&
    NoBreak(id.mapName) && NoBreak(id.partition) && NoBreak(id.section)
  }

  // Parsing

  function AddLine(doc: Doc, raw: string): Doc {
    if doc.sections == [] then doc.(preamble := doc.preamble + [raw])
    else
      var k := |doc.sections| - 1;
      doc.(sections := doc.sections[k := doc.sections[k].(lines := doc.sections[k].lines + [raw])])
  }

  /** One round of the parse loop. */
  function ParseStep(doc: Doc, raw: string): Doc {
    if HeaderLike(raw) then
      var header := HeaderName(raw);
      doc.(sections := doc.sections + [Block(header, ParseHeader(header), [])])
    else AddLine(doc, raw)
  }

  function ParseFrom(doc: Doc, lines: seq<string>): Doc
    decreases |lines|
  {
    if lines == [] then doc
    else ParseStep(ParseFrom(doc, lines[..|lines| - 1]), lines[|lines| - 1])
  }

  const EMPTY := Doc([], [])

  function ParseLines(lines: seq<string>): Doc { ParseFrom(EMPTY, lines) }

  // Printing

  function HeaderLine(header: string): string { "[" + header + "]" }

  /** The lines, with the blank separator a following header asks for. */
  function Separated(lines: seq<string>): seq<string> {
    if lines != [] && !Blank(lines[|lines| - 1]) then lines + [[]] else lines
  }

  /** The lines that serialize_profile joins, for blocks already in order. */
  function PrintLines(preamble: seq<string>, blocks: seq<Block>): seq<string>
    decreases |blocks|
  {
    if blocks == [] then preamble
    else
      var last := blocks[|blocks| - 1];
      Separated(PrintLines(preamble, blocks[..|blocks| - 1])) + [HeaderLine(last.header)] + last.lines
  }

  // Order

  /** Python's order on str. */
  predicate StrLe(a: string, b: string) {
    if a == [] then true
    else if b == [] then false
    else if a[0] == b[0] then StrLe(a[1..], b[1..])
    else a[0] < b[0]
  }

  predicate IsDigits(s: string) { s != [] && forall i :: 0 <= i < |s| ==> '0' <= s[i] <= '9' }

  function DecimalValue(s: string): nat
    requires forall i :: 0 <= i < |s| ==> '0' <= s[i] <= '9'
  {
    if s == [] then 0 else 10 * DecimalValue(s[..|s| - 1]) + (s[|s| - 1] as int - '0' as int)
  }

  /** Partition ids compare as numbers when they are digits, else as text. */
  predicate PartitionLe(a: string, b: string) {
    if IsDigits(a) && IsDigits(b) then DecimalValue(a) <= DecimalValue(b)
    else if IsDigits(a) != IsDigits(b) then IsDigits(a)
    else StrLe(a, b)
  }

  predicate SamePartitionKey(a: string, b: string) {
    if IsDigits(a) && IsDigits(b) then DecimalValue(a) == DecimalValue(b) else a == b
  }

  /** The sort key of sorted_profile_sections. */
  predicate IdLe(a: BlockId, b: BlockId) {
    if Rank(a.scope) != Rank(b.scope) then Rank(a.scope) < Rank(b.scope)
    else if a.mapName != b.mapName then StrLe(a.mapName, b.mapName)
    else if !SamePartitionKey(a.partition, b.partition) then PartitionLe(a.partition, b.partition)
    else StrLe(a.section, b.section)
  }

  predicate BlockLe(a: Block, b: Block) { IdLe(a.id, b.id) }

  predicate Comparable(a: BlockId, b: BlockId) {
    Rank(a.scope) == Rank(b.scope) && a.mapName == b.mapName ==>
      IsDigits(a.partition) == IsDigits(b.partition)
  }

  /** Sorting compares a number with a text, and so fails, unless this holds. */
  predicate Orderable(blocks: seq<Block>) {
    forall a, b :: a in blocks && b in blocks ==> Comparable(a.id, b.id)
  }

  // Edits

  /** find_profile_section. */
  function Find(sections: seq<Block>, id: BlockId): (r: Option<nat>)
    ensures r.Some? ==> r.value < |sections| && sections[r.value].id == id
    ensures r.None? ==> forall i :: 0 <= i < |sections| ==> sections[i].id != id
  {
    if sections == [] then None
    else if sections[0].id == id then Some(0)
    else
      match Find(sections[1..], id)
      case None => assert forall i :: 0 < i < |sections| ==> sections[i] == sections[1..][i - 1]; None
      case Some(i) => Some(i + 1)
  }

  function LinesOf(sections: seq<Block>, id: BlockId): seq<string> {
    match Find(sections, id)
    case None => []
    case Some(i) => sections[i].lines
  }

  /** profile_get_key. */
  function GetKey(doc: Doc, id: BlockId, key: string): Option<string> {
    LastPlain(LinesOf(doc.sections, id), key)
  }

  /** profile_set_key. */
  function SetKey(doc: Doc, id: BlockId, prefix: string, key: string, value: string): Doc
    requires !id.scope.Raw?
  {
    match Find(doc.sections, id)
    case Some(i) =>
      var b := doc.sections[i];
      doc.(sections := doc.sections[i := b.(lines := SetLines(b.lines, prefix, key, value))])
    case None =>
      doc.(sections := doc.sections + [Block(Header(id), id, SetLines([], prefix, key, value))])
  }

  /** profile_remove_key. */
  function RemoveKey(doc: Doc, id: BlockId, key: string, prefixes: Option<set<string>>, value: Option<string>): Doc {
    match Find(doc.sections, id)
    case None => doc
    case Some(i) =>
      var b := doc.sections[i];
      doc.(sections := doc.sections[i := b.(lines := RemoveLines(b.lines, key, prefixes, value))])
  }

  // The clean-ups of a write

  /** The retired keys by section, and the cooldown setting that moved. */
  datatype Schema = Schema(
    retired: map<string, set<string>>,
    legacySection: string, legacyKey: string,
    newSection: string, newKey: string,
    hours: string -> Option<string>)

  ghost predicate SchemaOk(s: Schema) {
    s.legacySection in s.retired && s.legacyKey in s.retired[s.legacySection] &&
    CleanKey(s.newKey) && NoBreak(s.newSection) &&
    !IsRetired(s, ServerCustomGlobal, s.newSection, s.newKey) &&
    (forall v :: s.hours(v).Some? ==> NoBreak(s.hours(v).value) && '\0' !in s.hours(v).value)
  }

  /** A key that strip_retired_usergame_profile_lines removes. */
  predicate IsRetired(s: Schema, scope: Scope, section: string, key: string) {
    !IsEngineScope(scope) && section in s.retired && key in s.retired[section]
  }

  predicate RetiredLine(s: Schema, id: BlockId, line: string) {
    var a := SplitAssignment(line);
    a.Some? && IsRetired(s, id.scope, id.section, a.value.key)
  }

  function DropRetired(s: Schema, id: BlockId, lines: seq<string>): seq<string> {
    if lines == [] then []
    else
      var front := DropRetired(s, id, lines[..|lines| - 1]);
      if RetiredLine(s, id, lines[|lines| - 1]) then front else front + [lines[|lines| - 1]]
  }

  /** The number of hours the first convertible legacy line stands for. */
  function FirstHours(s: Schema, lines: seq<string>): Option<string> {
    if lines == [] then None
    else
      var a := SplitAssignment(lines[0]);
      if a.Some? && a.value.key == s.legacyKey && s.hours(a.value.value).Some? then s.hours(a.value.value)
      else FirstHours(s, lines[1..])
  }

  function CustomScope(scope: Scope): Option<Scope> {
    match scope
    case Global => Some(ServerCustomGlobal)
    case Map => Some(ServerCustomMap)
    case Partition => Some(ServerCustomPartition)
    case _ => None
  }

  /** Where and what the cooldown migration writes for one block. */
  function MigrationOf(s: Schema, doc: Doc, b: Block): Option<(BlockId, string)> {
    match CustomScope(b.id.scope)
    case None => None
    case Some(scope) =>
      var target := BlockId(scope, b.id.mapName, b.id.partition, s.newSection);
      if b.id.section != s.legacySection || GetKey(doc, target, s.newKey).Some? then None
      else
        match FirstHours(s, b.lines)
        case None => None
        case Some(v) => Some((target, v))
  }

  function Migrations(s: Schema, doc: Doc, blocks: seq<Block>): seq<(BlockId, string)> {
    if blocks == [] then []
    else
      var front := Migrations(s, doc, blocks[..|blocks| - 1]);
      match MigrationOf(s, doc, blocks[|blocks| - 1])
      case None => front
      case Some(m) => front + [m]
  }

  function ApplyMigrations(s: Schema, doc: Doc, ms: seq<(BlockId, string)>): Doc {
    if ms == [] then doc
    else
      var (id, v) := ms[|ms| - 1];
      var d := ApplyMigrations(s, doc, ms[..|ms| - 1]);
      if id.scope.Raw? then d else SetKey(d, id, [], s.newKey, v)
  }

  /** migrate_legacy_base_backup_cooldown. */
  function Migrate(s: Schema, doc: Doc): Doc {
    ApplyMigrations(s, doc, Migrations(s, doc, doc.sections))
  }

  /** What strip_retired and normalize leave of one block. */
  function CleanBlock(s: Schema, b: Block): Block {
    b.(lines := Normalize(DropRetired(s, b.id, b.lines)))
  }

  function CleanBlocks(s: Schema, blocks: seq<Block>): (r: seq<Block>)
    ensures |r| == |blocks|
    ensures forall i :: 0 <= i < |blocks| ==> r[i] == CleanBlock(s, blocks[i])
  {
    if blocks == [] then []
    else CleanBlocks(s, blocks[..|blocks| - 1]) + [CleanBlock(s, blocks[|blocks| - 1])]
  }

  /** prune_empty_profile_sections. */
  function Prune(blocks: seq<Block>): seq<Block> {
    if blocks == [] then []
    else
      var front := Prune(blocks[..|blocks| - 1]);
      var last := blocks[|blocks| - 1];
      if NonBlank(last.lines) == [] then front else front + [last]
  }

  /** The profile that write_profile serializes. */
  function Clean(s: Schema, doc: Doc): Doc {
    var d := Migrate(s, doc);
    Doc(d.preamble, Prune(CleanBlocks(s, d.sections)))
  }

  /** The lines of the file that write_profile leaves, or None when sorting fails. */
  function WrittenLines(s: Schema, doc: Doc): Option<seq<string>> {
    var c := Clean(s, doc);
    if Orderable(c.sections) then
      Some(RstripLines(PrintLines(c.preamble, Sorting.Sort(BlockLe, c.sections))))
    else None
  }

  /** read_profile of a file with these lines. */
  function ReadLines(s: Schema, lines: seq<string>): Doc { Migrate(s, ParseLines(lines)) }

  /** The text of the file, and reading a text. */
  function WrittenText(s: Schema, doc: Doc): Option<string> {
    match WrittenLines(s, doc)
    case None => None
    case Some(lines) => Some(Join(lines) + "\n")
  }

  function ReadText(s: Schema, text: string): Doc { ReadLines(s, SplitLines(text)) }

  // Well-formedness

  /** Lines that stay in their block. */
  ghost predicate LinesShaped(lines: seq<string>) {
    forall l :: l in lines ==> !HeaderLike(l)
  }

  ghost predicate BlockShaped(b: Block) {
    NoBreak(b.header) && ParseHeader(b.header) == b.id && LinesShaped(b.lines)
  }

  /** What every edit keeps, whatever its value. */
  ghost predicate DocShaped(doc: Doc) {
    LinesShaped(doc.preamble) && forall b :: b in doc.sections ==> BlockShaped(b)
  }

  ghost predicate InDoc(doc: Doc, line: string) {
    line in doc.preamble || exists b :: b in doc.sections && line in b.lines
  }

  ghost predicate Unbroken(doc: Doc) { forall l :: InDoc(doc, l) ==> NoBreak(l) }

  /** What parsing any text gives. */
  ghost predicate DocOk(doc: Doc) { DocShaped(doc) && Unbroken(doc) }

  ghost predicate NoRetired(s: Schema, blocks: seq<Block>) {
    forall b, l :: b in blocks && l in b.lines ==> !RetiredLine(s, b.id, l)
  }

  ghost predicate UniqueIds(blocks: seq<Block>) {
    forall i, j :: 0 <= i < j < |blocks| ==> blocks[i].id != blocks[j].id
  }
}
