/** Runs of edits on the profile file: every edit reads the file, changes it and
    writes it back. */
module ProfileEdits {
  import opened Wrappers
  import opened Text
  import opened IniLine
  import opened ProfileLines
  import opened ProfileText
  import opened ProfileNormal
  import opened ProfileRoundTrip
  import opened ProfileFixpoint
  import opened ProfileReads
  import opened ProfileMigration
  import opened ProfileBreaks

  /** The edits the settings commands make: set a key or array entry, drop a key
      altogether, or drop '+' entries of an array. */
  datatype Edit =
    | Set(id: BlockId, prefix: string, key: string, value: string)
    | Drop(id: BlockId, key: string)
    | DropEntries(id: BlockId, key: string, entry: Option<string>)

  /** An edit that a command can ask for. */
  ghost predicate EditShaped(e: Edit) {
    TargetOk(e.id) && CleanKey(e.key) && (e.Set? ==> IsPrefix(e.prefix))
  }

  /** An edit of a key that is not retired, with a value that comes through. */
  ghost predicate EditOk(s: Schema, e: Edit) {
    EditShaped(e) && !IsRetired(s, e.id.scope, e.id.section, e.key) && (e.Set? ==> Carried(e.value))
  }

  function Edited(doc: Doc, e: Edit): Doc {
    match e
    case Set(id, prefix, key, value) => if id.scope.Raw? then doc else SetKey(doc, id, prefix, key, value)
    case Drop(id, key) => RemoveKey(doc, id, key, None, None)
    case DropEntries(id, key, entry) => RemoveKey(doc, id, key, Some({"+"}), entry)
  }

  /** The file after a run of edits, or None once a write fails. */
  function Run(s: Schema, text: string, edits: seq<Edit>): Option<string> {
    if edits == [] then Some(text)
    else
      match Run(s, text, edits[..|edits| - 1])
      case None => None
      case Some(t) => WrittenText(s, Edited(ReadText(s, t), edits[|edits| - 1]))
  }

  lemma EditedShaped(doc: Doc, e: Edit)
    requires DocShaped(doc) && EditShaped(e)
    ensures DocShaped(Edited(doc, e))
    ensures forall l :: InDoc(Edited(doc, e), l) ==> InDoc(doc, l) || (e.Set? && l == Entry(e.prefix, e.key, e.value))
  {
    hide DocShaped, SetKey, RemoveKey, IsPrefix, CleanKey, InDoc, Entry, CanonicalMap, NoBreak;
    match e
    case Set(id, prefix, key, value) =>
      SetKeyShaped(doc, id, prefix, key, value);
      SetKeyMembers(doc, id, prefix, key, value);
    case Drop(id, key) => RemoveKeyShaped(doc, id, key, None, None);
    case DropEntries(id, key, entry) => RemoveKeyShaped(doc, id, key, Some({"+"}), entry);
  }

  /** After any non-empty run of edits a further read and write leaves the text as
      it is, exactly when newlines are its only line breaks. */
  lemma RunsEndFixed(s: Schema, text: string, edits: seq<Edit>)
    requires SchemaOk(s) && edits != [] && Run(s, text, edits).Some?
    requires var last := edits[|edits| - 1]; EditShaped(last) && (last.Set? ==> '\n' !in last.value)
    ensures WrittenText(s, ReadText(s, Run(s, text, edits).value)) == Run(s, text, edits) <==>
            OnlyNewlines(Run(s, text, edits).value)
  {
    hide SchemaOk, DocShaped, EditShaped, WrittenText, ReadText, InDoc, OnlyNewlines, Entry, Edited, NoBreak;
    var t := Run(s, text, edits[..|edits| - 1]).value;
    var last := edits[|edits| - 1];
    var doc := ReadText(s, t);
    ReadOk(s, t);
    EditedShaped(doc, last);
    forall l | InDoc(Edited(doc, last), l) ensures '\n' !in l {
      if last.Set? { NoNewline(last); }
      NewlineBreaks();
      if InDoc(doc, l) { NoBreakNoNewline(l); }
    }
    TextFixed(s, Edited(doc, last));
  }

  lemma NoNewline(e: Edit)
    requires e.Set? && EditShaped(e) && '\n' !in e.value
    ensures '\n' !in Entry(e.prefix, e.key, e.value)
  {
    EntryBreaks(e.prefix, e.key, e.value);
  }

  lemma NoBreakNoNewline(line: string)
    requires NoBreak(line)
    ensures '\n' !in line
  {
  }

  /** With a last value free of breaks newlines are the only ones. */
  lemma RunsAreFixed(s: Schema, text: string, edits: seq<Edit>)
    requires SchemaOk(s) && edits != [] && Run(s, text, edits).Some?
    requires var last := edits[|edits| - 1]; EditShaped(last) && (last.Set? ==> NoBreak(last.value))
    ensures WrittenText(s, ReadText(s, Run(s, text, edits).value)) == Run(s, text, edits)
  {
    hide SchemaOk, DocShaped, WrittenText, WrittenLines, ReadText, InDoc, NoBreak, Entry, Edited, TargetOk, CleanKey,
         IsPrefix;
    var t := Run(s, text, edits[..|edits| - 1]).value;
    var last := edits[|edits| - 1];
    var doc := ReadText(s, t);
    ReadOk(s, t);
    EditedShaped(doc, last);
    if last.Set? { EntryBreaks(last.prefix, last.key, last.value); }
    WrittenUnbroken(s, Edited(doc, last)) by { WrittenBoth(s, Edited(doc, last)); }
    UnbrokenFixed(s, Edited(doc, last)) by { WrittenBoth(s, Edited(doc, last)); }
  }

  lemma WrittenBoth(s: Schema, doc: Doc)
    ensures WrittenText(s, doc).Some? <==> WrittenLines(s, doc).Some?
  {
    hide WrittenLines;
  }

  // What one edit leaves readable

  /** What the edits make of a key that starts as before. */
  function Expected(edits: seq<Edit>, id: BlockId, key: string, before: Option<string>): Option<string> {
    if edits == [] then before
    else
      var rest := Expected(edits[..|edits| - 1], id, key, before);
      match edits[|edits| - 1]
      case Set(id', prefix, key', value) =>
        if id' == id && key' == key && prefix == [] then Some(Strip(Quote, Trim(value))) else rest
      case Drop(id', key') => if id' == id && key' == key then None else rest
      case DropEntries(_, _, _) => rest
  }

  lemma EditReads(doc: Doc, e: Edit, id: BlockId, key: string)
    requires EditShaped(e)
    ensures GetKey(Edited(doc, e), id, key) == Expected([e], id, key, GetKey(doc, id, key))
  {
    hide GetKey, CleanKey, IsPrefix, SetKey, RemoveKey, NoBreak, CanonicalMap;
    assert [e][..0] == [];
    match e
    case Set(id', prefix, key', value) => SetKeyReads(doc, id', prefix, key', value, id, key);
    case Drop(id', key') => RemoveKeyReads(doc, id', key', None, None, id, key);
    case DropEntries(id', key', entry) => RemoveKeyReads(doc, id', key', Some({"+"}), entry, id, key);
  }

  /** An edit keeps ids unique, and of a live key the legacy hours. */
  lemma EditKeeps(s: Schema, doc: Doc, e: Edit, id: BlockId)
    requires SchemaOk(s) && EditShaped(e) && !IsRetired(s, e.id.scope, e.id.section, e.key)
    ensures UniqueIds(doc.sections) ==> UniqueIds(Edited(doc, e).sections)
    ensures LegacyHours(s, Edited(doc, e).sections, id) == LegacyHours(s, doc.sections, id)
  {
    hide SchemaOk, LegacyHours, CleanKey, IsPrefix, IsRetired, NoBreak, CanonicalMap, SetKey, RemoveKey, UniqueIds;
    match e
    case Set(at, prefix, key, value) =>
      SetKeyBlocks(doc, at, prefix, key, value);
      SetKeyHours(s, doc, at, prefix, key, value, id);
    case Drop(at, key) =>
      RemoveKeyUnique(doc, at, key, None, None);
      RemoveKeyHours(s, doc, at, key, None, None, id);
    case DropEntries(at, key, entry) =>
      RemoveKeyUnique(doc, at, key, Some({"+"}), entry);
      RemoveKeyHours(s, doc, at, key, Some({"+"}), entry, id);
  }

  lemma RemoveKeyUnique(doc: Doc, id: BlockId, key: string, prefixes: Option<set<string>>, value: Option<string>)
    ensures UniqueIds(doc.sections) ==> UniqueIds(RemoveKey(doc, id, key, prefixes, value).sections)
  {
    hide RemoveLines;
  }

  /** The edit drops the migrated key of a scope whose legacy lines still say hours. */
  predicate Undone(s: Schema, doc: Doc, e: Edit, id: BlockId, key: string) {
    e == Drop(id, key) && key == s.newKey && LegacyHours(s, doc.sections, id).Some?
  }

  /** What a key reads as once an edit of the profile is written and read back. */
  function Outcome(s: Schema, doc: Doc, e: Edit, id: BlockId, key: string): Option<string> {
    if Undone(s, doc, e, id, key) then Some(Strip(Quote, Trim(LegacyHours(s, doc.sections, id).value)))
    else Expected([e], id, key, GetKey(doc, id, key))
  }

  /** One edit of a file that was read, written and read back. */
  lemma EditOutcome(s: Schema, text: string, e: Edit, id: BlockId, key: string)
    requires SchemaOk(s) && EditOk(s, e) && !IsRetired(s, id.scope, id.section, key)
    requires UniqueIds(ReadText(s, text).sections) && WrittenText(s, Edited(ReadText(s, text), e)).Some?
    ensures var d := ReadText(s, WrittenText(s, Edited(ReadText(s, text), e)).value);
            GetKey(d, id, key) == Outcome(s, ReadText(s, text), e, id, key) &&
            UniqueIds(d.sections) && NoRetired(s, d.sections)
  {
    hide SchemaOk, DocShaped, EditShaped, WrittenText, UniqueIds, NoRetired, GetKey, Edited, InDoc, CarriedLine,
         IsRetired, LegacyHours, Carried, Strip, Trim, Migrate, ParseLines, SplitLines;
    var doc := ReadText(s, text);
    ReadOk(s, text);
    EditedShaped(doc, e);
    EditKeeps(s, doc, e, id);
    EditReads(doc, e, id, key);
    EditCarried(s, doc, e);
    WriteKeepsReads(s, Edited(doc, e), id, key);
    MigratedReads(s, Edited(doc, e), id, key);
    ExpectedNone(e, id, key, GetKey(doc, id, key));
    if LegacyHours(s, doc.sections, id).Some? {
      MigratedHasHours(s, ParseLines(SplitLines(text)), id);
    }
  }

  lemma EditCarried(s: Schema, doc: Doc, e: Edit)
    requires EditOk(s, e) && DocOk(doc)
    ensures CarriedDoc(Edited(doc, e))
  {
    hide DocShaped, InDoc, Edited, NoBreak, TargetOk, CleanKey, IsPrefix, Carried, Entry, IsRetired;
    EditedShaped(doc, e);
    forall l | InDoc(Edited(doc, e), l) ensures CarriedLine(l) {
      if InDoc(doc, l) {
        assert NoBreak(l);
      } else {
        assert CarriedLine(Entry(e.prefix, e.key, e.value));
      }
    }
  }

  /** Only a drop takes a value away. */
  lemma ExpectedNone(e: Edit, id: BlockId, key: string, before: Option<string>)
    ensures before.Some? && Expected([e], id, key, before).None? ==> e == Drop(id, key)
    ensures e == Drop(id, key) ==> Expected([e], id, key, before).None?
  {
    assert [e][..0] == [] && Expected([], id, key, before) == before;
  }

  // Runs

  /** After a run of edits every live key reads as the last edit that names it set
      it, and as in the starting file when none does; what the first edit leaves is
      told by Outcome, behind it there are no legacy lines. */
  lemma {:induction false} RunReads(s: Schema, text: string, edits: seq<Edit>, id: BlockId, key: string)
    requires SchemaOk(s) && forall e :: e in edits ==> EditOk(s, e)
    requires UniqueIds(ReadText(s, text).sections) && !IsRetired(s, id.scope, id.section, key)
    requires Run(s, text, edits).Some?
    ensures var start, d := ReadText(s, text), ReadText(s, Run(s, text, edits).value);
            GetKey(d, id, key) ==
              (if edits == [] then GetKey(start, id, key)
               else Expected(edits[1..], id, key, Outcome(s, start, edits[0], id, key))) &&
            UniqueIds(d.sections) && (edits != [] ==> NoRetired(s, d.sections))
  {
    hide SchemaOk, EditOk, WrittenText, ReadText, UniqueIds, NoRetired, GetKey, Edited, IsRetired, Outcome;
    if edits != [] {
      var front, last := edits[..|edits| - 1], edits[|edits| - 1];
      assert last in edits;
      RunReads(s, text, front, id, key);
      var t := Run(s, text, front).value;
      EditOutcome(s, t, last, id, key);
      if front == [] {
        assert edits[1..] == [];
      } else {
        CleanOutcome(s, ReadText(s, t), last, id, key);
        assert edits[1..] == front[1..] + [last] && edits[0] == front[0];
        ExpectedStep(edits[1..], id, key, Outcome(s, ReadText(s, text), edits[0], id, key));
      }
    }
  }

  /** Without retired lines an edit does what it says. */
  lemma CleanOutcome(s: Schema, doc: Doc, e: Edit, id: BlockId, key: string)
    requires SchemaOk(s) && NoRetired(s, doc.sections)
    ensures Outcome(s, doc, e, id, key) == Expected([e], id, key, GetKey(doc, id, key))
  {
    hide SchemaOk, NoRetired, GetKey, LegacyHours;
    CleanHasNoHours(s, doc.sections, id);
  }

  lemma ExpectedStep(edits: seq<Edit>, id: BlockId, key: string, before: Option<string>)
    requires edits != []
    ensures Expected(edits, id, key, before) ==
            Expected([edits[|edits| - 1]], id, key, Expected(edits[..|edits| - 1], id, key, before))
  {
    assert [edits[|edits| - 1]][..0] == [];
  }

  /** The last edit of a run is read back exactly when it does not drop the migrated
      key while legacy lines of that scope still say hours. */
  lemma LastEditReads(s: Schema, text: string, edits: seq<Edit>, id: BlockId, key: string)
    requires SchemaOk(s) && edits != [] && forall e :: e in edits ==> EditOk(s, e)
    requires UniqueIds(ReadText(s, text).sections) && !IsRetired(s, id.scope, id.section, key)
    requires Run(s, text, edits).Some?
    ensures var last, before := edits[|edits| - 1], ReadText(s, Run(s, text, edits[..|edits| - 1]).value);
            GetKey(ReadText(s, Run(s, text, edits).value), id, key) ==
              Expected([last], id, key, GetKey(before, id, key)) <==>
            !Undone(s, before, last, id, key)
  {
    hide SchemaOk, EditOk, WrittenText, ReadText, UniqueIds, NoRetired, GetKey, Edited, IsRetired, LegacyHours;
    var front, last := edits[..|edits| - 1], edits[|edits| - 1];
    assert last in edits;
    RunReads(s, text, front, id, key);
    var t := Run(s, text, front).value;
    EditOutcome(s, t, last, id, key);
    ExpectedNone(last, id, key, GetKey(ReadText(s, t), id, key));
  }

  // A drop that is undone

  /** No block belongs to a partition. */
  predicate Unpartitioned(blocks: seq<Block>) { forall b :: b in blocks ==> b.id.partition == "" }

  lemma {:induction false} ApplyUnpartitioned(s: Schema, doc: Doc, ms: seq<(BlockId, string)>)
    requires Unpartitioned(doc.sections) && forall m :: m in ms ==> m.0.partition == ""
    ensures Unpartitioned(ApplyMigrations(s, doc, ms).sections)
  {
    hide SetKey;
    if ms != [] {
      ApplyUnpartitioned(s, doc, ms[..|ms| - 1]);
      var (target, v) := ms[|ms| - 1];
      assert ms[|ms| - 1] in ms;
      if !target.scope.Raw? {
        SetKeyBlocks(ApplyMigrations(s, doc, ms[..|ms| - 1]), target, [], s.newKey, v);
      }
    }
  }

  lemma MigrateUnpartitioned(s: Schema, doc: Doc)
    requires SchemaOk(s) && Unpartitioned(doc.sections)
    ensures Unpartitioned(Migrate(s, doc).sections)
  {
    hide SchemaOk, GetKey, IsRetired;
    TargetsLive(s, doc, doc.sections);
    ApplyUnpartitioned(s, doc, Migrations(s, doc, doc.sections));
  }

  /** Such a profile can always be sorted, and so written. */
  lemma UnpartitionedWrites(s: Schema, doc: Doc)
    requires SchemaOk(s) && Unpartitioned(doc.sections)
    ensures WrittenText(s, doc).Some?
  {
    hide SchemaOk, Migrate, NonBlank, Normalize, IsDigits, PrintLines, BlockLe, DropRetired;
    MigrateUnpartitioned(s, doc);
    var cleaned := CleanBlocks(s, Migrate(s, doc).sections);
    PruneMembers(cleaned);
    forall b | b in cleaned ensures b.id.partition == "" {
      var i :| 0 <= i < |cleaned| && cleaned[i] == b;
      assert Migrate(s, doc).sections[i] in Migrate(s, doc).sections;
    }
    assert Orderable(Clean(s, doc).sections);
  }

  function LegacyBlock(s: Schema, value: string): Block {
    var id := BlockId(Global, "", "", s.legacySection);
    Block(Header(id), id, [Entry([], s.legacyKey, value)])
  }

  /** A file with one legacy line. */
  function LegacyFile(s: Schema, value: string): string {
    Join([HeaderLine(LegacyBlock(s, value).header), Entry([], s.legacyKey, value)]) + "\n"
  }

  lemma LegacyParses(s: Schema, value: string)
    requires NoBreak(s.legacySection) && CleanKey(s.legacyKey) && NoBreak(value)
    ensures ParseLines(SplitLines(LegacyFile(s, value))) == Doc([], [LegacyBlock(s, value)])
  {
    hide NoBreak, CleanKey, Header, ParseHeader, HeaderLine, Join, SplitLines, Entry, HeaderLike, SplitAssignment,
         CanonicalMap;
    var b := LegacyBlock(s, value);
    EmptyName();
    NoBreakEmpty();
    HeaderRoundTrip(b.id);
    HeaderNoBreak(b.header);
    assert IsPrefix([]);
    EntryBreaks([], s.legacyKey, value);
    EntryParses([], s.legacyKey, value);
    var head := [HeaderLine(b.header)];
    assert [HeaderLine(b.header), Entry([], s.legacyKey, value)] == head + b.lines;
    SplitJoin(head + b.lines);
    BlockParses(b);
  }

  lemma LegacyFeeds(s: Schema, value: string)
    requires SchemaOk(s) && CleanKey(s.legacyKey) && Trimmed(value)
    ensures LegacyHours(s, [LegacyBlock(s, value)], BlockId(ServerCustomGlobal, "", "", s.newSection)) == s.hours(value)
  {
    hide CleanKey, Header, Entry, SplitAssignment, SchemaOk;
    assert IsPrefix([]);
    EntryParses([], s.legacyKey, value);
    HoursOne(s, Entry([], s.legacyKey, value));
    assert [LegacyBlock(s, value)][..0] == [];
  }

  /** Dropping the migrated key of a file with one convertible legacy line: the next
      read has it again. */
  lemma DropIsUndone(s: Schema, value: string)
    requires SchemaOk(s) && NoBreak(s.legacySection) && CleanKey(s.legacyKey)
    requires NoBreak(value) && Trimmed(value) && s.hours(value).Some?
    ensures var id, text := BlockId(ServerCustomGlobal, "", "", s.newSection), LegacyFile(s, value);
            var after := Run(s, text, [Drop(id, s.newKey)]);
            GetKey(Edited(ReadText(s, text), Drop(id, s.newKey)), id, s.newKey) == None && after.Some? &&
            GetKey(ReadText(s, after.value), id, s.newKey) == Some(Strip(Quote, Trim(s.hours(value).value)))
  {
    hide SplitLines, ParseLines, Migrate, Join, Header, HeaderLine, NoBreak, CleanKey, GetKey, LegacyHours, WrittenText,
         RemoveKey, Strip, Trim, Trimmed, IsRetired, LegacyBlock, CanonicalMap;
    var id, text := BlockId(ServerCustomGlobal, "", "", s.newSection), LegacyFile(s, value);
    var d := Doc([], [LegacyBlock(s, value)]);
    var start, drop := Migrate(s, d), Drop(id, s.newKey);
    LegacyParses(s, value);
    assert ReadText(s, text) == start;
    LegacyFeeds(s, value);
    MigrateHours(s, d, id);
    MigrateBlocks(s, d);
    EmptyName();
    NoBreakEmpty();
    assert TargetOk(id);
    assert Unpartitioned(d.sections) by { LegacyUnpartitioned(s, value); }
    MigrateUnpartitioned(s, d);
    DropUnpartitioned(start, id, s.newKey);
    UnpartitionedWrites(s, Edited(start, drop));
    OneRun(s, text, drop);
    RemoveKeyReads(start, id, s.newKey, None, None, id, s.newKey);
    EditOutcome(s, text, drop, id, s.newKey);
  }

  lemma LegacyUnpartitioned(s: Schema, value: string)
    ensures Unpartitioned([LegacyBlock(s, value)]) && UniqueIds([LegacyBlock(s, value)])
  {
    hide Header, Entry;
  }

  lemma DropUnpartitioned(doc: Doc, id: BlockId, key: string)
    requires Unpartitioned(doc.sections)
    ensures Unpartitioned(Edited(doc, Drop(id, key)).sections)
  {
    hide RemoveLines;
    match Find(doc.sections, id)
    case Some(i) => assert doc.sections[i] in doc.sections;
    case None =>
  }

  lemma OneRun(s: Schema, text: string, e: Edit)
    ensures Run(s, text, [e]) == WrittenText(s, Edited(ReadText(s, text), e))
  {
    hide WrittenText, ReadText, Edited;
    assert [e][..0] == [] && Run(s, text, []) == Some(text);
  }
}
