/** What the cooldown migration does to the reads of a profile. */
module ProfileMigration {
  import opened Wrappers
  import opened Text
  import opened IniLine
  import opened ProfileLines
  import opened ProfileText
  import opened ProfileNormal
  import opened ProfileReads

  /** The block holds the legacy setting of the scope whose new block is id. */
  predicate Feeds(s: Schema, b: Block, id: BlockId) {
    CustomScope(b.id.scope).Some? && b.id.section == s.legacySection &&
    id == BlockId(CustomScope(b.id.scope).value, b.id.mapName, b.id.partition, s.newSection)
  }

  /** The hours that the legacy lines say for the new block id. */
  function LegacyHours(s: Schema, blocks: seq<Block>, id: BlockId): Option<string> {
    if blocks == [] then None
    else
      var last := blocks[|blocks| - 1];
      if Feeds(s, last, id) && FirstHours(s, last.lines).Some? then FirstHours(s, last.lines)
      else LegacyHours(s, blocks[..|blocks| - 1], id)
  }

  /** What the moves write last for a block. */
  function LastMove(ms: seq<(BlockId, string)>, id: BlockId): Option<string> {
    if ms == [] then None
    else if ms[|ms| - 1].0 == id then Some(ms[|ms| - 1].1)
    else LastMove(ms[..|ms| - 1], id)
  }

  lemma {:induction false} MovesAreHours(s: Schema, doc: Doc, blocks: seq<Block>, id: BlockId)
    ensures LastMove(Migrations(s, doc, blocks), id) ==
            if GetKey(doc, id, s.newKey).Some? then None else LegacyHours(s, blocks, id)
    ensures forall m :: m in Migrations(s, doc, blocks) ==> !m.0.scope.Raw? && CustomScope(m.0.scope).None?
  {
    hide GetKey, FirstHours, MigrationOf, Feeds;
    if blocks != [] {
      var last := blocks[|blocks| - 1];
      MovesAreHours(s, doc, blocks[..|blocks| - 1], id);
      var front := Migrations(s, doc, blocks[..|blocks| - 1]);
      var m := MigrationOf(s, doc, last);
      MoveOfBlock(s, doc, last, id);
      if m.Some? { assert (front + [m.value])[..|front|] == front; }
    }
  }

  /** A block is moved to the one it feeds, unless that states the new key. */
  lemma MoveOfBlock(s: Schema, doc: Doc, b: Block, id: BlockId)
    ensures var m := MigrationOf(s, doc, b);
            (m.Some? ==> !m.value.0.scope.Raw? && CustomScope(m.value.0.scope).None?) &&
            (m.Some? && m.value.0 == id <==>
              Feeds(s, b, id) && FirstHours(s, b.lines).Some? && GetKey(doc, id, s.newKey).None?) &&
            (m.Some? ==> FirstHours(s, b.lines) == Some(m.value.1))
  {
    hide GetKey, FirstHours;
  }

  lemma {:induction false} ApplyEnds(s: Schema, doc: Doc, ms: seq<(BlockId, string)>, id: BlockId, key: string)
    requires CleanKey(s.newKey) && forall m :: m in ms ==> !m.0.scope.Raw?
    ensures LastEnd(LinesOf(ApplyMigrations(s, doc, ms).sections, id), key) ==
            if key == s.newKey && LastMove(ms, id).Some?
            then Some(StripRight(White, Entry([], key, LastMove(ms, id).value)))
            else LastEnd(LinesOf(doc.sections, id), key)
  {
    hide LinesOf, LastEnd, SetKey, CleanKey, StripRight, Entry;
    if ms != [] {
      ApplyEnds(s, doc, ms[..|ms| - 1], id, key);
      var (target, v) := ms[|ms| - 1];
      assert ms[|ms| - 1] in ms;
      assert IsPrefix([]);
      SetKeyEnds(ApplyMigrations(s, doc, ms[..|ms| - 1]), target, [], s.newKey, v, id, key);
    }
  }

  lemma MigratedEnds(s: Schema, doc: Doc, id: BlockId, key: string)
    requires SchemaOk(s)
    ensures LastEnd(LinesOf(Migrate(s, doc).sections, id), key) ==
            if key == s.newKey && GetKey(doc, id, key).None? && LegacyHours(s, doc.sections, id).Some?
            then Some(StripRight(White, Entry([], key, LegacyHours(s, doc.sections, id).value)))
            else LastEnd(LinesOf(doc.sections, id), key)
  {
    hide GetKey, LinesOf, LastEnd, CleanKey, StripRight, Entry, NoBreak, IsRetired;
    MovesAreHours(s, doc, doc.sections, id);
    ApplyEnds(s, doc, Migrations(s, doc, doc.sections), id, key);
  }

  /** Where a block has no new value, the hours of its scope's legacy lines become
      that value; a stated new value wins, and no other read changes. */
  lemma MigratedReads(s: Schema, doc: Doc, id: BlockId, key: string)
    requires SchemaOk(s)
    ensures GetKey(Migrate(s, doc), id, key) ==
            if key == s.newKey && GetKey(doc, id, key).None? && LegacyHours(s, doc.sections, id).Some?
            then Some(Strip(Quote, Trim(LegacyHours(s, doc.sections, id).value)))
            else GetKey(doc, id, key)
  {
    hide LinesOf, LastEnd, LastPlain, CleanKey, StripRight, Entry, Strip, Trim, NoBreak, IsRetired, Migrate,
         LegacyHours, PlainValue;
    MigratedEnds(s, doc, id, key);
    LastEndReads(LinesOf(Migrate(s, doc).sections, id), key);
    LastEndReads(LinesOf(doc.sections, id), key);
    if key == s.newKey && LegacyHours(s, doc.sections, id).Some? {
      EntryValue(key, LegacyHours(s, doc.sections, id).value);
    }
  }

  /** A line of the retired setting whose value can be told in hours. */
  predicate Converts(s: Schema, line: string) {
    var a := SplitAssignment(line);
    a.Some? && a.value.key == s.legacyKey && s.hours(a.value.value).Some?
  }

  predicate FirstToConvert(s: Schema, lines: seq<string>, i: int) {
    0 <= i < |lines| && Converts(s, lines[i]) && forall j :: 0 <= j < i ==> !Converts(s, lines[j])
  }

  lemma {:induction false} FirstHoursAt(s: Schema, lines: seq<string>, i: nat)
    requires i < |lines| && Converts(s, lines[i]) && forall j :: 0 <= j < i ==> !Converts(s, lines[j])
    ensures FirstHours(s, lines) == s.hours(SplitAssignment(lines[i]).value.value)
  {
    hide SplitAssignment;
    if i > 0 { FirstHoursAt(s, lines[1..], i - 1); }
  }

  lemma {:induction false} NoneConverts(s: Schema, lines: seq<string>)
    requires forall i :: 0 <= i < |lines| ==> !Converts(s, lines[i])
    ensures FirstHours(s, lines) == None
  {
    hide SplitAssignment;
    if lines != [] { NoneConverts(s, lines[1..]); }
  }

  /** The former place of the setting that a native block holds now. */
  function FormerId(s: Schema, id: BlockId): BlockId {
    var scope :=
      if id.scope == ServerCustomPartition then Partition else if id.scope == ServerCustomMap then Map else Global;
    BlockId(scope, id.mapName, id.partition, s.legacySection)
  }

  lemma {:induction false} HoursOfId(s: Schema, blocks: seq<Block>, id: BlockId)
    requires UniqueIds(blocks) && id.section == s.newSection
    requires id.scope in {ServerCustomGlobal, ServerCustomMap, ServerCustomPartition}
    ensures LegacyHours(s, blocks, id) == FirstHours(s, LinesOf(blocks, FormerId(s, id)))
  {
    hide FirstHours, UniqueIds, LinesOf;
    NoneOfNothing(s);
    if blocks == [] {
      LinesOfNone(blocks, FormerId(s, id));
    } else {
      var front, last := blocks[..|blocks| - 1], blocks[|blocks| - 1];
      assert blocks == front + [last] && last in blocks;
      UniqueFront(front, last);
      HoursOfId(s, front, id);
      assert Feeds(s, last, id) <==> last.id == FormerId(s, id);
      if last.id == FormerId(s, id) {
        LinesOfMember(blocks, last);
        LinesOfNone(front, FormerId(s, id));
      } else {
        OtherLast(front, last, FormerId(s, id));
      }
    }
  }

  /** A scope without a native cooldown gets it from its own former block: from the
      first line of the retired setting there that can be told in hours. */
  lemma MigratedFrom(s: Schema, doc: Doc, id: BlockId)
    requires SchemaOk(s) && UniqueIds(doc.sections) && id.section == s.newSection
    requires id.scope in {ServerCustomGlobal, ServerCustomMap, ServerCustomPartition}
    requires GetKey(doc, id, s.newKey).None?
    ensures var lines := LinesOf(doc.sections, FormerId(s, id));
      && (forall i :: FirstToConvert(s, lines, i) ==>
            GetKey(Migrate(s, doc), id, s.newKey) ==
              Some(Strip(Quote, Trim(s.hours(SplitAssignment(lines[i]).value.value).value))))
      && ((forall i :: 0 <= i < |lines| ==> !Converts(s, lines[i])) ==>
            GetKey(Migrate(s, doc), id, s.newKey) == None)
  {
    hide SchemaOk, UniqueIds, GetKey, Migrate, LinesOf, FirstHours, LegacyHours, Strip, Trim, SplitAssignment, FormerId;
    var lines := LinesOf(doc.sections, FormerId(s, id));
    MigratedReads(s, doc, id, s.newKey);
    HoursOfId(s, doc.sections, id);
    forall i | FirstToConvert(s, lines, i)
      ensures FirstHours(s, lines) == s.hours(SplitAssignment(lines[i]).value.value) && FirstHours(s, lines).Some?
    {
      FirstHoursAt(s, lines, i);
    }
    if forall i :: 0 <= i < |lines| ==> !Converts(s, lines[i]) { NoneConverts(s, lines); }
  }

  lemma SetKeyBlocks(doc: Doc, id: BlockId, prefix: string, key: string, value: string)
    requires !id.scope.Raw?
    ensures forall b :: b in SetKey(doc, id, prefix, key, value).sections ==> b in doc.sections || b.id == id
    ensures UniqueIds(doc.sections) ==> UniqueIds(SetKey(doc, id, prefix, key, value).sections)
  {
    hide SetLines, Header;
  }

  lemma {:induction false} ApplyBlocks(s: Schema, doc: Doc, ms: seq<(BlockId, string)>)
    requires forall m :: m in ms ==> !m.0.scope.Raw? && CustomScope(m.0.scope).None?
    ensures forall b :: b in ApplyMigrations(s, doc, ms).sections ==> b in doc.sections || CustomScope(b.id.scope).None?
    ensures UniqueIds(doc.sections) ==> UniqueIds(ApplyMigrations(s, doc, ms).sections)
  {
    hide SetKey, UniqueIds;
    if ms != [] {
      ApplyBlocks(s, doc, ms[..|ms| - 1]);
      var (target, v) := ms[|ms| - 1];
      assert ms[|ms| - 1] in ms;
      SetKeyBlocks(ApplyMigrations(s, doc, ms[..|ms| - 1]), target, [], s.newKey, v);
    }
  }

  /** The migration keeps ids unique and touches no block that it moves from. */
  lemma MigrateBlocks(s: Schema, doc: Doc)
    ensures forall b :: b in Migrate(s, doc).sections ==> b in doc.sections || CustomScope(b.id.scope).None?
    ensures UniqueIds(doc.sections) ==> UniqueIds(Migrate(s, doc).sections)
  {
    hide UniqueIds, GetKey;
    MovesAreHours(s, doc, doc.sections, BlockId(Raw, "", "", ""));
    ApplyBlocks(s, doc, Migrations(s, doc, doc.sections));
  }

  lemma {:induction false} HoursOfBlock(s: Schema, blocks: seq<Block>, b: Block, id: BlockId)
    requires b in blocks && Feeds(s, b, id) && FirstHours(s, b.lines).Some?
    ensures LegacyHours(s, blocks, id).Some?
  {
    hide FirstHours, Feeds;
    if b != blocks[|blocks| - 1] {
      HoursOfBlock(s, blocks[..|blocks| - 1], b, id);
    }
  }

  lemma {:induction false} NothingMoves(s: Schema, doc: Doc, blocks: seq<Block>)
    requires forall b :: b in blocks ==> MigrationOf(s, doc, b).None?
    ensures Migrations(s, doc, blocks) == []
  {
    hide MigrationOf;
    if blocks != [] {
      assert blocks[|blocks| - 1] in blocks;
      NothingMoves(s, doc, blocks[..|blocks| - 1]);
    }
  }

  /** Migrating twice is migrating once. */
  lemma MigrateTwice(s: Schema, doc: Doc)
    requires SchemaOk(s)
    ensures Migrations(s, Migrate(s, doc), Migrate(s, doc).sections) == []
    ensures Migrate(s, Migrate(s, doc)) == Migrate(s, doc)
  {
    hide SchemaOk, GetKey, Migrations, FirstHours, ApplyMigrations, Strip, Trim;
    var d := Migrate(s, doc);
    MigrateBlocks(s, doc);
    forall b | b in d.sections ensures MigrationOf(s, d, b).None? {
      if MigrationOf(s, d, b).Some? {
        var id := MigrationOf(s, d, b).value.0;
        assert Feeds(s, b, id) && b in doc.sections;
        HoursOfBlock(s, doc.sections, b, id);
        MigratedReads(s, doc, id, s.newKey);
      }
    }
    NothingMoves(s, d, d.sections);
    assert ApplyMigrations(s, d, []) == d by { ApplyNothing(s, d); }
  }

  lemma ApplyNothing(s: Schema, doc: Doc)
    ensures ApplyMigrations(s, doc, []) == doc
  {
  }

  /** In a migrated profile a scope with convertible legacy lines has its hours. */
  lemma MigratedHasHours(s: Schema, doc: Doc, id: BlockId)
    requires SchemaOk(s) && LegacyHours(s, Migrate(s, doc).sections, id).Some?
    ensures GetKey(Migrate(s, doc), id, s.newKey).Some?
  {
    hide SchemaOk, GetKey, Migrations, Migrate, LegacyHours;
    MigrateTwice(s, doc);
    MovesAreHours(s, Migrate(s, doc), Migrate(s, doc).sections, id);
    assert LastMove([], id) == None;
  }

  lemma {:induction false} CleanHasNoHours(s: Schema, blocks: seq<Block>, id: BlockId)
    requires SchemaOk(s) && NoRetired(s, blocks)
    ensures LegacyHours(s, blocks, id).None?
  {
    hide RetiredLine, FirstHours, CleanKey, NoBreak, IsRetired;
    if blocks != [] {
      var last := blocks[|blocks| - 1];
      CleanHasNoHours(s, blocks[..|blocks| - 1], id);
      if Feeds(s, last, id) { NoHours(s, last.id, last.lines); }
    }
  }

  // Edits of live keys leave the legacy lines alone

  lemma {:induction false} HoursAppend(s: Schema, a: seq<string>, b: seq<string>)
    ensures FirstHours(s, a + b) == if FirstHours(s, a).Some? then FirstHours(s, a) else FirstHours(s, b)
  {
    hide SplitAssignment;
    if a == [] {
      assert a + b == b;
    } else {
      HoursAppend(s, a[1..], b);
      assert (a + b)[1..] == a[1..] + b && (a + b)[0] == a[0];
    }
  }

  lemma HoursOne(s: Schema, line: string)
    ensures var a := SplitAssignment(line);
            FirstHours(s, [line]) ==
            if a.Some? && a.value.key == s.legacyKey then s.hours(a.value.value) else None
  {
    hide SplitAssignment;
    assert FirstHours(s, [line][1..]) == None;
  }

  lemma {:induction false} HoursOfOthers(s: Schema, lines: seq<string>, prefix: string, key: string)
    requires key != s.legacyKey
    ensures FirstHours(s, Others(lines, prefix, key)) == FirstHours(s, lines)
  {
    hide SplitAssignment, Blank;
    if lines != [] {
      var front, last := lines[..|lines| - 1], lines[|lines| - 1];
      HoursOfOthers(s, front, prefix, key);
      assert lines == front + [last];
      HoursAppend(s, front, [last]);
      HoursAppend(s, Others(front, prefix, key), [last]);
      HoursOne(s, last);
      BlankUnassigned(last);
    }
  }

  lemma HoursOfSet(s: Schema, lines: seq<string>, prefix: string, key: string, value: string)
    requires key != s.legacyKey && IsPrefix(prefix) && CleanKey(key)
    ensures FirstHours(s, SetLines(lines, prefix, key, value)) == FirstHours(s, lines)
  {
    hide FirstHours, Others, SetLines, CleanKey;
    SetKeepsOthers(lines, prefix, key, value);
    HoursOfOthers(s, SetLines(lines, prefix, key, value), prefix, key);
    HoursOfOthers(s, lines, prefix, key);
  }

  lemma {:induction false} HoursOfRemove(s: Schema, lines: seq<string>, key: string, prefixes: Option<set<string>>,
      value: Option<string>)
    requires key != s.legacyKey
    ensures FirstHours(s, RemoveLines(lines, key, prefixes, value)) == FirstHours(s, lines)
  {
    hide SplitAssignment;
    if lines != [] {
      HoursOfRemove(s, lines[1..], key, prefixes, value);
      var rest := RemoveLines(lines[1..], key, prefixes, value);
      assert ([lines[0]] + rest)[1..] == rest;
    }
  }

  lemma {:induction false} HoursUpdate(s: Schema, blocks: seq<Block>, i: nat, b: Block, id: BlockId)
    requires i < |blocks| && b.id == blocks[i].id
    requires Feeds(s, b, id) ==> FirstHours(s, b.lines) == FirstHours(s, blocks[i].lines)
    ensures LegacyHours(s, blocks[i := b], id) == LegacyHours(s, blocks, id)
  {
    hide FirstHours;
    var front := blocks[..|blocks| - 1];
    if i < |front| {
      HoursUpdate(s, front, i, b, id);
      assert blocks[i := b][..|front|] == front[i := b];
    } else {
      assert blocks[i := b][..|front|] == front;
    }
  }

  lemma LegacyIsRetired(s: Schema, b: Block, id: BlockId)
    requires SchemaOk(s) && Feeds(s, b, id)
    ensures IsRetired(s, b.id.scope, b.id.section, s.legacyKey)
  {
    hide CleanKey, NoBreak;
  }

  lemma SetKeyHours(s: Schema, doc: Doc, at: BlockId, prefix: string, key: string, value: string, id: BlockId)
    requires SchemaOk(s) && !at.scope.Raw? && IsPrefix(prefix) && CleanKey(key)
    requires !IsRetired(s, at.scope, at.section, key)
    ensures LegacyHours(s, SetKey(doc, at, prefix, key, value).sections, id) == LegacyHours(s, doc.sections, id)
  {
    hide SchemaOk, FirstHours, CleanKey, IsPrefix, IsRetired, SetLines, Header, Feeds;
    match Find(doc.sections, at)
    case Some(i) =>
      var b := doc.sections[i];
      var changed := b.(lines := SetLines(b.lines, prefix, key, value));
      if Feeds(s, changed, id) {
        LegacyIsRetired(s, changed, id);
        HoursOfSet(s, b.lines, prefix, key, value);
      }
      HoursUpdate(s, doc.sections, i, changed, id);
    case None =>
      var b := Block(Header(at), at, SetLines([], prefix, key, value));
      if Feeds(s, b, id) {
        LegacyIsRetired(s, b, id);
        HoursOfSet(s, [], prefix, key, value);
        NoneOfNothing(s);
      }
      assert (doc.sections + [b])[..|doc.sections|] == doc.sections;
  }

  lemma NoneOfNothing(s: Schema)
    ensures FirstHours(s, []) == None
  {
  }

  lemma RemoveKeyHours(s: Schema, doc: Doc, at: BlockId, key: string, prefixes: Option<set<string>>,
      value: Option<string>, id: BlockId)
    requires SchemaOk(s) && !IsRetired(s, at.scope, at.section, key)
    ensures LegacyHours(s, RemoveKey(doc, at, key, prefixes, value).sections, id) == LegacyHours(s, doc.sections, id)
  {
    hide SchemaOk, FirstHours, IsRetired, RemoveLines, Feeds;
    match Find(doc.sections, at)
    case Some(i) =>
      var b := doc.sections[i];
      var rest := b.(lines := RemoveLines(b.lines, key, prefixes, value));
      if Feeds(s, rest, id) {
        LegacyIsRetired(s, rest, id);
        HoursOfRemove(s, b.lines, key, prefixes, value);
      }
      HoursUpdate(s, doc.sections, i, rest, id);
    case None =>
  }

  lemma {:induction false} ApplyHours(s: Schema, doc: Doc, ms: seq<(BlockId, string)>, id: BlockId)
    requires SchemaOk(s) && forall m :: m in ms ==> !IsRetired(s, m.0.scope, m.0.section, s.newKey)
    ensures LegacyHours(s, ApplyMigrations(s, doc, ms).sections, id) == LegacyHours(s, doc.sections, id)
  {
    hide LegacyHours, SetKey, NoBreak, CleanKey, IsRetired;
    if ms != [] {
      ApplyHours(s, doc, ms[..|ms| - 1], id);
      var (target, v) := ms[|ms| - 1];
      assert ms[|ms| - 1] in ms;
      assert IsPrefix([]);
      if !target.scope.Raw? {
        SetKeyHours(s, ApplyMigrations(s, doc, ms[..|ms| - 1]), target, [], s.newKey, v, id);
      }
    }
  }

  lemma {:induction false} TargetsLive(s: Schema, doc: Doc, blocks: seq<Block>)
    requires SchemaOk(s)
    ensures forall m :: m in Migrations(s, doc, blocks) ==>
      !IsRetired(s, m.0.scope, m.0.section, s.newKey) && exists b :: b in blocks && m.0.partition == b.id.partition
  {
    hide GetKey, FirstHours, NoBreak, CleanKey;
    if blocks != [] {
      var front, last := blocks[..|blocks| - 1], blocks[|blocks| - 1];
      TargetsLive(s, doc, front);
      assert blocks == front + [last];
      assert last in blocks;
    }
  }

  /** The legacy lines stay for strip_retired to remove. */
  lemma MigrateHours(s: Schema, doc: Doc, id: BlockId)
    requires SchemaOk(s)
    ensures LegacyHours(s, Migrate(s, doc).sections, id) == LegacyHours(s, doc.sections, id)
  {
    hide LegacyHours, SchemaOk, GetKey, IsRetired;
    TargetsLive(s, doc, doc.sections);
    ApplyHours(s, doc, Migrations(s, doc, doc.sections), id);
  }
}
