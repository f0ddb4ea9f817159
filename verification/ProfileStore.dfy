/** The settings profile that the commands hold in memory: its lists are changed
    in place, each operation to what the document functions say. */
module ProfileStore {
  import opened Wrappers
  import opened Text
  import opened IniLine
  import opened ProfileLines
  import opened ProfileText
  import Sorting

  function DroppedBlocks(s: Schema, blocks: seq<Block>): (r: seq<Block>)
    ensures |r| == |blocks|
  {
    seq(|blocks|, i requires 0 <= i < |blocks| => blocks[i].(lines := DropRetired(s, blocks[i].id, blocks[i].lines)))
  }

  function NormalizedBlocks(blocks: seq<Block>): (r: seq<Block>)
    ensures |r| == |blocks|
  {
    seq(|blocks|, i requires 0 <= i < |blocks| => blocks[i].(lines := Normalize(blocks[i].lines)))
  }

  /** The guard of profile_set_key against values that would leave their line. */
  predicate Refused(value: string) { '\n' in value || '\r' in value || '\0' in value }

  /** The blank-line clean-up of one block. */
  method CleanLines(lines: seq<string>) returns (cleaned: seq<string>)
    ensures cleaned == Normalize(lines)
  {
    hide Blank;
    cleaned := [];
    for i := 0 to |lines|
      invariant cleaned == Collapse(lines[..i])
    {
      assert lines[..i + 1][..i] == lines[..i];
      if !Blank(lines[i]) {
        cleaned := cleaned + [lines[i]];
      } else if cleaned != [] && !Blank(cleaned[|cleaned| - 1]) {
        cleaned := cleaned + [[]];
      }
    }
    assert lines[..|lines|] == lines;
    ghost var all := cleaned;
    while cleaned != [] && Blank(cleaned[|cleaned| - 1])
      invariant |cleaned| <= |all| && cleaned == all[..|cleaned|]
      invariant TrailStart(cleaned) == TrailStart(all)
    {
      var k := |cleaned| - 1;
      assert cleaned[..k] == all[..k];
      cleaned := cleaned[..k];
    }
  }

  method KeptLines(s: Schema, id: BlockId, lines: seq<string>) returns (kept: seq<string>)
    ensures kept == DropRetired(s, id, lines)
  {
    hide RetiredLine;
    kept := [];
    for i := 0 to |lines|
      invariant kept == DropRetired(s, id, lines[..i])
    {
      assert lines[..i + 1][..i] == lines[..i];
      if !RetiredLine(s, id, lines[i]) {
        kept := kept + [lines[i]];
      }
    }
    assert lines[..|lines|] == lines;
  }

  class Profile {
    var preamble: seq<string>
    var sections: seq<Block>

    function Value(): Doc
      reads this
    {
      Doc(preamble, sections)
    }

    /** One line of the text: a header opens a block, others go to the last one. */
    method ParseRaw(raw: string)
      modifies this
      ensures Value() == ParseStep(old(Value()), raw)
    {
      hide HeaderLike, HeaderName, ParseHeader;
      if HeaderLike(raw) {
        var header := HeaderName(raw);
        sections := sections + [Block(header, ParseHeader(header), [])];
      } else if sections == [] {
        preamble := preamble + [raw];
      } else {
        var k := |sections| - 1;
        sections := sections[k := sections[k].(lines := sections[k].lines + [raw])];
      }
    }

    /** parse_profile_text. */
    constructor Parse(text: string)
      ensures Value() == ParseLines(SplitLines(text))
    {
      preamble, sections := [], [];
      new;
      var lines := SplitLines(text);
      for i := 0 to |lines|
        invariant Value() == ParseLines(lines[..i])
      {
        assert lines[..i + 1][..i] == lines[..i];
        ParseRaw(lines[i]);
      }
      assert lines[..|lines|] == lines;
    }

    /** profile_get_key: the last plain assignment of the block. */
    method Get(id: BlockId, key: string) returns (r: Option<string>)
      ensures r == GetKey(Value(), id, key)
    {
      hide SplitAssignment;
      var block := Find(sections, id);
      if block.None? { return None; }
      var lines := sections[block.value].lines;
      var i: nat := |lines|;
      assert lines[..|lines|] == lines;
      while i > 0
        invariant i <= |lines|
        invariant LastPlain(lines, key) == LastPlain(lines[..i], key)
      {
        i := i - 1;
        assert lines[..i + 1][..i] == lines[..i];
        var a := SplitAssignment(lines[i]);
        if a.Some? && a.value.prefix == [] && a.value.key == key {
          return Some(Strip(Quote, a.value.value));
        }
      }
      r := None;
    }

    /** profile_set_key: scan for the line to replace, else insert before the
        trailing blanks; a value with a newline or NUL is refused. */
    method Set(id: BlockId, prefix: string, key: string, value: string) returns (ok: bool)
      requires !id.scope.Raw?
      modifies this
      ensures ok <==> '\n' !in value && '\r' !in value && '\0' !in value
      ensures Value() == if ok then SetKey(old(Value()), id, prefix, key, value) else old(Value())
    {
      hide SplitAssignment, Blank, Header, Entry;
      ok := !Refused(value);
      if !ok { return; }
      var block := Find(sections, id);
      var k: nat := |sections|;
      if block.Some? {
        k := block.value;
      } else {
        sections := sections + [Block(Header(id), id, [])];
      }
      var lines := sections[k].lines;
      var target := Scan(lines, prefix, key, value);
      var line := Entry(prefix, key, value);
      if target.Some? {
        sections := sections[k := sections[k].(lines := lines[target.value := line])];
      } else {
        var insertAt: nat := |lines|;
        assert lines[..|lines|] == lines;
        while insertAt > 0 && Blank(lines[insertAt - 1])
          invariant insertAt <= |lines| && TrailStart(lines) == TrailStart(lines[..insertAt])
        {
          insertAt := insertAt - 1;
          assert lines[..insertAt + 1][..insertAt] == lines[..insertAt];
        }
        assert insertAt == TrailStart(lines);
        sections := sections[k := sections[k].(lines := lines[..insertAt] + [line] + lines[insertAt..])];
      }
      if block.None? {
        assert sections == old(sections) + [Block(Header(id), id, SetLines([], prefix, key, value))];
      }
    }

    /** The loop of profile_set_key that looks for the line to replace. */
    method Scan(lines: seq<string>, prefix: string, key: string, value: string) returns (target: Option<nat>)
      ensures target == TargetIndex(lines, prefix, key, value)
    {
      hide SplitAssignment;
      target := None;
      for i := 0 to |lines|
        invariant prefix == [] ==> target == LastTarget(lines[..i], [], key, value)
        invariant prefix != [] ==> target.None?
        invariant prefix != [] ==>
          Shifted(FirstTarget(lines[i..], prefix, key, value), i) == FirstTarget(lines, prefix, key, value)
      {
        assert lines[..i + 1][..i] == lines[..i];
        assert lines[i..][1..] == lines[i + 1..];
        var a := SplitAssignment(lines[i]);
        if a.None? || a.value.key != key { continue; }
        if prefix != [] {
          if a.value.prefix == prefix && a.value.value == value {
            return Some(i);
          }
        } else if a.value.prefix == prefix {
          target := Some(i);
        }
      }
      assert lines[..|lines|] == lines && lines[|lines|..] == [];
    }

    /** profile_remove_key. */
    method Remove(id: BlockId, key: string, prefixes: Option<set<string>>, value: Option<string>)
      modifies this
      ensures Value() == RemoveKey(old(Value()), id, key, prefixes, value)
    {
      hide Removes, RemoveLines;
      var block := Find(sections, id);
      if block.None? { return; }
      var lines := sections[block.value].lines;
      var out := [];
      RemoveNothing([], key, prefixes, value);
      for i := 0 to |lines|
        invariant out == RemoveLines(lines[..i], key, prefixes, value)
        invariant Value() == old(Value())
      {
        assert lines[..i + 1] == lines[..i] + [lines[i]];
        RemoveAppend(lines[..i], [lines[i]], key, prefixes, value);
        RemoveOne(lines[i], key, prefixes, value);
        if !Removes(lines[i], key, prefixes, value) {
          out := out + [lines[i]];
        }
      }
      assert lines[..|lines|] == lines;
      sections := sections[block.value := sections[block.value].(lines := out)];
    }

    /** normalize_profile_blank_lines. */
    method NormalizeBlankLines()
      modifies this`sections
      ensures sections == NormalizedBlocks(old(sections))
    {
      for i := 0 to |sections|
        invariant |sections| == |old(sections)|
        invariant forall j :: 0 <= j < |sections| ==>
          sections[j] == if j < i then NormalizedBlocks(old(sections))[j] else old(sections)[j]
      {
        hide Normalize;
        var cleaned := CleanLines(sections[i].lines);
        sections := sections[i := sections[i].(lines := cleaned)];
      }
    }

    /** strip_retired_usergame_profile_lines. */
    method StripRetired(s: Schema)
      modifies this`sections
      ensures sections == DroppedBlocks(s, old(sections))
    {
      for i := 0 to |sections|
        invariant |sections| == |old(sections)|
        invariant forall j :: 0 <= j < |sections| ==>
          sections[j] == if j < i then DroppedBlocks(s, old(sections))[j] else old(sections)[j]
      {
        hide DropRetired;
        var kept := KeptLines(s, sections[i].id, sections[i].lines);
        sections := sections[i := sections[i].(lines := kept)];
      }
    }

    /** prune_empty_profile_sections. */
    method PruneEmpty()
      modifies this`sections
      ensures sections == Prune(old(sections))
    {
      hide NonBlank;
      var kept: seq<Block> := [];
      for i := 0 to |sections|
        invariant kept == Prune(sections[..i]) && sections == old(sections)
      {
        assert sections[..i + 1][..i] == sections[..i];
        if NonBlank(sections[i].lines) != [] {
          kept := kept + [sections[i]];
        }
      }
      assert sections[..|sections|] == sections;
      sections := kept;
    }

    /** migrate_legacy_base_backup_cooldown: collect every move, then make them. */
    method MigrateCooldown(s: Schema)
      requires SchemaOk(s)
      modifies this
      ensures Value() == Migrate(s, old(Value()))
    {
      hide MigrationOf, GetKey, SetKey, SchemaOk;
      var moves: seq<(BlockId, string)> := [];
      for i := 0 to |sections|
        invariant Value() == old(Value()) && moves == Migrations(s, Value(), sections[..i])
        invariant forall m :: m in moves ==> !m.0.scope.Raw? && !Refused(m.1)
      {
        assert sections[..i + 1][..i] == sections[..i];
        var m := MigrationOf(s, Value(), sections[i]);
        if m.Some? {
          MoveOk(s, Value(), sections[i]);
          moves := moves + [m.value];
        }
      }
      assert sections[..|sections|] == sections;
      for i := 0 to |moves|
        invariant Value() == ApplyMigrations(s, old(Value()), moves[..i])
      {
        assert moves[..i + 1][..i] == moves[..i];
        var (id, v) := moves[i];
        assert moves[i] in moves;
        var ok := Set(id, [], s.newKey, v);
      }
      assert moves[..|moves|] == moves;
    }

    /** write_profile: clean the profile up and return the text of its file, or
        nothing when its blocks cannot be sorted. */
    method Write(s: Schema) returns (text: Option<string>)
      requires SchemaOk(s)
      modifies this
      ensures Value() == Clean(s, old(Value()))
      ensures text == WrittenText(s, old(Value()))
    {
      hide SchemaOk, Migrate, Prune, DropRetired, Normalize, Orderable, BlockLe, PrintLines, RstripLines, Join;
      MigrateCooldown(s);
      ghost var migrated := sections;
      StripRetired(s);
      NormalizeBlankLines();
      assert sections == CleanBlocks(s, migrated);
      PruneEmpty();
      if !Orderable(sections) { return None; }
      var lines := RstripLines(PrintLines(preamble, Sorting.Sort(BlockLe, sections)));
      text := Some(Join(lines) + "\n");
    }
  }

  function Shifted(r: Option<nat>, offset: nat): Option<nat> {
    match r
    case None => None
    case Some(i) => Some(i + offset)
  }

  lemma MoveOk(s: Schema, doc: Doc, b: Block)
    requires SchemaOk(s) && MigrationOf(s, doc, b).Some?
    ensures !MigrationOf(s, doc, b).value.0.scope.Raw? && !Refused(MigrationOf(s, doc, b).value.1)
  {
    hide GetKey, CleanKey, IsRetired, Refused, FirstHours, NoBreak;
    HoursAccepted(s, b.lines);
  }

  lemma {:induction false} HoursAccepted(s: Schema, lines: seq<string>)
    requires SchemaOk(s)
    ensures FirstHours(s, lines).Some? ==> !Refused(FirstHours(s, lines).value)
  {
    hide SplitAssignment, CleanKey, IsRetired;
    if lines != [] { HoursAccepted(s, lines[1..]); }
  }
}
