/** The normal form of a profile text: headers round-trip, a printed profile is
    parsed back, and a write followed by a read and a write changes nothing. */
module ProfileNormal {
  import opened Wrappers
  import opened Text
  import opened IniLine
  import opened ProfileLines
  import opened ProfileText
  import Sorting

  // Headers

  /** Text of ASCII letters, digits and underscores. */
  ghost predicate Wordy(s: string) {
    forall i :: 0 <= i < |s| ==> 'A' <= s[i] <= 'z' || '0' <= s[i] <= '9'
  }

  lemma WordyText(s: string)
    requires Wordy(s)
    ensures ':' !in s && NoBreak(s) && Trim(s) == s
  {
  }

  lemma WordyNames(scope: Scope)
    ensures Wordy(ScopeName(scope))
  {
    match scope {
      case _ =>
    }
  }

  lemma NameScopes(scope: Scope)
    requires !scope.Raw?
    ensures ScopeNamed(ScopeName(scope)) == Some(scope)
  {
    match scope
    case Engine =>
    case Global => assert "Engine"[0] == 'E' && "Global"[0] == 'G';
    case MapEngine =>
    case Map =>
    case PartitionEngine =>
    case Partition => assert "MapEngine"[0] == 'M' && "Partition"[0] == 'P';
    case ServerCustomGlobal =>
    case ServerCustomMap => assert "PartitionEngine"[0] == 'P' && "ServerCustomMap"[0] == 'S';
    case ServerCustomPartition =>
  }

  lemma ScopeNames(scope: Scope)
    requires !scope.Raw?
    ensures ScopeNamed(ScopeName(scope)) == Some(scope)
    ensures ':' !in ScopeName(scope) && NoBreak(ScopeName(scope))
  {
    hide ScopeName, ScopeNamed, NoBreak;
    NameScopes(scope);
    WordyNames(scope);
    WordyText(ScopeName(scope));
  }

  lemma LowerSurvival()
    ensures MapAlias(Lower(SURVIVAL)) == Some(SURVIVAL) && Wordy(SURVIVAL)
  {
    assert Lower(SURVIVAL) == "survival_1";
  }

  lemma LowerDeepDesert()
    ensures MapAlias(Lower(DEEP_DESERT)) == Some(DEEP_DESERT) && Wordy(DEEP_DESERT)
  {
    assert Lower(DEEP_DESERT) == "deepdesert_1";
    assert "deepdesert_1"[0] == 'd';
  }

  lemma LowerOvermap()
    ensures MapAlias(Lower(OVERMAP)) == Some(OVERMAP) && Wordy(OVERMAP)
  {
    assert Lower(OVERMAP) == "overmap";
  }

  lemma CanonicalNames()
    ensures CanonicalMap(SURVIVAL) == SURVIVAL && CanonicalMap(DEEP_DESERT) == DEEP_DESERT
    ensures CanonicalMap(OVERMAP) == OVERMAP && CanonicalMap([]) == []
    ensures ':' !in SURVIVAL && ':' !in DEEP_DESERT && ':' !in OVERMAP
    ensures NoBreak(SURVIVAL) && NoBreak(DEEP_DESERT) && NoBreak(OVERMAP)
  {
    hide Wordy, NoBreak, Trim, Lower;
    LowerSurvival();
    LowerDeepDesert();
    LowerOvermap();
    WordyText(SURVIVAL);
    WordyText(DEEP_DESERT);
    WordyText(OVERMAP);
    EmptyName();
  }

  lemma EmptyName()
    ensures CanonicalMap([]) == []
  {
    assert Lower(Trim([])) == [];
  }

  lemma CanonicalFixed(name: string)
    ensures CanonicalMap(CanonicalMap(name)) == CanonicalMap(name)
    ensures ':' !in name ==> ':' !in CanonicalMap(name)
    ensures NoBreak(name) ==> NoBreak(CanonicalMap(name))
  {
    hide MapAlias, Lower, Trim, NoBreak, SURVIVAL, DEEP_DESERT, OVERMAP;
    CanonicalNames();
  }

  lemma NoBreakConcat(a: string, b: string)
    requires NoBreak(a) && NoBreak(b)
    ensures NoBreak(a + b)
  {
  }

  lemma TailRoundTrip(id: BlockId)
    requires TargetOk(id)
    ensures ParseTail(id.scope, HeaderTail(id)) == Some(id) && NoBreak(HeaderTail(id))
  {
    hide CanonicalMap, NoBreak;
    NoBreakEmpty();
    NoBreakTail(id);
    if ShapeOf(id.scope).PerMap? {
      CutUnique(id.mapName, ':', id.section);
    }
    if ShapeOf(id.scope).PerPartition? {
      CutUnique(id.mapName, ':', id.partition + [':'] + id.section);
      CutUnique(id.partition, ':', id.section);
    }
  }

  lemma NoBreakTail(id: BlockId)
    requires TargetOk(id)
    ensures NoBreak(HeaderTail(id))
  {
    hide CanonicalMap;
  }

  /** A header parses back to the id that printed it. */
  lemma HeaderRoundTrip(id: BlockId)
    requires TargetOk(id)
    ensures ParseHeader(Header(id)) == id && NoBreak(Header(id))
  {
    hide ScopeName, ScopeNamed, CanonicalMap, ParseTail, HeaderTail;
    ScopeNames(id.scope);
    TailRoundTrip(id);
    var name := ScopeName(id.scope);
    CutUnique(name, ':', HeaderTail(id));
  }

  lemma CutParts(s: string)
    requires NoBreak(s) && Cut(s, ':').Some?
    ensures NoBreak(Cut(s, ':').value.0) && NoBreak(Cut(s, ':').value.1)
  {
    var (a, b) := Cut(s, ':').value;
    assert forall i :: 0 <= i < |a| ==> a[i] == s[i];
    assert forall i :: 0 <= i < |b| ==> b[i] == s[|a| + 1 + i];
  }

  lemma ParsedTail(scope: Scope, rest: string)
    requires !scope.Raw? && NoBreak(rest) && ParseTail(scope, rest).Some?
    ensures TargetOk(ParseTail(scope, rest).value)
  {
    CanonicalNames();
    hide CanonicalMap, NoBreak;
    NoBreakEmpty();
    if !ShapeOf(scope).Plain? {
      CutParts(rest);
      var (m, tail) := Cut(rest, ':').value;
      CanonicalFixed(m);
      if ShapeOf(scope).PerPartition? {
        CutParts(tail);
      }
    }
  }

  lemma NoBreakEmpty()
    ensures NoBreak([])
  {
  }

  lemma NamedScope(name: string)
    ensures ScopeNamed(name).Some? ==> !ScopeNamed(name).value.Raw?
  {
  }

  /** Whatever a header parses to, a header can carry. */
  lemma ParsedTarget(header: string)
    requires NoBreak(header) && !ParseHeader(header).scope.Raw?
    ensures TargetOk(ParseHeader(header))
  {
    hide ScopeNamed, ParseTail, TargetOk, NoBreak;
    CutParts(header);
    var (name, rest) := Cut(header, ':').value;
    NamedScope(name);
    ParsedTail(ScopeNamed(name).value, rest);
  }

  lemma HeaderLineReads(header: string)
    ensures HeaderLike(HeaderLine(header)) && HeaderName(HeaderLine(header)) == header
    ensures !Blank(HeaderLine(header))
  {
    var line := HeaderLine(header);
    assert line[0] == '[' && line[|line| - 1] == ']';
    assert !IsSpace('[') && !IsSpace(']');
    assert Trim(line) == line;
    assert line[1..|line| - 1] == header;
  }

  lemma HeaderNameNoBreak(line: string)
    requires HeaderLike(line) && NoBreak(line)
    ensures NoBreak(HeaderName(line))
  {
    StripNoBreak(White, line);
    var t := Trim(line);
    assert forall i :: 0 <= i < |HeaderName(line)| ==> HeaderName(line)[i] == t[i + 1];
  }

  // Well-formedness is kept

  lemma {:induction false} ParseOk(lines: seq<string>)
    requires NoBreaks(lines)
    ensures DocOk(ParseLines(lines))
  {
    hide HeaderLike, HeaderName, NoBreak, DocShaped, InDoc;
    EmptyOk();
    if lines != [] {
      var front, raw := lines[..|lines| - 1], lines[|lines| - 1];
      ParseOk(front);
      StepShaped(ParseLines(front), raw);
      StepMembers(ParseLines(front), raw);
    }
  }

  lemma EmptyOk()
    ensures DocOk(EMPTY)
  {
  }

  lemma StepShaped(doc: Doc, raw: string)
    requires DocShaped(doc) && (HeaderLike(raw) ==> NoBreak(raw))
    ensures DocShaped(ParseStep(doc, raw))
  {
    hide HeaderLike, HeaderName, NoBreak, ParseHeader;
    var d := ParseStep(doc, raw);
    if HeaderLike(raw) {
      HeaderNameNoBreak(raw);
      assert BlockShaped(d.sections[|doc.sections|]);
    } else if doc.sections != [] {
      var k := |doc.sections| - 1;
      assert doc.sections[k] in doc.sections;
      assert BlockShaped(d.sections[k]);
    }
  }

  lemma StepMembers(doc: Doc, raw: string)
    ensures forall l :: InDoc(ParseStep(doc, raw), l) ==> InDoc(doc, l) || l == raw
  {
    hide HeaderLike, HeaderName, ParseHeader;
    if doc.sections != [] { assert doc.sections[|doc.sections| - 1] in doc.sections; }
  }

  lemma SetLinesShaped(lines: seq<string>, prefix: string, key: string, value: string)
    requires LinesShaped(lines) && IsPrefix(prefix) && CleanKey(key)
    ensures LinesShaped(SetLines(lines, prefix, key, value))
  {
    hide HeaderLike, SplitAssignment, Blank;
    EntryParses(prefix, key, value);
  }

  lemma PrefixNoBreak(prefix: string)
    requires IsPrefix(prefix)
    ensures NoBreak(prefix)
  {
  }

  /** An entry breaks where its value does. */
  lemma EntryBreaks(prefix: string, key: string, value: string)
    requires IsPrefix(prefix) && CleanKey(key)
    ensures NoBreak(prefix + key + "=")
    ensures NoBreak(Entry(prefix, key, value)) <==> NoBreak(value)
  {
    var head := prefix + key + "=";
    assert NoBreak(head);
    assert Entry(prefix, key, value) == head + value;
    assert forall i :: 0 <= i < |value| ==> (head + value)[|head| + i] == value[i];
  }

  /** A keyed edit keeps the profile well-formed. */
  lemma SetKeyShaped(doc: Doc, id: BlockId, prefix: string, key: string, value: string)
    requires DocShaped(doc) && TargetOk(id) && IsPrefix(prefix) && CleanKey(key)
    ensures DocShaped(SetKey(doc, id, prefix, key, value))
  {
    hide HeaderLike, NoBreak, IsPrefix, CleanKey, SetLines, ParseHeader;
    match Find(doc.sections, id)
    case Some(i) =>
      assert BlockShaped(doc.sections[i]);
      SetLinesShaped(doc.sections[i].lines, prefix, key, value);
    case None =>
      HeaderRoundTrip(id);
      SetLinesShaped([], prefix, key, value);
  }

  lemma SetLinesMembers(lines: seq<string>, prefix: string, key: string, value: string)
    ensures forall l :: l in SetLines(lines, prefix, key, value) ==> l in lines || l == Entry(prefix, key, value)
  {
    hide TargetIndex, TrailStart, Entry, Targets;
  }

  lemma SetKeyMembers(doc: Doc, id: BlockId, prefix: string, key: string, value: string)
    requires !id.scope.Raw?
    ensures forall l ::
              InDoc(SetKey(doc, id, prefix, key, value), l) ==> InDoc(doc, l) || l == Entry(prefix, key, value)
  {
    hide SetLines, Header, Entry;
    match Find(doc.sections, id)
    case Some(i) =>
      SetLinesMembers(doc.sections[i].lines, prefix, key, value);
      assert doc.sections[i] in doc.sections;
    case None => SetLinesMembers([], prefix, key, value);
  }

  lemma RemoveKeyShaped(doc: Doc, id: BlockId, key: string, prefixes: Option<set<string>>, value: Option<string>)
    requires DocShaped(doc)
    ensures DocShaped(RemoveKey(doc, id, key, prefixes, value))
    ensures forall l :: InDoc(RemoveKey(doc, id, key, prefixes, value), l) ==> InDoc(doc, l)
  {
    hide HeaderLike, NoBreak, ParseHeader, RemoveLines, Removes;
    match Find(doc.sections, id)
    case Some(i) =>
      assert BlockShaped(doc.sections[i]);
      RemoveMembers(doc.sections[i].lines, key, prefixes, value);
      assert doc.sections[i] in doc.sections;
    case None =>
  }

  lemma {:induction false} ApplyShaped(s: Schema, doc: Doc, ms: seq<(BlockId, string)>)
    requires SchemaOk(s) && DocShaped(doc)
    requires forall m :: m in ms ==> TargetOk(m.0) && NoBreak(m.1)
    ensures DocShaped(ApplyMigrations(s, doc, ms))
    ensures forall l :: InDoc(ApplyMigrations(s, doc, ms), l) ==> InDoc(doc, l) || NoBreak(l)
  {
    hide DocShaped, NoBreak, TargetOk, SetKey, CleanKey, InDoc, Entry;
    if ms != [] {
      ApplyShaped(s, doc, ms[..|ms| - 1]);
      var (id, v) := ms[|ms| - 1];
      assert ms[|ms| - 1] in ms;
      if !id.scope.Raw? {
        assert IsPrefix([]);
        var d := ApplyMigrations(s, doc, ms[..|ms| - 1]);
        SetKeyShaped(d, id, [], s.newKey, v);
        SetKeyMembers(d, id, [], s.newKey, v);
        EntryBreaks([], s.newKey, v);
      }
    }
  }

  lemma {:induction false} MigrationsOk(s: Schema, doc: Doc, blocks: seq<Block>)
    requires SchemaOk(s)
    requires forall b :: b in blocks ==> BlockShaped(b)
    ensures forall m :: m in Migrations(s, doc, blocks) ==> TargetOk(m.0) && NoBreak(m.1)
  {
    hide NoBreak, GetKey, CleanKey, ParseHeader, LinesShaped, FirstHours, CanonicalMap;
    if blocks != [] {
      var front, last := blocks[..|blocks| - 1], blocks[|blocks| - 1];
      MigrationsOk(s, doc, front);
      assert last in blocks;
      var m := MigrationOf(s, doc, last);
      if m.Some? {
        ParsedTarget(last.header);
        HoursOk(s, last.lines);
        assert TargetOk(m.value.0);
      }
    }
  }

  lemma {:induction false} HoursOk(s: Schema, lines: seq<string>)
    requires SchemaOk(s)
    ensures FirstHours(s, lines).Some? ==> NoBreak(FirstHours(s, lines).value)
  {
    hide SplitAssignment, CleanKey;
    if lines != [] { HoursOk(s, lines[1..]); }
  }

  /** The migration keeps the shape and adds no line with a break. */
  lemma MigrateShaped(s: Schema, doc: Doc)
    requires SchemaOk(s) && DocShaped(doc)
    ensures DocShaped(Migrate(s, doc))
    ensures forall l :: InDoc(Migrate(s, doc), l) ==> InDoc(doc, l) || NoBreak(l)
  {
    hide BlockShaped, LinesShaped, TargetOk, NoBreak, SchemaOk, InDoc;
    MigrationsOk(s, doc, doc.sections);
    ApplyShaped(s, doc, Migrations(s, doc, doc.sections));
  }

  lemma ReadOk(s: Schema, text: string)
    requires SchemaOk(s)
    ensures DocOk(ReadText(s, text))
  {
    hide SchemaOk, DocShaped, ParseLines, Migrate, InDoc;
    ParseOk(SplitLines(text));
    MigrateShaped(s, ParseLines(SplitLines(text)));
  }

  /** Without a retired line there is nothing to migrate. */
  lemma {:induction false} NothingToMigrate(s: Schema, doc: Doc, blocks: seq<Block>)
    requires SchemaOk(s) && NoRetired(s, blocks)
    ensures Migrations(s, doc, blocks) == []
  {
    hide SplitAssignment, GetKey, CleanKey, NoBreak;
    if blocks != [] {
      var front, last := blocks[..|blocks| - 1], blocks[|blocks| - 1];
      NothingToMigrate(s, doc, front);
      if CustomScope(last.id.scope).Some? && last.id.section == s.legacySection {
        NoHours(s, last.id, last.lines);
      }
    }
  }

  lemma {:induction false} NoHours(s: Schema, id: BlockId, lines: seq<string>)
    requires s.legacySection in s.retired && s.legacyKey in s.retired[s.legacySection]
    requires CustomScope(id.scope).Some? && id.section == s.legacySection
    requires forall l :: l in lines ==> !RetiredLine(s, id, l)
    ensures FirstHours(s, lines).None?
  {
    hide SplitAssignment;
    if lines != [] {
      assert lines[0] in lines;
      NoHours(s, id, lines[1..]);
    }
  }

  lemma MigrateFixed(s: Schema, doc: Doc)
    requires SchemaOk(s) && NoRetired(s, doc.sections)
    ensures Migrate(s, doc) == doc
  {
    NothingToMigrate(s, doc, doc.sections);
  }

  // The order

  lemma {:induction false} StrTotal(a: string, b: string)
    ensures StrLe(a, b) || StrLe(b, a)
    decreases |a|
  {
    if a != [] && b != [] && a[0] == b[0] { StrTotal(a[1..], b[1..]); }
  }

  lemma OrderTotal()
    ensures Sorting.Total(BlockLe)
  {
    forall a: Block, b: Block ensures BlockLe(a, b) || BlockLe(b, a) {
      StrTotal(a.id.mapName, b.id.mapName);
      StrTotal(a.id.partition, b.id.partition);
      StrTotal(a.id.section, b.id.section);
    }
  }
}
