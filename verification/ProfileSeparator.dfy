/** One value that the setter accepts and the file does not carry: a line separator
    in the middle makes two entries of it. */
module ProfileSeparator {
  import opened Wrappers
  import opened Text
  import opened IniLine
  import opened ProfileLines
  import opened ProfileText
  import opened ProfileNormal
  import opened ProfileRoundTrip
  import opened ProfileFixpoint
  import opened ProfileReads
  import ProfileStore
  import Sorting

  lemma SplitAt(line: string, c: char, rest: string)
    requires NoBreak(line) && IsBreak(c) && c != '\r'
    ensures SplitLines(line + [c] + rest) == [line] + SplitLines(rest)
  {
    var s := line + [c] + rest;
    assert s[|line|] == c;
    assert forall j :: 0 <= j < |line| ==> s[j] == line[j];
    assert BreakIndex(s) == |line|;
    assert s[..|line|] == line && s[|line| + 1..] == rest;
  }

  const SEPARATOR: char := '\U{2028}'

  /** A section and keys that no clean-up touches. */
  ghost predicate Untouched(s: Schema, section: string, key: string, other: string) {
    section !in s.retired && section != s.legacySection && NoBreak(section) &&
    CleanKey(key) && CleanKey(other) && key != other
  }

  lemma OneBlock(s: Schema, header: string, id: BlockId, line: string)
    requires SchemaOk(s) && id.section !in s.retired && !Blank(line) && StripRight(White, line) == line
    ensures var doc := Doc([], [Block(header, id, [line])]);
            WrittenText(s, doc) == Some(HeaderLine(header) + "\n" + line + "\n")
  {
    hide Blank, StripRight, HeaderLine, Orderable, SchemaOk, Clean, RstripLines, Join, BlockLe;
    var b := Block(header, id, [line]);
    OneClean(s, header, id, line);
    OneOrderable(b);
    Sorting.SortFixed(BlockLe, [b]);
    OnePrint(b, line);
    var lines := [HeaderLine(header), line];
    RstripNonBlank(lines);
    assert lines[1 := line] == lines;
    JoinTwo(HeaderLine(header), line);
  }

  lemma OnePrint(b: Block, line: string)
    requires b.lines == [line]
    ensures PrintLines([], [b]) == [HeaderLine(b.header), line]
  {
    hide HeaderLine;
    assert [b][..0] == [];
  }

  lemma JoinTwo(a: string, b: string)
    ensures Join([a, b]) == a + "\n" + b
  {
    assert [a, b][1..] == [b];
  }

  lemma OneOrderable(b: Block)
    ensures Orderable([b])
  {
    hide IsDigits;
  }

  lemma OneClean(s: Schema, header: string, id: BlockId, line: string)
    requires SchemaOk(s) && id.section !in s.retired && !Blank(line)
    ensures var doc := Doc([], [Block(header, id, [line])]);
            Clean(s, doc) == doc
  {
    hide Blank, SplitAssignment, SchemaOk, Normalize, Prune;
    var b := Block(header, id, [line]);
    assert NoRetired(s, [b]);
    assert Normalize([line]) == [line] by { NormalizeFixed([line]); }
    CleanedTo(s, Doc([], [b]), [b]);
    NonBlankLast([line]);
    PruneAll([b]);
  }

  /** A value with a line separator is accepted; writing it and reading the
      file back gives two entries. */
  lemma SeparatorSplits(s: Schema, section: string, key: string, value: string, other: string, tail: string)
    requires SchemaOk(s) && Untouched(s, section, key, other)
    requires NoBreak(value) && NoBreak(tail) && Trimmed(tail)
    ensures var id := BlockId(Global, "", "", section);
            var v := value + [SEPARATOR] + other + "=" + tail;
            !ProfileStore.Refused(v) ==>
              WrittenText(s, SetKey(EMPTY, id, [], key, v)).Some? &&
              GetKey(EMPTY, id, other) == None &&
              GetKey(ReadText(s, WrittenText(s, SetKey(EMPTY, id, [], key, v)).value), id, other) ==
                Some(Strip(Quote, tail))
  {
    hide CleanKey, SchemaOk, Join, SplitLines, ParseLines, Migrate, HeaderLine, Blank, StripRight, IsBreak, NoBreak,
         SplitAssignment, Header, LastPlain, WrittenText, Strip, Entry;
    var id := BlockId(Global, "", "", section);
    var v := value + [SEPARATOR] + other + "=" + tail;
    var line := Entry([], key, v);
    NewLine(key, v);
    var first, second := Entry([], key, value), Entry([], other, tail);
    SplitEntry(key, value, other, tail);
    EntryParses([], key, v);
    OneBlock(s, Header(id), id, line);
    assert SetKey(EMPTY, id, [], key, v) == Doc([], [Block(Header(id), id, [line])]);
    GlobalHeader(section);
    var h := HeaderLine(Header(id));
    HeaderNoBreak(Header(id));
    SplitHead(h, line + "\n");
    assert h + "\n" + (line + "\n") == h + "\n" + line + "\n";
    ReadTwo(s, id, h, key, value, other, tail);
    NothingReads(other);
  }

  lemma GlobalHeader(section: string)
    requires NoBreak(section)
    ensures var id := BlockId(Global, "", "", section);
            ParseHeader(Header(id)) == id && NoBreak(Header(id))
  {
    hide NoBreak, ParseHeader, Header, CanonicalMap;
    EmptyName();
    NoBreakEmpty();
    HeaderRoundTrip(BlockId(Global, "", "", section));
  }

  lemma NewLine(key: string, v: string)
    ensures SetLines([], [], key, v) == [Entry([], key, v)]
  {
    hide Entry, Targets;
  }

  lemma SplitEntry(key: string, value: string, other: string, tail: string)
    requires CleanKey(key) && CleanKey(other) && NoBreak(value) && NoBreak(tail) && Trimmed(tail)
    ensures var line := Entry([], key, value + [SEPARATOR] + other + "=" + tail);
            SplitLines(line + "\n") == [Entry([], key, value), Entry([], other, tail)] &&
            StripRight(White, line) == line
  {
    hide SplitLines, CleanKey, NoBreak, IsBreak, Entry, StripRight;
    EntryBreaks([], key, value);
    EntryBreaks([], other, tail);
    SeparatorBreaks();
    var first, second := Entry([], key, value), Entry([], other, tail);
    var line := Entry([], key, value + [SEPARATOR] + other + "=" + tail);
    Glued(key, value, other, tail);
    SplitAt(first, SEPARATOR, second + "\n");
    SplitHead(second, []);
    NothingSplits();
    assert second + "\n" + [] == second + "\n";
    assert line + "\n" == first + [SEPARATOR] + (second + "\n");
  }

  lemma SeparatorBreaks()
    ensures IsBreak(SEPARATOR) && SEPARATOR != '\r'
  {
  }

  lemma NothingSplits()
    ensures SplitLines([]) == []
  {
  }

  lemma Glued(key: string, value: string, other: string, tail: string)
    requires CleanKey(other) && Trimmed(tail)
    ensures var line := Entry([], key, value + [SEPARATOR] + other + "=" + tail);
            line == Entry([], key, value) + [SEPARATOR] + Entry([], other, tail) &&
            StripRight(White, line) == line
  {
    var line := Entry([], key, value + [SEPARATOR] + other + "=" + tail);
    var head := [] + key + "=" + value + [SEPARATOR] + other + "=";
    assert line == head + tail;
    if tail == [] {
      assert line[|line| - 1] == '=';
    } else {
      assert line[|line| - 1] == tail[|tail| - 1];
    }
    assert line == Entry([], key, value) + [SEPARATOR] + Entry([], other, tail);
  }

  lemma ReadTwo(s: Schema, id: BlockId, h: string, key: string, value: string, other: string, tail: string)
    requires SchemaOk(s) && !id.scope.Raw? && ParseHeader(Header(id)) == id && h == HeaderLine(Header(id))
    requires NoBreak(Header(id)) && id.section !in s.retired && CleanKey(key) && CleanKey(other) && key != other
    ensures var lines := [h] + [Entry([], key, value), Entry([], other, tail)];
            GetKey(ReadLines(s, lines), id, other) == Some(Strip(Quote, Trim(tail)))
  {
    hide CleanKey, SchemaOk, HeaderLike, Header, ParseHeader, SplitAssignment, Strip, Entry, Migrate, ParseLines,
         HeaderLine, Trim, NoBreak, LastPlain;
    var e1, e2 := Entry([], key, value), Entry([], other, tail);
    EntryParses([], key, value);
    EntryParses([], other, tail);
    var b := Block(Header(id), id, [e1, e2]);
    BlockParses(b);
    assert NoRetired(s, [b]);
    MigrateFixed(s, Doc([], [b]));
    assert LinesOf([b], id) == [e1, e2];
    LastOfTwo(e1, e2, other);
  }

  lemma LastOfTwo(first: string, last: string, key: string)
    requires Assigns(last, [], key)
    ensures LastPlain([first, last], key) == Some(Strip(Quote, SplitAssignment(last).value.value))
  {
    hide SplitAssignment, Strip;
  }
}
