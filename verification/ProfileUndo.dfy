/** Adding an absent array entry and removing it again restores the file. */
module ProfileUndo {
  import opened Wrappers
  import opened Text
  import opened IniLine
  import opened ProfileLines
  import opened ProfileText
  import opened ProfileNormal
  import opened ProfileRoundTrip
  import opened ProfileFixpoint
  import opened ProfileReads
  import opened ProfileEdits
  import Sorting

  /** An array entry that an edit adds: a clean, live key and a trimmed value. */
  ghost predicate EntryOk(s: Schema, id: BlockId, key: string, value: string) {
    TargetOk(id) && CleanKey(key) && !IsRetired(s, id.scope, id.section, key) && NoBreak(value) && Trimmed(value)
  }

  /** The entry is in no line of its block. */
  ghost predicate Absent(lines: seq<string>, key: string, value: string) {
    forall l :: l in lines ==> !Targets(l, "+", key, value)
  }

  lemma NotRaw(s: Schema, id: BlockId, key: string, value: string)
    requires EntryOk(s, id, key, value)
    ensures !id.scope.Raw?
  {
  }

  lemma EntryLine(s: Schema, id: BlockId, key: string, value: string)
    requires EntryOk(s, id, key, value)
    ensures var e := Entry("+", key, value);
            !Blank(e) && !HeaderLike(e) && !RetiredLine(s, id, e) &&
            StripRight(White, e) == e && Removes(e, key, Some({"+"}), Some(value))
  {
    hide HeaderLike, Blank, NoBreak, CleanKey, SplitAssignment, TargetOk;
    assert IsPrefix("+");
    EntryParses("+", key, value);
    EntryEnds("+", key, value);
    assert SplitAssignment(Entry("+", key, value)) == Some(Assignment("+", key, value));
  }

  lemma EntryEnds(prefix: string, key: string, value: string)
    requires Trimmed(value)
    ensures StripRight(White, Entry(prefix, key, value)) == Entry(prefix, key, value)
  {
    var e := Entry(prefix, key, value);
    if value == [] {
      assert e[|e| - 1] == '=';
    } else {
      assert e[|e| - 1] == value[|value| - 1];
    }
  }

  lemma TrailOf(lines: seq<string>)
    requires lines == [] || !Blank(lines[|lines| - 1])
    ensures TrailStart(lines) == |lines| && TrailStart(lines + [[]]) == |lines|
  {
    hide Blank;
    BlankEmpty();
    var s := lines + [[]];
    assert s[..|s| - 1] == lines;
  }

  lemma AbsentUntargeted(lines: seq<string>, key: string, value: string)
    requires Absent(lines, key, value)
    ensures TargetIndex(lines, "+", key, value).None?
  {
    hide Targets;
    FirstTargetNone(lines, "+", key, value);
  }

  /** Adding the entry to lines that end in at most one separator. */
  lemma AddedLines(lines: seq<string>, key: string, value: string)
    requires lines == [] || !Blank(lines[|lines| - 1])
    requires Absent(lines, key, value)
    ensures var e := Entry("+", key, value);
            SetLines(lines, "+", key, value) == lines + [e] &&
            SetLines(lines + [[]], "+", key, value) == lines + [e, []]
  {
    hide Blank, Entry, Targets;
    TrailOf(lines);
    EmptyUntargeted(key, value);
    AbsentUntargeted(lines, key, value);
    AbsentUntargeted(lines + [[]], key, value);
  }

  lemma EmptyUntargeted(key: string, value: string)
    ensures !Targets([], "+", key, value)
    ensures forall ps, v :: !Removes([], key, ps, v)
  {
  }

  /** Removing it again. */
  lemma RemovedLines(s: Schema, id: BlockId, lines: seq<string>, key: string, value: string)
    requires EntryOk(s, id, key, value) && Absent(lines, key, value)
    ensures var e := Entry("+", key, value);
            RemoveLines(lines + [e], key, Some({"+"}), Some(value)) == lines &&
            RemoveLines(lines + [e, []], key, Some({"+"}), Some(value)) == lines + [[]]
  {
    hide Entry, Removes, RemoveLines, SplitAssignment, EntryOk, Targets, NoBreak, HeaderLike, Blank;
    var e := Entry("+", key, value);
    EntryLine(s, id, key, value);
    EmptyUntargeted(key, value);
    forall l | l in lines ensures !Removes(l, key, Some({"+"}), Some(value)) {
      AbsentKeeps(l, key, value);
    }
    RemoveNothing(lines, key, Some({"+"}), Some(value));
    RemoveAppend(lines, [e], key, Some({"+"}), Some(value));
    RemoveOne(e, key, Some({"+"}), Some(value));
    RemoveAppend(lines, [e, []], key, Some({"+"}), Some(value));
    RemoveAppend([e], [[]], key, Some({"+"}), Some(value));
    RemoveOne([], key, Some({"+"}), Some(value));
    assert [e] + [[]] == [e, []];
    assert lines + [] == lines;
  }

  lemma AbsentKeeps(line: string, key: string, value: string)
    requires !Targets(line, "+", key, value)
    ensures !Removes(line, key, Some({"+"}), Some(value))
  {
    hide SplitAssignment;
  }

  // The block is there already

  lemma AddedBlock(s: Schema, b: Block, key: string, value: string)
    requires CleanedBlock(s, b) && b.lines != [] && EntryOk(s, b.id, key, value)
    ensures CleanedBlock(s, b.(lines := b.lines + [Entry("+", key, value)]))
    ensures !Blank(b.lines[|b.lines| - 1])
  {
    hide Blank, HeaderLike, NoBreak, RetiredLine, ParseHeader, Entry, Removes, EntryOk, StripRight;
    EntryLine(s, b.id, key, value);
    NonBlankLast(b.lines);
    assert Canonical(b.lines + [Entry("+", key, value)]);
  }

  lemma AddedNormal(s: Schema, n: Doc, i: nat, key: string, value: string)
    requires NormalDoc(s, n) && i < |n.sections| && EntryOk(s, n.sections[i].id, key, value)
    ensures NormalDoc(s,
              Doc(n.preamble, n.sections[i := n.sections[i].(lines := n.sections[i].lines + [Entry("+", key, value)])]))
  {
    hide CleanedBlock, BlockLe, Comparable, LinesShaped, EntryOk, Entry, StripRight, RstripLines, Separated, StripLast,
         Orderable;
    var e := Entry("+", key, value);
    var b := n.sections[i];
    assert b in n.sections;
    AddedBlock(s, b, key, value);
    EntryLine(s, b.id, key, value);
    var blocks := n.sections[i := b.(lines := b.lines + [e])];
    AddedStripped(n.sections, i, e);
    assert CleanedBlocks(s, blocks);
    SameIdsNormal(s, n, blocks);
  }

  lemma SameIdsNormal(s: Schema, n: Doc, blocks: seq<Block>)
    requires NormalDoc(s, n) && |blocks| == |n.sections|
    requires forall i :: 0 <= i < |blocks| ==> blocks[i].id == n.sections[i].id
    requires CleanedBlocks(s, blocks) && StripLast(blocks) == blocks
    ensures NormalDoc(s, Doc(n.preamble, blocks))
  {
    hide CleanedBlocks, BlockLe, Comparable, LinesShaped, StripLast, RstripLines, Separated;
    AscendingIds(n.sections, blocks);
    forall y | y in blocks ensures exists x :: x in n.sections && x.id == y.id {
      var j :| 0 <= j < |blocks| && blocks[j] == y;
      assert n.sections[j] in n.sections;
    }
    OrderableIds(n.sections, blocks);
  }

  lemma AddedStripped(blocks: seq<Block>, i: nat, e: string)
    requires i < |blocks| && StripLast(blocks) == blocks && StripRight(White, e) == e
    ensures var grown := blocks[i := blocks[i].(lines := blocks[i].lines + [e])];
            StripLast(grown) == grown
  {
    hide StripRight;
    var grown := blocks[i := blocks[i].(lines := blocks[i].lines + [e])];
    var k := |blocks| - 1;
    if grown[k].lines != [] {
      if i < k {
        LastLineStripped(blocks);
      }
      var j := |grown[k].lines| - 1;
      assert StripRight(White, grown[k].lines[j]) == grown[k].lines[j];
      assert grown[k].lines[j := grown[k].lines[j]] == grown[k].lines;
      assert grown[k := grown[k]] == grown;
    }
  }

  lemma LastLineStripped(blocks: seq<Block>)
    requires blocks != [] && blocks[|blocks| - 1].lines != [] && StripLast(blocks) == blocks
    ensures var lines := blocks[|blocks| - 1].lines;
            StripRight(White, lines[|lines| - 1]) == lines[|lines| - 1]
  {
    hide StripRight;
    var k := |blocks| - 1;
    var j := |blocks[k].lines| - 1;
    assert StripLast(blocks)[k].lines[j] == StripRight(White, blocks[k].lines[j]);
  }

  /** Adding and removing where the block exists. */
  lemma UndoInPlace(s: Schema, n: Doc, d: Doc, i: nat, key: string, value: string)
    requires SchemaOk(s) && NormalDoc(s, n) && Reread(d, n.preamble, n.sections) && NoRetired(s, d.sections)
    requires i < |n.sections| && Find(d.sections, n.sections[i].id) == Some(i)
    requires EntryOk(s, n.sections[i].id, key, value) && Absent(d.sections[i].lines, key, value)
    ensures var id := n.sections[i].id;
            var w := WrittenLines(s, SetKey(d, id, "+", key, value));
            w.Some? &&
            WrittenLines(s, RemoveKey(ReadLines(s, w.value), id, key, Some({"+"}), Some(value))) ==
              Some(PrintLines(n.preamble, n.sections))
  {
    hide SchemaOk, NormalDoc, WrittenLines, PrintLines, EntryOk, CleanedBlock, Entry, SetLines, RemoveLines, Targets,
         RetiredLine, Clean, Header, Normalize, Blank;
    var b := n.sections[i];
    NotRaw(s, b.id, key, value);
    var e := Entry("+", key, value);
    NormalBlocks(s, n);
    var n1 := Doc(n.preamble, n.sections[i := b.(lines := b.lines + [e])]);
    AddedNormal(s, n, i, key, value);
    var d1 := SetKey(d, b.id, "+", key, value);
    AddInPlace(s, n, d, i, b, key, value);
    assert d1 == Edited(d, Set(b.id, "+", key, value));
    WrittenAs(s, d1, n1);
    ReadNormal(s, n1);
    var d2 := ReadLines(s, PrintLines(n1.preamble, n1.sections));
    RemoveInPlace(s, n, d, d2, i, key, value);
    WrittenAs(s, RemoveKey(d2, b.id, key, Some({"+"}), Some(value)), n);
  }

  lemma NormalBlocks(s: Schema, n: Doc)
    requires NormalDoc(s, n)
    ensures CleanedBlocks(s, n.sections) && Prune(n.sections) == n.sections
    ensures n.sections != [] ==> Separated(n.preamble) == n.preamble
  {
    hide CleanedBlock, BlockLe, Comparable, LinesShaped, NonBlank, StripLast, RstripLines, Separated;
    forall b | b in n.sections ensures NonBlank(b.lines) != [] {
      CleanedLines(s, b);
    }
    PruneAll(n.sections);
  }

  /** The document with one more line in block i. */
  function Grown(n: Doc, i: nat, line: string): Doc {
    if i < |n.sections| then
      Doc(n.preamble, n.sections[i := n.sections[i].(lines := n.sections[i].lines + [line])])
    else n
  }

  lemma AddInPlace(s: Schema, n: Doc, d: Doc, i: nat, b: Block, key: string, value: string)
    requires SchemaOk(s) && NormalDoc(s, n) && CleanedBlocks(s, n.sections)
    requires Reread(d, n.preamble, n.sections) && NoRetired(s, d.sections)
    requires i < |n.sections| && b == n.sections[i] && Find(d.sections, b.id) == Some(i)
    requires EntryOk(s, b.id, key, value) && Absent(LinesOf(d.sections, b.id), key, value)
    ensures Clean(s, Edited(d, Set(b.id, "+", key, value))) == Grown(n, i, Entry("+", key, value))
    ensures Absent(b.lines, key, value)
  {
    hide SchemaOk, NormalDoc, EntryOk, CleanedBlock, Entry, SetLines, RetiredLine, Clean, Header, Normalize, Prune,
         NoRetired, Reread, CleansTo, Absent;
    NotRaw(s, b.id, key, value);
    var e := Entry("+", key, value);
    assert b in n.sections;
    AddedBlock(s, b, key, value);
    RereadCleans(s, d, n);
    RereadLine(d, n, i);
    AddOneLine(s, b, d.sections[i].lines, key, value);
    var d1 := SetKey(d, b.id, "+", key, value);
    var blocks := n.sections[i := b.(lines := b.lines + [e])];
    var grown := d.sections[i].(lines := SetLines(d.sections[i].lines, "+", key, value));
    assert d1 == d.(sections := d.sections[i := grown]);
    EditedRetired(s, d.sections, i, grown);
    CleansToUpdate(s, d.sections, n.sections, i, grown, blocks[i]);
    CleanedTo(s, d1, blocks);
    assert CleanedBlocks(s, blocks);
    PruneCleaned(s, blocks);
  }

  lemma RereadLine(d: Doc, n: Doc, i: nat)
    requires Reread(d, n.preamble, n.sections) && i < |n.sections|
    ensures |d.sections| == |n.sections|
    ensures var b := n.sections[i];
            d.sections[i] == b || d.sections[i] == b.(lines := Separated(b.lines))
  {
    hide Separated;
  }

  lemma CleansToUpdate(s: Schema, sections: seq<Block>, blocks: seq<Block>, i: nat, b: Block, c: Block)
    requires CleansTo(s, sections, blocks) && i < |sections| && NoRetired(s, sections[i := b])
    requires c == b.(lines := Normalize(b.lines))
    ensures CleansTo(s, sections[i := b], blocks[i := c])
  {
    hide NoRetired, Normalize;
  }

  lemma AddOneLine(s: Schema, b: Block, lines: seq<string>, key: string, value: string)
    requires CleanedBlock(s, b) && b.lines != [] && EntryOk(s, b.id, key, value)
    requires (lines == b.lines || lines == Separated(b.lines)) && Absent(lines, key, value)
    ensures Normalize(SetLines(lines, "+", key, value)) == b.lines + [Entry("+", key, value)]
    ensures forall l :: l in SetLines(lines, "+", key, value) ==> l in lines || !RetiredLine(s, b.id, l)
    ensures Absent(b.lines, key, value)
  {
    hide EntryOk, CleanedBlock, Entry, SetLines, Targets, RetiredLine, Normalize, Blank, Separated;
    var e := Entry("+", key, value);
    CleanedLines(s, b);
    AddedBlock(s, b, key, value);
    EntryLine(s, b.id, key, value);
    AddedLines(b.lines, key, value);
    CleanedLines(s, b.(lines := b.lines + [e]));
    assert b.lines + [e, []] == b.lines + [e] + [[]];
    SetLinesMembers(lines, "+", key, value);
  }

  lemma EditedRetired(s: Schema, blocks: seq<Block>, i: nat, b: Block)
    requires i < |blocks| && b.id == blocks[i].id && NoRetired(s, blocks)
    requires forall l :: l in b.lines ==> l in blocks[i].lines || !RetiredLine(s, b.id, l)
    ensures NoRetired(s, blocks[i := b])
  {
    hide RetiredLine;
    assert blocks[i] in blocks;
  }

  lemma PruneCleaned(s: Schema, blocks: seq<Block>)
    requires CleanedBlocks(s, blocks)
    ensures Prune(blocks) == blocks
  {
    hide CleanedBlock, NonBlank;
    forall b | b in blocks ensures NonBlank(b.lines) != [] {
      CleanedLines(s, b);
    }
    PruneAll(blocks);
  }

  lemma RemoveInPlace(s: Schema, n: Doc, d: Doc, d2: Doc, i: nat, key: string, value: string)
    requires SchemaOk(s) && NormalDoc(s, n) && CleanedBlocks(s, n.sections) && Prune(n.sections) == n.sections
    requires i < |n.sections| && EntryOk(s, n.sections[i].id, key, value) && Absent(n.sections[i].lines, key, value)
    requires Reread(d, n.preamble, n.sections) && Find(d.sections, n.sections[i].id) == Some(i)
    requires Reread(d2, n.preamble,
               n.sections[i := n.sections[i].(lines := n.sections[i].lines + [Entry("+", key, value)])])
    requires NoRetired(s, d2.sections) && Separated(n.preamble) == n.preamble
    ensures Clean(s, RemoveKey(d2, n.sections[i].id, key, Some({"+"}), Some(value))) == n
  {
    hide SchemaOk, NormalDoc, EntryOk, CleanedBlock, Entry, RemoveLines, Targets, RetiredLine, Clean, Normalize, Blank,
         Prune;
    var b := n.sections[i];
    var e := Entry("+", key, value);
    var grown := b.(lines := b.lines + [e]);
    assert b in n.sections;
    AddedBlock(s, b, key, value);
    CleanedLines(s, b);
    CleanedLines(s, grown);
    assert b.lines + [e] + [[]] == b.lines + [e, []];
    RemovedLines(s, b.id, b.lines, key, value);
    FindAlike(d2.sections, d.sections, b.id);
    var d3 := RemoveKey(d2, b.id, key, Some({"+"}), Some(value));
    RemoveMembers(d2.sections[i].lines, key, Some({"+"}), Some(value));
    EditedRetired(s, d2.sections, i, d3.sections[i]);
    forall j | 0 <= j < |n.sections| ensures Normalize(d3.sections[j].lines) == n.sections[j].lines {
      assert n.sections[j] in n.sections;
      CleanedLines(s, n.sections[j]);
    }
    CleanedTo(s, d3, n.sections);
  }

  // The block is new

  lemma SetNothing(key: string, value: string)
    ensures SetLines([], "+", key, value) == [Entry("+", key, value)]
  {
    hide Entry, Targets;
  }

  lemma NewBlockCleans(s: Schema, id: BlockId, key: string, value: string)
    requires EntryOk(s, id, key, value)
    ensures var nb := Block(Header(id), id, [Entry("+", key, value)]);
            CleanedBlock(s, nb) && Normalize(nb.lines) == nb.lines
  {
    hide Blank, HeaderLike, NoBreak, RetiredLine, ParseHeader, Entry, Removes, StripRight, TargetOk, Header, CleanKey,
         Normalize;
    EntryLine(s, id, key, value);
    HeaderRoundTrip(id);
    var lines := [Entry("+", key, value)];
    assert Canonical(lines);
    NormalizeFixed(lines);
  }

  /** The blocks of the re-read file where id has no block yet. */
  ghost predicate NewTo(blocks: seq<Block>, id: BlockId) {
    forall b :: b in blocks ==> b.id != id
  }

  lemma NewToForm(s: Schema, d: Doc, n: Doc, id: BlockId)
    requires Reread(d, n.preamble, n.sections) && Find(d.sections, id).None?
    ensures NewTo(n.sections, id) && NewTo(d.sections, id)
  {
    hide Separated;
    forall b | b in n.sections ensures b.id != id {
      var i :| 0 <= i < |n.sections| && n.sections[i] == b;
      assert d.sections[i].id == b.id;
    }
  }

  /** Adding the entry adds its block to the normal form, in the place sorting gives it. */
  lemma AddNew(s: Schema, n: Doc, d: Doc, id: BlockId, key: string, value: string) returns (k: nat)
    requires SchemaOk(s) && NormalDoc(s, n) && Reread(d, n.preamble, n.sections) && NoRetired(s, d.sections)
    requires Find(d.sections, id).None? && EntryOk(s, id, key, value)
    ensures k <= |n.sections|
    ensures NormalForm(s, Edited(d, Set(id, "+", key, value))) ==
            NewForm(n, id, k, [Entry("+", key, value)])
  {
    hide SchemaOk, EntryOk, CleanedBlock, Entry, SetLines, RetiredLine, Clean, Header, Normalize, Prune, Reread,
         BlockLe, Separated, LinesShaped, Comparable, RstripLines, StripRight;
    NotRaw(s, id, key, value);
    var e := Entry("+", key, value);
    var nb := Block(Header(id), id, [e]);
    EntryLine(s, id, key, value);
    SetNothing(key, value);
    NewBlockCleans(s, id, key, value);
    RereadCleans(s, d, n);
    var d1 := Edited(d, Set(id, "+", key, value));
    assert d1 == d.(sections := d.sections + [nb]);
    CleansToAppend(s, d.sections, n.sections, nb);
    CleanedTo(s, d1, n.sections + [nb]);
    assert CleanedBlocks(s, n.sections + [nb]);
    PruneCleaned(s, n.sections + [nb]);
    Sorting.SortFixed(BlockLe, n.sections);
    assert (n.sections + [nb])[..|n.sections|] == n.sections;
    k := Sorting.InsertSplit(BlockLe, n.sections, nb);
    NewStripped(n.sections, k, nb, e);
  }

  /** The normal form with a new block in place k. */
  function NewForm(n: Doc, id: BlockId, k: nat, lines: seq<string>): Doc
    requires !id.scope.Raw? && k <= |n.sections|
  {
    Doc(Separated(n.preamble), n.sections[..k] + [Block(Header(id), id, lines)] + n.sections[k..])
  }

  lemma CleansToAppend(s: Schema, sections: seq<Block>, blocks: seq<Block>, nb: Block)
    requires CleansTo(s, sections, blocks) && CleanedBlock(s, nb) && Normalize(nb.lines) == nb.lines
    ensures CleansTo(s, sections + [nb], blocks + [nb])
  {
    hide RetiredLine, Normalize, BlockShaped, Canonical;
  }

  lemma NewStripped(blocks: seq<Block>, k: nat, nb: Block, e: string)
    requires StripLast(blocks) == blocks && k <= |blocks| && nb.lines == [e] && StripRight(White, e) == e
    ensures var r := blocks[..k] + [nb] + blocks[k..];
            StripLast(r) == r
  {
    hide StripRight;
    var r := blocks[..k] + [nb] + blocks[k..];
    var j := |r| - 1;
    if k < |blocks| {
      assert r[j] == blocks[|blocks| - 1];
      if r[j].lines != [] { LastLineStripped(blocks); }
    }
    if r[j].lines != [] {
      var l := |r[j].lines| - 1;
      assert r[j].lines[l := r[j].lines[l]] == r[j].lines;
      assert r[j := r[j]] == r;
    }
  }

  /** Removing the only entry of the new block leaves nothing of it. */
  lemma RemoveNew(s: Schema, n: Doc, d2: Doc, id: BlockId, k: nat, key: string, value: string)
    requires SchemaOk(s) && NormalDoc(s, n) && NewTo(n.sections, id) && EntryOk(s, id, key, value)
    requires k <= |n.sections| && NoRetired(s, d2.sections)
    requires Reread(d2, NewForm(n, id, k, [Entry("+", key, value)]).preamble,
               NewForm(n, id, k, [Entry("+", key, value)]).sections)
    ensures Clean(s, Edited(d2, DropEntries(id, key, Some(value)))) == Doc(d2.preamble, n.sections)
  {
    hide SchemaOk, EntryOk, Entry, RemoveLines, RetiredLine, Clean, Header, Normalize, Prune, NormalDoc, Separated,
         Removes, Reread, CleansTo, NoRetired, CleanedBlocks, Find;
    NotRaw(s, id, key, value);
    var e := Entry("+", key, value);
    var nb := Block(Header(id), id, [e]);
    var n1 := NewForm(n, id, k, [e]);
    assert n1.sections[k] == nb;
    assert forall j :: 0 <= j < k ==> n1.sections[j] == n.sections[j];
    assert forall j :: k < j < |n1.sections| ==> n1.sections[j] == n.sections[j - 1];
    RereadLine(d2, n1, k);
    FindNew(d2, n1, id, k);
    NewLines(s, id, d2.sections[k].lines, key, value);
    var d3 := Edited(d2, DropEntries(id, key, Some(value)));
    var rest := d2.sections[k].(lines := RemoveLines(d2.sections[k].lines, key, Some({"+"}), Some(value)));
    assert d3 == d2.(sections := d2.sections[k := rest]);
    RemoveMembers(d2.sections[k].lines, key, Some({"+"}), Some(value));
    EditedRetired(s, d2.sections, k, rest);
    var empty := nb.(lines := []);
    var blocks := n1.sections[k := empty];
    RestCleans(s, n, n1, d2, k, rest, empty);
    CleanedTo(s, d3, blocks);
    PruneNew(s, n, k, empty);
    assert blocks == n.sections[..k] + [empty] + n.sections[k..];
  }

  lemma FindNew(d2: Doc, n1: Doc, id: BlockId, k: nat)
    requires Reread(d2, n1.preamble, n1.sections) && k < |n1.sections| && n1.sections[k].id == id
    requires forall j :: 0 <= j < |n1.sections| && j != k ==> n1.sections[j].id != id
    ensures Find(d2.sections, id) == Some(k)
  {
    hide Separated;
    assert d2.sections[k].id == id;
    assert forall j :: 0 <= j < |d2.sections| && j != k ==> d2.sections[j].id != id;
  }

  lemma NewLines(s: Schema, id: BlockId, lines: seq<string>, key: string, value: string)
    requires EntryOk(s, id, key, value)
    requires lines == [Entry("+", key, value)] || lines == Separated([Entry("+", key, value)])
    ensures Normalize(RemoveLines(lines, key, Some({"+"}), Some(value))) == []
  {
    hide EntryOk, Entry, RemoveLines, Normalize, Blank;
    var e := Entry("+", key, value);
    var none, sep: seq<string> := [], [[]];
    EmptyNormal();
    RemovedLines(s, id, none, key, value);
    assert none + [e] == [e] && none + [e, []] == [e] + sep && none + sep == sep;
  }

  lemma EmptyNormal()
    ensures Normalize([]) == [] && Normalize([[]]) == []
  {
    var one: seq<string> := [[]];
    assert one[..0] == [];
    assert Collapse(one) == [];
  }

  lemma RestCleans(s: Schema, n: Doc, n1: Doc, d2: Doc, k: nat, rest: Block, empty: Block)
    requires NormalDoc(s, n) && k < |n1.sections| && Reread(d2, n1.preamble, n1.sections)
    requires |n1.sections| == |n.sections| + 1
    requires forall j :: 0 <= j < k ==> n1.sections[j] == n.sections[j]
    requires forall j :: k < j < |n1.sections| ==> n1.sections[j] == n.sections[j - 1]
    requires NoRetired(s, d2.sections[k := rest]) && empty == rest.(lines := Normalize(rest.lines))
    ensures CleansTo(s, d2.sections[k := rest], n1.sections[k := empty])
  {
    hide CleanedBlock, RetiredLine, Normalize, BlockLe, Separated, LinesShaped, Comparable, StripLast, RstripLines;
    forall j | 0 <= j < |n1.sections| && j != k ensures Normalize(d2.sections[j].lines) == n1.sections[j].lines {
      if j < k {
        assert n.sections[j] in n.sections;
        CleanedLines(s, n.sections[j]);
      } else {
        assert n.sections[j - 1] in n.sections;
        CleanedLines(s, n.sections[j - 1]);
      }
    }
  }

  lemma PruneNew(s: Schema, n: Doc, k: nat, empty: Block)
    requires NormalDoc(s, n) && k <= |n.sections| && empty.lines == []
    ensures Prune(n.sections[..k] + [empty] + n.sections[k..]) == n.sections
  {
    hide CleanedBlock, BlockLe, Separated, LinesShaped, Comparable, StripLast, RstripLines, Prune, NonBlank;
    PruneAppend(n.sections[..k] + [empty], n.sections[k..]);
    PruneAppend(n.sections[..k], [empty]);
    assert CleanedBlocks(s, n.sections[..k]) && CleanedBlocks(s, n.sections[k..]);
    PruneCleaned(s, n.sections[..k]);
    PruneCleaned(s, n.sections[k..]);
    PruneOne(empty);
    assert n.sections == n.sections[..k] + [] + n.sections[k..];
  }

  lemma PruneOne(b: Block)
    requires b.lines == []
    ensures Prune([b]) == []
  {
    assert [b][..0] == [];
  }

  lemma RstripSeparated(lines: seq<string>)
    requires lines != []
    ensures RstripLines(Separated(lines)) == RstripLines(lines)
  {
    hide Blank;
    assert StripRight(White, []) == [];
    if Separated(lines) != lines {
      assert Separated(lines)[..|lines|] == lines;
    }
  }

  /** Adding and removing where the block is new. */
  lemma UndoNew(s: Schema, n: Doc, d: Doc, id: BlockId, key: string, value: string)
    requires SchemaOk(s) && NormalDoc(s, n) && Reread(d, n.preamble, n.sections) && NoRetired(s, d.sections) &&
             DocShaped(d)
    requires Find(d.sections, id).None? && EntryOk(s, id, key, value)
    requires WrittenLines(s, Edited(d, Set(id, "+", key, value))).Some?
    ensures var w := WrittenLines(s, Edited(d, Set(id, "+", key, value)));
            WrittenLines(s, Edited(ReadLines(s, w.value), DropEntries(id, key, Some(value)))) ==
              Some(PrintLines(n.preamble, n.sections))
  {
    hide SchemaOk, NormalDoc, WrittenLines, PrintLines, EntryOk, Entry, Edited, NormalForm, Reread, NoRetired, Header,
         DocShaped, Clean, ReadLines, Separated;
    NotRaw(s, id, key, value);
    var k := AddNew(s, n, d, id, key, value);
    var d1 := Edited(d, Set(id, "+", key, value));
    EntryEdit(s, id, key, value);
    EditedShaped(d, Set(id, "+", key, value));
    WriteIsNormal(s, d1);
    var n1 := NewForm(n, id, k, [Entry("+", key, value)]);
    ReadNormal(s, n1);
    var d2 := ReadLines(s, PrintLines(n1.preamble, n1.sections));
    NewToForm(s, d, n, id);
    RemoveNew(s, n, d2, id, k, key, value);
    NewPreamble(s, n, n1, d2);
    RemovedWritten(s, n, Edited(d2, DropEntries(id, key, Some(value))));
  }

  lemma EntryEdit(s: Schema, id: BlockId, key: string, value: string)
    requires EntryOk(s, id, key, value)
    ensures EditShaped(Set(id, "+", key, value)) && NoBreak(Entry("+", key, value))
  {
    assert IsPrefix("+");
    EntryBreaks("+", key, value);
    hide NoBreak, TargetOk, CleanKey;
  }

  lemma NewPreamble(s: Schema, n: Doc, n1: Doc, d2: Doc)
    requires Reread(d2, n1.preamble, n1.sections) && n1.sections != [] && n1.preamble == Separated(n.preamble)
    ensures d2.preamble == Separated(n.preamble)
  {
    hide Separated;
    SeparatedFixed(n.preamble);
  }

  lemma RemovedWritten(s: Schema, n: Doc, d3: Doc)
    requires SchemaOk(s) && NormalDoc(s, n)
    requires Clean(s, d3) == Doc(Separated(n.preamble), n.sections)
    ensures WrittenLines(s, d3) == Some(PrintLines(n.preamble, n.sections))
  {
    hide SchemaOk, CleanedBlocks, Clean, Separated, BlockLe, Comparable, RstripLines, StripLast, LinesShaped;
    if n.sections == [] {
      assert n.preamble != [] by { RstripNonEmpty(n.preamble); }
      RstripSeparated(n.preamble);
      PrintNothing(n.preamble);
      PrintNothing(Separated(n.preamble));
    } else {
      WrittenAs(s, d3, n);
    }
  }

  lemma RstripNonEmpty(lines: seq<string>)
    ensures RstripLines(lines) != []
  {
  }

  /** For any file that a write left: adding an absent array entry and removing it,
      each with its own read and write, restores the file's text. */
  lemma AddThenRemove(s: Schema, doc: Doc, id: BlockId, key: string, value: string)
    requires SchemaOk(s) && DocOk(doc) && EntryOk(s, id, key, value)
    requires WrittenText(s, doc).Some?
    requires Absent(LinesOf(ReadText(s, WrittenText(s, doc).value).sections, id), key, value)
    requires Run(s, WrittenText(s, doc).value, [Set(id, "+", key, value)]).Some?
    ensures Run(s, WrittenText(s, doc).value, [Set(id, "+", key, value), DropEntries(id, key, Some(value))]) ==
            WrittenText(s, doc)
  {
    hide SchemaOk, EntryOk, DocShaped, InDoc, WrittenLines, NormalForm, NormalDoc, PrintLines, ReadLines, Reread,
         NoRetired, Edited, Absent, Entry, Header, Find, NoBreak;
    var add, drop := Set(id, "+", key, value), DropEntries(id, key, Some(value));
    assert [add, drop][..1] == [add] && [add][..0] == [];
    WriteIsNormal(s, doc);
    var n := NormalForm(s, doc);
    WrittenUnbroken(s, doc);
    WrittenSome(s, doc);
    SplitJoin(PrintLines(n.preamble, n.sections));
    ReadNormal(s, n);
    var t := WrittenText(s, doc).value;
    var d := ReadText(s, t);
    ReadOk(s, t);
    EntryEdit(s, id, key, value);
    EditedShaped(d, add);
    var d1 := Edited(d, add);
    WrittenUnbroken(s, d1);
    WrittenSome(s, d1);
    SplitJoin(WrittenLines(s, d1).value);
    UndoLines(s, n, d, id, key, value);
  }

  lemma UndoLines(s: Schema, n: Doc, d: Doc, id: BlockId, key: string, value: string)
    requires SchemaOk(s) && NormalDoc(s, n) && Reread(d, n.preamble, n.sections) && NoRetired(s, d.sections) &&
             DocShaped(d)
    requires EntryOk(s, id, key, value) && Absent(LinesOf(d.sections, id), key, value)
    requires WrittenLines(s, Edited(d, Set(id, "+", key, value))).Some?
    ensures var w := WrittenLines(s, Edited(d, Set(id, "+", key, value)));
            WrittenLines(s, Edited(ReadLines(s, w.value), DropEntries(id, key, Some(value)))) ==
              Some(PrintLines(n.preamble, n.sections))
  {
    hide SchemaOk, EntryOk, DocShaped, WrittenLines, NormalDoc, PrintLines, ReadLines, NoRetired, Absent, Entry, Header,
         Find, SetKey, RemoveKey, Separated;
    NotRaw(s, id, key, value);
    match Find(d.sections, id)
    case None => UndoNew(s, n, d, id, key, value);
    case Some(i) => UndoInPlace(s, n, d, i, key, value);
  }
}
