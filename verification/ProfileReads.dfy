/** What the reads of a profile give: after keyed edits, and after a write and a
    read of the file's lines. */
module ProfileReads {
  import opened Wrappers
  import opened Text
  import opened IniLine
  import opened ProfileLines
  import opened ProfileText
  import opened ProfileNormal
  import opened ProfileRoundTrip
  import opened ProfileFixpoint
  import Sorting

  // Finding blocks

  lemma {:induction false} FindAlike(a: seq<Block>, b: seq<Block>, id: BlockId)
    requires |a| == |b| && forall i :: 0 <= i < |a| ==> a[i].id == b[i].id
    ensures Find(a, id) == Find(b, id)
  {
    if a != [] { FindAlike(a[1..], b[1..], id); }
  }

  lemma LinesOfMember(blocks: seq<Block>, b: Block)
    requires UniqueIds(blocks) && b in blocks
    ensures LinesOf(blocks, b.id) == b.lines
  {
    var i :| 0 <= i < |blocks| && blocks[i] == b;
    var r := Find(blocks, b.id);
    assert r == Some(i);
  }

  lemma LinesOfNone(blocks: seq<Block>, id: BlockId)
    requires forall b :: b in blocks ==> b.id != id
    ensures LinesOf(blocks, id) == []
  {
  }

  lemma UniqueFront(front: seq<Block>, b: Block)
    requires UniqueIds(front + [b])
    ensures UniqueIds(front) && forall x :: x in front ==> x.id != b.id
  {
    var blocks := front + [b];
    assert forall i :: 0 <= i < |front| ==> blocks[i] == front[i];
    assert blocks[|front|] == b;
  }

  /** A block with another id at the end changes no lookup. */
  lemma OtherLast(front: seq<Block>, b: Block, id: BlockId)
    requires UniqueIds(front + [b]) && b.id != id
    ensures LinesOf(front + [b], id) == LinesOf(front, id)
  {
    hide UniqueIds, LinesOf;
    var blocks := front + [b];
    UniqueFront(front, b);
    if x :| x in front && x.id == id {
      assert x in blocks;
      LinesOfMember(blocks, x);
      LinesOfMember(front, x);
    } else {
      LinesOfNone(front, id);
      LinesOfNone(blocks, id);
    }
  }

  /** Two lists of uniquely identified blocks with the same members read alike. */
  lemma SameMembersRead(a: seq<Block>, b: seq<Block>, id: BlockId)
    requires UniqueIds(a) && UniqueIds(b) && forall x :: x in a <==> x in b
    ensures LinesOf(a, id) == LinesOf(b, id)
  {
    hide UniqueIds, LinesOf;
    if x :| x in a && x.id == id {
      LinesOfMember(a, x);
      LinesOfMember(b, x);
    } else {
      LinesOfNone(a, id);
      LinesOfNone(b, id);
    }
  }

  lemma {:induction false} SortUnique(blocks: seq<Block>)
    requires UniqueIds(blocks)
    ensures UniqueIds(Sorting.Sort(BlockLe, blocks))
  {
    hide BlockLe;
    if blocks != [] {
      var front, x := blocks[..|blocks| - 1], blocks[|blocks| - 1];
      SortUnique(front);
      var s := Sorting.Sort(BlockLe, front);
      Sorting.SortMembers(BlockLe, front);
      assert forall y :: y in s ==> y.id != x.id;
      InsertUnique(s, x);
    }
  }

  lemma InsertUnique(s: seq<Block>, x: Block)
    requires UniqueIds(s) && forall y :: y in s ==> y.id != x.id
    ensures UniqueIds(Sorting.Insert(BlockLe, s, x))
  {
    hide BlockLe;
    var k := Sorting.InsertSplit(BlockLe, s, x);
    var r := s[..k] + [x] + s[k..];
    assert forall i :: 0 <= i < k ==> r[i] == s[i];
    assert forall i :: k < i < |r| ==> r[i] == s[i - 1];
  }

  lemma {:induction false} PruneUnique(blocks: seq<Block>)
    requires UniqueIds(blocks)
    ensures UniqueIds(Prune(blocks))
  {
    hide NonBlank;
    if blocks != [] {
      var front, last := blocks[..|blocks| - 1], blocks[|blocks| - 1];
      PruneUnique(front);
      PruneMembers(front);
      assert forall y :: y in Prune(front) ==> y.id != last.id;
    }
  }

  lemma FindUpdate(blocks: seq<Block>, i: nat, b: Block, id: BlockId)
    requires i < |blocks| && b.id == blocks[i].id
    ensures Find(blocks[i := b], id) == Find(blocks, id)
  {
    FindAlike(blocks[i := b], blocks, id);
  }

  lemma {:induction false} FindAppend(blocks: seq<Block>, b: Block, id: BlockId)
    ensures Find(blocks + [b], id) ==
            if Find(blocks, id).Some? then Find(blocks, id) else if b.id == id then Some(|blocks|) else None
  {
    if blocks != [] {
      FindAppend(blocks[1..], b, id);
      assert (blocks + [b])[1..] == blocks[1..] + [b];
    }
  }

  // Keyed edits

  /** Where the lines of a key end after a set. */
  lemma SetKeyEnds(doc: Doc, id: BlockId, prefix: string, key: string, value: string, id2: BlockId, k: string)
    requires !id.scope.Raw? && IsPrefix(prefix) && CleanKey(key)
    ensures LastEnd(LinesOf(SetKey(doc, id, prefix, key, value).sections, id2), k) ==
            if id2 == id && k == key && prefix == [] then Some(StripRight(White, Entry([], key, value)))
            else LastEnd(LinesOf(doc.sections, id2), k)
  {
    hide LastEnd, SetLines, CleanKey, IsPrefix, Header, Entry, StripRight, ParseHeader, CanonicalMap, NoBreak;
    match Find(doc.sections, id)
    case Some(i) =>
      var b := doc.sections[i];
      SetEnds(b.lines, prefix, key, value, k);
      FindUpdate(doc.sections, i, b.(lines := SetLines(b.lines, prefix, key, value)), id2);
    case None =>
      SetEnds([], prefix, key, value, k);
      FindAppend(doc.sections, Block(Header(id), id, SetLines([], prefix, key, value)), id2);
  }

  /** Setting a key changes what that key reads as, and nothing else. */
  lemma SetKeyReads(doc: Doc, id: BlockId, prefix: string, key: string, value: string, id2: BlockId, k: string)
    requires !id.scope.Raw? && IsPrefix(prefix) && CleanKey(key)
    ensures GetKey(SetKey(doc, id, prefix, key, value), id2, k) ==
            if id2 == id && k == key && prefix == [] then Some(Strip(Quote, Trim(value))) else GetKey(doc, id2, k)
  {
    hide LastEnd, LastPlain, LinesOf, SetKey, CleanKey, IsPrefix, StripRight, Entry, Strip, Trim, PlainValue;
    SetKeyEnds(doc, id, prefix, key, value, id2, k);
    LastEndReads(LinesOf(SetKey(doc, id, prefix, key, value).sections, id2), k);
    LastEndReads(LinesOf(doc.sections, id2), k);
    EntryValue(key, value);
  }

  lemma RemoveKeyReads(doc: Doc, id: BlockId, key: string, prefixes: Option<set<string>>, value: Option<string>,
      id2: BlockId, k: string)
    requires (prefixes.None? && value.None?) || (prefixes.Some? && [] !in prefixes.value)
    ensures GetKey(RemoveKey(doc, id, key, prefixes, value), id2, k) ==
            if id2 == id && k == key && prefixes.None? then None else GetKey(doc, id2, k)
  {
    hide LastPlain, RemoveLines;
    match Find(doc.sections, id)
    case Some(i) =>
      var b := doc.sections[i];
      RemoveReads(b.lines, key, prefixes, value, k);
      FindUpdate(doc.sections, i, b.(lines := RemoveLines(b.lines, key, prefixes, value)), id2);
    case None =>
      assert LastPlain([], k) == None by { NothingReads(k); }
  }

  lemma NothingReads(k: string)
    ensures LastPlain([], k) == None
  {
  }

  // What a read can give

  lemma AssignmentNoBreak(line: string)
    requires NoBreak(line) && SplitAssignment(line).Some?
    ensures NoBreak(SplitAssignment(line).value.value)
  {
    hide Strip, StripRight, StripLeft, IsBreak;
    StripNoBreak(White, line);
    var stripped := Trim(line);
    var (left, right) := Cut(stripped, '=').value;
    assert NoBreak(right) by {
      assert forall i :: 0 <= i < |right| ==> right[i] == stripped[|left| + 1 + i];
    }
    StripNoBreak(White, right);
  }

  /** A value read from the profile: quote-stripped and without line breaks. */
  ghost predicate ReadValue(v: string) { NoBreak(v) && Stripped(Quote, v) }

  lemma {:induction false} LastPlainValue(lines: seq<string>, key: string)
    requires forall l :: l in lines ==> NoBreak(l)
    ensures LastPlain(lines, key).Some? ==> ReadValue(LastPlain(lines, key).value)
  {
    hide SplitAssignment, HeaderLike, NoBreak, Strip;
    if lines != [] {
      var last := lines[|lines| - 1];
      assert last in lines;
      if Assigns(last, [], key) {
        AssignmentNoBreak(last);
        var v := SplitAssignment(last).value.value;
        StripNoBreak(Quote, v);
        QuoteStripped(v);
      } else {
        LastPlainValue(lines[..|lines| - 1], key);
      }
    }
  }

  lemma QuoteStripped(v: string)
    ensures Stripped(Quote, Strip(Quote, v))
  {
  }

  lemma GetKeyValue(doc: Doc, id: BlockId, key: string)
    requires DocOk(doc)
    ensures GetKey(doc, id, key).Some? ==> ReadValue(GetKey(doc, id, key).value)
  {
    hide LastPlain, HeaderLike, NoBreak, ParseHeader, ReadValue;
    var f := Find(doc.sections, id);
    if f.Some? {
      var b := doc.sections[f.value];
      assert b in doc.sections;
      assert forall l :: l in b.lines ==> InDoc(doc, l);
      LastPlainValue(doc.sections[f.value].lines, key);
    } else {
      LastPlainValue([], key);
    }
  }

  // The write pipeline

  ghost predicate SameEnds(a: seq<string>, b: seq<string>) { forall k :: LastEnd(a, k) == LastEnd(b, k) }

  lemma NonBlankEnds(a: seq<string>, b: seq<string>)
    requires NonBlank(a) == NonBlank(b)
    ensures SameEnds(a, b)
  {
    hide LastEnd, NonBlank;
    forall k ensures LastEnd(a, k) == LastEnd(b, k) {
      LastEndNonBlank(a, k);
      LastEndNonBlank(b, k);
    }
  }

  lemma SeparatedEnds(lines: seq<string>)
    ensures SameEnds(Separated(lines), lines)
  {
    hide Blank, LastEnd;
    BlankEmpty();
    if Separated(lines) != lines {
      assert Separated(lines)[..|lines|] == lines;
    }
    NonBlankEnds(Separated(lines), lines);
  }

  lemma StrippedEnds(lines: seq<string>)
    requires lines != []
    ensures SameEnds(lines[|lines| - 1 := StripRight(White, lines[|lines| - 1])], lines)
  {
    hide SplitAssignment, StripRight;
    var j := |lines| - 1;
    var r := lines[j := StripRight(White, lines[j])];
    StripRightSame(lines[j], []);
    StripTwice(lines[j]);
    assert r[..j] == lines[..j];
  }

  /** A live key ends where it did; a retired one is gone. */
  lemma {:induction false} DropRetiredEnds(s: Schema, id: BlockId, lines: seq<string>, key: string)
    ensures LastEnd(DropRetired(s, id, lines), key) ==
            if IsRetired(s, id.scope, id.section, key) then None else LastEnd(lines, key)
  {
    hide SplitAssignment, StripRight;
    if lines != [] {
      var front, last := lines[..|lines| - 1], lines[|lines| - 1];
      DropRetiredEnds(s, id, front, key);
      var kept := DropRetired(s, id, front);
      if !RetiredLine(s, id, last) {
        assert (kept + [last])[..|kept|] == kept;
      }
    }
  }

  lemma LinesOfAlike(a: seq<Block>, b: seq<Block>, id: BlockId)
    requires |a| == |b| && forall i :: 0 <= i < |a| ==> a[i].id == b[i].id && SameEnds(a[i].lines, b[i].lines)
    ensures SameEnds(LinesOf(a, id), LinesOf(b, id))
  {
    hide SameEnds, LastEnd;
    FindAlike(a, b, id);
    assert SameEnds([], []) by { NonBlankEnds([], []); }
  }

  lemma PrunedEnds(blocks: seq<Block>, id: BlockId)
    requires UniqueIds(blocks)
    ensures SameEnds(LinesOf(Prune(blocks), id), LinesOf(blocks, id))
  {
    hide UniqueIds, LinesOf, Prune, NonBlank, LastEnd;
    PruneUnique(blocks);
    PruneMembers(blocks);
    if x :| x in blocks && x.id == id {
      LinesOfMember(blocks, x);
      if NonBlank(x.lines) != [] {
        LinesOfMember(Prune(blocks), x);
      } else {
        assert forall y :: y in Prune(blocks) ==> y.id != id by {
          forall y | y in Prune(blocks) ensures y.id != id {
            if y.id == id {
              LinesOfMember(blocks, y);
              assert false;
            }
          }
        }
        LinesOfNone(Prune(blocks), id);
        NonBlankLast([]);
        NonBlankEnds(x.lines, []);
      }
    } else {
      LinesOfNone(Prune(blocks), id);
      LinesOfNone(blocks, id);
    }
  }

  /** What a write keeps of a key: nothing of a retired one. */
  function KeptEnd(s: Schema, id: BlockId, lines: seq<string>, key: string): Option<string> {
    if IsRetired(s, id.scope, id.section, key) then None else LastEnd(lines, key)
  }

  lemma CleanedEnds(s: Schema, blocks: seq<Block>, id: BlockId, key: string)
    ensures LastEnd(LinesOf(CleanBlocks(s, blocks), id), key) == KeptEnd(s, id, LinesOf(blocks, id), key)
  {
    hide Normalize, LastEnd, IsRetired, DropRetired;
    FindAlike(CleanBlocks(s, blocks), blocks, id);
    match Find(blocks, id)
    case Some(i) =>
      var kept := DropRetired(s, id, blocks[i].lines);
      DropRetiredEnds(s, id, blocks[i].lines, key);
      NormalizeNonBlank(kept);
      NonBlankEnds(Normalize(kept), kept);
    case None => NoEnd(key);
  }

  lemma NoEnd(key: string)
    ensures LastEnd([], key) == None
  {
  }

  lemma CleanEnds(s: Schema, doc: Doc, id: BlockId, key: string)
    requires UniqueIds(Migrate(s, doc).sections)
    ensures UniqueIds(Clean(s, doc).sections)
    ensures LastEnd(LinesOf(Clean(s, doc).sections, id), key) ==
            KeptEnd(s, id, LinesOf(Migrate(s, doc).sections, id), key)
  {
    hide Migrate, Prune, LinesOf, LastEnd, KeptEnd;
    var blocks := Migrate(s, doc).sections;
    CleanedEnds(s, blocks, id, key);
    assert UniqueIds(CleanBlocks(s, blocks));
    PruneUnique(CleanBlocks(s, blocks));
    PrunedEnds(CleanBlocks(s, blocks), id);
  }

  lemma NormalEnds(s: Schema, doc: Doc, id: BlockId, key: string)
    requires SchemaOk(s) && DocShaped(doc) && UniqueIds(Migrate(s, doc).sections)
    ensures UniqueIds(NormalForm(s, doc).sections)
    ensures LastEnd(LinesOf(NormalForm(s, doc).sections, id), key) ==
            KeptEnd(s, id, LinesOf(Migrate(s, doc).sections, id), key)
  {
    hide SchemaOk, DocShaped, Clean, LinesOf, LastEnd, BlockLe, Migrate, KeptEnd;
    CleanEnds(s, doc, id, key);
    CleanOk(s, doc);
    var c := Clean(s, doc);
    var sorted := Sorting.Sort(BlockLe, c.sections);
    SortUnique(c.sections);
    Sorting.SortMembers(BlockLe, c.sections);
    SameMembersRead(c.sections, sorted, id);
    assert CleanedBlocks(s, sorted);
    StripLastEnds(s, sorted, id);
    assert NormalForm(s, doc).sections == StripLast(sorted);
  }

  lemma StripLastEnds(s: Schema, blocks: seq<Block>, id: BlockId)
    requires CleanedBlocks(s, blocks) && UniqueIds(blocks)
    ensures UniqueIds(StripLast(blocks))
    ensures SameEnds(LinesOf(StripLast(blocks), id), LinesOf(blocks, id))
  {
    hide CleanedBlock, LinesOf, LastEnd;
    StripLastOk(s, blocks);
    var r := StripLast(blocks);
    forall i | 0 <= i < |blocks| ensures SameEnds(r[i].lines, blocks[i].lines) {
      assert blocks[i] in blocks;
      if i == |blocks| - 1 { StrippedEnds(blocks[i].lines); } else { NonBlankEnds(r[i].lines, blocks[i].lines); }
    }
    LinesOfAlike(r, blocks, id);
  }

  /** The lines that a write leaves, parsed again, end every live key in the line
      in which the migrated profile has it. */
  lemma WrittenEnds(s: Schema, doc: Doc, id: BlockId, key: string)
    requires SchemaOk(s) && DocShaped(doc) && UniqueIds(Migrate(s, doc).sections) && WrittenLines(s, doc).Some?
    ensures var d := ParseLines(WrittenLines(s, doc).value);
            LastEnd(LinesOf(d.sections, id), key) == KeptEnd(s, id, LinesOf(Migrate(s, doc).sections, id), key) &&
            UniqueIds(d.sections) && NoRetired(s, d.sections)
  {
    hide SchemaOk, DocShaped, NoRetired, WrittenLines, NormalForm, NormalDoc, PrintLines, ParseLines, LinesOf, LastEnd,
         Separated, Migrate, KeptEnd;
    WriteIsNormal(s, doc);
    var n := NormalForm(s, doc);
    NormalPrints(s, n);
    var d := ParseLines(WrittenLines(s, doc).value);
    RereadClean(s, d, n);
    NormalEnds(s, doc, id, key);
    forall i | 0 <= i < |n.sections| ensures SameEnds(d.sections[i].lines, n.sections[i].lines) {
      SeparatedEnds(n.sections[i].lines);
      NonBlankEnds(n.sections[i].lines, n.sections[i].lines);
    }
    LinesOfAlike(d.sections, n.sections, id);
  }

  lemma RereadClean(s: Schema, d: Doc, n: Doc)
    requires NormalDoc(s, n) && Reread(d, n.preamble, n.sections)
    ensures NoRetired(s, d.sections)
  {
    hide NormalDoc, Reread, NoRetired, Normalize;
    RereadCleans(s, d, n);
  }
}
