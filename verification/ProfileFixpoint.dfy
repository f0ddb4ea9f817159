/** What a write leaves on disk is in normal form, and normal forms are fixed
    points: reading one and writing it again gives the same lines. */
module ProfileFixpoint {
  import opened Wrappers
  import opened Text
  import opened IniLine
  import opened ProfileLines
  import opened ProfileText
  import opened ProfileNormal
  import opened ProfileRoundTrip
  import Sorting

  /** The blocks with the end of their last line stripped. */
  function StripLast(blocks: seq<Block>): (r: seq<Block>)
    ensures |r| == |blocks|
  {
    if blocks == [] || blocks[|blocks| - 1].lines == [] then blocks
    else
      var k := |blocks| - 1;
      var j := |blocks[k].lines| - 1;
      blocks[k := blocks[k].(lines := blocks[k].lines[j := StripRight(White, blocks[k].lines[j])])]
  }

  /** The document whose print a write leaves. */
  function NormalForm(s: Schema, doc: Doc): Doc {
    var c := Clean(s, doc);
    var sorted := Sorting.Sort(BlockLe, c.sections);
    if sorted == [] then Doc(RstripLines(c.preamble), [])
    else Doc(Separated(c.preamble), StripLast(sorted))
  }

  ghost predicate NormalDoc(s: Schema, n: Doc) {
    LinesShaped(n.preamble) && CleanedBlocks(s, n.sections) && Orderable(n.sections) &&
    Sorting.Ascending(BlockLe, n.sections) && StripLast(n.sections) == n.sections &&
    if n.sections == [] then RstripLines(n.preamble) == n.preamble else Separated(n.preamble) == n.preamble
  }

  // The end of the text

  lemma {:induction false} RstripFixed(lines: seq<string>)
    ensures RstripLines(RstripLines(lines)) == RstripLines(lines)
    decreases |lines|
  {
    if lines != [] {
      var last := StripRight(White, lines[|lines| - 1]);
      if last == [] && |lines| > 1 {
        RstripFixed(lines[..|lines| - 1]);
      } else {
        var r := lines[..|lines| - 1] + [last];
        assert r[..|r| - 1] == lines[..|lines| - 1];
        assert StripRight(White, last) == last;
      }
    } else {
      assert RstripLines([[]]) == [[]] by {
        var one: seq<string> := [[]];
        assert one[..0] == [];
        assert StripRight(White, []) == [];
      }
    }
  }

  lemma NonBlankStrips(line: string)
    requires !Blank(line)
    ensures StripRight(White, line) != []
  {
    TrimOfStripRight(line);
  }

  lemma RstripNonBlank(lines: seq<string>)
    requires lines != [] && !Blank(lines[|lines| - 1])
    ensures RstripLines(lines) == lines[|lines| - 1 := StripRight(White, lines[|lines| - 1])]
  {
    hide Blank;
    NonBlankStrips(lines[|lines| - 1]);
    var k := |lines| - 1;
    assert lines[..k] + [StripRight(White, lines[k])] == lines[k := StripRight(White, lines[k])];
  }

  lemma StripLineOk(line: string)
    requires !HeaderLike(line)
    ensures !HeaderLike(StripRight(White, line))
  {
    hide HeaderLike, StripRight;
    StripRightSame(line, []);
  }

  lemma {:induction false} RstripOk(lines: seq<string>)
    requires LinesShaped(lines)
    ensures LinesShaped(RstripLines(lines))
    decreases |lines|
  {
    hide HeaderLike, NoBreak, StripRight;
    EmptyHeader();
    if lines != [] {
      var k := |lines| - 1;
      assert lines[k] in lines;
      StripLineOk(lines[k]);
      RstripOk(lines[..k]);
    }
  }

  // Printing

  lemma {:induction false} PrintSeparated(preamble: seq<string>, blocks: seq<Block>)
    requires blocks != []
    ensures PrintLines(Separated(preamble), blocks) == PrintLines(preamble, blocks)
    decreases |blocks|
  {
    hide HeaderLine, Separated;
    if |blocks| == 1 {
      assert blocks[..0] == [];
      SeparatedFixed(preamble);
    } else {
      PrintSeparated(preamble, blocks[..|blocks| - 1]);
    }
  }

  lemma SeparatedFixed(lines: seq<string>)
    ensures Separated(Separated(lines)) == Separated(lines)
  {
    hide Blank;
    BlankEmpty();
  }

  lemma SeparatedOk(lines: seq<string>)
    requires LinesShaped(lines)
    ensures LinesShaped(Separated(lines))
  {
    hide Blank, HeaderLike, NoBreak;
    EmptyHeader();
  }

  lemma PrintRstrip(preamble: seq<string>, blocks: seq<Block>)
    requires blocks != [] && blocks[|blocks| - 1].lines != []
    requires !Blank(blocks[|blocks| - 1].lines[|blocks[|blocks| - 1].lines| - 1])
    ensures RstripLines(PrintLines(preamble, blocks)) == PrintLines(preamble, StripLast(blocks))
  {
    hide Blank, Separated, HeaderLine, RstripLines, StripRight;
    var k := |blocks| - 1;
    var last := blocks[k];
    var stripped := StripLast(blocks);
    assert stripped[..k] == blocks[..k];
    var head := Separated(PrintLines(preamble, blocks[..k])) + [HeaderLine(last.header)];
    var x := PrintLines(preamble, blocks);
    assert x == head + last.lines;
    assert x[|x| - 1] == last.lines[|last.lines| - 1];
    RstripNonBlank(x);
    assert stripped[k].header == last.header;
    assert x[|x| - 1 := StripRight(White, x[|x| - 1])] == head + stripped[k].lines;
  }

  // Normal forms

  lemma StripBlockOk(s: Schema, b: Block)
    requires CleanedBlock(s, b) && b.lines != []
    ensures var j := |b.lines| - 1;
            CleanedBlock(s, b.(lines := b.lines[j := StripRight(White, b.lines[j])])) && !Blank(b.lines[j])
  {
    hide HeaderLike, NoBreak, StripRight, Blank, ParseHeader, RetiredLine;
    var j := |b.lines| - 1;
    var line := b.lines[j];
    assert line in b.lines;
    StripLineOk(line);
    StripRetired(s, b.id, line);
    ReplaceLast(b.lines, StripRight(White, line));
    var lines := b.lines[j := StripRight(White, line)];
    assert forall l :: l in lines ==> l in b.lines || l == StripRight(White, line);
  }

  lemma StripRetired(s: Schema, id: BlockId, line: string)
    ensures RetiredLine(s, id, StripRight(White, line)) == RetiredLine(s, id, line)
    ensures Blank(StripRight(White, line)) == Blank(line)
  {
    hide SplitAssignment, Blank, StripRight;
    StripRightSame(line, []);
  }

  lemma ReplaceLast(lines: seq<string>, last: string)
    requires lines != [] && Canonical(lines) && !Blank(last)
    ensures Canonical(lines[|lines| - 1 := last])
  {
    hide Blank;
  }

  lemma StripLastOk(s: Schema, blocks: seq<Block>)
    requires CleanedBlocks(s, blocks)
    ensures CleanedBlocks(s, StripLast(blocks)) && StripLast(StripLast(blocks)) == StripLast(blocks)
    ensures forall i :: 0 <= i < |blocks| ==> StripLast(blocks)[i].id == blocks[i].id
  {
    hide CleanedBlock, StripRight, Blank;
    if blocks != [] {
      var k := |blocks| - 1;
      assert blocks[k] in blocks;
      StripBlockOk(s, blocks[k]);
      var r := StripLast(blocks);
      var j := |blocks[k].lines| - 1;
      StripTwice(blocks[k].lines[j]);
      assert r[k].lines[j := r[k].lines[j]] == r[k].lines;
      assert r[k := r[k]] == r;
      forall b | b in r ensures CleanedBlock(s, b) && b.lines != [] {
        assert b in blocks || b == r[k];
      }
    }
  }

  lemma StripTwice(line: string)
    ensures StripRight(White, StripRight(White, line)) == StripRight(White, line)
  {
  }

  lemma AscendingIds(a: seq<Block>, b: seq<Block>)
    requires |a| == |b| && forall i :: 0 <= i < |a| ==> a[i].id == b[i].id
    requires Sorting.Ascending(BlockLe, a)
    ensures Sorting.Ascending(BlockLe, b)
  {
    hide IdLe;
    forall i | 0 < i < |b| ensures BlockLe(b[i - 1], b[i]) {
      assert BlockLe(a[i - 1], a[i]);
    }
  }

  lemma OrderableIds(a: seq<Block>, b: seq<Block>)
    requires Orderable(a)
    requires forall y :: y in b ==> exists x :: x in a && x.id == y.id
    ensures Orderable(b)
  {
    hide Comparable;
    forall x, y | x in b && y in b ensures Comparable(x.id, y.id) {
      var x' :| x' in a && x'.id == x.id;
      var y' :| y' in a && y'.id == y.id;
      assert Comparable(x'.id, y'.id);
    }
  }

  /** A write leaves the print of a normal form. */
  lemma WriteIsNormal(s: Schema, doc: Doc)
    requires SchemaOk(s) && DocShaped(doc)
    requires WrittenLines(s, doc).Some?
    ensures NormalDoc(s, NormalForm(s, doc))
    ensures WrittenLines(s, doc).value == PrintLines(NormalForm(s, doc).preamble, NormalForm(s, doc).sections)
  {
    hide SchemaOk, DocShaped, Clean, CleanedBlock, BlockLe, LinesShaped, Comparable, RstripLines, PrintLines, Blank,
         StripLast;
    CleanOk(s, doc);
    var c := Clean(s, doc);
    var sorted := Sorting.Sort(BlockLe, c.sections);
    Sorting.SortMembers(BlockLe, c.sections);
    OrderTotal();
    Sorting.SortAscending(BlockLe, c.sections);
    assert CleanedBlocks(s, sorted);
    StripLastOk(s, sorted);
    SortedNormal(s, c, sorted);
  }

  lemma SortedNormal(s: Schema, c: Doc, sorted: seq<Block>)
    requires LinesShaped(c.preamble) && CleanedBlocks(s, sorted) && Orderable(c.sections)
    requires forall b :: b in sorted <==> b in c.sections
    requires Sorting.Ascending(BlockLe, sorted)
    ensures var n :=
              if sorted == [] then Doc(RstripLines(c.preamble), []) else Doc(Separated(c.preamble), StripLast(sorted));
            NormalDoc(s, n) && RstripLines(PrintLines(c.preamble, sorted)) == PrintLines(n.preamble, n.sections)
  {
    hide CleanedBlock, BlockLe, LinesShaped, Comparable, RstripLines, PrintLines, Blank, StripLast, Separated;
    StripLastOk(s, sorted);
    var stripped := StripLast(sorted);
    if sorted == [] {
      RstripOk(c.preamble);
      RstripFixed(c.preamble);
      PrintNothing(c.preamble);
      PrintNothing(RstripLines(c.preamble));
      assert stripped == [];
    } else {
      AscendingIds(sorted, stripped);
      forall y | y in stripped ensures exists x :: x in c.sections && x.id == y.id {
        var i :| 0 <= i < |stripped| && stripped[i] == y;
        assert sorted[i] in sorted;
        assert sorted[i] in c.sections && sorted[i].id == y.id;
      }
      OrderableIds(c.sections, stripped);
      SeparatedOk(c.preamble);
      SeparatedFixed(c.preamble);
      assert sorted[|sorted| - 1] in sorted;
      StripBlockOk(s, sorted[|sorted| - 1]);
      PrintRstrip(c.preamble, sorted);
      PrintSeparated(c.preamble, stripped);
    }
  }

  lemma {:induction false} DropNothing(s: Schema, id: BlockId, lines: seq<string>)
    requires forall l :: l in lines ==> !RetiredLine(s, id, l)
    ensures DropRetired(s, id, lines) == lines
  {
    hide RetiredLine;
    if lines != [] {
      var front, last := lines[..|lines| - 1], lines[|lines| - 1];
      assert lines == front + [last];
      DropNothing(s, id, front);
    }
  }

  /** Blocks that clean up to the given ones. */
  ghost predicate CleansTo(s: Schema, sections: seq<Block>, blocks: seq<Block>) {
    |sections| == |blocks| && NoRetired(s, sections) &&
    forall i :: 0 <= i < |blocks| ==> blocks[i] == sections[i].(lines := Normalize(sections[i].lines))
  }

  lemma CleanedTo(s: Schema, doc: Doc, blocks: seq<Block>)
    requires SchemaOk(s) && CleansTo(s, doc.sections, blocks)
    ensures Clean(s, doc) == Doc(doc.preamble, Prune(blocks))
  {
    hide SchemaOk, RetiredLine, Normalize, Migrate, Prune;
    MigrateFixed(s, doc);
    forall i | 0 <= i < |blocks| ensures CleanBlocks(s, doc.sections)[i] == blocks[i] {
      assert doc.sections[i] in doc.sections;
      DropNothing(s, doc.sections[i].id, doc.sections[i].lines);
    }
    assert CleanBlocks(s, doc.sections) == blocks;
  }

  /** A re-read normal form cleans up to the form again. */
  lemma RereadCleans(s: Schema, d: Doc, n: Doc)
    requires NormalDoc(s, n) && Reread(d, n.preamble, n.sections)
    ensures CleansTo(s, d.sections, n.sections) && d.preamble == n.preamble
    ensures Prune(n.sections) == n.sections
  {
    hide CleanedBlock, RetiredLine, Normalize, NonBlank, Blank, StripLast, RstripLines, BlockLe, Comparable,
         LinesShaped;
    forall i | 0 <= i < |n.sections|
      ensures Normalize(d.sections[i].lines) == n.sections[i].lines
      ensures forall l :: l in d.sections[i].lines ==> !RetiredLine(s, d.sections[i].id, l)
      ensures NonBlank(n.sections[i].lines) != []
    {
      assert n.sections[i] in n.sections;
      CleanedLines(s, n.sections[i]);
    }
    PruneAll(n.sections);
  }

  lemma CleanedLines(s: Schema, b: Block)
    requires CleanedBlock(s, b) && b.lines != []
    ensures Normalize(b.lines) == b.lines && Normalize(Separated(b.lines)) == b.lines
    ensures Separated(b.lines) == b.lines + [[]]
    ensures NonBlank(b.lines) != []
    ensures forall l :: l in Separated(b.lines) ==> !RetiredLine(s, b.id, l)
  {
    hide RetiredLine, Normalize, Blank, NonBlank;
    NormalizeFixed(b.lines);
    NonBlankLast(b.lines);
    EmptyLine(s, b.id);
  }

  /** A document whose blocks clean up to a normal form's is written as that form. */
  lemma WrittenAs(s: Schema, d: Doc, n: Doc)
    requires SchemaOk(s) && NormalDoc(s, n)
    requires Clean(s, d) == n
    ensures NormalForm(s, d) == n
    ensures WrittenLines(s, d) == Some(PrintLines(n.preamble, n.sections))
  {
    hide SchemaOk, CleanedBlock, BlockLe, Comparable, LinesShaped, Clean, StripLast, Separated;
    Sorting.SortFixed(BlockLe, n.sections);
    if n.sections == [] {
      PrintNothing(n.preamble);
    } else {
      assert n.sections[|n.sections| - 1] in n.sections;
      StripBlockOk(s, n.sections[|n.sections| - 1]);
      PrintRstrip(n.preamble, n.sections);
    }
  }

  lemma NormalPrints(s: Schema, n: Doc)
    requires NormalDoc(s, n)
    ensures Reread(ParseLines(PrintLines(n.preamble, n.sections)), n.preamble, n.sections)
    ensures PrintLines(n.preamble, n.sections) != []
  {
    hide BlockLe, Comparable, LinesShaped, BlockShaped, Canonical, RetiredLine, PrintLines, StripLast, RstripLines;
    ParsePrint(n.preamble, n.sections);
    if n.sections == [] {
      PrintNothing(n.preamble);
    } else {
      PrintSomething(n.preamble, n.sections);
    }
  }

  /** Reading back what a write left, and writing it again, repeats the file. */
  lemma WriteReadWrite(s: Schema, doc: Doc)
    requires SchemaOk(s) && DocShaped(doc) && WrittenLines(s, doc).Some?
    ensures var d := ReadLines(s, WrittenLines(s, doc).value);
            WrittenLines(s, d) == WrittenLines(s, doc) &&
            Reread(d, NormalForm(s, doc).preamble, NormalForm(s, doc).sections) && NoRetired(s, d.sections)
  {
    hide SchemaOk, DocShaped, WrittenLines, NormalForm, NormalDoc, PrintLines, Clean, Reread;
    WriteIsNormal(s, doc);
    var n := NormalForm(s, doc);
    NormalPrints(s, n);
    ReadNormal(s, n);
  }

  /** Reading the print of a normal form. */
  lemma ReadNormal(s: Schema, n: Doc)
    requires SchemaOk(s) && NormalDoc(s, n)
    ensures var d := ReadLines(s, PrintLines(n.preamble, n.sections));
            Reread(d, n.preamble, n.sections) && NoRetired(s, d.sections) &&
            WrittenLines(s, d) == Some(PrintLines(n.preamble, n.sections)) && NormalForm(s, d) == n
  {
    hide SchemaOk, WrittenLines, NormalForm, NormalDoc, PrintLines, Clean, Reread, ParseLines, RetiredLine, Normalize,
         Migrate, Prune;
    NormalPrints(s, n);
    var d := ParseLines(PrintLines(n.preamble, n.sections));
    RereadCleans(s, d, n);
    CleanedTo(s, d, n.sections);
    MigrateFixed(s, d);
    WrittenAs(s, d, n);
  }

  // The lines of the written text

  lemma HeaderNoBreak(header: string)
    requires NoBreak(header)
    ensures NoBreak(HeaderLine(header))
  {
    NoBreakConcat("[", header);
    NoBreakConcat("[" + header, "]");
  }

  lemma {:induction false} PrintMembers(preamble: seq<string>, blocks: seq<Block>)
    requires forall b :: b in blocks ==> NoBreak(b.header)
    ensures forall l :: l in PrintLines(preamble, blocks) ==> InDoc(Doc(preamble, blocks), l) || NoBreak(l)
    decreases |blocks|
  {
    hide NoBreak, HeaderLine, Separated, InDoc;
    if blocks == [] {
      PreambleMembers(preamble);
    } else {
      var front, last := blocks[..|blocks| - 1], blocks[|blocks| - 1];
      assert blocks == front + [last];
      assert last in blocks;
      PrintMembers(preamble, front);
      SeparatedMembers(PrintLines(preamble, front));
      NoBreakEmpty();
      HeaderNoBreak(last.header);
      BlockMembers(preamble, front, last);
    }
  }

  lemma PreambleMembers(preamble: seq<string>)
    ensures forall l :: l in preamble ==> InDoc(Doc(preamble, []), l)
  {
  }

  lemma BlockMembers(preamble: seq<string>, front: seq<Block>, last: Block)
    ensures forall l :: InDoc(Doc(preamble, front), l) || l in last.lines ==> InDoc(Doc(preamble, front + [last]), l)
  {
    var blocks := front + [last];
    assert last in blocks;
    assert forall b :: b in front ==> b in blocks;
  }

  lemma SeparatedMembers(lines: seq<string>)
    ensures forall l :: l in Separated(lines) ==> l in lines || l == []
  {
    hide Blank;
  }

  /** A line, or its stripped end. */
  ghost predicate Kin(line: string, of: string) { line == of || line == StripRight(White, of) }

  lemma {:induction false} RstripMembers(lines: seq<string>)
    ensures forall l :: l in RstripLines(lines) ==> l == [] || exists x :: x in lines && Kin(l, x)
    decreases |lines|
  {
    hide StripRight;
    if lines != [] {
      var front, last := lines[..|lines| - 1], lines[|lines| - 1];
      assert lines == front + [last];
      RstripMembers(front);
      forall l | l in RstripLines(lines) && l != [] ensures exists x :: x in lines && Kin(l, x) {
        if l in front { assert Kin(l, l); } else if Kin(l, last) { assert last in lines; }
      }
    }
  }

  lemma CleanMembers(s: Schema, doc: Doc)
    ensures forall l :: InDoc(Clean(s, doc), l) ==> InDoc(Migrate(s, doc), l) || l == []
  {
    hide Migrate, NonBlank, Normalize, RetiredLine;
    var d := Migrate(s, doc);
    var cleaned := CleanBlocks(s, d.sections);
    PruneMembers(cleaned);
    forall b, l | b in cleaned && l in b.lines ensures InDoc(d, l) || l == [] {
      var i :| 0 <= i < |cleaned| && cleaned[i] == b;
      NormalizeMembers(DropRetired(s, d.sections[i].id, d.sections[i].lines));
      DropRetiredMembers(s, d.sections[i].id, d.sections[i].lines);
      assert d.sections[i] in d.sections;
    }
  }

  /** Every line of a written text is free of breaks, or one of the profile's lines
      but for its end. */
  lemma WrittenMembers(s: Schema, doc: Doc)
    requires SchemaOk(s) && DocShaped(doc) && WrittenLines(s, doc).Some?
    ensures forall l :: l in WrittenLines(s, doc).value ==> NoBreak(l) || exists x :: InDoc(doc, x) && Kin(l, x)
  {
    hide SchemaOk, NoBreak, Kin, Clean, BlockLe, Orderable, PrintLines, RstripLines, Migrate;
    var c := Clean(s, doc);
    var sorted := Sorting.Sort(BlockLe, c.sections);
    Sorting.SortMembers(BlockLe, c.sections);
    CleanHeaders(s, doc);
    PrintMembers(c.preamble, sorted);
    var lines := PrintLines(c.preamble, sorted);
    RstripMembers(lines);
    CleanMembers(s, doc);
    MigrateShaped(s, doc);
    NoBreakEmpty();
    forall l | l in RstripLines(lines) && !NoBreak(l) ensures exists x :: InDoc(doc, x) && Kin(l, x) {
      var x :| x in lines && Kin(l, x);
      KinBreaks(l, x);
      assert InDoc(Doc(c.preamble, sorted), x);
      assert InDoc(c, x);
    }
  }

  lemma KinBreaks(line: string, of: string)
    requires Kin(line, of)
    ensures NoBreak(of) ==> NoBreak(line)
  {
    hide StripRight;
    if NoBreak(of) { StripNoBreak(White, of); }
  }

  lemma CleanHeaders(s: Schema, doc: Doc)
    requires SchemaOk(s) && DocShaped(doc)
    ensures forall b :: b in Clean(s, doc).sections ==> NoBreak(b.header)
  {
    hide SchemaOk, NoBreak, Clean, DocShaped, Canonical, RetiredLine, LinesShaped;
    CleanOk(s, doc);
  }

  lemma WrittenUnbroken(s: Schema, doc: Doc)
    requires SchemaOk(s) && DocOk(doc) && WrittenLines(s, doc).Some?
    ensures NoBreaks(WrittenLines(s, doc).value)
  {
    hide SchemaOk, NoBreak, Kin, WrittenLines, InDoc, DocShaped;
    WrittenMembers(s, doc);
    forall l | l in WrittenLines(s, doc).value ensures NoBreak(l) {
      if x :| InDoc(doc, x) && Kin(l, x) { KinBreaks(l, x); }
    }
  }

  lemma WrittenSome(s: Schema, doc: Doc)
    requires WrittenLines(s, doc).Some?
    ensures WrittenLines(s, doc).value != []
  {
    hide Clean, PrintLines, Orderable, BlockLe;
  }

  /** No line break but newlines. */
  ghost predicate OnlyNewlines(text: string) { forall i :: 0 <= i < |text| && IsBreak(text[i]) ==> text[i] == '\n' }

  lemma {:induction false} JoinBreaks(lines: seq<string>)
    ensures NoBreaks(lines) ==> OnlyNewlines(Join(lines))
    ensures OnlyNewlines(Join(lines)) ==> forall l :: l in lines ==> OnlyNewlines(l)
  {
    hide IsBreak;
    if |lines| > 1 {
      JoinBreaks(lines[1..]);
      var head, tail := lines[0], Join(lines[1..]);
      var s := Join(lines);
      assert s == head + "\n" + tail;
      assert lines == [head] + lines[1..];
      assert forall i :: 0 <= i < |head| ==> s[i] == head[i];
      assert s[|head|] == '\n';
      assert forall i :: 0 <= i < |tail| ==> tail[i] == s[|head| + 1 + i];
    }
  }

  lemma NewlineEnd(text: string)
    ensures OnlyNewlines(text + "\n") <==> OnlyNewlines(text)
  {
    hide IsBreak;
    var s := text + "\n";
    assert forall i :: 0 <= i < |text| ==> s[i] == text[i];
  }

  /** A text that a write leaves for a profile that was read and holds no broken
      line. */
  lemma UnbrokenFixed(s: Schema, doc: Doc)
    requires SchemaOk(s) && DocShaped(doc) && WrittenLines(s, doc).Some? && NoBreaks(WrittenLines(s, doc).value)
    ensures WrittenText(s, ReadText(s, WrittenText(s, doc).value)) == WrittenText(s, doc)
  {
    hide SchemaOk, DocShaped, WrittenLines, NormalForm, NormalDoc, PrintLines, ReadLines, Reread, NoRetired;
    WrittenSome(s, doc);
    SplitJoin(WrittenLines(s, doc).value);
    WriteReadWrite(s, doc);
  }

  /** A written text is unchanged by a read and a write exactly when newlines are
      its only line breaks. */
  lemma TextFixed(s: Schema, doc: Doc)
    requires SchemaOk(s) && DocShaped(doc) && WrittenText(s, doc).Some?
    requires forall l :: InDoc(doc, l) ==> '\n' !in l
    ensures WrittenText(s, ReadText(s, WrittenText(s, doc).value)) == WrittenText(s, doc) <==>
            OnlyNewlines(WrittenText(s, doc).value)
  {
    hide SchemaOk, DocShaped, WrittenLines, ReadText, OnlyNewlines, NoBreak, InDoc, Kin;
    var lines := WrittenLines(s, doc).value;
    JoinBreaks(lines);
    NewlineEnd(Join(lines));
    if OnlyNewlines(Join(lines)) {
      WrittenMembers(s, doc);
      forall l | l in lines ensures NoBreak(l) {
        if x :| InDoc(doc, x) && Kin(l, x) { KinNewlines(l, x); }
      }
      UnbrokenFixed(s, doc);
    }
    var d := ReadText(s, Join(lines) + "\n");
    ReadOk(s, Join(lines) + "\n");
    if WrittenText(s, d).Some? {
      WrittenUnbroken(s, d);
      JoinBreaks(WrittenLines(s, d).value);
      NewlineEnd(Join(WrittenLines(s, d).value));
    }
  }

  lemma KinNewlines(line: string, of: string)
    requires Kin(line, of) && '\n' !in of && OnlyNewlines(line)
    ensures NoBreak(line)
  {
    var r := RightPart(White, of);
    assert forall i :: 0 <= i < |line| ==> line[i] == of[i];
  }
}
