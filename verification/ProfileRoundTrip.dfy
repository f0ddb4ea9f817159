/** Writing a profile and reading it back: the file is the print of a normal
    form, that print parses back to the form, and a second write repeats it. */
module ProfileRoundTrip {
  import opened Text
  import opened IniLine
  import opened ProfileLines
  import opened ProfileText
  import opened ProfileNormal
  import Sorting

  // The clean-ups

  lemma {:induction false} DropRetiredMembers(s: Schema, id: BlockId, lines: seq<string>)
    ensures forall l :: l in DropRetired(s, id, lines) <==> l in lines && !RetiredLine(s, id, l)
  {
    hide RetiredLine;
    if lines != [] {
      var front, last := lines[..|lines| - 1], lines[|lines| - 1];
      DropRetiredMembers(s, id, front);
      assert lines == front + [last];
    }
  }

  lemma {:induction false} CollapseMembers(lines: seq<string>)
    ensures forall l :: l in Collapse(lines) ==> l in lines || l == []
  {
    hide Blank;
    if lines != [] {
      CollapseMembers(lines[..|lines| - 1]);
    }
  }

  lemma NormalizeMembers(lines: seq<string>)
    ensures forall l :: l in Normalize(lines) ==> l in lines || l == []
  {
    hide Blank;
    CollapseMembers(lines);
    var c, n := Collapse(lines), Normalize(lines);
    assert forall i :: 0 <= i < |n| ==> n[i] == c[i];
  }

  /** A cleaned block: well-formed, without retired lines, blanks in their place. */
  ghost predicate CleanedBlock(s: Schema, b: Block) {
    BlockShaped(b) && Canonical(b.lines) && forall l :: l in b.lines ==> !RetiredLine(s, b.id, l)
  }

  lemma EmptyLine(s: Schema, id: BlockId)
    ensures !HeaderLike([]) && !RetiredLine(s, id, []) && Blank([])
  {
  }

  lemma CleanBlockOk(s: Schema, b: Block)
    requires BlockShaped(b)
    ensures CleanedBlock(s, CleanBlock(s, b))
  {
    hide RetiredLine, HeaderLike, NoBreak, Normalize, ParseHeader, Canonical;
    var kept := DropRetired(s, b.id, b.lines);
    DropRetiredMembers(s, b.id, b.lines);
    NormalizeMembers(kept);
    NormalizeCanonical(kept);
    EmptyLine(s, b.id);
  }

  lemma {:induction false} PruneMembers(blocks: seq<Block>)
    ensures forall b :: b in Prune(blocks) <==> b in blocks && NonBlank(b.lines) != []
  {
    hide NonBlank;
    if blocks != [] {
      var front, last := blocks[..|blocks| - 1], blocks[|blocks| - 1];
      PruneMembers(front);
      assert blocks == front + [last];
    }
  }

  lemma {:induction false} PruneAll(blocks: seq<Block>)
    requires forall b :: b in blocks ==> NonBlank(b.lines) != []
    ensures Prune(blocks) == blocks
  {
    hide NonBlank;
    if blocks != [] {
      var front, last := blocks[..|blocks| - 1], blocks[|blocks| - 1];
      assert blocks == front + [last];
      PruneAll(front);
    }
  }

  lemma {:induction false} PruneAppend(a: seq<Block>, b: seq<Block>)
    ensures Prune(a + b) == Prune(a) + Prune(b)
  {
    hide NonBlank;
    if b == [] {
      assert a + b == a;
    } else {
      PruneAppend(a, b[..|b| - 1]);
      assert (a + b)[..|a + b| - 1] == a + b[..|b| - 1];
    }
  }

  lemma NonBlankLast(lines: seq<string>)
    ensures lines != [] && !Blank(lines[|lines| - 1]) ==> NonBlank(lines) != []
    ensures Canonical(lines) && lines != [] ==> NonBlank(lines) != [] && !Blank(lines[|lines| - 1])
    ensures lines == [] ==> NonBlank(lines) == []
  {
    hide Blank;
  }

  ghost predicate CleanedBlocks(s: Schema, blocks: seq<Block>) {
    forall b :: b in blocks ==> CleanedBlock(s, b) && b.lines != []
  }

  lemma CleanOk(s: Schema, doc: Doc)
    requires SchemaOk(s) && DocShaped(doc)
    ensures LinesShaped(Clean(s, doc).preamble) && CleanedBlocks(s, Clean(s, doc).sections)
    ensures Clean(s, doc).preamble == Migrate(s, doc).preamble
  {
    hide SchemaOk, BlockShaped, LinesShaped, CleanedBlock, CleanBlock, NonBlank, Migrate;
    MigrateShaped(s, doc);
    var d := Migrate(s, doc);
    var cleaned := CleanBlocks(s, d.sections);
    PruneMembers(cleaned);
    forall b | b in Clean(s, doc).sections ensures CleanedBlock(s, b) && b.lines != [] {
      var i :| 0 <= i < |cleaned| && cleaned[i] == b;
      assert d.sections[i] in d.sections;
      CleanBlockOk(s, d.sections[i]);
      NonBlankLast(b.lines);
    }
  }

  // Printing and parsing

  lemma {:induction false} ParseAppend(doc: Doc, a: seq<string>, b: seq<string>)
    ensures ParseFrom(doc, a + b) == ParseFrom(ParseFrom(doc, a), b)
  {
    hide ParseStep;
    if b == [] {
      assert a + b == a;
    } else {
      ParseAppend(doc, a, b[..|b| - 1]);
      assert (a + b)[..|a + b| - 1] == a + b[..|b| - 1];
    }
  }

  /** The document after plain lines are added to its last block, or its preamble. */
  function AddLines(doc: Doc, lines: seq<string>): Doc {
    if doc.sections == [] then doc.(preamble := doc.preamble + lines)
    else
      var k := |doc.sections| - 1;
      doc.(sections := doc.sections[k := doc.sections[k].(lines := doc.sections[k].lines + lines)])
  }

  lemma {:induction false} ParsePlain(doc: Doc, lines: seq<string>)
    requires forall l :: l in lines ==> !HeaderLike(l)
    ensures ParseFrom(doc, lines) == AddLines(doc, lines)
  {
    hide HeaderLike, HeaderName;
    if lines == [] {
      assert doc.preamble + [] == doc.preamble;
      if doc.sections != [] {
        var k := |doc.sections| - 1;
        assert doc.sections[k].lines + [] == doc.sections[k].lines;
        assert doc.sections[k := doc.sections[k]] == doc.sections;
      }
    } else {
      var front, last := lines[..|lines| - 1], lines[|lines| - 1];
      ParsePlain(doc, front);
      assert last in lines;
      assert lines == front + [last];
      AddOne(doc, front, last);
    }
  }

  lemma AddOne(doc: Doc, front: seq<string>, last: string)
    ensures AddLine(AddLines(doc, front), last) == AddLines(doc, front + [last])
  {
    if doc.sections == [] {
      assert doc.preamble + front + [last] == doc.preamble + (front + [last]);
    } else {
      var k := |doc.sections| - 1;
      assert doc.sections[k].lines + front + [last] == doc.sections[k].lines + (front + [last]);
    }
  }

  /** How a printed document comes back: each block but the last, and the
      preamble before a block, ends in the separator that the print put there. */
  ghost predicate Reread(d: Doc, preamble: seq<string>, blocks: seq<Block>) {
    d.preamble == (if blocks == [] then preamble else Separated(preamble)) &&
    |d.sections| == |blocks| &&
    forall i :: 0 <= i < |blocks| ==>
      d.sections[i] == blocks[i].(lines := if i < |blocks| - 1 then Separated(blocks[i].lines) else blocks[i].lines)
  }

  ghost predicate Printable(preamble: seq<string>, blocks: seq<Block>) {
    LinesShaped(preamble) && forall b :: b in blocks ==> BlockShaped(b) && b.lines != []
  }

  lemma HeaderStep(doc: Doc, b: Block)
    requires ParseHeader(b.header) == b.id
    ensures ParseFrom(doc, [HeaderLine(b.header)]) ==
            doc.(sections := doc.sections + [b.(lines := [])])
  {
    hide HeaderLike, HeaderName, ParseHeader;
    HeaderLineReads(b.header);
    assert [HeaderLine(b.header)][..0] == [];
  }

  /** A printed document parses back to itself, up to the separators. */
  lemma {:induction false} ParsePrint(preamble: seq<string>, blocks: seq<Block>)
    requires Printable(preamble, blocks)
    ensures Reread(ParseLines(PrintLines(preamble, blocks)), preamble, blocks)
    ensures PrintLines(preamble, blocks) != [] && blocks != [] ==>
              PrintLines(preamble, blocks)[|PrintLines(preamble, blocks)| - 1] ==
              blocks[|blocks| - 1].lines[|blocks[|blocks| - 1].lines| - 1]
    decreases |blocks|
  {
    hide HeaderLike, HeaderName, ParseHeader, Blank, NoBreak, HeaderLine;
    if blocks == [] {
      ParsePlain(EMPTY, preamble);
      assert [] + preamble == preamble;
    } else {
      var front, last := blocks[..|blocks| - 1], blocks[|blocks| - 1];
      assert blocks == front + [last];
      assert last in blocks;
      ParsePrint(preamble, front);
      PrintStep(preamble, front, last);
    }
  }

  /** Printing one more block parses as one more block behind a separator. */
  lemma PrintOneMore(preamble: seq<string>, front: seq<Block>, last: Block)
    requires BlockShaped(last)
    ensures var d := ParseLines(Separated(PrintLines(preamble, front)));
            ParseLines(PrintLines(preamble, front + [last])) == d.(sections := d.sections + [last])
  {
    hide HeaderLike, HeaderName, ParseHeader, Separated, NoBreak, HeaderLine, PrintLines, ParseStep;
    var x := Separated(PrintLines(preamble, front));
    PrintLast(preamble, front, last);
    ParseAppend(EMPTY, x, [HeaderLine(last.header)]);
    HeaderStep(ParseLines(x), last);
    ParseAppend(EMPTY, x + [HeaderLine(last.header)], last.lines);
    var d := ParseLines(x);
    var d2 := d.(sections := d.sections + [last.(lines := [])]);
    ParsePlain(d2, last.lines);
    assert [] + last.lines == last.lines;
    assert AddLines(d2, last.lines).sections == d.sections + [last];
  }

  lemma PrintStep(preamble: seq<string>, front: seq<Block>, last: Block)
    requires Printable(preamble, front) && BlockShaped(last) && last.lines != []
    requires Reread(ParseLines(PrintLines(preamble, front)), preamble, front)
    requires front != [] && PrintLines(preamble, front) != [] ==>
              PrintLines(preamble, front)[|PrintLines(preamble, front)| - 1] ==
              front[|front| - 1].lines[|front[|front| - 1].lines| - 1]
    ensures Reread(ParseLines(PrintLines(preamble, front + [last])), preamble, front + [last])
  {
    hide Blank, NoBreak, PrintLines, ParseLines, HeaderLike, ParseHeader, LinesShaped, BlockShaped;
    PrintOneMore(preamble, front, last);
    var x := PrintLines(preamble, front);
    SeparatorParses(x);
    var d, d1 := ParseLines(x), ParseLines(Separated(x));
    if front == [] {
      PrintNothing(preamble);
    } else {
      PrintSomething(preamble, front);
      var k := |front| - 1;
      assert d.sections[k] == front[k];
      assert d1.sections[k] == front[k].(lines := Separated(front[k].lines));
      assert forall i :: 0 <= i < k ==> d1.sections[i] == d.sections[i];
    }
  }

  lemma PrintNothing(preamble: seq<string>)
    ensures PrintLines(preamble, []) == preamble
  {
  }

  lemma PrintSomething(preamble: seq<string>, blocks: seq<Block>)
    requires blocks != []
    ensures PrintLines(preamble, blocks) != []
  {
    hide Separated, HeaderLine;
  }

  lemma PrintLast(preamble: seq<string>, front: seq<Block>, last: Block)
    ensures PrintLines(preamble, front + [last]) ==
            Separated(PrintLines(preamble, front)) + [HeaderLine(last.header)] + last.lines
  {
    hide Separated, HeaderLine;
    assert (front + [last])[..|front|] == front;
  }

  lemma SeparatorParses(x: seq<string>)
    ensures ParseLines(Separated(x)) ==
            if x != [] && !Blank(x[|x| - 1]) then AddLines(ParseLines(x), [[]]) else ParseLines(x)
  {
    hide HeaderLike, Blank, ParseStep, HeaderName;
    EmptyHeader();
    if x != [] && !Blank(x[|x| - 1]) {
      ParseAppend(EMPTY, x, [[]]);
      ParsePlain(ParseLines(x), [[]]);
    }
  }

  lemma EmptyHeader()
    ensures !HeaderLike([])
  {
  }

  /** A header and lines parse to one block. */
  lemma BlockParses(b: Block)
    requires BlockShaped(b) && b.lines != []
    ensures ParseLines([HeaderLine(b.header)] + b.lines) == Doc([], [b])
  {
    hide BlockShaped, HeaderLine, ParseLines, Separated;
    ParsePrint([], [b]);
    PrintNothing([]);
    PrintLast([], [], b);
    assert [] + [b] == [b];
    NothingSeparated();
    assert [] + [HeaderLine(b.header)] + b.lines == [HeaderLine(b.header)] + b.lines;
    assert ParseLines(PrintLines([], [b])).sections == [b];
  }

  lemma NothingSeparated()
    ensures Separated([]) == []
  {
  }
}
