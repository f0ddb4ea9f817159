/** The order of the blocks in a written profile. */
module ProfileOrder {
  import opened Wrappers
  import opened Text
  import opened IniLine
  import opened ProfileLines
  import opened ProfileText
  import opened ProfileNormal
  import opened ProfileRoundTrip
  import opened ProfileFixpoint
  import Sorting

  const SCOPE_ORDER: seq<Scope> :=
    [Engine, Global, MapEngine, Map, PartitionEngine, Partition, ServerCustomGlobal, ServerCustomMap,
     ServerCustomPartition, Raw]

  /** Two texts differ first at k. */
  predicate DifferAt(a: string, b: string, k: int) {
    0 <= k < |a| && k < |b| && a[..k] == b[..k] && a[k] != b[k]
  }

  /** Alphabetically before: a proper prefix, or a smaller character where they differ. */
  ghost predicate Before(a: string, b: string) { a < b || exists k :: DifferAt(a, b, k) && a[k] < b[k] }

  lemma {:induction false} StrLeBefore(a: string, b: string)
    requires StrLe(a, b) && a != b
    ensures Before(a, b)
  {
    if a != [] && a[0] == b[0] {
      assert a == [a[0]] + a[1..] && b == [b[0]] + b[1..];
      StrLeBefore(a[1..], b[1..]);
      if k :| DifferAt(a[1..], b[1..], k) && a[1..][k] < b[1..][k] {
        assert a[..k + 1] == [a[0]] + a[1..][..k] && b[..k + 1] == [b[0]] + b[1..][..k];
        assert DifferAt(a, b, k + 1) && a[k + 1] < b[k + 1];
      }
    } else if a != [] {
      assert DifferAt(a, b, 0);
    }
  }

  /** What two neighbouring blocks are to each other: by scope, then by map, then by
      partition, as numbers where they are numbers, then by section. */
  ghost predicate InOrder(a: BlockId, b: BlockId) {
    && (forall k, l :: 0 <= k < l < 10 && a.scope == SCOPE_ORDER[l] ==> b.scope != SCOPE_ORDER[k])
    && (a.scope == b.scope && a.mapName != b.mapName ==> Before(a.mapName, b.mapName))
    && (a.scope == b.scope && a.mapName == b.mapName ==>
          (IsDigits(a.partition) <==> IsDigits(b.partition)) &&
          (IsDigits(a.partition) ==> DecimalValue(a.partition) <= DecimalValue(b.partition)) &&
          (!IsDigits(a.partition) && a.partition != b.partition ==> Before(a.partition, b.partition)))
    && (a.(section := b.section) == b && a != b ==> Before(a.section, b.section))
  }

  lemma IdLeInOrder(a: BlockId, b: BlockId)
    requires IdLe(a, b) && Comparable(a, b)
    ensures InOrder(a, b)
  {
    hide IsDigits, DecimalValue, StrLe, Before;
    if a.mapName != b.mapName && StrLe(a.mapName, b.mapName) { StrLeBefore(a.mapName, b.mapName); }
    if a.partition != b.partition && StrLe(a.partition, b.partition) { StrLeBefore(a.partition, b.partition); }
    if a.section != b.section && StrLe(a.section, b.section) { StrLeBefore(a.section, b.section); }
  }

  /** Whoever reads a written profile finds its blocks in that order. */
  lemma WrittenInOrder(s: Schema, doc: Doc, i: nat)
    requires SchemaOk(s) && DocShaped(doc) && WrittenLines(s, doc).Some?
    requires 0 < i < |ReadLines(s, WrittenLines(s, doc).value).sections|
    ensures var d := ReadLines(s, WrittenLines(s, doc).value); InOrder(d.sections[i - 1].id, d.sections[i].id)
  {
    hide SchemaOk, DocShaped, WrittenLines, NormalForm, ReadLines, InOrder, CleanedBlock, StripLast, Comparable,
         RstripLines, LinesShaped, IdLe;
    WriteReadWrite(s, doc);
    WriteIsNormal(s, doc);
    var n := NormalForm(s, doc);
    var d := ReadLines(s, WrittenLines(s, doc).value);
    assert n.sections[i - 1] in n.sections && n.sections[i] in n.sections;
    IdLeInOrder(n.sections[i - 1].id, n.sections[i].id);
  }
}
