/** Market prices: stepped rounding of the seeded price, and the most the buyback
    pays, in exact arithmetic. */
module Pricing {
  import opened Wrappers

  /** Math.round for the positive values it gets here. */
  function Nearest(x: real): int { (x + 0.5).Floor }

  function StepFor(v: real): (s: int)
    ensures s == 1 || s == 10 || s == 100 || s == 1000 || s == 10_000
  {
    if v >= 1_000_000.0 then 10_000
    else if v >= 100_000.0 then 1000
    else if v >= 10_000.0 then 100
    else if v >= 1000.0 then 10
    else 1
  }

  /** Math.max(1, Number(value) || 1) */
  function AtLeastOne(v: real): real { if v < 1.0 then 1.0 else v }

  /** Math.round(v / step) * step: one function per step keeps the division constant. */
  function Stepped(v: real): int {
    if v >= 1_000_000.0 then Nearest(v / 10_000.0) * 10_000
    else if v >= 100_000.0 then Nearest(v / 1000.0) * 1000
    else if v >= 10_000.0 then Nearest(v / 100.0) * 100
    else if v >= 1000.0 then Nearest(v / 10.0) * 10
    else Nearest(v)
  }

  /** roundPrice. */
  function RoundPrice(value: real): int {
    var r := Stepped(AtLeastOne(value));
    if r < 1 then 1 else r
  }

  /** Rounding is at most half a step away, so within half a percent from 1000 up. */
  lemma RoundedNear(v: real)
    requires v >= 1000.0
    ensures -0.005 * v <= RoundPrice(v) as real - v <= 0.005 * v
  {
  }

  /** A price is a multiple of the step of its value's range, and at most half a step
      from the value; the step grows tenfold from 1000, 10 000, 100 000 and a million. */
  lemma RoundedToStep(v: real)
    requires v >= 1.0
    ensures var step := if v < 1000.0 then 1 else if v < 10_000.0 then 10 else if v < 100_000.0 then 100
                        else if v < 1_000_000.0 then 1000 else 10_000;
            RoundPrice(v) % step == 0 && -(step as real) < 2.0 * (RoundPrice(v) as real - v) <= step as real
  {
  }

  lemma NearestMonotone(a: real, b: real)
    requires a <= b
    ensures Nearest(a) <= Nearest(b)
  {
  }

  /** A dearer value never rounds to a cheaper price. */
  lemma RoundMonotone(a: real, b: real)
    requires a <= b
    ensures RoundPrice(a) <= RoundPrice(b)
  {
    var x, y := AtLeastOne(a), AtLeastOne(b);
    SteppedBounds(x);
    SteppedBounds(y);
    NearestMonotone(x / 10_000.0, y / 10_000.0);
    NearestMonotone(x / 1000.0, y / 1000.0);
    NearestMonotone(x / 100.0, y / 100.0);
    NearestMonotone(x / 10.0, y / 10.0);
    NearestMonotone(x, y);
  }

  /** Rounding never leaves the range of its step, but for the bound above it. */
  lemma SteppedBounds(v: real)
    requires v >= 1.0
    ensures v >= 1_000_000.0 ==> Stepped(v) >= 1_000_000
    ensures 100_000.0 <= v < 1_000_000.0 ==> 100_000 <= Stepped(v) <= 1_000_000
    ensures 10_000.0 <= v < 100_000.0 ==> 10_000 <= Stepped(v) <= 100_000
    ensures 1000.0 <= v < 10_000.0 ==> 1000 <= Stepped(v) <= 10_000
    ensures v < 1000.0 ==> 1 <= Stepped(v) <= 1000
  {
  }

  /** Rounding a rounded price changes nothing. */
  lemma RoundIdempotent(v: real)
    ensures RoundPrice(RoundPrice(v) as real) == RoundPrice(v)
  {
    var k, step := Multiple(v);
    Exact(k, step);
  }

  /** A rounded price is k steps, with k where Exact wants it. */
  lemma Multiple(v: real) returns (k: int, step: int)
    ensures RoundPrice(v) == k * step
    ensures step == 1 || step == 10 || step == 100 || step == 1000 || step == 10_000
    ensures step == 1 ==> 1 <= k <= 1000
    ensures step != 1 ==> 100 <= k
    ensures step == 10 || step == 100 || step == 1000 ==> k <= 1000
  {
    var x := AtLeastOne(v);
    SteppedBounds(x);
    step := StepFor(x);
    k := if x >= 1_000_000.0 then Nearest(x / 10_000.0)
         else if x >= 100_000.0 then Nearest(x / 1000.0)
         else if x >= 10_000.0 then Nearest(x / 100.0)
         else if x >= 1000.0 then Nearest(x / 10.0)
         else Nearest(x);
  }

  /** A multiple of its range's step, or the bound of that range, is its own price. */
  lemma Exact(k: int, step: int)
    requires step == 1 || step == 10 || step == 100 || step == 1000 || step == 10_000
    requires step == 1 ==> 1 <= k <= 1000
    requires step != 1 ==> 100 <= k
    requires step == 10 || step == 100 || step == 1000 ==> k <= 1000
    ensures RoundPrice((k * step) as real) == k * step
  {
    var p := (k * step) as real;
    WholeNearest(k);
    WholeNearest(k * step);
    WholeNearest(100);
    if step == 10 { assert p / 10.0 == k as real; }
    if step == 100 { assert p / 100.0 == k as real; }
    if step == 1000 { assert p / 1000.0 == k as real; }
    if step == 10_000 { assert p / 10_000.0 == k as real; }
  }

  lemma WholeNearest(k: int)
    ensures Nearest(k as real) == k
  {
  }

  // ---- listed prices of the plan's rows ----

  datatype Row = Row(templateId: string, qualityLevel: int, price: real, schematicKind: bool, categoryMask: nat)
  type Key = (string, int)

  datatype Schedule = Schedule(discounted: bool, priceMultiplier: real, augment: real, armor: real, weapon: real)

  /** Multipliers are numbers from 1 to 5, the price multiplier any positive one. */
  predicate WellSet(s: Schedule) {
    s.priceMultiplier > 0.0 && s.augment > 0.0 && s.armor > 0.0 && s.weapon > 0.0
  }

  const SCHEMATIC := "_Schematic"

  predicate IsSchematic(row: Row) {
    row.schematicKind
    || (|SCHEMATIC| <= |row.templateId| && row.templateId[|row.templateId| - |SCHEMATIC|..] == SCHEMATIC)
  }

  const AUGMENT := "_augment_"

  function Lower(c: char): char { if 'A' <= c <= 'Z' then c + ' ' else c }

  /** A T, digits and _Augment_, in either case. */
  predicate IsAugment(template: string) {
    |template| > 1 && Lower(template[0]) == 't' && '0' <= template[1] <= '9' && AugmentAfterDigits(template, 2)
  }

  predicate AugmentAfterDigits(template: string, i: nat)
    decreases |template| - i
  {
    if i >= |template| then false
    else if '0' <= template[i] <= '9' then AugmentAfterDigits(template, i + 1)
    else
      i + |AUGMENT| <= |template|
      && forall k :: 0 <= k < |AUGMENT| ==> Lower(template[i + k]) == AUGMENT[k]
  }

  predicate Priced(row: Row) { IsSchematic(row) && IsAugment(row.templateId) }

  function RowKey(row: Row): Key { (row.templateId, row.qualityLevel) }

  /** What the last priced schematic row of the key costs. */
  function LastPrice(rows: seq<Row>, key: Key): Option<real> {
    if rows == [] then None
    else
      var last := rows[|rows| - 1];
      if Priced(last) && RowKey(last) == key then Some(last.price)
      else LastPrice(rows[..|rows| - 1], key)
  }

  /** The plan-wide index of schematic prices. */
  function PriceIndex(rows: seq<Row>): map<Key, real> {
    if rows == [] then map[]
    else
      var front, last := PriceIndex(rows[..|rows| - 1]), rows[|rows| - 1];
      if Priced(last) then front[RowKey(last) := last.price] else front
  }

  /** The last row of a key wins. */
  lemma {:induction false} IndexHasLast(rows: seq<Row>, key: Key)
    ensures LastPrice(rows, key) == if key in PriceIndex(rows) then Some(PriceIndex(rows)[key]) else None
  {
    if rows != [] { IndexHasLast(rows[..|rows| - 1], key); }
  }

  method SchematicPriceMap(rows: seq<Row>) returns (prices: map<Key, real>)
    ensures prices == PriceIndex(rows)
  {
    prices := map[];
    for i := 0 to |rows|
      invariant prices == PriceIndex(rows[..i])
    {
      assert rows[..i + 1][..i] == rows[..i];
      if Priced(rows[i]) {
        prices := prices[RowKey(rows[i]) := rows[i].price];
      }
    }
    assert rows[..|rows|] == rows;
  }

  /** seedRowBasePrice: a price of zero counts as no schematic. */
  function BasePrice(s: Schedule, prices: map<Key, real>, row: Row): real {
    if !s.discounted || IsSchematic(row) || !IsAugment(row.templateId) then row.price
    else
      var key := (row.templateId + SCHEMATIC, row.qualityLevel);
      if key in prices && prices[key] != 0.0 then prices[key] / 2.0 else row.price / 20.0
  }

  /** With discounts on, a ready-made augment starts at half of what the last row of
      its schematic and grade costs, or at a twentieth of its own price when that is
      nothing or there is no such row; every other row starts at its own price. */
  lemma DiscountExactly(s: Schedule, rows: seq<Row>, row: Row)
    ensures var pattern := LastPrice(rows, (row.templateId + "_Schematic", row.qualityLevel));
            BasePrice(s, PriceIndex(rows), row) ==
              if s.discounted && IsAugment(row.templateId) && !IsSchematic(row)
              then (if pattern.Some? && pattern.value != 0.0 then 0.5 * pattern.value else 0.05 * row.price)
              else row.price
  {
    hide IsAugment, IsSchematic, PriceIndex, LastPrice;
    IndexHasLast(rows, (row.templateId + SCHEMATIC, row.qualityLevel));
  }

  const TOP_LEVEL := 0x100_0000

  function CategoryMultiplier(s: Schedule, row: Row): real {
    if IsAugment(row.templateId) then s.augment
    else if row.qualityLevel >= 1 && row.categoryMask / TOP_LEVEL == 0 then s.armor
    else if row.qualityLevel >= 1 && row.categoryMask / TOP_LEVEL == 1 then s.weapon
    else 1.0
  }

  function ListedPrice(s: Schedule, prices: map<Key, real>, source: real, row: Row): (p: int)
    requires source >= 1.0
    ensures p >= 1
  {
    RoundPrice(Times(BasePrice(s, prices, row) / source, s.priceMultiplier, CategoryMultiplier(s, row)))
  }

  /** A product that the prover keeps whole. */
  function Times(base: real, p: real, x: real): real { base * p * x }

  /** No multiplier of the first schedule is above the second's. */
  predicate NoLower(a: Schedule, b: Schedule) {
    a.discounted == b.discounted
    && a.priceMultiplier <= b.priceMultiplier && a.augment <= b.augment && a.armor <= b.armor && a.weapon <= b.weapon
  }

  /** Raising multipliers never lowers a listed price, whatever the row says. */
  lemma ListedMonotone(a: Schedule, b: Schedule, prices: map<Key, real>, source: real, row: Row)
    requires WellSet(a) && WellSet(b) && NoLower(a, b) && source >= 1.0
    ensures ListedPrice(a, prices, source, row) <= ListedPrice(b, prices, source, row)
  {
    var base := BasePrice(a, prices, row) / source;
    var x, y := CategoryMultiplier(a, row), CategoryMultiplier(b, row);
    Scaled(base, a.priceMultiplier, b.priceMultiplier, x, y);
    var low, high := Times(base, a.priceMultiplier, x), Times(base, b.priceMultiplier, y);
    assert ListedPrice(a, prices, source, row) == RoundPrice(low);
    assert ListedPrice(b, prices, source, row) == RoundPrice(high);
    if low <= high {
      RoundMonotone(low, high);
    } else {
      AtLeastOneBelow(low);
      AtLeastOneBelow(high);
    }
  }

  lemma AtLeastOneBelow(v: real)
    requires v < 1.0
    ensures RoundPrice(v) == 1
  {
  }

  /** Scaling up a value keeps it or leaves both results without a price of their own. */
  lemma Scaled(base: real, p: real, q: real, x: real, y: real)
    requires 0.0 < p <= q && 0.0 < x <= y
    ensures Times(base, p, x) <= Times(base, q, y) || (Times(base, p, x) < 1.0 && Times(base, q, y) < 1.0)
  {
    if base >= 0.0 {
      assert base * p <= base * q;
      assert base * p * x <= base * q * x;
      assert base * q * x <= base * q * y;
    } else {
      assert base * p < 0.0 && base * q < 0.0;
      assert base * p * x < 0.0 && base * q * y < 0.0;
    }
  }

  /** Each category multiplier reaches its own rows only: augments of any grade, and
      of the other rows from grade 1 the armor and the weapons. */
  lemma MultiplierReaches(s: Schedule, prices: map<Key, real>, source: real, row: Row, x: real)
    requires source >= 1.0
    ensures !IsAugment(row.templateId) ==>
              ListedPrice(s.(augment := x), prices, source, row) == ListedPrice(s, prices, source, row)
    ensures IsAugment(row.templateId) || row.qualityLevel < 1 || row.categoryMask >= 0x100_0000 ==>
              ListedPrice(s.(armor := x), prices, source, row) == ListedPrice(s, prices, source, row)
    ensures IsAugment(row.templateId) || row.qualityLevel < 1 || !(0x100_0000 <= row.categoryMask < 0x200_0000) ==>
              ListedPrice(s.(weapon := x), prices, source, row) == ListedPrice(s, prices, source, row)
    ensures IsAugment(row.templateId) ==>
              ListedPrice(s.(augment := x), prices, source, row) ==
                RoundPrice(Times(BasePrice(s, prices, row) / source, s.priceMultiplier, x))
    ensures !IsAugment(row.templateId) && row.qualityLevel >= 1 && row.categoryMask < 0x100_0000 ==>
              ListedPrice(s.(armor := x), prices, source, row) ==
                RoundPrice(Times(BasePrice(s, prices, row) / source, s.priceMultiplier, x))
    ensures !IsAugment(row.templateId) && row.qualityLevel >= 1 && 0x100_0000 <= row.categoryMask < 0x200_0000 ==>
              ListedPrice(s.(weapon := x), prices, source, row) ==
                RoundPrice(Times(BasePrice(s, prices, row) / source, s.priceMultiplier, x))
  {
    hide IsAugment, RoundPrice, BasePrice, ListedPrice, Times;
    SameBase(s, prices, row, x);
    var unit := BasePrice(s, prices, row) / source;
    ListedAs(s, prices, source, row, unit, CategoryMultiplier(s, row));
    var a, b, c := s.(augment := x), s.(armor := x), s.(weapon := x);
    ListedAs(a, prices, source, row, unit, CategoryMultiplier(a, row));
    ListedAs(b, prices, source, row, unit, CategoryMultiplier(b, row));
    ListedAs(c, prices, source, row, unit, CategoryMultiplier(c, row));
  }

  lemma ListedAs(s: Schedule, prices: map<Key, real>, source: real, row: Row, unit: real, x: real)
    requires source >= 1.0 && BasePrice(s, prices, row) / source == unit && CategoryMultiplier(s, row) == x
    ensures ListedPrice(s, prices, source, row) == RoundPrice(Times(unit, s.priceMultiplier, x))
  {
    hide BasePrice, CategoryMultiplier, RoundPrice, Times;
  }

  lemma SameBase(s: Schedule, prices: map<Key, real>, row: Row, x: real)
    ensures BasePrice(s.(augment := x), prices, row) == BasePrice(s, prices, row)
    ensures BasePrice(s.(armor := x), prices, row) == BasePrice(s, prices, row)
    ensures BasePrice(s.(weapon := x), prices, row) == BasePrice(s, prices, row)
  {
    hide IsAugment, IsSchematic;
  }

  // ---- the most the buyback pays ----

  function Cap(price: int, percent: int): int {
    var c := (price * percent + 99) / 100;
    if c < 1 then 1 else c
  }

  /** The cap is the percentage rounded up, and at least one. */
  lemma CapIsPercent(price: int, percent: int)
    ensures Cap(price, percent) >= 1 && 100 * Cap(price, percent) >= price * percent
    ensures Cap(price, percent) > 1 ==> 100 * (Cap(price, percent) - 1) < price * percent
  {
  }

  /** price is the dearest listed price among the rows of the key. */
  ghost predicate Dearest(s: Schedule, prices: map<Key, real>, source: real, rows: seq<Row>, key: Key, price: int)
    requires source >= 1.0
  {
    (exists row :: row in rows && RowKey(row) == key && ListedPrice(s, prices, source, row) == price)
    && forall row :: row in rows && RowKey(row) == key ==> ListedPrice(s, prices, source, row) <= price
  }

  /** buybackPlanCeilings: one cap per template and grade, from its dearest row. */
  method BuybackCeilings(s: Schedule, rows: seq<Row>, source: real, percent: int)
      returns (caps: map<Key, int>)
    requires source >= 1.0
    ensures caps.Keys == set row | row in rows :: RowKey(row)
    ensures forall key :: key in caps ==>
      exists price :: Dearest(s, PriceIndex(rows), source, rows, key, price) && caps[key] == Cap(price, percent)
  {
    hide Dearest, ListedPrice, PriceIndex;
    var index := SchematicPriceMap(rows);
    var maxPrice: map<Key, int> := map[];
    for i := 0 to |rows|
      invariant maxPrice.Keys == set row | row in rows[..i] :: RowKey(row)
      invariant forall key :: key in maxPrice ==> Dearest(s, index, source, rows[..i], key, maxPrice[key])
    {
      ghost var before := maxPrice;
      var row, key := rows[i], RowKey(rows[i]);
      var repriced := ListedPrice(s, index, source, row);
      var known := if key in maxPrice then maxPrice[key] else 0;
      maxPrice := maxPrice[key := if known < repriced then repriced else known];
      assert rows[..i + 1] == rows[..i] + [row];
      forall k | k in maxPrice ensures Dearest(s, index, source, rows[..i + 1], k, maxPrice[k]) {
        DearestExtends(s, index, source, rows[..i], row, k,
          if k in before then before[k] else 0, maxPrice[k]);
      }
    }
    assert rows[..|rows|] == rows;
    caps := map key | key in maxPrice :: Cap(maxPrice[key], percent);
  }

  /** One more row makes the larger of the two prices the dearest. */
  lemma DearestExtends(s: Schedule, prices: map<Key, real>, source: real, rows: seq<Row>, row: Row, key: Key,
      was: int, now: int)
    requires source >= 1.0
    requires Dearest(s, prices, source, rows, key, was)
      || (was == 0 && RowKey(row) == key && forall r :: r in rows ==> RowKey(r) != key)
    requires now == if RowKey(row) == key && was < ListedPrice(s, prices, source, row)
      then ListedPrice(s, prices, source, row) else was
    ensures Dearest(s, prices, source, rows + [row], key, now)
  {
    if RowKey(row) == key && was < ListedPrice(s, prices, source, row) {
      assert row in rows + [row];
    } else {
      var best :| best in rows && RowKey(best) == key && ListedPrice(s, prices, source, best) == was;
      assert best in rows + [row];
    }
  }

  /** The buyback never pays more than a row is listed for exactly when the
      percentage of the key's dearest row stays within it. */
  lemma CapWithinListed(s: Schedule, prices: map<Key, real>, source: real, rows: seq<Row>, row: Row, price: int,
      percent: int)
    requires source >= 1.0 && row in rows && Dearest(s, prices, source, rows, RowKey(row), price)
    ensures Cap(price, percent) <= ListedPrice(s, prices, source, row)
      <==> price * percent <= 100 * ListedPrice(s, prices, source, row)
  {
  }

  /** One key listed at 100 and at 200: at 60 percent the cap is 120, above the
      cheaper row. */
  lemma CapAboveListed()
    ensures var s := Schedule(false, 1.0, 1.0, 1.0, 1.0);
            var rows := [Row("Ore", 0, 100.0, false, 0), Row("Ore", 0, 200.0, false, 0)];
            WellSet(s) && Dearest(s, PriceIndex(rows), 1.0, rows, ("Ore", 0), 200) &&
            ListedPrice(s, PriceIndex(rows), 1.0, rows[0]) == 100 && Cap(200, 60) == 120
  {
    var s := Schedule(false, 1.0, 1.0, 1.0, 1.0);
    var rows := [Row("Ore", 0, 100.0, false, 0), Row("Ore", 0, 200.0, false, 0)];
    var index := PriceIndex(rows);
    assert !IsAugment("Ore");
    assert ListedPrice(s, index, 1.0, rows[0]) == 100;
    assert ListedPrice(s, index, 1.0, rows[1]) == 200;
    assert rows[1] in rows;
  }

  /** With one price per key that is exactly a percentage of at most 100. */
  lemma CapWithinHundred(s: Schedule, prices: map<Key, real>, source: real, rows: seq<Row>, row: Row, price: int,
      percent: int)
    requires source >= 1.0 && row in rows && Dearest(s, prices, source, rows, RowKey(row), price)
    requires forall other :: other in rows && RowKey(other) == RowKey(row) ==> other == row
    ensures Cap(price, percent) <= ListedPrice(s, prices, source, row) <==> percent <= 100
  {
    CapWithinListed(s, prices, source, rows, row, price, percent);
    PercentOf(ListedPrice(s, prices, source, row), percent);
  }

  lemma PercentOf(price: int, percent: int)
    requires price >= 1
    ensures price * percent <= 100 * price <==> percent <= 100
  {
    if percent > 100 { assert price * percent >= price * 101; } else { assert price * percent <= price * 100; }
  }
}
