/** The reconstruction cooldown moved from seconds to hours: the migration writes
    hours with twelve significant digits, the compiler turns them back into
    seconds. Exact rationals stand for the floating-point values. */
module Cooldown {

  const SECONDS_PER_HOUR := 3600.0
  const SHORTEST := 0.2

  /** max(0.2, seconds / 3600) */
  function Hours(seconds: nat): (h: real)
    ensures h >= SHORTEST
  {
    var h := seconds as real / SECONDS_PER_HOUR;
    if h < SHORTEST then SHORTEST else h
  }

  /** The nearest integer, a half to the even neighbour. */
  function RoundHalfEven(x: real): int {
    var below := x.Floor;
    var part := x - below as real;
    if part < 0.5 then below
    else if part > 0.5 then below + 1
    else if below % 2 == 0 then below else below + 1
  }

  /** The unit of the twelfth significant digit of n * q. */
  function Unit(n: real, q: real): (u: real)
    requires n >= 100_000_000_000.0
    decreases n.Floor
  {
    if n < 1_000_000_000_000.0 then q else Unit(n / 10.0, q * 10.0)
  }

  const FIRST_UNIT := 0.000_000_000_001

  /** format(h, ".12g") for h of at least 0.1. */
  function Digits12(h: real): real
    requires h >= 0.1
  {
    var u := Unit(h * 1_000_000_000_000.0, FIRST_UNIT);
    if u == 0.0 then h else RoundHalfEven(h / u) as real * u
  }

  /** (hours * 3600).to_integral_value(ROUND_HALF_UP) */
  function Seconds(hours: real): int { (hours * SECONDS_PER_HOUR + 0.5).Floor }

  lemma Times10(k: nat)
    ensures Ten(k + 1) == 10.0 * Ten(k)
  {
  }

  function Ten(k: nat): real { if k == 0 then 1.0 else 10.0 * Ten(k - 1) }

  /** The unit grows with the number, a power of ten at a time. */
  lemma {:induction false} UnitBound(n: real, q: real, k: nat)
    requires 100_000_000_000.0 <= n < 1_000_000_000_000.0 * Ten(k) && q > 0.0
    ensures 0.0 < Unit(n, q) <= q * Ten(k)
    decreases k
  {
    if n < 1_000_000_000_000.0 {
      TenAtLeastOne(k);
      assert q * 1.0 <= q * Ten(k);
    } else {
      if k == 0 {
        assert false;
      } else {
        Times10(k - 1);
        UnitBound(n / 10.0, q * 10.0, k - 1);
        assert q * 10.0 * Ten(k - 1) == q * (10.0 * Ten(k - 1));
      }
    }
  }

  lemma {:induction false} TenAtLeastOne(k: nat)
    ensures Ten(k) >= 1.0
  {
    if k > 0 { TenAtLeastOne(k - 1); }
  }

  lemma NearestIsNear(x: real)
    ensures -0.5 <= RoundHalfEven(x) as real - x <= 0.5
  {
  }

  lemma DigitsNear(h: real, u: real)
    requires h >= 0.1 && u > 0.0 && u == Unit(h * 1_000_000_000_000.0, FIRST_UNIT)
    ensures -0.5 * u <= Digits12(h) - h <= 0.5 * u
  {
    hide RoundHalfEven, Unit;
    var x := h / u;
    NearestIsNear(x);
    DivideBack(h, u);
    var r := RoundHalfEven(x) as real;
    Spread(r, x, u, h);
    assert Digits12(h) == Prod(r, u);
  }

  lemma DivideBack(h: real, u: real)
    requires u > 0.0
    ensures Prod(h / u, u) == h
  {
  }

  function Prod(a: real, b: real): real { a * b }

  lemma Spread(r: real, x: real, u: real, h: real)
    requires u > 0.0 && -0.5 <= r - x <= 0.5 && Prod(x, u) == h
    ensures -0.5 * u <= Prod(r, u) - h <= 0.5 * u
  {
    hide Prod;
    var d := r - x;
    AtMostHalf(d, u);
    AtMostHalf(-d, u);
    Adds(d, x, u);
    Adds(d, -d, u);
    Zero(u);
    assert d + x == r && d + -d == 0.0;
  }

  lemma AtMostHalf(d: real, u: real)
    requires d <= 0.5 && u > 0.0
    ensures Prod(d, u) <= 0.5 * u
  {
  }

  lemma Adds(a: real, b: real, u: real)
    ensures Prod(a + b, u) == Prod(a, u) + Prod(b, u)
  {
  }

  lemma Zero(u: real)
    ensures Prod(0.0, u) == 0.0
  {
  }

  lemma TenEight()
    ensures Ten(8) == 100_000_000.0
  {
    assert Ten(4) == 10_000.0;
    assert Ten(6) == 1_000_000.0;
  }

  const EXACT_UP_TO := 360_000_000_000

  /** Seconds to hours and back is exact, above the shortest cooldown, up to
      10^8 hours. */
  lemma CooldownExact(seconds: nat)
    requires seconds <= EXACT_UP_TO
    ensures Seconds(Digits12(Hours(seconds))) == if seconds < 720 then 720 else seconds
  {
    var h := Hours(seconds);
    if seconds == EXACT_UP_TO {
      WholeHours();
    } else if seconds < 720 {
      ShortestHours();
    } else {
      TenEight();
      UnitBound(h * 1_000_000_000_000.0, FIRST_UNIT, 8);
      var u := Unit(h * 1_000_000_000_000.0, FIRST_UNIT);
      DigitsNear(h, u);
      assert u <= 0.000_1;
      assert h * SECONDS_PER_HOUR == seconds as real;
      assert -0.2 < (Digits12(h) - h) * SECONDS_PER_HOUR < 0.2;
    }
  }

  lemma ShortestHours()
    ensures Digits12(SHORTEST) == SHORTEST && Seconds(SHORTEST) == 720
  {
    assert Unit(SHORTEST * 1_000_000_000_000.0, FIRST_UNIT) == FIRST_UNIT;
    assert SHORTEST / FIRST_UNIT == 200_000_000_000.0;
  }

  lemma {:induction false} UnitExactly(n: real, q: real, k: nat)
    requires 100_000_000_000.0 * Ten(k) <= n < 1_000_000_000_000.0 * Ten(k)
    ensures n >= 100_000_000_000.0 && Unit(n, q) == q * Ten(k)
    decreases k
  {
    TenAtLeastOne(k);
    if k > 0 {
      Times10(k - 1);
      TenAtLeastOne(k - 1);
      UnitExactly(n / 10.0, q * 10.0, k - 1);
      assert q * 10.0 * Ten(k - 1) == q * (10.0 * Ten(k - 1));
    }
  }

  lemma BigUnit(h: real)
    requires 100_000_000.0 <= h < 1_000_000_000.0
    ensures Unit(h * 1_000_000_000_000.0, FIRST_UNIT) == 0.001
  {
    TenEight();
    assert Ten(9) == 1_000_000_000.0;
    UnitExactly(h * 1_000_000_000_000.0, FIRST_UNIT, 9);
  }

  lemma WholeHours()
    ensures Hours(EXACT_UP_TO) == 100_000_000.0
    ensures Digits12(100_000_000.0) == 100_000_000.0 && Seconds(100_000_000.0) == EXACT_UP_TO
  {
    BigUnit(100_000_000.0);
    assert 100_000_000.0 / 0.001 == 100_000_000_000.0;
  }

  /** One second further the twelfth digit is too coarse. */
  lemma CooldownLostBeyond()
    ensures Seconds(Digits12(Hours(EXACT_UP_TO + 1))) == EXACT_UP_TO
  {
    var h := Hours(EXACT_UP_TO + 1);
    assert 100_000_000.0 < h < 100_000_000.000_3;
    BigUnit(h);
    var x := h / 0.001;
    assert 100_000_000_000.0 < x < 100_000_000_000.3;
    assert x.Floor == 100_000_000_000;
    assert RoundHalfEven(x) == 100_000_000_000;
  }

  /** The counts from zero on are all exact just as far as that. */
  lemma ExactPrefix(last: nat)
    ensures (forall n: nat :: n <= last ==> Seconds(Digits12(Hours(n))) == if n < 720 then 720 else n) <==>
            last <= EXACT_UP_TO
  {
    hide Hours, Digits12, Seconds;
    if last <= EXACT_UP_TO {
      forall n: nat | n <= last ensures Seconds(Digits12(Hours(n))) == if n < 720 then 720 else n {
        CooldownExact(n);
      }
    } else {
      CooldownLostBeyond();
      assert Seconds(Digits12(Hours(EXACT_UP_TO + 1))) != EXACT_UP_TO + 1;
    }
  }
}
