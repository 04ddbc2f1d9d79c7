/** Quotients of half-precision tensors: taken in binary32, stored in binary16, both rounded to nearest with
    ties to even (IEEE 754-2008, sections 3.4 and 4.3.1). Nothing modelled here comes near the largest
    finite value of either format. */
module HalfPrecision {
  import Reals
  import opened Rounding

  const HALF_TOP: int := 2048        // 2^11: binary16 has eleven significant digits
  const SINGLE_TOP: int := 16777216  // 2^24
  const STEPS: real := 16777216.0    // binary16 numbers are multiples of 2^-24, its smallest spacing

  /** x doubled k times. */
  function Double(x: real, k: nat): real {
    if k == 0 then x else 2.0 * Double(x, k - 1)
  }

  lemma {:induction false} DoubleAtLeast(x: real, k: nat)
    requires x >= 0.0
    ensures Double(x, k) >= x
  {
    if k > 0 { DoubleAtLeast(x, k - 1); }
  }

  lemma {:induction false} DoubleAdd(x: real, j: nat, k: nat)
    ensures Double(Double(x, j), k) == Double(x, j + k)
  {
    if k > 0 { DoubleAdd(x, j, k - 1); }
  }

  lemma {:induction false} DoubleTimes(x: real, k: nat)
    ensures Double(x, k) == x * Double(1.0, k)
  {
    if k > 0 { DoubleTimes(x, k - 1); }
  }

  lemma DoubleFour(x: real, k: nat)
    ensures Double(x, k + 4) == 16.0 * Double(x, k)
  {
    assert Double(x, k + 4) == 2.0 * Double(x, k + 3) && Double(x, k + 3) == 2.0 * Double(x, k + 2);
    assert Double(x, k + 2) == 2.0 * Double(x, k + 1);
  }

  /** 2^18. */
  lemma DoubleEighteen(x: real)
    ensures Double(x, 18) == 262144.0 * x
  {
    DoubleFour(x, 14);
    DoubleFour(x, 10);
    DoubleFour(x, 6);
    DoubleFour(x, 2);
    assert Double(x, 2) == 2.0 * Double(x, 1) && Double(x, 1) == 2.0 * x;
  }

  /** 2^23. */
  lemma DoubleTwentyThree(x: real)
    ensures Double(x, 23) == 8388608.0 * x
  {
    DoubleFour(x, 19);
    DoubleFour(x, 15);
    DoubleFour(x, 11);
    DoubleFour(x, 7);
    DoubleFour(x, 3);
    assert Double(x, 3) == 2.0 * Double(x, 2) && Double(x, 2) == 2.0 * Double(x, 1) && Double(x, 1) == 2.0 * x;
  }

  /** Binary32 numbers are multiples of 2^-149: 2^125 of its units in a step of 2^-24. */
  function Units(): (u: real)
    ensures u >= 8388608.0
  {
    DoubleTwentyThree(1.0);
    DoubleAdd(1.0, 23, 102);
    DoubleAtLeast(Double(1.0, 23), 102);
    Double(1.0, 125)
  }

  /** The number nearest to x, in units of the smallest spacing, whose leading digits fit below `top`. */
  function Nearest(x: real, top: int): int
    requires top > 1
    decreases Abs(x).Floor
  {
    if Abs(x) < top as real then Round(x) else 2 * Nearest(x / 2.0, top)
  }

  /** To binary16, in steps of 2^-24. */
  function Half(x: real): int {
    Nearest(x, HALF_TOP)
  }

  function Times(d: real, t: real): real {
    d * t
  }

  /** To the numbers with u units to a step and 24 significant digits. */
  function SingleIn(x: real, u: real): real
    requires u > 0.0
  {
    Nearest(Times(x, u), SINGLE_TOP) as real / u
  }

  /** To binary32, for x in steps of 2^-24. */
  function Single(x: real): real {
    SingleIn(x, Units())
  }

  /** A quotient in steps of 2^-24: computed in single precision, stored in half. */
  function HalfOf(x: real): int {
    Half(Single(x))
  }

  /** The same, as a value. */
  function HalfValue(x: real): real {
    HalfOf(x * STEPS) as real / STEPS
  }

  // ----- rounding errors -----

  /** Half a unit below `top`, half a unit in the last place above it. */
  lemma {:induction false} NearestError(x: real, top: int, n: int, t: real)
    requires x >= 0.0 && top > 1 && n == Nearest(x, top) && t == top as real
    ensures if x < t then Abs(n as real - x) <= 0.5 else Times(Abs(n as real - x), t) <= x
    decreases x.Floor
  {
    if x >= t {
      var h := Nearest(x / 2.0, top);
      NearestError(x / 2.0, top, h, t);
      Doubled(x / 2.0, h as real, t, x, n as real);
    }
  }

  lemma Doubled(y: real, h: real, t: real, x: real, n: real)
    requires t > 1.0 && x == 2.0 * y && n == 2.0 * h && x >= t
    requires if y < t then Abs(h - y) <= 0.5 else Times(Abs(h - y), t) <= y
    ensures Times(Abs(n - x), t) <= x
  {
    var d := Abs(h - y);
    if y < t { Reals.Sandwich(0.0, d, 0.5, t, d * t); }
    assert Abs(n - x) == 2.0 * d;
    assert (2.0 * d) * t == 2.0 * (d * t);
  }

  lemma HalfError(x: real)
    requires x >= 0.0
    ensures if x < 2048.0 then Abs(Half(x) as real - x) <= 0.5 else Abs(Half(x) as real - x) <= x / 2048.0
  {
    NearestError(x, HALF_TOP, Half(x), 2048.0);
  }

  lemma SingleError(x: real)
    requires x >= 0.0
    ensures Single(x) >= 0.0 && Abs(Single(x) - x) <= x / STEPS + 0.0000001
  {
    SingleInError(x, Units());
  }

  lemma SingleInError(x: real, u: real)
    requires x >= 0.0 && u >= 8388608.0
    ensures SingleIn(x, u) >= 0.0 && Abs(SingleIn(x, u) - x) <= x / STEPS + 0.0000001
  {
    var p := Times(x, u);
    var n := Nearest(p, SINGLE_TOP);
    Reals.NonNegative(x, u);
    NearestError(p, SINGLE_TOP, n, STEPS);
    ErrorOver(x, u, p, n as real, SingleIn(x, u));
    NearestNonNegative(p, SINGLE_TOP);
    Reals.AtLeast(n as real, 0.0, u);
  }

  lemma {:induction false} NearestNonNegative(x: real, top: int)
    requires x >= 0.0 && top > 1
    ensures Nearest(x, top) >= 0
    decreases x.Floor
  {
    if x >= top as real { NearestNonNegative(x / 2.0, top); }
  }

  lemma ErrorOver(x: real, u: real, p: real, n: real, r: real)
    requires x >= 0.0 && u >= 8388608.0 && p == x * u && r == n / u
    requires if p < STEPS then Abs(n - p) <= 0.5 else Times(Abs(n - p), STEPS) <= p
    ensures Abs(r - x) <= x / STEPS + 0.0000001
  {
    Reals.Undo(n, u);
    var e, bound := Abs(r - x), x / STEPS + 0.0000001;
    DifferenceTimes(r, x, u, n, p);
    assert bound * u == p / STEPS + 0.0000001 * u;
    Reals.Increasing(e, bound, u);
  }

  lemma DifferenceTimes(r: real, x: real, u: real, n: real, p: real)
    requires u > 0.0 && r * u == n && x * u == p
    ensures Abs(r - x) * u == Abs(n - p)
  {
    assert (r - x) * u == n - p && (x - r) * u == p - n;
    if r >= x { Reals.NonNegative(r - x, u); } else { Reals.NonNegative(x - r, u); }
  }

  lemma HalfOfError(x: real)
    requires x >= 0.0
    ensures if x <= 2047.9 then Abs(HalfOf(x) as real - x) <= 0.501 else Abs(HalfOf(x) as real - x) <= x / 2000.0
  {
    SingleError(x);
    HalfError(Single(x));
  }

  lemma ValueError(x: real)
    requires x >= 0.0
    ensures Abs(HalfValue(x) - x) <= x / 2000.0 + 0.0000001
  {
    HalfOfError(x * STEPS);
  }

  // ----- symmetry and order -----

  lemma {:induction false} NearestOdd(x: real, top: int)
    requires top > 1
    ensures Nearest(-x, top) == -Nearest(x, top)
    decreases Abs(x).Floor
  {
    if Abs(x) < top as real {
      RoundOdd(x);
    } else {
      NearestOdd(x / 2.0, top);
      assert (-x) / 2.0 == -(x / 2.0);
    }
  }

  lemma SingleOdd(x: real, u: real)
    requires u > 0.0
    ensures SingleIn(-x, u) == -SingleIn(x, u)
  {
    var p := Times(x, u);
    assert Times(-x, u) == -p;
    NearestOdd(p, SINGLE_TOP);
    Quotients(Nearest(p, SINGLE_TOP) as real, u);
  }

  lemma Quotients(n: real, d: real)
    requires d > 0.0
    ensures (-n) / d == -(n / d)
  {}

  lemma ValueOdd(x: real)
    ensures HalfValue(-x) == -HalfValue(x)
  {
    var u := x * STEPS;
    SingleOdd(u, Units());
    NearestOdd(Single(u), HALF_TOP);
    assert (-x) * STEPS == -u;
    Quotients(HalfOf(u) as real, STEPS);
  }

  lemma {:induction false} NearestAtLeast(x: real, top: int)
    requires top > 1 && top % 2 == 0 && x >= top as real
    ensures Nearest(x, top) >= top
    decreases x.Floor
  {
    var half := top / 2;
    if x / 2.0 < top as real {
      RoundMonotone(half as real, x / 2.0);
      RoundInteger(half);
    } else {
      NearestAtLeast(x / 2.0, top);
    }
  }

  lemma {:induction false} NearestMonotone(x: real, y: real, top: int)
    requires top > 1 && top % 2 == 0 && 0.0 <= x <= y
    ensures Nearest(x, top) <= Nearest(y, top)
    decreases y.Floor
  {
    if y < top as real {
      RoundMonotone(x, y);
    } else if x < top as real {
      RoundMonotone(x, top as real);
      RoundInteger(top);
      NearestAtLeast(y, top);
    } else {
      NearestMonotone(x / 2.0, y / 2.0, top);
    }
  }

  lemma SingleMonotone(x: real, y: real, u: real)
    requires 0.0 <= x <= y && u > 0.0
    ensures SingleIn(x, u) <= SingleIn(y, u)
  {
    var p, q := Times(x, u), Times(y, u);
    Reals.Increasing(x, y, u);
    Reals.NonNegative(x, u);
    NearestMonotone(p, q, SINGLE_TOP);
    Reals.DivideOrder(Nearest(p, SINGLE_TOP) as real, Nearest(q, SINGLE_TOP) as real, u);
  }

  lemma ValueMonotone(x: real, y: real)
    requires 0.0 <= x <= y
    ensures HalfValue(x) <= HalfValue(y)
  {
    SingleMonotone(x * STEPS, y * STEPS, Units());
    SingleError(x * STEPS);
    NearestMonotone(Single(x * STEPS), Single(y * STEPS), HALF_TOP);
  }

  // ----- values that are exact, and one binade -----

  /** A number of few digits is exact, however often doubled. */
  lemma {:induction false} NearestExact(n: nat, k: nat, top: int)
    requires top > 1 && n < top
    ensures Nearest(Double(n as real, k), top) as real == Double(n as real, k)
  {
    var x := Double(n as real, k);
    DoubleWhole(n, k);
    if k > 0 {
      NearestExact(n, k - 1, top);
      assert x / 2.0 == Double(n as real, k - 1);
      DoubleAtLeast(n as real, k);
    } else {
      RoundInteger(n);
    }
  }

  lemma {:induction false} DoubleWhole(n: nat, k: nat)
    ensures Round(Double(n as real, k)) as real == Double(n as real, k)
  {
    var m := WholeDouble(n, k);
    RoundInteger(m);
  }

  lemma {:induction false} WholeDouble(n: nat, k: nat) returns (m: nat)
    ensures m as real == Double(n as real, k)
  {
    if k == 0 {
      m := n;
    } else {
      m := WholeDouble(n, k - 1);
      m := 2 * m;
    }
  }

  /** Between top / 2 and top, doubled k times, the leading digits are a rounded integer. */
  lemma {:induction false} NearestScaled(z: real, k: nat, top: int)
    requires top > 1 && (top as real) / 2.0 <= z < top as real
    ensures Nearest(Double(z, k), top) as real == Double(Round(z) as real, k)
  {
    if k > 0 {
      NearestScaled(z, k - 1, top);
      DoubleAtLeast(z, k - 1);
      assert Double(z, k) / 2.0 == Double(z, k - 1);
    }
  }

  /** From 16 to 32 the multiples of 2^-6 are kept. */
  lemma ValueInBinade(x: real, z: real)
    requires z == Single(x * STEPS) / 262144.0 && 1024.0 <= z < 2048.0
    ensures HalfValue(x) == Round(z) as real / 64.0
  {
    DoubleEighteen(z);
    NearestScaled(z, 18, HALF_TOP);
    DoubleEighteen(Round(z) as real);
  }

  /** Small multiples of one half are exact. */
  lemma ValueOfHalves(n: nat)
    requires n < HALF_TOP
    ensures HalfValue(n as real / 2.0) == n as real / 2.0
  {
    var x := Double(n as real, 23);
    DoubleTwentyThree(n as real);
    assert (n as real / 2.0) * STEPS == x;
    SingleExact(n, 23, Units());
    NearestExact(n, 23, HALF_TOP);
  }

  lemma SingleExact(n: nat, k: nat, u: real)
    requires n < SINGLE_TOP && u > 0.0 && u == Double(1.0, 125)
    ensures SingleIn(Double(n as real, k), u) == Double(n as real, k)
  {
    var x := Double(n as real, k);
    NearestExact(n, k + 125, SINGLE_TOP);
    DoubleAdd(n as real, k, 125);
    DoubleTimes(x, 125);
    var p := Times(x, u);
    assert p == Double(n as real, k + 125);
    assert Nearest(p, SINGLE_TOP) as real == p;
    Reals.Exactly(p, x, u);
  }

  /** A rounded number keeps the digits of a format: it is an integer of at most `top`, doubled some times. With
      NearestError this makes it a nearest one. */
  lemma {:induction false} NearestDigits(x: real, top: int) returns (n: nat, k: nat)
    requires x >= 0.0 && top > 1
    ensures n <= top && Nearest(x, top) as real == Double(n as real, k)
    ensures k > 0 ==> 2 * n >= top - 1
    decreases x.Floor
  {
    NearestNonNegative(x, top);
    if x < top as real {
      n, k := Round(x), 0;
      RoundMonotone(x, top as real);
      RoundInteger(top);
    } else {
      n, k := NearestDigits(x / 2.0, top);
      if k == 0 { AtLeastHalf(x / 2.0, top); }
      k := k + 1;
    }
  }

  lemma AtLeastHalf(x: real, top: int)
    requires top > 1 && top as real <= 2.0 * x
    ensures 2 * Nearest(x, top) >= top - 1
  {
    if x >= top as real { NearestFloor(x, top); }
  }

  lemma {:induction false} NearestFloor(x: real, top: int)
    requires top > 1 && top as real <= 2.0 * x
    ensures 2 * Nearest(x, top) >= top - 1
    decreases x.Floor
  {
    if x >= top as real { NearestFloor(x / 2.0, top); }
  }

  /** The units of the two formats: 2^125 of binary32's in a step, eleven and twenty-four digits. */
  lemma FormatLaw(x: real)
    requires Double(1.0, 125) > 0.0
    ensures Half(x) == Nearest(x, 2048) && Single(x) == SingleIn(x, Double(1.0, 125))
    ensures HalfValue(x) * 16777216.0 == Half(Single(x * 16777216.0)) as real
  {
    assert Units() == Double(1.0, 125);
  }

  lemma SingleInLaw(x: real, u: real, p: real)
    requires u > 0.0 && p == Times(x, u)
    ensures p == x * u && SingleIn(x, u) * u == Nearest(p, 16777216) as real
  {
    Reals.Undo(Nearest(p, SINGLE_TOP) as real, u);
  }
}
