/** The arithmetic contract with the kernel: adding 1152 to (q - 8) * s_group must stay in the binade
    [1024, 1280) where the half-precision mantissa holds the integer (binary16, section 3.4 of
    IEEE 754-2008). */
module KernelRange {
  import Reals
  import opened Rounding
  import opened W4A8

  const MAGIC: real := 1152.0

  function StoredProduct(q: nat, stored: real): real {
    (q as real - 8.0) * stored
  }

  predicate InRange(product: real) {
    1024.0 <= product + MAGIC < 1280.0
  }

  /** A stored scale that keeps every level in range. */
  ghost predicate SafeForAll(stored: real) {
    forall q: nat :: q < 16 ==> InRange(StoredProduct(q, stored))
  }

  /** A stored group scale is safe for every level exactly when it lies in (-16, 16]: sixteen is the
      largest safe scale. */
  lemma SafeIff(stored: real)
    ensures SafeForAll(stored) <==> -16.0 < stored <= 16.0
  {
    if -16.0 < stored <= 16.0 {
      forall q: nat | q < 16 ensures InRange(StoredProduct(q, stored)) {
        Bounded(q as real - 8.0, stored, StoredProduct(q, stored));
      }
    } else {
      assert StoredProduct(0, stored) == -8.0 * stored;
      assert !InRange(StoredProduct(0, stored));
    }
  }

  lemma Bounded(t: real, s: real, p: real)
    requires -8.0 <= t <= 7.0 && -16.0 < s <= 16.0 && p == t * s
    ensures -128.0 <= p < 128.0
  {
    if s >= 0.0 {
      Reals.Sandwich(-8.0, t, 7.0, s, p);
      assert -8.0 * s <= p <= 7.0 * s;
    } else {
      Reals.Sandwich(-7.0, -t, 8.0, -s, p);
      assert -7.0 * -s <= p <= 8.0 * -s;
    }
  }

  /** The cap makes the calibrated branch safe for every level, as long as the scale is above -16
      channel scales; every positive scale is. */
  lemma CappedSafeIff(s: real, c: real)
    requires c > 0.0
    ensures SafeForAll(CappedScale(s, c) / c) <==> s > -16.0 * c
  {
    var capped := CappedScale(s, c);
    SafeIff(capped / c);
    Reals.AtMost(capped, 16.0, c);
    Reals.AtMost(capped, -16.0, c);
    assert -16.0 * c < 16.0 * c;
  }

  // ----- the naive branch -----

  /** Over the reals, max-scaled levels never reach 0: the level of w is its rounded ratio, between -7 and 7. */
  lemma NaiveLevel(w: real, m: real, s: real)
    requires Abs(w) <= m && s == Max(m, SCALE_FLOOR) / 7.0
    ensures s > 0.0 && Quantise(w, s) == Round(w / s) + 8 && 1 <= Quantise(w, s) <= 15
  {
    assert Max(m, SCALE_FLOOR) == 7.0 * s;
    Reals.AtMost(w, 7.0, s);
    Reals.AtLeast(w, -7.0, s);
    RoundMonotone(-7.0, w / s);
    RoundMonotone(w / s, 7.0);
    RoundInteger(7);
    RoundInteger(-7);
  }

  lemma ZeroLevel(s: real)
    requires s > 0.0
    ensures Quantise(0.0, s) == 8
  {
    Reals.Exactly(0.0, 0.0, s);
    RoundInteger(0);
  }

  /** Over the reals, channels that are zero or reach the scale floor are safe in the naive branch. */
  lemma NaiveSafe(w: real, group: seq<real>, row: seq<real>)
    requires Abs(w) <= AbsMax(group) <= AbsMax(row)
    requires AbsMax(row) == 0.0 || AbsMax(row) >= SCALE_FLOOR
    ensures InRange(StoredProduct(Quantise(w, NaiveScale(group)), NaiveScale(group) / ChannelScale(row)))
  {
    ScaleValues(group, row);
    NaiveSafeCore(w, AbsMax(group), AbsMax(row), NaiveScale(group), ChannelScale(row));
  }

  lemma NaiveSafeCore(w: real, m: real, top: real, s: real, c: real)
    requires Abs(w) <= m <= top && s > 0.0 && c > 0.0 && s == Max(m, SCALE_FLOOR) / 7.0
    requires top == 0.0 || (top >= SCALE_FLOOR && 127.0 * c == top)
    ensures InRange(StoredProduct(Quantise(w, s), s / c))
  {
    NaiveLevel(w, m, s);
    var q := Quantise(w, s);
    if top == 0.0 {
      ZeroLevel(s);
      assert StoredProduct(8, s / c) == 0.0 * (s / c);
    } else {
      assert 7.0 * s <= top;
      SafeRatio(q as real - 8.0, s, c, s / c, StoredProduct(q, s / c));
    }
  }

  lemma ScaleValues(group: seq<real>, row: seq<real>)
    ensures NaiveScale(group) == Max(AbsMax(group), SCALE_FLOOR) / 7.0
    ensures AbsMax(row) > 0.0 ==> 127.0 * ChannelScale(row) == AbsMax(row)
    ensures AbsMax(row) == 0.0 ==> ChannelScale(row) == 1.0
  {}

  lemma SafeRatio(t: real, s: real, c: real, r: real, p: real)
    requires -7.0 <= t <= 7.0 && s > 0.0 && c > 0.0 && 7.0 * s <= 127.0 * c && r == s / c && p == t * r
    ensures -127.0 <= p <= 127.0
  {
    Reals.AtMost(s, 127.0 / 7.0, c);
    Reals.AtLeast(s, 0.0, c);
    Reals.Sandwich(-7.0, t, 7.0, r, p);
    assert -7.0 * r <= p <= 7.0 * r;
  }

  /** What the naive formula gives, over the reals, for element w of a channel whose maximum is below the
      floor: its group scale is the floored one whatever its group holds. */
  function FloorProduct(w: real, top: real): real
    requires top > 0.0
  {
    StoredProduct(Quantise(w, SCALE_FLOOR / 7.0), (SCALE_FLOOR / 7.0) / (top / 127.0))
  }

  /** The rounded ratio of w to the floored scale. */
  function Steps(w: real): int {
    Round(w / (SCALE_FLOOR / 7.0))
  }

  /** The product stays in range exactly when 127 steps stay within 128 channel maxima, both measured
      in floored scales. */
  lemma FloorProductIff(w: real, top: real)
    requires Abs(w) <= top && 0.0 < top < SCALE_FLOOR
    ensures InRange(FloorProduct(w, top)) <==>
      -128.0 * (top / (SCALE_FLOOR / 7.0)) <= 127.0 * Steps(w) as real < 128.0 * (top / (SCALE_FLOOR / 7.0))
  {
    var s := SCALE_FLOOR / 7.0;
    NaiveLevel(w, top, s);
    assert Quantise(w, s) as real - 8.0 == Steps(w) as real;
    UnitsIff(Steps(w) as real, s, top, top / 127.0, top / s, s / (top / 127.0), FloorProduct(w, top));
  }

  lemma UnitsIff(t: real, s: real, top: real, c: real, u: real, r: real, p: real)
    requires s > 0.0 && top > 0.0 && c == top / 127.0 && u == top / s && r == s / c && p == t * r
    ensures InRange(p) <==> -128.0 * u <= 127.0 * t < 128.0 * u
  {
    Reals.Undo(top, s);
    Reals.Undo(s, c);
    assert top == 127.0 * c;
    UnitRatio(s, c, u, r);
    assert p * u == t * (r * u);
    assert p * u == 127.0 * t;
    Reals.AtMost(top, 0.0, s);
    TimesUnits(p, u, 127.0 * t);
  }

  /** s / c channel scales times top / s floored scales is 127. */
  lemma UnitRatio(s: real, c: real, u: real, r: real)
    requires s > 0.0 && c > 0.0 && u * s == 127.0 * c && r * c == s
    ensures r * u == 127.0
  {
    var q := r * u;
    Regroup(r, u, c, q, s, q * c);
    if q > 127.0 { Reals.Positive(q - 127.0, c); }
    if q < 127.0 { Reals.Positive(127.0 - q, c); }
  }

  lemma Regroup(r: real, u: real, c: real, q: real, s: real, p: real)
    requires q == r * u && p == q * c && r * c == s
    ensures p == u * s
  {
    assert p == u * (r * c);
  }

  lemma TimesUnits(p: real, u: real, v: real)
    requires u > 0.0 && p * u == v
    ensures InRange(p) <==> -128.0 * u <= v < 128.0 * u
  {
    Reals.Exactly(v, p, u);
    Reals.AtLeast(v, -128.0, u);
    Reals.AtLeast(v, 128.0, u);
  }

  lemma StepsBounded(w: real, top: real)
    requires Abs(w) <= top
    ensures -Steps(top) <= Steps(w) <= Steps(top)
    ensures w == top ==> Steps(w) == Steps(top)
    ensures w == -top ==> Steps(w) == -Steps(top)
  {
    var s := SCALE_FLOOR / 7.0;
    Reals.DivideOrder(-top, w, s);
    Reals.DivideOrder(w, top, s);
    assert (-top) / s == -(top / s);
    RoundMonotone(-(top / s), w / s);
    RoundMonotone(w / s, top / s);
    RoundOdd(top / s);
  }

  /** Rounding the maximum does not overshoot: 127 steps stay below 128 maxima, or meet them when no
      element rounds up as far as the maximum. */
  predicate RoundsSafely(row: seq<real>) {
    var top := AbsMax(row);
    var units := top / (SCALE_FLOOR / 7.0);
    127.0 * Steps(top) as real < 128.0 * units ||
    (127.0 * Steps(top) as real == 128.0 * units && forall j :: 0 <= j < |row| ==> Steps(row[j]) != Steps(top))
  }

  /** For a channel whose maximum is positive but below the floor, the naive formula over the reals is
      safe exactly when the channel rounds safely. */
  lemma BelowFloorSafeIff(row: seq<real>, top: real, units: real)
    requires top == AbsMax(row) && 0.0 < top < SCALE_FLOOR && units == top / (SCALE_FLOOR / 7.0)
    ensures (forall j :: 0 <= j < |row| ==> InRange(FloorProduct(row[j], top))) <==>
      RoundsSafely(row)
  {
    var r := Steps(top);
    forall j | 0 <= j < |row|
      ensures InRange(FloorProduct(row[j], top)) <==> -128.0 * units <= 127.0 * Steps(row[j]) as real < 128.0 * units
      ensures -r <= Steps(row[j]) <= r
    {
      AbsMaxBounds(row, j);
      StepsBounded(row[j], top);
      FloorProductIff(row[j], top);
    }
    var at := AbsMaxAttained(row);
    StepsBounded(row[at], top);
    assert Steps(row[at]) == r || Steps(row[at]) == -r;
  }

  /** A channel the formula over the reals gets wrong: one element of 1e-7 among zeros. */
  lemma BelowFloorUnsafe()
    ensures var row := [0.0000001] + seq(127, _ => 0.0);
      0.0 < AbsMax(row) < SCALE_FLOOR && !InRange(FloorProduct(row[0], AbsMax(row)))
  {
    var row, w := [0.0000001] + seq(127, _ => 0.0), 0.0000001;
    assert row[1..] == seq(127, _ => 0.0);
    AbsMaxLeast(row[1..], 0.0);
    assert AbsMax(row) == w;
    Reals.Exactly(w, 0.7, SCALE_FLOOR / 7.0);
    assert Round(0.7) == 1;
    FloorProductIff(w, w);
  }

  /** The range is that of a signed byte. */
  lemma RangeLaw(product: real)
    ensures InRange(product) <==> -128.0 <= product < 128.0
  {}

  lemma StoredProductLaw(q: nat, stored: real)
    ensures StoredProduct(q, stored) == (q as real - 8.0) * stored
  {}
}
