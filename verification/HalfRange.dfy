/** The scale chain of the packer in half precision, and which channels it leaves in the kernel's range.
    Weights and scales are counted in steps of 2^-24. */
module HalfRange {
  import Reals
  import opened Arithmetic
  import opened Rounding
  import opened W4A8
  import opened KernelRange
  import opened HalfPrecision

  const ONE: int := 16777216      // 1.0
  const FLOOR_STEPS: int := 17    // the scale floor in half precision

  lemma FloorSteps()
    ensures Half(SCALE_FLOOR * STEPS) == FLOOR_STEPS
  {
    assert Round(16.777216) == 17;
  }

  // ----- the chain -----

  function Size(w: int): nat {
    if w < 0 then -w else w
  }

  /** `abs().amax()`. */
  function Largest(s: seq<int>): nat {
    if s == [] then 0 else if Size(s[0]) < Largest(s[1..]) then Largest(s[1..]) else Size(s[0])
  }

  function Floored(m: nat): nat {
    if m < FLOOR_STEPS then FLOOR_STEPS else m
  }

  /** `clamp_min(1e-6).div(7.0)` of a group maximum. */
  function GroupScale(m: nat): int {
    HalfOf(Floored(m) as real / 7.0)
  }

  /** `div(127.0)` of a channel maximum, an exact zero replaced by one. */
  function ChannelSteps(t: nat): int {
    var c := HalfOf(t as real / 127.0);
    if c == 0 then ONE else c
  }

  /** `torch.round(w / s)`. */
  function Ratio(w: int, s: int): int
    requires s > 0
  {
    Round(HalfValue(w as real / s as real))
  }

  function HalfLevel(w: int, s: int): (q: nat)
    requires s > 0
    ensures q < 16
  {
    Clamp(Ratio(w, s) + 8, 0, 15)
  }

  /** The stored group scale: the quotient of the two scales. */
  function HalfStored(s: int, c: int): real
    requires c > 0
  {
    HalfValue(s as real / c as real)
  }

  // ----- closed forms of the scales -----

  /** Rounding a quotient of integers by an odd divisor meets no tie. */
  lemma NearDivision(t: nat, d: int, c: int)
    requires d == 7 || d == 127
    requires c == HalfOf(t as real / d as real) && t as real / d as real <= 2047.9
    ensures c == (t + d / 2) / d
  {
    var x := t as real / d as real;
    HalfOfError(x);
    if d == 7 {
      assert t as real == 7.0 * x;
      assert -3 <= 7 * c - t <= 3;
    } else {
      assert t as real == 127.0 * x;
      assert -63 <= 127 * c - t <= 63;
    }
  }

  lemma GroupScaleIs(m: nat)
    requires m < 14336
    ensures GroupScale(m) == (Floored(m) + 3) / 7
  {
    NearDivision(Floored(m), 7, GroupScale(m));
  }

  lemma ChannelStepsIs(t: nat)
    requires t < 260083
    ensures ChannelSteps(t) == if t < 64 then ONE else (t + 63) / 127
  {
    NearDivision(t, 127, HalfOf(t as real / 127.0));
  }

  lemma GroupScaleNear(m: nat)
    ensures Abs(GroupScale(m) as real - Floored(m) as real / 7.0) <= 0.501 + Floored(m) as real / 14000.0
    ensures GroupScale(m) >= 2
  {
    HalfOfError(Floored(m) as real / 7.0);
  }

  lemma ChannelStepsPositive(t: nat)
    ensures ChannelSteps(t) > 0
    ensures t >= 14336 ==> ChannelSteps(t) as real >= t as real / 127.0 * 0.9955
  {
    HalfOfError(t as real / 127.0);
  }

  // ----- levels -----

  /** No rounded ratio leaves -7..7 exactly when the maximum is below seven and a half scales. */
  lemma RatioIff(m: nat, s: int)
    requires s > 0 && (s <= 6 || 7 * m <= 52 * s)
    ensures Ratio(m, s) <= 7 <==> 2 * m < 15 * s
  {
    var x := m as real / s as real;
    ValueError(x);
    if 2 * m == 15 * s {
      Reals.Exactly(m as real, 7.5, s as real);
      ValueOfHalves(15);
      assert Round(7.5) == 8;
    } else if 2 * m < 15 * s {
      SmallRatio(m, s, x);
    } else {
      LargeRatio(m, s, x);
    }
  }

  lemma SmallRatio(m: nat, s: int, x: real)
    requires s > 0 && x == m as real / s as real && 2 * m < 15 * s && (s <= 6 || 7 * m <= 52 * s)
    ensures x <= 7.45
  {
    if s <= 6 {
      assert 20 * m <= 149 * s;
      Reals.AtMost(m as real, 7.45, s as real);
    } else {
      Reals.AtMost(m as real, 7.45, s as real);
    }
  }

  lemma LargeRatio(m: nat, s: int, x: real)
    requires 0 < s <= 6 && x == m as real / s as real && 2 * m > 15 * s
    ensures x >= 7.55
  {
    assert 20 * m >= 151 * s;
    Reals.AtLeast(m as real, 7.55, s as real);
  }

  lemma RatioBounded(w: int, m: nat, s: int)
    requires s > 0 && Size(w) <= m
    ensures -Ratio(m, s) <= Ratio(w, s) <= Ratio(m, s) && Ratio(m, s) >= 0
    ensures Size(w) == m ==> Size(Ratio(w, s)) == Ratio(m, s)
  {
    RatioSigned(w, Size(w), s);
    RatioMonotone(Size(w), m, s);
  }

  lemma RatioSigned(w: int, v: int, s: int)
    requires s > 0 && v >= 0 && (w == v || w == -v)
    ensures Ratio(v, s) >= 0 && Ratio(w, s) == if w == v then Ratio(v, s) else -Ratio(v, s)
  {
    RatioMonotone(0, v, s);
    RatioOdd(v, s);
    RatioZero(s);
  }

  lemma RatioZero(s: int)
    requires s > 0
    ensures Ratio(0, s) == 0
  {
    ValueOfHalves(0);
    Reals.Exactly(0.0, 0.0, s as real);
    RoundInteger(0);
  }

  lemma RatioMonotone(v: nat, m: nat, s: int)
    requires s > 0 && v <= m
    ensures Ratio(v, s) <= Ratio(m, s)
  {
    Reals.DivideOrder(v as real, m as real, s as real);
    Reals.AtLeast(v as real, 0.0, s as real);
    ValueMonotone(v as real / s as real, m as real / s as real);
    RoundMonotone(HalfValue(v as real / s as real), HalfValue(m as real / s as real));
  }

  lemma RatioOdd(v: int, s: int)
    requires v >= 0 && s > 0
    ensures Ratio(-v, s) == -Ratio(v, s)
  {
    var x := v as real / s as real;
    Quotients(v as real, s as real);
    assert (-v) as real == -(v as real);
    ValueOdd(x);
    RoundOdd(HalfValue(x));
  }

  /** A scale of seven steps or more is close enough to a seventh of its maximum. */
  lemma ScaleCovers(m: nat)
    ensures GroupScale(m) <= 6 || 7 * m <= 52 * GroupScale(m)
  {
    if m < 14336 {
      GroupScaleIs(m);
    } else {
      GroupScaleNear(m);
    }
  }

  lemma LargestBounds(s: seq<int>, j: nat)
    requires j < |s|
    ensures Size(s[j]) <= Largest(s)
    decreases j
  {
    if j > 0 { LargestBounds(s[1..], j - 1); }
  }

  lemma LargestAttained(s: seq<int>) returns (j: nat)
    requires s != []
    ensures j < |s| && Size(s[j]) == Largest(s)
  {
    if |s| == 1 || Largest(s[1..]) <= Size(s[0]) {
      j := 0;
    } else {
      j := LargestAttained(s[1..]);
      j := j + 1;
    }
  }

  /** The levels of a group miss 0, and the clamp leaves them alone, exactly when the maximum is below seven
      and a half of the scales it gets. */
  lemma LevelsIff(group: seq<int>)
    ensures GroupScale(Largest(group)) > 0
    ensures var s := GroupScale(Largest(group));
      (forall j :: 0 <= j < |group| ==> 1 <= Ratio(group[j], s) + 8 <= 15) <==> 2 * Largest(group) < 15 * s
  {
    var m := Largest(group);
    var s := GroupScale(m);
    GroupScaleNear(m);
    ScaleCovers(m);
    RatioIff(m, s);
    forall j | 0 <= j < |group| ensures -Ratio(m, s) <= Ratio(group[j], s) <= Ratio(m, s) {
      LargestBounds(group, j);
      RatioBounded(group[j], m, s);
    }
    if group != [] {
      var j := LargestAttained(group);
      RatioBounded(group[j], m, s);
    }
  }

  /** Those are all the maxima but nine. */
  lemma NineMaxima(m: nat)
    ensures 2 * m >= 15 * GroupScale(m) <==> m in {15, 16, 17, 23, 24, 30, 31, 38, 45}
  {
    if m < 14336 { GroupScaleIs(m); } else { ScaleCovers(m); GroupScaleNear(m); }
  }

  /** At a maximum of 17 steps, just above the floor, both ends go wrong. */
  lemma LevelReachesZero()
    ensures GroupScale(17) == 2 && HalfLevel(-17, 2) == 0 && Ratio(17, 2) + 8 == 16
  {
    GroupScaleIs(17);
    ValueOfHalves(17);
    assert Round(8.5) == 8;
    RatioOdd(17, 2);
  }

  // ----- stored scales -----

  lemma QuotientWithin(s: real, c: real, b: real, x: real)
    requires 0.0 <= s <= b * c && c > 0.0 && x == s / c
    ensures 0.0 <= x <= b
  {
    Reals.AtMost(s, b, c);
    Reals.AtLeast(s, 0.0, c);
  }

  lemma StoredLoose(s: int, c: int, b: real)
    requires 0 <= s && 0 < c && s as real <= b * c as real
    ensures 0.0 <= HalfStored(s, c) <= b * 1.0005 + 0.0000001
  {
    var x := s as real / c as real;
    QuotientWithin(s as real, c as real, b, x);
    ValueError(x);
    ValueNonNegative(x);
  }

  /** Just below 1170.5 / 64 and just above it. */
  lemma ValuesAtLimit()
    ensures HalfValue(18.2890025) == 1170.0 / 64.0 && HalfValue(18.2891225) == 1171.0 / 64.0
  {
    NearLimit(18.2890025, 1170);
    NearLimit(18.2891225, 1171);
  }

  lemma NearLimit(x: real, n: int)
    requires n as real - 0.4999 <= 64.0 * x <= n as real + 0.4999 && 18.0 <= x <= 19.0
    ensures HalfValue(x) == n as real / 64.0
  {
    SingleError(x * STEPS);
    var z := Single(x * STEPS) / 262144.0;
    assert n as real - 0.5 < z < n as real + 0.5;
    ValueInBinade(x, z);
    assert Round(z) == n;
  }

  lemma NoTie(s: int, c: int)
    requires 0 < c < 128
    ensures 128 * s != 2341 * c
  {
    var k := 45 * s - 823 * c;
    assert 45 * (128 * s - 2341 * c) == 128 * k - c;
  }

  lemma BelowLimit(s: real, c: real, x: real)
    requires 0.0 < c < 128.0 && 128.0 * s <= 2341.0 * c - 1.0 && x == s / c
    ensures x <= 18.2890025
  {
    Reals.AtMost(s, 18.2890025, c);
  }

  lemma AboveLimit(s: real, c: real, x: real)
    requires 0.0 < c < 128.0 && 128.0 * s >= 2341.0 * c + 1.0 && x == s / c
    ensures x >= 18.2891225
  {
    Reals.AtLeast(s, 18.2891225, c);
  }

  /** The stored ratio of two scales, on either side of the largest safe one. */
  lemma StoredIff(s: int, c: int)
    requires 0 <= s && 0 < c < 128
    ensures HalfStored(s, c) >= 0.0
    ensures if 128 * s <= 2341 * c then HalfStored(s, c) <= 1170.0 / 64.0 else HalfStored(s, c) >= 1171.0 / 64.0
  {
    var x := s as real / c as real;
    Reals.AtLeast(s as real, 0.0, c as real);
    ValueNonNegative(x);
    NoTie(s, c);
    ValuesAtLimit();
    if 128 * s <= 2341 * c {
      BelowLimit(s as real, c as real, x);
      ValueMonotone(x, 18.2890025);
    } else {
      AboveLimit(s as real, c as real, x);
      ValueMonotone(18.2891225, x);
    }
  }

  lemma ValueNonNegative(x: real)
    requires x >= 0.0
    ensures HalfValue(x) >= 0.0
  {
    ValueMonotone(0.0, x);
    ValueOfHalves(0);
  }

  // ----- products -----

  lemma SafeProduct(q: nat, h: real)
    requires 0.0 <= h && ((1 <= q <= 15 && h <= 1170.0 / 64.0) || (q < 16 && h <= 15.0))
    ensures InRange(StoredProduct(q, h))
  {
    var l := q as real - 8.0;
    if q == 0 {
      Reals.Sandwich(0.0, h, 15.0, 8.0, h * 8.0);
    } else {
      Reals.Sandwich(-7.0, l, 7.0, h, l * h);
    }
  }

  lemma UnsafeProduct(q: nat, h: real)
    requires (q == 1 || q == 15) && h >= 1171.0 / 64.0
    ensures !InRange(StoredProduct(q, h))
  {}

  /** The condition on a channel maximum of t steps. */
  predicate HalfSafe(t: nat) {
    128 * GroupScale(t) <= 2341 * ChannelSteps(t)
  }

  /** What the kernel multiplies for a weight w of a group with maximum m, in a channel with maximum t. */
  function Element(w: int, m: nat, t: nat): real {
    GroupScaleNear(m);
    ChannelStepsPositive(t);
    StoredProduct(HalfLevel(w, GroupScale(m)), HalfStored(GroupScale(m), ChannelSteps(t)))
  }

  lemma GroupScaleOrder(m: nat, t: nat)
    requires m <= t < 14336
    ensures GroupScale(m) <= GroupScale(t)
  {
    GroupScaleIs(m);
    GroupScaleIs(t);
  }

  /** From 14336 steps on the two scales are close to exact. */
  lemma LargeScales(m: nat, t: nat)
    requires m <= t && t >= 14336
    ensures 4 * GroupScale(m) <= 73 * ChannelSteps(t)
  {
    GroupScaleNear(m);
    ChannelStepsPositive(t);
  }

  lemma StoredSmall(m: nat, t: nat)
    requires m <= t && HalfSafe(t)
    ensures ChannelSteps(t) > 0 && 0.0 <= HalfStored(GroupScale(m), ChannelSteps(t)) <= 1170.0 / 64.0
  {
    var s, c := GroupScale(m), ChannelSteps(t);
    GroupScaleNear(m);
    ChannelStepsPositive(t);
    if t >= 14336 {
      LargeScales(m, t);
    } else {
      GroupScaleOrder(m, t);
      ChannelRange(t);
    }
    StoredWithin(s, c);
  }

  lemma StoredWithin(s: int, c: int)
    requires 0 <= s && 0 < c && (4 * s <= 73 * c || (c < 128 && 128 * s <= 2341 * c))
    ensures 0.0 <= HalfStored(s, c) <= 1170.0 / 64.0
  {
    if 4 * s <= 73 * c { StoredLoose(s, c, 18.25); } else { StoredIff(s, c); }
  }

  lemma ChannelRange(t: nat)
    requires t < 14336
    ensures if t < 64 then ChannelSteps(t) == ONE && GroupScale(t) <= 9 else 0 < ChannelSteps(t) < 128
  {
    GroupScaleIs(t);
    ChannelStepsIs(t);
  }

  lemma ElementSafe(w: int, m: nat, t: nat)
    requires Size(w) <= m <= t && HalfSafe(t)
    ensures InRange(Element(w, m, t))
  {
    var s, c := GroupScale(m), ChannelSteps(t);
    GroupScaleNear(m);
    ChannelStepsPositive(t);
    if s <= 6 {
      StoredLoose(s, c, 6.0);
    } else {
      ScaleCovers(m);
      RatioIff(m, s);
      RatioBounded(w, m, s);
      StoredSmall(m, t);
    }
    SafeProduct(HalfLevel(w, s), HalfStored(s, c));
  }

  /** Outside the condition the maximum itself leaves the range. */
  lemma TopUnsafe(w: int, t: nat)
    requires Size(w) == t && !HalfSafe(t)
    ensures !InRange(Element(w, t, t))
  {
    var s, c := GroupScale(t), ChannelSteps(t);
    FailingRange(t);
    GroupScaleIs(t);
    ChannelStepsIs(t);
    StoredIff(s, c);
    TopRatio(t, s);
    RatioBounded(w, t, s);
    UnsafeProduct(HalfLevel(w, s), HalfStored(s, c));
  }

  lemma TopRatio(t: nat, s: int)
    requires t >= 64 && 7 * s <= t + 3 && t <= 7 * s + 3
    ensures Ratio(t, s) == 7
  {
    var x := t as real / s as real;
    NearSeven(t as real, s as real, x);
    ValueError(x);
  }

  lemma NearSeven(t: real, s: real, x: real)
    requires s >= 9.0 && 7.0 * s <= t + 3.0 && t <= 7.0 * s + 3.0 && x == t / s
    ensures 6.6 <= x <= 7.4
  {
    Reals.AtMost(t, 7.4, s);
    Reals.AtLeast(t, 6.6, s);
  }

  // ----- channels -----

  /** Group a of a channel. */
  function Group(row: seq<int>, gs: nat, a: nat): (group: seq<int>)
    requires (a + 1) * gs <= |row|
    ensures |group| == gs
  {
    assert a * gs + gs == (a + 1) * gs;
    row[a * gs..a * gs + gs]
  }

  lemma SliceMember(row: seq<int>, from: nat, size: nat, j: nat)
    requires from + size <= |row| && j < size
    ensures Size(row[from + j]) <= Largest(row[from..from + size]) <= Largest(row)
  {
    var group := row[from..from + size];
    LargestBounds(group, j);
    var top := LargestAttained(group);
    LargestBounds(row, from + top);
  }

  lemma GroupAt(row: seq<int>, groups: nat, gs: nat, kk: nat)
    requires |row| == groups * gs && kk < |row|
    ensures gs > 0 && 0 <= kk / gs < groups && (kk / gs + 1) * gs <= |row|
    ensures Size(row[kk]) <= Largest(Group(row, gs, kk / gs)) <= Largest(row)
  {
    Split(kk, groups, gs);
    RowFits(kk / gs, groups, gs);
    SliceMember(row, kk / gs * gs, gs, kk % gs);
  }

  /** The product of weight kk of a channel in groups of gs. */
  function HalfProduct(row: seq<int>, groups: nat, gs: nat, kk: nat): real
    requires |row| == groups * gs && kk < |row|
  {
    GroupAt(row, groups, gs, kk);
    Element(row[kk], Largest(Group(row, gs, kk / gs)), Largest(row))
  }

  /** All products of a channel are in the kernel's range exactly when its maximum meets the condition. */
  lemma ChannelIff(row: seq<int>, groups: nat, gs: nat)
    requires |row| == groups * gs
    ensures (forall kk :: 0 <= kk < |row| ==> InRange(HalfProduct(row, groups, gs, kk))) <==> HalfSafe(Largest(row))
  {
    var t := Largest(row);
    if HalfSafe(t) {
      forall kk | 0 <= kk < |row| ensures InRange(HalfProduct(row, groups, gs, kk)) {
        GroupAt(row, groups, gs, kk);
        ElementSafe(row[kk], Largest(Group(row, gs, kk / gs)), t);
      }
    } else {
      if row == [] { SafeBelow(0); }
      var kk := LargestAttained(row);
      GroupAt(row, groups, gs, kk);
      TopUnsafe(row[kk], t);
      assert !InRange(HalfProduct(row, groups, gs, kk));
    }
  }

  // ----- which maxima -----

  lemma SafeBelow(t: nat)
    requires t < 130
    ensures HalfSafe(t)
  {
    GroupScaleIs(t);
    ChannelStepsIs(t);
  }

  lemma SafeAbove(t: nat)
    requires t >= 7938
    ensures HalfSafe(t)
  {
    if t < 14336 {
      GroupScaleIs(t);
      ChannelStepsIs(t);
      ScalesAbove(t, GroupScale(t), ChannelSteps(t));
    } else {
      LargeScales(t, t);
      ChannelStepsPositive(t);
    }
  }

  lemma ScalesAbove(t: nat, s: int, c: int)
    requires t >= 7938 && 7 * s <= t + 3 && t <= 127 * c + 63
    ensures 128 * s <= 2341 * c
  {
    assert c >= 63;
    if c == 63 { assert s <= 1152; } else if c == 64 { assert s <= 1170; }
  }

  /** The condition in closed form. */
  lemma HalfSafeIs(t: nat)
    requires 64 <= t < 14336
    ensures HalfSafe(t) <==> 128 * ((t + 3) / 7) <= 2341 * ((t + 63) / 127)
  {
    GroupScaleIs(t);
    ChannelStepsIs(t);
  }

  lemma FailingRange(t: nat)
    ensures !HalfSafe(t) ==> 130 <= t <= 7937
  {
    if t < 130 { SafeBelow(t); } else if t > 7937 { SafeAbove(t); }
  }

  /** Failing maxima: the least, the greatest, and one between. */
  lemma Failing()
    ensures forall t: nat :: t in {130, 185, 7936} ==> !HalfSafe(t)
  {
    forall t: nat | t in {130, 185, 7936} ensures !HalfSafe(t) {
      HalfSafeIs(t);
      FailsAt(t, (t + 3) / 7, (t + 63) / 127);
    }
  }

  lemma FailsAt(t: nat, s: int, c: int)
    requires t in {130, 185, 7936} && s == (t + 3) / 7 && c == (t + 63) / 127
    ensures 128 * s > 2341 * c
  {}

  /** Each of them is a half-precision number; 7937, between the last and SafeAbove, is not. */
  lemma HalfNumbers()
    ensures Half(130.0) == 130 && Half(185.0) == 185 && Half(7936.0) == 7936 && Half(7937.0) == 7936
  {
    RoundInteger(130);
    RoundInteger(185);
    RoundInteger(1984);
    assert Round(1984.25) == 1984;
    FourUnits(7936.0);
    FourUnits(7937.0);
  }

  lemma FourUnits(x: real)
    requires 4096.0 <= x < 8192.0
    ensures Half(x) == 4 * Round(x / 4.0)
  {
    assert Half(x) == 2 * Nearest(x / 2.0, HALF_TOP);
    assert Nearest(x / 2.0, HALF_TOP) == 2 * Nearest(x / 2.0 / 2.0, HALF_TOP);
  }

  // ----- the calibrated branch -----

  /** A capped scale that is not negative stores at most 16, which is safe for every level. */
  lemma CalibratedSafe(s: int, c: int)
    requires 0 <= s <= 16 * c && 0 < c
    ensures SafeForAll(HalfStored(s, c))
  {
    var x := s as real / c as real;
    QuotientWithin(s as real, c as real, 16.0, x);
    ValueNonNegative(x);
    ValueMonotone(x, 16.0);
    ValueOfHalves(32);
    SafeIff(HalfStored(s, c));
  }

  // ----- the chain in numbers -----

  /** m bounds the magnitudes of the group of weight kk and is one of them. */
  ghost predicate PeakOf(row: seq<int>, gs: nat, kk: nat, m: int)
    requires gs > 0
  {
    && (forall j: nat :: j < |row| && j / gs == kk / gs ==> -m <= row[j] <= m)
    && exists j: nat :: j < |row| && j / gs == kk / gs && (row[j] == m || row[j] == -m)
  }

  /** The product of weight kk: its level and the ratio of the scale of its own group to that of its channel. */
  lemma ProductLaw(row: seq<int>, groups: nat, gs: nat, kk: nat) returns (m: nat, t: nat, s: int, c: int)
    requires |row| == groups * gs && kk < |row|
    ensures gs > 0 && PeakOf(row, gs, kk, m) && PeakOf(row, |row|, kk, t)
    ensures s == GroupScale(m) > 0 && c == ChannelSteps(t) > 0
    ensures HalfProduct(row, groups, gs, kk) == StoredProduct(HalfLevel(row[kk], s), HalfStored(s, c))
  {
    GroupAt(row, groups, gs, kk);
    m, t := Largest(Group(row, gs, kk / gs)), Largest(row);
    GroupPeak(row, gs, kk / gs, kk);
    WholePeak(row, kk);
    s, c := GroupScale(m), ChannelSteps(t);
    GroupScaleNear(m);
    ChannelStepsPositive(t);
    ElementIs(row[kk], m, t, s, c);
  }

  lemma ElementIs(w: int, m: nat, t: nat, s: int, c: int)
    requires s == GroupScale(m) > 0 && c == ChannelSteps(t) > 0
    ensures Element(w, m, t) == StoredProduct(HalfLevel(w, s), HalfStored(s, c))
  {}

  lemma LevelIs(w: int, s: int)
    requires s > 0
    ensures var n := Ratio(w, s); HalfLevel(w, s) == if n < -8 then 0 else if n > 7 then 15 else n + 8
  {}

  lemma SlicePeak(row: seq<int>, from: nat, size: nat, m: int) returns (at: nat)
    requires from + size <= |row| && size > 0 && m == Largest(row[from..from + size])
    ensures forall j :: from <= j < from + size ==> -m <= row[j] <= m
    ensures from <= at < from + size && (row[at] == m || row[at] == -m)
  {
    var group := row[from..from + size];
    forall j | from <= j < from + size ensures -m <= row[j] <= m {
      LargestBounds(group, j - from);
    }
    at := LargestAttained(group);
    at := from + at;
  }

  lemma Column(j: nat, gs: nat, a: nat, from: nat)
    requires gs > 0 && from == a * gs
    ensures j / gs == a <==> from <= j < from + gs
  {
    var q, r := j / gs, j % gs;
    assert j == q * gs + r;
    if from <= j < from + gs { Apart(q, a, gs, r, j - from); }
  }

  lemma GroupPeak(row: seq<int>, gs: nat, a: nat, kk: nat)
    requires gs > 0 && (a + 1) * gs <= |row| && kk / gs == a
    ensures PeakOf(row, gs, kk, Largest(Group(row, gs, a)))
  {
    var from := a * gs;
    assert from + gs == (a + 1) * gs;
    InColumns(row, gs, a, from, kk, Largest(Group(row, gs, a)));
  }

  lemma InColumns(row: seq<int>, gs: nat, a: nat, from: nat, kk: nat, m: int)
    requires gs > 0 && from == a * gs && from + gs <= |row| && kk / gs == a && m == Largest(row[from..from + gs])
    ensures PeakOf(row, gs, kk, m)
  {
    var at := SlicePeak(row, from, gs, m);
    forall j: nat | j < |row| && j / gs == kk / gs ensures -m <= row[j] <= m { Column(j, gs, a, from); }
    Column(at, gs, a, from);
  }

  lemma WholePeak(row: seq<int>, kk: nat)
    requires kk < |row|
    ensures PeakOf(row, |row|, kk, Largest(row))
  {
    var m: int := Largest(row);
    forall j: nat | j < |row| ensures j / |row| == 0 && -m <= row[j] <= m {
      DivMod(0, |row|, j);
      LargestBounds(row, j);
    }
    var j := LargestAttained(row);
  }

  /** The scales, ratio and stored scale as rounded quotients. */
  lemma ChainLaw(m: nat, t: nat, w: int, s: int, c: int)
    requires s > 0 && c > 0
    ensures GroupScale(m) as real == 16777216.0 * HalfValue((if m < 17 then 17 else m) as real / 7.0 / 16777216.0)
    ensures Ratio(w, s) == Round(HalfValue(w as real / s as real))
    ensures HalfStored(s, c) == HalfValue(s as real / c as real)
  {
    var x := (if m < 17 then 17 else m) as real / 7.0;
    assert x / 16777216.0 * STEPS == x;
  }
}
