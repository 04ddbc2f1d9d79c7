/** The scales of a packed tensor stated over its own weights: which magnitudes they bound and which they equal. */
module ScaleLaws {
  import Reals
  import opened Wrappers
  import opened Arithmetic
  import opened Rounding
  import opened Tensors
  import opened W4A8
  import opened W4A8RoundTrip
  import opened KernelRange
  import opened Repack
  import opened PackedRange

  /** Column kk belongs to group a. */
  predicate InGroup(kk: nat, a: nat, gs: nat) {
    a * gs <= kk < a * gs + gs
  }

  lemma GroupColumn(kk: nat, a: nat, gs: nat)
    requires gs > 0
    ensures InGroup(kk, a, gs) <==> kk / gs == a
  {
    var q, r := kk / gs, kk % gs;
    assert kk == q * gs + r;
    if InGroup(kk, a, gs) { Apart(q, a, gs, r, kk - a * gs); }
  }

  /** A weight, by channel and column. */
  function At(weight: Matrix, i: nat, kk: nat): real
    requires |weight.data| == weight.rows * weight.cols && i < weight.rows && kk < weight.cols
  {
    Within(i, kk, weight.rows, weight.cols);
    weight.data[i * weight.cols + kk]
  }

  /** Element j of a group is column a * gs + j of its channel. */
  lemma GroupElement(weight: Matrix, gs: nat, i: nat, a: nat, j: nat)
    requires |weight.data| == weight.rows * weight.cols && i < weight.rows && (a + 1) * gs <= weight.cols && j < gs
    ensures a * gs + j < weight.cols && GroupSlice(weight, i, a, gs)[j] == At(weight, i, a * gs + j)
  {
    assert a * gs + gs == (a + 1) * gs;
    RowElement(weight.data, i, weight.rows, weight.cols, a * gs + j);
  }

  /** b bounds every magnitude of group a, and is one of them. */
  ghost predicate Peak(weight: Matrix, gs: nat, i: nat, a: nat, b: real)
    requires |weight.data| == weight.rows * weight.cols && i < weight.rows
  {
    && (forall kk: nat :: kk < weight.cols && InGroup(kk, a, gs) ==> -b <= At(weight, i, kk) <= b)
    && (exists kk: nat :: kk < weight.cols && InGroup(kk, a, gs) && (At(weight, i, kk) == b || At(weight, i, kk) == -b))
  }

  lemma GroupPeak(weight: Matrix, gs: nat, i: nat, a: nat)
    requires |weight.data| == weight.rows * weight.cols && i < weight.rows && gs > 0 && (a + 1) * gs <= weight.cols
    ensures Peak(weight, gs, i, a, AbsMax(GroupSlice(weight, i, a, gs)))
  {
    var group := GroupSlice(weight, i, a, gs);
    forall kk: nat | kk < weight.cols && InGroup(kk, a, gs)
      ensures -AbsMax(group) <= At(weight, i, kk) <= AbsMax(group)
    {
      GroupElement(weight, gs, i, a, kk - a * gs);
      AbsMaxBounds(group, kk - a * gs);
    }
    var j := AbsMaxAttained(group);
    GroupElement(weight, gs, i, a, j);
    assert InGroup(a * gs + j, a, gs);
  }

  /** Without calibrated scales seven times a working scale bounds the magnitudes of its own group and 1e-6, and
      is one of them. */
  lemma NaiveScaleLaw(weight: Matrix, gs: nat, i: nat, a: nat, s: real)
    requires gs > 0 && weight.cols == (weight.cols / gs) * gs && |weight.data| == weight.rows * weight.cols
    requires i < weight.rows && a < weight.cols / gs && At2(a, i, weight.rows) < |WorkScales(weight, None, gs)|
    requires s == WorkScales(weight, None, gs)[At2(a, i, weight.rows)]
    ensures 7.0 * s >= 0.000001
    ensures forall kk: nat :: kk < weight.cols && kk / gs == a ==> -7.0 * s <= At(weight, i, kk) <= 7.0 * s
    ensures 7.0 * s == 0.000001 || (exists kk: nat ::
        kk < weight.cols && kk / gs == a && (At(weight, i, kk) == 7.0 * s || At(weight, i, kk) == -7.0 * s))
  {
    WorkScalesAt(weight, None, gs, a, i);
    var top := AbsMax(GroupSlice(weight, i, a, gs));
    GroupPeak(weight, gs, i, a);
    assert 7.0 * s == if top < 0.000001 then 0.000001 else top;
    PeakInGroup(weight, gs, i, a, top, 7.0 * s);
  }

  /** The same over the quotient of the column. */
  lemma PeakInGroup(weight: Matrix, gs: nat, i: nat, a: nat, top: real, b: real)
    requires gs > 0 && |weight.data| == weight.rows * weight.cols && i < weight.rows && Peak(weight, gs, i, a, top)
    requires b >= top
    ensures forall kk: nat :: kk < weight.cols && kk / gs == a ==> -b <= At(weight, i, kk) <= b
    ensures b == top ==> (exists kk: nat ::
        kk < weight.cols && kk / gs == a && (At(weight, i, kk) == b || At(weight, i, kk) == -b))
  {
    forall kk: nat | kk < weight.cols && kk / gs == a ensures -b <= At(weight, i, kk) <= b {
      GroupColumn(kk, a, gs);
    }
    var kk: nat :| kk < weight.cols && InGroup(kk, a, gs) && (At(weight, i, kk) == top || At(weight, i, kk) == -top);
    GroupColumn(kk, a, gs);
  }

  /** 127 channel scales bound every magnitude of the channel and equal one, unless the channel is zero and its
      scale 1. */
  lemma ChannelScaleLaw(weight: Matrix, i: nat, c: real)
    requires |weight.data| == weight.rows * weight.cols && i < weight.rows && c == ChannelScales(weight)[i]
    ensures c > 0.0
    ensures forall kk: nat :: kk < weight.cols ==> -127.0 * c <= At(weight, i, kk) <= 127.0 * c
    ensures if forall kk: nat :: kk < weight.cols ==> At(weight, i, kk) == 0.0 then c == 1.0
      else exists kk: nat :: kk < weight.cols && (At(weight, i, kk) == 127.0 * c || At(weight, i, kk) == -127.0 * c)
  {
    RowFits(i, weight.rows, weight.cols);
    var row := RowSlice(weight.data, i, weight.cols);
    ScaleValues(row, row);
    forall kk: nat | kk < weight.cols ensures row[kk] == At(weight, i, kk) && Abs(row[kk]) <= AbsMax(row) {
      RowElement(weight.data, i, weight.rows, weight.cols, kk);
      AbsMaxBounds(row, kk);
    }
    if forall kk: nat :: kk < weight.cols ==> At(weight, i, kk) == 0.0 {
      forall j | 0 <= j < |row| ensures Abs(row[j]) <= 0.0 { assert row[j] == At(weight, i, j); }
      AbsMaxLeast(row, 0.0);
    } else {
      var j := AbsMaxAttained(row);
      assert Abs(At(weight, i, j)) == AbsMax(row);
    }
  }

  /** With calibrated scales a working scale is the smaller of the given one and sixteen channel scales. */
  lemma CalibratedScaleLaw(weight: Matrix, scales: Matrix, gs: nat, i: nat, a: nat, s: real)
    requires gs > 0 && weight.cols == (weight.cols / gs) * gs && ScalesOk(weight, Some(scales), gs)
    requires i < weight.rows && a < weight.cols / gs
    requires At2(a, i, weight.rows) < |WorkScales(weight, Some(scales), gs)|
    requires s == WorkScales(weight, Some(scales), gs)[At2(a, i, weight.rows)]
    ensures var given, cap := At(scales, i, a), 16.0 * ChannelScales(weight)[i];
      s <= given && s <= cap && (s == given || s == cap)
  {
    WorkScalesAt(weight, Some(scales), gs, a, i);
    Within(i, a, scales.rows, scales.cols);
  }

  // ----- levels -----

  /** A rounded number is a nearest integer, and an even one when two are. */
  lemma RoundLaw(x: real)
    ensures x - 0.5 <= Round(x) as real <= x + 0.5
    ensures Round(x) as real == x - 0.5 || Round(x) as real == x + 0.5 ==> Round(x) % 2 == 0
  {}

  /** The level of a weight under a positive scale: the nearest of the sixteen, ties to even. */
  lemma LevelLaw(w: real, s: real, q: nat)
    requires s > 0.0 && q == Quantise(w, s)
    ensures q <= 15
    ensures q < 15 ==> w <= (q as real - 7.5) * s
    ensures q > 0 ==> w >= (q as real - 8.5) * s
    ensures q < 15 && w == (q as real - 7.5) * s ==> q % 2 == 0
    ensures q > 0 && w == (q as real - 8.5) * s ==> q % 2 == 0
  {
    var x := w / s;
    LevelBounds(x, q);
    SideOf(w, s, x, q as real - 7.5);
    SideOf(w, s, x, q as real - 8.5);
  }

  lemma LevelBounds(x: real, q: nat)
    requires q == Clamp(Round(x) + 8, 0, 15)
    ensures q < 15 ==> x <= q as real - 7.5 && (x == q as real - 7.5 ==> q % 2 == 0)
    ensures q > 0 ==> x >= q as real - 8.5 && (x == q as real - 8.5 ==> q % 2 == 0)
  {
    RoundLaw(x);
  }

  lemma SideOf(w: real, s: real, x: real, b: real)
    requires s > 0.0 && x == w / s
    ensures (x <= b <==> w <= b * s) && (x >= b <==> w >= b * s) && (x == b <==> w == b * s)
  {
    Reals.AtMost(w, b, s);
    Reals.AtLeast(w, b, s);
  }

  // ----- the naive round trip over the weights -----

  /** An unpacked weight is off by at most a fourteenth of 1e-6 or of a magnitude of its own group. */
  ghost predicate NearOwnGroup(w: real, weight: Matrix, gs: nat, i: nat, kk: nat)
    requires |weight.data| == weight.rows * weight.cols && i < weight.rows && kk < weight.cols && gs > 0
  {
    var d := 14.0 * (w - At(weight, i, kk));
    -0.000001 <= d <= 0.000001 || (exists j: nat ::
        j < weight.cols && j / gs == kk / gs &&
        (-At(weight, i, j) <= d <= At(weight, i, j) || At(weight, i, j) <= d <= -At(weight, i, j)))
  }

  /** The weight that w holds in the place of weight (i, kk). */
  function Held(w: seq<real>, weight: Matrix, i: nat, kk: nat): real
    requires |w| == weight.rows * weight.cols && i < weight.rows && kk < weight.cols
  {
    At(Matrix(weight.rows, weight.cols, w), i, kk)
  }

  ghost predicate AllNearOwnGroup(w: seq<real>, weight: Matrix, gs: nat)
    requires |weight.data| == weight.rows * weight.cols == |w| && gs > 0
  {
    forall i: nat, kk: nat :: i < weight.rows && kk < weight.cols ==>
      NearOwnGroup(Held(w, weight, i, kk), weight, gs, i, kk)
  }

  lemma NearLaw(w: seq<real>, weight: Matrix, gs: nat, i: nat, kk: nat)
    requires |weight.data| == weight.rows * weight.cols == |w| && gs > 0 && weight.cols == (weight.cols / gs) * gs
    requires i < weight.rows && kk < weight.cols && AllNear(w, weight, gs)
    ensures NearOwnGroup(Held(w, weight, i, kk), weight, gs, i, kk)
  {
    var a := kk / gs;
    GroupOf(weight, gs, kk);
    assert NearAt(w, weight, gs, i, kk, a);
    Within(i, kk, weight.rows, weight.cols);
    var top := AbsMax(GroupSlice(weight, i, a, gs));
    GroupPeak(weight, gs, i, a);
    PeakInGroup(weight, gs, i, a, top, top);
  }

  lemma AllNearLaw(w: seq<real>, weight: Matrix, gs: nat)
    requires |weight.data| == weight.rows * weight.cols == |w| && gs > 0 && weight.cols == (weight.cols / gs) * gs
    requires AllNear(w, weight, gs)
    ensures AllNearOwnGroup(w, weight, gs)
  {
    forall i: nat, kk: nat | i < weight.rows && kk < weight.cols
      ensures NearOwnGroup(Held(w, weight, i, kk), weight, gs, i, kk)
    {
      NearLaw(w, weight, gs, i, kk);
    }
  }

  lemma NaiveAllNear(weight: Matrix, gs: nat, work: seq<real>, w: seq<real>)
    requires gs > 0 && weight.cols == (weight.cols / gs) * gs && |weight.data| == weight.rows * weight.cols
    requires work == WorkScales(weight, None, gs)
    requires HoldsLevels(w, weight.data, work, weight.rows, weight.cols, gs)
    ensures AllNear(w, weight, gs)
  {
    forall i: nat, kk: nat, a: nat | i < weight.rows && kk < weight.cols && a == kk / gs && (a + 1) * gs <= weight.cols
      ensures NearAt(w, weight, gs, i, kk, a)
    {
      NaiveNear(weight, gs, work, w, i, kk, a);
    }
  }

  /** What the round-trip check asks for: packed without scales and unpacked, every weight is within half of its
      group's scale, which is a seventh of 1e-6 or of a magnitude of that group. */
  method PackThenUnpackNaive(weight: Matrix, gs: nat, inv: seq<nat>, invScale: seq<nat>, invSingle: seq<nat>)
    returns (w: seq<real>)
    requires ShapeOk(weight.rows, weight.cols, gs) && (weight.cols / gs) * gs == weight.cols
    requires |weight.data| == weight.rows * weight.cols && Inverses(inv, invScale, invSingle, gs == weight.cols)
    ensures |w| == |weight.data| && AllNear(w, weight, gs) && AllNearOwnGroup(w, weight, gs)
  {
    w := PackThenUnpack(weight, gs, None, inv, invScale, invSingle);
    NaiveAllNear(weight, gs, WorkScales(weight, None, gs), w);
    AllNearLaw(w, weight, gs);
  }

  /** What unpacking returns, in numbers: the level less eight, times the working scale of the weight's group. */
  lemma UnpackedLaw(w: seq<real>, weight: Matrix, s: seq<real>, gs: nat, i: nat, kk: nat, a: nat)
    requires |weight.data| == weight.rows * weight.cols && i < weight.rows && kk < weight.cols && gs > 0 && a == kk / gs
    requires HoldsLevels(w, weight.data, s, weight.rows, weight.cols, gs)
    ensures |w| == |weight.data| && At2(a, i, weight.rows) < |s|
    ensures var scale := s[At2(a, i, weight.rows)];
      Held(w, weight, i, kk) == (Quantise(At(weight, i, kk), scale) as real - 8.0) * scale
  {
    assert At2(i, kk, weight.cols) < |weight.data|;
  }
}
