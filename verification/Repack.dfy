/** Whole-tensor range safety, and the re-pack of GPTQ-calibrated W4A16 tensors as W4A8. */
module Repack {
  import opened Wrappers
  import opened Arithmetic
  import opened Bits
  import opened PackedFields
  import Reals
  import opened Rounding
  import opened Tensors
  import opened Nibbles
  import opened W4A8
  import opened W4A8RoundTrip
  import opened KernelRange

  // ----- index bookkeeping -----

  lemma WorkScalesAt(weight: Matrix, gptq: Option<Matrix>, gs: nat, a: nat, i: nat)
    requires gs > 0 && weight.cols == (weight.cols / gs) * gs && ScalesOk(weight, gptq, gs)
    requires a < weight.cols / gs && i < weight.rows
    ensures (a + 1) * gs <= weight.cols && At2(a, i, weight.rows) < |WorkScales(weight, gptq, gs)|
    ensures WorkScales(weight, gptq, gs)[At2(a, i, weight.rows)] == WorkScale(weight, gptq, gs, a, i)
  {
    RowFits(a, weight.cols / gs, gs);
    Within(a, i, weight.cols / gs, weight.rows);
    DivMod(a, weight.rows, i);
  }

  lemma RowElement(data: seq<real>, i: nat, rows: nat, cols: nat, j: nat)
    requires |data| == rows * cols && i < rows && j < cols
    ensures (i + 1) * cols <= |data| && At2(i, j, cols) < |data|
    ensures RowSlice(data, i, cols)[j] == data[At2(i, j, cols)]
  {
    RowFits(i, rows, cols);
    Within(i, j, rows, cols);
    assert i * cols + cols == (i + 1) * cols;
  }

  lemma GroupInRow(row: seq<real>, groups: nat, gs: nat, kk: nat)
    requires |row| == groups * gs && kk < |row|
    ensures gs > 0 && (kk / gs + 1) * gs <= |row|
    ensures Abs(row[kk]) <= AbsMax(RowSlice(row, kk / gs, gs)) <= AbsMax(row)
  {
    Split(kk, groups, gs);
    var a := kk / gs;
    RowElement(row, a, groups, gs, kk % gs);
    var group := RowSlice(row, a, gs);
    AbsMaxBounds(group, kk % gs);
    forall j | 0 <= j < |group| ensures Abs(group[j]) <= AbsMax(row) {
      RowElement(row, a, groups, gs, j);
      AbsMaxBounds(row, At2(a, j, gs));
    }
    AbsMaxLeast(group, AbsMax(row));
  }

  /** Weight (i, kk) is an element of its group, and its group is part of its channel. */
  lemma GroupMember(weight: Matrix, gs: nat, i: nat, kk: nat)
    requires |weight.data| == weight.rows * weight.cols && gs > 0 && weight.cols == (weight.cols / gs) * gs
    requires i < weight.rows && kk < weight.cols
    ensures (kk / gs + 1) * gs <= weight.cols && (i + 1) * weight.cols <= |weight.data|
    ensures At2(i, kk, weight.cols) < |weight.data|
    ensures Abs(weight.data[At2(i, kk, weight.cols)]) <= AbsMax(GroupSlice(weight, i, kk / gs, gs))
      <= AbsMax(RowSlice(weight.data, i, weight.cols))
  {
    RowElement(weight.data, i, weight.rows, weight.cols, kk);
    GroupInRow(RowSlice(weight.data, i, weight.cols), weight.cols / gs, gs, kk);
  }

  // ----- range safety of whole tensors -----

  /** With positive calibrated scales every stored scale is safe for all sixteen levels. */
  lemma CalibratedInRange(weight: Matrix, scales: Matrix, gs: nat, a: nat, i: nat)
    requires gs > 0 && weight.cols == (weight.cols / gs) * gs && ScalesOk(weight, Some(scales), gs)
    requires forall p :: 0 <= p < |scales.data| ==> scales.data[p] > 0.0
    requires a < weight.cols / gs && i < weight.rows
    ensures At2(a, i, weight.rows) < |WorkScales(weight, Some(scales), gs)|
    ensures SafeForAll(WorkScales(weight, Some(scales), gs)[At2(a, i, weight.rows)] / ChannelScales(weight)[i])
  {
    WorkScalesAt(weight, Some(scales), gs, a, i);
    Within(i, a, scales.rows, scales.cols);
    CappedSafeIff(scales.data[i * scales.cols + a], ChannelScales(weight)[i]);
  }

  lemma GroupOf(weight: Matrix, gs: nat, kk: nat)
    requires gs > 0 && weight.cols == (weight.cols / gs) * gs && kk < weight.cols
    ensures (kk / gs + 1) * gs <= weight.cols && 0 <= kk / gs < weight.cols / gs
  {
    Split(kk, weight.cols / gs, gs);
    RowFits(kk / gs, weight.cols / gs, gs);
  }

  /** What the kernel multiplies out for weight (i, kk) packed without calibrated scales: its level
      times its stored group scale. */
  function NaiveProduct(weight: Matrix, gs: nat, i: nat, kk: nat): real
    requires gs > 0 && weight.cols == (weight.cols / gs) * gs && |weight.data| == weight.rows * weight.cols
    requires i < weight.rows && kk < weight.cols
  {
    GroupOf(weight, gs, kk);
    Within(i, kk, weight.rows, weight.cols);
    var s := NaiveScale(GroupSlice(weight, i, kk / gs, gs));
    StoredProduct(Quantise(weight.data[At2(i, kk, weight.cols)], s), s / ChannelScales(weight)[i])
  }

  /** Over the reals, every product of the naive formula is in range when its channel is zero or reaches the
      scale floor. */
  lemma NaiveInRange(weight: Matrix, gs: nat, i: nat, kk: nat)
    requires gs > 0 && weight.cols == (weight.cols / gs) * gs && |weight.data| == weight.rows * weight.cols
    requires i < weight.rows && kk < weight.cols && (i + 1) * weight.cols <= |weight.data|
    requires var top := AbsMax(RowSlice(weight.data, i, weight.cols)); top == 0.0 || top >= SCALE_FLOOR
    ensures InRange(NaiveProduct(weight, gs, i, kk))
  {
    GroupMember(weight, gs, i, kk);
    GroupOf(weight, gs, kk);
    var w, row := weight.data[At2(i, kk, weight.cols)], RowSlice(weight.data, i, weight.cols);
    var group := GroupSlice(weight, i, kk / gs, gs);
    NaiveSafe(w, group, row);
    NaiveProductIs(weight, gs, i, kk, w, group, row);
  }

  lemma NaiveProductIs(weight: Matrix, gs: nat, i: nat, kk: nat, w: real, group: seq<real>, row: seq<real>)
    requires gs > 0 && weight.cols == (weight.cols / gs) * gs && |weight.data| == weight.rows * weight.cols
    requires i < weight.rows && kk < weight.cols
    requires (i + 1) * weight.cols <= |weight.data| && (kk / gs + 1) * gs <= weight.cols
    requires At2(i, kk, weight.cols) < |weight.data| && w == weight.data[At2(i, kk, weight.cols)]
    requires group == GroupSlice(weight, i, kk / gs, gs) && row == RowSlice(weight.data, i, weight.cols)
    ensures NaiveProduct(weight, gs, i, kk)
      == StoredProduct(Quantise(w, NaiveScale(group)), NaiveScale(group) / ChannelScale(row))
  {}

  /** The packed working scale of (i, kk) is the one NaiveProduct uses. */
  lemma NaiveWorkScale(weight: Matrix, gs: nat, i: nat, kk: nat)
    requires gs > 0 && weight.cols == (weight.cols / gs) * gs && |weight.data| == weight.rows * weight.cols
    requires i < weight.rows && kk < weight.cols
    ensures (kk / gs + 1) * gs <= weight.cols && At2(kk / gs, i, weight.rows) < |WorkScales(weight, None, gs)|
    ensures WorkScales(weight, None, gs)[At2(kk / gs, i, weight.rows)] == NaiveScale(GroupSlice(weight, i, kk / gs, gs))
  {
    GroupOf(weight, gs, kk);
    WorkScalesAt(weight, None, gs, kk / gs, i);
  }

  // ----- the re-pack -----

  /** Nibble p of a byte row: even positions in the low half. */
  function NibbleOf(bytes: seq<nat>, p: nat): (v: nat)
    requires p < 2 * |bytes|
    ensures v < 16
  {
    FieldFits(bytes[p / 2], p % 2, 4);
    SixteenWords();
    Field(bytes[p / 2], p % 2, 4)
  }

  /** `w_int[:, 0::2] = q & 0x0F; w_int[:, 1::2] = (q >> 4) & 0x0F`. */
  method UnpackBytes(bytes: seq<nat>) returns (w: array<nat>)
    ensures fresh(w) && w.Length == 2 * |bytes|
    ensures forall p :: 0 <= p < w.Length ==> w[p] == NibbleOf(bytes, p)
  {
    w := new nat[2 * |bytes|](_ => 0);
    for b := 0 to |bytes|
      invariant forall p :: 0 <= p < 2 * b && p % 2 == 0 ==> w[p] == NibbleOf(bytes, p)
    {
      w[2 * b] := And(Shr(bytes[b], 0), Pow2(4) - 1);
    }
    for b := 0 to |bytes|
      invariant forall p :: 0 <= p < w.Length && (p < 2 * b || p % 2 == 0) ==> w[p] == NibbleOf(bytes, p)
    {
      w[2 * b + 1] := And(Shr(bytes[b], 4), Pow2(4) - 1);
    }
  }

  /** The even nibble of a byte is its remainder by 16, the odd one its quotient. */
  lemma NibbleOfLaw(bytes: seq<nat>, p: nat)
    requires p < 2 * |bytes|
    ensures NibbleOf(bytes, p) == if p % 2 == 0 then bytes[p / 2] % 16 else bytes[p / 2] / 16 % 16
  {
    SixteensLaw(0);
    SixteensLaw(1);
    FieldIs(bytes[p / 2], 0, 4, 1, 16);
    FieldIs(bytes[p / 2], 1, 4, 16, 16);
  }

  function DecodedAt(bytes: seq<nat>, scales: Matrix, n: nat, k: nat, gs: nat, p: nat): real
    requires 2 * |bytes| == n * k && scales.rows == n && scales.cols * gs == k && |scales.data| == n * scales.cols
    requires p < n * k
  {
    Split(p, n, k);
    Split(p % k, scales.cols, gs);
    Within(p / k, p % k / gs, n, scales.cols);
    Level(NibbleOf(bytes, p), scales.data[At2(p / k, p % k / gs, scales.cols)])
  }

  /** The decoded weight: (nibble - 8) times the element's group scale. */
  function Decoded(bytes: seq<nat>, scales: Matrix, n: nat, k: nat, gs: nat): (w: Matrix)
    requires 2 * |bytes| == n * k && scales.rows == n && scales.cols * gs == k && |scales.data| == n * scales.cols
    ensures w.rows == n && w.cols == k && |w.data| == n * k
  {
    Matrix(n, k, seq(n * k, p requires 0 <= p < n * k => DecodedAt(bytes, scales, n, k, gs, p)))
  }

  /** What re-quantising a weight w of level v and scale s with its working scale does to it: within the cap
      the weight comes back, and so does its level unless the scale is zero. */
  ghost predicate Repacked(v: nat, w: real, s: real, c: real, work: real) {
    var q := Quantise(w, work);
    if s <= 16.0 * c then (s != 0.0 ==> q == v) && Level(q, work) == w else Abs(Level(q, work) - w) <= 15.0 * c
  }

  /** A calibrated scale within the cap gives the original level back; a capped one moves the weight
      by at most fifteen channel scales. */
  lemma RepackedLevel(v: nat, s: real, c: real, w: real)
    requires v < 16 && c > 0.0 && w == Level(v, s) && Abs(w) <= 127.0 * c
    ensures Repacked(v, w, s, c, CappedScale(s, c))
  {
    var capped := CappedScale(s, c);
    if s == 0.0 {
      assert capped == 0.0;
    } else if s <= 16.0 * c {
      assert capped == s;
      Reals.Exactly(w, v as real - 8.0, s);
      RoundInteger(v - 8);
      assert w / s == (v - 8) as real;
    } else {
      CappedError(w, c, capped, w / capped);
    }
  }

  lemma CappedError(w: real, c: real, s: real, x: real)
    requires c > 0.0 && s == 16.0 * c && Abs(w) <= 127.0 * c && x == w / s
    ensures Abs(Level(Quantise(w, s), s) - w) <= 15.0 * c
  {
    Reals.Undo(w, s);
    Reals.AtMost(w, 127.0 / 16.0, s);
    Reals.AtLeast(w, -127.0 / 16.0, s);
    var r, q := Round(x), Quantise(w, s);
    if r <= 7 {
      assert r >= -8 && q as real - 8.0 == r as real;
      NearError(r as real, x, s, w, Level(q, s));
    } else {
      assert q == 15;
      Reals.AtLeast(w, 7.5, s);
      TopError(w, c, s, Level(q, s));
    }
  }

  lemma TopError(w: real, c: real, s: real, level: real)
    requires c > 0.0 && s == 16.0 * c && 7.5 * s <= w <= 127.0 * c && level == 7.0 * s
    ensures Abs(level - w) <= 15.0 * c
  {}

  lemma NearError(r: real, x: real, s: real, w: real, level: real)
    requires s > 0.0 && x * s == w && level == r * s && -0.5 <= r - x <= 0.5
    ensures -0.5 * s <= level - w <= 0.5 * s
  {
    var d := r - x;
    assert d * s == level - w;
    Reals.Sandwich(-0.5, d, 0.5, s, level - w);
  }

  lemma ChannelCovers(row: seq<real>, j: nat)
    requires j < |row|
    ensures Abs(row[j]) <= 127.0 * ChannelScale(row)
  {
    AbsMaxBounds(row, j);
    ScaleValues(row, row);
  }

  /** Re-packing preserves calibration: every element whose scale is within the
      cap is requantised to its original nibble and recovered exactly, and every other element moves by
      at most fifteen channel scales. */
  lemma RepackPreserves(bytes: seq<nat>, scales: Matrix, n: nat, k: nat, gs: nat, weight: Matrix, work: seq<real>,
                        i: nat, kk: nat, a: nat)
    requires 2 * |bytes| == n * k && scales.rows == n && scales.cols * gs == k && |scales.data| == n * scales.cols
    requires gs > 0 && scales.cols == k / gs && i < n && kk < k && a == kk / gs
    requires weight == Decoded(bytes, scales, n, k, gs) && work == WorkScales(weight, Some(scales), gs)
    ensures At2(i, kk, k) < n * k && At2(i, a, scales.cols) < |scales.data| && At2(a, i, n) < |work|
    ensures var w, s, c := weight.data[At2(i, kk, k)], scales.data[At2(i, a, scales.cols)], ChannelScales(weight)[i];
      && w == Level(NibbleOf(bytes, At2(i, kk, k)), s)
      && Repacked(NibbleOf(bytes, At2(i, kk, k)), w, s, c, work[At2(a, i, n)])
  {
    Split(kk, scales.cols, gs);
    Within(i, a, n, scales.cols);
    Within(i, kk, n, k);
    DivMod(i, k, kk);
    WorkScalesAt(weight, Some(scales), gs, a, i);
    RowElement(weight.data, i, n, k, kk);
    ChannelCovers(RowSlice(weight.data, i, k), kk);
    RepackedLevel(NibbleOf(bytes, At2(i, kk, k)), scales.data[At2(i, a, scales.cols)],
                  ChannelScales(weight)[i], weight.data[At2(i, kk, k)]);
  }

  /** Decode the nibbles, rebuild the weights, and pack them again with the original scales. */
  method RepackW4A16(bytes: seq<nat>, scales: Matrix, n: nat, kHalf: nat, gs: nat)
    returns (r: Result<Packed, PackError>)
    requires |bytes| == n * kHalf && scales.rows == n && scales.cols * gs == kHalf * 2
    requires |scales.data| == n * scales.cols
    ensures 2 * |bytes| == n * (kHalf * 2)
    ensures r.Ok? ==>
      var weight := Decoded(bytes, scales, n, kHalf * 2, gs);
      && ShapeOk(n, kHalf * 2, gs) && (kHalf * 2 / gs) * gs == kHalf * 2 && ScalesOk(weight, Some(scales), gs)
      && Packs(r.value, weight, WorkScales(weight, Some(scales), gs), gs)
    ensures r.Ok? <==> ShapeOk(n, kHalf * 2, gs)
  {
    var weight := DecodeWeight(bytes, scales, n, kHalf * 2, gs);
    if gs > 0 { ScaleColumns(scales.cols, kHalf * 2, gs); }
    r := PackW4a8(weight, gs, Some(scales));
  }

  /** The decoding half: nibbles out of the bytes, then levels times group scales. */
  method DecodeWeight(bytes: seq<nat>, scales: Matrix, n: nat, k: nat, gs: nat) returns (weight: Matrix)
    requires 2 * |bytes| == n * k && scales.rows == n && scales.cols * gs == k && |scales.data| == n * scales.cols
    ensures weight == Decoded(bytes, scales, n, k, gs)
  {
    var nibbles := UnpackBytes(bytes);
    var levels := nibbles[..];
    weight := Matrix(n, k, seq(n * k, p requires 0 <= p < n * k => FromLevels(levels, scales, n, k, gs, p)));
    ghost var data := Decoded(bytes, scales, n, k, gs).data;
    forall p | 0 <= p < n * k ensures weight.data[p] == data[p] {
      assert data[p] == DecodedAt(bytes, scales, n, k, gs, p);
    }
    assert weight.data == data;
  }

  function FromLevels(levels: seq<nat>, scales: Matrix, n: nat, k: nat, gs: nat, p: nat): real
    requires |levels| == n * k && scales.rows == n && scales.cols * gs == k && |scales.data| == n * scales.cols
    requires p < n * k
  {
    Split(p, n, k);
    Split(p % k, scales.cols, gs);
    Within(p / k, p % k / gs, n, scales.cols);
    Level(levels[p], scales.data[At2(p / k, p % k / gs, scales.cols)])
  }

  lemma ScaleColumns(groups: nat, k: nat, gs: nat)
    requires gs > 0 && groups * gs == k
    ensures k / gs == groups && k % gs == 0
  {
    DivMod(groups, gs, 0);
  }

  /** A decoded weight in numbers: its nibble less eight, times the scale of its group. */
  lemma DecodedLaw(bytes: seq<nat>, scales: Matrix, n: nat, k: nat, gs: nat, i: nat, kk: nat, a: nat)
    requires 2 * |bytes| == n * k && scales.rows == n && scales.cols * gs == k && |scales.data| == n * scales.cols
    requires i < n && kk < k && gs > 0 && a == kk / gs
    ensures At2(i, kk, k) < n * k && At2(i, a, scales.cols) < |scales.data|
    ensures Decoded(bytes, scales, n, k, gs).data[At2(i, kk, k)]
      == (NibbleOf(bytes, At2(i, kk, k)) as real - 8.0) * scales.data[At2(i, a, scales.cols)]
  {
    Within(i, kk, n, k);
    DivMod(i, k, kk);
    Split(kk, scales.cols, gs);
    Within(i, a, n, scales.cols);
  }
}
