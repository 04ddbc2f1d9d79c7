/** What the kernel multiplies out of a packed tensor, and what unpacking a re-packed tensor returns. */
module PackedRange {
  import Reals
  import opened Wrappers
  import opened Arithmetic
  import opened Rounding
  import opened Tensors
  import opened MarlinPerms
  import opened W4A8
  import opened W4A8RoundTrip
  import opened KernelRange
  import opened Repack

  /** The working scales of a weight that packs: one per group and channel, none zero. */
  predicate Packable(weight: Matrix, s: seq<real>, gs: nat) {
    && ShapeOk(weight.rows, weight.cols, gs) && |weight.data| == weight.rows * weight.cols
    && |s| == (weight.cols / gs) * weight.rows
  }

  predicate Sized(packed: Packed, n: nat, k: nat, gs: nat)
    requires gs > 0
  {
    8 * |packed.qweight| == n * k && |packed.sGroup| == (k / gs) * n
  }

  /** The levels in (k, n) order, read back from the words. */
  function ReadLevels(packed: Packed, inv: seq<nat>, n: nat, k: nat, gs: nat): (q: seq<nat>)
    requires ShapeOk(n, k, gs) && Sized(packed, n, k, gs) && IsArgSort(inv, PermTable(FourConsecutive, gs == k))
    ensures |q| == n * k
  {
    ShapeFacts(n, k, gs);
    Untiled(NibbleTensor(packed.qweight), n, k, inv)
  }

  /** The stored group scales in (group, n) order. */
  function ReadScales(packed: Packed, invScale: seq<nat>, n: nat, k: nat, gs: nat): (s: seq<real>)
    requires ShapeOk(n, k, gs) && Sized(packed, n, k, gs) && IsArgSort(invScale, ScaleTable())
    ensures |s| == (k / gs) * n
  {
    ShapeFacts(n, k, gs);
    PermuteBlocks(packed.sGroup, invScale)
  }

  lemma Inside(n: nat, k: nat, gs: nat, i: nat, kk: nat)
    requires gs > 0 && k == (k / gs) * gs && i < n && kk < k
    ensures At2(kk, i, n) < n * k && At2(i, kk, k) < n * k && 0 <= kk / gs < k / gs && At2(kk / gs, i, n) < (k / gs) * n
  {
    Split(kk, k / gs, gs);
    Within(kk, i, k, n);
    Within(i, kk, n, k);
    Within(kk / gs, i, k / gs, n);
  }

  /** What the kernel multiplies for input kk of channel i: the stored level times the stored scale. */
  function KernelProduct(packed: Packed, inv: seq<nat>, invScale: seq<nat>, n: nat, k: nat, gs: nat, i: nat,
                         kk: nat): real
    requires ShapeOk(n, k, gs) && Sized(packed, n, k, gs)
    requires IsArgSort(inv, PermTable(FourConsecutive, gs == k)) && IsArgSort(invScale, ScaleTable())
    requires i < n && kk < k
  {
    ShapeFacts(n, k, gs);
    Inside(n, k, gs, i, kk);
    StoredProduct(ReadLevels(packed, inv, n, k, gs)[At2(kk, i, n)],
                  ReadScales(packed, invScale, n, k, gs)[At2(kk / gs, i, n)])
  }

  lemma PackedSized(packed: Packed, weight: Matrix, s: seq<real>, gs: nat)
    requires Packable(weight, s, gs) && Packs(packed, weight, s, gs)
    ensures Sized(packed, weight.rows, weight.cols, gs)
  {
    PackedSizes(packed, weight, s, gs);
  }

  lemma ReadLevelAt(packed: Packed, weight: Matrix, s: seq<real>, gs: nat, inv: seq<nat>, i: nat, kk: nat, a: nat)
    requires Packable(weight, s, gs) && Packs(packed, weight, s, gs) && Sized(packed, weight.rows, weight.cols, gs)
    requires IsArgSort(inv, PermTable(FourConsecutive, gs == weight.cols))
    requires i < weight.rows && kk < weight.cols && a == kk / gs
    ensures At2(kk, i, weight.rows) < weight.rows * weight.cols && At2(i, kk, weight.cols) < |weight.data|
    ensures At2(a, i, weight.rows) < |s|
    ensures ReadLevels(packed, inv, weight.rows, weight.cols, gs)[At2(kk, i, weight.rows)]
      == Quantise(weight.data[At2(i, kk, weight.cols)], s[At2(a, i, weight.rows)])
  {
    ShapeFacts(weight.rows, weight.cols, gs);
    Inside(weight.rows, weight.cols, gs, i, kk);
    IntsBack(packed, weight, s, gs, inv);
    Split(kk, weight.cols / gs, gs);
    IntLayoutAt(weight.data, s, weight.rows, weight.cols / gs, gs, a, kk % gs, i);
    assert At2(a, kk % gs, gs) == kk;
  }

  lemma ReadScaleAt(packed: Packed, weight: Matrix, s: seq<real>, gs: nat, invScale: seq<nat>, i: nat, a: nat)
    requires Packable(weight, s, gs) && Packs(packed, weight, s, gs) && Sized(packed, weight.rows, weight.cols, gs)
    requires IsArgSort(invScale, ScaleTable()) && i < weight.rows && a < weight.cols / gs
    ensures At2(a, i, weight.rows) < |s|
    ensures ReadScales(packed, invScale, weight.rows, weight.cols, gs)[At2(a, i, weight.rows)]
      == s[At2(a, i, weight.rows)] / ChannelScales(weight)[i]
  {
    ShapeFacts(weight.rows, weight.cols, gs);
    var invSingle := ArgSortExists(SingleTable());
    ScalesBack(packed, weight, s, gs, invScale, invSingle);
    DivideByChannelAt(s, ChannelScales(weight), weight.cols / gs, weight.rows, a, i);
  }

  /** It is the level of the weight times its working scale over its channel scale. */
  lemma KernelProductIs(packed: Packed, weight: Matrix, s: seq<real>, gs: nat, inv: seq<nat>, invScale: seq<nat>,
                        i: nat, kk: nat, a: nat)
    requires Packable(weight, s, gs) && Packs(packed, weight, s, gs)
    requires IsArgSort(inv, PermTable(FourConsecutive, gs == weight.cols)) && IsArgSort(invScale, ScaleTable())
    requires i < weight.rows && kk < weight.cols && a == kk / gs
    ensures Sized(packed, weight.rows, weight.cols, gs)
    ensures At2(i, kk, weight.cols) < |weight.data| && At2(a, i, weight.rows) < |s|
    ensures KernelProduct(packed, inv, invScale, weight.rows, weight.cols, gs, i, kk)
      == StoredProduct(Quantise(weight.data[At2(i, kk, weight.cols)], s[At2(a, i, weight.rows)]),
                       s[At2(a, i, weight.rows)] / ChannelScales(weight)[i])
  {
    PackedSized(packed, weight, s, gs);
    ShapeFacts(weight.rows, weight.cols, gs);
    Inside(weight.rows, weight.cols, gs, i, kk);
    ReadLevelAt(packed, weight, s, gs, inv, i, kk, a);
    ReadScaleAt(packed, weight, s, gs, invScale, i, a);
  }

  // ----- range -----

  /** Packed with positive calibrated scales, every product is in the kernel's range. */
  lemma CalibratedProductInRange(packed: Packed, weight: Matrix, scales: Matrix, gs: nat, inv: seq<nat>,
                                 invScale: seq<nat>, i: nat, kk: nat)
    requires ShapeOk(weight.rows, weight.cols, gs) && (weight.cols / gs) * gs == weight.cols
    requires ScalesOk(weight, Some(scales), gs) && forall p :: 0 <= p < |scales.data| ==> scales.data[p] > 0.0
    requires Packs(packed, weight, WorkScales(weight, Some(scales), gs), gs)
    requires IsArgSort(inv, PermTable(FourConsecutive, gs == weight.cols)) && IsArgSort(invScale, ScaleTable())
    requires i < weight.rows && kk < weight.cols
    ensures Sized(packed, weight.rows, weight.cols, gs)
    ensures InRange(KernelProduct(packed, inv, invScale, weight.rows, weight.cols, gs, i, kk))
  {
    var s := WorkScales(weight, Some(scales), gs);
    GroupOf(weight, gs, kk);
    KernelProductIs(packed, weight, s, gs, inv, invScale, i, kk, kk / gs);
    CalibratedInRange(weight, scales, gs, kk / gs, i);
  }

  /** Packed without them, the product is the one of the naive scale chain. */
  lemma NaiveProductStored(packed: Packed, weight: Matrix, gs: nat, inv: seq<nat>, invScale: seq<nat>, i: nat, kk: nat)
    requires ShapeOk(weight.rows, weight.cols, gs) && (weight.cols / gs) * gs == weight.cols
    requires ScalesOk(weight, None, gs) && Packs(packed, weight, WorkScales(weight, None, gs), gs)
    requires IsArgSort(inv, PermTable(FourConsecutive, gs == weight.cols)) && IsArgSort(invScale, ScaleTable())
    requires i < weight.rows && kk < weight.cols
    ensures Sized(packed, weight.rows, weight.cols, gs)
    ensures KernelProduct(packed, inv, invScale, weight.rows, weight.cols, gs, i, kk) == NaiveProduct(weight, gs, i, kk)
  {
    GroupOf(weight, gs, kk);
    KernelProductIs(packed, weight, WorkScales(weight, None, gs), gs, inv, invScale, i, kk, kk / gs);
    NaiveWorkScale(weight, gs, i, kk);
  }

  /** Over the reals, every product of a channel that is zero or reaches the scale floor is in range. */
  lemma NaiveProductInRange(packed: Packed, weight: Matrix, gs: nat, inv: seq<nat>, invScale: seq<nat>, i: nat, kk: nat)
    requires ShapeOk(weight.rows, weight.cols, gs) && (weight.cols / gs) * gs == weight.cols
    requires ScalesOk(weight, None, gs) && Packs(packed, weight, WorkScales(weight, None, gs), gs)
    requires IsArgSort(inv, PermTable(FourConsecutive, gs == weight.cols)) && IsArgSort(invScale, ScaleTable())
    requires i < weight.rows && kk < weight.cols && (i + 1) * weight.cols <= |weight.data|
    requires var top := AbsMax(RowSlice(weight.data, i, weight.cols)); top == 0.0 || top >= SCALE_FLOOR
    ensures Sized(packed, weight.rows, weight.cols, gs)
    ensures InRange(KernelProduct(packed, inv, invScale, weight.rows, weight.cols, gs, i, kk))
  {
    NaiveProductStored(packed, weight, gs, inv, invScale, i, kk);
    NaiveInRange(weight, gs, i, kk);
  }

  /** Below the floor every group of the channel has the floored scale. */
  lemma NaiveProductFloored(weight: Matrix, gs: nat, i: nat, kk: nat)
    requires gs > 0 && weight.cols == (weight.cols / gs) * gs && |weight.data| == weight.rows * weight.cols
    requires i < weight.rows && kk < weight.cols && (i + 1) * weight.cols <= |weight.data|
    requires 0.0 < AbsMax(RowSlice(weight.data, i, weight.cols)) < SCALE_FLOOR
    ensures RowSlice(weight.data, i, weight.cols)[kk] == weight.data[At2(i, kk, weight.cols)]
    ensures NaiveProduct(weight, gs, i, kk)
      == FloorProduct(RowSlice(weight.data, i, weight.cols)[kk], AbsMax(RowSlice(weight.data, i, weight.cols)))
  {
    GroupMember(weight, gs, i, kk);
    GroupOf(weight, gs, kk);
    RowElement(weight.data, i, weight.rows, weight.cols, kk);
    var w, row := weight.data[At2(i, kk, weight.cols)], RowSlice(weight.data, i, weight.cols);
    NaiveProductIs(weight, gs, i, kk, w, GroupSlice(weight, i, kk / gs, gs), row);
  }

  /** Over the reals, all products of a channel below the floor are in range exactly when it rounds safely. */
  lemma BelowFloorChannelIff(weight: Matrix, gs: nat, i: nat)
    requires gs > 0 && weight.cols == (weight.cols / gs) * gs && |weight.data| == weight.rows * weight.cols
    requires i < weight.rows && (i + 1) * weight.cols <= |weight.data|
    requires 0.0 < AbsMax(RowSlice(weight.data, i, weight.cols)) < SCALE_FLOOR
    ensures (forall kk :: 0 <= kk < weight.cols ==> InRange(NaiveProduct(weight, gs, i, kk))) <==>
      RoundsSafely(RowSlice(weight.data, i, weight.cols))
  {
    var row := RowSlice(weight.data, i, weight.cols);
    forall kk | 0 <= kk < weight.cols ensures NaiveProduct(weight, gs, i, kk) == FloorProduct(row[kk], AbsMax(row)) {
      NaiveProductFloored(weight, gs, i, kk);
    }
    BelowFloorSafeIff(row, AbsMax(row), AbsMax(row) / (SCALE_FLOOR / 7.0));
  }

  // ----- the naive round trip -----

  /** A weight unpacked from a tensor packed without scales is within half of its own group's scale. */
  ghost predicate NearAt(w: seq<real>, weight: Matrix, gs: nat, i: nat, kk: nat, a: nat)
    requires |weight.data| == weight.rows * weight.cols == |w| && i < weight.rows && kk < weight.cols
    requires (a + 1) * gs <= weight.cols
  {
    Within(i, kk, weight.rows, weight.cols);
    Abs(w[At2(i, kk, weight.cols)] - weight.data[At2(i, kk, weight.cols)])
      <= 0.5 * NaiveScale(GroupSlice(weight, i, a, gs))
  }

  ghost predicate AllNear(w: seq<real>, weight: Matrix, gs: nat)
    requires |weight.data| == weight.rows * weight.cols == |w| && gs > 0
  {
    forall i: nat, kk: nat, a: nat ::
      i < weight.rows && kk < weight.cols && a == kk / gs && (a + 1) * gs <= weight.cols ==>
        NearAt(w, weight, gs, i, kk, a)
  }

  /** A max-scaled level times its scale is within half a scale of the weight. */
  lemma LevelNear(w: real, m: real, s: real)
    requires Abs(w) <= m && s == Max(m, SCALE_FLOOR) / 7.0
    ensures Abs(Level(Quantise(w, s), s) - w) <= 0.5 * s
  {
    NaiveLevel(w, m, s);
    Reals.Undo(w, s);
    NearError(Round(w / s) as real, w / s, s, w, Level(Quantise(w, s), s));
  }

  lemma NaiveNear(weight: Matrix, gs: nat, work: seq<real>, w: seq<real>, i: nat, kk: nat, a: nat)
    requires gs > 0 && weight.cols == (weight.cols / gs) * gs && |weight.data| == weight.rows * weight.cols
    requires work == WorkScales(weight, None, gs)
    requires HoldsLevels(w, weight.data, work, weight.rows, weight.cols, gs)
    requires i < weight.rows && kk < weight.cols && a == kk / gs && (a + 1) * gs <= weight.cols
    ensures NearAt(w, weight, gs, i, kk, a)
  {
    GroupMember(weight, gs, i, kk);
    NaiveWorkScale(weight, gs, i, kk);
    var group := GroupSlice(weight, i, a, gs);
    LevelNear(weight.data[At2(i, kk, weight.cols)], AbsMax(group), NaiveScale(group));
  }

  // ----- the re-pack -----

  /** A weight w unpacked from a re-packed tensor: exact when the scale is within the cap, off by at most
      fifteen channel scales above it. */
  ghost predicate Preserved(w: real, original: real, s: real, c: real) {
    if s <= 16.0 * c then w == original else Abs(w - original) <= 15.0 * c
  }

  ghost predicate PreservedAt(w: seq<real>, weight: Matrix, scales: Matrix, i: nat, kk: nat, a: nat)
    requires |weight.data| == weight.rows * weight.cols == |w| && i < weight.rows && kk < weight.cols
    requires |scales.data| == weight.rows * scales.cols && a < scales.cols
  {
    Within(i, kk, weight.rows, weight.cols);
    Within(i, a, weight.rows, scales.cols);
    Preserved(w[At2(i, kk, weight.cols)], weight.data[At2(i, kk, weight.cols)], scales.data[At2(i, a, scales.cols)],
              ChannelScales(weight)[i])
  }

  /** Every weight, by the scale of its own group. */
  ghost predicate AllPreserved(w: seq<real>, weight: Matrix, scales: Matrix, gs: nat)
    requires |weight.data| == weight.rows * weight.cols == |w| && |scales.data| == weight.rows * scales.cols
    requires gs > 0
  {
    forall i: nat, kk: nat, a: nat :: i < weight.rows && kk < weight.cols && a < scales.cols && a == kk / gs ==>
      PreservedAt(w, weight, scales, i, kk, a)
  }

  lemma RepackedAt(bytes: seq<nat>, scales: Matrix, n: nat, k: nat, gs: nat, weight: Matrix, work: seq<real>,
                   w: seq<real>, i: nat, kk: nat, a: nat)
    requires 2 * |bytes| == n * k && scales.rows == n && scales.cols * gs == k && |scales.data| == n * scales.cols
    requires gs > 0 && scales.cols == k / gs && weight == Decoded(bytes, scales, n, k, gs)
    requires work == WorkScales(weight, Some(scales), gs) && HoldsLevels(w, weight.data, work, n, k, gs)
    requires i < n && kk < k && a < scales.cols && a == kk / gs
    ensures PreservedAt(w, weight, scales, i, kk, a)
  {
    RepackPreserves(bytes, scales, n, k, gs, weight, work, i, kk, a);
  }

  lemma LevelsPreserved(bytes: seq<nat>, scales: Matrix, n: nat, k: nat, gs: nat, weight: Matrix, work: seq<real>,
                        w: seq<real>)
    requires 2 * |bytes| == n * k && scales.rows == n && scales.cols * gs == k && |scales.data| == n * scales.cols
    requires gs > 0 && scales.cols == k / gs && weight == Decoded(bytes, scales, n, k, gs)
    requires work == WorkScales(weight, Some(scales), gs) && HoldsLevels(w, weight.data, work, n, k, gs)
    ensures AllPreserved(w, weight, scales, gs)
  {
    forall i: nat, kk: nat, a: nat | i < n && kk < k && a < scales.cols && a == kk / gs
      ensures PreservedAt(w, weight, scales, i, kk, a)
    {
      RepackedAt(bytes, scales, n, k, gs, weight, work, w, i, kk, a);
    }
  }

  /** Unpacking a tensor packed from decoded weights preserves every one of them. */
  lemma RepackedUnpacks(packed: Packed, bytes: seq<nat>, scales: Matrix, n: nat, k: nat, gs: nat, weight: Matrix,
                        work: seq<real>, inv: seq<nat>, invScale: seq<nat>, invSingle: seq<nat>)
    requires 2 * |bytes| == n * k && scales.rows == n && scales.cols * gs == k && |scales.data| == n * scales.cols
    requires ShapeOk(n, k, gs) && scales.cols == k / gs && weight == Decoded(bytes, scales, n, k, gs)
    requires work == WorkScales(weight, Some(scales), gs) && Packs(packed, weight, work, gs)
    requires Inverses(inv, invScale, invSingle, gs == k)
    ensures 8 * |packed.qweight| == n * k && |packed.sGroup| == (k / gs) * n && |packed.sChannel| == n
    ensures AllPreserved(Recovered(packed, inv, invScale, invSingle, n, k, gs), weight, scales, gs)
  {
    UnpackInvertsPack(packed, weight, work, gs, inv, invScale, invSingle);
    LevelsPreserved(bytes, scales, n, k, gs, weight, work, Recovered(packed, inv, invScale, invSingle, n, k, gs));
  }

  /** Re-packing a tensor and unpacking the result. */
  method RepackThenUnpack(bytes: seq<nat>, scales: Matrix, n: nat, kHalf: nat, gs: nat,
                          inv: seq<nat>, invScale: seq<nat>, invSingle: seq<nat>) returns (w: seq<real>)
    requires |bytes| == n * kHalf && scales.rows == n && scales.cols * gs == kHalf * 2
    requires |scales.data| == n * scales.cols && ShapeOk(n, kHalf * 2, gs)
    requires Inverses(inv, invScale, invSingle, gs == kHalf * 2)
    ensures 2 * |bytes| == n * (kHalf * 2) == |w|
    ensures AllPreserved(w, Decoded(bytes, scales, n, kHalf * 2, gs), scales, gs)
  {
    var r := RepackW4A16(bytes, scales, n, kHalf, gs);
    var k := kHalf * 2;
    ScaleColumns(scales.cols, k, gs);
    ghost var weight := Decoded(bytes, scales, n, k, gs);
    ghost var s := WorkScales(weight, Some(scales), gs);
    PackedSizes(r.value, weight, s, gs);
    w := ManualUnpack(r.value, inv, invScale, invSingle, n, k, gs);
    RepackedUnpacks(r.value, bytes, scales, n, k, gs, weight, s, inv, invScale, invSingle);
  }
}
