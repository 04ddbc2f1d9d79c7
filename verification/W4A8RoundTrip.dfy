/** Packing and unpacking W4A8 tensors, and the proof that unpacking inverts packing. */
module W4A8RoundTrip {
  import opened Wrappers
  import opened Arithmetic
  import opened Tensors
  import opened MarlinPerms
  import opened Nibbles
  import opened W4A8

  /** `s / s_channel`, the channel row broadcast over the groups. */
  function DivideByChannel(s: seq<real>, channel: seq<real>): (t: seq<real>)
    requires |channel| > 0 && forall i :: 0 <= i < |channel| ==> channel[i] > 0.0
    ensures |t| == |s|
  {
    seq(|s|, p requires 0 <= p < |s| => s[p] / channel[p % |channel|])
  }

  /** What a packed tensor holds, for working scales s. */
  predicate Packs(packed: Packed, weight: Matrix, s: seq<real>, gs: nat)
    requires ShapeOk(weight.rows, weight.cols, gs) && |weight.data| == weight.rows * weight.cols
    requires |s| == (weight.cols / gs) * weight.rows
  {
    ShapeFacts(weight.rows, weight.cols, gs);
    PermTablePermutes(FourConsecutive, gs == weight.cols);
    ScaleTableInvolution();
    SingleTablePermutes();
    var n, k := weight.rows, weight.cols;
    var channel := ChannelScales(weight);
    && Stores(packed.qweight,
              Tiled(IntLayout(weight.data, s, n, k / gs, gs), n, k, PermTable(FourConsecutive, gs == k)))
    && packed.sGroup == PermuteBlocks(DivideByChannel(s, channel), ScaleTable())
    && packed.sChannel == PermuteBlocks(channel, SingleTable())
  }

  method PackW4a8(weight: Matrix, gs: nat, gptq: Option<Matrix>) returns (r: Result<Packed, PackError>)
    requires |weight.data| == weight.rows * weight.cols
    requires gptq.Some? ==> |gptq.value.data| == gptq.value.rows * gptq.value.cols
    ensures var n, k := weight.rows, weight.cols;
      if k % 128 != 0 || n % 256 != 0 then r == Err(UnsupportedShape)
      else if gs == 0 then r == Err(ZeroGroupSize)
      else if k % gs != 0 then r == Err(UnsupportedShape)
      else if n == 0 || k == 0 then r == Err(EmptyTensor)
      else if gptq.Some? && (gptq.value.rows != n || gptq.value.cols != k / gs) then r == Err(ScaleShape)
      else (
        && r.Ok? && ShapeOk(n, k, gs) && (k / gs) * gs == k && ScalesOk(weight, gptq, gs)
        && Packs(r.value, weight, WorkScales(weight, gptq, gs), gs))
  {
    var n, k := weight.rows, weight.cols;
    if k % 128 != 0 || n % 256 != 0 { return Err(UnsupportedShape); }
    if gs == 0 { return Err(ZeroGroupSize); }
    if k % gs != 0 { return Err(UnsupportedShape); }
    if n == 0 || k == 0 { return Err(EmptyTensor); }
    if gptq.Some? && (gptq.value.rows != n || gptq.value.cols != k / gs) { return Err(ScaleShape); }
    ShapeFacts(n, k, gs);
    var perm, scalePerm, scalePermSingle := GetPerms(FourConsecutive, gs == k);
    PermTablePermutes(FourConsecutive, gs == k);
    ScaleTableInvolution();
    SingleTablePermutes();
    var channel := ChannelScales(weight);
    var s := WorkScales(weight, gptq, gs);
    var res := TiledInts(weight, s, gs, perm);
    var qweight := PackNibbles(res);
    r := Ok(Packed(qweight, PermuteBlocks(channel, scalePermSingle),
                   PermuteBlocks(DivideByChannel(s, channel), scalePerm)));
  }

  function TiledInts(weight: Matrix, s: seq<real>, gs: nat, perm: seq<nat>): (res: seq<nat>)
    requires ShapeOk(weight.rows, weight.cols, gs) && |weight.data| == weight.rows * weight.cols
    requires |s| == (weight.cols / gs) * weight.rows
    requires IsPermutation(perm) && |perm| == 1024
    ensures |res| % 8 == 0 && AreNibbles(res)
  {
    ShapeFacts(weight.rows, weight.cols, gs);
    var q := IntLayout(weight.data, s, weight.rows, weight.cols / gs, gs);
    TiledNibbles(q, weight.rows, weight.cols, perm);
    Tiled(q, weight.rows, weight.cols, perm)
  }

  lemma TiledNibbles(q: seq<nat>, n: nat, k: nat, perm: seq<nat>)
    requires |q| == (k / 16) * 16 * (n / 16) * 16 && |perm| > 0 && |q| % |perm| == 0 && IsPermutation(perm)
    requires AreNibbles(q)
    ensures AreNibbles(Tiled(q, n, k, perm))
  {
    SwapAxesKeeps(q, k / 16, 16, n / 16, 16, v => v < 16);
    PermuteBlocksKeeps(SwapAxes(q, k / 16, 16, n / 16, 16), perm, v => v < 16);
  }

  // ----- unpacking -----

  /** The inverse index lists, as `np.argsort` returns them. */
  predicate Inverses(inv: seq<nat>, invScale: seq<nat>, invSingle: seq<nat>, wholeColumn: bool) {
    && IsArgSort(inv, PermTable(FourConsecutive, wholeColumn))
    && IsArgSort(invScale, ScaleTable())
    && IsArgSort(invSingle, SingleTable())
  }

  /** `(q - 8) * repeat_interleave(sg, gs) * sc` over the (k, n) integers. */
  function Dequantised(q: seq<nat>, sg: seq<real>, sc: seq<real>, n: nat, groups: nat, gs: nat): (w: seq<real>)
    requires |q| == (groups * gs) * n && |sg| == groups * n && |sc| == n
    ensures |w| == |q|
  {
    seq(|q|, p requires 0 <= p < |q| => DequantisedOne(q, sg, sc, n, groups, gs, p))
  }

  function DequantisedOne(q: seq<nat>, sg: seq<real>, sc: seq<real>, n: nat, groups: nat, gs: nat, p: nat): real
    requires |q| == (groups * gs) * n && |sg| == groups * n && |sc| == n && p < |q|
  {
    Split(p, groups * gs, n);
    Split(p / n, groups, gs);
    Within(p / n / gs, p % n, groups, n);
    Product(q[p] as real - 8.0, sg[At2(p / n / gs, p % n, n)], sc[p % n])
  }

  function Product(t: real, g: real, c: real): real {
    t * g * c
  }

  lemma DequantisedAt(q: seq<nat>, sg: seq<real>, sc: seq<real>, n: nat, groups: nat, gs: nat, a: nat, g: nat, i: nat)
    requires |q| == (groups * gs) * n && |sg| == groups * n && |sc| == n && a < groups && g < gs && i < n
    ensures At3(a, g, i, gs, n) < |q| && At2(a, i, n) < |sg|
    ensures Dequantised(q, sg, sc, n, groups, gs)[At3(a, g, i, gs, n)]
         == Product(q[At3(a, g, i, gs, n)] as real - 8.0, sg[At2(a, i, n)], sc[i])
  {
    Within(a, g, groups, gs);
    Within(At2(a, g, gs), i, groups * gs, n);
    Within(a, i, groups, n);
    DivMod(At2(a, g, gs), n, i);
    DivMod(a, gs, g);
  }

  /** What the unpacker reads as the packed nibbles. */
  function NibbleTensor(qweight: seq<int>): (res: seq<nat>)
    ensures |res| == 8 * |qweight|
  {
    seq(8 * |qweight|, p requires 0 <= p < 8 * |qweight| => NibbleAt(qweight, p))
  }

  /** The unpacker's result: a (n, k) tensor. */
  function Recovered(packed: Packed, inv: seq<nat>, invScale: seq<nat>, invSingle: seq<nat>, n: nat, k: nat, gs: nat)
    : (w: seq<real>)
    requires ShapeOk(n, k, gs) && Inverses(inv, invScale, invSingle, gs == k)
    requires 8 * |packed.qweight| == n * k && |packed.sGroup| == (k / gs) * n && |packed.sChannel| == n
    ensures |w| == n * k
  {
    ShapeFacts(n, k, gs);
    var q := Untiled(NibbleTensor(packed.qweight), n, k, inv);
    var sg, sc := PermuteBlocks(packed.sGroup, invScale), PermuteBlocks(packed.sChannel, invSingle);
    Transposed(Dequantised(q, sg, sc, n, k / gs, gs), k, n)
  }

  method ManualUnpack(packed: Packed, inv: seq<nat>, invScale: seq<nat>, invSingle: seq<nat>, n: nat, k: nat, gs: nat)
    returns (w: seq<real>)
    requires ShapeOk(n, k, gs) && Inverses(inv, invScale, invSingle, gs == k)
    requires 8 * |packed.qweight| == n * k && |packed.sGroup| == (k / gs) * n && |packed.sChannel| == n
    ensures w == Recovered(packed, inv, invScale, invSingle, n, k, gs)
  {
    ShapeFacts(n, k, gs);
    var res := UnpackNibbles(packed.qweight);
    assert res == NibbleTensor(packed.qweight);
    var q := Untiled(res, n, k, inv);
    var sg := PermuteBlocks(packed.sGroup, invScale);
    var sc := PermuteBlocks(packed.sChannel, invSingle);
    w := Transposed(Dequantised(q, sg, sc, n, k / gs, gs), k, n);
  }

  // ----- the round trip -----

  lemma PackedSizes(packed: Packed, weight: Matrix, s: seq<real>, gs: nat)
    requires ShapeOk(weight.rows, weight.cols, gs) && |weight.data| == weight.rows * weight.cols
    requires |s| == (weight.cols / gs) * weight.rows && Packs(packed, weight, s, gs)
    ensures 8 * |packed.qweight| == weight.rows * weight.cols
    ensures |packed.sGroup| == (weight.cols / gs) * weight.rows && |packed.sChannel| == weight.rows
  {
    ShapeFacts(weight.rows, weight.cols, gs);
  }

  /** The integers survive tiling, permutation, nibble packing and the signed cast. */
  lemma IntsBack(packed: Packed, weight: Matrix, s: seq<real>, gs: nat, inv: seq<nat>)
    requires ShapeOk(weight.rows, weight.cols, gs) && |weight.data| == weight.rows * weight.cols
    requires |s| == (weight.cols / gs) * weight.rows && Packs(packed, weight, s, gs)
    requires IsArgSort(inv, PermTable(FourConsecutive, gs == weight.cols))
    ensures 8 * |packed.qweight| == (weight.cols / 16) * (weight.rows / 16) * 16 * 16
    ensures 8 * |packed.qweight| % |inv| == 0 && IsPermutation(inv)
    ensures 1 * weight.rows * ((weight.cols / gs) * gs) * 1 == |weight.data|
      == 1 * (weight.cols / gs) * gs * weight.rows == 1 * gs * (weight.cols / gs) * weight.rows
    ensures Untiled(NibbleTensor(packed.qweight), weight.rows, weight.cols, inv)
      == IntLayout(weight.data, s, weight.rows, weight.cols / gs, gs)
  {
    var n, k := weight.rows, weight.cols;
    ShapeFacts(n, k, gs);
    PermTablePermutes(FourConsecutive, gs == k);
    var perm := PermTable(FourConsecutive, gs == k);
    var q := IntLayout(weight.data, s, n, k / gs, gs);
    var res := TiledInts(weight, s, gs, perm);
    forall p | 0 <= p < |res| ensures NibbleAt(packed.qweight, p) == res[p] { NibblesBack(res, packed.qweight, p); }
    assert NibbleTensor(packed.qweight) == res;
    UntiledTiled(q, n, k, perm, inv);
  }

  /** The scale tables are undone by their argsorts. */
  lemma ScalesBack(packed: Packed, weight: Matrix, s: seq<real>, gs: nat, invScale: seq<nat>, invSingle: seq<nat>)
    requires ShapeOk(weight.rows, weight.cols, gs) && |weight.data| == weight.rows * weight.cols
    requires |s| == (weight.cols / gs) * weight.rows && Packs(packed, weight, s, gs)
    requires IsArgSort(invScale, ScaleTable()) && IsArgSort(invSingle, SingleTable())
    ensures |packed.sGroup| % |invScale| == 0 && |packed.sChannel| % |invSingle| == 0
    ensures PermuteBlocks(packed.sGroup, invScale) == DivideByChannel(s, ChannelScales(weight))
    ensures PermuteBlocks(packed.sChannel, invSingle) == ChannelScales(weight)
  {
    ShapeFacts(weight.rows, weight.cols, gs);
    ScaleTableInvolution();
    SingleTablePermutes();
    PermuteBlocksBack(DivideByChannel(s, ChannelScales(weight)), ScaleTable(), invScale);
    PermuteBlocksBack(ChannelScales(weight), SingleTable(), invSingle);
  }

  lemma DivideByChannelAt(s: seq<real>, channel: seq<real>, groups: nat, n: nat, a: nat, i: nat)
    requires |s| == groups * n && |channel| == n > 0 && forall c :: 0 <= c < n ==> channel[c] > 0.0
    requires a < groups && i < n
    ensures At2(a, i, n) < |s| && DivideByChannel(s, channel)[At2(a, i, n)] == s[At2(a, i, n)] / channel[i]
  {
    Within(a, i, groups, n);
    DivMod(a, n, i);
  }

  /** The value a 4-bit level stands for. */
  function Level(q: nat, s: real): real {
    (q as real - 8.0) * s
  }

  lemma ChannelCancels(q: nat, s: real, c: real, r: real)
    requires c > 0.0 && r == s / c
    ensures Product(q as real - 8.0, r, c) == Level(q, s)
  {
    var t := q as real - 8.0;
    assert r * c == s;
    assert t * r * c == t * (r * c);
  }

  /** The sizes at which the layout steps fit together. */
  predicate LayoutOk(data: seq<real>, s: seq<real>, channel: seq<real>, n: nat, groups: nat, gs: nat) {
    && |data| == 1 * n * (groups * gs) * 1 == 1 * groups * gs * n == 1 * gs * groups * n == (groups * gs) * n
    && |data| == 1 * (groups * gs) * n * 1
    && |s| == groups * n > 0
    && |channel| == n && forall c :: 0 <= c < n ==> channel[c] > 0.0
  }

  /** Quantised into the integer layout, dequantised there, and transposed back. */
  function Relaid(data: seq<real>, s: seq<real>, channel: seq<real>, n: nat, groups: nat, gs: nat): (w: seq<real>)
    requires LayoutOk(data, s, channel, n, groups, gs)
    ensures |w| == |data|
  {
    var q := IntLayout(data, s, n, groups, gs);
    Transposed(Dequantised(q, DivideByChannel(s, channel), channel, n, groups, gs), groups * gs, n)
  }

  /** Dequantising the integer layout, index by index. */
  lemma LayoutLevels(data: seq<real>, s: seq<real>, channel: seq<real>, n: nat, groups: nat, gs: nat, a: nat, g: nat,
                     i: nat)
    requires LayoutOk(data, s, channel, n, groups, gs) && a < groups && g < gs && i < n
    ensures var x := At2(i, At2(a, g, gs), groups * gs);
      && x < |data| && At2(a, i, n) < |s|
      && Relaid(data, s, channel, n, groups, gs)[x] == Level(Quantise(data[x], s[At2(a, i, n)]), s[At2(a, i, n)])
  {
    IntLayoutAt(data, s, n, groups, gs, a, g, i);
    DivideByChannelAt(s, channel, groups, n, a, i);
    var q, sg := IntLayout(data, s, n, groups, gs), DivideByChannel(s, channel);
    DequantisedAt(q, sg, channel, n, groups, gs, a, g, i);
    Within(a, g, groups, gs);
    TransposedAt(Dequantised(q, sg, channel, n, groups, gs), groups * gs, n, At2(a, g, gs), i);
    ChannelCancels(q[At3(a, g, i, gs, n)], s[At2(a, i, n)], channel[i], sg[At2(a, i, n)]);
  }

  lemma SomeScales(n: nat, k: nat, gs: nat)
    requires ShapeOk(n, k, gs)
    ensures (k / gs) * n > 0 && (k / gs) * gs == k
  {
    ShapeFacts(n, k, gs);
    AtLeast(k / gs, n);
  }

  /** The unpacker's result, once every layout step has been undone. */
  lemma RecoveredIs(packed: Packed, weight: Matrix, s: seq<real>, gs: nat,
                    inv: seq<nat>, invScale: seq<nat>, invSingle: seq<nat>)
    requires ShapeOk(weight.rows, weight.cols, gs) && |weight.data| == weight.rows * weight.cols
    requires |s| == (weight.cols / gs) * weight.rows && Packs(packed, weight, s, gs)
    requires Inverses(inv, invScale, invSingle, gs == weight.cols)
    ensures 8 * |packed.qweight| == weight.rows * weight.cols
    ensures |packed.sGroup| == (weight.cols / gs) * weight.rows && |packed.sChannel| == weight.rows
    ensures var n, groups, channel := weight.rows, weight.cols / gs, ChannelScales(weight);
      && weight.cols == groups * gs && LayoutOk(weight.data, s, channel, n, groups, gs)
      && Recovered(packed, inv, invScale, invSingle, n, weight.cols, gs)
         == Relaid(weight.data, s, channel, n, groups, gs)
  {
    SomeScales(weight.rows, weight.cols, gs);
    ShapeFacts(weight.rows, weight.cols, gs);
    PackedSizes(packed, weight, s, gs);
    IntsBack(packed, weight, s, gs, inv);
    ScalesBack(packed, weight, s, gs, invScale, invSingle);
  }

  /** LayoutLevels by column index. */
  lemma LayoutLevelsAt(data: seq<real>, s: seq<real>, channel: seq<real>, n: nat, groups: nat, gs: nat, i: nat, kk: nat)
    requires LayoutOk(data, s, channel, n, groups, gs) && i < n && gs > 0 && kk < groups * gs
    ensures At2(i, kk, groups * gs) < |data| && At2(kk / gs, i, n) < |s|
    ensures Relaid(data, s, channel, n, groups, gs)[At2(i, kk, groups * gs)]
      == Level(Quantise(data[At2(i, kk, groups * gs)], s[At2(kk / gs, i, n)]), s[At2(kk / gs, i, n)])
  {
    Split(kk, groups, gs);
    LayoutLevels(data, s, channel, n, groups, gs, kk / gs, kk % gs, i);
    assert At2(kk / gs, kk % gs, gs) == kk;
  }

  /** w holds, at every (channel i, input kk), the level of the quantised weight under the scale of
      its own group. */
  ghost predicate HoldsLevels(w: seq<real>, data: seq<real>, s: seq<real>, n: nat, k: nat, gs: nat) {
    gs > 0 && |w| == |data| && forall i: nat, kk: nat :: i < n && kk < k ==>
      && At2(i, kk, k) < |data| && At2(kk / gs, i, n) < |s|
      && w[At2(i, kk, k)] == Level(Quantise(data[At2(i, kk, k)], s[At2(kk / gs, i, n)]), s[At2(kk / gs, i, n)])
  }

  lemma LayoutHoldsLevels(data: seq<real>, s: seq<real>, channel: seq<real>, n: nat, groups: nat, gs: nat)
    requires LayoutOk(data, s, channel, n, groups, gs) && gs > 0
    ensures HoldsLevels(Relaid(data, s, channel, n, groups, gs), data, s, n, groups * gs, gs)
  {
    var w := Relaid(data, s, channel, n, groups, gs);
    forall i: nat, kk: nat | i < n && kk < groups * gs
      ensures At2(i, kk, groups * gs) < |data| && At2(kk / gs, i, n) < |s|
      ensures var p, q := At2(i, kk, groups * gs), At2(kk / gs, i, n); w[p] == Level(Quantise(data[p], s[q]), s[q])
    {
      LayoutLevelsAt(data, s, channel, n, groups, gs, i, kk);
    }
  }

  /** Unpacking a packed weight gives, at every position, the quantised value times that position's own
      group scale: for every accepted shape, one group per column or many. */
  lemma UnpackInvertsPack(packed: Packed, weight: Matrix, s: seq<real>, gs: nat,
                          inv: seq<nat>, invScale: seq<nat>, invSingle: seq<nat>)
    requires ShapeOk(weight.rows, weight.cols, gs) && |weight.data| == weight.rows * weight.cols
    requires |s| == (weight.cols / gs) * weight.rows && Packs(packed, weight, s, gs)
    requires Inverses(inv, invScale, invSingle, gs == weight.cols)
    ensures 8 * |packed.qweight| == weight.rows * weight.cols
    ensures |packed.sGroup| == (weight.cols / gs) * weight.rows && |packed.sChannel| == weight.rows
    ensures HoldsLevels(Recovered(packed, inv, invScale, invSingle, weight.rows, weight.cols, gs),
                        weight.data, s, weight.rows, weight.cols, gs)
  {
    RecoveredIs(packed, weight, s, gs, inv, invScale, invSingle);
    LayoutHoldsLevels(weight.data, s, ChannelScales(weight), weight.rows, weight.cols / gs, gs);
  }

  /** End to end: whatever is packed unpacks to the levels of the weights. */
  method PackThenUnpack(weight: Matrix, gs: nat, gptq: Option<Matrix>, inv: seq<nat>, invScale: seq<nat>,
                        invSingle: seq<nat>)
    returns (w: seq<real>)
    requires ShapeOk(weight.rows, weight.cols, gs) && (weight.cols / gs) * gs == weight.cols
    requires ScalesOk(weight, gptq, gs)
    requires Inverses(inv, invScale, invSingle, gs == weight.cols)
    ensures HoldsLevels(w, weight.data, WorkScales(weight, gptq, gs), weight.rows, weight.cols, gs)
  {
    var r := PackW4a8(weight, gs, gptq);
    UnpackInvertsPack(r.value, weight, WorkScales(weight, gptq, gs), gs, inv, invScale, invSingle);
    w := ManualUnpack(r.value, inv, invScale, invSingle, weight.rows, weight.cols, gs);
  }
}
