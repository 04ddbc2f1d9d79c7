/** The W4A8 Marlin packer and its unpacker: scales, quantisation, tiling, permutation, nibbles. */
module W4A8 {
  import opened Wrappers
  import opened Arithmetic
  import opened Rounding
  import opened Tensors
  import opened Nibbles

  const SCALE_FLOOR: real := 0.000001  // 1e-6

  datatype PackError = UnsupportedShape | ZeroGroupSize | EmptyTensor | ScaleShape

  /** A two-dimensional tensor, row-major. */
  datatype Matrix = Matrix(rows: nat, cols: nat, data: seq<real>)

  datatype Packed = Packed(qweight: seq<int>, sChannel: seq<real>, sGroup: seq<real>)

  /** Shapes that pass the guard and that the tensor library accepts. */
  predicate ShapeOk(n: nat, k: nat, gs: nat) {
    k % 128 == 0 && n % 256 == 0 && gs > 0 && k % gs == 0 && n > 0 && k > 0
  }

  lemma ShapeFacts(n: nat, k: nat, gs: nat)
    requires ShapeOk(n, k, gs)
    ensures var g := k / gs;
      && g * gs == k && g > 0
      && 1 * n * k * 1 == n * k && 1 * k * n * 1 == n * k
      && 1 * g * gs * n == n * k && 1 * gs * g * n == n * k
      && (g * n) % n == 0 && (g * n) % 64 == 0 && n % 32 == 0
    ensures (k / 16) * 16 * (n / 16) * 16 == n * k && (k / 16) * (n / 16) * 16 * 16 == n * k
    ensures (n * k) % 1024 == 0 && (n * k) % 8 == 0
  {
    Multiple(k, gs);
    var g, a, b := k / gs, k / 128, n / 256;
    GroupProducts(g, gs, n, k);
    GroupSizes(g, n, b);
    Sixteenths(k, 8 * a);
    Sixteenths(n, 16 * b);
    TileProducts(k, n, 8 * a, 16 * b);
    TileSizes(k, n, a, b);
  }

  lemma Sixteenths(x: nat, a: nat)
    requires x == 16 * a
    ensures x / 16 == a
  {}

  lemma GroupProducts(g: nat, gs: nat, n: nat, k: nat)
    requires g * gs == k
    ensures 1 * n * k * 1 == n * k && 1 * k * n * 1 == n * k
    ensures 1 * g * gs * n == n * k && 1 * gs * g * n == n * k
  {
    assert g * gs * n == k * n && gs * g * n == k * n;
  }

  lemma GroupSizes(g: nat, n: nat, b: nat)
    requires n > 0 && n == 256 * b
    ensures (g * n) % n == 0 && (g * n) % 64 == 0
  {
    DivMod(g, n, 0);
    assert g * n == 256 * (g * b);
  }

  lemma TileProducts(k: nat, n: nat, c: nat, d: nat)
    requires k == 16 * c && n == 16 * d
    ensures c * 16 * d * 16 == n * k && c * d * 16 * 16 == n * k
  {
    var p := c * d;
    assert n * k == 256 * p;
    assert k * d == 16 * p;
    assert c * 16 * d == k * d;
  }

  lemma TileSizes(k: nat, n: nat, a: nat, b: nat)
    requires k == 128 * a && n == 256 * b
    ensures (n * k) % 1024 == 0 && (n * k) % 8 == 0
  {
    var p := a * b;
    assert n * k == 32768 * p;
  }

  // ----- scales -----

  /** Row i of a row-major matrix. */
  function RowSlice(data: seq<real>, i: nat, cols: nat): (row: seq<real>)
    requires (i + 1) * cols <= |data|
    ensures |row| == cols
  {
    assert i * cols + cols == (i + 1) * cols;
    data[i * cols..(i + 1) * cols]
  }

  lemma RowFits(i: nat, rows: nat, cols: nat)
    requires i < rows
    ensures (i + 1) * cols <= rows * cols
  {
    AtLeastMany(rows, i + 1, cols);
  }

  /** max|row| / 127, or 1 for an all-zero row. */
  function ChannelScale(row: seq<real>): (s: real)
    ensures s > 0.0
  {
    var s := AbsMax(row) / 127.0;
    if s == 0.0 then 1.0 else s
  }

  function ChannelScales(weight: Matrix): (s: seq<real>)
    requires |weight.data| == weight.rows * weight.cols
    ensures |s| == weight.rows && forall i :: 0 <= i < |s| ==> s[i] > 0.0
  {
    seq(weight.rows, i requires 0 <= i < weight.rows =>
      RowFits(i, weight.rows, weight.cols); ChannelScale(RowSlice(weight.data, i, weight.cols)))
  }

  /** Group a of channel i. */
  function GroupSlice(weight: Matrix, i: nat, a: nat, gs: nat): (group: seq<real>)
    requires |weight.data| == weight.rows * weight.cols && i < weight.rows && (a + 1) * gs <= weight.cols
    ensures |group| == gs
  {
    RowFits(i, weight.rows, weight.cols);
    RowSlice(RowSlice(weight.data, i, weight.cols), a, gs)
  }

  /** Max-scale of a group with the floor, over 7. */
  function NaiveScale(group: seq<real>): (s: real)
    ensures s > 0.0
  {
    Max(AbsMax(group), SCALE_FLOOR) / 7.0
  }

  /** A calibrated scale, capped at sixteen channel scales. */
  function CappedScale(scale: real, channel: real): real {
    Min(scale, 16.0 * channel)
  }

  /** The working scale of (group a, channel i): naive, or from the calibrated scales. */
  function WorkScale(weight: Matrix, gptq: Option<Matrix>, gs: nat, a: nat, i: nat): real
    requires |weight.data| == weight.rows * weight.cols && i < weight.rows && (a + 1) * gs <= weight.cols
    requires gptq.Some? ==> a < gptq.value.cols && i < gptq.value.rows
    requires gptq.Some? ==> |gptq.value.data| == gptq.value.rows * gptq.value.cols
  {
    match gptq
    case None => NaiveScale(GroupSlice(weight, i, a, gs))
    case Some(g) =>
      Within(i, a, g.rows, g.cols);
      CappedScale(g.data[i * g.cols + a], ChannelScales(weight)[i])
  }

  predicate ScalesOk(weight: Matrix, gptq: Option<Matrix>, gs: nat)
    requires gs > 0
  {
    && |weight.data| == weight.rows * weight.cols
    && (gptq.Some? ==>
      && gptq.value.rows == weight.rows && gptq.value.cols == weight.cols / gs
      && |gptq.value.data| == gptq.value.rows * gptq.value.cols)
  }

  lemma GroupFits(p: nat, n: nat, groups: nat, gs: nat)
    requires p < groups * n
    ensures n > 0 && p / n < groups && p % n < n && (p / n + 1) * gs <= groups * gs
  {
    Split(p, groups, n);
    RowFits(p / n, groups, gs);
  }

  /** The tensor s of shape (k / gs, n). */
  function WorkScales(weight: Matrix, gptq: Option<Matrix>, gs: nat): (s: seq<real>)
    requires gs > 0 && weight.cols == (weight.cols / gs) * gs && ScalesOk(weight, gptq, gs)
    ensures |s| == (weight.cols / gs) * weight.rows
  {
    seq((weight.cols / gs) * weight.rows, p requires 0 <= p < (weight.cols / gs) * weight.rows =>
      WorkScaleAt(weight, gptq, gs, p))
  }

  function WorkScaleAt(weight: Matrix, gptq: Option<Matrix>, gs: nat, p: nat): (s: real)
    requires gs > 0 && weight.cols == (weight.cols / gs) * gs && ScalesOk(weight, gptq, gs)
    requires p < (weight.cols / gs) * weight.rows
  {
    GroupFits(p, weight.rows, weight.cols / gs, gs);
    WorkScale(weight, gptq, gs, p / weight.rows, p % weight.rows)
  }

  // ----- quantisation and layout -----

  /** The level of a weight. Divided by a zero scale it is an infinity or not a number, which converts to
      the most negative 32-bit integer and is clamped to 0; any other level would stand for zero as well. */
  function Quantise(w: real, s: real): (q: nat)
    ensures q < 16
  {
    if s == 0.0 then 0 else Clamp(Round(w / s) + 8, 0, 15)
  }

  /** Elementwise quantisation of a (gs, groups * n) tensor, the scale row broadcast over it. */
  function QuantiseAll(w: seq<real>, s: seq<real>): (q: seq<nat>)
    requires |s| > 0
    ensures |q| == |w| && AreNibbles(q)
  {
    seq(|w|, p requires 0 <= p < |w| => Quantise(w[p], s[p % |s|]))
  }

  /** `weight.t()`: (n, k) to (k, n). */
  function Transposed<T>(data: seq<T>, n: nat, k: nat): (t: seq<T>)
    requires |data| == 1 * n * k * 1
    ensures |t| == |data|
  {
    SwapAxes(data, 1, n, k, 1)
  }

  lemma TransposedAt<T>(data: seq<T>, n: nat, k: nat, i: nat, j: nat)
    requires |data| == 1 * n * k * 1 && i < n && j < k
    ensures At2(j, i, n) < |data| && At2(i, j, k) < |data|
    ensures Transposed(data, n, k)[At2(j, i, n)] == data[At2(i, j, k)]
  {
    SwapAxesAt(data, 1, n, k, 1, 0, i, j, 0);
    FlatTwo(j, i, k, n);
    FlatTwo(i, j, n, k);
  }

  /** `reshape(p, q, n).permute(1, 0, 2)`. */
  function Regrouped<T>(data: seq<T>, p: nat, q: nat, n: nat): (t: seq<T>)
    requires |data| == 1 * p * q * n
    ensures |t| == |data|
  {
    SwapAxes(data, 1, p, q, n)
  }

  lemma RegroupedAt<T>(data: seq<T>, p: nat, q: nat, n: nat, a: nat, g: nat, i: nat)
    requires |data| == 1 * p * q * n && a < p && g < q && i < n
    ensures At3(g, a, i, p, n) < |data| && At3(a, g, i, q, n) < |data|
    ensures Regrouped(data, p, q, n)[At3(g, a, i, p, n)] == data[At3(a, g, i, q, n)]
  {
    SwapAxesAt(data, 1, p, q, n, 0, a, g, i);
    FlatThree(a, g, i, p, q, n);
    FlatThree(g, a, i, q, p, n);
  }

  lemma QuantiseAllAt(w: seq<real>, s: seq<real>, groups: nat, n: nat, a: nat, g: nat, i: nat)
    requires |s| == groups * n > 0 && a < groups && i < n && At3(g, a, i, groups, n) < |w|
    ensures At2(a, i, n) < |s|
    ensures QuantiseAll(w, s)[At3(g, a, i, groups, n)] == Quantise(w[At3(g, a, i, groups, n)], s[At2(a, i, n)])
  {
    Within(a, i, groups, n);
    At3Regroup(g, a, i, groups, n);
    UnAt(g, At2(a, i, n), groups * n);
  }

  /** Steps from the weight to the (k, n) integers: transpose, group-major reorder, quantise, reorder back. */
  function IntLayout(data: seq<real>, s: seq<real>, n: nat, groups: nat, gs: nat): (q: seq<nat>)
    requires |data| == 1 * n * (groups * gs) * 1 == 1 * groups * gs * n == 1 * gs * groups * n
    requires |s| == groups * n > 0
    ensures |q| == |data| && AreNibbles(q)
  {
    var q := QuantiseAll(Regrouped(Transposed(data, n, groups * gs), groups, gs, n), s);
    NibblesStay(q, gs, groups, n);
    Regrouped(q, gs, groups, n)
  }

  lemma NibblesStay(q: seq<nat>, p: nat, r: nat, n: nat)
    requires |q| == 1 * p * r * n && AreNibbles(q)
    ensures AreNibbles(Regrouped(q, p, r, n))
  {
    SwapAxesKeeps(q, 1, p, r, n, v => v < 16);
  }

  /** Element (kk, i) of the integer layout quantises weight (i, kk) by its own group scale. */
  lemma IntLayoutAt(data: seq<real>, s: seq<real>, n: nat, groups: nat, gs: nat, a: nat, g: nat, i: nat)
    requires |data| == 1 * n * (groups * gs) * 1 == 1 * groups * gs * n == 1 * gs * groups * n
    requires |s| == groups * n > 0
    requires a < groups && g < gs && i < n
    ensures At3(a, g, i, gs, n) < |data| && At2(i, At2(a, g, gs), groups * gs) < |data| && At2(a, i, n) < |s|
    ensures IntLayout(data, s, n, groups, gs)[At3(a, g, i, gs, n)]
         == Quantise(data[At2(i, At2(a, g, gs), groups * gs)], s[At2(a, i, n)])
  {
    var ref := Transposed(data, n, groups * gs);
    Within(a, g, groups, gs);
    TransposedAt(data, n, groups * gs, i, At2(a, g, gs));
    var w := Regrouped(ref, groups, gs, n);
    RegroupedAt(ref, groups, gs, n, a, g, i);
    QuantiseAllAt(w, s, groups, n, a, g, i);
    RegroupedAt(QuantiseAll(w, s), gs, groups, n, g, a, i);
  }

  lemma FlatTwo(i: nat, j: nat, b: nat, c: nat)
    ensures Flat(0, i, j, 0, b, c, 1) == At2(i, j, c)
  {
    assert 0 * b == 0;
  }

  lemma FlatThree(i: nat, j: nat, l: nat, b: nat, c: nat, d: nat)
    ensures Flat(0, i, j, l, b, c, d) == At3(i, j, l, c, d)
  {
    assert 0 * b == 0;
  }

  /** Tiling and the MMA permutation of the (k, n) integers. */
  function Tiled(q: seq<nat>, n: nat, k: nat, perm: seq<nat>): (res: seq<nat>)
    requires |q| == (k / 16) * 16 * (n / 16) * 16 && |perm| > 0 && |q| % |perm| == 0 && IsPermutation(perm)
    ensures |res| == |q|
  {
    PermuteBlocks(SwapAxes(q, k / 16, 16, n / 16, 16), perm)
  }

  /** Undoing permutation and tiling. */
  function Untiled(res: seq<nat>, n: nat, k: nat, inv: seq<nat>): (q: seq<nat>)
    requires |res| == (k / 16) * (n / 16) * 16 * 16 && |inv| > 0 && |res| % |inv| == 0 && IsPermutation(inv)
    ensures |q| == |res|
  {
    SwapAxes(PermuteBlocks(res, inv), k / 16, n / 16, 16, 16)
  }

  lemma UntiledTiled(q: seq<nat>, n: nat, k: nat, perm: seq<nat>, inv: seq<nat>)
    requires |q| == (k / 16) * 16 * (n / 16) * 16 == (k / 16) * (n / 16) * 16 * 16
    requires IsPermutation(perm) && |perm| > 0 && |q| % |perm| == 0 && IsArgSort(inv, perm)
    ensures Untiled(Tiled(q, n, k, perm), n, k, inv) == q
  {
    var tiled := SwapAxes(q, k / 16, 16, n / 16, 16);
    PermuteBlocksBack(tiled, perm, inv);
    SwapAxesBack(q, k / 16, 16, n / 16, 16);
  }
}
