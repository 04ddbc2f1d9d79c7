/** The Python converter, which applies the stored zero points, against the Rust one, which assumes them. */
module GptqAgree {
  import opened Arithmetic
  import opened Bits
  import opened PackedFields
  import opened Rounding
  import opened Tensors
  import opened Nibbles
  import opened W4A8
  import opened Repack
  import opened GptqConvert
  import G = Gptq

  // ----- arithmetic shifts of signed words -----

  /** `(i >> (4 * t)) & 0xF` on a signed word: the shift floors. */
  function SignedNibble(i: int, t: nat): (v: nat)
    ensures v < 16
  {
    i / Pow2(4 * t) % 16
  }

  /** Sign extension does not reach the eight nibbles. */
  lemma SignedNibbleIs(u: nat, t: nat)
    requires u < WORD && t < 8
    ensures SignedNibble(ToInt32(u), t) == Field(u, t, 4)
  {
    SixteenWords();
    FieldLaw(u, t, 4);
    Pow2Law(28 - 4 * t, 4);
    Pow2Law(32 - 4 * t, 4 * t);
    var d, m := Pow2(4 * t), Pow2(28 - 4 * t);
    assert WORD == (m * 16) * d;
    ShiftedDown(u, m * 16, d);
    SixteenOff(u / d, m);
  }

  lemma ShiftedDown(u: nat, m: nat, d: nat)
    requires d > 0
    ensures (u - m * d) / d == u / d - m
  {
    var q, r := u / d, u % d;
    assert u - m * d == d * (q - m) + r;
    FloorOf(u - m * d, q - m, r, d);
  }

  lemma FloorOf(n: int, q: int, r: int, d: int)
    requires d > 0 && 0 <= r < d && n == d * q + r
    ensures n / d == q
  {
    assert n == d * (n / d) + n % d;
    assert d * (n / d - q) == r - n % d;
    if n / d > q { AtLeast(n / d - q, d); assert false; }
    if n / d < q { AtLeast(q - n / d, d); assert false; }
  }

  lemma SixteenOff(x: int, m: int)
    ensures (x - m * 16) % 16 == x % 16
  {}

  // ----- the tensor expressions -----

  /** The tensors of one layer: qweight (kPacked, n), qzeros (groups, n / 8), scales (groups, n). */
  datatype Layer = Layer(qweight: seq<int>, kPacked: nat, n: nat, qzeros: seq<int>, scales: seq<real>, groups: nat,
                         gs: nat) {
    /** The shapes the tensor operations accept. */
    predicate Shaped() {
      && |qweight| == kPacked * n && |qzeros| == groups * (n / 8) && n % 8 == 0
      && |scales| == groups * n && gs > 0 && groups * gs == 8 * kPacked
    }
  }

  lemma Inside(kPacked: nat, n: nat, groups: nat, gs: nat, i: nat, k: nat)
    requires n % 8 == 0 && gs > 0 && groups * gs == 8 * kPacked && i < n && k < 8 * kPacked
    ensures At2(k / 8, i, n) < kPacked * n
    ensures 0 <= k / gs < groups && At2(k / gs, i / 8, n / 8) < groups * (n / 8)
  {
    Within(k / 8, i, kPacked, n);
    Split(k, groups, gs);
    Within(k / gs, i / 8, groups, n / 8);
  }

  /** The unsigned level the Python converter writes for (i, k): the stored nibble shifted by its zero
      point, which is stored as zero - 1, clamped to the signed range, and shifted back. */
  function PythonLevel(w: nat, storedZero: nat): (v: nat)
    ensures v < 16
  {
    Clamp(w - (storedZero + 1), -8, 7) + 8
  }

  function ZeroNibble(layer: Layer, i: nat, k: nat): (v: nat)
    requires layer.Shaped() && i < layer.n && k < 8 * layer.kPacked
    ensures v < 16
  {
    Inside(layer.kPacked, layer.n, layer.groups, layer.gs, i, k);
    SignedNibble(layer.qzeros[At2(k / layer.gs, i / 8, layer.n / 8)], i % 8)
  }

  function WeightNibble(layer: Layer, i: nat, k: nat): (v: nat)
    requires layer.Shaped() && i < layer.n && k < 8 * layer.kPacked
    ensures v < 16
  {
    Inside(layer.kPacked, layer.n, layer.groups, layer.gs, i, k);
    SignedNibble(layer.qweight[At2(k / 8, i, layer.n)], k % 8)
  }

  function PythonNibble(layer: Layer, i: nat, k: nat): (v: nat)
    requires layer.Shaped() && i < layer.n && k < 8 * layer.kPacked
    ensures v < 16
  {
    PythonLevel(WeightNibble(layer, i, k), ZeroNibble(layer, i, k))
  }

  lemma PairFields(lo: nat, hi: nat)
    requires lo < 16 && hi < 16
    ensures Or(lo, Shl(hi, 4)) < 256
    ensures Field(Or(lo, Shl(hi, 4)), 0, 4) == lo && Field(Or(lo, Shl(hi, 4)), 1, 4) == hi
  {
    SixteenWords();
    DisjointField(lo, hi, 4);
    G.StoredPair(lo, hi);
  }

  /** `u[:, 0::2] | (u[:, 1::2] << 4)` at (i, j). */
  function PythonByte(layer: Layer, i: nat, j: nat): (v: nat)
    requires layer.Shaped() && i < layer.n && j < 4 * layer.kPacked
    ensures v < 256
  {
    var lo, hi := PythonNibble(layer, i, 2 * j), PythonNibble(layer, i, 2 * j + 1);
    PairFields(lo, hi);
    Or(lo, Shl(hi, 4))
  }

  function PythonByteAt(layer: Layer, b: nat): (v: nat)
    requires layer.Shaped() && b < layer.n * (4 * layer.kPacked)
    ensures v < 256
  {
    Split(b, layer.n, 4 * layer.kPacked);
    PythonByte(layer, b / (4 * layer.kPacked), b % (4 * layer.kPacked))
  }

  function UnpackGptq(layer: Layer): Layout
    requires layer.Shaped()
  {
    assert 1 * layer.groups * layer.n * 1 == layer.groups * layer.n;
    var size := layer.n * (4 * layer.kPacked);
    Layout(seq(size, b requires 0 <= b < size => PythonByteAt(layer, b)),
           Transposed(layer.scales, layer.groups, layer.n))
  }

  lemma PythonBytes(layer: Layer)
    requires layer.Shaped()
    ensures G.AreBytes(UnpackGptq(layer).packed)
  {}

  lemma PythonByteIs(layer: Layer, i: nat, j: nat)
    requires layer.Shaped() && i < layer.n && j < 4 * layer.kPacked
    ensures At2(i, j, 4 * layer.kPacked) < layer.n * (4 * layer.kPacked)
    ensures UnpackGptq(layer).packed[At2(i, j, 4 * layer.kPacked)] == PythonByte(layer, i, j)
  {
    Within(i, j, layer.n, 4 * layer.kPacked);
    DivMod(i, 4 * layer.kPacked, j);
  }

  /** Nibble (i, k) of the Python bytes. */
  lemma PythonNibbleAt(layer: Layer, i: nat, k: nat)
    requires layer.Shaped() && i < layer.n && k < 8 * layer.kPacked
    ensures At2(i, k, 8 * layer.kPacked) < 2 * |UnpackGptq(layer).packed|
    ensures NibbleOf(UnpackGptq(layer).packed, At2(i, k, 8 * layer.kPacked)) == PythonNibble(layer, i, k)
  {
    ByteOf(i, k, layer.n, 4 * layer.kPacked);
    PythonByteIs(layer, i, k / 2);
    PythonHalves(layer, i, k / 2);
    if k % 2 == 0 { assert k == 2 * (k / 2); } else { assert k == 2 * (k / 2) + 1; }
  }

  lemma PythonHalves(layer: Layer, i: nat, j: nat)
    requires layer.Shaped() && i < layer.n && j < 4 * layer.kPacked
    ensures Field(PythonByte(layer, i, j), 0, 4) == PythonNibble(layer, i, 2 * j)
    ensures Field(PythonByte(layer, i, j), 1, 4) == PythonNibble(layer, i, 2 * j + 1)
  {
    PairFields(PythonNibble(layer, i, 2 * j), PythonNibble(layer, i, 2 * j + 1));
  }

  // ----- agreement -----

  /** The same layer as the Rust converter reads it: the words little-endian in a byte buffer. */
  predicate SameWords(layer: Layer, bytes: seq<nat>) {
    && |bytes| == 4 * |layer.qweight| && G.AreBytes(bytes)
    && forall w :: 0 <= w < |layer.qweight| ==> G.Word(bytes, w) < WORD && layer.qweight[w] == ToInt32(G.Word(bytes, w))
  }

  /** The clamped, shifted level equals the stored nibble exactly when the zero point is the symmetric
      one or the clamp hides the difference. */
  lemma LevelAgreesIff(w: nat, storedZero: nat)
    requires w < 16 && storedZero < 16
    ensures PythonLevel(w, storedZero) == w <==>
      storedZero == 7 || (w == 0 && storedZero >= 7) || (w == 15 && storedZero <= 7)
  {}

  predicate AgreesAt(layer: Layer, i: nat, k: nat)
    requires layer.Shaped() && i < layer.n && k < 8 * layer.kPacked
  {
    var w, z := WeightNibble(layer, i, k), ZeroNibble(layer, i, k);
    z == 7 || (w == 0 && z >= 7) || (w == 15 && z <= 7)
  }

  lemma WeightIsSource(layer: Layer, bytes: seq<nat>, i: nat, k: nat)
    requires layer.Shaped() && SameWords(layer, bytes) && i < layer.n && k < 8 * layer.kPacked
    ensures 4 * At2(k / 8, i, layer.n) + 4 <= |bytes|
    ensures WeightNibble(layer, i, k) == SourceNibble(bytes, layer.n, i, k)
  {
    Inside(layer.kPacked, layer.n, layer.groups, layer.gs, i, k);
    SignedNibbleIs(G.Word(bytes, At2(k / 8, i, layer.n)), k % 8);
  }

  /** Both converters move the scales alike; their bytes are the same exactly when every element agrees. */
  lemma ConvertersAgreeIff(layer: Layer, bytes: seq<nat>, layout: Layout)
    requires layer.Shaped() && SameWords(layer, bytes) && Covers(bytes, layer.kPacked, layer.n)
    requires Converted(layout, bytes, layer.kPacked, layer.n, layer.scales, layer.groups)
    ensures UnpackGptq(layer).scales == layout.scales
    ensures UnpackGptq(layer).packed == layout.packed <==>
      forall i: nat, k: nat :: i < layer.n && k < 8 * layer.kPacked ==> AgreesAt(layer, i, k)
  {
    ScalesAgree(layer, layout.scales);
    PythonBytes(layer);
    var mine := UnpackGptq(layer).packed;
    NibblesEverywhere(mine, layout.packed, layer.n, 8 * layer.kPacked);
    forall i: nat, k: nat | i < layer.n && k < 8 * layer.kPacked
      ensures At2(i, k, 8 * layer.kPacked) < 2 * |mine|
      ensures NibbleOf(mine, At2(i, k, 8 * layer.kPacked)) == NibbleOf(layout.packed, At2(i, k, 8 * layer.kPacked))
        <==> AgreesAt(layer, i, k)
    {
      PythonNibbleAt(layer, i, k);
      WeightIsSource(layer, bytes, i, k);
      assert Before(i, k, 8 * layer.kPacked, 0);
      LevelAgreesIff(WeightNibble(layer, i, k), ZeroNibble(layer, i, k));
    }
  }

  lemma NibblesEverywhere(a: seq<nat>, b: seq<nat>, n: nat, cols: nat)
    requires G.AreBytes(a) && G.AreBytes(b) && |a| == |b| && 2 * |a| == n * cols
    ensures a == b <==> forall i: nat, k: nat :: i < n && k < cols ==>
      At2(i, k, cols) < 2 * |a| && NibbleOf(a, At2(i, k, cols)) == NibbleOf(b, At2(i, k, cols))
  {
    G.SameNibbles(a, b);
    forall i: nat, k: nat | i < n && k < cols ensures At2(i, k, cols) < 2 * |a| { Within(i, k, n, cols); }
    if forall i: nat, k: nat :: i < n && k < cols ==> NibbleOf(a, At2(i, k, cols)) == NibbleOf(b, At2(i, k, cols)) {
      forall p | 0 <= p < 2 * |a| ensures NibbleOf(a, p) == NibbleOf(b, p) {
        Split(p, n, cols);
        var i: nat, k: nat := p / cols, p % cols;
        assert NibbleOf(a, At2(i, k, cols)) == NibbleOf(b, At2(i, k, cols));
      }
    }
  }

  lemma ScalesAgree(layer: Layer, scales: seq<real>)
    requires layer.Shaped() && ScalesMoved(scales, layer.scales, layer.groups, layer.n, layer.groups, 0)
    ensures UnpackGptq(layer).scales == scales
  {
    var mine := UnpackGptq(layer).scales;
    assert 1 * layer.groups * layer.n * 1 == layer.groups * layer.n;
    assert layer.n * layer.groups == layer.groups * layer.n;
    forall p | 0 <= p < |mine| ensures mine[p] == scales[p] {
      Split(p, layer.n, layer.groups);
      var i: nat, g: nat := p / layer.groups, p % layer.groups;
      TransposedAt(layer.scales, layer.groups, layer.n, g, i);
      assert Before(i, g, layer.groups, 0);
    }
  }
}
