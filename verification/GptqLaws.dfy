/** The GPTQ conversions, the reference product and the zero-point scan stated over the bytes of the checkpoint. */
module GptqLaws {
  import opened PackedFields
  import opened Tensors
  import opened Nibbles
  import opened W4A8
  import opened Repack
  import opened GptqConvert
  import opened GptqAgree
  import opened GptqZeros
  import G = Gptq

  // ----- little-endian words -----

  lemma PackFour(a: nat, b: nat, c: nat, d: nat)
    ensures Pack([a, b, c, d], 8) == a + 256 * b + 65536 * c + 16777216 * d
  {
    SixteenWords();
    PackUpToFour([a, b, c, d], 8, 256);
  }

  /** A word has its lowest byte first. */
  lemma WordLaw(data: seq<nat>, i: nat)
    requires 4 * i + 4 <= |data|
    ensures G.Word(data, i)
      == data[4 * i] + 256 * data[4 * i + 1] + 65536 * data[4 * i + 2] + 16777216 * data[4 * i + 3]
  {
    PackFour(data[4 * i], data[4 * i + 1], data[4 * i + 2], data[4 * i + 3]);
    assert data[4 * i..4 * i + 4] == [data[4 * i], data[4 * i + 1], data[4 * i + 2], data[4 * i + 3]];
  }

  lemma QuotientOf(x: nat, rest: nat)
    requires x < 256
    ensures (x + 256 * rest) / 256 == rest
  {}

  lemma LowDigits(x: nat, rest: nat)
    ensures (x + 256 * rest) % 16 == x % 16 && (x + 256 * rest) / 16 % 16 == x / 16 % 16
  {
    assert (x + 256 * rest) / 16 == x / 16 + 16 * rest;
  }

  lemma SplitDivision(w: nat)
    ensures w / 1 == w && w / 4096 == w / 256 / 16
    ensures w / 65536 == w / 256 / 256 && w / 1048576 == w / 65536 / 16
  {}

  lemma SplitHigh(w: nat)
    ensures w / 16777216 == w / 65536 / 256 && w / 268435456 == w / 16777216 / 16
  {}

  lemma DigitOfWord(a: nat, b: nat, c: nat, d: nat, t: nat)
    requires a < 256 && b < 256 && c < 256 && d < 256 && t < 8
    ensures var x := [a, b, c, d][t / 2];
      (a + 256 * b + 65536 * c + 16777216 * d) / Sixteens(t) % 16 == if t % 2 == 0 then x % 16 else x / 16 % 16
  {
    var w1, w2 := b + 256 * c + 65536 * d, c + 256 * d;
    var w := a + 256 * w1;
    QuotientOf(a, w1);
    QuotientOf(b, w2);
    QuotientOf(c, d);
    SplitDivision(w);
    SplitHigh(w);
    LowDigits(a, w1);
    LowDigits(b, w2);
    LowDigits(c, d);
    LowDigits(d, 0);
    DigitCases(w, [a, b, c, d], t);
  }

  lemma DigitCases(w: nat, xs: seq<nat>, t: nat)
    requires |xs| == 4 && t < 8
    requires w / 1 % 16 == xs[0] % 16 && w / 16 % 16 == xs[0] / 16 % 16
    requires w / 256 % 16 == xs[1] % 16 && w / 4096 % 16 == xs[1] / 16 % 16
    requires w / 65536 % 16 == xs[2] % 16 && w / 1048576 % 16 == xs[2] / 16 % 16
    requires w / 16777216 % 16 == xs[3] % 16 && w / 268435456 % 16 == xs[3] / 16 % 16
    ensures w / Sixteens(t) % 16 == if t % 2 == 0 then xs[t / 2] % 16 else xs[t / 2] / 16 % 16
  {}

  /** Nibble t of word i is nibble 8 i + t of the buffer. */
  lemma NibbleOfWord(data: seq<nat>, i: nat, t: nat)
    requires 4 * i + 4 <= |data| && G.AreBytes(data) && t < 8
    ensures Field(G.Word(data, i), t, 4) == NibbleOf(data, 8 * i + t)
  {
    WordLaw(data, i);
    SixteensLaw(t);
    FieldIs(G.Word(data, i), t, 4, Sixteens(t), 16);
    DigitOfWord(data[4 * i], data[4 * i + 1], data[4 * i + 2], data[4 * i + 3], t);
    NibbleOfLaw(data, 8 * i + t);
    assert (8 * i + t) / 2 == 4 * i + t / 2 && (8 * i + t) % 2 == t % 2;
  }

  // ----- the Rust conversion and the reference -----

  /** The converted layout: element (row, k) is nibble k % 8 of the source word (k / 8, row), counted in the
      source's own bytes, and scale (row, g) is the source's (g, row). */
  lemma ConvertedLaw(layout: Layout, qweight: seq<nat>, gptqRows: nat, rows: nat, scales: seq<real>, groups: nat,
                     row: nat, k: nat)
    requires Covers(qweight, gptqRows, rows) && Converted(layout, qweight, gptqRows, rows, scales, groups)
    requires G.AreBytes(qweight) && row < rows && k < 8 * gptqRows
    ensures At2(row, k, 8 * gptqRows) < 2 * |layout.packed|
    ensures 8 * At2(k / 8, row, rows) + k % 8 < 2 * |qweight|
    ensures NibbleOf(layout.packed, At2(row, k, 8 * gptqRows)) == NibbleOf(qweight, 8 * At2(k / 8, row, rows) + k % 8)
  {
    WordInside(qweight, gptqRows, rows, row, k);
    assert Before(row, k, 8 * gptqRows, 0);
    NibbleOfWord(qweight, At2(k / 8, row, rows), k % 8);
  }

  lemma ConvertedScaleLaw(layout: Layout, qweight: seq<nat>, gptqRows: nat, rows: nat, scales: seq<real>, groups: nat,
                          row: nat, g: nat)
    requires Covers(qweight, gptqRows, rows) && Converted(layout, qweight, gptqRows, rows, scales, groups)
    requires row < rows && g < groups
    ensures row * groups + g < |layout.scales| && g * rows + row < |scales|
    ensures layout.scales[row * groups + g] == scales[g * rows + row]
  {
    assert Before(row, g, groups, 0);
    assert At2(row, g, groups) < |layout.scales| && At2(g, row, rows) < |scales|;
  }

  /** The reference sum: nothing at first, then eight taken off each nibble, times its scale and its input. */
  lemma ReferenceLaw(qweight: seq<nat>, rows: nat, scales: seq<real>, gs: nat, input: seq<real>, row: nat, k: nat)
    requires gs > 0 && k < |input| && RowReadable(qweight, rows, scales, gs, row, k + 1) && G.AreBytes(qweight)
    ensures RowReadable(qweight, rows, scales, gs, row, k) && RowReadable(qweight, rows, scales, gs, row, 0)
    ensures 8 * At2(k / 8, row, rows) + k % 8 < 2 * |qweight| && ScaleIndex(k, gs, row, rows) < |scales|
    ensures ReferenceSum(qweight, rows, scales, gs, input, row, 0) == 0.0
    ensures ReferenceSum(qweight, rows, scales, gs, input, row, k + 1)
      == ReferenceSum(qweight, rows, scales, gs, input, row, k)
         + (NibbleOf(qweight, 8 * At2(k / 8, row, rows) + k % 8) as real - 8.0)
           * scales[ScaleIndex(k, gs, row, rows)] * input[k]
  {
    assert ReadableAt(qweight, rows, scales, gs, row, k);
    NibbleOfWord(qweight, At2(k / 8, row, rows), k % 8);
  }

  /** The indices those statements use. */
  lemma IndexLaw(k: nat, gs: nat, row: nat, rows: nat)
    requires gs > 0
    ensures WordIndex(k, row, rows) == k / 8 * rows + row && ScaleIndex(k, gs, row, rows) == k / gs * rows + row
    ensures At2(k, row, rows) == k * rows + row
  {}

  /** What is reported for an element that cannot be read: its word if that is short, else its scale. */
  lemma MissingLaw(qweight: seq<nat>, rows: nat, gs: nat, row: nat, k: nat)
    requires gs > 0
    ensures Missing(qweight, rows, gs, row, k)
      == if |qweight| / 4 <= At2(k / 8, row, rows) then G.OutOfRange(At2(k / 8, row, rows))
         else G.ScaleOutOfRange(At2(k / gs, row, rows))
  {}

  // ----- the Python conversion -----

  /** Nibble t of a signed word, by arithmetic shift. */
  lemma SignedNibbleLaw(i: int, t: nat)
    requires t < 8
    ensures SignedNibble(i, t) == i / Sixteens(t) % 16
  {
    SixteensLaw(t);
    assert 4 * t == t * 4;
  }

  /** Every nibble the Python converter writes: the stored one less the stored zero point plus one, clamped to the
      signed range and shifted up by eight; the zero point is nibble i % 8 of word (k / gs, i / 8). */
  lemma PythonLaw(layer: Layer, i: nat, k: nat, v: int, z: int)
    requires layer.Shaped() && i < layer.n && k < 8 * layer.kPacked
    requires At2(k / 8, i, layer.n) < |layer.qweight| && At2(k / layer.gs, i / 8, layer.n / 8) < |layer.qzeros|
    requires v == layer.qweight[At2(k / 8, i, layer.n)] / Sixteens(k % 8) % 16
    requires z == layer.qzeros[At2(k / layer.gs, i / 8, layer.n / 8)] / Sixteens(i % 8) % 16
    ensures At2(i, k, 8 * layer.kPacked) < 2 * |UnpackGptq(layer).packed|
    ensures NibbleOf(UnpackGptq(layer).packed, At2(i, k, 8 * layer.kPacked))
      == if v + 7 < z then 0 else if v > z + 8 then 15 else v + 7 - z
  {
    PythonNibbleAt(layer, i, k);
    Inside(layer.kPacked, layer.n, layer.groups, layer.gs, i, k);
    SignedNibbleLaw(layer.qweight[At2(k / 8, i, layer.n)], k % 8);
    SignedNibbleLaw(layer.qzeros[At2(k / layer.gs, i / 8, layer.n / 8)], i % 8);
  }

  /** Its sizes: two nibbles to a byte, and every entry a byte. */
  lemma PythonSizeLaw(layer: Layer)
    requires layer.Shaped()
    ensures |UnpackGptq(layer).packed| == layer.n * (4 * layer.kPacked) && G.AreBytes(UnpackGptq(layer).packed)
    ensures |UnpackGptq(layer).scales| == layer.n * layer.groups
  {
    PythonBytes(layer);
  }

  /** Its scales: (i, g) of the output is (g, i) of the layer. */
  lemma PythonScaleLaw(layer: Layer, i: nat, g: nat)
    requires layer.Shaped() && i < layer.n && g < layer.groups
    ensures At2(i, g, layer.groups) < |UnpackGptq(layer).scales| && At2(g, i, layer.n) < |layer.scales|
    ensures UnpackGptq(layer).scales[At2(i, g, layer.groups)] == layer.scales[At2(g, i, layer.n)]
  {
    assert 1 * layer.groups * layer.n * 1 == layer.groups * layer.n;
    TransposedAt(layer.scales, layer.groups, layer.n, g, i);
  }

  // ----- the scan of the zero points -----

  /** The nibble the scan looks at. */
  lemma ScannedLaw(data: seq<nat>, w: nat, t: nat)
    requires w < |data| / 4 && t < 8 && G.AreBytes(data)
    ensures NibbleIn(data, w, t) == NibbleOf(data, 8 * w + t)
  {
    NibbleOfWord(data, w, t);
  }

  function Position(b: BadNibble): nat {
    8 * b.word + b.nibble
  }

  predicate Sound(bad: seq<BadNibble>, data: seq<nat>, m: nat)
    requires m <= 2 * |data|
  {
    forall j :: 0 <= j < |bad| ==> bad[j].nibble < 8 && Position(bad[j]) < m
                                   && bad[j].value == NibbleOf(data, Position(bad[j])) != 7
  }

  predicate InOrder(bad: seq<BadNibble>) {
    forall i, j :: 0 <= i < j < |bad| ==> Position(bad[i]) < Position(bad[j])
  }

  ghost predicate Complete(bad: seq<BadNibble>, data: seq<nat>, m: nat)
    requires m <= 2 * |data|
  {
    forall p: nat :: p < m && NibbleOf(data, p) != 7 ==> Mentions(bad, p)
  }

  ghost predicate Mentions(bad: seq<BadNibble>, p: nat) {
    exists j :: 0 <= j < |bad| && Position(bad[j]) == p
  }

  /** The nibbles among the first m that are not 7, in order. */
  lemma {:induction false} AmongLaw(data: seq<nat>, m: nat) returns (bad: seq<BadNibble>)
    requires m <= 8 * (|data| / 4) && G.AreBytes(data)
    ensures bad == BadAmong(data, m) && Sound(bad, data, m) && InOrder(bad) && Complete(bad, data, m)
  {
    if m == 0 {
      bad := [];
    } else {
      var p := m - 1;
      var before := AmongLaw(data, p);
      bad := OneMore(before, data, p);
      AmongStep(data, p, m);
    }
  }

  lemma Eighths(p: nat, words: nat)
    requires p < 8 * words
    ensures p / 8 < words && 8 * (p / 8) + p % 8 == p
  {}

  lemma AmongStep(data: seq<nat>, p: nat, m: nat)
    requires m == p + 1 <= 8 * (|data| / 4) && G.AreBytes(data)
    ensures BadAmong(data, m) == if NibbleOf(data, p) == 7 then BadAmong(data, p)
                                 else BadAmong(data, p) + [BadNibble(p / 8, p % 8, NibbleOf(data, p))]
  {
    Eighths(p, |data| / 4);
    ScannedLaw(data, p / 8, p % 8);
    AmongUnfold(data, p, m, NibbleOf(data, p));
  }

  lemma AmongUnfold(data: seq<nat>, p: nat, m: nat, v: nat)
    requires m == p + 1 <= 8 * (|data| / 4) && p / 8 < |data| / 4 && v == NibbleIn(data, p / 8, p % 8)
    ensures BadAmong(data, m) == if v == 7 then BadAmong(data, p)
                                 else BadAmong(data, p) + [BadNibble(p / 8, p % 8, v)]
  {}

  lemma OneMore(before: seq<BadNibble>, data: seq<nat>, p: nat) returns (after: seq<BadNibble>)
    requires p + 1 <= 2 * |data| && Sound(before, data, p) && InOrder(before) && Complete(before, data, p)
    ensures after == if NibbleOf(data, p) == 7 then before
                     else before + [BadNibble(p / 8, p % 8, NibbleOf(data, p))]
    ensures Sound(after, data, p + 1) && InOrder(after) && Complete(after, data, p + 1)
  {
    after := before;
    if NibbleOf(data, p) != 7 {
      var b := BadNibble(p / 8, p % 8, NibbleOf(data, p));
      assert Position(b) == p;
      after := before + [b];
      AppendedOrder(before, b);
    }
    forall x: nat | x < p + 1 && NibbleOf(data, x) != 7 ensures Mentions(after, x) {
      if x < p { StillMentioned(before, after, x); } else { assert Position(after[|before|]) == p; }
    }
  }

  lemma AppendedOrder(before: seq<BadNibble>, b: BadNibble)
    requires InOrder(before) && forall j :: 0 <= j < |before| ==> Position(before[j]) < Position(b)
    ensures InOrder(before + [b])
  {}

  lemma StillMentioned(before: seq<BadNibble>, after: seq<BadNibble>, x: nat)
    requires before <= after && Mentions(before, x)
    ensures Mentions(after, x)
  {
    var j :| 0 <= j < |before| && Position(before[j]) == x;
    assert after[j] == before[j];
  }

  /** The report lists the offending nibbles in order: all of them, or the first eight. */
  lemma ReportLaw(data: seq<nat>, m: nat) returns (all: seq<BadNibble>)
    requires G.AreBytes(data) && m == 8 * (|data| / 4)
    ensures Sound(all, data, m) && InOrder(all) && Complete(all, data, m)
    ensures Listed(data, m) == if |all| <= 8 then all else all[..8]
  {
    all := AmongLaw(data, m);
  }
}
