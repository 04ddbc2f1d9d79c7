/** The two GPTQ layout converters and the reference product. */
module GptqConvert {
  import opened Wrappers
  import opened Arithmetic
  import opened Bits
  import opened PackedFields
  import opened Tensors
  import opened Nibbles
  import opened W4A8
  import opened Repack
  import G = Gptq

  /** The converted layout: bytes of shape (rows, cols / 2) and scales of shape (rows, groups). */
  datatype Layout = Layout(packed: seq<nat>, scales: seq<real>)

  /** The source nibble of (row, k): field k % 8 of word (k / 8, row). */
  function SourceNibble(qweight: seq<nat>, rows: nat, row: nat, k: nat): (v: nat)
    requires 4 * At2(k / 8, row, rows) + 4 <= |qweight|
    ensures v < 16
  {
    FieldFits(G.Word(qweight, At2(k / 8, row, rows)), k % 8, 4);
    SixteenWords();
    Field(G.Word(qweight, At2(k / 8, row, rows)), k % 8, 4)
  }

  /** A buffer holding all the words of shape (gptqRows, rows). */
  predicate Covers(qweight: seq<nat>, gptqRows: nat, rows: nat) {
    |qweight| >= 4 * (gptqRows * rows)
  }

  lemma WordInside(qweight: seq<nat>, gptqRows: nat, rows: nat, row: nat, k: nat)
    requires Covers(qweight, gptqRows, rows) && row < rows && k < 8 * gptqRows
    ensures 4 * At2(k / 8, row, rows) + 4 <= |qweight|
  {
    Within(k / 8, row, gptqRows, rows);
  }

  /** Which elements the nested loops have stored when they reach (k, row). */
  predicate Before(r: nat, j: nat, k: nat, row: nat) {
    j < k || (j == k && r < row)
  }

  ghost predicate Stored(packed: seq<nat>, qweight: seq<nat>, gptqRows: nat, rows: nat, k: nat, row: nat)
    requires Covers(qweight, gptqRows, rows)
  {
    && |packed| == rows * (4 * gptqRows) && G.AreBytes(packed)
    && forall r: nat, j: nat :: r < rows && j < 8 * gptqRows && Before(r, j, k, row) ==>
      && 4 * At2(j / 8, r, rows) + 4 <= |qweight|
      && At2(r, j, 8 * gptqRows) < 2 * |packed|
      && NibbleOf(packed, At2(r, j, 8 * gptqRows)) == SourceNibble(qweight, rows, r, j)
  }

  lemma SameElement(r: nat, j: nat, row: nat, k: nat, cols: nat)
    requires j < cols && k < cols && At2(r, j, cols) == At2(row, k, cols)
    ensures r == row && j == k
  {
    DivMod(r, cols, j);
    DivMod(row, cols, k);
  }

  /** The byte the loop addresses, row * (cols / 2) + k / 2, holds element (row, k). */
  lemma ByteOf(row: nat, k: nat, rows: nat, half: nat)
    requires row < rows && k < 2 * half
    ensures At2(row, k / 2, half) == At2(row, k, 2 * half) / 2 && At2(row, k, 2 * half) % 2 == k % 2
    ensures At2(row, k, 2 * half) < 2 * (rows * half)
  {
    Within(row, k / 2, rows, half);
    assert row * (2 * half) == 2 * (row * half);
    assert At2(row, k, 2 * half) == 2 * At2(row, k / 2, half) + k % 2;
  }

  lemma StoreElement(packed: seq<nat>, qweight: seq<nat>, gptqRows: nat, rows: nat, k: nat, row: nat, p: nat, v: nat)
    requires Covers(qweight, gptqRows, rows) && Stored(packed, qweight, gptqRows, rows, k, row)
    requires k < 8 * gptqRows && row < rows && p == At2(row, k, 8 * gptqRows) && p < 2 * |packed|
    requires 4 * At2(k / 8, row, rows) + 4 <= |qweight| && v == SourceNibble(qweight, rows, row, k)
    ensures Stored(packed[p / 2 := G.SetNibble(packed[p / 2], p % 2, v)], qweight, gptqRows, rows, k, row + 1)
  {
    var after := packed[p / 2 := G.SetNibble(packed[p / 2], p % 2, v)];
    G.StoreNibble(packed, p, v, p);
    forall r: nat, j: nat | r < rows && j < 8 * gptqRows && Before(r, j, k, row + 1)
      ensures 4 * At2(j / 8, r, rows) + 4 <= |qweight| && At2(r, j, 8 * gptqRows) < 2 * |after|
      ensures NibbleOf(after, At2(r, j, 8 * gptqRows)) == SourceNibble(qweight, rows, r, j)
    {
      if r == row && j == k {
      } else {
        assert Before(r, j, k, row);
        G.StoreNibble(packed, p, v, At2(r, j, 8 * gptqRows));
        if At2(r, j, 8 * gptqRows) == p { SameElement(r, j, row, k, 8 * gptqRows); }
      }
    }
  }

  /** The read-modify-write loops: element by element, columns outside, rows inside. */
  method ConvertNibbles(qweight: seq<nat>, gptqRows: nat, rows: nat) returns (packed: array<nat>)
    requires Covers(qweight, gptqRows, rows)
    ensures fresh(packed)
    ensures Stored(packed[..], qweight, gptqRows, rows, 8 * gptqRows, 0)
  {
    var cols := gptqRows * 8;
    var half := cols / 2;
    packed := new nat[rows * half](_ => 0);
    for k := 0 to cols
      invariant Stored(packed[..], qweight, gptqRows, rows, k, 0)
    {
      for row := 0 to rows
        invariant Stored(packed[..], qweight, gptqRows, rows, k, row)
      {
        WordInside(qweight, gptqRows, rows, row, k);
        ByteOf(row, k, rows, half);
        var word := G.Word(qweight, At2(k / 8, row, rows));
        var nibble := And(Shr(word, k % 8 * 4), Pow2(4) - 1);
        var byteIdx := At2(row, k / 2, half);
        StoreElement(packed[..], qweight, gptqRows, rows, k, row, At2(row, k, cols), nibble);
        packed[byteIdx] := G.SetNibble(packed[byteIdx], k % 2, nibble);
      }
      NextColumn(packed[..], qweight, gptqRows, rows, k);
    }
  }

  lemma NextColumn(packed: seq<nat>, qweight: seq<nat>, gptqRows: nat, rows: nat, k: nat)
    requires Covers(qweight, gptqRows, rows) && Stored(packed, qweight, gptqRows, rows, k, rows)
    ensures Stored(packed, qweight, gptqRows, rows, k + 1, 0)
  {
    forall r: nat, j: nat | r < rows && Before(r, j, k + 1, 0) ensures Before(r, j, k, rows) {}
  }

  // ----- scales and the whole conversion -----

  ghost predicate ScalesMoved(out: seq<real>, scales: seq<real>, groups: nat, rows: nat, upTo: nat, row: nat) {
    && |out| == rows * groups && |scales| == groups * rows
    && forall g: nat, r: nat :: g < groups && r < rows && Before(r, g, upTo, row) ==>
      && At2(g, r, rows) < |scales| && At2(r, g, groups) < |out|
      && out[At2(r, g, groups)] == scales[At2(g, r, rows)]
  }

  lemma MoveScale(out: seq<real>, scales: seq<real>, groups: nat, rows: nat, g: nat, row: nat)
    requires ScalesMoved(out, scales, groups, rows, g, row) && g < groups && row < rows
    ensures At2(g, row, rows) < |scales| && At2(row, g, groups) < |out|
    ensures ScalesMoved(out[At2(row, g, groups) := scales[At2(g, row, rows)]], scales, groups, rows, g, row + 1)
  {
    Within(g, row, groups, rows);
    Within(row, g, rows, groups);
    var after := out[At2(row, g, groups) := scales[At2(g, row, rows)]];
    forall h: nat, r: nat | h < groups && r < rows && Before(r, h, g, row + 1)
      ensures At2(h, r, rows) < |scales| && At2(r, h, groups) < |after|
      ensures after[At2(r, h, groups)] == scales[At2(h, r, rows)]
    {
      Within(h, r, groups, rows);
      Within(r, h, rows, groups);
      if At2(r, h, groups) == At2(row, g, groups) {
        SameElement(r, h, row, g, groups);
      } else {
        assert Before(r, h, g, row);
      }
    }
  }

  method TransposeScales(scales: seq<real>, groups: nat, rows: nat) returns (out: array<real>)
    requires |scales| == groups * rows
    ensures fresh(out) && ScalesMoved(out[..], scales, groups, rows, groups, 0)
  {
    out := new real[rows * groups](_ => 0.0);
    for g := 0 to groups
      invariant ScalesMoved(out[..], scales, groups, rows, g, 0)
    {
      for row := 0 to rows
        invariant ScalesMoved(out[..], scales, groups, rows, g, row)
      {
        MoveScale(out[..], scales, groups, rows, g, row);
        out[At2(row, g, groups)] := scales[At2(g, row, rows)];
      }
      forall h: nat, r: nat | r < rows && Before(r, h, g + 1, 0) ensures Before(r, h, g, rows) {}
    }
  }

  /** What a converted layout holds: every nibble and every scale, moved to its row. */
  ghost predicate Converted(layout: Layout, qweight: seq<nat>, gptqRows: nat, rows: nat, scales: seq<real>, groups: nat)
    requires Covers(qweight, gptqRows, rows)
  {
    && Stored(layout.packed, qweight, gptqRows, rows, 8 * gptqRows, 0)
    && ScalesMoved(layout.scales, scales, groups, rows, groups, 0)
  }

  /** The loops read the words in order, so a short buffer is reported at its first missing word. */
  method ConvertLayout(qweight: seq<nat>, gptqRows: nat, rows: nat, scales: Matrix, gs: nat)
    returns (r: Result<Layout, G.ReadError>)
    requires gs > 0 && |scales.data| == scales.rows * scales.cols
    ensures if scales.rows != gptqRows * 8 / gs || scales.cols != rows then r == Err(G.ScaleShape)
            else if !Covers(qweight, gptqRows, rows) then r == Err(G.OutOfRange(|qweight| / 4))
            else r.Ok? && Converted(r.value, qweight, gptqRows, rows, scales.data, scales.rows)
  {
    if scales.rows != gptqRows * 8 / gs || scales.cols != rows { return Err(G.ScaleShape); }
    if |qweight| < 4 * (gptqRows * rows) { return Err(G.OutOfRange(|qweight| / 4)); }
    var packed := ConvertNibbles(qweight, gptqRows, rows);
    var out := TransposeScales(scales.data, scales.rows, rows);
    r := Ok(Layout(packed[..], out[..]));
  }

  // ----- the products -----

  function Weighted(v: nat, scale: real, x: real): real {
    (v as real - 8.0) * scale * x
  }

  function WordIndex(k: nat, row: nat, rows: nat): nat {
    At2(k / 8, row, rows)
  }

  function ScaleIndex(k: nat, gs: nat, row: nat, rows: nat): nat
    requires gs > 0
  {
    At2(k / gs, row, rows)
  }

  /** The word and the scale of (row, k) are inside their buffers. */
  predicate ReadableAt(qweight: seq<nat>, rows: nat, scales: seq<real>, gs: nat, row: nat, k: nat)
    requires gs > 0
  {
    4 * WordIndex(k, row, rows) + 4 <= |qweight| && ScaleIndex(k, gs, row, rows) < |scales|
  }

  predicate RowReadable(qweight: seq<nat>, rows: nat, scales: seq<real>, gs: nat, row: nat, m: nat)
    requires gs > 0
  {
    forall k: nat :: k < m ==> ReadableAt(qweight, rows, scales, gs, row, k)
  }

  /** Sum over the first m inputs, straight from the GPTQ words. */
  function ReferenceSum(qweight: seq<nat>, rows: nat, scales: seq<real>, gs: nat, input: seq<real>, row: nat,
                        m: nat): real
    requires gs > 0 && m <= |input| && RowReadable(qweight, rows, scales, gs, row, m)
  {
    if m == 0 then 0.0
    else
      var k := m - 1;
      assert ReadableAt(qweight, rows, scales, gs, row, k);
      ReferenceSum(qweight, rows, scales, gs, input, row, k)
        + Weighted(SourceNibble(qweight, rows, row, k), scales[ScaleIndex(k, gs, row, rows)], input[k])
  }

  lemma ScaleInside(k: nat, groups: nat, gs: nat, rows: nat, row: nat)
    requires gs > 0 && k < groups * gs && row < rows
    ensures 0 <= k / gs < groups && At2(k / gs, row, rows) < groups * rows && At2(row, k / gs, groups) < rows * groups
  {
    Split(k, groups, gs);
    Within(k / gs, row, groups, rows);
    Within(row, k / gs, rows, groups);
  }

  /** The same sum over the converted layout. */
  function LayoutSum(layout: Layout, gptqRows: nat, rows: nat, groups: nat, gs: nat, input: seq<real>, row: nat,
                     m: nat): real
    requires |layout.packed| == rows * (4 * gptqRows) && |layout.scales| == rows * groups
    requires gs > 0 && 8 * gptqRows == groups * gs
    requires |input| == 8 * gptqRows && row < rows && m <= 8 * gptqRows
  {
    if m == 0 then 0.0
    else
      var k := m - 1;
      ByteOf(row, k, rows, 4 * gptqRows);
      ScaleInside(k, groups, gs, rows, row);
      LayoutSum(layout, gptqRows, rows, groups, gs, input, row, k)
        + Weighted(NibbleOf(layout.packed, At2(row, k, 8 * gptqRows)), layout.scales[At2(row, k / gs, groups)],
                   input[k])
  }

  /** A layer with whole groups can be read everywhere. */
  lemma WholeLayerReadable(qweight: seq<nat>, gptqRows: nat, rows: nat, scales: seq<real>, groups: nat, gs: nat,
                           row: nat, m: nat)
    requires Covers(qweight, gptqRows, rows) && gs > 0 && 8 * gptqRows == groups * gs && |scales| == groups * rows
    requires row < rows && m <= 8 * gptqRows
    ensures RowReadable(qweight, rows, scales, gs, row, m)
  {
    forall k: nat | k < m ensures ReadableAt(qweight, rows, scales, gs, row, k) {
      WordInside(qweight, gptqRows, rows, row, k);
      ScaleInside(k, groups, gs, rows, row);
    }
  }

  /** A product over the converted layout equals the reference product. */
  lemma {:induction false} ProductsAgree(layout: Layout, qweight: seq<nat>, gptqRows: nat, rows: nat, scales: seq<real>,
                                         groups: nat, gs: nat, input: seq<real>, row: nat, m: nat)
    requires Covers(qweight, gptqRows, rows) && Converted(layout, qweight, gptqRows, rows, scales, groups)
    requires gs > 0 && 8 * gptqRows == groups * gs && |scales| == groups * rows
    requires |input| == 8 * gptqRows && row < rows && m <= 8 * gptqRows
    ensures RowReadable(qweight, rows, scales, gs, row, m)
    ensures LayoutSum(layout, gptqRows, rows, groups, gs, input, row, m)
         == ReferenceSum(qweight, rows, scales, gs, input, row, m)
  {
    WholeLayerReadable(qweight, gptqRows, rows, scales, groups, gs, row, m);
    if m > 0 {
      var k := m - 1;
      ProductsAgree(layout, qweight, gptqRows, rows, scales, groups, gs, input, row, k);
      ScaleInside(k, groups, gs, rows, row);
      SameTerm(layout, qweight, gptqRows, rows, scales, groups, row, k, k / gs);
    }
  }

  lemma SameTerm(layout: Layout, qweight: seq<nat>, gptqRows: nat, rows: nat, scales: seq<real>, groups: nat,
                 row: nat, k: nat, g: nat)
    requires Covers(qweight, gptqRows, rows) && Converted(layout, qweight, gptqRows, rows, scales, groups)
    requires row < rows && k < 8 * gptqRows && g < groups
    ensures 4 * At2(k / 8, row, rows) + 4 <= |qweight| && At2(row, k, 8 * gptqRows) < 2 * |layout.packed|
    ensures At2(row, g, groups) < |layout.scales| && At2(g, row, rows) < |scales|
    ensures NibbleOf(layout.packed, At2(row, k, 8 * gptqRows)) == SourceNibble(qweight, rows, row, k)
    ensures layout.scales[At2(row, g, groups)] == scales[At2(g, row, rows)]
  {
    assert Before(row, k, 8 * gptqRows, 0) && Before(row, g, groups, 0);
  }

  /** The rows below upTo can be read in full. */
  predicate AllReadable(qweight: seq<nat>, rows: nat, scales: seq<real>, gs: nat, cols: nat, upTo: nat)
    requires gs > 0
  {
    forall row: nat :: row < upTo ==> RowReadable(qweight, rows, scales, gs, row, cols)
  }

  /** (row, k) is the first element, row by row, that cannot be read, and the error names the missing entry. */
  predicate FailsAt(qweight: seq<nat>, rows: nat, scales: seq<real>, gs: nat, cols: nat, row: nat, k: nat,
                    error: G.ReadError)
    requires gs > 0
  {
    && row < rows && k < cols
    && AllReadable(qweight, rows, scales, gs, cols, row) && RowReadable(qweight, rows, scales, gs, row, k)
    && !ReadableAt(qweight, rows, scales, gs, row, k)
    && error == Missing(qweight, rows, gs, row, k)
  }

  /** What reading (row, k) reports: the word is read before the scale. */
  function Missing(qweight: seq<nat>, rows: nat, gs: nat, row: nat, k: nat): G.ReadError
    requires gs > 0
  {
    if 4 * WordIndex(k, row, rows) + 4 > |qweight| then G.OutOfRange(WordIndex(k, row, rows))
    else G.ScaleOutOfRange(ScaleIndex(k, gs, row, rows))
  }

  lemma FailsUnreadable(qweight: seq<nat>, rows: nat, scales: seq<real>, gs: nat, cols: nat, row: nat, k: nat,
                        error: G.ReadError)
    requires gs > 0 && FailsAt(qweight, rows, scales, gs, cols, row, k, error)
    ensures !AllReadable(qweight, rows, scales, gs, cols, rows)
  {
    assert !RowReadable(qweight, rows, scales, gs, row, cols);
  }

  /** The inner loop: one row's sum, or the first element of it that is missing. */
  method CpuReferenceRow(qweight: seq<nat>, rows: nat, scales: seq<real>, gs: nat, input: seq<real>, row: nat)
    returns (r: Result<real, G.ReadError>, ghost at: nat)
    requires gs > 0
    ensures r.Ok? ==> RowReadable(qweight, rows, scales, gs, row, |input|)
                      && r.value == ReferenceSum(qweight, rows, scales, gs, input, row, |input|)
    ensures r.Err? ==> at < |input| && RowReadable(qweight, rows, scales, gs, row, at)
                       && !ReadableAt(qweight, rows, scales, gs, row, at)
                       && r.error == Missing(qweight, rows, gs, row, at)
  {
    var sum := 0.0;
    at := 0;
    for k := 0 to |input|
      invariant RowReadable(qweight, rows, scales, gs, row, k)
      invariant sum == ReferenceSum(qweight, rows, scales, gs, input, row, k)
    {
      at := k;
      if 4 * WordIndex(k, row, rows) + 4 > |qweight| { return Err(G.OutOfRange(WordIndex(k, row, rows))), at; }
      var q := SourceNibble(qweight, rows, row, k);
      if ScaleIndex(k, gs, row, rows) >= |scales| { return Err(G.ScaleOutOfRange(ScaleIndex(k, gs, row, rows))), at; }
      sum := sum + Weighted(q, scales[ScaleIndex(k, gs, row, rows)], input[k]);
    }
    r := Ok(sum);
  }

  ghost predicate SumsAre(out: seq<real>, qweight: seq<nat>, rows: nat, scales: seq<real>, gs: nat, input: seq<real>)
    requires gs > 0 && AllReadable(qweight, rows, scales, gs, |input|, |out|)
  {
    forall row: nat :: row < |out| ==> out[row] == ReferenceSum(qweight, rows, scales, gs, input, row, |input|)
  }

  /** The reference matrix-vector product, reading element by element, rows outside. */
  method CpuReference(qweight: seq<nat>, gptqRows: nat, rows: nat, scales: seq<real>, gs: nat, input: seq<real>)
    returns (r: Result<seq<real>, G.ReadError>, ghost badRow: nat, ghost badK: nat)
    requires gs > 0
    ensures |input| != 8 * gptqRows ==> r == Err(G.InputLength)
    ensures |input| == 8 * gptqRows ==> (r.Ok? <==> AllReadable(qweight, rows, scales, gs, |input|, rows))
    ensures r.Ok? ==> |r.value| == rows && AllReadable(qweight, rows, scales, gs, |input|, rows)
                      && SumsAre(r.value, qweight, rows, scales, gs, input)
    ensures r.Err? && |input| == 8 * gptqRows ==>
              FailsAt(qweight, rows, scales, gs, |input|, badRow, badK, r.error)
  {
    badRow, badK := 0, 0;
    if |input| != gptqRows * 8 { return Err(G.InputLength), 0, 0; }
    var out: seq<real> := [];
    for row := 0 to rows
      invariant |out| == row && AllReadable(qweight, rows, scales, gs, |input|, row)
      invariant SumsAre(out, qweight, rows, scales, gs, input)
    {
      var sum, at := CpuReferenceRow(qweight, rows, scales, gs, input, row);
      if sum.Err? {
        FailsUnreadable(qweight, rows, scales, gs, |input|, row, at, sum.error);
        return Err(sum.error), row, at;
      }
      out := out + [sum.value];
    }
    r := Ok(out);
  }
}
