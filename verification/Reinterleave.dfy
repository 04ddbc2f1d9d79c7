/** Re-interleaving of heads stored evens first: the rows of a matrix, its columns, and the three
    sections of a fused QKV matrix. A row is an opaque value here. */
module Reinterleave {
  import opened Wrappers
  import opened Arithmetic
  import opened Tensors

  /** Row p of the output comes from this row of the input, for h pairs of heads of hd rows. */
  function RowSource(p: nat, h: nat, hd: nat): nat
    requires hd > 0
  {
    var head := p / hd;
    At2(if head % 2 == 0 then head / 2 else h + head / 2, p % hd, hd)
  }

  function RowTarget(q: nat, h: nat, hd: nat): nat
    requires hd > 0
  {
    var head := q / hd;
    At2(if head < h then 2 * head else 2 * (head - h) + 1, q % hd, hd)
  }

  /** The rows of h pairs of heads. */
  function Rows(h: nat, hd: nat): nat {
    2 * h * hd
  }

  /** The first i pairs of heads of the output hold the rows they come from; later rows can be anything. */
  ghost predicate Settled<T>(out: seq<T>, mat: seq<T>, i: nat, h: nat, hd: nat) {
    && |out| == |mat| && Rows(i, hd) <= Rows(h, hd) <= |mat|
    && forall p :: 0 <= p < Rows(i, hd) ==> FromSource(out, mat, p, h, hd)
  }

  /** What the function promises of its output for a head count of at least two. */
  ghost predicate Interleaves<T>(out: seq<T>, mat: seq<T>, heads: int)
    requires heads >= 2
  {
    Settled(out, mat, heads / 2, heads / 2, |mat| / heads)
  }

  ghost predicate FromSource<T>(out: seq<T>, mat: seq<T>, p: nat, h: nat, hd: nat)
    requires p < Rows(h, hd) <= |mat| == |out|
  {
    SourceTarget(p, h, hd);
    out[p] == mat[RowSource(p, h, hd)]
  }

  // ----- the index map -----

  /** The source of a written row is a row below the written count, and its target is the row itself. */
  lemma SourceTarget(p: nat, h: nat, hd: nat)
    requires p < Rows(h, hd)
    ensures hd > 0 && RowSource(p, h, hd) < Rows(h, hd) && RowTarget(RowSource(p, h, hd), h, hd) == p
  {
    Split(p, 2 * h, hd);
    var head, j := p / hd, p % hd;
    var from := if head % 2 == 0 then head / 2 else h + head / 2;
    Within(from, j, 2 * h, hd);
    DivMod(from, hd, j);
  }

  lemma SourceAt(head: nat, j: nat, h: nat, hd: nat)
    requires j < hd
    ensures RowSource(At2(head, j, hd), h, hd) == At2(if head % 2 == 0 then head / 2 else h + head / 2, j, hd)
  {
    DivMod(head, hd, j);
  }

  /** Pairs of heads never reach past the matrix. */
  lemma RowsFit(rows: nat, heads: nat)
    requires heads > 0
    ensures Rows(heads / 2, rows / heads) <= rows
  {
    PairsFit(rows, heads, rows / heads, rows % heads);
  }

  lemma PairsFit(rows: nat, heads: nat, hd: nat, rest: nat)
    requires rows == heads * hd + rest
    ensures Rows(heads / 2, hd) <= rows
  {
    AtLeastMany(heads, 2 * (heads / 2), hd);
  }

  // ----- the loops -----

  method CopyRows<T>(src: array<T>, from: nat, dst: array<T>, to: nat, count: nat)
    requires src != dst && from + count <= src.Length && to + count <= dst.Length
    modifies dst
    ensures forall p :: 0 <= p < to ==> dst[p] == old(dst[p])
    ensures forall p :: to <= p < to + count ==> dst[p] == src[from + (p - to)]
    ensures forall p :: to + count <= p < dst.Length ==> dst[p] == old(dst[p])
  {
    for j := 0 to count
      invariant forall p :: 0 <= p < to ==> dst[p] == old(dst[p])
      invariant forall p :: to <= p < to + j ==> dst[p] == src[from + (p - to)]
      invariant forall p :: to + j <= p < dst.Length ==> dst[p] == old(dst[p])
    {
      dst[to + j] := src[from + j];
    }
  }

  method ReinterleaveRows<T(0)>(mat: array<T>, heads: int) returns (out: array<T>)
    ensures heads < 2 ==> out == mat
    ensures heads >= 2 ==> fresh(out) && Interleaves(out[..], mat[..], heads)
  {
    if heads < 2 { return mat; }
    var hd, h := mat.Length / heads, heads / 2;
    RowsFit(mat.Length, heads);
    out := new T[mat.Length];
    assert Rows(0, hd) == 0;
    for i := 0 to h
      invariant Rows(i, hd) <= Rows(h, hd)
      invariant Settled(out[..], mat[..], i, h, hd)
    {
      PairFits(i, h, hd);
      ghost var was := out[..];
      CopyRows(mat, At2(i, 0, hd), out, At2(2 * i, 0, hd), hd);
      CopyRows(mat, At2(h + i, 0, hd), out, At2(2 * i + 1, 0, hd), hd);
      PairCopied(was, out[..], mat[..], i, h, hd);
    }
  }

  lemma SourceInPair(p: nat, i: nat, h: nat, hd: nat)
    requires i < h && At2(2 * i, 0, hd) <= p < Rows(i + 1, hd)
    ensures hd > 0 && At2(2 * i, 0, hd) <= At2(2 * i + 1, 0, hd)
    ensures RowSource(p, h, hd) ==
            if p < At2(2 * i + 1, 0, hd) then At2(i, 0, hd) + (p - At2(2 * i, 0, hd))
            else At2(h + i, 0, hd) + (p - At2(2 * i + 1, 0, hd))
  {
    PairFits(i, h, hd);
    if p < At2(2 * i + 1, 0, hd) {
      SourceIn(p, 2 * i, At2(2 * i, 0, hd), h, hd);
    } else {
      SourceIn(p, 2 * i + 1, At2(2 * i + 1, 0, hd), h, hd);
    }
  }

  /** The source of a row of one head, which starts at row `at`. */
  lemma SourceIn(p: nat, head: nat, at: nat, h: nat, hd: nat)
    requires at == At2(head, 0, hd) && at <= p < at + hd
    ensures RowSource(p, h, hd) == At2(if head % 2 == 0 then head / 2 else h + head / 2, 0, hd) + (p - at)
  {
    SourceAt(head, p - at, h, hd);
  }

  lemma PairCopied<T>(was: seq<T>, now: seq<T>, mat: seq<T>, i: nat, h: nat, hd: nat)
    requires i < h && Settled(was, mat, i, h, hd) && |now| == |was|
    requires Rows(i, hd) == At2(2 * i, 0, hd) <= At2(2 * i, 0, hd) + hd == At2(2 * i + 1, 0, hd)
    requires At2(2 * i + 1, 0, hd) + hd == Rows(i + 1, hd) <= Rows(h, hd)
    requires At2(h + i, 0, hd) + hd <= Rows(h, hd) && At2(i, 0, hd) + hd <= Rows(h, hd)
    requires forall p :: 0 <= p < Rows(i, hd) ==> now[p] == was[p]
    requires forall p :: At2(2 * i, 0, hd) <= p < At2(2 * i + 1, 0, hd) ==>
                           now[p] == mat[At2(i, 0, hd) + (p - At2(2 * i, 0, hd))]
    requires forall p :: At2(2 * i + 1, 0, hd) <= p < Rows(i + 1, hd) ==>
                           now[p] == mat[At2(h + i, 0, hd) + (p - At2(2 * i + 1, 0, hd))]
    ensures Settled(now, mat, i + 1, h, hd)
  {
    forall p | 0 <= p < Rows(i + 1, hd) ensures FromSource(now, mat, p, h, hd) {
      if p < Rows(i, hd) {
        assert FromSource(was, mat, p, h, hd);
      } else {
        SourceInPair(p, i, h, hd);
      }
    }
  }

  lemma PairFits(i: nat, h: nat, hd: nat)
    requires i < h
    ensures Rows(i, hd) == At2(2 * i, 0, hd) <= At2(2 * i, 0, hd) + hd == At2(2 * i + 1, 0, hd)
    ensures At2(2 * i + 1, 0, hd) + hd == Rows(i + 1, hd) <= Rows(h, hd)
    ensures At2(h + i, 0, hd) + hd <= Rows(h, hd) && At2(i, 0, hd) + hd <= Rows(h, hd)
  {
    AtLeastMany(2 * h, 2 * (i + 1), hd);
    AtLeastMany(2 * h, h + i + 1, hd);
    AtLeastMany(2 * h, i + 1, hd);
  }

  // ----- what it undoes -----

  /** Every other head, `count` of them, starting at head `first`. */
  function Heads<T>(x: seq<T>, first: nat, count: nat, hd: nat): seq<T>
    requires count > 0 ==> At2(first + 2 * count - 2, 0, hd) + hd <= |x|
    decreases count
  {
    if count == 0 then [] else
      HeadsRest(first, count, hd);
      x[At2(first, 0, hd)..At2(first, 0, hd) + hd] + Heads(x, first + 2, count - 1, hd)
  }

  lemma HeadsRest(first: nat, count: nat, hd: nat)
    requires count > 0
    ensures At2(first, 0, hd) <= At2(first + 2 * count - 2, 0, hd)
  {
    AtLeastMany(first + 2 * count - 2, first, hd);
  }

  /** The layout the function undoes: the even heads, then the odd ones. */
  function EvensThenOdds<T>(x: seq<T>, h: nat, hd: nat): seq<T>
    requires |x| == Rows(h, hd)
  {
    if h == 0 then [] else
      PairFits(h - 1, h, hd);
      Heads(x, 0, h, hd) + Heads(x, 1, h, hd)
  }

  lemma {:induction false} HeadsLength<T>(x: seq<T>, first: nat, count: nat, hd: nat)
    requires count > 0 ==> At2(first + 2 * count - 2, 0, hd) + hd <= |x|
    ensures |Heads(x, first, count, hd)| == At2(count, 0, hd)
    decreases count
  {
    if count > 0 {
      HeadsRest(first, count, hd);
      HeadsLength(x, first + 2, count - 1, hd);
      OneMoreHead(count, hd);
    }
  }

  lemma OneMoreHead(count: nat, hd: nat)
    requires count > 0
    ensures At2(count, 0, hd) == hd + At2(count - 1, 0, hd)
  {}

  lemma BothHalves(h: nat, hd: nat)
    ensures At2(h, 0, hd) + At2(h, 0, hd) == Rows(h, hd)
  {}

  lemma HeadWithin(size: nat, first: nat, count: nat, hd: nat, i: nat, j: nat)
    requires i < count && j < hd && At2(first + 2 * count - 2, 0, hd) + hd <= size
    ensures At2(i, j, hd) < At2(count, 0, hd) && At2(first + 2 * i, j, hd) < size
  {
    Within(i, j, count, hd);
    AtLeastMany(first + 2 * count - 2, first + 2 * i, hd);
  }

  lemma {:induction false} HeadsAt<T>(x: seq<T>, first: nat, count: nat, hd: nat, i: nat, j: nat)
    requires i < count && j < hd && At2(first + 2 * count - 2, 0, hd) + hd <= |x|
    ensures At2(i, j, hd) < |Heads(x, first, count, hd)| && At2(first + 2 * i, j, hd) < |x|
    ensures Heads(x, first, count, hd)[At2(i, j, hd)] == x[At2(first + 2 * i, j, hd)]
    decreases count
  {
    HeadsLength(x, first, count, hd);
    HeadWithin(|x|, first, count, hd, i, j);
    HeadsRest(first, count, hd);
    var at, p := At2(first, 0, hd), At2(i, j, hd);
    var head, rest := x[at..at + hd], Heads(x, first + 2, count - 1, hd);
    assert Heads(x, first, count, hd) == head + rest;
    HeadSteps(first, i, j, hd);
    if i == 0 {
      assert (head + rest)[j] == x[at + j];
    } else {
      HeadsAt(x, first + 2, count - 1, hd, i - 1, j);
      assert (head + rest)[p] == rest[p - hd];
    }
  }

  lemma HeadSteps(first: nat, i: nat, j: nat, hd: nat)
    ensures At2(0, j, hd) == j && At2(first, j, hd) == At2(first, 0, hd) + j
    ensures i > 0 ==> At2(i, j, hd) == hd + At2(i - 1, j, hd)
  {}

  lemma EvensThenOddsLength<T>(x: seq<T>, h: nat, hd: nat)
    requires |x| == Rows(h, hd)
    ensures |EvensThenOdds(x, h, hd)| == |x|
  {
    if h > 0 {
      PairFits(h - 1, h, hd);
      HeadsLength(x, 0, h, hd);
      HeadsLength(x, 1, h, hd);
      BothHalves(h, hd);
    }
  }

  lemma EvenAt<T>(x: seq<T>, h: nat, hd: nat, i: nat, j: nat)
    requires |x| == Rows(h, hd) && i < h && j < hd
    ensures At2(i, j, hd) < |EvensThenOdds(x, h, hd)| && At2(2 * i, j, hd) < |x|
    ensures EvensThenOdds(x, h, hd)[At2(i, j, hd)] == x[At2(2 * i, j, hd)]
  {
    PairFits(h - 1, h, hd);
    HeadsAt(x, 0, h, hd, i, j);
  }

  lemma OddAt<T>(x: seq<T>, h: nat, hd: nat, i: nat, j: nat)
    requires |x| == Rows(h, hd) && i < h && j < hd
    ensures At2(h + i, j, hd) < |EvensThenOdds(x, h, hd)| && At2(2 * i + 1, j, hd) < |x|
    ensures EvensThenOdds(x, h, hd)[At2(h + i, j, hd)] == x[At2(2 * i + 1, j, hd)]
  {
    PairFits(h - 1, h, hd);
    HeadsLength(x, 0, h, hd);
    HeadsAt(x, 1, h, hd, i, j);
    var evens, odds := Heads(x, 0, h, hd), Heads(x, 1, h, hd);
    SecondHalf(h, i, j, hd);
    assert (evens + odds)[|evens| + At2(i, j, hd)] == odds[At2(i, j, hd)];
  }

  lemma SecondHalf(h: nat, i: nat, j: nat, hd: nat)
    ensures At2(h + i, j, hd) == At2(h, 0, hd) + At2(i, j, hd)
  {}

  /** When every row is written, the output is the matrix the heads were split from. */
  lemma UndoesSplit<T>(x: seq<T>, heads: nat, out: seq<T>)
    requires heads >= 2 && |x| == Rows(heads / 2, |x| / heads)
    requires Interleaves(out, EvensThenOdds(x, heads / 2, |x| / heads), heads)
    ensures out == x
  {
    var h, hd := heads / 2, |x| / heads;
    EvensThenOddsLength(x, h, hd);
    var mat := EvensThenOdds(x, h, hd);
    forall p | 0 <= p < |x| ensures out[p] == x[p] {
      assert FromSource(out, mat, p, h, hd);
      SourceTarget(p, h, hd);
      Split(p, 2 * h, hd);
      if p / hd % 2 == 0 {
        EvenAt(x, h, hd, p / hd / 2, p % hd);
      } else {
        OddAt(x, h, hd, p / hd / 2, p % hd);
      }
    }
  }

  // ----- which rows are written -----

  /** Every row is written exactly when the head count is even and divides the rows. */
  lemma AllWrittenIff(rows: nat, heads: nat)
    requires heads >= 2 && rows > 0
    ensures Rows(heads / 2, rows / heads) == rows <==> heads % 2 == 0 && rows % heads == 0
  {
    LeftOver(rows, heads, rows / heads, rows % heads);
  }

  lemma LeftOver(rows: nat, heads: nat, hd: nat, rest: nat)
    requires rows == heads * hd + rest
    ensures rows - Rows(heads / 2, hd) == heads % 2 * hd + rest
  {
    assert heads == 2 * (heads / 2) + heads % 2;
  }

  /** The loops' writes say nothing of a row past the written ones: any value there meets the specification. */
  lemma UnwrittenRow<T>(out: seq<T>, mat: seq<T>, heads: nat, p: nat, v: T)
    requires heads >= 2 && Interleaves(out, mat, heads) && Rows(heads / 2, |mat| / heads) <= p < |mat|
    ensures Interleaves(out[p := v], mat, heads)
  {
    var h, hd := heads / 2, |mat| / heads;
    var now := out[p := v];
    forall q | 0 <= q < Rows(h, hd) ensures FromSource(now, mat, q, h, hd) {
      assert FromSource(out, mat, q, h, hd);
    }
  }

  // ----- one-dimensional arrays and columns -----

  /** Strided assignment: an odd length above one does not broadcast and is refused. */
  method Reinterleave1d<T(0)>(arr: array<T>) returns (out: Option<array<T>>)
    ensures arr.Length < 2 ==> out == Some(arr)
    ensures out == None <==> arr.Length >= 2 && arr.Length % 2 != 0
    ensures out.Some? && arr.Length >= 2 ==> Interleaves(out.value[..], arr[..], arr.Length)
  {
    if arr.Length < 2 { return Some(arr); }
    if arr.Length % 2 != 0 { return None; }
    var h := arr.Length / 2;
    var res := new T[arr.Length];
    for i := 0 to h
      invariant forall p :: 0 <= p < 2 * i ==> res[p] == arr[if p % 2 == 0 then p / 2 else h + p / 2]
    {
      res[2 * i] := arr[i];
      res[2 * i + 1] := arr[h + i];
    }
    forall p | 0 <= p < Rows(h, 1) ensures FromSource(res[..], arr[..], p, h, 1) {
      SourceAt(p, 0, h, 1);
    }
    return Some(res);
  }

  /** One row of a matrix. */
  ghost function RowOf<T>(mat: array2<T>, r: nat): seq<T>
    requires r < mat.Length0
    reads mat
  {
    seq(mat.Length1, c requires 0 <= c < mat.Length1 reads mat => mat[r, c])
  }

  method CopyColumns<T>(src: array2<T>, from: nat, dst: array2<T>, to: nat, count: nat)
    requires src != dst && src.Length0 == dst.Length0
    requires from + count <= src.Length1 && to + count <= dst.Length1
    modifies dst
    ensures forall r, p :: 0 <= r < dst.Length0 && 0 <= p < dst.Length1 ==>
                             dst[r, p] == if to <= p < to + count then src[r, from + (p - to)] else old(dst[r, p])
  {
    for r := 0 to src.Length0
      invariant forall s, p :: 0 <= s < r && 0 <= p < dst.Length1 ==>
                                 dst[s, p] == if to <= p < to + count then src[s, from + (p - to)] else old(dst[s, p])
      invariant forall s, p :: r <= s < dst.Length0 && 0 <= p < dst.Length1 ==> dst[s, p] == old(dst[s, p])
    {
      for j := 0 to count
        invariant forall s, p :: 0 <= s < r && 0 <= p < dst.Length1 ==>
                                   dst[s, p] == if to <= p < to + count then src[s, from + (p - to)] else old(dst[s, p])
        invariant forall p :: 0 <= p < dst.Length1 ==>
                                dst[r, p] == if to <= p < to + j then src[r, from + (p - to)] else old(dst[r, p])
        invariant forall s, p :: r < s < dst.Length0 && 0 <= p < dst.Length1 ==> dst[s, p] == old(dst[s, p])
      {
        dst[r, to + j] := src[r, from + j];
      }
    }
  }

  /** The same interleaving inside every row. */
  method ReinterleaveCols<T(0)>(mat: array2<T>, heads: int) returns (out: array2<T>)
    ensures heads < 2 ==> out == mat
    ensures heads >= 2 ==> fresh(out) && out.Length0 == mat.Length0 && out.Length1 == mat.Length1
    ensures heads >= 2 ==> forall r :: 0 <= r < mat.Length0 ==> Interleaves(RowOf(out, r), RowOf(mat, r), heads)
  {
    if heads < 2 { return mat; }
    var hd, h := mat.Length1 / heads, heads / 2;
    RowsFit(mat.Length1, heads);
    out := new T[mat.Length0, mat.Length1];
    assert Rows(0, hd) == 0;
    for i := 0 to h
      invariant Rows(i, hd) <= Rows(h, hd)
      invariant forall r :: 0 <= r < mat.Length0 ==> Settled(RowOf(out, r), RowOf(mat, r), i, h, hd)
    {
      PairFits(i, h, hd);
      ghost var was := seq(mat.Length0, r requires 0 <= r < mat.Length0 reads out => RowOf(out, r));
      CopyColumns(mat, At2(i, 0, hd), out, At2(2 * i, 0, hd), hd);
      CopyColumns(mat, At2(h + i, 0, hd), out, At2(2 * i + 1, 0, hd), hd);
      forall r | 0 <= r < mat.Length0 ensures Settled(RowOf(out, r), RowOf(mat, r), i + 1, h, hd) {
        PairCopied(was[r], RowOf(out, r), RowOf(mat, r), i, h, hd);
      }
    }
  }

  // ----- the three sections of a fused QKV matrix -----

  ghost predicate Section<T>(out: seq<T>, mat: seq<T>, heads: int) {
    if heads < 2 then out == mat else Interleaves(out, mat, heads)
  }

  /** Rows from..to re-interleaved, the others as they were. */
  ghost predicate Updated<T>(now: seq<T>, was: seq<T>, from: nat, to: nat, heads: int) {
    && from <= to <= |was| == |now| && now[..from] == was[..from] && now[to..] == was[to..]
    && Section(now[from..to], was[from..to], heads)
  }

  ghost predicate Sections<T>(now: seq<T>, was: seq<T>, keyHeads: int, valueHeads: int) {
    var q := |was| / 4;
    && |now| == |was| && Section(now[..q], was[..q], keyHeads) && Section(now[q..2 * q], was[q..2 * q], keyHeads)
    && Section(now[2 * q..], was[2 * q..], valueHeads)
  }

  method ReinterleaveSection<T(0)>(data: array<T>, from: nat, to: nat, heads: int)
    requires from <= to <= data.Length
    modifies data
    ensures Updated(data[..], old(data[..]), from, to, heads)
  {
    ghost var was := data[..];
    var part := new T[to - from];
    CopyRows(data, from, part, 0, to - from);
    ghost var section := part[..];
    assert section == was[from..to];
    var res := ReinterleaveRows(part, heads);
    ghost var moved := res[..];
    assert Section(moved, section, heads);
    CopyRows(res, 0, data, from, to - from);
    Replaced(was, data[..], section, moved, from, to, heads);
  }

  lemma Replaced<T>(was: seq<T>, now: seq<T>, section: seq<T>, res: seq<T>, from: nat, to: nat, heads: int)
    requires from <= to <= |was| == |now| && |res| == to - from
    requires section == was[from..to] && Section(res, section, heads)
    requires forall p :: 0 <= p < from ==> now[p] == was[p]
    requires forall p :: from <= p < to ==> now[p] == res[p - from]
    requires forall p :: to <= p < |was| ==> now[p] == was[p]
    ensures Updated(now, was, from, to, heads)
  {
    assert now[from..to] == res;
    assert now[..from] == was[..from];
    assert now[to..] == was[to..];
  }

  /** Query and key sections take a quarter of the rows each, rounded down; values take the rest. */
  method ReinterleaveQkv<T(0)>(data: array<T>, keyHeads: int, valueHeads: int)
    modifies data
    ensures Sections(data[..], old(data[..]), keyHeads, valueHeads)
  {
    var q := data.Length / 4;
    ghost var s0 := data[..];
    ReinterleaveSection(data, 0, q, keyHeads);
    ghost var s1 := data[..];
    ReinterleaveSection(data, q, 2 * q, keyHeads);
    ghost var s2 := data[..];
    ReinterleaveSection(data, 2 * q, data.Length, valueHeads);
    SectionsKept(s0, s1, s2, data[..], q, keyHeads, valueHeads);
  }

  /** Each section's update leaves the other two alone. */
  lemma SectionsKept<T>(s0: seq<T>, s1: seq<T>, s2: seq<T>, s3: seq<T>, q: nat, keyHeads: int, valueHeads: int)
    requires q == |s0| / 4 && Updated(s1, s0, 0, q, keyHeads)
    requires Updated(s2, s1, q, 2 * q, keyHeads) && Updated(s3, s2, 2 * q, |s0|, valueHeads)
    ensures Sections(s3, s0, keyHeads, valueHeads)
  {
    var n := |s0|;
    assert s1[q..n] == s1[q..] && s0[q..n] == s0[q..];
    assert s3[2 * q..n] == s3[2 * q..] && s2[2 * q..n] == s2[2 * q..] == s1[2 * q..n] && s0[2 * q..n] == s0[2 * q..];
    assert s1[..q] == s1[0..q] == s2[..q] && s3[..2 * q] == s3[0..2 * q] && s2[..2 * q] == s2[0..2 * q];
    Inside(s1, s0, q, |s0|, q, 2 * q);
    Inside(s1, s0, q, |s0|, 2 * q, |s0|);
    Inside(s3, s2, 0, 2 * q, 0, q);
    Inside(s3, s2, 0, 2 * q, q, 2 * q);
  }

  lemma Inside<T>(s: seq<T>, t: seq<T>, lo: nat, hi: nat, from: nat, to: nat)
    requires lo <= from <= to <= hi <= |s| == |t| && s[lo..hi] == t[lo..hi]
    ensures s[from..to] == t[from..to]
  {
    forall i | from <= i < to ensures s[i] == t[i] {
      assert s[lo..hi][i - lo] == t[lo..hi][i - lo];
    }
  }

  // ----- the fused matrix as one row permutation -----

  /** The head count leaves no row of the section unwritten. */
  predicate Fits(rows: nat, heads: int) {
    heads >= 2 ==> Rows(heads / 2, rows / heads) == rows
  }

  function SectionSource(p: nat, rows: nat, heads: int): (s: nat)
    requires p < rows && Fits(rows, heads)
    ensures s < rows
  {
    if heads < 2 then p else
      SourceTarget(p, heads / 2, rows / heads);
      RowSource(p, heads / 2, rows / heads)
  }

  /** Two sections of q rows each, then the rest. */
  function QkvSource(p: nat, q: nat, rest: nat, keyHeads: int, valueHeads: int): (s: nat)
    requires p < 2 * q + rest && Fits(q, keyHeads) && Fits(rest, valueHeads)
    ensures s < 2 * q + rest
  {
    if p < q then SectionSource(p, q, keyHeads)
    else if p < 2 * q then q + SectionSource(p - q, q, keyHeads)
    else 2 * q + SectionSource(p - 2 * q, rest, valueHeads)
  }

  lemma SourceInjective(p: nat, r: nat, h: nat, hd: nat)
    requires p < Rows(h, hd) && r < Rows(h, hd) && p != r
    ensures hd > 0 && RowSource(p, h, hd) != RowSource(r, h, hd)
  {
    SourceTarget(p, h, hd);
    SourceTarget(r, h, hd);
  }

  lemma SectionInjective(p: nat, r: nat, rows: nat, heads: int)
    requires p < rows && r < rows && p != r && Fits(rows, heads)
    ensures SectionSource(p, rows, heads) != SectionSource(r, rows, heads)
  {
    if heads >= 2 { SourceInjective(p, r, heads / 2, rows / heads); }
  }

  /** No row of the fused matrix is lost or doubled, and none crosses into another section. */
  lemma QkvPermutes(q: nat, rest: nat, keyHeads: int, valueHeads: int)
    requires Fits(q, keyHeads) && Fits(rest, valueHeads)
    ensures var n := 2 * q + rest;
      IsPermutation(seq(n, p requires 0 <= p < n => QkvSource(p, q, rest, keyHeads, valueHeads)))
    ensures forall p :: 0 <= p < 2 * q + rest ==>
      SectionNumber(QkvSource(p, q, rest, keyHeads, valueHeads), q) == SectionNumber(p, q)
  {
    var n := 2 * q + rest;
    var perm := seq(n, p requires 0 <= p < n => QkvSource(p, q, rest, keyHeads, valueHeads));
    forall p, r | 0 <= p < r < n ensures perm[p] != perm[r] {
      QkvInjective(p, r, q, rest, keyHeads, valueHeads);
    }
  }

  lemma QkvInjective(p: nat, r: nat, q: nat, rest: nat, keyHeads: int, valueHeads: int)
    requires p < r < 2 * q + rest && Fits(q, keyHeads) && Fits(rest, valueHeads)
    ensures QkvSource(p, q, rest, keyHeads, valueHeads) != QkvSource(r, q, rest, keyHeads, valueHeads)
  {
    if r < q {
      SectionInjective(p, r, q, keyHeads);
    } else if q <= p && r < 2 * q {
      SectionInjective(p - q, r - q, q, keyHeads);
    } else if 2 * q <= p {
      SectionInjective(p - 2 * q, r - 2 * q, rest, valueHeads);
    }
  }

  function SectionNumber(p: nat, q: nat): nat {
    if p < q then 0 else if p < 2 * q then 1 else 2
  }

  lemma SectionAt<T>(out: seq<T>, mat: seq<T>, rows: nat, heads: int, p: nat)
    requires |mat| == rows && Section(out, mat, heads) && Fits(rows, heads) && p < rows
    ensures |out| == rows && out[p] == mat[SectionSource(p, rows, heads)]
  {
    if heads >= 2 { assert FromSource(out, mat, p, heads / 2, rows / heads); }
  }

  /** What the in-place update leaves in row p. */
  lemma QkvAt<T>(out: seq<T>, mat: seq<T>, q: nat, rest: nat, keyHeads: int, valueHeads: int, p: nat)
    requires q == |mat| / 4 && rest == |mat| - 2 * q && p < |mat|
    requires Sections(out, mat, keyHeads, valueHeads) && Fits(q, keyHeads) && Fits(rest, valueHeads)
    ensures out[p] == mat[QkvSource(p, q, rest, keyHeads, valueHeads)]
  {
    if p < q {
      SectionAt(out[..q], mat[..q], q, keyHeads, p);
    } else if p < 2 * q {
      SectionAt(out[q..2 * q], mat[q..2 * q], q, keyHeads, p - q);
    } else {
      SectionAt(out[2 * q..], mat[2 * q..], rest, valueHeads, p - 2 * q);
    }
  }

  // ----- the same in head numbers -----

  /** Head 2 i of the output is head i of the input, and head 2 i + 1 is head h + i. */
  lemma HeadLaw<T>(out: seq<T>, mat: seq<T>, heads: int, i: nat, j: nat, h: nat, hd: nat)
    requires heads >= 2 && Interleaves(out, mat, heads) && h == heads / 2 && hd == |mat| / heads && i < h && j < hd
    ensures |out| == |mat| && At2(2 * i, j, hd) < |mat| && At2(2 * i + 1, j, hd) < |mat|
    ensures At2(i, j, hd) < |mat| && At2(h + i, j, hd) < |mat|
    ensures out[At2(2 * i, j, hd)] == mat[At2(i, j, hd)] && out[At2(2 * i + 1, j, hd)] == mat[At2(h + i, j, hd)]
  {
    HeadAt(out, mat, h, hd, 2 * i, i, j);
    HeadAt(out, mat, h, hd, 2 * i + 1, h + i, j);
  }

  lemma HeadAt<T>(out: seq<T>, mat: seq<T>, h: nat, hd: nat, head: nat, source: nat, j: nat)
    requires Settled(out, mat, h, h, hd) && head < 2 * h && j < hd
    requires source == if head % 2 == 0 then head / 2 else h + head / 2
    ensures At2(head, j, hd) < Rows(h, hd) <= |out| == |mat| && At2(source, j, hd) < |mat|
    ensures out[At2(head, j, hd)] == mat[At2(source, j, hd)]
  {
    Within(head, j, 2 * h, hd);
    assert FromSource(out, mat, At2(head, j, hd), h, hd);
    SourceAt(head, j, h, hd);
    SourceTarget(At2(head, j, hd), h, hd);
  }
}
