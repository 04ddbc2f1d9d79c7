/** The Marlin layout position by position: the tables in numbers, and where each weight and scale of a packed tensor
    stands. */
module LayoutLaws {
  import opened Arithmetic
  import opened Tensors
  import opened MarlinPerms
  import opened Nibbles
  import opened W4A8
  import opened W4A8RoundTrip
  import opened MarlinRepack
  import opened Repack
  import opened PackedRange

  // ----- the tables -----

  lemma Parts(p: nat, i: nat, j: nat, e: nat)
    requires j < 4 && e < 8 && p == 32 * i + 8 * j + e
    ensures p / 32 == i && p % 8 == e && p / 8 == 4 * i + j && p / 8 % 4 == j
  {
    DivMod(i, 32, 8 * j + e);
    DivMod(4 * i + j, 8, e);
    DivMod(i, 4, j);
  }

  lemma RawIs(pattern: RowPattern, i: nat, j: nat, x: nat, p: nat)
    requires j < 4 && x < 8 && p == 32 * i + 8 * j + x
    ensures Raw(pattern, p) == Entry(pattern, i, x) + 256 * j
  {
    Parts(p, i, j, x);
  }

  /** Entry e of part j of thread i: rows and columns of its 16 by 16 tile, and the tile. */
  lemma TableLaw(pattern: RowPattern, wholeColumn: bool, i: nat, j: nat, e: nat, x: nat)
    requires i < 32 && j < 4 && e < 8
    requires x == (if wholeColumn then [4, 0, 5, 1, 6, 2, 7, 3] else [0, 2, 4, 6, 1, 3, 5, 7])[e]
    ensures var row := if pattern.FourConsecutive? then 4 * (i % 4) + x % 4 else 2 * (i % 4) + [0, 1, 8, 9][x % 4];
      PermTable(pattern, wholeColumn)[32 * i + 8 * j + e] == 16 * row + i / 4 + 8 * (x / 4) + 256 * j
  {
    var p := 32 * i + 8 * j + e;
    Parts(p, i, j, e);
    RawIs(pattern, i, j, x, 32 * i + 8 * j + x);
    InterleavedEntry(pattern, wholeColumn, p, 4 * i + j, e, x);
    EntryIs(pattern, i, x);
  }

  lemma InterleavedEntry(pattern: RowPattern, wholeColumn: bool, p: nat, q: nat, e: nat, x: nat)
    requires p < 1024 && p / 8 == q && p % 8 == e && x == Interleave(wholeColumn)[e]
    ensures PermTable(pattern, wholeColumn)[p] == Raw(pattern, 8 * q + x)
  {}

  lemma EntryIs(pattern: RowPattern, i: nat, x: nat)
    requires x < 8
    ensures Entry(pattern, i, x)
      == 16 * (if pattern.FourConsecutive? then 4 * (i % 4) + x % 4 else 2 * (i % 4) + [0, 1, 8, 9][x % 4])
         + i / 4 + 8 * (x / 4)
  {}

  /** The scale tables: a transposed 8 by 8 square, and pairs eight apart. */
  lemma ScaleTableLaw(i: nat, j: nat)
    requires i < 8 && j < 8
    ensures ScaleTable()[8 * i + j] == i + 8 * j
  {
    assert (8 * i + j) / 8 == i && (8 * i + j) % 8 == j;
  }

  lemma SingleTableLaw(i: nat, j: nat, e: nat)
    requires i < 4 && j < 4 && e < 2
    ensures SingleTable()[8 * i + 2 * j + e] == 2 * i + 8 * j + e
  {
    assert (8 * i + 2 * j + e) / 8 == i && (8 * i + 2 * j + e) % 8 == 2 * j + e;
    assert SingleOffset(2 * j + e) == 8 * j + e;
  }

  // ----- tiles -----

  /** Where weight (kk, i) stands after tiling: tile (kk / 16, i / 16), row-major, and 16 (kk % 16) + i % 16 in it. */
  function TilePosition(kk: nat, i: nat, n: nat): nat {
    256 * (kk / 16 * (n / 16) + i / 16) + 16 * (kk % 16) + i % 16
  }

  lemma TilePositions(a: nat, r: nat, b: nat, c: nat, m: nat)
    requires r < 16 && c < 16
    ensures Flat(a, b, r, c, m, 16, 16) == 256 * (a * m + b) + 16 * r + c
    ensures Flat(a, r, b, c, 16, m, 16) == (16 * a + r) * (16 * m) + (16 * b + c)
  {
    assert ((a * 16 + r) * m + b) * 16 + c == ((16 * a + r) * m) * 16 + 16 * b + c;
    assert ((16 * a + r) * m) * 16 == (16 * a + r) * (16 * m);
  }

  lemma SwappedAt(q: seq<nat>, rows: nat, m: nat, a: nat, r: nat, b: nat, c: nat, f: nat, x: nat)
    requires |q| == rows * 16 * m * 16 && a < rows && r < 16 && b < m && c < 16
    requires f == Flat(a, b, r, c, m, 16, 16) && x == Flat(a, r, b, c, 16, m, 16)
    ensures f < |q| && x < |q| && SwapAxes(q, rows, 16, m, 16)[f] == q[x]
  {
    SwapAxesAt(q, rows, 16, m, 16, a, r, b, c);
  }

  lemma Parts16(x: nat, m: nat)
    requires x < 16 * m
    ensures x / 16 < m && x % 16 < 16 && x == 16 * (x / 16) + x % 16
  {}

  lemma Positions(kk: nat, i: nat, m: nat, n: nat, a: nat, r: nat, b: nat, c: nat, f: nat, x: nat)
    requires r < 16 && c < 16 && kk == 16 * a + r && i == 16 * b + c && n == 16 * m
    requires f == 256 * (a * m + b) + 16 * r + c && x == kk * n + i
    ensures f == Flat(a, b, r, c, m, 16, 16) && x == Flat(a, r, b, c, 16, m, 16)
  {
    TilePositions(a, r, b, c, m);
  }

  lemma TiledAt(q: seq<nat>, n: nat, k: nat, rows: nat, m: nat, perm: seq<nat>, f: nat, x: nat, block: nat, o: nat,
                p: nat)
    requires rows == k / 16 && m == n / 16 && |q| == rows * 16 * m * 16 && |q| % 1024 == 0
    requires IsPermutation(perm) && |perm| == 1024 && p < 1024 && perm[p] == o && f == 1024 * block + o
    requires f < |q| && x < |q| && SwapAxes(q, rows, 16, m, 16)[f] == q[x]
    ensures 1024 * block + p < |Tiled(q, n, k, perm)| && Tiled(q, n, k, perm)[1024 * block + p] == q[x]
  {
    BlockAt(SwapAxes(q, rows, 16, m, 16), perm, block, p);
  }

  /** Tiling and permuting, element by element: weight (kk, i), at tile position o of a block of 1024, goes to the
      place p of that block for which the permutation draws from o. */
  lemma TiledLaw(q: seq<nat>, n: nat, k: nat, perm: seq<nat>, kk: nat, i: nat, block: nat, o: nat, p: nat)
    requires |q| == (k / 16) * 16 * (n / 16) * 16 && k == 16 * (k / 16) && n == 16 * (n / 16)
    requires kk < k && i < n && o < 1024 && TilePosition(kk, i, n) == 1024 * block + o
    requires IsPermutation(perm) && |perm| == 1024 && |q| % 1024 == 0 && p < 1024 && perm[p] == o
    ensures 1024 * block + p < |Tiled(q, n, k, perm)| && kk * n + i < |q|
    ensures Tiled(q, n, k, perm)[1024 * block + p] == q[kk * n + i]
  {
    var f, x := 1024 * block + o, kk * n + i;
    Moved(q, n, k, k / 16, n / 16, kk, i, f, x);
    TiledAt(q, n, k, k / 16, n / 16, perm, f, x, block, o, p);
  }

  lemma Moved(q: seq<nat>, n: nat, k: nat, rows: nat, m: nat, kk: nat, i: nat, f: nat, x: nat)
    requires |q| == rows * 16 * m * 16 && k == 16 * rows && n == 16 * m && kk < k && i < n && m == n / 16
    requires f == TilePosition(kk, i, n) && x == kk * n + i
    ensures f < |q| && x < |q| && SwapAxes(q, rows, 16, m, 16)[f] == q[x]
  {
    Parts16(kk, rows);
    Parts16(i, m);
    Positions(kk, i, m, n, kk / 16, kk % 16, i / 16, i % 16, f, x);
    SwappedAt(q, rows, m, kk / 16, kk % 16, i / 16, i % 16, f, x);
  }

  lemma BlockAt<T>(s: seq<T>, perm: seq<nat>, block: nat, p: nat)
    requires IsIndexList(perm, |s|) && p < |perm| && |perm| * block + perm[p] < |s|
    ensures |perm| * block + p < |PermuteBlocks(s, perm)|
    ensures PermuteBlocks(s, perm)[|perm| * block + p] == s[|perm| * block + perm[p]]
  {
    WholeBlock(|s|, |perm|, block, perm[p], p);
    DivMod(block, |perm|, p);
    assert |perm| * block == block * |perm|;
  }

  lemma WholeBlock(size: nat, m: nat, block: nat, x: nat, p: nat)
    requires m > 0 && size % m == 0 && m * block + x < size && p < m && x < m
    ensures m * block + p < size
  {
    Multiple(size, m);
    var q := size / m;
    if block >= q { AtLeastMany(block, q, m); assert false; }
    AtLeastMany(q, block + 1, m);
    assert (block + 1) * m == m * block + m;
  }

  // ----- a packed tensor -----

  /** The integers before tiling: place kk * n + i holds the level of weight (i, kk), where kk is column g of
      group a. */
  lemma IntegerAt(data: seq<real>, s: seq<real>, n: nat, groups: nat, gs: nat, i: nat, kk: nat, a: nat, g: nat)
    requires |data| == 1 * n * (groups * gs) * 1 == 1 * groups * gs * n == 1 * gs * groups * n
    requires |s| == groups * n > 0 && i < n && a < groups && g < gs && kk == At2(a, g, gs)
    ensures kk * n + i < |data| && At2(i, kk, groups * gs) < |data| && At2(a, i, n) < |s|
    ensures IntLayout(data, s, n, groups, gs)[kk * n + i] == Quantise(data[At2(i, kk, groups * gs)], s[At2(a, i, n)])
  {
    IntLayoutAt(data, s, n, groups, gs, a, g, i);
  }

  lemma Sixteens16(n: nat, k: nat)
    requires k % 128 == 0 && n % 256 == 0
    ensures k == 16 * (k / 16) && n == 16 * (n / 16)
  {
    Sixteenths(k, 8 * (k / 128));
    Sixteenths(n, 16 * (n / 256));
  }

  lemma PackedSizesLaw(packed: Packed, weight: Matrix, s: seq<real>, gs: nat, n: nat, k: nat)
    requires Packable(weight, s, gs) && Packs(packed, weight, s, gs) && n == weight.rows && k == weight.cols
    ensures |weight.data| == (k / 16) * 16 * (n / 16) * 16 == 8 * |packed.qweight| && |weight.data| % 1024 == 0
    ensures k == 16 * (k / 16) && n == 16 * (n / 16) && |s| > 0 && k == (k / gs) * gs
    ensures |weight.data| == 1 * n * k * 1 == 1 * (k / gs) * gs * n == 1 * gs * (k / gs) * n
  {
    ShapeFacts(n, k, gs);
    Sixteens16(n, k);
    SomeScales(n, k, gs);
    PackedSizes(packed, weight, s, gs);
  }

  /** The words hold the tiled integers. */
  lemma WordsHold(packed: Packed, weight: Matrix, s: seq<real>, gs: nat, q: seq<nat>, perm: seq<nat>, m: nat)
    requires Packable(weight, s, gs) && Packs(packed, weight, s, gs) && m < |weight.data|
    requires |weight.data| == 1 * weight.rows * ((weight.cols / gs) * gs) * 1
      == 1 * (weight.cols / gs) * gs * weight.rows == 1 * gs * (weight.cols / gs) * weight.rows
    requires |s| == (weight.cols / gs) * weight.rows > 0 && perm == PermTable(FourConsecutive, gs == weight.cols)
    requires q == IntLayout(weight.data, s, weight.rows, weight.cols / gs, gs)
    ensures |q| == |weight.data| == (weight.cols / 16) * 16 * (weight.rows / 16) * 16 && |q| % 1024 == 0
    ensures IsPermutation(perm) && |perm| == 1024 && |Tiled(q, weight.rows, weight.cols, perm)| == |q|
    ensures m < 8 * |packed.qweight| && NibbleAt(packed.qweight, m) == Tiled(q, weight.rows, weight.cols, perm)[m]
  {
    PackedSizesLaw(packed, weight, s, gs, weight.rows, weight.cols);
    PermTablePermutes(FourConsecutive, gs == weight.cols);
    TiledNibbles(q, weight.rows, weight.cols, perm);
    NibblesBack(Tiled(q, weight.rows, weight.cols, perm), packed.qweight, m);
  }

  /** The nibble of weight (i, kk), column g of group a: in its block of 1024 nibbles, at the place the table draws
      its tile position from, is its level under the working scale of its own group. */
  lemma PackedNibbleLaw(packed: Packed, weight: Matrix, s: seq<real>, gs: nat, i: nat, kk: nat, a: nat, g: nat,
                        block: nat, o: nat, p: nat)
    requires Packable(weight, s, gs) && Packs(packed, weight, s, gs) && i < weight.rows
    requires a < weight.cols / gs && g < gs && kk == At2(a, g, gs) && kk < weight.cols
    requires o < 1024 && TilePosition(kk, i, weight.rows) == 1024 * block + o
    requires p < 1024 && PermTable(FourConsecutive, gs == weight.cols)[p] == o
    ensures 1024 * block + p < 8 * |packed.qweight|
    ensures At2(a, i, weight.rows) < |s| && At2(i, kk, weight.cols) < |weight.data|
    ensures NibbleAt(packed.qweight, 1024 * block + p)
      == Quantise(weight.data[At2(i, kk, weight.cols)], s[At2(a, i, weight.rows)])
  {
    PackedSizesLaw(packed, weight, s, gs, weight.rows, weight.cols);
    var q := IntLayout(weight.data, s, weight.rows, weight.cols / gs, gs);
    var perm := PermTable(FourConsecutive, gs == weight.cols);
    PermTablePermutes(FourConsecutive, gs == weight.cols);
    TiledLaw(q, weight.rows, weight.cols, perm, kk, i, block, o, p);
    WordsHold(packed, weight, s, gs, q, perm, 1024 * block + p);
    IntegerAt(weight.data, s, weight.rows, weight.cols / gs, gs, i, kk, a, g);
  }

  lemma GroupScalesOf(packed: Packed, weight: Matrix, s: seq<real>, gs: nat) returns (t: seq<real>)
    requires Packable(weight, s, gs) && Packs(packed, weight, s, gs)
    ensures weight.rows > 0 && |ChannelScales(weight)| == weight.rows
    ensures t == DivideByChannel(s, ChannelScales(weight)) && |t| == |s| && |t| % 64 == 0
    ensures IsIndexList(ScaleTable(), |t|) && packed.sGroup == PermuteBlocks(t, ScaleTable())
  {
    ShapeFacts(weight.rows, weight.cols, gs);
    ScaleTableInvolution();
    t := DivideByChannel(s, ChannelScales(weight));
  }

  /** A permutation of blocks of 64 by the scale table. */
  lemma ScaleBlockAt(t: seq<real>, block: nat, i: nat, j: nat)
    requires IsIndexList(ScaleTable(), |t|) && i < 8 && j < 8 && 64 * block + (i + 8 * j) < |t|
    ensures 64 * block + (8 * i + j) < |t|
    ensures PermuteBlocks(t, ScaleTable())[64 * block + (8 * i + j)] == t[64 * block + (i + 8 * j)]
  {
    ScaleTableLaw(i, j);
    BlockAt(t, ScaleTable(), block, 8 * i + j);
  }

  /** The stored group scales: place 8 i + j of a block of 64 is the working scale 8 j + i of that block, over the
      scale of its channel. */
  lemma PackedScaleLaw(packed: Packed, weight: Matrix, s: seq<real>, gs: nat, block: nat, i: nat, j: nat, x: nat)
    requires Packable(weight, s, gs) && Packs(packed, weight, s, gs) && i < 8 && j < 8
    requires x == 64 * block + (i + 8 * j) && x < |s|
    ensures weight.rows > 0 && x % weight.rows < |ChannelScales(weight)|
    ensures 64 * block + (8 * i + j) < |packed.sGroup|
    ensures packed.sGroup[64 * block + (8 * i + j)] == s[x] / ChannelScales(weight)[x % weight.rows]
  {
    var t := GroupScalesOf(packed, weight, s, gs);
    ScaleBlockAt(t, block, i, j);
    DividedAt(s, ChannelScales(weight), x);
  }

  lemma DividedAt(s: seq<real>, channel: seq<real>, x: nat)
    requires |channel| > 0 && (forall i :: 0 <= i < |channel| ==> channel[i] > 0.0) && x < |s|
    ensures DivideByChannel(s, channel)[x] == s[x] / channel[x % |channel|]
  {}

  lemma ChannelScalesOf(packed: Packed, weight: Matrix, s: seq<real>, gs: nat) returns (c: seq<real>)
    requires Packable(weight, s, gs) && Packs(packed, weight, s, gs)
    ensures c == ChannelScales(weight) && |c| == weight.rows && IsIndexList(SingleTable(), |c|)
    ensures packed.sChannel == PermuteBlocks(c, SingleTable())
  {
    ShapeFacts(weight.rows, weight.cols, gs);
    SingleTablePermutes();
    c := ChannelScales(weight);
  }

  lemma SingleBlockAt(c: seq<real>, block: nat, i: nat, j: nat, e: nat)
    requires IsIndexList(SingleTable(), |c|) && i < 4 && j < 4 && e < 2 && 32 * block + (2 * i + 8 * j + e) < |c|
    ensures 32 * block + (8 * i + 2 * j + e) < |c|
    ensures PermuteBlocks(c, SingleTable())[32 * block + (8 * i + 2 * j + e)] == c[32 * block + (2 * i + 8 * j + e)]
  {
    SingleTableLaw(i, j, e);
    BlockAt(c, SingleTable(), block, 8 * i + 2 * j + e);
  }

  /** The stored channel scales, in blocks of 32. */
  lemma PackedChannelLaw(packed: Packed, weight: Matrix, s: seq<real>, gs: nat, block: nat, i: nat, j: nat, e: nat)
    requires Packable(weight, s, gs) && Packs(packed, weight, s, gs) && i < 4 && j < 4 && e < 2
    requires 32 * block + (2 * i + 8 * j + e) < weight.rows
    ensures 32 * block + (8 * i + 2 * j + e) < |packed.sChannel|
    ensures packed.sChannel[32 * block + (8 * i + 2 * j + e)]
      == ChannelScales(weight)[32 * block + (2 * i + 8 * j + e)]
  {
    var c := ChannelScalesOf(packed, weight, s, gs);
    SingleBlockAt(c, block, i, j, e);
  }

  // ----- a repacked tensor -----

  lemma RepackSizes(n: nat, k: nat)
    requires k % 128 == 0 && n % 64 == 0
    ensures k == 16 * (k / 16) && n == 16 * (n / 16)
  {
    Sixteenths(k, 8 * (k / 128));
    Sixteenths(n, 4 * (n / 64));
  }

  /** The same place, in the other row pattern, holds nibble (i, kk) of the input bytes. */
  lemma RepackedNibbleLaw(m: Marlin, bytes: seq<nat>, scales: seq<real>, n: nat, k: nat, groupSize: nat, groups: nat,
                          i: nat, kk: nat, block: nat, o: nat, p: nat)
    requires 2 * |bytes| == n * k && |scales| == n * groups && k % 128 == 0 && n % 64 == 0
    requires MarlinRepack.Holds(m, bytes, scales, n, k, groupSize, groups)
    requires i < n && kk < k && o < 1024 && TilePosition(kk, i, n) == 1024 * block + o
    requires p < 1024 && PermTable(SkipEight, false)[p] == o
    ensures 1024 * block + p < 8 * |m.words| && At2(i, kk, k) < 2 * |bytes|
    ensures NibbleAt(m.words, 1024 * block + p) == NibbleOf(bytes, At2(i, kk, k))
  {
    RepackFacts(n, k);
    RepackSizes(n, k);
    PermTablePermutes(SkipEight, false);
    var perm, q := PermTable(SkipEight, false), IntWeights(bytes, n, k);
    TiledNibbles(q, n, k, perm);
    TiledLaw(q, n, k, perm, kk, i, block, o, p);
    NibblesBack(Tiled(q, n, k, perm), m.words, 1024 * block + p);
    IntWeightsAt(bytes, n, k, i, kk);
  }

  lemma RepackedScalesOf(m: Marlin, bytes: seq<nat>, scales: seq<real>, n: nat, k: nat, groupSize: nat, groups: nat)
    returns (t: seq<real>, list: seq<nat>)
    requires 2 * |bytes| == n * k && |scales| == n * groups && k % 128 == 0 && n % 64 == 0
    requires MarlinRepack.Holds(m, bytes, scales, n, k, groupSize, groups)
    ensures |scales| == 1 * n * groups * 1 && t == Transposed(scales, n, groups)
    ensures list == (if groupSize < k then ScaleTable() else SingleTable()) && IsIndexList(list, |t|)
    ensures m.scales == PermuteBlocks(t, list)
  {
    ScaleFacts(n, groups);
    t := Transposed(scales, n, groups);
    list := ScaleList(groupSize, k);
  }

  /** Its scales, transposed, and permuted in blocks of 64 or, with one group a column, of 32. */
  lemma RepackedScaleLaw(m: Marlin, bytes: seq<nat>, scales: seq<real>, n: nat, k: nat, groupSize: nat, groups: nat,
                         list: seq<nat>, g: nat, i: nat, block: nat, p: nat)
    requires 2 * |bytes| == n * k && |scales| == n * groups && k % 128 == 0 && n % 64 == 0
    requires MarlinRepack.Holds(m, bytes, scales, n, k, groupSize, groups) && g < groups && i < n
    requires list == (if groupSize < k then ScaleTable() else SingleTable()) && p < |list|
    requires At2(g, i, n) == |list| * block + list[p]
    ensures |list| * block + p < |m.scales| && At2(i, g, groups) < |scales|
    ensures m.scales[|list| * block + p] == scales[At2(i, g, groups)]
  {
    var t, order := RepackedScalesOf(m, bytes, scales, n, k, groupSize, groups);
    TransposedAt(scales, n, groups, i, g);
    BlockAt(t, list, block, p);
    assert order == list;
  }
}
