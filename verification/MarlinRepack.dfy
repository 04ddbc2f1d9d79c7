/** The plain Marlin repack of symmetric 4-bit weights: skip-eight rows, no scale arithmetic. */
module MarlinRepack {
  import opened Wrappers
  import opened Tensors
  import opened MarlinPerms
  import opened Nibbles
  import opened W4A8
  import opened W4A8RoundTrip
  import opened Repack

  /** What the repack returns when the shape suits it. */
  datatype Marlin = Marlin(words: seq<int>, scales: seq<real>)

  lemma Products64(a: nat, b: nat)
    ensures var k, n := 128 * a, 64 * b;
      && 1 * n * k * 1 == n * k
      && (k / 16) * 16 * (n / 16) * 16 == n * k && (k / 16) * (n / 16) * 16 * 16 == n * k
      && (n * k) % 1024 == 0 && (n * k) % 8 == 0
  {
    var k, n, p := 128 * a, 64 * b, a * b;
    assert k / 16 == 8 * a && n / 16 == 4 * b;
    assert n * k == 8192 * p;
    assert (8 * a) * 16 * (4 * b) * 16 == 8192 * p;
    assert (8 * a) * (4 * b) * 16 * 16 == 8192 * p;
  }

  lemma RepackFacts(n: nat, k: nat)
    requires k % 128 == 0 && n % 64 == 0
    ensures 1 * n * k * 1 == n * k
    ensures (k / 16) * 16 * (n / 16) * 16 == n * k && (k / 16) * (n / 16) * 16 * 16 == n * k
    ensures (n * k) % 1024 == 0 && (n * k) % 8 == 0
  {
    Products64(k / 128, n / 64);
  }

  lemma ScaleFacts(n: nat, groups: nat)
    requires n % 64 == 0
    ensures (n * groups) % 64 == 0 && (n * groups) % 32 == 0 && 1 * n * groups * 1 == n * groups
  {
    var b := n / 64;
    assert n * groups == 64 * (b * groups);
  }

  /** The weight nibbles in (n, k) order. */
  function ByteNibbles(bytes: seq<nat>): (w: seq<nat>)
    ensures |w| == 2 * |bytes| && AreNibbles(w)
  {
    seq(2 * |bytes|, p requires 0 <= p < 2 * |bytes| => NibbleOf(bytes, p))
  }

  lemma TransposedNibbles(w: seq<nat>, n: nat, k: nat)
    requires |w| == 1 * n * k * 1 && AreNibbles(w)
    ensures AreNibbles(Transposed(w, n, k))
  {
    SwapAxesKeeps(w, 1, n, k, 1, v => v < 16);
  }

  /** The weight nibbles, unpacked and transposed to (k, n). */
  function IntWeights(bytes: seq<nat>, n: nat, k: nat): (q: seq<nat>)
    requires 2 * |bytes| == 1 * n * k * 1
    ensures |q| == 2 * |bytes| && AreNibbles(q)
  {
    TransposedNibbles(ByteNibbles(bytes), n, k);
    Transposed(ByteNibbles(bytes), n, k)
  }

  /** The group scales, or the single-group ones, permuted. */
  function ScaleList(groupSize: nat, k: nat): (table: seq<nat>)
    ensures |table| == (if groupSize < k then 64 else 32) && IsPermutation(table)
  {
    ScaleTableInvolution();
    SingleTablePermutes();
    if groupSize < k then ScaleTable() else SingleTable()
  }

  method RepackWeight(bytes: seq<nat>, scales: seq<real>, n: nat, k: nat, groupSize: nat, groups: nat)
    returns (r: Option<Marlin>)
    requires 2 * |bytes| == n * k && |scales| == n * groups
    ensures r.None? <==> k % 128 != 0 || n % 64 != 0
    ensures r.Some? ==> Holds(r.value, bytes, scales, n, k, groupSize, groups)
  {
    if k % 128 != 0 || n % 64 != 0 { return None; }
    RepackFacts(n, k);
    ScaleFacts(n, groups);
    var perm, scalePerm, scalePermSingle := GetPerms(SkipEight, false);
    PermTablePermutes(SkipEight, false);
    var q := IntWeights(bytes, n, k);
    TiledNibbles(q, n, k, perm);
    var words := PackNibbles(Tiled(q, n, k, perm));
    var list := ScaleList(groupSize, k);
    var order := if groupSize < k then scalePerm else scalePermSingle;
    r := Some(Marlin(words, PermuteBlocks(Transposed(scales, n, groups), order)));
  }

  predicate Holds(m: Marlin, bytes: seq<nat>, scales: seq<real>, n: nat, k: nat, groupSize: nat, groups: nat)
    requires 2 * |bytes| == n * k && |scales| == n * groups && k % 128 == 0 && n % 64 == 0
  {
    RepackFacts(n, k);
    ScaleFacts(n, groups);
    PermTablePermutes(SkipEight, false);
    && Stores(m.words, Tiled(IntWeights(bytes, n, k), n, k, PermTable(SkipEight, false)))
    && m.scales == PermuteBlocks(Transposed(scales, n, groups), ScaleList(groupSize, k))
  }

  /** Nothing is lost: undoing the words and the scale permutation gives every nibble and every scale
      back, transposed. */
  lemma RepackLossless(m: Marlin, bytes: seq<nat>, scales: seq<real>, n: nat, k: nat, groupSize: nat, groups: nat,
                       inv: seq<nat>, invScale: seq<nat>)
    requires 2 * |bytes| == n * k && |scales| == n * groups && k % 128 == 0 && n % 64 == 0
    requires Holds(m, bytes, scales, n, k, groupSize, groups)
    requires IsArgSort(inv, PermTable(SkipEight, false)) && IsArgSort(invScale, ScaleList(groupSize, k))
    ensures 1 * n * k * 1 == n * k && 1 * n * groups * 1 == n * groups
    ensures 8 * |m.words| == (k / 16) * (n / 16) * 16 * 16 && 8 * |m.words| % |inv| == 0
    ensures |m.scales| % |invScale| == 0
    ensures Untiled(NibbleTensor(m.words), n, k, inv) == IntWeights(bytes, n, k)
    ensures PermuteBlocks(m.scales, invScale) == Transposed(scales, n, groups)
  {
    RepackFacts(n, k);
    ScaleFacts(n, groups);
    PermTablePermutes(SkipEight, false);
    var perm, q := PermTable(SkipEight, false), IntWeights(bytes, n, k);
    TiledNibbles(q, n, k, perm);
    var res := Tiled(q, n, k, perm);
    forall p | 0 <= p < |res| ensures NibbleAt(m.words, p) == res[p] { NibblesBack(res, m.words, p); }
    assert NibbleTensor(m.words) == res;
    UntiledTiled(q, n, k, perm, inv);
    PermuteBlocksBack(Transposed(scales, n, groups), ScaleList(groupSize, k), invScale);
  }

  /** Element (kk, i) of the recovered integers is nibble (i, kk) of the input bytes. */
  lemma IntWeightsAt(bytes: seq<nat>, n: nat, k: nat, i: nat, kk: nat)
    requires 2 * |bytes| == 1 * n * k * 1 && i < n && kk < k
    ensures At2(kk, i, n) < 2 * |bytes| && At2(i, kk, k) < 2 * |bytes|
    ensures IntWeights(bytes, n, k)[At2(kk, i, n)] == NibbleOf(bytes, At2(i, kk, k))
  {
    TransposedAt(ByteNibbles(bytes), n, k, i, kk);
  }
}
