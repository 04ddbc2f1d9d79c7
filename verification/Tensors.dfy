/** Row-major tensors as flat sequences. A reshape leaves the sequence alone; every permute this
    repository uses swaps two neighbouring axes; an index list permutes fixed-size blocks. */
module Tensors {
  import opened Arithmetic

  /** Position of (i, j) in shape (_, c). */
  function At2(i: nat, j: nat, c: nat): nat {
    i * c + j
  }

  /** Position of (i, j, k) in shape (_, c, d). */
  function At3(i: nat, j: nat, k: nat, c: nat, d: nat): nat {
    At2(At2(i, j, c), k, d)
  }

  /** Position of (i, j, k, l) in shape (_, b, c, d). */
  function Flat(i: nat, j: nat, k: nat, l: nat, b: nat, c: nat, d: nat): nat {
    At2(At3(i, j, k, b, c), l, d)
  }

  lemma FlatWithin(i: nat, j: nat, k: nat, l: nat, a: nat, b: nat, c: nat, d: nat)
    requires i < a && j < b && k < c && l < d
    ensures Flat(i, j, k, l, b, c, d) < a * b * c * d
  {
    var ab, p := a * b, i * b + j;
    Within(i, j, a, b);
    Within(p, k, ab, c);
    Within(p * c + k, l, ab * c, d);
  }

  lemma UnAt(i: nat, j: nat, c: nat)
    requires j < c
    ensures At2(i, j, c) / c == i && At2(i, j, c) % c == j
  {
    DivMod(i, c, j);
  }

  lemma At3Regroup(i: nat, j: nat, k: nat, c: nat, d: nat)
    ensures At3(i, j, k, c, d) == At2(i, At2(j, k, d), c * d)
  {
    assert (i * c + j) * d == i * (c * d) + j * d;
  }

  lemma Unflat(i: nat, j: nat, k: nat, l: nat, b: nat, c: nat, d: nat)
    requires j < b && k < c && l < d
    ensures var p := Flat(i, j, k, l, b, c, d);
      p % d == l && p / d % c == k && p / d / c % b == j && p / d / c / b == i
  {
    UnAt(At3(i, j, k, b, c), l, d);
    UnAt(At2(i, j, b), k, c);
    UnAt(i, j, b);
  }

  lemma Coordinates(p: nat, a: nat, b: nat, c: nat, d: nat) returns (i: nat, j: nat, k: nat, l: nat)
    requires p < a * b * c * d
    ensures i < a && j < b && k < c && l < d && p == Flat(i, j, k, l, b, c, d)
  {
    Split(p, a * b * c, d);
    Split(p / d, a * b, c);
    Split(p / d / c, a, b);
    i, j, k, l := p / d / c / b, p / d / c % b, p / d % c, p % d;
  }

  /** Where element p of the permuted tensor, shape (a, c, b, d), sits in the tensor of shape (a, b, c, d). */
  function SwapSource(p: nat, b: nat, c: nat, d: nat): nat
    requires b > 0 && c > 0 && d > 0
  {
    Flat(p / d / b / c, p / d % b, p / d / b % c, p % d, b, c, d)
  }

  lemma SwapSourceAt(i: nat, j: nat, k: nat, l: nat, b: nat, c: nat, d: nat)
    requires j < b && k < c && l < d
    ensures SwapSource(Flat(i, k, j, l, c, b, d), b, c, d) == Flat(i, j, k, l, b, c, d)
  {
    Unflat(i, k, j, l, c, b, d);
  }

  lemma SwapSourceWithin(p: nat, a: nat, b: nat, c: nat, d: nat)
    requires p < a * c * b * d
    ensures b > 0 && c > 0 && d > 0 && SwapSource(p, b, c, d) < a * b * c * d
  {
    var i, k, j, l := Coordinates(p, a, c, b, d);
    SwapSourceAt(i, j, k, l, b, c, d);
    FlatWithin(i, j, k, l, a, b, c, d);
  }

  lemma SameSize(a: nat, b: nat, c: nat, d: nat)
    ensures a * c * b * d == a * b * c * d
  {
    assert a * c * b == a * b * c;
  }

  /** `t.reshape(a, b, c, d).permute(0, 2, 1, 3)`. With a == 1 it is `permute(1, 0, 2)` on three
      axes, and with d == 1 as well it is `t()`. */
  function SwapAxes<T>(s: seq<T>, a: nat, b: nat, c: nat, d: nat): (t: seq<T>)
    requires |s| == a * b * c * d
    ensures |t| == |s|
  {
    SameSize(a, b, c, d);
    seq(|s|, p requires 0 <= p < |s| => SwapSourceWithin(p, a, b, c, d); s[SwapSource(p, b, c, d)])
  }

  lemma SwapAxesAt<T>(s: seq<T>, a: nat, b: nat, c: nat, d: nat, i: nat, j: nat, k: nat, l: nat)
    requires |s| == a * b * c * d && i < a && j < b && k < c && l < d
    ensures Flat(i, k, j, l, c, b, d) < |s| && Flat(i, j, k, l, b, c, d) < |s|
    ensures SwapAxes(s, a, b, c, d)[Flat(i, k, j, l, c, b, d)] == s[Flat(i, j, k, l, b, c, d)]
  {
    FlatWithin(i, j, k, l, a, b, c, d);
    FlatWithin(i, k, j, l, a, c, b, d);
    SameSize(a, b, c, d);
    SwapSourceAt(i, j, k, l, b, c, d);
  }

  lemma SwapAxesKeeps<T>(s: seq<T>, a: nat, b: nat, c: nat, d: nat, holds: T -> bool)
    requires |s| == a * b * c * d && forall p :: 0 <= p < |s| ==> holds(s[p])
    ensures var t := SwapAxes(s, a, b, c, d); forall p :: 0 <= p < |t| ==> holds(t[p])
  {
    SameSize(a, b, c, d);
    forall p | 0 <= p < |s| ensures holds(SwapAxes(s, a, b, c, d)[p]) {
      SwapSourceWithin(p, a, b, c, d);
    }
  }

  /** Swapping back restores the tensor. */
  lemma SwapAxesBack<T>(s: seq<T>, a: nat, b: nat, c: nat, d: nat)
    requires |s| == a * b * c * d
    ensures |s| == a * c * b * d && SwapAxes(SwapAxes(s, a, b, c, d), a, c, b, d) == s
  {
    SameSize(a, b, c, d);
    var t := SwapAxes(s, a, b, c, d);
    forall p | 0 <= p < |s| ensures SwapAxes(t, a, c, b, d)[p] == s[p] {
      var i, j, k, l := Coordinates(p, a, b, c, d);
      SwapAxesAt(s, a, b, c, d, i, j, k, l);
      SwapAxesAt(t, a, c, b, d, i, k, j, l);
    }
  }

  // ----- index lists -----

  /** Each entry is an index of the list, and none occurs twice. */
  predicate IsPermutation(perm: seq<nat>) {
    && (forall i :: 0 <= i < |perm| ==> perm[i] < |perm|)
    && (forall i, j :: 0 <= i < j < |perm| ==> perm[i] != perm[j])
  }

  predicate IsIndexList(perm: seq<nat>, size: nat) {
    |perm| > 0 && size % |perm| == 0 && forall i :: 0 <= i < |perm| ==> perm[i] < |perm|
  }

  /** Where element p comes from when every block of |perm| elements is indexed by perm. */
  function BlockSource(p: nat, size: nat, perm: seq<nat>): (s: nat)
    requires p < size && IsIndexList(perm, size)
    ensures s < size
  {
    BlockInside(p, size, |perm|, perm[p % |perm|]);
    At2(p / |perm|, perm[p % |perm|], |perm|)
  }

  lemma BlockInside(p: nat, size: nat, m: nat, j: nat)
    requires p < size && m > 0 && size % m == 0 && j < m
    ensures At2(p / m, j, m) < size
  {
    Multiple(size, m);
    Split(p, size / m, m);
    Within(p / m, j, size / m, m);
  }

  /** `t.reshape(-1, len(perm))[:, perm]`. */
  function PermuteBlocks<T>(s: seq<T>, perm: seq<nat>): (t: seq<T>)
    requires IsIndexList(perm, |s|)
    ensures |t| == |s|
  {
    seq(|s|, p requires 0 <= p < |s| => s[BlockSource(p, |s|, perm)])
  }

  lemma PermuteBlocksKeeps<T>(s: seq<T>, perm: seq<nat>, holds: T -> bool)
    requires IsIndexList(perm, |s|) && forall p :: 0 <= p < |s| ==> holds(s[p])
    ensures forall p :: 0 <= p < |s| ==> holds(PermuteBlocks(s, perm)[p])
  {}

  /** `np.argsort(perm)`: a reordering of the indices that sorts the entries. */
  predicate IsArgSort(inv: seq<nat>, perm: seq<nat>) {
    && |inv| == |perm| && IsPermutation(inv)
    && forall i, j :: 0 <= i <= j < |inv| ==> perm[inv[i]] <= perm[inv[j]]
  }

  predicate SortedBy(inv: seq<nat>, perm: seq<nat>) {
    IsPermutation(inv) && |inv| <= |perm| && forall i, j :: 0 <= i <= j < |inv| ==> perm[inv[i]] <= perm[inv[j]]
  }

  /** Every list has an argsort: insert the positions one by one. */
  lemma {:induction false} ArgSortExists(perm: seq<nat>) returns (inv: seq<nat>)
    ensures IsArgSort(inv, perm)
  {
    inv := [];
    for i := 0 to |perm|
      invariant |inv| == i && SortedBy(inv, perm)
    {
      inv := InsertPosition(inv, perm);
    }
  }

  lemma InsertPosition(inv: seq<nat>, perm: seq<nat>) returns (next: seq<nat>)
    requires SortedBy(inv, perm) && |inv| < |perm|
    ensures |next| == |inv| + 1 && SortedBy(next, perm)
  {
    var i, p := |inv|, 0;
    while p < i && perm[inv[p]] <= perm[i]
      invariant p <= i && forall a :: 0 <= a < p ==> perm[inv[a]] <= perm[i]
    {
      p := p + 1;
    }
    next := inv[..p] + [i] + inv[p..];
    InsertedSorted(inv, next, perm, p);
  }

  /** Where each entry of the longer list came from. */
  predicate InsertedAt(inv: seq<nat>, next: seq<nat>, p: nat) {
    && p <= |inv| && |next| == |inv| + 1 && next[p] == |inv|
    && (forall a :: 0 <= a < p ==> next[a] == inv[a])
    && (forall a :: p < a < |next| ==> next[a] == inv[a - 1])
  }

  lemma InsertedSorted(inv: seq<nat>, next: seq<nat>, perm: seq<nat>, p: nat)
    requires SortedBy(inv, perm) && |inv| < |perm| && InsertedAt(inv, next, p)
    requires forall a :: 0 <= a < p ==> perm[inv[a]] <= perm[|inv|]
    requires p < |inv| ==> perm[|inv|] <= perm[inv[p]]
    ensures SortedBy(next, perm)
  {
    forall a, b | 0 <= a < b < |next| ensures next[a] != next[b] && perm[next[a]] <= perm[next[b]] {
      if b > p && p < |inv| {
        assert perm[inv[p]] <= perm[inv[b - 1]];
      }
    }
  }

  /** Sorting the positions of a permutation inverts it. */
  lemma {:induction false} ArgSortInverts(inv: seq<nat>, perm: seq<nat>, i: nat)
    requires IsPermutation(perm) && IsArgSort(inv, perm) && i < |perm|
    ensures perm[inv[i]] == i
  {
    ArgSortAtLeast(inv, perm, i);
    ArgSortAtMost(inv, perm, i);
  }

  lemma {:induction false} ArgSortAtLeast(inv: seq<nat>, perm: seq<nat>, i: nat)
    requires IsPermutation(perm) && IsArgSort(inv, perm) && i < |perm|
    ensures perm[inv[i]] >= i
  {
    if i > 0 {
      ArgSortAtLeast(inv, perm, i - 1);
      assert inv[i - 1] != inv[i];
    }
  }

  lemma {:induction false} ArgSortAtMost(inv: seq<nat>, perm: seq<nat>, i: nat)
    requires IsPermutation(perm) && IsArgSort(inv, perm) && i < |perm|
    ensures perm[inv[i]] <= i
    decreases |perm| - i
  {
    if i + 1 < |perm| {
      ArgSortAtMost(inv, perm, i + 1);
      assert inv[i] != inv[i + 1];
    }
  }

  lemma BlockSourceBack(p: nat, size: nat, perm: seq<nat>, inv: seq<nat>)
    requires p < size && IsIndexList(perm, size) && IsPermutation(perm) && IsArgSort(inv, perm)
    ensures BlockSource(BlockSource(p, size, inv), size, perm) == p
  {
    var m := |perm|;
    ArgSortInverts(inv, perm, p % m);
    UnAt(p / m, inv[p % m], m);
  }

  /** Indexing with the argsort undoes indexing with the permutation. */
  lemma PermuteBlocksBack<T>(s: seq<T>, perm: seq<nat>, inv: seq<nat>)
    requires IsPermutation(perm) && IsIndexList(perm, |s|) && IsArgSort(inv, perm)
    ensures PermuteBlocks(PermuteBlocks(s, perm), inv) == s
  {
    var t := PermuteBlocks(PermuteBlocks(s, perm), inv);
    forall p | 0 <= p < |s| ensures t[p] == s[p] { BlockSourceBack(p, |s|, perm, inv); }
    assert t == s;
  }
}
