/** The in-place fast Walsh-Hadamard transform of the weight quantiser and of its decoder,
    and the lane-exchange variant with the CUDA sign convention. */
module Fwht {
  import opened Bits
  import opened Vectors
  import opened Walsh

  /** h divides n, by repeated removal. */
  predicate Tiles(n: nat, h: nat)
    requires h > 0
  {
    n == 0 || (n >= h && Tiles(n - h, h))
  }

  lemma {:induction false} TilesAdd(m: nat, n: nat, h: nat)
    requires h > 0 && Tiles(m, h) && Tiles(n, h)
    ensures Tiles(m + n, h)
  {
    if m > 0 { TilesAdd(m - h, n, h); }
  }

  lemma {:induction false} PowersTile(s: nat, t: nat)
    requires s <= t
    ensures Tiles(Pow2(t), Pow2(s)) && Pow2(s) <= Pow2(t)
  {
    if s < t {
      PowersTile(s, t - 1);
      TilesAdd(Pow2(t - 1), Pow2(t - 1), Pow2(s));
    } else {
      assert Tiles(Pow2(t) - Pow2(s), Pow2(s));
    }
  }

  /** Which difference the upper half of a butterfly receives: lower - upper as in the quantiser,
      or upper - lower as the CUDA lanes computed it. */
  datatype Convention = Faithful | SignBug

  /** u with element i multiplied by (-1)^popcount(i). */
  function Flip(u: seq<real>): seq<real> {
    seq(|u|, i requires 0 <= i < |u| => Parity(i) * u[i])
  }

  function Halves(c: Convention, lo: seq<real>, hi: seq<real>): seq<real>
    requires |lo| == |hi|
  {
    if c.Faithful? then Butterfly(lo, hi) else Add(lo, hi) + Sub(hi, lo)
  }

  /** What a convention computes on a whole block. */
  function Transform(c: Convention, x: seq<real>): (y: seq<real>)
    ensures |y| == |x|
  {
    if c.Faithful? then Wht(x) else Flip(Wht(x))
  }

  /** The signs (-1)^popcount(i). */
  function Signs(n: nat): seq<real> {
    seq(n, i requires 0 <= i < n => Parity(i))
  }

  lemma SignsDouble(s: nat)
    ensures Signs(Pow2(s) + Pow2(s)) == Signs(Pow2(s)) + Scale(-1.0, Signs(Pow2(s)))
  {
    var h := Pow2(s);
    var l, r := Signs(h + h), Signs(h) + Scale(-1.0, Signs(h));
    forall i | 0 <= i < h + h ensures l[i] == r[i] {
      if i >= h { ParityTop(i - h, s); }
    }
    assert l == r;
  }

  lemma SignedButterfly(p: seq<real>, u: seq<real>, v: seq<real>)
    requires |p| == |u| == |v|
    ensures Mul(p + Scale(-1.0, p), Butterfly(u, v)) == Add(Mul(p, u), Mul(p, v)) + Sub(Mul(p, v), Mul(p, u))
  {
    var h := |p|;
    var l, r := Mul(p + Scale(-1.0, p), Butterfly(u, v)), Add(Mul(p, u), Mul(p, v)) + Sub(Mul(p, v), Mul(p, u));
    forall i | 0 <= i < h + h ensures l[i] == r[i] {
      var j := if i < h then i else i - h;
      SignedSum(p[j], u[j], v[j]);
    }
    assert l == r;
  }

  lemma SignedSum(p: real, u: real, v: real)
    ensures p * (u + v) == p * u + p * v && (-1.0 * p) * (u - v) == p * v - p * u
  {}

  lemma FlipIsMul(u: seq<real>)
    ensures Flip(u) == Mul(Signs(|u|), u)
  {}

  /** Sign matrices commute with the later butterflies, up to the sign of the upper half. */
  lemma FlipButterfly(u: seq<real>, v: seq<real>, s: nat)
    requires |u| == |v| == Pow2(s)
    ensures Flip(Butterfly(u, v)) == Halves(SignBug, Flip(u), Flip(v))
  {
    FlipIsMul(u);
    FlipIsMul(v);
    FlipIsMul(Butterfly(u, v));
    SignsDouble(s);
    SignedButterfly(Signs(|u|), u, v);
  }

  lemma TransformConcat(c: Convention, lo: seq<real>, hi: seq<real>, s: nat)
    requires |lo| == |hi| == Pow2(s)
    ensures Transform(c, lo + hi) == Halves(c, Transform(c, lo), Transform(c, hi))
  {
    WhtConcat(lo, hi, s);
    if c.SignBug? { FlipButterfly(Wht(lo), Wht(hi), s); }
  }

  /** The transform of every block of h consecutive elements. */
  function Blocks(c: Convention, x: seq<real>, h: nat): seq<real>
    requires h > 0
  {
    if |x| < h then x else Transform(c, x[..h]) + Blocks(c, x[h..], h)
  }

  /** One pass of the outer loop: a butterfly on every block of 2h consecutive elements. */
  function Stage(c: Convention, x: seq<real>, h: nat): (y: seq<real>)
    requires h > 0
    ensures |y| == |x|
  {
    if |x| < 2 * h then x else Halves(c, x[..h], x[h..2 * h]) + Stage(c, x[2 * h..], h)
  }

  lemma {:induction false} StageMergesBlocks(c: Convention, x: seq<real>, s: nat)
    requires Tiles(|x|, 2 * Pow2(s))
    ensures Stage(c, Blocks(c, x, Pow2(s)), Pow2(s)) == Blocks(c, x, 2 * Pow2(s))
    decreases |x|
  {
    var h := Pow2(s);
    if |x| > 0 {
      var lo, hi, rest := x[..h], x[h..2 * h], x[2 * h..];
      TwoBlocks(c, x, lo, hi, rest, h);
      StageUnfold(c, Transform(c, lo), Transform(c, hi), Blocks(c, rest, h), h);
      TransformConcat(c, lo, hi, s);
      StageMergesBlocks(c, rest, s);
    }
  }

  /** The blocks of h, and of 2h, at the front of a longer list. */
  lemma TwoBlocks(c: Convention, x: seq<real>, lo: seq<real>, hi: seq<real>, rest: seq<real>, h: nat)
    requires 0 < 2 * h <= |x| && lo == x[..h] && hi == x[h..2 * h] && rest == x[2 * h..]
    ensures Blocks(c, x, h) == Transform(c, lo) + (Transform(c, hi) + Blocks(c, rest, h))
    ensures Blocks(c, x, 2 * h) == Transform(c, lo + hi) + Blocks(c, rest, 2 * h)
  {
    var tail := x[h..];
    assert tail[..h] == hi && tail[h..] == rest && x[..2 * h] == lo + hi;
    assert Blocks(c, tail, h) == Transform(c, hi) + Blocks(c, rest, h);
  }

  lemma StageUnfold(c: Convention, lo: seq<real>, hi: seq<real>, rest: seq<real>, h: nat)
    requires h > 0 && |lo| == |hi| == h
    ensures Stage(c, lo + (hi + rest), h) == Halves(c, lo, hi) + Stage(c, rest, h)
  {
    var x := lo + (hi + rest);
    assert x[..h] == lo && x[h..2 * h] == hi && x[2 * h..] == rest;
  }

  lemma {:induction false} BlocksOfOne(c: Convention, x: seq<real>)
    ensures Blocks(c, x, 1) == x
  {
    if |x| > 0 {
      WhtSingleton(x[..1]);
      assert Flip(x[..1]) == x[..1];
      BlocksOfOne(c, x[1..]);
    }
  }

  /** The size guard `n & (n - 1) == 0` of the transform; 0 & -1 is 0. */
  predicate SizeGuard(n: nat) {
    n == 0 || And(n, n - 1) == 0
  }

  predicate IsRootOf(root: real, n: nat) {
    root * root == n as real && (n > 0 ==> root > 0.0) && root >= 0.0
  }

  function Normalise(x: seq<real>, root: real): (y: seq<real>)
    requires |x| > 0 ==> root > 0.0
  {
    seq(|x|, i requires 0 <= i < |x| => x[i] / root)
  }

  /** The normalised transform: Hadamard rows times x, over the square root of the length. */
  function Rotate(x: seq<real>, root: real): (y: seq<real>)
    requires IsRootOf(root, |x|)
    ensures |y| == |x|
  {
    Normalise(Wht(x), root)
  }

  /** Element k after one butterfly on the block of 2h elements at i. */
  function Crossed(x: seq<real>, i: nat, h: nat, k: nat): real
    requires i + 2 * h <= |x| && k < |x|
  {
    if i <= k < i + h then x[k] + x[k + h] else if i + h <= k < i + 2 * h then x[k - h] - x[k] else x[k]
  }

  /** The innermost loop: sums into the lower half of a block, differences into its upper half. */
  method ButterflyBlock(a: array<real>, i: nat, h: nat)
    requires i + 2 * h <= a.Length
    modifies a
    ensures forall k :: 0 <= k < a.Length ==> a[k] == Crossed(old(a[..]), i, h, k)
  {
    ghost var x := a[..];
    var j := i;
    while j < i + h
      invariant i <= j <= i + h
      invariant forall k :: 0 <= k < a.Length ==>
        a[k] == if i <= k < j || i + h <= k < j + h then Crossed(x, i, h, k) else x[k]
    {
      var u, v := a[j], a[j + h];
      a[j] := u + v;
      a[j + h] := u - v;
      j := j + 1;
    }
  }

  /** A pass crosses every element within its own block. */
  lemma {:induction false} StageAt(x: seq<real>, i: nat, h: nat, k: nat)
    requires h > 0 && Tiles(i, 2 * h) && i <= k < i + 2 * h <= |x|
    ensures Stage(Faithful, x, h)[k] == Crossed(x, i, h, k)
    decreases i
  {
    if i == 0 {
      StageFirst(x, h, k);
    } else {
      StageAt(x[2 * h..], i - 2 * h, h, k - 2 * h);
      StageLater(Faithful, x, h, k);
      CrossedLater(x, i, h, k);
    }
  }

  lemma StageLater(c: Convention, x: seq<real>, h: nat, k: nat)
    requires h > 0 && 2 * h <= k < |x|
    ensures Stage(c, x, h)[k] == Stage(c, x[2 * h..], h)[k - 2 * h]
  {
    var first, rest := Halves(c, x[..h], x[h..2 * h]), Stage(c, x[2 * h..], h);
    assert Stage(c, x, h) == first + rest && |first| == 2 * h;
  }

  lemma CrossedLater(x: seq<real>, i: nat, h: nat, k: nat)
    requires h > 0 && 2 * h <= i <= k < i + 2 * h <= |x|
    ensures Crossed(x, i, h, k) == Crossed(x[2 * h..], i - 2 * h, h, k - 2 * h)
  {}

  lemma StageFirst(x: seq<real>, h: nat, k: nat)
    requires h > 0 && k < 2 * h <= |x|
    ensures Stage(Faithful, x, h)[k] == Crossed(x, 0, h, k)
  {
    var first := Butterfly(x[..h], x[h..2 * h]);
    assert Stage(Faithful, x, h)[k] == first[k];
  }

  lemma StageCells(x: seq<real>, i: nat, h: nat)
    requires h > 0 && Tiles(i, 2 * h) && i + 2 * h <= |x|
    ensures forall k :: i <= k < i + 2 * h ==> Stage(Faithful, x, h)[k] == Crossed(x, i, h, k)
  {
    forall k | i <= k < i + 2 * h ensures Stage(Faithful, x, h)[k] == Crossed(x, i, h, k) { StageAt(x, i, h, k); }
  }

  /** The pass has done the elements below i. */
  predicate UpTo(now: seq<real>, after: seq<real>, before: seq<real>, i: nat) {
    |now| == |after| == |before| && forall k :: 0 <= k < |now| ==> now[k] == if k < i then after[k] else before[k]
  }

  lemma PassAdvances(x: seq<real>, was: seq<real>, now: seq<real>, i: nat, h: nat)
    requires h > 0 && Tiles(i, 2 * h) && i + 2 * h <= |x| == |now|
    requires UpTo(was, Stage(Faithful, x, h), x, i)
    requires forall k :: 0 <= k < |now| ==> now[k] == Crossed(was, i, h, k)
    ensures UpTo(now, Stage(Faithful, x, h), x, i + 2 * h)
  {
    StageCells(x, i, h);
  }

  method ButterflyPass(a: array<real>, h: nat)
    requires h > 0 && Tiles(a.Length, 2 * h)
    modifies a
    ensures a[..] == Stage(Faithful, old(a[..]), h)
  {
    ghost var x := a[..];
    ghost var y := Stage(Faithful, x, h);
    var i := 0;
    while i < a.Length
      invariant i <= a.Length && Tiles(i, 2 * h) && Tiles(a.Length - i, 2 * h)
      invariant UpTo(a[..], y, x, i)
    {
      ghost var was := a[..];
      ButterflyBlock(a, i, h);
      PassAdvances(x, was, a[..], i, h);
      TilesAdd(i, 2 * h, 2 * h);
      i := i + 2 * h;
    }
    assert a[..] == y;
  }

  /** `x /= math.sqrt(n)`. */
  method DivideAll(a: array<real>, root: real)
    requires a.Length > 0 ==> root > 0.0
    modifies a
    ensures a[..] == Normalise(old(a[..]), root)
  {
    forall i | 0 <= i < a.Length { a[i] := a[i] / root; }
  }

  /** A pass at h = 2^s, below the length 2^t, merges neighbouring blocks. */
  lemma PassDoubles(c: Convention, x: seq<real>, s: nat, t: nat)
    requires |x| == Pow2(t) && s < t
    ensures Tiles(|x|, 2 * Pow2(s)) && 2 * Pow2(s) <= |x| && Pow2(s + 1) == 2 * Pow2(s)
    ensures Stage(c, Blocks(c, x, Pow2(s)), Pow2(s)) == Blocks(c, x, Pow2(s + 1))
  {
    PowersTile(s + 1, t);
    StageMergesBlocks(c, x, s);
  }

  lemma StrictPowers(s: nat, t: nat)
    requires s <= t
    ensures Pow2(s) < Pow2(t) <==> s < t
  {
    if s < t { PowersTile(s + 1, t); }
  }

  lemma WholeBlock(c: Convention, x: seq<real>)
    ensures |x| > 0 ==> Blocks(c, x, |x|) == Transform(c, x)
    ensures |x| == 0 ==> Blocks(c, x, 1) == Transform(c, x)
  {
    if |x| > 0 { assert x[..|x|] == x && x[|x|..] == []; }
  }

  /** When the loop ends, one block is left. */
  lemma LastBlock(c: Convention, x: seq<real>, h: nat, s: nat, t: nat)
    requires h == Pow2(s) && h >= |x| && (|x| > 0 ==> s <= t && |x| == Pow2(t)) && (|x| == 0 ==> h == 1)
    ensures Blocks(c, x, h) == Transform(c, x)
  {
    if |x| > 0 { StrictPowers(s, t); }
    WholeBlock(c, x);
  }

  /** The exponent of a length that passes the guard. */
  lemma GuardedExponent(n: nat) returns (t: nat)
    requires SizeGuard(n)
    ensures n > 0 ==> n == Pow2(t)
  {
    t := 0;
    if n > 0 {
      PowerOfTwoGuard(n);
      t := IsPow2Exponent(n);
    }
  }

  method FwhtPasses(a: array<real>)
    requires SizeGuard(a.Length)
    modifies a
    ensures a[..] == Wht(old(a[..]))
  {
    var n := a.Length;
    ghost var x, s := a[..], 0;
    ghost var t := GuardedExponent(n);
    BlocksOfOne(Faithful, x);
    var h := 1;
    while h < n
      invariant h == Pow2(s) && (n > 0 ==> s <= t)
      invariant n == 0 ==> h == 1
      invariant a[..] == Blocks(Faithful, x, h)
      decreases n - h
    {
      StrictPowers(s, t);
      PassDoubles(Faithful, x, s, t);
      ButterflyPass(a, h);
      h, s := h * 2, s + 1;
    }
    LastBlock(Faithful, x, h, s, t);
  }

  method FwhtNumpy(a: array<real>, root: real)
    requires SizeGuard(a.Length) && IsRootOf(root, a.Length)
    modifies a
    ensures a[..] == Rotate(old(a[..]), root)
  {
    FwhtPasses(a);
    DivideAll(a, root);
  }

  // ----- the lane-exchange form -----

  /** Bit s of a lane number, and the lane that differs in that bit only. */
  lemma {:induction false} LaneBitClear(t: nat, s: nat)
    requires t < Pow2(s)
    ensures And(t, Pow2(s)) == 0 && Xor(t, Pow2(s)) == t + Pow2(s)
  {
    if s > 0 { LaneBitClear(t / 2, s - 1); }
  }

  lemma {:induction false} LaneBitSet(t: nat, s: nat)
    requires Pow2(s) <= t < 2 * Pow2(s)
    ensures And(t, Pow2(s)) == Pow2(s) && Xor(t, Pow2(s)) == t - Pow2(s)
  {
    if s > 0 {
      LaneBitSet(t / 2, s - 1);
    } else {
      assert And(0, 0) == 0 && Xor(0, 0) == 0;
    }
  }

  lemma {:induction false} LaneBitAbove(t: nat, s: nat)
    requires t >= 2 * Pow2(s)
    ensures And(t, Pow2(s)) == And(t - 2 * Pow2(s), Pow2(s))
    ensures Xor(t, Pow2(s)) == Xor(t - 2 * Pow2(s), Pow2(s)) + 2 * Pow2(s)
  {
    if s == 0 {
      assert And(t / 2, 0) == 0 && Xor(t / 2, 0) == t / 2 && (t - 2) / 2 == t / 2 - 1;
    } else {
      LaneBitAbove(t / 2, s - 1);
      LaneBitDouble(t, t - 2 * Pow2(s), Pow2(s - 1));
    }
  }

  lemma LaneBitDouble(t: nat, u: nat, g: nat)
    requires g > 0 && t == u + 4 * g
    requires And(t / 2, g) == And(t / 2 - 2 * g, g) && Xor(t / 2, g) == Xor(t / 2 - 2 * g, g) + 2 * g
    ensures And(t, 2 * g) == And(u, 2 * g) && Xor(t, 2 * g) == Xor(u, 2 * g) + 4 * g
  {
    assert u / 2 == t / 2 - 2 * g && u % 2 == t % 2;
  }

  /** The value a lane holds after exchanging with its partner. */
  function Lane(x: seq<real>, tid: nat, stride: nat): real
    requires tid < |x| && Xor(tid, stride) < |x|
  {
    if And(tid, stride) != 0 then x[tid] - x[Xor(tid, stride)] else x[tid] + x[Xor(tid, stride)]
  }

  lemma {:induction false} LaneIsStage(x: seq<real>, tid: nat, s: nat)
    requires Tiles(|x|, 2 * Pow2(s)) && tid < |x|
    ensures Xor(tid, Pow2(s)) < |x|
    ensures Lane(x, tid, Pow2(s)) == Stage(SignBug, x, Pow2(s))[tid]
    decreases |x|
  {
    var h := Pow2(s);
    if tid < 2 * h {
      LaneInFirst(x, tid, s);
    } else {
      LaneIsStage(x[2 * h..], tid - 2 * h, s);
      LaneShift(x, tid, s);
      StageLater(SignBug, x, h, tid);
    }
  }

  lemma LaneInFirst(x: seq<real>, tid: nat, s: nat)
    requires 2 * Pow2(s) <= |x| && tid < 2 * Pow2(s)
    ensures Xor(tid, Pow2(s)) < |x| && Lane(x, tid, Pow2(s)) == Stage(SignBug, x, Pow2(s))[tid]
  {
    var h := Pow2(s);
    LaneFirst(x, tid, h);
    if tid < h {
      LaneBitClear(tid, s);
      LaneAdds(x, tid, h, tid + h, Stage(SignBug, x, h)[tid]);
    } else {
      LaneBitSet(tid, s);
      LaneSubtracts(x, tid, h, tid - h, Stage(SignBug, x, h)[tid]);
    }
  }

  lemma LaneAdds(x: seq<real>, tid: nat, stride: nat, partner: nat, v: real)
    requires tid < |x| && partner == Xor(tid, stride) < |x| && And(tid, stride) == 0 && v == x[tid] + x[partner]
    ensures Lane(x, tid, stride) == v
  {}

  lemma LaneSubtracts(x: seq<real>, tid: nat, stride: nat, partner: nat, v: real)
    requires tid < |x| && partner == Xor(tid, stride) < |x| && And(tid, stride) != 0 && v == x[tid] - x[partner]
    ensures Lane(x, tid, stride) == v
  {}

  lemma LaneFirst(x: seq<real>, tid: nat, h: nat)
    requires h > 0 && tid < 2 * h <= |x|
    ensures Stage(SignBug, x, h)[tid] == if tid < h then x[tid] + x[tid + h] else x[tid] - x[tid - h]
  {
    var lo, hi := x[..h], x[h..2 * h];
    assert Stage(SignBug, x, h)[tid] == (Add(lo, hi) + Sub(hi, lo))[tid];
  }

  lemma LaneShift(x: seq<real>, tid: nat, s: nat)
    requires 2 * Pow2(s) <= tid < |x| && Xor(tid - 2 * Pow2(s), Pow2(s)) < |x| - 2 * Pow2(s)
    ensures Xor(tid, Pow2(s)) < |x|
    ensures Lane(x, tid, Pow2(s)) == Lane(x[2 * Pow2(s)..], tid - 2 * Pow2(s), Pow2(s))
  {
    LaneBitAbove(tid, s);
  }

  method LanePass(x: seq<real>, stride: nat, ghost s: nat) returns (y: seq<real>)
    requires stride == Pow2(s) && Tiles(|x|, 2 * stride)
    ensures y == Stage(SignBug, x, stride)
  {
    y := x;
    for tid := 0 to |x|
      invariant |y| == |x|
      invariant forall k :: 0 <= k < tid ==> y[k] == Stage(SignBug, x, stride)[k]
    {
      LaneIsStage(x, tid, s);
      var pair := Xor(tid, stride);
      y := y[tid := if And(tid, stride) != 0 then x[tid] - x[pair] else x[tid] + x[pair]];
    }
  }

  method LanePasses(input: seq<real>) returns (x: seq<real>)
    requires SizeGuard(|input|)
    ensures x == Flip(Wht(input))
  {
    var n := |input|;
    ghost var s := 0;
    ghost var t := GuardedExponent(n);
    x := input;
    BlocksOfOne(SignBug, input);
    var stride := 1;
    while stride < n
      invariant stride == Pow2(s) && (n > 0 ==> s <= t)
      invariant n == 0 ==> stride == 1
      invariant x == Blocks(SignBug, input, stride)
      decreases n - stride
    {
      StrictPowers(s, t);
      PassDoubles(SignBug, input, s, t);
      BlocksLength(SignBug, input, stride);
      x := LanePass(x, stride, s);
      stride, s := stride * 2, s + 1;
    }
    LastBlock(SignBug, input, stride, s, t);
  }

  lemma {:induction false} BlocksLength(c: Convention, x: seq<real>, h: nat)
    requires h > 0
    ensures |Blocks(c, x, h)| == |x|
    decreases |x|
  {
    if |x| >= h { BlocksLength(c, x[h..], h); }
  }

  /** Every lane exchanges with the lane whose number differs in one bit; the stride doubles. */
  method LaneExchangeFwht(input: seq<real>, root: real) returns (x: seq<real>)
    requires SizeGuard(|input|) && IsRootOf(root, |input|)
    ensures x == Normalise(Flip(Wht(input)), root)
  {
    x := LanePasses(input);
    x := Normalise(x, root);
  }
}
