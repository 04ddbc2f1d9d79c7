/** Finite real vectors as sequences: the handful of linear-algebra facts the rotation proofs use. */
module Vectors {
  import Reals

  function Add(u: seq<real>, v: seq<real>): seq<real>
    requires |u| == |v|
  {
    seq(|u|, i requires 0 <= i < |u| => u[i] + v[i])
  }

  function Sub(u: seq<real>, v: seq<real>): seq<real>
    requires |u| == |v|
  {
    seq(|u|, i requires 0 <= i < |u| => u[i] - v[i])
  }

  function Scale(c: real, u: seq<real>): seq<real> {
    seq(|u|, i requires 0 <= i < |u| => c * u[i])
  }

  /** Elementwise product. */
  function Mul(u: seq<real>, v: seq<real>): seq<real>
    requires |u| == |v|
  {
    seq(|u|, i requires 0 <= i < |u| => u[i] * v[i])
  }

  function Sum(u: seq<real>): real {
    if |u| == 0 then 0.0 else u[0] + Sum(u[1..])
  }

  function Dot(u: seq<real>, v: seq<real>): real
    requires |u| == |v|
  {
    Sum(Mul(u, v))
  }

  lemma DotStep(u: seq<real>, v: seq<real>)
    requires |u| == |v| > 0
    ensures Dot(u, v) == u[0] * v[0] + Dot(u[1..], v[1..])
  {
    var l, r := Mul(u, v)[1..], Mul(u[1..], v[1..]);
    forall i | 0 <= i < |l| ensures l[i] == r[i] {
      SameProduct(u[i + 1], u[1..][i], v[i + 1], v[1..][i]);
    }
    assert l == r;
  }

  function SqNorm(u: seq<real>): real {
    Dot(u, u)
  }

  function SqDist(u: seq<real>, v: seq<real>): real
    requires |u| == |v|
  {
    SqNorm(Sub(u, v))
  }

  /** Entries within bounds keep the squared norm within that of the bounds. */
  lemma {:induction false} SqNormBelow(u: seq<real>, v: seq<real>)
    requires |u| == |v| && forall i :: 0 <= i < |u| ==> -v[i] <= u[i] <= v[i]
    ensures SqNorm(u) <= SqNorm(v)
  {
    if |u| > 0 {
      SqNormBelow(u[1..], v[1..]);
      DotStep(u, u);
      DotStep(v, v);
      Reals.SquareBelow(u[0], v[0]);
    }
  }

  lemma {:induction false} DotConcat(u: seq<real>, v: seq<real>, x: seq<real>, y: seq<real>)
    requires |u| == |x| && |v| == |y|
    ensures Dot(u + v, x + y) == Dot(u, x) + Dot(v, y)
  {
    if |u| == 0 {
      assert u + v == v && x + y == y;
    } else {
      DotConcat(u[1..], v, x[1..], y);
      assert (u + v)[1..] == u[1..] + v && (x + y)[1..] == x[1..] + y;
      DotStep(u, x);
      DotStep(u + v, x + y);
    }
  }

  /** The parallelogram law behind every butterfly: sum and difference double the inner product. */
  lemma {:induction false} DotButterfly(a: seq<real>, b: seq<real>, x: seq<real>, y: seq<real>)
    requires |a| == |b| == |x| == |y|
    ensures Dot(Add(a, b), Add(x, y)) + Dot(Sub(a, b), Sub(x, y)) == 2.0 * Dot(a, x) + 2.0 * Dot(b, y)
  {
    if |a| > 0 {
      DotButterfly(a[1..], b[1..], x[1..], y[1..]);
      SumTails(a, b);
      SumTails(x, y);
      DotStep(a, x);
      DotStep(b, y);
      DotStep(Add(a, b), Add(x, y));
      DotStep(Sub(a, b), Sub(x, y));
      SameProduct(Add(a, b)[0], a[0] + b[0], Add(x, y)[0], x[0] + y[0]);
      SameProduct(Sub(a, b)[0], a[0] - b[0], Sub(x, y)[0], x[0] - y[0]);
      ButterflyTerm(a[0], b[0], x[0], y[0]);
    }
  }

  lemma SumTails(a: seq<real>, b: seq<real>)
    requires |a| == |b| > 0
    ensures Add(a, b)[1..] == Add(a[1..], b[1..]) && Sub(a, b)[1..] == Sub(a[1..], b[1..])
  {}

  lemma ButterflyTerm(a: real, b: real, x: real, y: real)
    ensures (a + b) * (x + y) + (a - b) * (x - y) == 2.0 * (a * x) + 2.0 * (b * y)
  {}

  lemma DotStepIs(x: seq<real>, y: seq<real>, a: real, b: real, rest: real)
    requires |x| == |y| > 0 && a == x[0] && b == y[0] && rest == Dot(x[1..], y[1..])
    ensures Dot(x, y) == a * b + rest
  {
    DotStep(x, y);
  }

  lemma {:induction false} DotScale(c: real, u: seq<real>, d: real, v: seq<real>, w: real)
    requires |u| == |v| && w == Dot(u, v)
    ensures Dot(Scale(c, u), Scale(d, v)) == (c * d) * w
  {
    if |u| > 0 {
      var t := Dot(u[1..], v[1..]);
      DotScale(c, u[1..], d, v[1..], t);
      var x, y := Scale(c, u), Scale(d, v);
      var a, b, rest := c * u[0], d * v[0], (c * d) * t;
      ScaleTail(c, u);
      ScaleTail(d, v);
      DotStepIs(u, v, u[0], v[0], t);
      DotStepIs(x, y, a, b, rest);
      ScaleTerm(c, u[0], d, v[0], t, w, a, b, rest);
    }
  }

  /** The inner product is linear on the right. */
  lemma {:induction false} DotSums(r: seq<real>, x: seq<real>, y: seq<real>)
    requires |r| == |x| == |y|
    ensures Dot(r, Add(x, y)) == Dot(r, x) + Dot(r, y)
    ensures Dot(r, Sub(x, y)) == Dot(r, x) - Dot(r, y)
  {
    if |r| > 0 {
      DotSums(r[1..], x[1..], y[1..]);
      SumTails(x, y);
      DotStep(r, x);
      DotStep(r, y);
      DotStep(r, Add(x, y));
      DotStep(r, Sub(x, y));
      Distribute(r[0], x[0], y[0]);
    }
  }

  lemma Distribute(c: real, v: real, w: real)
    ensures c * (v + w) == c * v + c * w && c * (v - w) == c * v - c * w
  {}

  lemma {:induction false} DotTimes(r: seq<real>, c: real, x: seq<real>, w: real)
    requires |r| == |x| && w == Dot(r, x)
    ensures Dot(r, Scale(c, x)) == c * w
  {
    if |r| > 0 {
      var t := Dot(r[1..], x[1..]);
      DotTimes(r[1..], c, x[1..], t);
      ScaleTail(c, x);
      DotStep(r, x);
      DotStep(r, Scale(c, x));
      TimesTerm(c, r[0], x[0], t, w);
    }
  }

  lemma TimesTerm(c: real, r: real, x: real, t: real, w: real)
    requires w == r * x + t
    ensures r * (c * x) + c * t == c * w
  {
    assert r * (c * x) == c * (r * x);
  }

  lemma {:induction false} DotNegate(r: seq<real>, x: seq<real>)
    requires |r| == |x|
    ensures Dot(Scale(-1.0, r), x) == -Dot(r, x)
  {
    if |r| > 0 {
      DotNegate(r[1..], x[1..]);
      ScaleTail(-1.0, r);
      DotStep(r, x);
      DotStep(Scale(-1.0, r), x);
    }
  }

  /** Equal factors give equal products; spelled out where the solver does not substitute. */
  lemma SameProduct(a: real, x: real, b: real, y: real)
    requires a == x && b == y
    ensures a * b == x * y
  {}

  lemma ScaleTail(c: real, u: seq<real>)
    requires |u| > 0
    ensures Scale(c, u)[1..] == Scale(c, u[1..])
  {
    forall i | 0 <= i < |u| - 1 ensures Scale(c, u)[1..][i] == Scale(c, u[1..])[i] {
      assert u[1..][i] == u[i + 1];
    }
  }

  lemma ScaleTerm(c: real, x: real, d: real, y: real, t: real, w: real, a: real, b: real, rest: real)
    requires w == x * y + t && a == c * x && b == d * y && rest == (c * d) * t
    ensures a * b + rest == (c * d) * w
  {
    assert a * b == (c * d) * (x * y);
  }

  predicate IsSigns(s: seq<real>) {
    forall i :: 0 <= i < |s| ==> s[i] == 1.0 || s[i] == -1.0
  }

  /** Flipping signs the same way on both sides keeps the inner product. */
  lemma DotSigns(s: seq<real>, u: seq<real>, v: seq<real>)
    requires |s| == |u| == |v| && IsSigns(s)
    ensures Dot(Mul(s, u), Mul(s, v)) == Dot(u, v)
  {
    var l, r := Mul(Mul(s, u), Mul(s, v)), Mul(u, v);
    forall i | 0 <= i < |l| ensures l[i] == r[i] {
      SameProduct(Mul(s, u)[i], s[i] * u[i], Mul(s, v)[i], s[i] * v[i]);
      if s[i] == 1.0 { SignTerm(1.0, s[i], u[i], v[i]); } else { SignTerm(-1.0, s[i], u[i], v[i]); }
    }
    assert l == r;
  }

  lemma SignTerm(c: real, s: real, x: real, y: real)
    requires c == s && (c == 1.0 || c == -1.0)
    ensures (s * x) * (s * y) == x * y
    ensures s * (s * x) == x
  {
    if c == 1.0 { assert s * x == x; } else { assert s * x == -x; }
  }

  /** No coordinate exceeds the norm. */
  lemma {:induction false} CoordinateBound(u: seq<real>, i: nat)
    requires i < |u|
    ensures 0.0 <= u[i] * u[i] <= SqNorm(u)
  {
    DotStep(u, u);
    SqNormNonNegative(u[1..]);
    if i > 0 { CoordinateBound(u[1..], i - 1); }
  }

  lemma {:induction false} SqNormNonNegative(u: seq<real>)
    ensures SqNorm(u) >= 0.0
  {
    if |u| > 0 {
      DotStep(u, u);
      SqNormNonNegative(u[1..]);
    }
  }
}
