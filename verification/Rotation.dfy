/** The normalised transform is its own inverse and an isometry; the CUDA lane convention differs
    from it by exactly one sign per index. */
module Rotation {
  import opened Bits
  import opened Vectors
  import opened Walsh
  import opened Fwht
  import Reals

  lemma Inverse(root: real, n: real)
    requires root > 0.0 && root * root == n
    ensures (1.0 / root) * (1.0 / root) * n == 1.0
  {
    assert (1.0 / root) * root == 1.0;
    assert (1.0 / root) * (1.0 / root) * (root * root) == ((1.0 / root) * root) * ((1.0 / root) * root);
  }

  lemma NormaliseIsScale(x: seq<real>, root: real)
    requires root > 0.0
    ensures Normalise(x, root) == Scale(1.0 / root, x)
  {
    forall i | 0 <= i < |x| ensures Normalise(x, root)[i] == Scale(1.0 / root, x)[i] {
      DivideIsTimes(x[i], root);
    }
  }

  lemma DivideIsTimes(a: real, root: real)
    requires root > 0.0
    ensures a / root == (1.0 / root) * a
  {}

  lemma ScaleInverse(c: real, n: real, x: seq<real>)
    requires c * c * n == 1.0
    ensures Scale(c, Scale(c, Scale(n, x))) == x
  {
    forall i | 0 <= i < |x| ensures Scale(c, Scale(c, Scale(n, x)))[i] == x[i] {
      ThreeFactors(c, n, x[i], Scale(n, x)[i], Scale(c, Scale(n, x))[i]);
    }
  }

  lemma ThreeFactors(c: real, n: real, a: real, p: real, q: real)
    requires c * c * n == 1.0 && p == n * a && q == c * p
    ensures c * q == a
  {
    assert c * (c * (n * a)) == (c * c * n) * a;
  }

  lemma EmptyOrPower(n: nat) returns (s: nat)
    requires SizeGuard(n) && n > 0
    ensures n == Pow2(s)
  {
    PowerOfTwoGuard(n);
    s := IsPow2Exponent(n);
  }

  /** Applying the transform twice gives the vector back. */
  lemma RotateTwice(x: seq<real>, root: real)
    requires SizeGuard(|x|) && IsRootOf(root, |x|)
    ensures Rotate(Rotate(x, root), root) == x
  {
    if |x| > 0 {
      var s := EmptyOrPower(|x|);
      var c, n := 1.0 / root, |x| as real;
      NormaliseIsScale(Wht(x), root);
      NormaliseIsScale(Wht(Scale(c, Wht(x))), root);
      TwiceScaled(x, c, s);
      Inverse(root, n);
      ScaleInverse(c, n, x);
    }
  }

  lemma TwiceScaled(x: seq<real>, c: real, s: nat)
    requires |x| == Pow2(s)
    ensures Wht(Scale(c, Wht(x))) == Scale(c, Scale(|x| as real, x))
  {
    WhtLinear(Wht(x), Wht(x), c);
    WhtTwice(x, s);
  }

  /** The transform preserves every inner product. */
  lemma RotateIsometry(x: seq<real>, y: seq<real>, root: real)
    requires |x| == |y| && SizeGuard(|x|) && IsRootOf(root, |x|)
    ensures Dot(Rotate(x, root), Rotate(y, root)) == Dot(x, y)
  {
    if |x| > 0 {
      var s := EmptyOrPower(|x|);
      var c, n := 1.0 / root, |x| as real;
      NormaliseIsScale(Wht(x), root);
      NormaliseIsScale(Wht(y), root);
      Inverse(root, n);
      ScaledDot(x, y, c, n, s, Dot(x, y));
    }
  }

  lemma ScaledDot(x: seq<real>, y: seq<real>, c: real, n: real, s: nat, d: real)
    requires |x| == |y| == Pow2(s) && n == |x| as real && (c * c) * n == 1.0 && d == Dot(x, y)
    ensures Dot(Scale(c, Wht(x)), Scale(c, Wht(y))) == d
  {
    var w := Dot(Wht(x), Wht(y));
    DotScale(c, Wht(x), c, Wht(y), w);
    WhtParseval(x, y, s);
    Cancel(c * c, n, d, w);
  }

  lemma Cancel(k: real, n: real, d: real, w: real)
    requires k * n == 1.0 && w == n * d
    ensures k * w == d
  {
    assert k * (n * d) == (k * n) * d;
  }

  lemma RotateSub(x: seq<real>, y: seq<real>, root: real)
    requires |x| == |y| && IsRootOf(root, |x|)
    ensures Rotate(Sub(x, y), root) == Sub(Rotate(x, root), Rotate(y, root))
  {
    WhtLinear(x, y, 1.0);
    var l, r := Rotate(Sub(x, y), root), Sub(Rotate(x, root), Rotate(y, root));
    forall i | 0 <= i < |l| ensures l[i] == r[i] {
      DivideSub(Wht(x)[i], Wht(y)[i], root);
    }
  }

  lemma DivideSub(a: real, b: real, root: real)
    requires root > 0.0
    ensures (a - b) / root == a / root - b / root
  {}

  lemma RotateDistance(x: seq<real>, y: seq<real>, root: real)
    requires |x| == |y| && SizeGuard(|x|) && IsRootOf(root, |x|)
    ensures SqDist(Rotate(x, root), Rotate(y, root)) == SqDist(x, y)
  {
    RotateSub(x, y, root);
    RotateIsometry(Sub(x, y), Sub(x, y), root);
  }

  /** Element i of the normalised transform is the Hadamard row sum over the square root of n. */
  lemma RotateAt(x: seq<real>, root: real, i: nat)
    requires i < |x| && IsRootOf(root, |x|)
    ensures Rotate(x, root)[i] * root == Coefficient(x, i)
  {
    assert Rotate(x, root)[i] == Coefficient(x, i) / root;
  }

  /** The lane convention `upper - lower` returns (-1)^popcount(i) times the faithful element i. */
  lemma SignBugAt(x: seq<real>, root: real, i: nat)
    requires i < |x| && IsRootOf(root, |x|)
    ensures Normalise(Flip(Wht(x)), root)[i] == Parity(i) * Rotate(x, root)[i]
  {
    ParityOver(Parity(i), Wht(x)[i], root, Flip(Wht(x))[i], Rotate(x, root)[i]);
  }

  lemma ParityOver(p: real, w: real, root: real, q: real, r: real)
    requires root > 0.0 && q == p * w && r == w / root
    ensures q / root == p * r
  {}

  // ----- the sign bug as a reversal -----

  /** x back to front. */
  function Rev(x: seq<real>): (r: seq<real>)
    ensures |r| == |x|
  {
    seq(|x|, i requires 0 <= i < |x| => x[|x| - 1 - i])
  }

  lemma RevConcat(lo: seq<real>, hi: seq<real>)
    ensures Rev(lo + hi) == Rev(hi) + Rev(lo)
  {}

  lemma RevScale(c: real, x: seq<real>)
    ensures Rev(Scale(c, x)) == Scale(c, Rev(x))
  {
    var l, r := Rev(Scale(c, x)), Scale(c, Rev(x));
    forall i | 0 <= i < |x| ensures l[i] == r[i] { SameProduct(c, c, x[|x| - 1 - i], Rev(x)[i]); }
    assert l == r;
  }

  lemma AddSymmetric(u: seq<real>, v: seq<real>)
    requires |u| == |v|
    ensures Add(u, v) == Add(v, u)
  {}

  /** The parity signs on the outputs amount to reversing the inputs. */
  lemma {:induction false} FlipIsReversal(x: seq<real>, s: nat)
    requires |x| == Pow2(s)
    ensures Flip(Wht(x)) == Wht(Rev(x))
  {
    if s == 0 {
      WhtSingleton(x);
      WhtSingleton(Rev(x));
      assert Flip(x) == x == Rev(x);
    } else {
      var h := Pow2(s - 1);
      var lo, hi := x[..h], x[h..];
      FlipIsReversal(lo, s - 1);
      FlipIsReversal(hi, s - 1);
      ReversalStep(lo, hi, s - 1);
      assert x == lo + hi;
    }
  }

  lemma ReversalStep(lo: seq<real>, hi: seq<real>, s: nat)
    requires |lo| == |hi| == Pow2(s)
    requires Flip(Wht(lo)) == Wht(Rev(lo)) && Flip(Wht(hi)) == Wht(Rev(hi))
    ensures Flip(Wht(lo + hi)) == Wht(Rev(lo + hi))
  {
    WhtConcat(lo, hi, s);
    FlipButterfly(Wht(lo), Wht(hi), s);
    RevConcat(lo, hi);
    WhtConcat(Rev(hi), Rev(lo), s);
    AddSymmetric(Wht(Rev(lo)), Wht(Rev(hi)));
  }

  lemma ScaleInjective(c: real, x: seq<real>, y: seq<real>)
    requires c != 0.0 && |x| == |y| && Scale(c, x) == Scale(c, y)
    ensures x == y
  {
    forall i | 0 <= i < |x| ensures x[i] == y[i] {
      assert Scale(c, x)[i] == Scale(c, y)[i];
      Reals.SameFactor(x[i], y[i], c);
    }
  }

  /** The lane convention on x is the faithful transform of x reversed. */
  lemma BugReverses(x: seq<real>, root: real)
    requires SizeGuard(|x|) && IsRootOf(root, |x|)
    ensures Normalise(Flip(Wht(x)), root) == Rotate(Rev(x), root)
  {
    if |x| > 0 {
      var s := EmptyOrPower(|x|);
      FlipIsReversal(x, s);
    }
  }

  lemma RotateInjective(x: seq<real>, y: seq<real>, root: real)
    requires |x| == |y| && SizeGuard(|x|) && IsRootOf(root, |x|) && Rotate(x, root) == Rotate(y, root)
    ensures x == y
  {
    RotateTwice(x, root);
    RotateTwice(y, root);
  }

  /** The sign of an index, bit by bit. */
  lemma ParityLaw(i: nat)
    ensures Parity(0) == 1.0 && Parity(2 * i) == Parity(i) && Parity(2 * i + 1) == -Parity(i)
  {
    assert (2 * i) / 2 == i && (2 * i + 1) / 2 == i;
  }

  lemma RevLaw(x: seq<real>, i: nat)
    requires i < |x|
    ensures |Rev(x)| == |x| && Rev(x)[i] == x[|x| - 1 - i]
  {}
}
