/** The Walsh-Hadamard matrix, the butterflies that compute it, and its orthogonality. */
module Walsh {
  import opened Bits
  import opened Vectors

  /** (-1)^popcount(i). */
  function Parity(i: nat): real {
    if Popcount(i) % 2 == 0 then 1.0 else -1.0
  }

  /** Entry (i, j) of the Hadamard matrix: (-1)^popcount(i & j). */
  function Chi(i: nat, j: nat): real {
    Parity(And(i, j))
  }

  /** Row i of the Hadamard matrix of order n. */
  function Row(i: nat, n: nat): (r: seq<real>)
    ensures |r| == n
  {
    seq(n, j requires 0 <= j < n => Chi(i, j))
  }

  /** Row i of the Hadamard matrix times x. */
  function Coefficient(x: seq<real>, i: nat): real {
    Dot(Row(i, |x|), x)
  }

  /** The unnormalised transform, straight from the matrix. */
  function Wht(x: seq<real>): (y: seq<real>) {
    seq(|x|, i requires 0 <= i < |x| => Coefficient(x, i))
  }

  // ----- the matrix splits into blocks [[H, H], [H, -H]] -----

  lemma HalfTop(i: nat, s: nat)
    requires i < Pow2(s) && s > 0
    ensures (i + Pow2(s)) / 2 == i / 2 + Pow2(s - 1) && (i + Pow2(s)) % 2 == i % 2 && i / 2 < Pow2(s - 1)
  {}

  lemma {:induction false} AndOneTop(i: nat, j: nat, s: nat)
    requires i < Pow2(s) && j < Pow2(s)
    ensures And(i + Pow2(s), j) == And(i, j) < Pow2(s)
  {
    if s > 0 {
      HalfTop(i, s);
      HalfTop(j, s);
      AndOneTop(i / 2, j / 2, s - 1);
    }
  }

  lemma {:induction false} AndSymmetric(i: nat, j: nat)
    ensures And(i, j) == And(j, i)
  {
    if i > 0 && j > 0 { AndSymmetric(i / 2, j / 2); }
  }

  lemma {:induction false} AndBothTop(i: nat, j: nat, s: nat)
    requires i < Pow2(s) && j < Pow2(s)
    ensures And(i + Pow2(s), j + Pow2(s)) == And(i, j) + Pow2(s)
  {
    if s > 0 {
      HalfTop(i, s);
      HalfTop(j, s);
      AndBothTop(i / 2, j / 2, s - 1);
    }
  }

  lemma {:induction false} PopcountTopBit(i: nat, s: nat)
    requires i < Pow2(s)
    ensures Popcount(i + Pow2(s)) == Popcount(i) + 1
  {
    if s > 0 {
      PopcountTopBit(i / 2, s - 1);
      assert (i + Pow2(s)) / 2 == i / 2 + Pow2(s - 1) && (i + Pow2(s)) % 2 == i % 2;
    } else {
      assert Popcount(1) == 1 + Popcount(0);
    }
  }

  lemma ChiOneTop(i: nat, j: nat, s: nat)
    requires i < Pow2(s) && j < Pow2(s)
    ensures Chi(i + Pow2(s), j) == Chi(i, j)
  {
    AndOneTop(i, j, s);
  }

  lemma ChiSymmetric(i: nat, j: nat)
    ensures Chi(i, j) == Chi(j, i)
  {
    AndSymmetric(i, j);
  }

  lemma ChiBothTop(i: nat, j: nat, s: nat)
    requires i < Pow2(s) && j < Pow2(s)
    ensures Chi(i + Pow2(s), j + Pow2(s)) == -Chi(i, j)
  {
    AndOneTop(i, j, s);
    AndBothTop(i, j, s);
    ParityTop(And(i, j), s);
  }

  lemma ParityTop(i: nat, s: nat)
    requires i < Pow2(s)
    ensures Parity(i + Pow2(s)) == -Parity(i)
  {
    PopcountTopBit(i, s);
  }

  lemma ChiBlocks(i: nat, j: nat, s: nat)
    requires i < Pow2(s) && j < Pow2(s)
    ensures Chi(i + Pow2(s), j) == Chi(i, j) == Chi(i, j + Pow2(s))
    ensures Chi(i + Pow2(s), j + Pow2(s)) == -Chi(i, j)
  {
    ChiOneTop(i, j, s);
    ChiOneTop(j, i, s);
    ChiSymmetric(i, j);
    ChiSymmetric(i, j + Pow2(s));
    ChiBothTop(i, j, s);
  }

  lemma RowBlocks(i: nat, s: nat)
    requires i < Pow2(s)
    ensures var h := Pow2(s);
      && Row(i, h + h) == Row(i, h) + Row(i, h)
      && Row(i + h, h + h) == Row(i, h) + Scale(-1.0, Row(i, h))
  {
    var h := Pow2(s);
    var low, high, r := Row(i, h + h), Row(i + h, h + h), Row(i, h);
    forall j | 0 <= j < h + h
      ensures low[j] == (r + r)[j] && high[j] == (r + Scale(-1.0, r))[j]
    {
      ChiBlocks(i, if j < h then j else j - h, s);
    }
    assert low == r + r && high == r + Scale(-1.0, r);
  }

  lemma CoefficientConcat(lo: seq<real>, hi: seq<real>, i: nat, s: nat)
    requires |lo| == |hi| == Pow2(s) && i < Pow2(s)
    ensures Coefficient(lo + hi, i) == Coefficient(lo, i) + Coefficient(hi, i)
    ensures Coefficient(lo + hi, i + Pow2(s)) == Coefficient(lo, i) - Coefficient(hi, i)
  {
    var r := Row(i, Pow2(s));
    RowBlocks(i, s);
    DotConcat(r, r, lo, hi);
    DotConcat(r, Scale(-1.0, r), lo, hi);
    DotNegate(r, hi);
  }

  /** One butterfly across two transformed halves is the transform of their concatenation. */
  function Butterfly(lo: seq<real>, hi: seq<real>): seq<real>
    requires |lo| == |hi|
  {
    Add(lo, hi) + Sub(lo, hi)
  }

  lemma WhtConcat(lo: seq<real>, hi: seq<real>, s: nat)
    requires |lo| == |hi| == Pow2(s)
    ensures Wht(lo + hi) == Butterfly(Wht(lo), Wht(hi))
  {
    var h := Pow2(s);
    var w, b := Wht(lo + hi), Butterfly(Wht(lo), Wht(hi));
    forall i | 0 <= i < 2 * h ensures w[i] == b[i] {
      CoefficientConcat(lo, hi, if i < h then i else i - h, s);
    }
  }

  lemma WhtSingleton(x: seq<real>)
    requires |x| == 1
    ensures Wht(x) == x
  {
    var r := Row(0, 1);
    DotStep(r, x);
    assert r[0] == 1.0 && Dot(r[1..], x[1..]) == 0.0;
  }

  // ----- linearity, orthogonality, involution -----

  lemma WhtLinear(x: seq<real>, y: seq<real>, c: real)
    requires |x| == |y|
    ensures Wht(Add(x, y)) == Add(Wht(x), Wht(y))
    ensures Wht(Sub(x, y)) == Sub(Wht(x), Wht(y))
    ensures Wht(Scale(c, x)) == Scale(c, Wht(x))
  {
    forall i | 0 <= i < |x|
      ensures Wht(Add(x, y))[i] == Add(Wht(x), Wht(y))[i]
      ensures Wht(Sub(x, y))[i] == Sub(Wht(x), Wht(y))[i]
      ensures Wht(Scale(c, x))[i] == Scale(c, Wht(x))[i]
    {
      DotSums(Row(i, |x|), x, y);
      DotTimes(Row(i, |x|), c, x, Wht(x)[i]);
    }
  }

  /** Rows of the Hadamard matrix are orthogonal: inner products grow by exactly n. */
  lemma {:induction false} WhtParseval(x: seq<real>, y: seq<real>, s: nat)
    requires |x| == |y| == Pow2(s)
    ensures Dot(Wht(x), Wht(y)) == |x| as real * Dot(x, y)
  {
    if s == 0 {
      WhtSingleton(x);
      WhtSingleton(y);
    } else {
      var h := Pow2(s - 1);
      WhtParseval(x[..h], y[..h], s - 1);
      WhtParseval(x[h..], y[h..], s - 1);
      ParsevalStep(x[..h], x[h..], y[..h], y[h..], s - 1);
      assert x == x[..h] + x[h..] && y == y[..h] + y[h..];
    }
  }

  lemma ParsevalStep(a: seq<real>, b: seq<real>, p: seq<real>, q: seq<real>, s: nat)
    requires |a| == |b| == |p| == |q| == Pow2(s)
    requires Dot(Wht(a), Wht(p)) == |a| as real * Dot(a, p)
    requires Dot(Wht(b), Wht(q)) == |b| as real * Dot(b, q)
    ensures Dot(Wht(a + b), Wht(p + q)) == |a + b| as real * Dot(a + b, p + q)
  {
    ParsevalHalves(a, b, p, q, s);
    DotConcat(a, b, p, q);
    Double(|a| as real, Dot(a, p), Dot(b, q), |a + b| as real, Dot(a + b, p + q));
  }

  lemma ParsevalHalves(a: seq<real>, b: seq<real>, p: seq<real>, q: seq<real>, s: nat)
    requires |a| == |b| == |p| == |q| == Pow2(s)
    ensures Dot(Wht(a + b), Wht(p + q)) == 2.0 * Dot(Wht(a), Wht(p)) + 2.0 * Dot(Wht(b), Wht(q))
  {
    WhtConcat(a, b, s);
    WhtConcat(p, q, s);
    DotConcat(Add(Wht(a), Wht(b)), Sub(Wht(a), Wht(b)), Add(Wht(p), Wht(q)), Sub(Wht(p), Wht(q)));
    DotButterfly(Wht(a), Wht(b), Wht(p), Wht(q));
  }

  lemma Double(h: real, s: real, t: real, n: real, w: real)
    requires n == h + h && w == s + t
    ensures 2.0 * (h * s) + 2.0 * (h * t) == n * w
  {}

  /** Applying the unnormalised transform twice multiplies by n. */
  lemma {:induction false} WhtTwice(x: seq<real>, s: nat)
    requires |x| == Pow2(s)
    ensures Wht(Wht(x)) == Scale(|x| as real, x)
  {
    if s == 0 {
      WhtSingleton(x);
    } else {
      var h := Pow2(s - 1);
      assert x == x[..h] + x[h..];
      WhtTwice(x[..h], s - 1);
      WhtTwice(x[h..], s - 1);
      WhtTwiceStep(x[..h], x[h..], s - 1);
      ScaleButterfly(h as real, x[..h], x[h..]);
    }
  }

  lemma WhtTwiceStep(a: seq<real>, b: seq<real>, s: nat)
    requires |a| == |b| == Pow2(s)
    ensures Wht(Wht(a + b)) == Butterfly(Add(Wht(Wht(a)), Wht(Wht(b))), Sub(Wht(Wht(a)), Wht(Wht(b))))
  {
    WhtConcat(a, b, s);
    WhtConcat(Add(Wht(a), Wht(b)), Sub(Wht(a), Wht(b)), s);
    WhtLinear(Wht(a), Wht(b), 1.0);
  }

  lemma ScaleButterfly(c: real, a: seq<real>, b: seq<real>)
    requires |a| == |b|
    ensures Butterfly(Add(Scale(c, a), Scale(c, b)), Sub(Scale(c, a), Scale(c, b))) == Scale(2.0 * c, a + b)
  {
    var l, r := Butterfly(Add(Scale(c, a), Scale(c, b)), Sub(Scale(c, a), Scale(c, b))), Scale(2.0 * c, a + b);
    forall i | 0 <= i < |l| ensures l[i] == r[i] {
      if i < |a| { DoubleTerm(c, a[i], b[i]); } else { DoubleTerm(c, a[i - |a|], b[i - |a|]); }
    }
  }

  lemma DoubleTerm(c: real, a: real, b: real)
    ensures (c * a + c * b) + (c * a - c * b) == (2.0 * c) * a
    ensures (c * a + c * b) - (c * a - c * b) == (2.0 * c) * b
  {}
}
