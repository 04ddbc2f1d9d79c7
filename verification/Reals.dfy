/** Order facts about products and quotients, one nonlinear step each. */
module Reals {

  lemma NonNegative(a: real, b: real)
    requires a >= 0.0 && b >= 0.0
    ensures a * b >= 0.0
  {}

  lemma Positive(a: real, b: real)
    requires a > 0.0 && b > 0.0
    ensures a * b > 0.0
  {}

  lemma Sandwich(lo: real, t: real, hi: real, s: real, p: real)
    requires lo <= t <= hi && s >= 0.0 && p == t * s
    ensures lo * s <= p <= hi * s
  {
    NonNegative(t - lo, s);
    NonNegative(hi - t, s);
  }

  lemma Undo(a: real, c: real)
    requires c != 0.0
    ensures (a / c) * c == a
  {}

  lemma Increasing(a: real, b: real, c: real)
    requires c > 0.0
    ensures a <= b <==> a * c <= b * c
  {
    if a <= b {
      NonNegative(b - a, c);
      assert (b - a) * c == b * c - a * c;
    } else {
      Positive(a - b, c);
      assert (a - b) * c == a * c - b * c;
    }
  }

  lemma AtMost(a: real, b: real, c: real)
    requires c > 0.0
    ensures a / c <= b <==> a <= b * c
  {
    Undo(a, c);
    Increasing(a / c, b, c);
  }

  lemma AtLeast(a: real, b: real, c: real)
    requires c > 0.0
    ensures a / c >= b <==> a >= b * c
  {
    Undo(a, c);
    Increasing(b, a / c, c);
  }

  lemma Exactly(a: real, b: real, c: real)
    requires c != 0.0 && a == b * c
    ensures a / c == b
  {
    Undo(a, c);
    SameFactor(a / c, b, c);
  }

  lemma SameFactor(a: real, b: real, c: real)
    requires c != 0.0 && a * c == b * c
    ensures a == b
  {
    assert (a - b) * c == 0.0;
  }

  lemma DivideOrder(a: real, b: real, n: real)
    requires a <= b && n > 0.0
    ensures a / n <= b / n
  {
    assert b / n - a / n == (b - a) / n;
  }

  /** A square root on the non-negative reals. */
  ghost predicate IsSqrt(sqrt: real -> real) {
    forall x: real :: x >= 0.0 ==> sqrt(x) >= 0.0 && sqrt(x) * sqrt(x) == x && (x > 0.0 ==> sqrt(x) > 0.0)
  }

  /** Squares order magnitudes. */
  lemma SquareOrder(x: real, r: real)
    requires r >= 0.0 && x * x <= r * r
    ensures -r <= x <= r
  {
    if x > r {
      SquareGap(r, x);
      assert false;
    } else if x < -r {
      SquareGap(r, -x);
      assert false;
    }
  }

  lemma SquareBelow(x: real, r: real)
    requires -r <= x <= r
    ensures x * x <= r * r
  {
    NonNegative(r - x, r + x);
    assert (r - x) * (r + x) == r * r - x * x;
  }

  lemma SquareGap(r: real, x: real)
    requires 0.0 <= r < x
    ensures r * r < x * x
  {
    Positive(x - r, x + r);
    assert x * x - r * r == (x - r) * (x + r);
  }
}
