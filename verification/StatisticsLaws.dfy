/** The counts as sizes of sets of questions, and the interval as the two roots of its equation. */
module StatisticsLaws {
  import Reals
  import opened Statistics

  // ----- counts -----

  /** Question i was answered on both sides, and with these outcomes. */
  predicate Answered(t: seq<Record>, c: seq<Record>, i: nat, treated: bool, control: bool)
    requires i < |t| == |c|
  {
    && t[i].scored && c[i].scored && t[i].gold == c[i].gold
    && t[i].correct == treated && c[i].correct == control
  }

  function Questions(t: seq<Record>, c: seq<Record>, m: nat, treated: bool, control: bool): set<nat>
    requires m <= |t| == |c|
  {
    set i: nat | i < m && Answered(t, c, i, treated, control)
  }

  lemma {:induction false} MatchingLaw(t: seq<Record>, c: seq<Record>, m: nat, treated: bool, control: bool)
    requires m <= |t| == |c|
    ensures Matching(t, c, m, treated, control) == |Questions(t, c, m, treated, control)|
  {
    if m > 0 {
      MatchingLaw(t, c, m - 1, treated, control);
      var before, after := Questions(t, c, m - 1, treated, control), Questions(t, c, m, treated, control);
      OneMore(before, after, m - 1, Answered(t, c, m - 1, treated, control));
    } else {
      assert Questions(t, c, 0, treated, control) == {};
    }
  }

  lemma OneMore(before: set<nat>, after: set<nat>, x: nat, added: bool)
    requires x !in before && (x in after <==> added) && forall i :: i != x ==> (i in after <==> i in before)
    ensures |after| == |before| + if added then 1 else 0
  {
    assert after == if added then before + {x} else before;
  }

  /** Each count is the number of questions with its outcome on the treated and on the control side. */
  lemma SeedLaw(t: seq<Record>, c: seq<Record>)
    requires |t| == |c|
    ensures var r := SeedTally(t, c, |t|);
      && r.both == |Questions(t, c, |t|, true, true)| && r.treatedOnly == |Questions(t, c, |t|, true, false)|
      && r.controlOnly == |Questions(t, c, |t|, false, true)| && r.neither == |Questions(t, c, |t|, false, false)|
      && r.paired == |set i: nat | i < |t| && t[i].scored && c[i].scored && t[i].gold == c[i].gold|
  {
    MatchingLaw(t, c, |t|, true, true);
    MatchingLaw(t, c, |t|, true, false);
    MatchingLaw(t, c, |t|, false, true);
    MatchingLaw(t, c, |t|, false, false);
    PairedLaw(t, c, |t|);
  }

  lemma {:induction false} PairedLaw(t: seq<Record>, c: seq<Record>, m: nat)
    requires m <= |t| == |c|
    ensures PairedAmong(t, c, m) == |set i: nat | i < m && t[i].scored && c[i].scored && t[i].gold == c[i].gold|
  {
    var after := set i: nat | i < m && t[i].scored && c[i].scored && t[i].gold == c[i].gold;
    if m > 0 {
      PairedLaw(t, c, m - 1);
      var before := set i: nat | i < m - 1 && t[i].scored && c[i].scored && t[i].gold == c[i].gold;
      var last := t[m - 1].scored && c[m - 1].scored && t[m - 1].gold == c[m - 1].gold;
      OneMore(before, after, m - 1, last);
    } else {
      assert after == {};
    }
  }

  /** The totals add one seed at a time, field by field; a seed with lists of different lengths adds nothing. */
  lemma TotalsLaw(seeds: seq<(seq<Record>, seq<Record>)>, m: nat)
    requires m < |seeds|
    ensures Totals(seeds, 0) == Tally(0, 0, 0, 0, 0)
    ensures var was, now, t, c := Totals(seeds, m), Totals(seeds, m + 1), seeds[m].0, seeds[m].1;
      if |t| != |c| then now == was
      else
        var one := SeedTally(t, c, |t|);
        && now.both == was.both + one.both && now.treatedOnly == was.treatedOnly + one.treatedOnly
        && now.controlOnly == was.controlOnly + one.controlOnly && now.neither == was.neither + one.neither
        && now.paired == was.paired + one.paired
  {}

  /** The variance numerator over the counts. */
  lemma VarianceLaw(r: Tally, b: real, c: real, n: real)
    requires r.paired > 0 && b == r.treatedOnly as real && c == r.controlOnly as real && n == r.paired as real
    ensures n * VarianceNumerator(r) == n * (b + c) - (b - c) * (b - c)
  {
    var sq := (b - c) * (b - c);
    assert (r.treatedOnly - r.controlOnly) as real == b - c;
    assert VarianceNumerator(r) == (b + c) - Over(sq, n);
    Reals.Undo(sq, n);
    Distributed(n, b + c, Over(sq, n), sq);
  }

  lemma Distributed(n: real, a: real, q: real, sq: real)
    requires q * n == sq
    ensures n * (a - q) == n * a - sq
  {}

  // ----- the interval -----

  /** With no observations the interval is everything. */
  lemma NoObservations(k: nat, z: real, sqrt: real -> real)
    ensures WilsonCi(k, 0, z, sqrt) == (0.0, 1.0)
  {}

  /** b is a root of the interval's equation: its squared distance from p is z^2 / n times b (1 - b). */
  predicate IsRoot(b: real, p: real, n: real, z: real) {
    n * ((b - p) * (b - p)) == (z * z) * (b * (1.0 - b))
  }

  /** Both bounds are roots; WilsonInside puts one on either side of the proportion, so they are the two. */
  lemma WilsonLaw(k: nat, n: nat, z: real, sqrt: real -> real, p: real)
    requires 0 < n && k <= n && Reals.IsSqrt(sqrt) && p * n as real == k as real
    ensures IsRoot(Bounds(k, n, z, sqrt).0, p, n as real, z) && IsRoot(Bounds(k, n, z, sqrt).1, p, n as real, z)
  {
    var m := n as real;
    Reals.Exactly(k as real, p, m);
    Proportion(k as real, m, p);
    SquaresOverCount(m, z);
    var t, h := Over(z * z, m), HalfNumerator(p, m, z, sqrt);
    HalfNumeratorIs(p, m, z, sqrt, t, h);
    SumOver(p + t / 2.0, h, 1.0 + t);
    BoundIsRoot(p, m, z, t, h, Bounds(k, n, z, sqrt).1);
    SquareOfNegated(h);
    BoundIsRoot(p, m, z, t, -h, Bounds(k, n, z, sqrt).0);
  }

  lemma BoundIsRoot(p: real, n: real, z: real, t: real, h: real, b: real)
    requires n > 0.0 && t >= 0.0 && t == z * z / n && h * h == t * (p * (1.0 - p) + t / 4.0)
    requires b == (p + t / 2.0 + h) / (1.0 + t)
    ensures IsRoot(b, p, n, z)
  {
    Reals.Undo(p + t / 2.0 + h, 1.0 + t);
    RootEquation(p, t, h, b);
    Reals.Undo(z * z, n);
    Rescaled(n, t, z * z, (b - p) * (b - p), b * (1.0 - b));
  }

  lemma Rescaled(n: real, t: real, zz: real, x: real, y: real)
    requires t * n == zz && x == t * y
    ensures n * x == zz * y
  {
    assert n * (t * y) == (t * n) * y;
  }

  lemma RootEquation(p: real, t: real, h: real, b: real)
    requires t >= 0.0 && h * h == t * (p * (1.0 - p) + t / 4.0) && b * (1.0 + t) == p + t / 2.0 + h
    ensures (b - p) * (b - p) == t * (b * (1.0 - b))
  {
    var d, u := 1.0 + t, p + t / 2.0 + h;
    Cleared(p, t, h, p * (1.0 - p));
    ScaledSquare(b, p, d, u);
    ScaledProduct(b, d, u, t);
    Reals.SameFactor((b - p) * (b - p), t * (b * (1.0 - b)), d * d);
  }

  lemma ScaledSquare(b: real, p: real, d: real, u: real)
    requires b * d == u
    ensures ((b - p) * (b - p)) * (d * d) == (u - p * d) * (u - p * d)
  {
    assert (b - p) * d == u - p * d;
    assert ((b - p) * (b - p)) * (d * d) == ((b - p) * d) * ((b - p) * d);
  }

  lemma ScaledProduct(b: real, d: real, u: real, t: real)
    requires b * d == u
    ensures (t * (b * (1.0 - b))) * (d * d) == t * (u * (d - u))
  {
    assert (1.0 - b) * d == d - u;
    assert (b * (1.0 - b)) * (d * d) == (b * d) * ((1.0 - b) * d);
    assert (t * (b * (1.0 - b))) * (d * d) == t * ((b * (1.0 - b)) * (d * d));
  }

  /** The equation times (1 + t)^2, as polynomials. */
  lemma Cleared(p: real, t: real, h: real, v: real)
    requires v == p * (1.0 - p) && h * h == t * (v + t / 4.0)
    ensures var d, u := 1.0 + t, p + t / 2.0 + h;
      (u - p * d) * (u - p * d) == t * (u * (d - u))
  {
    var e, c := t * (0.5 - p), p + t / 2.0;
    var d := 1.0 + t;
    assert p * d == p + p * t;
    assert c + h - p * d == e + h;
    SquareOfSum(e, h);
    CrossTerms(c, d, h);
    assert c * (d - c) == v + t / 2.0 + t * t / 4.0;
    assert e * e == t * t * (0.25 - v);
    assert t * (h * (d - 2.0 * c)) == 2.0 * (e * h);
    assert t * (c * (d - c)) == t * v + t * t / 2.0 + t * (t * t) / 4.0;
    assert h * h * (1.0 + t) == t * (v + t / 4.0) + t * (t * (v + t / 4.0));
  }

  lemma SquareOfSum(e: real, h: real)
    ensures (e + h) * (e + h) == e * e + 2.0 * (e * h) + h * h
  {}

  lemma CrossTerms(c: real, d: real, h: real)
    ensures (c + h) * (d - (c + h)) == c * (d - c) + h * (d - 2.0 * c) - h * h
  {}
}
