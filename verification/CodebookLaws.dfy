/** What the codebook iteration computes, equation by equation, and the cell search as a nearest-centroid search. */
module CodebookLaws {
  import Reals
  import opened LloydMax

  /** Levels times (initial centroid plus one) is an odd number. */
  lemma InitialLaw(levels: nat, i: nat, mass: (real, real) -> real, moment: (real, real) -> real)
    requires i < levels
    ensures levels as real * (Lloyd(levels, 0, mass, moment)[i] + 1.0) == (2 * i + 1) as real
  {
    var x, n := 2.0 * (i as real + 0.5), levels as real;
    assert Lloyd(levels, 0, mass, moment)[i] == -1.0 + x / n;
    Reals.Undo(x, n);
    TimesQuotient(n, x / n, x);
  }

  lemma TimesQuotient(n: real, q: real, x: real)
    requires q * n == x
    ensures n * (-1.0 + q + 1.0) == x
  {}

  /** Before the first iteration the boundaries inside are zero; afterwards they are the midpoints of the centroids
      of the iteration before. */
  lemma BoundaryLaw(levels: nat, n: nat, mass: (real, real) -> real, moment: (real, real) -> real, k: nat)
    requires k <= levels && levels > 0
    ensures var b := Bounds(levels, n, mass, moment);
      if k == 0 then b[k] == -1.0 else if k == levels then b[k] == 1.0 else if n == 0 then b[k] == 0.0
      else 2.0 * b[k] == Lloyd(levels, n - 1, mass, moment)[k - 1] + Lloyd(levels, n - 1, mass, moment)[k]
  {}

  lemma CellMeanLaw(c: real, lo: real, hi: real, mass: (real, real) -> real, moment: (real, real) -> real,
                    m: real, m0: real, m1: real)
    requires m0 == mass(lo, hi) && m1 == moment(lo, hi) && m == CellMean(c, lo, hi, mass, moment)
    ensures if hi - lo >= 0.000000000000001 && m0 > 0.000000000000000000000000000001 then m * m0 == m1 else m == c
  {
    if m0 > 0.0 { Reals.Undo(m1, m0); }
  }

  lemma LloydUnfold(levels: nat, n: nat, mass: (real, real) -> real, moment: (real, real) -> real)
    returns (was: seq<real>, b: seq<real>, c: seq<real>)
    requires n > 0
    ensures was == Lloyd(levels, n - 1, mass, moment) && b == Bounds(levels, n, mass, moment)
    ensures c == Lloyd(levels, n, mass, moment) && |was| == |c| == levels && |b| == levels + 1
    ensures c == Means(was, b, mass, moment)
  {
    was := Lloyd(levels, n - 1, mass, moment);
    b := Midpoints(was);
    c := Means(was, b, mass, moment);
  }

  /** A cell that is 1e-15 wide or more and holds more than 1e-30 of the mass gets its mean; any other keeps its
      centroid. */
  lemma MeanLaw(levels: nat, n: nat, mass: (real, real) -> real, moment: (real, real) -> real, i: nat)
    returns (was: seq<real>, b: seq<real>, c: seq<real>)
    requires n > 0 && i < levels
    ensures was == Lloyd(levels, n - 1, mass, moment) && b == Bounds(levels, n, mass, moment)
    ensures c == Lloyd(levels, n, mass, moment) && |was| == |c| == levels && |b| == levels + 1
    ensures if b[i + 1] - b[i] >= 0.000000000000001 && mass(b[i], b[i + 1]) > 0.000000000000000000000000000001
            then c[i] * mass(b[i], b[i + 1]) == moment(b[i], b[i + 1]) else c[i] == was[i]
  {
    was, b, c := LloydUnfold(levels, n, mass, moment);
    MeansAt(was, b, c, mass, moment, i);
  }

  lemma MeansAt(was: seq<real>, b: seq<real>, c: seq<real>, mass: (real, real) -> real, moment: (real, real) -> real,
                i: nat)
    requires |b| == |was| + 1 && i < |was| && c == Means(was, b, mass, moment)
    ensures if b[i + 1] - b[i] >= 0.000000000000001 && mass(b[i], b[i + 1]) > 0.000000000000000000000000000001
            then c[i] * mass(b[i], b[i + 1]) == moment(b[i], b[i + 1]) else c[i] == was[i]
  {
    CellMeanLaw(was[i], b[i], b[i + 1], mass, moment, c[i], mass(b[i], b[i + 1]), moment(b[i], b[i + 1]));
  }

  /** The index of x among the midpoints of ordered centroids: the midpoint below is less than x, the one above is
      not. */
  lemma SearchLaw(c: seq<real>, x: real, i: nat)
    requires |c| > 0 && InRange(c) && -1.0 <= x <= 1.0 && i == CellIndex(Midpoints(c), x)
    ensures i < |c|
    ensures i > 0 ==> c[i - 1] + c[i] < 2.0 * x
    ensures i + 1 < |c| ==> 2.0 * x <= c[i] + c[i + 1]
  {
    var b := Midpoints(c);
    MidpointsFit(c);
    CellContains(b, x);
    var interior := Interior(b);
    if i > 0 { assert interior[i - 1] == b[i]; }
  }

  /** It names a nearest centroid. */
  lemma NearestCentroid(c: seq<real>, x: real, i: nat, j: nat)
    requires |c| > 0 && InRange(c) && -1.0 <= x <= 1.0 && i == CellIndex(Midpoints(c), x) && j < |c|
    ensures i < |c|
    ensures x >= c[i] ==> x - c[i] <= x - c[j] || x - c[i] <= c[j] - x
    ensures x <= c[i] ==> c[i] - x <= x - c[j] || c[i] - x <= c[j] - x
  {
    SearchLaw(c, x, i);
    if j < i {
      assert c[j] <= c[i - 1] <= c[i];
    } else if j > i {
      assert c[i] <= c[i + 1] <= c[j];
    }
  }
}
