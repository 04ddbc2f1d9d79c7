/** The Lloyd-Max codebook iteration and the cell search that uses its boundaries. */
module LloydMax {
  import Reals
  import opened Bits

  const NARROW: real := 0.000000000000001                  // 1e-15
  const EMPTY_MASS: real := 0.000000000000000000000000000001  // 1e-30

  /** What the two quadratures must satisfy: on a cell with mass, the mean lies in the cell. */
  ghost predicate MeansInCells(mass: (real, real) -> real, moment: (real, real) -> real) {
    forall a: real, b: real :: -1.0 <= a < b <= 1.0 && mass(a, b) > EMPTY_MASS ==>
      a * mass(a, b) <= moment(a, b) <= b * mass(a, b)
  }

  predicate Ascending(s: seq<real>) {
    forall i, j :: 0 <= i <= j < |s| ==> s[i] <= s[j]
  }

  /** Boundaries from -1 to 1 in order. */
  predicate IsGrid(boundaries: seq<real>) {
    |boundaries| >= 2 && boundaries[0] == -1.0 && boundaries[|boundaries| - 1] == 1.0 && Ascending(boundaries)
  }

  /** Every centroid lies in its own cell. */
  predicate IsCodebook(centroids: seq<real>, boundaries: seq<real>) {
    && |boundaries| == |centroids| + 1
    && IsGrid(boundaries)
    && forall i :: 0 <= i < |centroids| ==> boundaries[i] <= centroids[i] <= boundaries[i + 1]
  }

  predicate InRange(centroids: seq<real>) {
    Ascending(centroids) && forall i :: 0 <= i < |centroids| ==> -1.0 <= centroids[i] <= 1.0
  }

  lemma CentroidsAscend(centroids: seq<real>, boundaries: seq<real>)
    requires IsCodebook(centroids, boundaries)
    ensures InRange(centroids)
  {
    forall i, j | 0 <= i <= j < |centroids| ensures centroids[i] <= centroids[j] {
      if i < j { assert boundaries[i + 1] <= boundaries[j]; }
    }
    forall i | 0 <= i < |centroids| ensures -1.0 <= centroids[i] <= 1.0 {
      assert boundaries[0] <= boundaries[i] && boundaries[i + 1] <= boundaries[|centroids|];
    }
  }

  lemma MeanInCell(a: real, b: real, m0: real, m1: real)
    requires m0 > 0.0 && a * m0 <= m1 <= b * m0
    ensures a <= m1 / m0 <= b
  {
    Reals.DivideOrder(a * m0, m1, m0);
    Reals.DivideOrder(m1, b * m0, m0);
    assert (a * m0) / m0 == a && (b * m0) / m0 == b;
  }

  function Initial(i: nat, levels: nat): real
    requires levels > 0
  {
    -1.0 + (2.0 * (i as real + 0.5)) / levels as real
  }

  lemma InitialOrder(i: nat, j: nat, levels: nat)
    requires i <= j < levels
    ensures -1.0 <= Initial(i, levels) <= Initial(j, levels) <= 1.0
  {
    var n := levels as real;
    Reals.DivideOrder(0.0, 2.0 * (i as real + 0.5), n);
    Reals.DivideOrder(2.0 * (i as real + 0.5), 2.0 * (j as real + 0.5), n);
    Reals.DivideOrder(2.0 * (j as real + 0.5), 2.0 * n, n);
    assert (2.0 * n) / n == 2.0;
  }

  /** Boundaries between -1 and 1 at the midpoints of neighbouring centroids. */
  function Midpoints(c: seq<real>): (b: seq<real>)
    ensures |b| == |c| + 1
  {
    seq(|c| + 1, i requires 0 <= i <= |c| =>
      if i == 0 then -1.0 else if i == |c| then 1.0 else (c[i - 1] + c[i]) / 2.0)
  }

  lemma MidpointsFit(c: seq<real>)
    requires |c| > 0 && InRange(c)
    ensures IsCodebook(c, Midpoints(c))
  {
    var b := Midpoints(c);
    forall k | 0 <= k < |c| ensures b[k] <= c[k] <= b[k + 1] {
      assert k > 0 ==> c[k - 1] <= c[k];
      assert k + 1 < |c| ==> c[k] <= c[k + 1];
    }
    CellsAscend(c, b);
  }

  /** Each interior boundary becomes the midpoint of its two centroids. */
  method UpdateBoundaries(centroids: array<real>, boundaries: array<real>)
    requires centroids != boundaries && 0 < centroids.Length && boundaries.Length == centroids.Length + 1
    requires boundaries[0] == -1.0 && boundaries[centroids.Length] == 1.0
    modifies boundaries
    ensures boundaries[..] == Midpoints(centroids[..])
  {
    var levels := centroids.Length;
    for i := 1 to levels
      invariant boundaries[0] == -1.0 && boundaries[levels] == 1.0
      invariant forall k :: 1 <= k < i ==> boundaries[k] == (centroids[k - 1] + centroids[k]) / 2.0
    {
      boundaries[i] := (centroids[i - 1] + centroids[i]) / 2.0;
    }
  }

  lemma CellsAscend(c: seq<real>, b: seq<real>)
    requires |b| == |c| + 1 && forall k :: 0 <= k < |c| ==> b[k] <= c[k] <= b[k + 1]
    ensures Ascending(b)
  {
    forall i, j | 0 <= i <= j < |b| ensures b[i] <= b[j] { CellChain(c, b, i, j); }
  }

  lemma {:induction false} CellChain(c: seq<real>, b: seq<real>, i: nat, j: nat)
    requires |b| == |c| + 1 && forall k :: 0 <= k < |c| ==> b[k] <= c[k] <= b[k + 1]
    requires i <= j < |b|
    ensures b[i] <= b[j]
  {
    if i < j {
      CellChain(c, b, i, j - 1);
      assert b[j - 1] <= c[j - 1] <= b[j - 1 + 1];
    }
  }

  /** The mean of cell [a, b]; a thin or empty cell keeps its centroid c. */
  function CellMean(c: real, a: real, b: real, mass: (real, real) -> real, moment: (real, real) -> real): real {
    if b - a >= NARROW && mass(a, b) > EMPTY_MASS then moment(a, b) / mass(a, b) else c
  }

  lemma CellMeansStay(c: seq<real>, b: seq<real>, mass: (real, real) -> real, moment: (real, real) -> real, i: nat)
    requires MeansInCells(mass, moment) && IsCodebook(c, b) && i < |c|
    ensures b[i] <= CellMean(c[i], b[i], b[i + 1], mass, moment) <= b[i + 1]
  {
    assert -1.0 == b[0] <= b[i] && b[i + 1] <= b[|c|] == 1.0;
    var m0, m1 := mass(b[i], b[i + 1]), moment(b[i], b[i + 1]);
    if b[i + 1] - b[i] >= NARROW && m0 > EMPTY_MASS { MeanInCell(b[i], b[i + 1], m0, m1); }
  }

  function Means(c: seq<real>, b: seq<real>, mass: (real, real) -> real, moment: (real, real) -> real): (m: seq<real>)
    requires |b| == |c| + 1
    ensures |m| == |c|
  {
    seq(|c|, i requires 0 <= i < |c| => CellMean(c[i], b[i], b[i + 1], mass, moment))
  }

  lemma MeansFit(c: seq<real>, b: seq<real>, mass: (real, real) -> real, moment: (real, real) -> real)
    requires MeansInCells(mass, moment) && IsCodebook(c, b)
    ensures IsCodebook(Means(c, b, mass, moment), b)
  {
    forall i | 0 <= i < |c| ensures b[i] <= Means(c, b, mass, moment)[i] <= b[i + 1] {
      CellMeansStay(c, b, mass, moment, i);
    }
  }

  /** Each centroid moves to the mean of its cell. */
  method UpdateCentroids(centroids: array<real>, boundaries: array<real>,
                         mass: (real, real) -> real, moment: (real, real) -> real)
    requires centroids != boundaries && boundaries.Length == centroids.Length + 1
    modifies centroids
    ensures centroids[..] == Means(old(centroids[..]), boundaries[..], mass, moment)
  {
    ghost var c, b := centroids[..], boundaries[..];
    for i := 0 to centroids.Length
      invariant boundaries[..] == b
      invariant forall k :: 0 <= k < centroids.Length ==>
        centroids[k] == if k < i then CellMean(c[k], b[k], b[k + 1], mass, moment) else c[k]
    {
      var lo, hi := boundaries[i], boundaries[i + 1];
      assert lo == b[i] && hi == b[i + 1];
      if hi - lo < NARROW { continue; }
      var m0, m1 := mass(lo, hi), moment(lo, hi);
      if m0 > EMPTY_MASS { centroids[i] := m1 / m0; }
    }
  }

  function Initials(levels: nat): (c: seq<real>)
    ensures |c| == levels
  {
    seq(levels, i requires 0 <= i < levels => Initial(i, levels))
  }

  lemma InitialsInRange(levels: nat)
    requires levels > 0
    ensures InRange(Initials(levels))
  {
    var c := Initials(levels);
    forall i, j | 0 <= i <= j < levels ensures -1.0 <= c[i] <= c[j] <= 1.0 { InitialOrder(i, j, levels); }
  }

  /** The centroids after n iterations. */
  function Lloyd(levels: nat, n: nat, mass: (real, real) -> real, moment: (real, real) -> real): (c: seq<real>)
    ensures |c| == levels
  {
    if n == 0 then Initials(levels) else
      var c := Lloyd(levels, n - 1, mass, moment);
      Means(c, Midpoints(c), mass, moment)
  }

  /** After every number of iterations the centroids are in order, inside [-1, 1]. */
  lemma {:induction false} LloydInRange(levels: nat, n: nat, mass: (real, real) -> real, moment: (real, real) -> real)
    returns (c: seq<real>)
    requires levels > 0 && MeansInCells(mass, moment)
    ensures c == Lloyd(levels, n, mass, moment) && InRange(c)
  {
    if n == 0 {
      InitialsInRange(levels);
      c := Initials(levels);
    } else {
      var before := LloydInRange(levels, n - 1, mass, moment);
      c := IterationFits(before, mass, moment);
    }
  }

  /** And they lie in the cells of the boundaries of the last iteration. */
  lemma LloydKeeps(levels: nat, n: nat, mass: (real, real) -> real, moment: (real, real) -> real)
    returns (c: seq<real>, b: seq<real>)
    requires levels > 0 && n > 0 && MeansInCells(mass, moment)
    ensures c == Lloyd(levels, n, mass, moment) && b == Midpoints(Lloyd(levels, n - 1, mass, moment))
    ensures IsCodebook(c, b)
  {
    var before := LloydInRange(levels, n - 1, mass, moment);
    c := IterationFits(before, mass, moment);
    b := Midpoints(before);
  }

  lemma IterationFits(c: seq<real>, mass: (real, real) -> real, moment: (real, real) -> real) returns (m: seq<real>)
    requires |c| > 0 && MeansInCells(mass, moment) && InRange(c)
    ensures m == Means(c, Midpoints(c), mass, moment) && InRange(m) && IsCodebook(m, Midpoints(c))
  {
    m := Means(c, Midpoints(c), mass, moment);
    MidpointsFit(c);
    MeansFit(c, Midpoints(c), mass, moment);
    CentroidsAscend(m, Midpoints(c));
  }

  /** One iteration, boundaries first. */
  method Iterate(centroids: array<real>, boundaries: array<real>,
                 mass: (real, real) -> real, moment: (real, real) -> real)
    requires centroids != boundaries && 0 < centroids.Length && boundaries.Length == centroids.Length + 1
    requires boundaries[0] == -1.0 && boundaries[centroids.Length] == 1.0
    modifies centroids, boundaries
    ensures boundaries[..] == Midpoints(old(centroids[..]))
    ensures centroids[..] == Means(old(centroids[..]), Midpoints(old(centroids[..])), mass, moment)
  {
    UpdateBoundaries(centroids, boundaries);
    UpdateCentroids(centroids, boundaries, mass, moment);
  }

  /** The boundaries before the first iteration. */
  function Start(levels: nat): (b: seq<real>)
    ensures |b| == levels + 1
  {
    seq(levels + 1, i requires 0 <= i <= levels => if i == 0 then -1.0 else if i == levels then 1.0 else 0.0)
  }

  /** The boundaries after n iterations. */
  function Bounds(levels: nat, n: nat, mass: (real, real) -> real, moment: (real, real) -> real): (b: seq<real>)
    ensures |b| == levels + 1 && b[0] == -1.0 && (levels > 0 ==> b[levels] == 1.0)
  {
    if n == 0 then Start(levels) else Midpoints(Lloyd(levels, n - 1, mass, moment))
  }

  /** The whole iteration: boundaries never leave order and centroids never leave their cells. */
  method LloydMaxCodebook(bits: nat, maxIters: nat, mass: (real, real) -> real, moment: (real, real) -> real)
    returns (centroids: array<real>, boundaries: array<real>)
    requires MeansInCells(mass, moment)
    ensures centroids[..] == Lloyd(Pow2(bits), maxIters, mass, moment)
    ensures boundaries[..] == Bounds(Pow2(bits), maxIters, mass, moment)
    ensures maxIters > 0 ==> IsCodebook(centroids[..], boundaries[..])
  {
    var levels := Pow2(bits);
    centroids := new real[levels](i requires 0 <= i < levels => Initial(i, levels));
    boundaries := new real[levels + 1](_ => 0.0);
    boundaries[0] := -1.0;
    boundaries[levels] := 1.0;
    ghost var c, b := Initials(levels), Start(levels);
    assert centroids[..] == c && boundaries[..] == b;
    for iter := 0 to maxIters
      invariant centroids != boundaries && fresh(centroids) && fresh(boundaries)
      invariant centroids[..] == c && c == Lloyd(levels, iter, mass, moment)
      invariant boundaries[..] == b && b == Bounds(levels, iter, mass, moment)
    {
      assert boundaries[0] == b[0] && boundaries[levels] == b[levels];
      Iterate(centroids, boundaries, mass, moment);
      b := Midpoints(c);
      c := Means(c, b, mass, moment);
    }
    if maxIters > 0 {
      ghost var last, cells := LloydKeeps(levels, maxIters, mass, moment);
    }
  }

  /** `np.searchsorted`, left side: the first position whose element is not below x. */
  function SearchSorted(a: seq<real>, x: real): (i: nat)
    ensures i <= |a|
    ensures i > 0 ==> a[i - 1] < x
    ensures i < |a| ==> x <= a[i]
  {
    if |a| == 0 || x <= a[0] then 0 else 1 + SearchSorted(a[1..], x)
  }

  /** `boundaries[1:-1]`. */
  function Interior(boundaries: seq<real>): seq<real>
    requires |boundaries| >= 2
  {
    boundaries[1..|boundaries| - 1]
  }

  /** `np.clip(np.searchsorted(interior, x), 0, levels - 1)`. */
  function CellIndex(boundaries: seq<real>, x: real): (i: nat)
    requires |boundaries| >= 2
    ensures i < |boundaries| - 1
  {
    var i := SearchSorted(Interior(boundaries), x);
    if i > |boundaries| - 2 then |boundaries| - 2 else i
  }

  /** The search returns the cell of x, the only one whose lower end is below x (or which is the
      first) and whose upper end is not, and the clip never changes it. */
  lemma CellContains(boundaries: seq<real>, x: real)
    requires IsGrid(boundaries) && -1.0 <= x <= 1.0
    ensures var i := CellIndex(boundaries, x);
      && i == SearchSorted(Interior(boundaries), x)
      && boundaries[i] <= x <= boundaries[i + 1]
      && forall k :: 0 < k < |boundaries| - 1 && boundaries[k] < x <= boundaries[k + 1] ==> k == i
  {
    var i := CellIndex(boundaries, x);
    var interior := Interior(boundaries);
    if i > 0 { assert interior[i - 1] == boundaries[i]; }
    if i < |interior| { assert interior[i] == boundaries[i + 1]; }
    forall k | 0 < k < |boundaries| - 1 && k != i ensures !(boundaries[k] < x <= boundaries[k + 1]) {
      assert k < i ==> boundaries[k + 1] <= boundaries[i];
      assert i < k ==> boundaries[i + 1] <= boundaries[k];
    }
  }
}
