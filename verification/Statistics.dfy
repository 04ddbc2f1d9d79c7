/** The Wilson interval and the paired McNemar counts of the multi-seed analysis. */
module Statistics {
  import Reals

  // ----- Wilson score interval -----

  function Over(a: real, d: real): real
    requires d != 0.0
  {
    a / d
  }

  /** `center`, for p the proportion and t = z * z / n. */
  function Center(p: real, t: real): real
    requires t >= 0.0
  {
    Over(p + t / 2.0, 1.0 + t)
  }

  /** `halfwidth` times the denominator. */
  function HalfNumerator(p: real, n: real, z: real, sqrt: real -> real): real
    requires n > 0.0
  {
    z * sqrt(Over(p * (1.0 - p) + z * z / (4.0 * n), n))
  }

  lemma SquaresOverCount(n: real, z: real)
    requires n > 0.0
    ensures z * z / n >= 0.0 && z * z / (4.0 * n) == (z * z / n) / 4.0 && z * z / (2.0 * n) == (z * z / n) / 2.0
  {
    var s := z * z;
    Reals.AtLeast(s, 0.0, n);
    var t := s / n;
    Reals.Undo(s, n);
    Reals.Exactly(s, t / 4.0, 4.0 * n);
    Reals.Exactly(s, t / 2.0, 2.0 * n);
  }

  /** The unclamped bounds, center minus and plus half the width. */
  function Bounds(k: nat, n: nat, z: real, sqrt: real -> real): (b: (real, real))
    requires n > 0
  {
    SquaresOverCount(n as real, z);
    var p, t := Over(k as real, n as real), Over(z * z, n as real);
    var halfWidth := Over(HalfNumerator(p, n as real, z, sqrt), 1.0 + t);
    (Center(p, t) - halfWidth, Center(p, t) + halfWidth)
  }

  function WilsonCi(k: nat, n: nat, z: real, sqrt: real -> real): (ci: (real, real)) {
    if n == 0 then (0.0, 1.0)
    else
      var (lo, hi) := Bounds(k, n, z, sqrt);
      (if lo < 0.0 then 0.0 else lo, if hi > 1.0 then 1.0 else hi)
  }

  /** Numerators over the common denominator 1 + t: the center c, the half width h. */
  lemma Numerators(p: real, t: real, h: real)
    requires 0.0 <= p <= 1.0 && t >= 0.0 && h >= 0.0 && h * h == t * (p * (1.0 - p) + t / 4.0)
    ensures var c, d := p + t / 2.0, 1.0 + t;
      h <= c && h <= d - c && c - h <= p * d <= c + h
  {
    var c, d, v := p + t / 2.0, 1.0 + t, p * (1.0 - p);
    Reals.NonNegative(p, 1.0 - p);
    Reals.NonNegative(t, v);
    assert t * (v + t / 4.0) == t * v + t * t / 4.0;
    LowGap(p, t, v, h);
    HighGap(p, t, v, h);
    MiddleGap(p, t, v, h);
  }

  /** center^2 - halfwidth^2 is p^2 over the denominator. */
  lemma LowGap(p: real, t: real, v: real, h: real)
    requires 0.0 <= p <= 1.0 && t >= 0.0 && h >= 0.0 && v == p * (1.0 - p) && h * h == t * v + t * t / 4.0
    ensures (p + t / 2.0) * (p + t / 2.0) - h * h == p * p * (1.0 + t)
    ensures h <= p + t / 2.0
  {
    var c := p + t / 2.0;
    assert c * c == p * p + p * t + t * t / 4.0;
    assert t * v == t * p - t * (p * p) by { assert v == p - p * p; }
    assert p * p * (1.0 + t) == p * p + t * (p * p);
    Reals.NonNegative(p * p, 1.0 + t);
    Reals.SquareOrder(h, c);
  }

  lemma HighGap(p: real, t: real, v: real, h: real)
    requires 0.0 <= p <= 1.0 && t >= 0.0 && h >= 0.0 && v == p * (1.0 - p) && h * h == t * v + t * t / 4.0
    ensures h <= (1.0 + t) - (p + t / 2.0)
  {
    var r := 1.0 - p;
    assert r * (1.0 - r) == v;
    LowGap(r, t, v, h);
  }

  lemma MiddleGap(p: real, t: real, v: real, h: real)
    requires 0.0 <= p <= 1.0 && t >= 0.0 && h >= 0.0 && v == p * (1.0 - p) && v >= 0.0 && h * h == t * v + t * t / 4.0
    ensures (p + t / 2.0) - h <= p * (1.0 + t) <= (p + t / 2.0) + h
  {
    var e := (p + t / 2.0) - p * (1.0 + t);
    var m := 0.5 - p;
    assert e == t * m;
    assert m * m == 0.25 - v;
    assert e * e == (t * t) * (m * m);
    Reals.NonNegative(t * t, v);
    assert (t * t) * (0.25 - v) == t * t / 4.0 - (t * t) * v;
    Reals.NonNegative(t, v);
    assert e * e <= h * h;
    Reals.SquareOrder(e, h);
  }

  /** The unclamped bounds already lie in [0, 1], so the clamps change nothing; k / n lies between them,
      which are in descending order for a negative quantile. */
  lemma WilsonInside(k: nat, n: nat, z: real, sqrt: real -> real)
    requires 0 < n && k <= n && Reals.IsSqrt(sqrt)
    ensures WilsonCi(k, n, z, sqrt) == Bounds(k, n, z, sqrt)
    ensures 0.0 <= Bounds(k, n, z, sqrt).0 <= 1.0 && 0.0 <= Bounds(k, n, z, sqrt).1 <= 1.0
    ensures var p := Over(k as real, n as real);
      if z >= 0.0 then Bounds(k, n, z, sqrt).0 <= p <= Bounds(k, n, z, sqrt).1
      else Bounds(k, n, z, sqrt).1 <= p <= Bounds(k, n, z, sqrt).0
  {
    var p := Over(k as real, n as real);
    Proportion(k as real, n as real, p);
    BoundsAround(p, n as real, z, sqrt);
  }

  lemma Proportion(k: real, n: real, p: real)
    requires 0.0 <= k <= n && n > 0.0 && p == Over(k, n)
    ensures 0.0 <= p <= 1.0
  {
    Reals.AtLeast(k, 0.0, n);
    Reals.AtMost(k, 1.0, n);
  }

  /** The two bounds, w apart from the center, in either order. */
  lemma BoundsAround(p: real, n: real, z: real, sqrt: real -> real)
    requires n > 0.0 && 0.0 <= p <= 1.0 && Reals.IsSqrt(sqrt)
    ensures z * z / n >= 0.0
    ensures var t := Over(z * z, n); var w := Over(HalfNumerator(p, n, z, sqrt), 1.0 + t);
      if z >= 0.0 then 0.0 <= Center(p, t) - w <= p <= Center(p, t) + w <= 1.0
      else 0.0 <= Center(p, t) + w <= p <= Center(p, t) - w <= 1.0
  {
    SquaresOverCount(n, z);
    var t, h := Over(z * z, n), HalfNumerator(p, n, z, sqrt);
    HalfNumeratorIs(p, n, z, sqrt, t, h);
    if z >= 0.0 {
      HalfWidthAround(p, t, h);
    } else {
      SquareOfNegated(h);
      HalfWidthAround(p, t, -h);
      Negated(h, 1.0 + t);
    }
  }

  lemma SquareOfNegated(h: real)
    ensures (-h) * (-h) == h * h
  {}

  lemma HalfWidthAround(p: real, t: real, h: real)
    requires 0.0 <= p <= 1.0 && t >= 0.0 && h >= 0.0 && h * h == t * (p * (1.0 - p) + t / 4.0)
    ensures 0.0 <= Center(p, t) - Over(h, 1.0 + t) <= p <= Center(p, t) + Over(h, 1.0 + t) <= 1.0
  {
    Numerators(p, t, h);
    OverDenominator(p, t, h, p + t / 2.0, 1.0 + t);
  }

  lemma Negated(h: real, d: real)
    requires d > 0.0
    ensures Over(-h, d) == -Over(h, d)
  {
    Reals.Undo(h, d);
    Reals.Exactly(-h, -Over(h, d), d);
  }

  lemma HalfNumeratorIs(p: real, n: real, z: real, sqrt: real -> real, t: real, h: real)
    requires n > 0.0 && 0.0 <= p <= 1.0 && Reals.IsSqrt(sqrt)
    requires t == Over(z * z, n) && h == HalfNumerator(p, n, z, sqrt)
    ensures if z >= 0.0 then h >= 0.0 else h <= 0.0
    ensures h * h == t * (p * (1.0 - p) + t / 4.0)
  {
    SquaresOverCount(n, z);
    var y := p * (1.0 - p) + z * z / (4.0 * n);
    Reals.NonNegative(p, 1.0 - p);
    Reals.AtLeast(y, 0.0, n);
    var root := sqrt(Over(y, n));
    Signed(z, root);
    RootTimes(z, root, Over(y, n), n, y, t, h);
    EqualProducts(t, y, p * (1.0 - p) + t / 4.0);
  }

  lemma Signed(z: real, root: real)
    requires root >= 0.0
    ensures if z >= 0.0 then z * root >= 0.0 else z * root <= 0.0
  {
    if z >= 0.0 { Reals.NonNegative(z, root); } else { Reals.NonNegative(-z, root); }
  }

  lemma EqualProducts(t: real, x: real, y: real)
    requires x == y
    ensures t * x == t * y
  {}

  lemma RootTimes(z: real, root: real, x: real, m: real, y: real, t: real, h: real)
    requires m > 0.0 && root * root == x && x == y / m && t == z * z / m && h == z * root
    ensures h * h == t * y
  {
    Reals.Undo(y, m);
    Reals.Undo(z * z, m);
    assert h * h == (z * z) * (root * root);
    assert (z * z) * x == (t * m) * x;
    assert (t * m) * x == t * (x * m);
  }

  lemma SumOver(a: real, b: real, d: real)
    requires d > 0.0
    ensures a / d - b / d == (a - b) / d && a / d + b / d == (a + b) / d
  {
    Reals.Undo(a, d);
    Reals.Undo(b, d);
    Reals.Exactly(a - b, a / d - b / d, d);
    Reals.Exactly(a + b, a / d + b / d, d);
  }

  lemma OverDenominator(p: real, t: real, h: real, c: real, d: real)
    requires t >= 0.0 && c == p + t / 2.0 && d == 1.0 + t && h <= c && h <= d - c && c - h <= p * d <= c + h
    ensures 0.0 <= Center(p, t) - Over(h, d) <= p <= Center(p, t) + Over(h, d) <= 1.0
  {
    SumOver(c, h, d);
    Reals.AtLeast(c - h, 0.0, d);
    Reals.AtMost(c - h, p, d);
    Reals.AtLeast(c + h, p, d);
    Reals.AtMost(c + h, 1.0, d);
  }

  // ----- paired counts -----

  datatype Record = Record(scored: bool, gold: string, correct: bool)

  /** Both sides extracted an answer to the same question. */
  predicate Paired(t: Record, c: Record) {
    t.scored && c.scored && t.gold == c.gold
  }

  datatype Tally = Tally(both: nat, treatedOnly: nat, controlOnly: nat, neither: nat, paired: nat) {
    function Plus(other: Tally): Tally {
      Tally(both + other.both, treatedOnly + other.treatedOnly, controlOnly + other.controlOnly,
            neither + other.neither, paired + other.paired)
    }
  }

  /** How many of the first m pairs are paired with the given outcomes. */
  function Matching(t: seq<Record>, c: seq<Record>, m: nat, treated: bool, control: bool): nat
    requires m <= |t| == |c|
  {
    if m == 0 then 0
    else
      Matching(t, c, m - 1, treated, control)
      + (if Paired(t[m - 1], c[m - 1]) && t[m - 1].correct == treated && c[m - 1].correct == control then 1 else 0)
  }

  function PairedAmong(t: seq<Record>, c: seq<Record>, m: nat): nat
    requires m <= |t| == |c|
  {
    if m == 0 then 0 else PairedAmong(t, c, m - 1) + (if Paired(t[m - 1], c[m - 1]) then 1 else 0)
  }

  function SeedTally(t: seq<Record>, c: seq<Record>, m: nat): Tally
    requires m <= |t| == |c|
  {
    Tally(Matching(t, c, m, true, true), Matching(t, c, m, true, false), Matching(t, c, m, false, true),
          Matching(t, c, m, false, false), PairedAmong(t, c, m))
  }

  /** Sums over the first m seeds; seeds whose record lists differ in length are skipped. */
  function Totals(seeds: seq<(seq<Record>, seq<Record>)>, m: nat): Tally
    requires m <= |seeds|
  {
    if m == 0 then Tally(0, 0, 0, 0, 0)
    else
      var (t, c) := seeds[m - 1];
      if |t| != |c| then Totals(seeds, m - 1) else Totals(seeds, m - 1).Plus(SeedTally(t, c, |t|))
  }

  /** The counting loop over one seed. */
  method CountSeed(t: seq<Record>, c: seq<Record>) returns (r: Tally)
    requires |t| == |c|
    ensures r == SeedTally(t, c, |t|)
    ensures r.both + r.treatedOnly + r.controlOnly + r.neither == r.paired
  {
    r := Tally(0, 0, 0, 0, 0);
    for i := 0 to |t|
      invariant r == SeedTally(t, c, i) && r.both + r.treatedOnly + r.controlOnly + r.neither == r.paired
    {
      if !t[i].scored || !c[i].scored { continue; }
      if t[i].gold != c[i].gold { continue; }
      r := r.(paired := r.paired + 1);
      if t[i].correct && c[i].correct { r := r.(both := r.both + 1); }
      else if t[i].correct && !c[i].correct { r := r.(treatedOnly := r.treatedOnly + 1); }
      else if !t[i].correct && c[i].correct { r := r.(controlOnly := r.controlOnly + 1); }
      else { r := r.(neither := r.neither + 1); }
    }
  }

  /** The totals over all seeds partition the paired questions, so the variance is never negative. */
  method CountAll(seeds: seq<(seq<Record>, seq<Record>)>) returns (r: Tally)
    ensures r == Totals(seeds, |seeds|)
    ensures r.both + r.treatedOnly + r.controlOnly + r.neither == r.paired
    ensures r.paired > 0 ==> VarianceNumerator(r) >= 0.0
  {
    r := Tally(0, 0, 0, 0, 0);
    for i := 0 to |seeds|
      invariant r == Totals(seeds, i)
      invariant r.both + r.treatedOnly + r.controlOnly + r.neither == r.paired
    {
      if |seeds[i].0| != |seeds[i].1| { continue; }
      var s := CountSeed(seeds[i].0, seeds[i].1);
      r := r.Plus(s);
    }
    if r.paired > 0 { VarianceNonNegative(r); }
  }

  /** `(b + c) - (b - c) ** 2 / n`. */
  function VarianceNumerator(r: Tally): real
    requires r.paired > 0
  {
    var diff := (r.treatedOnly - r.controlOnly) as real;
    (r.treatedOnly + r.controlOnly) as real - Over(diff * diff, r.paired as real)
  }

  /** The variance numerator is never negative, so the maximum with zero changes nothing. */
  lemma VarianceNonNegative(r: Tally)
    requires r.paired > 0 && r.treatedOnly + r.controlOnly <= r.paired
    ensures VarianceNumerator(r) >= 0.0
  {
    var b, c, n := r.treatedOnly as real, r.controlOnly as real, r.paired as real;
    assert (r.treatedOnly - r.controlOnly) as real == b - c;
    SquareOverTotal(b, c, n, (b - c) * (b - c));
  }

  /** A squared difference is at most the squared sum, and so at most n sums. */
  lemma SquareOverTotal(b: real, c: real, n: real, sq: real)
    requires b >= 0.0 && c >= 0.0 && b + c <= n && n > 0.0 && sq == (b - c) * (b - c)
    ensures Over(sq, n) <= b + c
  {
    SquareOfDifference(b, c);
    SquareAtMost(b + c, n);
    Reals.AtMost(sq, b + c, n);
  }

  lemma SquareAtMost(s: real, n: real)
    requires 0.0 <= s <= n
    ensures s * s <= s * n
  {
    Reals.NonNegative(s, n - s);
    assert s * (n - s) == s * n - s * s;
  }

  lemma SquareOfDifference(b: real, c: real)
    requires b >= 0.0 && c >= 0.0
    ensures (b - c) * (b - c) <= (b + c) * (b + c)
  {
    Reals.NonNegative(b, c);
    assert (b + c) * (b + c) - (b - c) * (b - c) == 4.0 * (b * c);
  }
}
