/** The TurboQuant row codec: sign flip, rotation, normalisation, cell search and bit packing, and
    the decoder that reverses it. A row is one output channel; every step of the original acts on
    all rows alike. */
module TurboQuant {
  import Reals
  import opened Arithmetic
  import opened Bits
  import opened Vectors
  import opened Fwht
  import opened Rotation
  import opened LloydMax
  import opened Walsh
  import opened BytePacking

  const NORM_FLOOR: real := 0.0000000001  // 1e-10

  // ----- groups: reshape(num_groups, group_size) and back -----

  function Groups<T>(x: seq<T>, size: nat): (g: seq<seq<T>>)
    requires size > 0
    ensures forall i :: 0 <= i < |g| ==> |g[i]| == size
  {
    if |x| < size then [] else [x[..size]] + Groups(x[size..], size)
  }

  function Flatten<T>(g: seq<seq<T>>): seq<T> {
    if |g| == 0 then [] else g[0] + Flatten(g[1..])
  }

  lemma {:induction false} GroupsOfFlatten<T>(g: seq<seq<T>>, size: nat)
    requires size > 0 && forall i :: 0 <= i < |g| ==> |g[i]| == size
    ensures Groups(Flatten(g), size) == g
  {
    if |g| > 0 {
      GroupsOfFlatten(g[1..], size);
      assert Flatten(g)[..size] == g[0] && Flatten(g)[size..] == Flatten(g[1..]);
    }
  }

  lemma {:induction false} GroupsSameCount<S, T>(x: seq<S>, y: seq<T>, size: nat)
    requires size > 0 && |x| == |y|
    ensures |Groups(x, size)| == |Groups(y, size)|
  {
    if |x| >= size { GroupsSameCount(x[size..], y[size..], size); }
  }

  // ----- one group -----

  function Rotated(w: seq<real>, s: seq<real>, root: real): (r: seq<real>)
    requires |w| == |s| && IsRootOf(root, |w|)
    ensures |r| == |w|
  {
    Rotate(Mul(w, s), root)
  }

  /** `np.maximum(np.linalg.norm(group), 1e-10)`. */
  function GroupNorm(rotated: seq<real>, sqrt: real -> real): (norm: real)
    ensures norm >= NORM_FLOOR > 0.0
  {
    var norm := sqrt(SqNorm(rotated));
    if norm < NORM_FLOOR then NORM_FLOOR else norm
  }

  function CellIndices(boundaries: seq<real>, normed: seq<real>): (indices: seq<nat>)
    requires |boundaries| >= 2
    ensures |indices| == |normed| && forall i :: 0 <= i < |normed| ==> indices[i] < |boundaries| - 1
  {
    seq(|normed|, i requires 0 <= i < |normed| => CellIndex(boundaries, normed[i]))
  }

  predicate InTable(indices: seq<nat>, size: nat) {
    forall i :: 0 <= i < |indices| ==> indices[i] < size
  }

  function Lookup(centroids: seq<real>, indices: seq<nat>): (c: seq<real>)
    requires InTable(indices, |centroids|)
  {
    seq(|indices|, i requires 0 <= i < |indices| => centroids[indices[i]])
  }

  /** The decoder on one group: scale the centroids, rotate back, undo the signs. */
  function DecodeGroup(chosen: seq<real>, norm: real, s: seq<real>, root: real): (w: seq<real>)
    requires |chosen| == |s| && IsRootOf(root, |s|)
    ensures |w| == |s|
  {
    Mul(Rotate(Scale(norm, chosen), root), s)
  }

  lemma SignsTwice(s: seq<real>, w: seq<real>)
    requires |s| == |w| && IsSigns(s)
    ensures Mul(Mul(w, s), s) == w
  {
    forall i | 0 <= i < |w| ensures Mul(Mul(w, s), s)[i] == w[i] {
      SignSquare(s[i], w[i], Mul(w, s)[i]);
    }
  }

  lemma SignSquare(s: real, w: real, p: real)
    requires (s == 1.0 || s == -1.0) && p == w * s
    ensures p * s == w
  {
    if s == 1.0 { assert p == w; } else { assert p == -w; }
  }

  lemma SignsDistance(s: seq<real>, u: seq<real>, v: seq<real>)
    requires |s| == |u| == |v| && IsSigns(s)
    ensures SqDist(Mul(u, s), Mul(v, s)) == SqDist(u, v)
  {
    var l, r := Sub(Mul(u, s), Mul(v, s)), Mul(s, Sub(u, v));
    forall i | 0 <= i < |l| ensures l[i] == r[i] { SignTerms(s[i], u[i], v[i]); }
    assert l == r;
    DotSigns(s, Sub(u, v), Sub(u, v));
  }

  lemma SignTerms(s: real, u: real, v: real)
    ensures u * s - v * s == s * (u - v)
  {}

  lemma NormaliseThenScale(x: seq<real>, norm: real)
    requires norm > 0.0
    ensures Scale(norm, Normalise(x, norm)) == x
  {
    forall i | 0 <= i < |x| ensures Scale(norm, Normalise(x, norm))[i] == x[i] {
      Undivide(norm, x[i], Normalise(x, norm)[i]);
    }
  }

  lemma Undivide(n: real, a: real, q: real)
    requires n > 0.0 && q == a / n
    ensures n * q == a
  {}

  lemma ScaleDistance(c: real, u: seq<real>, v: seq<real>, w: real)
    requires |u| == |v| && w == SqDist(u, v)
    ensures SqDist(Scale(c, u), Scale(c, v)) == (c * c) * w
  {
    var l, r := Sub(Scale(c, u), Scale(c, v)), Scale(c, Sub(u, v));
    forall i | 0 <= i < |l| ensures l[i] == r[i] { SignTerms(c, u[i], v[i]); ScaleTerms(c, u[i], v[i]); }
    assert l == r;
    DotScale(c, Sub(u, v), c, Sub(u, v), w);
  }

  lemma ScaleTerms(c: real, u: real, v: real)
    ensures c * u - c * v == c * (u - v)
  {}

  /** The weights moved by exactly the norm times the distance from the normalised rotated weights
      to the centroids chosen for them. */
  predicate ErrorIs(decoded: seq<real>, w: seq<real>, norm: real, chosen: seq<real>, normed: seq<real>) {
    && |decoded| == |w| == |chosen| == |normed|
    && SqDist(decoded, w) == SquareTimes(norm, SqDist(chosen, normed))
  }

  function SquareTimes(norm: real, d: real): real {
    (norm * norm) * d
  }

  /** Signs and rotation are undone without changing distances. */
  lemma DecodeDistance(w: seq<real>, s: seq<real>, root: real, scaled: seq<real>, rotated: seq<real>)
    requires |w| == |s| == |scaled| && IsSigns(s) && SizeGuard(|w|) && IsRootOf(root, |w|)
    requires rotated == Rotated(w, s, root)
    ensures SqDist(Mul(Rotate(scaled, root), s), w) == SqDist(scaled, rotated)
  {
    RotateTwice(Mul(w, s), root);
    SignsTwice(s, w);
    SignsDistance(s, Rotate(scaled, root), Rotate(rotated, root));
    RotateDistance(scaled, rotated, root);
  }

  lemma NormDistance(chosen: seq<real>, rotated: seq<real>, norm: real, normed: seq<real>)
    requires |chosen| == |rotated| && norm > 0.0 && normed == Normalise(rotated, norm)
    ensures SqDist(Scale(norm, chosen), rotated) == (norm * norm) * SqDist(chosen, normed)
  {
    NormaliseThenScale(rotated, norm);
    ScaleDistance(norm, chosen, normed, SqDist(chosen, normed));
  }

  /** The error identity holds whatever centroids are chosen. */
  lemma GroupError(w: seq<real>, s: seq<real>, root: real, norm: real, chosen: seq<real>)
    requires |w| == |s| == |chosen| && IsSigns(s) && norm > 0.0
    requires SizeGuard(|w|) && IsRootOf(root, |w|)
    ensures ErrorIs(DecodeGroup(chosen, norm, s, root), w, norm, chosen, Normalise(Rotated(w, s, root), norm))
  {
    var rotated := Rotated(w, s, root);
    var normed := Normalise(rotated, norm);
    DecodeDistance(w, s, root, Scale(norm, chosen), rotated);
    NormDistance(chosen, rotated, norm, normed);
  }

  /** Normalised rotated weights stay inside the codebook's interval. */
  lemma NormedInRange(rotated: seq<real>, sqrt: real -> real, i: nat)
    requires Reals.IsSqrt(sqrt) && i < |rotated|
    ensures -1.0 <= Normalise(rotated, GroupNorm(rotated, sqrt))[i] <= 1.0
  {
    var norm, x := GroupNorm(rotated, sqrt), rotated[i];
    CoordinateBound(rotated, i);
    var r := sqrt(SqNorm(rotated));
    Reals.SquareOrder(x, r);
    WithinNorm(x, norm, Normalise(rotated, norm)[i]);
  }

  lemma WithinNorm(x: real, n: real, q: real)
    requires n > 0.0 && -n <= x <= n && q == x / n
    ensures -1.0 <= q <= 1.0
  {
    Reals.AtMost(x, 1.0, n);
    Reals.AtLeast(x, -1.0, n);
  }

  /** Each weight's index names the cell its normalised rotated value lies in, and the centroid it
      decodes to lies in that same cell. */
  lemma ChosenInCell(rotated: seq<real>, sqrt: real -> real, centroids: seq<real>, boundaries: seq<real>, i: nat)
    requires Reals.IsSqrt(sqrt) && IsCodebook(centroids, boundaries) && |centroids| > 0 && i < |rotated|
    ensures var normed := Normalise(rotated, GroupNorm(rotated, sqrt));
      var c := CellIndices(boundaries, normed)[i];
      && boundaries[c] <= normed[i] <= boundaries[c + 1]
      && boundaries[c] <= centroids[c] <= boundaries[c + 1]
  {
    NormedInRange(rotated, sqrt, i);
    CellContains(boundaries, Normalise(rotated, GroupNorm(rotated, sqrt))[i]);
  }

  /** The widths of the cells the indices name. */
  function CellWidths(boundaries: seq<real>, indices: seq<nat>): (widths: seq<real>)
    requires |boundaries| >= 2 && InTable(indices, |boundaries| - 1)
    ensures |widths| == |indices|
  {
    seq(|indices|, i requires 0 <= i < |indices| => boundaries[indices[i] + 1] - boundaries[indices[i]])
  }

  /** With a codebook, the squared weight error of a group is at most its squared norm times the squared
      widths of the cells chosen for it. */
  predicate WithinCells(decoded: seq<real>, w: seq<real>, norm: real, boundaries: seq<real>, indices: seq<nat>)
    requires |boundaries| >= 2 && InTable(indices, |boundaries| - 1)
  {
    |decoded| == |w| && SqDist(decoded, w) <= SquareTimes(norm, SqNorm(CellWidths(boundaries, indices)))
  }

  lemma ErrorWithinCells(decoded: seq<real>, w: seq<real>, rotated: seq<real>, sqrt: real -> real,
                         centroids: seq<real>, boundaries: seq<real>, indices: seq<nat>)
    requires Reals.IsSqrt(sqrt) && IsCodebook(centroids, boundaries) && |centroids| > 0
    requires indices == CellIndices(boundaries, Normalise(rotated, GroupNorm(rotated, sqrt)))
    requires InTable(indices, |centroids|)
    requires ErrorIs(decoded, w, GroupNorm(rotated, sqrt), Lookup(centroids, indices),
                     Normalise(rotated, GroupNorm(rotated, sqrt)))
    ensures WithinCells(decoded, w, GroupNorm(rotated, sqrt), boundaries, indices)
  {
    var norm := GroupNorm(rotated, sqrt);
    var chosen, normed, widths := Lookup(centroids, indices), Normalise(rotated, norm), CellWidths(boundaries, indices);
    forall i | 0 <= i < |normed| ensures -widths[i] <= chosen[i] - normed[i] <= widths[i] {
      CellCovers(rotated, sqrt, centroids, boundaries, indices, i);
    }
    ErrorWithin(decoded, w, norm, chosen, normed, widths, SqDist(chosen, normed), SqNorm(widths));
  }

  lemma CellCovers(rotated: seq<real>, sqrt: real -> real, centroids: seq<real>, boundaries: seq<real>,
                   indices: seq<nat>, i: nat)
    requires Reals.IsSqrt(sqrt) && IsCodebook(centroids, boundaries) && |centroids| > 0 && i < |rotated|
    requires indices == CellIndices(boundaries, Normalise(rotated, GroupNorm(rotated, sqrt)))
    ensures indices[i] < |centroids|
    ensures var normed, width := Normalise(rotated, GroupNorm(rotated, sqrt)), CellWidths(boundaries, indices)[i];
      -width <= centroids[indices[i]] - normed[i] <= width
  {
    ChosenInCell(rotated, sqrt, centroids, boundaries, i);
  }

  lemma ErrorWithin(decoded: seq<real>, w: seq<real>, norm: real, chosen: seq<real>, normed: seq<real>,
                    widths: seq<real>, d: real, b: real)
    requires ErrorIs(decoded, w, norm, chosen, normed) && |widths| == |chosen|
    requires d == SqDist(chosen, normed) && b == SqNorm(widths)
    requires forall i :: 0 <= i < |normed| ==> -widths[i] <= chosen[i] - normed[i] <= widths[i]
    ensures SqDist(decoded, w) <= SquareTimes(norm, b)
  {
    SqNormBelow(Sub(chosen, normed), widths);
    TimesSquare(norm, d, b);
  }

  lemma TimesSquare(norm: real, a: real, b: real)
    requires a <= b
    ensures SquareTimes(norm, a) <= SquareTimes(norm, b)
  {
    var n := norm * norm;
    Reals.Sandwich(a, b, b, n, b * n);
  }

  // ----- the decoder with the CUDA sign convention -----

  /** What the sign bug makes of one group. */
  function BugDecodeGroup(chosen: seq<real>, norm: real, s: seq<real>, root: real): (w: seq<real>)
    requires |chosen| == |s| && IsRootOf(root, |s|)
  {
    Mul(Normalise(Flip(Wht(Scale(norm, chosen))), root), s)
  }

  lemma BugElement(chosen: seq<real>, norm: real, s: seq<real>, root: real, i: nat)
    requires |chosen| == |s| && IsRootOf(root, |s|) && i < |s|
    ensures |BugDecodeGroup(chosen, norm, s, root)| == |s|
    ensures BugDecodeGroup(chosen, norm, s, root)[i] == Parity(i) * DecodeGroup(chosen, norm, s, root)[i]
  {
    var x := Scale(norm, chosen);
    SignBugAt(x, root, i);
    ParityFirst(Parity(i), Rotate(x, root)[i], s[i], Normalise(Flip(Wht(x)), root)[i],
                DecodeGroup(chosen, norm, s, root)[i]);
  }

  /** The buggy decoder negates exactly the elements with an odd number of index bits. */
  lemma BugDecodeAt(chosen: seq<real>, norm: real, s: seq<real>, root: real)
    requires |chosen| == |s| && IsRootOf(root, |s|)
    ensures |BugDecodeGroup(chosen, norm, s, root)| == |s|
    ensures forall i :: 0 <= i < |s| ==>
      BugDecodeGroup(chosen, norm, s, root)[i] == Parity(i) * DecodeGroup(chosen, norm, s, root)[i]
  {
    var good, bad := DecodeGroup(chosen, norm, s, root), BugDecodeGroup(chosen, norm, s, root);
    forall i | 0 <= i < |s| ensures bad[i] == Parity(i) * good[i] { BugElement(chosen, norm, s, root, i); }
  }

  /** It decodes the centroids of the group in reverse order. */
  lemma BugDecodesReversed(chosen: seq<real>, norm: real, s: seq<real>, root: real)
    requires |chosen| == |s| && SizeGuard(|s|) && IsRootOf(root, |s|)
    ensures BugDecodeGroup(chosen, norm, s, root) == DecodeGroup(Rev(chosen), norm, s, root)
  {
    BugReverses(Scale(norm, chosen), root);
    RevScale(norm, chosen);
  }

  lemma DecodeInjective(chosen: seq<real>, other: seq<real>, norm: real, s: seq<real>, root: real)
    requires |chosen| == |other| == |s| && IsSigns(s) && norm > 0.0 && SizeGuard(|s|) && IsRootOf(root, |s|)
    requires DecodeGroup(chosen, norm, s, root) == DecodeGroup(other, norm, s, root)
    ensures chosen == other
  {
    var x, y := Scale(norm, chosen), Scale(norm, other);
    SignsTwice(s, Rotate(x, root));
    SignsTwice(s, Rotate(y, root));
    RotateInjective(x, y, root);
    ScaleInjective(norm, chosen, other);
  }

  /** The two decoders agree on a group exactly when its chosen centroids read the same backwards. */
  lemma BugAgreesIff(chosen: seq<real>, norm: real, s: seq<real>, root: real)
    requires |chosen| == |s| && IsSigns(s) && norm > 0.0 && SizeGuard(|s|) && IsRootOf(root, |s|)
    ensures BugDecodeGroup(chosen, norm, s, root) == DecodeGroup(chosen, norm, s, root) <==> chosen == Rev(chosen)
  {
    BugDecodesReversed(chosen, norm, s, root);
    if BugDecodeGroup(chosen, norm, s, root) == DecodeGroup(chosen, norm, s, root) {
      DecodeInjective(Rev(chosen), chosen, norm, s, root);
    }
  }

  lemma ParityFirst(p: real, r: real, s: real, q: real, g: real)
    requires q == p * r && g == r * s
    ensures q * s == p * g
  {}

  // ----- a whole row -----

  function RowRotated(weight: seq<real>, signs: seq<real>, size: nat, root: real): (r: seq<seq<real>>)
    requires size > 0 && |weight| == |signs| && IsRootOf(root, size)
    ensures |r| == |Groups(weight, size)| == |Groups(signs, size)| && forall g :: 0 <= g < |r| ==> |r[g]| == size
  {
    GroupsSameCount(weight, signs, size);
    seq(|Groups(weight, size)|, g requires 0 <= g < |Groups(weight, size)| =>
      Rotated(Groups(weight, size)[g], Groups(signs, size)[g], root))
  }

  function RowScales(rotated: seq<seq<real>>, sqrt: real -> real): (scales: seq<real>)
    ensures |scales| == |rotated| && forall g :: 0 <= g < |scales| ==> scales[g] >= NORM_FLOOR > 0.0
  {
    seq(|rotated|, g requires 0 <= g < |rotated| => GroupNorm(rotated[g], sqrt))
  }

  function RowCells(rotated: seq<seq<real>>, boundaries: seq<real>, sqrt: real -> real): (cells: seq<seq<nat>>)
    requires |boundaries| >= 2
    ensures |cells| == |rotated|
    ensures forall g :: 0 <= g < |cells| ==> |cells[g]| == |rotated[g]| && InTable(cells[g], |boundaries| - 1)
  {
    seq(|rotated|, g requires 0 <= g < |rotated| =>
      CellIndices(boundaries, Normalise(rotated[g], GroupNorm(rotated[g], sqrt))))
  }

  /** The rotated group has the squared norm of the weights it came from. */
  lemma RotatedNorm(w: seq<real>, s: seq<real>, root: real)
    requires |w| == |s| && IsSigns(s) && SizeGuard(|w|) && IsRootOf(root, |w|)
    ensures SqNorm(Rotated(w, s, root)) == SqNorm(w)
  {
    var flipped := Mul(w, s);
    RotateIsometry(flipped, flipped, root);
    assert flipped == Mul(s, w) by {
      forall i | 0 <= i < |w| ensures flipped[i] == Mul(s, w)[i] { Swapped(w[i], s[i]); }
    }
    DotSigns(s, w, w);
  }

  lemma Swapped(a: real, b: real)
    ensures a * b == b * a
  {}

  /** A stored scale squares to the squared norm of its weights, or is 1e-10 when that norm is smaller. */
  predicate IsNorm(scale: real, sq: real) {
    && scale > 0.0
    && if sq >= 0.00000000000000000001 then scale * scale == sq else scale == 0.0000000001
  }

  lemma NormIs(x: seq<real>, sqrt: real -> real)
    requires Reals.IsSqrt(sqrt)
    ensures IsNorm(GroupNorm(x, sqrt), SqNorm(x))
  {
    SqNormNonNegative(x);
    FlooredRoot(SqNorm(x), sqrt(SqNorm(x)));
  }

  lemma FlooredRoot(sq: real, r: real)
    requires r >= 0.0 && r * r == sq
    ensures IsNorm(if r < 0.0000000001 then 0.0000000001 else r, sq)
  {
    var f := 0.0000000001;
    if r < f { Reals.SquareGap(r, f); } else { Reals.SquareBelow(f, r); }
  }

  /** Every scale of a row is the norm of its own weights. */
  lemma RowNorms(weight: seq<real>, signs: seq<real>, size: nat, root: real, sqrt: real -> real)
    requires size > 0 && |weight| == |signs| && IsSigns(signs) && SizeGuard(size) && IsRootOf(root, size)
    requires Reals.IsSqrt(sqrt)
    ensures var w, scales := Groups(weight, size), RowScales(RowRotated(weight, signs, size, root), sqrt);
      |scales| == |w| && forall g :: 0 <= g < |w| ==> IsNorm(scales[g], SqNorm(w[g]))
  {
    var w, s, rotated := Groups(weight, size), Groups(signs, size), RowRotated(weight, signs, size, root);
    GroupSigns(signs, size);
    forall g | 0 <= g < |w| ensures IsNorm(RowScales(rotated, sqrt)[g], SqNorm(w[g])) {
      RotatedNorm(w[g], s[g], root);
      NormIs(rotated[g], sqrt);
    }
  }

  method RotateRow(weight: seq<real>, signs: seq<real>, size: nat, root: real) returns (rotated: seq<seq<real>>)
    requires size > 0 && |weight| == |signs| && SizeGuard(size) && IsRootOf(root, size)
    ensures rotated == RowRotated(weight, signs, size, root)
  {
    var w, s := Groups(weight, size), Groups(signs, size);
    GroupsSameCount(weight, signs, size);
    rotated := [];
    for g := 0 to |w|
      invariant |rotated| == g
      invariant forall k :: 0 <= k < g ==> rotated[k] == Rotated(w[k], s[k], root)
    {
      var flipped := Mul(w[g], s[g]);
      var buffer := new real[size](i requires 0 <= i < size => flipped[i]);
      assert buffer[..] == flipped;
      FwhtNumpy(buffer, root);
      rotated := rotated + [buffer[..]];
    }
  }

  method QuantizeRow(weight: seq<real>, signs: seq<real>, bits: nat, size: nat,
                     boundaries: seq<real>, sqrt: real -> real) returns (packed: array<nat>, scales: seq<real>)
    requires 2 <= bits <= 4 && size > 0 && |weight| % size == 0 && |signs| == |weight|
    requires SizeGuard(size) && Reals.IsSqrt(sqrt)
    requires |boundaries| == Pow2(bits) + 1
    ensures var eff, rotated := EffectiveBits(bits), RowRotated(weight, signs, size, sqrt(size as real));
      && scales == RowScales(rotated, sqrt)
      && packed[..] == PackBytes(Masked(Flatten(RowCells(rotated, boundaries, sqrt)), eff), 8 / eff, eff)
    ensures |scales| == |Groups(weight, size)|
    ensures IsSigns(signs) ==>
      forall g :: 0 <= g < |scales| ==> IsNorm(scales[g], SqNorm(Groups(weight, size)[g]))
  {
    var rotated := RotateRow(weight, signs, size, sqrt(size as real));
    scales := RowScales(rotated, sqrt);
    if IsSigns(signs) { RowNorms(weight, signs, size, sqrt(size as real), sqrt); }
    packed := PackRow(Flatten(RowCells(rotated, boundaries, sqrt)), bits);
  }

  function DecodeWith(c: Convention, chosen: seq<real>, norm: real, s: seq<real>, root: real): seq<real>
    requires |chosen| == |s| && IsRootOf(root, |s|)
  {
    if c.Faithful? then DecodeGroup(chosen, norm, s, root) else BugDecodeGroup(chosen, norm, s, root)
  }

  /** One group: scale the centroids, transform in the given convention, undo the signs. */
  method DecodeOne(c: Convention, chosen: seq<real>, norm: real, s: seq<real>, root: real) returns (w: seq<real>)
    requires |chosen| == |s| && SizeGuard(|s|) && IsRootOf(root, |s|)
    ensures w == DecodeWith(c, chosen, norm, s, root)
  {
    var x := Scale(norm, chosen);
    if c.Faithful? {
      var buffer := new real[|s|](i requires 0 <= i < |s| => x[i]);
      assert buffer[..] == x;
      FwhtNumpy(buffer, root);
      w := Mul(buffer[..], s);
    } else {
      var y := LaneExchangeFwht(x, root);
      w := Mul(y, s);
    }
  }

  /** The stored indices all name a centroid. */
  predicate Decodable(packed: seq<nat>, count: nat, bits: nat, levels: nat)
    requires 2 <= bits <= 4
  {
    var per, eff := 8 / EffectiveBits(bits), EffectiveBits(bits);
    forall k :: 0 <= k < count && k / per < |packed| ==> IndexIn(packed, k, per, eff) < levels
  }

  lemma DecodedInTable(packed: seq<nat>, indices: seq<nat>, bits: nat, levels: nat)
    requires 2 <= bits <= 4 && Decodable(packed, |indices|, bits, levels) && Stores(packed, indices, bits)
    ensures InTable(indices, levels)
  {}

  /** The decoder's loop over the groups of a row. */
  method DecodeGroups(c: Convention, cells: seq<seq<nat>>, scales: seq<real>, s: seq<seq<real>>,
                      centroids: seq<real>, size: nat, root: real) returns (out: seq<seq<real>>)
    requires SizeGuard(size) && IsRootOf(root, size) && |cells| == |scales| == |s|
    requires forall g :: 0 <= g < |cells| ==> |cells[g]| == |s[g]| == size && InTable(cells[g], |centroids|)
    ensures |out| == |cells|
    ensures forall g :: 0 <= g < |out| ==> out[g] == DecodeWith(c, Lookup(centroids, cells[g]), scales[g], s[g], root)
  {
    out := [];
    for g := 0 to |scales|
      invariant |out| == g
      invariant forall k :: 0 <= k < g ==> out[k] == DecodeWith(c, Lookup(centroids, cells[k]), scales[k], s[k], root)
    {
      var w := DecodeOne(c, Lookup(centroids, cells[g]), scales[g], s[g], root);
      out := out + [w];
    }
  }

  /** The decoder of the parity script, with the faithful transform or with the emulated CUDA one. */
  method DequantRow(c: Convention, packed: seq<nat>, scales: seq<real>, signs: seq<real>,
                    centroids: seq<real>, bits: nat, size: nat, root: real)
    returns (out: seq<seq<real>>, indices: seq<nat>)
    requires 2 <= bits <= 4 && size > 0 && SizeGuard(size) && IsRootOf(root, size)
    requires |Groups(signs, size)| == |scales| && |signs| * EffectiveBits(bits) <= |packed| * 8
    requires Decodable(packed, |signs|, bits, |centroids|)
    ensures |indices| == |signs| && InTable(indices, |centroids|) && Stores(packed, indices, bits)
    ensures |out| == |scales| == |Groups(indices, size)|
    ensures forall g :: 0 <= g < |out| ==>
      && InTable(Groups(indices, size)[g], |centroids|)
      && out[g] == DecodeWith(c, Lookup(centroids, Groups(indices, size)[g]), scales[g], Groups(signs, size)[g], root)
  {
    indices := UnpackRow(packed, |signs|, bits);
    DecodedInTable(packed, indices, bits, |centroids|);
    GroupsSameCount(indices, signs, size);
    GroupsInTable(indices, size, |centroids|);
    out := DecodeGroups(c, Groups(indices, size), scales, Groups(signs, size), centroids, size, root);
  }

  lemma {:induction false} GroupsInTable(indices: seq<nat>, size: nat, n: nat)
    requires size > 0 && InTable(indices, n)
    ensures forall g :: 0 <= g < |Groups(indices, size)| ==> InTable(Groups(indices, size)[g], n)
  {
    if |indices| >= size { GroupsInTable(indices[size..], size, n); }
  }

  lemma {:induction false} FlattenFits(cells: seq<seq<nat>>, n: nat, size: nat)
    requires forall g :: 0 <= g < |cells| ==> InTable(cells[g], n) && |cells[g]| == size
    ensures InTable(Flatten(cells), n) && |Flatten(cells)| == |cells| * size
  {
    if |cells| > 0 {
      FlattenFits(cells[1..], n, size);
      assert |cells| * size == size + |cells[1..]| * size;
    }
  }

  lemma {:induction false} WholeGroups<T>(x: seq<T>, size: nat)
    requires size > 0 && |x| % size == 0
    ensures |Groups(x, size)| * size == |x|
  {
    if |x| > 0 {
      Multiple(|x|, size);
      WholeGroups(x[size..], size);
      assert |Groups(x, size)| * size == size + |Groups(x[size..], size)| * size;
    }
  }

  lemma {:induction false} GroupSigns(signs: seq<real>, size: nat)
    requires size > 0 && IsSigns(signs)
    ensures forall g :: 0 <= g < |Groups(signs, size)| ==> IsSigns(Groups(signs, size)[g])
  {
    if |signs| >= size { GroupSigns(signs[size..], size); }
  }

  /** Encoding a row and decoding it: the indices survive the bytes, every group meets the error identity, and
      with a codebook every group's error is bounded by the widths of its cells. */
  method RoundTripRow(weight: seq<real>, signs: seq<real>, bits: nat, size: nat,
                      centroids: seq<real>, boundaries: seq<real>, sqrt: real -> real)
    returns (out: seq<seq<real>>, indices: seq<nat>)
    requires 2 <= bits <= 4 && size > 0 && |weight| % size == 0 && |signs| == |weight| && IsSigns(signs)
    requires SizeGuard(size) && Reals.IsSqrt(sqrt)
    requires |centroids| == Pow2(bits) && |boundaries| == Pow2(bits) + 1
    ensures var rotated := RowRotated(weight, signs, size, sqrt(size as real));
      && Groups(indices, size) == RowCells(rotated, boundaries, sqrt)
      && RowErrorIs(out, weight, size, rotated, RowScales(rotated, sqrt), RowCells(rotated, boundaries, sqrt),
                    centroids)
      && (IsCodebook(centroids, boundaries) ==>
          RowWithinCells(out, weight, size, RowScales(rotated, sqrt), RowCells(rotated, boundaries, sqrt), boundaries))
  {
    var root := sqrt(size as real);
    ghost var rotated := RowRotated(weight, signs, size, root);
    ghost var cells := RowCells(rotated, boundaries, sqrt);
    WholeGroups(weight, size);
    StoredIndices(cells, bits, size);
    var packed, scales := QuantizeRow(weight, signs, bits, size, boundaries, sqrt);
    out, indices := DequantRow(Faithful, packed[..], scales, signs, centroids, bits, size, root);
    assert indices == Flatten(cells);
    RowErrors(weight, signs, size, root, scales, cells, centroids, out);
    if IsCodebook(centroids, boundaries) {
      RowBounded(out, weight, size, rotated, scales, cells, sqrt, centroids, boundaries);
    }
  }

  predicate RowWithinCells(out: seq<seq<real>>, weight: seq<real>, size: nat, scales: seq<real>, cells: seq<seq<nat>>,
                           boundaries: seq<real>)
    requires size > 0 && |boundaries| >= 2
  {
    && |out| == |scales| == |cells| == |Groups(weight, size)|
    && forall g :: 0 <= g < |out| ==>
      && InTable(cells[g], |boundaries| - 1)
      && WithinCells(out[g], Groups(weight, size)[g], scales[g], boundaries, cells[g])
  }

  lemma RowBounded(out: seq<seq<real>>, weight: seq<real>, size: nat, rotated: seq<seq<real>>, scales: seq<real>,
                   cells: seq<seq<nat>>, sqrt: real -> real, centroids: seq<real>, boundaries: seq<real>)
    requires size > 0 && Reals.IsSqrt(sqrt) && IsCodebook(centroids, boundaries) && |centroids| > 0
    requires scales == RowScales(rotated, sqrt) && cells == RowCells(rotated, boundaries, sqrt)
    requires RowErrorIs(out, weight, size, rotated, scales, cells, centroids)
    ensures RowWithinCells(out, weight, size, scales, cells, boundaries)
  {
    forall g | 0 <= g < |out|
      ensures WithinCells(out[g], Groups(weight, size)[g], scales[g], boundaries, cells[g])
    {
      ErrorWithinCells(out[g], Groups(weight, size)[g], rotated[g], sqrt, centroids, boundaries, cells[g]);
    }
  }

  predicate RowErrorIs(out: seq<seq<real>>, weight: seq<real>, size: nat, rotated: seq<seq<real>>,
                       scales: seq<real>, cells: seq<seq<nat>>, centroids: seq<real>)
    requires size > 0
  {
    && |out| == |scales| == |cells| == |rotated| == |Groups(weight, size)|
    && forall g :: 0 <= g < |out| ==>
      && InTable(cells[g], |centroids|) && scales[g] > 0.0
      && ErrorIs(out[g], Groups(weight, size)[g], scales[g], Lookup(centroids, cells[g]),
                 Normalise(rotated[g], scales[g]))
  }

  /** The bytes written for a row of cell indices give those indices back. */
  lemma StoredIndices(cells: seq<seq<nat>>, bits: nat, size: nat)
    requires 2 <= bits <= 4 && size > 0
    requires forall g :: 0 <= g < |cells| ==> |cells[g]| == size && InTable(cells[g], Pow2(bits))
    ensures Groups(Flatten(cells), size) == cells && |Flatten(cells)| == |cells| * size
    ensures InTable(Flatten(cells), Pow2(bits))
    ensures var flat, eff := Flatten(cells), EffectiveBits(bits);
      var packed := PackBytes(Masked(flat, eff), 8 / eff, eff);
      |flat| * eff <= |packed| * 8 && Stores(packed, flat, bits)
  {
    FlattenFits(cells, Pow2(bits), size);
    GroupsOfFlatten(cells, size);
    LayoutOf(bits);
    PowersAscend(bits, EffectiveBits(bits));
    PackedRowStores(Flatten(cells), bits);
  }

  lemma RowErrors(weight: seq<real>, signs: seq<real>, size: nat, root: real, scales: seq<real>,
                  cells: seq<seq<nat>>, centroids: seq<real>, out: seq<seq<real>>)
    requires size > 0 && |weight| == |signs| && IsSigns(signs) && SizeGuard(size) && IsRootOf(root, size)
    requires |out| == |scales| == |cells| == |Groups(weight, size)| == |Groups(signs, size)|
    requires forall g :: 0 <= g < |out| ==>
      && scales[g] > 0.0 && |cells[g]| == size && InTable(cells[g], |centroids|)
      && out[g] == DecodeGroup(Lookup(centroids, cells[g]), scales[g], Groups(signs, size)[g], root)
    ensures RowErrorIs(out, weight, size, RowRotated(weight, signs, size, root), scales, cells, centroids)
  {
    GroupSigns(signs, size);
    forall g | 0 <= g < |out|
      ensures ErrorIs(out[g], Groups(weight, size)[g], scales[g], Lookup(centroids, cells[g]),
                      Normalise(RowRotated(weight, signs, size, root)[g], scales[g]))
    {
      GroupError(Groups(weight, size)[g], Groups(signs, size)[g], root, scales[g], Lookup(centroids, cells[g]));
    }
  }
}
