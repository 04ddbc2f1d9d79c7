/** The TurboQuant row stated over its own numbers: transforms, norms, indices, bytes and decoded weights. */
module CodecLaws {
  import Reals
  import opened Bits
  import opened PackedFields
  import opened Vectors
  import opened Walsh
  import opened Fwht
  import opened Rotation
  import opened LloydMax
  import opened BytePacking
  import opened TurboQuant

  // ----- the transform -----

  /** The transform of one number is itself; of two halves, their sums and differences. This settles it for every
      power of two. */
  lemma WhtLaw(lo: seq<real>, hi: seq<real>, s: nat, i: nat)
    requires |lo| == |hi| == Pow2(s) && i < |lo|
    ensures |Wht(lo + hi)| == 2 * |lo| && |Wht(lo)| == |Wht(hi)| == |lo|
    ensures Wht(lo + hi)[i] == Wht(lo)[i] + Wht(hi)[i]
    ensures Wht(lo + hi)[|lo| + i] == Wht(lo)[i] - Wht(hi)[i]
  {
    WhtConcat(lo, hi, s);
  }

  lemma WhtOne(a: real)
    ensures Wht([a]) == [a]
  {
    WhtSingleton([a]);
  }

  /** Four numbers, written out. */
  lemma WhtFour(a: real, b: real, c: real, d: real)
    ensures Wht([a, b, c, d]) == [a + b + c + d, a - b + c - d, a + b - c - d, a - b - c + d]
  {
    WhtTwo(a, b);
    WhtTwo(c, d);
    assert [a, b] + [c, d] == [a, b, c, d];
    assert Pow2(1) == 2;
    WhtLaw([a, b], [c, d], 1, 0);
    WhtLaw([a, b], [c, d], 1, 1);
  }

  lemma WhtTwo(a: real, b: real)
    ensures Wht([a, b]) == [a + b, a - b]
  {
    WhtOne(a);
    WhtOne(b);
    assert [a] + [b] == [a, b];
    WhtLaw([a], [b], 0, 0);
  }

  /** The rotation divides the transform by the root, element by element. */
  lemma RotatedLaw(w: seq<real>, s: seq<real>, root: real, i: nat, flipped: seq<real>)
    requires |w| == |s| == |flipped| && IsRootOf(root, |w|) && i < |w|
    requires forall j :: 0 <= j < |w| ==> flipped[j] == w[j] * s[j]
    ensures root * root == |w| as real && root * Rotated(w, s, root)[i] == Wht(flipped)[i]
  {
    forall j | 0 <= j < |w| ensures flipped[j] == Mul(w, s)[j] { SameProduct(w[j], w[j], s[j], s[j]); }
    assert flipped == Mul(w, s);
    RotateAt(flipped, root, i);
  }

  // ----- squared norms and groups -----

  lemma NormLaw(a: real, u: seq<real>)
    ensures SqNorm([]) == 0.0 && SqNorm([a] + u) == a * a + SqNorm(u)
  {
    var x := [a] + u;
    DotStep(x, x);
    assert x[1..] == u && x[0] == a;
    assert Mul([], []) == [];
  }

  lemma DistanceLaw(a: real, b: real, u: seq<real>, v: seq<real>)
    requires |u| == |v|
    ensures SqDist([], []) == 0.0 && SqDist([a] + u, [b] + v) == (a - b) * (a - b) + SqDist(u, v)
  {
    assert Sub([a] + u, [b] + v) == [a - b] + Sub(u, v);
    NormLaw(a - b, Sub(u, v));
    assert Sub([], []) == [];
  }

  /** Group g of a row is its g-th block of `size`, which starts at g * size. */
  lemma {:induction false} GroupLaw<T>(x: seq<T>, size: nat, g: nat, i: nat, from: nat)
    requires size > 0 && i < size && from == g * size && from + size <= |x|
    ensures g < |Groups(x, size)| && Groups(x, size)[g][i] == x[from + i]
  {
    if g > 0 {
      OneLess(g, size, from);
      GroupLaw(x[size..], size, g - 1, i, from - size);
    }
  }

  lemma {:induction false} GroupCount<T>(x: seq<T>, size: nat)
    requires size > 0
    ensures |Groups(x, size)| * size <= |x| < |Groups(x, size)| * size + size
  {
    if |x| >= size {
      GroupCount(x[size..], size);
      assert |Groups(x, size)| * size == |Groups(x[size..], size)| * size + size;
    }
  }

  lemma {:induction false} FlattenLaw<T>(g: seq<seq<T>>, size: nat, k: nat, i: nat, from: nat)
    requires size > 0 && (forall j :: 0 <= j < |g| ==> |g[j]| == size) && k < |g| && i < size && from == k * size
    ensures from + i < |Flatten(g)| && Flatten(g)[from + i] == g[k][i]
  {
    if k > 0 {
      OneLess(k, size, from);
      FlattenLaw(g[1..], size, k - 1, i, from - size);
    }
  }

  // ----- indices -----

  /** The index stored for element i of a group is the cell of its rotated value over the group's scale. */
  lemma CellLaw(rotated: seq<seq<real>>, boundaries: seq<real>, sqrt: real -> real, g: nat, i: nat, x: real)
    requires |boundaries| >= 2 && g < |rotated| && i < |rotated[g]|
    requires x * RowScales(rotated, sqrt)[g] == rotated[g][i]
    ensures RowCells(rotated, boundaries, sqrt)[g][i] == CellIndex(boundaries, x)
  {
    var n := GroupNorm(rotated[g], sqrt);
    Reals.Exactly(rotated[g][i], x, n);
    assert Normalise(rotated[g], n)[i] == x;
  }

  /** A normalised group has squared norm 1, unless its norm is below the floor. */
  lemma UnitLaw(rotated: seq<real>, sqrt: real -> real, norm: real)
    requires Reals.IsSqrt(sqrt) && norm == GroupNorm(rotated, sqrt) && SqNorm(rotated) >= 0.00000000000000000001
    ensures SqNorm(Normalise(rotated, norm)) == 1.0
  {
    NormIs(rotated, sqrt);
    var x := Normalise(rotated, norm);
    NormaliseThenScale(rotated, norm);
    DotScale(norm, x, norm, x, SqNorm(x));
    assert Scale(norm, x) == rotated;
    var a := norm * norm;
    assert a == SqNorm(rotated);
    UnitFactor(a, SqNorm(x), SqNorm(rotated));
  }

  lemma UnitFactor(a: real, b: real, c: real)
    requires a > 0.0 && c == a * b && c == a
    ensures b == 1.0
  {
    assert b * a == 1.0 * a;
    Reals.SameFactor(b, 1.0, a);
  }

  // ----- bytes -----

  /** Byte j holds its own indices, which start at position j * per. */
  lemma {:induction false} ByteAt(vs: seq<nat>, per: nat, eff: nat, j: nat, from: nat, to: nat)
    requires per > 0 && from == j * per && from < |vs| && to == if from + per <= |vs| then from + per else |vs|
    ensures j < |PackBytes(vs, per, eff)| && PackBytes(vs, per, eff)[j] == Pack(vs[from..to], eff)
    decreases |vs|
  {
    if j > 0 {
      OneLess(j, per, from);
      ByteAt(vs[per..], per, eff, j - 1, from - per, to - per);
      LaterByteAt(vs, per, eff, j, from, to);
    } else {
      FirstByteAt(vs, per, eff, to);
    }
  }

  lemma FirstByteAt(vs: seq<nat>, per: nat, eff: nat, to: nat)
    requires per > 0 && vs != [] && to == if per <= |vs| then per else |vs|
    ensures PackBytes(vs, per, eff) != [] && PackBytes(vs, per, eff)[0] == Pack(vs[0..to], eff)
  {
    assert vs[0..to] == if |vs| < per then vs else vs[..per];
  }

  lemma LaterByteAt(vs: seq<nat>, per: nat, eff: nat, j: nat, from: nat, to: nat)
    requires 0 < per <= from <= to <= |vs| && j > 0 && j - 1 < |PackBytes(vs[per..], per, eff)|
    requires PackBytes(vs[per..], per, eff)[j - 1] == Pack(vs[per..][from - per..to - per], eff)
    ensures j < |PackBytes(vs, per, eff)| && PackBytes(vs, per, eff)[j] == Pack(vs[from..to], eff)
  {
    assert vs[per..][from - per..to - per] == vs[from..to];
  }

  lemma OneLess(j: nat, per: nat, from: nat)
    requires j > 0 && from == j * per
    ensures from >= per && from - per == (j - 1) * per
  {
    assert from == (j - 1) * per + per;
  }

  /** At two bits a row of K indices takes K / 4 bytes, rounded up, and byte j is four of them in base 4. */
  lemma TwoBitRow(indices: seq<nat>, packed: seq<nat>, j: nat)
    requires packed == PackBytes(Masked(indices, EffectiveBits(2)), 8 / EffectiveBits(2), EffectiveBits(2))
    requires Fits(indices, 2) && j < |packed|
    ensures |packed| == (|indices| + 3) / 4
    ensures packed[j] == OrZero(indices, 4 * j) + 4 * OrZero(indices, 4 * j + 1) + 16 * OrZero(indices, 4 * j + 2)
                         + 64 * OrZero(indices, 4 * j + 3)
  {
    assert EffectiveBits(2) == 2;
    MaskedFits(indices, 2);
    TwoBitBytes(indices, packed, j);
  }

  lemma TwoBitWidth(n: nat, j: nat)
    requires j < (n * 2 + 7) / 8
    ensures (n * 2 + 7) / 8 == (n + 3) / 4 && 4 * j < n
  {}

  lemma TwoBitBytes(indices: seq<nat>, packed: seq<nat>, j: nat)
    requires packed == PackBytes(indices, 4, 2) && Fits(indices, 2) && j < |packed|
    ensures |packed| == (|indices| + 3) / 4
    ensures packed[j] == OrZero(indices, 4 * j) + 4 * OrZero(indices, 4 * j + 1) + 16 * OrZero(indices, 4 * j + 2)
                         + 64 * OrZero(indices, 4 * j + 3)
  {
    PackBytesWidth(indices, 4, 2);
    TwoBitWidth(|indices|, j);
    var to := if 4 * j + 4 <= |indices| then 4 * j + 4 else |indices|;
    ByteAt(indices, 4, 2, j, 4 * j, to);
    assert Pow2(2) == 4;
    PackUpToFour(indices[4 * j..to], 2, 4);
  }

  /** At three and four bits it takes K / 2 bytes, rounded up, and byte j is two of them in base 16. */
  lemma FourBitRow(indices: seq<nat>, packed: seq<nat>, bits: nat, j: nat)
    requires (bits == 3 || bits == 4) && forall i :: 0 <= i < |indices| ==> indices[i] < 16
    requires packed == PackBytes(Masked(indices, EffectiveBits(bits)), 8 / EffectiveBits(bits), EffectiveBits(bits))
    requires j < |packed|
    ensures |packed| == (|indices| + 1) / 2
    ensures packed[j] == OrZero(indices, 2 * j) + 16 * OrZero(indices, 2 * j + 1)
  {
    FourBitLayout(bits);
    assert Pow2(4) == 16;
    MaskedFits(indices, 4);
    FourBitBytes(indices, packed, j);
  }

  lemma FourBitLayout(bits: nat)
    requires bits == 3 || bits == 4
    ensures EffectiveBits(bits) == 4 && 8 / EffectiveBits(bits) == 2
  {}

  lemma FourBitBytes(indices: seq<nat>, packed: seq<nat>, j: nat)
    requires packed == PackBytes(indices, 2, 4) && Fits(indices, 4) && j < |packed|
    ensures |packed| == (|indices| + 1) / 2
    ensures packed[j] == OrZero(indices, 2 * j) + 16 * OrZero(indices, 2 * j + 1)
  {
    PackBytesWidth(indices, 2, 4);
    var to := if 2 * j + 2 <= |indices| then 2 * j + 2 else |indices|;
    ByteAt(indices, 2, 4, j, 2 * j, to);
    assert Pow2(4) == 16;
    PackUpToFour(indices[2 * j..to], 4, 16);
  }

  // ----- decoding -----

  /** A decoded element: the transform of the scaled centroids, over the root, times the sign. */
  lemma DecodeLaw(centroids: seq<real>, indices: seq<nat>, norm: real, s: seq<real>, root: real, i: nat, x: seq<real>)
    requires InTable(indices, |centroids|) && |indices| == |s| == |x| && IsRootOf(root, |s|) && i < |s|
    requires forall j :: 0 <= j < |x| ==> x[j] == norm * centroids[indices[j]]
    ensures |DecodeWith(Faithful, Lookup(centroids, indices), norm, s, root)| == |s|
    ensures root * DecodeWith(Faithful, Lookup(centroids, indices), norm, s, root)[i] == Wht(x)[i] * s[i]
  {
    var c := Lookup(centroids, indices);
    forall j | 0 <= j < |x| ensures x[j] == Scale(norm, c)[j] { SameProduct(norm, norm, centroids[indices[j]], c[j]); }
    assert x == Scale(norm, c);
    RotateAt(x, root, i);
    Regrouped(root, Rotate(x, root)[i], s[i], Wht(x)[i]);
  }

  lemma Regrouped(root: real, r: real, s: real, w: real)
    requires r * root == w
    ensures root * (r * s) == w * s
  {
    assert root * (r * s) == (r * root) * s;
  }

  /** Masking takes the remainder by the size of a field. */
  lemma MaskedLaw(indices: seq<nat>, eff: nat, i: nat)
    requires i < |indices|
    ensures Masked(indices, eff)[i] == indices[i] % Pow2(eff)
  {
    AndLowMask(indices[i], eff);
    ShrLaw(indices[i], eff);
  }
}
