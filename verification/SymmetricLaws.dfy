/** Symmetric group quantisation over the weights themselves: scales, codes and packed bytes in numbers. */
module SymmetricLaws {
  import Reals
  import opened Bits
  import opened PackedFields
  import opened Rounding
  import opened Symmetric
  import opened SymmetricPacking

  /** The magnitude the scale is taken from: the largest of the group, or 1e-10 if that is larger. */
  lemma TopLaw(group: seq<real>)
    ensures Top(group) >= 0.0000000001
    ensures forall j :: 0 <= j < |group| ==> -Top(group) <= group[j] <= Top(group)
    ensures Top(group) == 0.0000000001 ||
            (exists j :: 0 <= j < |group| && (group[j] == Top(group) || group[j] == -Top(group)))
  {
    forall j | 0 <= j < |group| ensures -Top(group) <= group[j] <= Top(group) { AbsMaxBounds(group, j); }
    if group != [] {
      var j := AbsMaxAttained(group);
    }
  }

  /** The scale is that over 127, 7 or 2. */
  lemma ScaleLaw(group: seq<real>)
    ensures 127.0 * Scale(group, 8) == Top(group)
    ensures 7.0 * Scale(group, 4) == Top(group)
    ensures 2.0 * Scale(group, 2) == Top(group)
  {}

  /** A code is the integer nearest to the weight over the scale, ties to even, moved into lo..hi. */
  predicate NearestCode(w: real, s: real, q: int, lo: int, hi: int) {
    && lo <= q <= hi
    && (q < hi ==> w <= (q as real + 0.5) * s && (w == (q as real + 0.5) * s ==> q % 2 == 0))
    && (q > lo ==> w >= (q as real - 0.5) * s && (w == (q as real - 0.5) * s ==> q % 2 == 0))
  }

  lemma CodeLaw(w: real, s: real, bits: nat)
    requires s > 0.0 && Supported(bits)
    ensures bits == 8 ==> NearestCode(w, s, Code(w, s, bits), -127, 127)
    ensures bits == 4 ==> NearestCode(w, s, Code(w, s, bits), -7, 7)
    ensures bits == 2 ==> NearestCode(w, s, Code(w, s, bits), -2, 1)
  {
    var x, q := w / s, Code(w, s, bits);
    CodeBounds(x, q, Lowest(bits), Highest(bits));
    SideOf(w, s, x, q as real + 0.5);
    SideOf(w, s, x, q as real - 0.5);
  }

  lemma CodeBounds(x: real, q: int, lo: int, hi: int)
    requires lo <= hi && q == Clamp(Round(x), lo, hi)
    ensures lo <= q <= hi
    ensures q < hi ==> x <= q as real + 0.5 && (x == q as real + 0.5 ==> q % 2 == 0)
    ensures q > lo ==> x >= q as real - 0.5 && (x == q as real - 0.5 ==> q % 2 == 0)
  {}

  lemma SideOf(w: real, s: real, x: real, b: real)
    requires s > 0.0 && x == w / s
    ensures (x <= b <==> w <= b * s) && (x >= b <==> w >= b * s) && (x == b <==> w == b * s)
  {
    Reals.AtMost(w, b, s);
    Reals.AtLeast(w, b, s);
  }

  /** Codes and reconstruction, element by element. */
  lemma ElementLaw(group: seq<real>, bits: nat, j: nat, s: real)
    requires j < |group| && s == Scale(group, bits)
    ensures Codes(group, bits)[j] == Code(group[j], s, bits)
    ensures Reconstruct(Codes(group, bits), s)[j] == Code(group[j], s, bits) as real * s
  {}

  lemma ByteIs(q: seq<int>, bits: nat, b: nat, u: seq<nat>)
    requires (bits == 4 || bits == 2) && |q| % PerByte(bits) == 0 && InCodeRange(q, bits) && b < |q| / PerByte(bits)
    requires u == Slice(Shifted(q, bits), b, bits)
    ensures |PackCodes(q, bits)| == |q| / PerByte(bits) && PackCodes(q, bits)[b] == Pack(u, bits) && |u| <= 4
  {
    assert Fits(u, bits);
    JoinIsPack(u, bits);
  }

  /** At four bits a byte is two codes, each with eight added, the earlier one low. */
  lemma FourBitByte(q: seq<int>, b: nat)
    requires |q| % 2 == 0 && InCodeRange(q, 4) && 2 * b + 1 < |q|
    ensures |PackCodes(q, 4)| == |q| / 2
    ensures PackCodes(q, 4)[b] == (q[2 * b] + 8) + 16 * (q[2 * b + 1] + 8)
  {
    var u := Slice(Shifted(q, 4), b, 4);
    ByteIs(q, 4, b, u);
    assert Pow2(4) == 16;
    PackUpToFour(u, 4, 16);
    TwoShifted(q, b, u);
  }

  lemma TwoShifted(q: seq<int>, b: nat, u: seq<nat>)
    requires |q| % 2 == 0 && InCodeRange(q, 4) && 2 * b + 1 < |q| && u == Slice(Shifted(q, 4), b, 4)
    ensures |u| == 2 && u[0] == q[2 * b] + 8 && u[1] == q[2 * b + 1] + 8
  {}

  /** At two bits it is four codes, each with two added. */
  lemma TwoBitByte(q: seq<int>, b: nat)
    requires |q| % 4 == 0 && InCodeRange(q, 2) && 4 * b + 3 < |q|
    ensures |PackCodes(q, 2)| == |q| / 4
    ensures PackCodes(q, 2)[b]
      == (q[4 * b] + 2) + 4 * (q[4 * b + 1] + 2) + 16 * (q[4 * b + 2] + 2) + 64 * (q[4 * b + 3] + 2)
  {
    var u := Slice(Shifted(q, 2), b, 2);
    ByteIs(q, 2, b, u);
    assert Pow2(2) == 4;
    PackUpToFour(u, 2, 4);
    FourShifted(q, b, u);
  }

  lemma FourShifted(q: seq<int>, b: nat, u: seq<nat>)
    requires |q| % 4 == 0 && InCodeRange(q, 2) && 4 * b + 3 < |q| && u == Slice(Shifted(q, 2), b, 2)
    ensures |u| == 4 && u[0] == q[4 * b] + 2 && u[1] == q[4 * b + 1] + 2
    ensures u[2] == q[4 * b + 2] + 2 && u[3] == q[4 * b + 3] + 2
  {}

  /** The codes that fit their bytes. */
  lemma RangeLaw(q: seq<int>)
    ensures InCodeRange(q, 4) <==> forall p :: 0 <= p < |q| ==> -8 <= q[p] <= 7
    ensures InCodeRange(q, 2) <==> forall p :: 0 <= p < |q| ==> -2 <= q[p] <= 1
  {
    assert Pow2(4) == 16 && Pow2(2) == 4;
  }

  /** Reading a code back: the nibble less eight, or the pair of bits less two. */
  lemma ReadLaw(bytes: seq<nat>, p: nat)
    ensures p < 2 * |bytes| ==> CodeAt(bytes, 4, p) + 8 == bytes[p / 2] / [1, 16][p % 2] % 16
    ensures p < 4 * |bytes| ==> CodeAt(bytes, 2, p) + 2 == bytes[p / 4] / [1, 4, 16, 64][p % 4] % 4
  {
    assert Pow2(0) == 1 && Pow2(4) == 16 && Pow2(2) == 4 && Pow2(6) == 64;
    if p < 2 * |bytes| { FieldIs(bytes[p / 2], p % 2, 4, [1, 16][p % 2], 16); }
    if p < 4 * |bytes| { FieldIs(bytes[p / 4], p % 4, 2, [1, 4, 16, 64][p % 4], 4); }
  }
}
