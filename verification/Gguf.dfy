/** Unpacking of the Q4_K sub-block scales and minima. */
module Gguf {
  import opened Bits

  // ----- Q4_K scales and minima -----

  predicate TwelveBytes(s: seq<nat>) {
    |s| == 12 && forall i :: 0 <= i < 12 ==> s[i] < 256
  }

  /** Eight scales, then eight minima. */
  datatype SubScales = SubScales(sc: seq<nat>, mn: seq<nat>)

  predicate SixBit(s: SubScales) {
    |s.sc| == 8 && |s.mn| == 8 && forall i :: 0 <= i < 8 ==> s.sc[i] < 64 && s.mn[i] < 64
  }

  /** The low six bits of a byte, and its top two as bits 4 and 5 of a second value. */
  function LowSix(x: nat): nat {
    And(x, 63)
  }

  function High(nibble: nat, x: nat): nat {
    Or(nibble, Shl(Shr(x, 6), 4))
  }

  method UnpackSubScales(sr: seq<nat>) returns (s: SubScales)
    requires TwelveBytes(sr)
    ensures s == Unpacked(sr)
  {
    var sc: seq<nat>, mn: seq<nat> := seq(8, _ => 0), seq(8, _ => 0);
    for i := 0 to 4
      invariant |sc| == 8 && |mn| == 8
      invariant forall j :: 0 <= j < i ==> sc[j] == Unpacked(sr).sc[j] && mn[j] == Unpacked(sr).mn[j]
    {
      sc := sc[i := And(sr[i], 63)];
      mn := mn[i := And(sr[i + 4], 63)];
    }
    for i := 0 to 4
      invariant |sc| == 8 && |mn| == 8
      invariant forall j :: 0 <= j < 4 + i ==> sc[j] == Unpacked(sr).sc[j] && mn[j] == Unpacked(sr).mn[j]
    {
      sc := sc[4 + i := Or(And(sr[8 + i], 0x0f), Shl(Shr(sr[i], 6), 4))];
      mn := mn[4 + i := Or(Shr(sr[8 + i], 4), Shl(Shr(sr[i + 4], 6), 4))];
    }
    s := SubScales(sc, mn);
  }

  function Unpacked(sr: seq<nat>): (s: SubScales)
    requires TwelveBytes(sr)
    ensures |s.sc| == 8 && |s.mn| == 8
  {
    SubScales(
      seq(8, i requires 0 <= i < 8 => if i < 4 then LowSix(sr[i]) else High(And(sr[4 + i], 0x0f), sr[i - 4])),
      seq(8, i requires 0 <= i < 8 => if i < 4 then LowSix(sr[i + 4]) else High(Shr(sr[4 + i], 4), sr[i])))
  }

  /** The twelve bytes holding sixteen six-bit values. */
  function PackedBytes(s: SubScales): (sr: seq<nat>)
    requires SixBit(s)
    ensures |sr| == 12
  {
    seq(12, i requires 0 <= i < 12 =>
      if i < 4 then s.sc[i] + 64 * (s.sc[i + 4] / 16)
      else if i < 8 then s.mn[i - 4] + 64 * (s.mn[i] / 16)
      else s.sc[i - 4] % 16 + 16 * (s.mn[i - 4] % 16))
  }

  // ----- the bit operations as arithmetic -----

  lemma ShrSmall(x: nat)
    ensures Shr(x, 4) == x / 16 && Shr(x, 6) == x / 64
  {
    assert Shr(x, 6) == Shr(x / 2, 5) && Shr(x / 2, 5) == Shr(x / 4, 4);
    ShrFour(x);
    ShrFour(x / 4);
  }

  lemma ShrFour(x: nat)
    ensures Shr(x, 4) == x / 16
  {
    assert Shr(x, 4) == Shr(x / 2, 3) && Shr(x / 2, 3) == Shr(x / 2 / 2, 2);
    assert Shr(x / 2 / 2, 2) == Shr(x / 2 / 2 / 2, 1) && Shr(x / 2 / 2 / 2, 1) == x / 2 / 2 / 2 / 2;
  }

  lemma ShlFour(x: nat)
    ensures Shl(x, 4) == 16 * x
  {
    assert Shl(x, 4) == 2 * Shl(x, 3) && Shl(x, 3) == 2 * Shl(x, 2);
    assert Shl(x, 2) == 2 * Shl(x, 1) && Shl(x, 1) == 2 * Shl(x, 0) && Shl(x, 0) == x;
  }

  lemma AndSmall(x: nat)
    ensures And(x, 0x0f) == x % 16 && And(x, 63) == x % 64
  {
    assert Pow2(4) == 16;
    assert Pow2(6) == 64 by { assert Pow2(3) == 8; }
    AndLowMask(x, 4);
    AndLowMask(x, 6);
    Recompose(x, 4);
    ShrSmall(x);
    ShlFour(Shr(x, 4));
    Recompose(x, 6);
    ShlFour(Shr(x, 6));
    assert Shl(Shr(x, 6), 6) == 2 * Shl(Shr(x, 6), 5) && Shl(Shr(x, 6), 5) == 2 * Shl(Shr(x, 6), 4);
  }

  lemma HighIs(nibble: nat, x: nat)
    requires nibble < 16
    ensures High(nibble, x) == nibble + 16 * (x / 64)
  {
    assert Pow2(4) == 16;
    DisjointField(nibble, Shr(x, 6), 4);
    ShrSmall(x);
    ShlFour(Shr(x, 6));
  }

  /** One column read as arithmetic: bytes x, y, z hold the six-bit values a, b (scales) and c, d (minima). */
  predicate Holds(x: nat, y: nat, z: nat, a: nat, b: nat, c: nat, d: nat) {
    a == x % 64 && c == y % 64 && b == z % 16 + 16 * (x / 64) && d == z / 16 + 16 * (y / 64)
  }

  predicate Made(x: nat, y: nat, z: nat, a: nat, b: nat, c: nat, d: nat) {
    x == a + 64 * (b / 16) && y == c + 64 * (d / 16) && z == b % 16 + 16 * (d % 16)
  }

  lemma MadeHolds(x: nat, y: nat, z: nat, a: nat, b: nat, c: nat, d: nat)
    requires a < 64 && b < 64 && c < 64 && d < 64
    requires Made(x, y, z, a, b, c, d)
    ensures x < 256 && y < 256 && z < 256 && Holds(x, y, z, a, b, c, d)
  {}

  lemma HoldsMade(x: nat, y: nat, z: nat, a: nat, b: nat, c: nat, d: nat)
    requires x < 256 && y < 256 && z < 256
    requires Holds(x, y, z, a, b, c, d)
    ensures a < 64 && b < 64 && c < 64 && d < 64 && Made(x, y, z, a, b, c, d)
  {}

  lemma UnpackedHolds(sr: seq<nat>, s: SubScales, i: nat)
    requires TwelveBytes(sr) && s == Unpacked(sr) && i < 4
    ensures Holds(sr[i], sr[i + 4], sr[i + 8], s.sc[i], s.sc[i + 4], s.mn[i], s.mn[i + 4])
  {
    AndSmall(sr[i]);
    AndSmall(sr[i + 4]);
    AndSmall(sr[i + 8]);
    ShrSmall(sr[i + 8]);
    HighIs(sr[i + 8] % 16, sr[i]);
    HighIs(sr[i + 8] / 16, sr[i + 4]);
  }

  lemma PackedMade(s: SubScales, sr: seq<nat>, i: nat)
    requires SixBit(s) && sr == PackedBytes(s) && i < 4
    ensures Made(sr[i], sr[i + 4], sr[i + 8], s.sc[i], s.sc[i + 4], s.mn[i], s.mn[i + 4])
  {}

  lemma PackedByteSmall(s: SubScales, sr: seq<nat>, i: nat)
    requires SixBit(s) && sr == PackedBytes(s) && i < 12
    ensures sr[i] < 256
  {
    var j := if i < 4 then i else if i < 8 then i - 4 else i - 8;
    PackedMade(s, sr, j);
    MadeHolds(sr[j], sr[j + 4], sr[j + 8], s.sc[j], s.sc[j + 4], s.mn[j], s.mn[j + 4]);
  }

  lemma PackedAreBytes(s: SubScales)
    requires SixBit(s)
    ensures TwelveBytes(PackedBytes(s))
  {
    var sr := PackedBytes(s);
    forall i | 0 <= i < 12 ensures sr[i] < 256 { PackedByteSmall(s, sr, i); }
  }

  /** Every sixteen six-bit values are the unpacking of their twelve bytes. */
  lemma UnpackPacked(s: SubScales)
    requires SixBit(s)
    ensures TwelveBytes(PackedBytes(s)) && Unpacked(PackedBytes(s)) == s
  {
    PackedAreBytes(s);
    var sr := PackedBytes(s);
    var u := Unpacked(sr);
    forall i | 0 <= i < 8 ensures u.sc[i] == s.sc[i] && u.mn[i] == s.mn[i] { ValueBack(s, sr, u, i); }
    SameSubScales(u, s);
  }

  lemma ValueBack(s: SubScales, sr: seq<nat>, u: SubScales, i: nat)
    requires SixBit(s) && sr == PackedBytes(s) && TwelveBytes(sr) && u == Unpacked(sr) && i < 8
    ensures u.sc[i] == s.sc[i] && u.mn[i] == s.mn[i]
  {
    SameColumn(s, sr, u, if i < 4 then i else i - 4);
  }

  lemma SameColumn(s: SubScales, sr: seq<nat>, u: SubScales, i: nat)
    requires SixBit(s) && sr == PackedBytes(s) && TwelveBytes(sr) && u == Unpacked(sr) && i < 4
    ensures u.sc[i] == s.sc[i] && u.mn[i] == s.mn[i] && u.sc[i + 4] == s.sc[i + 4] && u.mn[i + 4] == s.mn[i + 4]
  {
    PackedMade(s, sr, i);
    MadeHolds(sr[i], sr[i + 4], sr[i + 8], s.sc[i], s.sc[i + 4], s.mn[i], s.mn[i + 4]);
    UnpackedHolds(sr, u, i);
  }

  lemma SameSubScales(u: SubScales, s: SubScales)
    requires |u.sc| == |u.mn| == |s.sc| == |s.mn| == 8
    requires forall i :: 0 <= i < 8 ==> u.sc[i] == s.sc[i] && u.mn[i] == s.mn[i]
    ensures u == s
  {
    assert u.sc == s.sc && u.mn == s.mn;
  }

  lemma UnpackedSixBit(sr: seq<nat>)
    requires TwelveBytes(sr)
    ensures SixBit(Unpacked(sr))
  {
    var s := Unpacked(sr);
    forall i | 0 <= i < 8 ensures s.sc[i] < 64 && s.mn[i] < 64 {
      ColumnBack(sr, s, if i < 4 then i else i - 4);
    }
  }

  /** Every twelve bytes are the packing of the sixteen values they unpack to: no bit is lost or shared. */
  lemma PackUnpacked(sr: seq<nat>)
    requires TwelveBytes(sr)
    ensures SixBit(Unpacked(sr)) && PackedBytes(Unpacked(sr)) == sr
  {
    UnpackedSixBit(sr);
    var s := Unpacked(sr);
    var back := PackedBytes(s);
    forall i | 0 <= i < 12 ensures back[i] == sr[i] {
      ByteBack(sr, s, back, i);
    }
  }

  lemma ByteBack(sr: seq<nat>, s: SubScales, back: seq<nat>, i: nat)
    requires TwelveBytes(sr) && s == Unpacked(sr) && SixBit(s) && back == PackedBytes(s) && i < 12
    ensures back[i] == sr[i]
  {
    BytesBack(sr, s, back, if i < 4 then i else if i < 8 then i - 4 else i - 8);
  }

  lemma BytesBack(sr: seq<nat>, s: SubScales, back: seq<nat>, i: nat)
    requires TwelveBytes(sr) && s == Unpacked(sr) && SixBit(s) && back == PackedBytes(s) && i < 4
    ensures back[i] == sr[i] && back[i + 4] == sr[i + 4] && back[i + 8] == sr[i + 8]
  {
    ColumnBack(sr, s, i);
    PackedMade(s, back, i);
  }

  lemma ColumnBack(sr: seq<nat>, s: SubScales, i: nat)
    requires TwelveBytes(sr) && s == Unpacked(sr) && i < 4
    ensures s.sc[i] < 64 && s.mn[i] < 64 && s.sc[i + 4] < 64 && s.mn[i + 4] < 64
    ensures Made(sr[i], sr[i + 4], sr[i + 8], s.sc[i], s.sc[i + 4], s.mn[i], s.mn[i + 4])
  {
    UnpackedHolds(sr, s, i);
    HoldsMade(sr[i], sr[i + 4], sr[i + 8], s.sc[i], s.sc[i + 4], s.mn[i], s.mn[i + 4]);
  }

  /** The sixteen values in numbers. */
  lemma UnpackedLaw(sr: seq<nat>, i: nat)
    requires TwelveBytes(sr) && i < 4
    ensures var s := Unpacked(sr);
      && s.sc[i] == sr[i] % 64 && s.mn[i] == sr[i + 4] % 64
      && s.sc[4 + i] == sr[8 + i] % 16 + 16 * (sr[i] / 64)
      && s.mn[4 + i] == sr[8 + i] / 16 + 16 * (sr[i + 4] / 64)
  {
    UnpackedHolds(sr, Unpacked(sr), i);
  }
}
