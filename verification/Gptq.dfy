/** Words and bytes of a GPTQ checkpoint: the word read, and the nibble written by reading and modifying a byte. */
module Gptq {
  import opened Bits
  import opened PackedFields
  import opened Nibbles
  import opened Repack

  datatype ReadError = OutOfRange(index: nat) | ScaleOutOfRange(index: nat) | ScaleShape | InputLength | Unaligned

  predicate AreBytes(s: seq<nat>) {
    forall i :: 0 <= i < |s| ==> s[i] < 256
  }

  /** Little-endian word i of a byte buffer. */
  function Word(data: seq<nat>, i: nat): nat
    requires 4 * i + 4 <= |data|
  {
    Pack(data[4 * i..4 * i + 4], 8)
  }

  // ----- read-modify-write of one nibble -----

  /** A shifted mask selects the shifted field. */
  lemma {:induction false} AndShl(x: nat, m: nat, k: nat)
    ensures And(x, Shl(m, k)) == Shl(And(Shr(x, k), m), k)
  {
    if k > 0 {
      AndShl(x / 2, m, k - 1);
      AndDouble(x, Shl(m, k - 1));
    }
  }

  lemma AndDouble(x: nat, y: nat)
    ensures And(x, 2 * y) == 2 * And(x / 2, y)
  {
    EvenStep(x, y, 2 * y);
  }

  lemma EvenStep(x: nat, y: nat, z: nat)
    requires z / 2 == y && z % 2 == 0
    ensures And(x, z) == 2 * And(x / 2, y)
  {}

  /** The byte after storing v in its low or high half. */
  function SetNibble(x: nat, half: nat, v: nat): nat
    requires half < 2
  {
    if half == 0 then Or(And(x, 0xf0), v) else Or(And(x, 0x0f), Shl(v, 4))
  }

  /** Storing one nibble leaves the other alone. */
  lemma SetNibbleIs(x: nat, half: nat, v: nat)
    requires x < 256 && half < 2 && v < 16
    ensures SetNibble(x, half, v) < 256
    ensures Field(SetNibble(x, half, v), half, 4) == v
    ensures Field(SetNibble(x, half, v), 1 - half, 4) == Field(x, 1 - half, 4)
  {
    var lo, hi := Field(x, 0, 4), Field(x, 1, 4);
    HalvesOf(x);
    SetNibbleValue(x, half, v, lo, hi);
    if half == 0 { StoredPair(v, hi); } else { StoredPair(lo, v); }
  }

  lemma SetNibbleValue(x: nat, half: nat, v: nat, lo: nat, hi: nat)
    requires half < 2 && v < 16 && lo < 16 && And(x, 0x0f) == lo && And(x, 0xf0) == Shl(hi, 4)
    ensures SetNibble(x, half, v) == if half == 0 then v + Shl(hi, 4) else lo + Shl(v, 4)
  {
    SixteenWords();
    if half == 0 {
      OrSymmetric(Shl(hi, 4), v);
      DisjointField(v, hi, 4);
    } else {
      DisjointField(lo, v, 4);
    }
  }

  lemma HalvesOf(x: nat)
    requires x < 256
    ensures Field(x, 0, 4) < 16 && Field(x, 1, 4) < 16
    ensures And(x, 0x0f) == Field(x, 0, 4) && And(x, 0xf0) == Shl(Field(x, 1, 4), 4)
  {
    SixteenWords();
    FieldFits(x, 0, 4);
    FieldFits(x, 1, 4);
    assert Shr(x, 0) == x;
    AndShl(x, 15, 4);
    ShlFifteen();
  }

  lemma ShlFifteen()
    ensures Shl(15, 4) == 0xf0
  {
    assert Shl(15, 4) == 2 * Shl(15, 3) && Shl(15, 3) == 2 * Shl(15, 2) && Shl(15, 2) == 2 * Shl(15, 1);
  }

  lemma PackTwo(lo: nat, hi: nat)
    ensures Pack([lo, hi], 4) == lo + Shl(hi, 4)
  {
    assert [lo, hi][1..] == [hi] && [hi][1..] == [];
    ShlZero(4);
    assert Pack([hi], 4) == hi + Shl(Pack([], 4), 4);
  }

  lemma StoredPair(lo: nat, hi: nat)
    requires lo < 16 && hi < 16
    ensures lo + Shl(hi, 4) < 256
    ensures Field(lo + Shl(hi, 4), 0, 4) == lo && Field(lo + Shl(hi, 4), 1, 4) == hi
  {
    SixteenWords();
    PackTwo(lo, hi);
    PackBound([lo, hi], 4);
    PackField([lo, hi], 0, 4);
    PackField([lo, hi], 1, 4);
  }

  lemma {:induction false} OrSymmetric(x: nat, y: nat)
    ensures Or(x, y) == Or(y, x)
  {
    if x > 0 && y > 0 { OrSymmetric(x / 2, y / 2); }
  }

  /** Storing nibble p of a byte row changes nibble p only. */
  lemma StoreNibble(bytes: seq<nat>, p: nat, v: nat, q: nat)
    requires AreBytes(bytes) && p < 2 * |bytes| && q < 2 * |bytes| && v < 16
    ensures var after := bytes[p / 2 := SetNibble(bytes[p / 2], p % 2, v)];
      AreBytes(after) && NibbleOf(after, q) == if q == p then v else NibbleOf(bytes, q)
  {
    SetNibbleIs(bytes[p / 2], p % 2, v);
  }

  /** Bytes are determined by their nibbles. */
  lemma SameNibbles(a: seq<nat>, b: seq<nat>)
    requires AreBytes(a) && AreBytes(b) && |a| == |b|
    ensures a == b <==> forall p :: 0 <= p < 2 * |a| ==> NibbleOf(a, p) == NibbleOf(b, p)
  {
    if forall p :: 0 <= p < 2 * |a| ==> NibbleOf(a, p) == NibbleOf(b, p) {
      forall i | 0 <= i < |a| ensures a[i] == b[i] {
        assert NibbleOf(a, 2 * i) == NibbleOf(b, 2 * i) && NibbleOf(a, 2 * i + 1) == NibbleOf(b, 2 * i + 1);
        assert (2 * i) / 2 == i && (2 * i + 1) / 2 == i;
        SixteenWords();
        PackOfFields(a[i], 2, 4);
        PackOfFields(b[i], 2, 4);
        assert Fields(a[i], 2, 4) == Fields(b[i], 2, 4);
      }
    }
  }
}
