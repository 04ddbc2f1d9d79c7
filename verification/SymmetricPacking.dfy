/** The byte packing of 4- and 2-bit codes, and the check that unpacks them. */
module SymmetricPacking {
  import opened Bits
  import opened PackedFields
  import Sym = Symmetric

  /** Codes are shifted to start at zero: by 8 at 4 bits, by 2 at 2 bits. */
  function Offset(bits: nat): nat {
    if bits == 4 then 8 else 2
  }

  function PerByte(bits: nat): nat {
    if bits == 4 then 2 else 4
  }

  predicate InCodeRange(q: seq<int>, bits: nat) {
    forall p :: 0 <= p < |q| ==> -(Offset(bits) as int) <= q[p] < Pow2(bits) - Offset(bits)
  }

  function Shifted(q: seq<int>, bits: nat): (u: seq<nat>)
    requires InCodeRange(q, bits)
    ensures |u| == |q| && Fits(u, bits)
  {
    seq(|q|, p requires 0 <= p < |q| => q[p] + Offset(bits))
  }

  /** `low | (high << 4)`, or `v0 | (v1 << 2) | (v2 << 4) | (v3 << 6)`. */
  function JoinByte(u: seq<nat>, bits: nat): nat
    requires |u| == PerByte(bits)
  {
    if bits == 4 then Or(u[0], Shl(u[1], 4))
    else Or(Or(Or(u[0], Shl(u[1], 2)), Shl(u[2], 4)), Shl(u[3], 6))
  }

  lemma OrNext(u: seq<nat>, k: nat, bits: nat)
    requires k < |u| && Fits(u, bits)
    ensures Or(Pack(u[..k], bits), Shl(u[k], k * bits)) == Pack(u[..k + 1], bits)
  {
    assert u[..k] + [u[k]] == u[..k + 1];
    PackAppend(u[..k], u[k], bits);
  }

  lemma PackOne(u: seq<nat>, bits: nat)
    requires |u| > 0
    ensures Pack(u[..1], bits) == u[0]
  {
    assert u[..1][1..] == [];
    ShlZero(bits);
  }

  lemma JoinIsPack(u: seq<nat>, bits: nat)
    requires (bits == 4 || bits == 2) && |u| == PerByte(bits) && Fits(u, bits)
    ensures JoinByte(u, bits) == Pack(u, bits)
  {
    PackOne(u, bits);
    OrNext(u, 1, bits);
    if bits == 4 {
      assert u[..2] == u;
    } else {
      OrNext(u, 2, 2);
      OrNext(u, 3, 2);
      assert u[..4] == u;
    }
  }

  /** Packed bytes: slices of `PerByte` codes, lowest first. */
  function PackCodes(q: seq<int>, bits: nat): (bytes: seq<nat>)
    requires (bits == 4 || bits == 2) && |q| % PerByte(bits) == 0 && InCodeRange(q, bits)
    ensures |bytes| * PerByte(bits) == |q|
  {
    var u, per := Shifted(q, bits), PerByte(bits);
    seq(|q| / per, b requires 0 <= b < |q| / per => JoinByte(Slice(u, b, bits), bits))
  }

  function Slice(u: seq<nat>, b: nat, bits: nat): (s: seq<nat>)
    requires b < |u| / PerByte(bits)
    ensures |s| == PerByte(bits)
  {
    if bits == 4 then u[2 * b..2 * b + 2] else u[4 * b..4 * b + 4]
  }

  function CodeAt(bytes: seq<nat>, bits: nat, p: nat): int
    requires p < |bytes| * PerByte(bits)
  {
    Field(bytes[p / PerByte(bits)], p % PerByte(bits), bits) - Offset(bits)
  }

  /** Unpacking: one strided pass per position in the byte. */
  method UnpackCodes(bytes: seq<nat>, bits: nat) returns (q: array<int>)
    requires bits == 4 || bits == 2
    ensures fresh(q) && q.Length == |bytes| * PerByte(bits)
    ensures forall p :: 0 <= p < q.Length ==> q[p] == CodeAt(bytes, bits, p)
  {
    var per, mask := PerByte(bits), Pow2(bits) - 1;
    q := new int[|bytes| * per](_ => 0);
    for t := 0 to per
      invariant forall p :: 0 <= p < q.Length && p % per < t ==> q[p] == CodeAt(bytes, bits, p)
    {
      for b := 0 to |bytes|
        invariant forall p :: 0 <= p < q.Length && (p % per < t || (p % per == t && p / per < b)) ==>
          q[p] == CodeAt(bytes, bits, p)
      {
        assert (per * b + t) / per == b && (per * b + t) % per == t by { if bits == 4 {} else {} }
        q[per * b + t] := And(Shr(bytes[b], t * bits), mask) - Offset(bits);
      }
    }
  }

  /** Every code survives its byte. */
  lemma CodesBack(q: seq<int>, bits: nat, p: nat)
    requires (bits == 4 || bits == 2) && |q| % PerByte(bits) == 0 && InCodeRange(q, bits) && p < |q|
    ensures CodeAt(PackCodes(q, bits), bits, p) == q[p]
  {
    var u, per := Shifted(q, bits), PerByte(bits);
    var s := Slice(u, p / per, bits);
    assert Fits(s, bits);
    JoinIsPack(s, bits);
    PackField(s, p % per, bits);
    assert s[p % per] == u[p];
  }

  /** The code of element j of a quantised group, laid end to end with others, reads back whatever
      bytes its neighbours share. */
  lemma StoredCode(before: seq<int>, codes: seq<int>, after: seq<int>, bits: nat, j: nat)
    requires (bits == 4 || bits == 2) && InCodeRange(before, bits) && InCodeRange(after, bits) && j < |codes|
    requires forall i :: 0 <= i < |codes| ==> Sym.Lowest(bits) <= codes[i] <= Sym.Highest(bits)
    requires |before + codes + after| % PerByte(bits) == 0
    ensures InCodeRange(before + codes + after, bits)
    ensures var bytes := PackCodes(before + codes + after, bits);
      |before| + j < |bytes| * PerByte(bits) && CodeAt(bytes, bits, |before| + j) == codes[j]
  {
    CodesInRange(before, codes, after, bits);
    CodesBack(before + codes + after, bits, |before| + j);
  }

  lemma CodesInRange(before: seq<int>, codes: seq<int>, after: seq<int>, bits: nat)
    requires (bits == 4 || bits == 2) && InCodeRange(before, bits) && InCodeRange(after, bits)
    requires forall j :: 0 <= j < |codes| ==> Sym.Lowest(bits) <= codes[j] <= Sym.Highest(bits)
    ensures InCodeRange(before + codes + after, bits)
  {
    assert Pow2(4) == 16 && Pow2(2) == 4;
  }
}
