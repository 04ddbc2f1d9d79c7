/** The TurboQuant index bytes: 2-bit indices four to a byte, 3- and 4-bit indices two to a byte. */
module BytePacking {
  import opened Bits
  import opened PackedFields

  /** Three-bit indices are stored in four bits. */
  function EffectiveBits(bits: nat): nat {
    if bits == 3 then 4 else bits
  }

  /** The two layouts in use: (indices per byte, bits per index). */
  predicate Layout(per: nat, eff: nat) {
    (per == 4 && eff == 2) || (per == 2 && eff == 4)
  }

  lemma LayoutOf(bits: nat)
    requires 2 <= bits <= 4
    ensures Layout(8 / EffectiveBits(bits), EffectiveBits(bits)) && bits <= EffectiveBits(bits)
  {}

  lemma DivModStep(n: nat, per: nat)
    requires per == 2 || per == 4
    ensures n < per ==> n / per == 0 && n % per == n
    ensures n >= per ==> n / per == (n - per) / per + 1 && n % per == (n - per) % per
  {
    if per == 2 {} else {}
  }

  /** The bytes holding vs, `per` fields of `eff` bits in each, the last one possibly part-filled. */
  function PackBytes(vs: seq<nat>, per: nat, eff: nat): seq<nat>
    requires per > 0
  {
    if |vs| == 0 then []
    else if |vs| < per then [Pack(vs, eff)]
    else [Pack(vs[..per], eff)] + PackBytes(vs[per..], per, eff)
  }

  /** `sub_idx * eff_bits` for index k. */
  function BitOffset(k: nat, per: nat, eff: nat): nat
    requires per > 0
  {
    k % per * eff
  }

  /** Storing one more index: open a new byte, or `|=` into the last one. */
  function NextBytes(b: seq<nat>, n: nat, opens: bool, v: nat, shift: nat): seq<nat>
    requires !opens ==> n < |b|
  {
    if opens then b + [v] else b[n := Or(b[n], Shl(v, shift))]
  }

  lemma {:induction false} PackBytesSnoc(vs: seq<nat>, v: nat, per: nat, eff: nat)
    requires Layout(per, eff) && Fits(vs, eff)
    ensures var b, n, opens := PackBytes(vs, per, eff), |vs| / per, |vs| % per == 0;
      && |b| == n + (if opens then 0 else 1)
      && PackBytes(vs + [v], per, eff) == NextBytes(b, n, opens, v, BitOffset(|vs|, per, eff))
    decreases |vs|
  {
    if |vs| < per {
      DivModStep(|vs|, per);
      FirstByteSnoc(vs, v, per, eff);
    } else {
      var first, rest := Pack(vs[..per], eff), vs[per..];
      FirstBytes(vs, v, per, eff);
      PackBytesSnoc(rest, v, per, eff);
      OffsetStep(|vs|, per, eff);
      var b, n, opens, shift := PackBytes(rest, per, eff), |rest| / per, |rest| % per == 0, BitOffset(|rest|, per, eff);
      LaterByte(first, b, n + 1, opens, v, shift);
    }
  }

  /** A full first byte is the same with or without one more index at the end. */
  lemma FirstBytes(vs: seq<nat>, v: nat, per: nat, eff: nat)
    requires 0 < per <= |vs|
    ensures PackBytes(vs, per, eff) == [Pack(vs[..per], eff)] + PackBytes(vs[per..], per, eff)
    ensures PackBytes(vs + [v], per, eff) == [Pack(vs[..per], eff)] + PackBytes(vs[per..] + [v], per, eff)
  {
    var all := vs + [v];
    assert all[..per] == vs[..per] && all[per..] == vs[per..] + [v];
  }

  lemma OffsetStep(n: nat, per: nat, eff: nat)
    requires (per == 2 || per == 4) && n >= per
    ensures n / per == (n - per) / per + 1 && n % per == (n - per) % per
    ensures BitOffset(n, per, eff) == BitOffset(n - per, per, eff)
  {
    DivModStep(n, per);
  }

  lemma LaterByte(first: nat, rest: seq<nat>, n: nat, opens: bool, v: nat, shift: nat)
    requires n > 0 && (!opens ==> n - 1 < |rest|)
    ensures NextBytes([first] + rest, n, opens, v, shift) == [first] + NextBytes(rest, n - 1, opens, v, shift)
  {}

  lemma FirstByteSnoc(vs: seq<nat>, v: nat, per: nat, eff: nat)
    requires Layout(per, eff) && Fits(vs, eff) && |vs| < per
    ensures |PackBytes(vs, per, eff)| == (if |vs| == 0 then 0 else 1)
    ensures PackBytes(vs + [v], per, eff) ==
      if |vs| == 0 then [v] else [Or(PackBytes(vs, per, eff)[0], Shl(v, |vs| * eff))]
  {
    PackAppend(vs, v, eff);
    var all := vs + [v];
    assert |all| == per ==> all[..per] == all && all[per..] == [];
    assert PackBytes(all, per, eff) == [Pack(all, eff)];
    if |vs| == 0 { assert all == [v] && Or(0, Shl(v, 0)) == v; }
  }

  /** Every index reads back from its byte by shift and mask. */
  lemma {:induction false} PackBytesField(vs: seq<nat>, k: nat, per: nat, eff: nat)
    requires Layout(per, eff) && Fits(vs, eff) && k < |vs|
    ensures k / per < |PackBytes(vs, per, eff)|
    ensures Field(PackBytes(vs, per, eff)[k / per], k % per, eff) == vs[k]
    decreases |vs|
  {
    DivModStep(k, per);
    if |vs| < per {
      PackField(vs, k, eff);
    } else if k < per {
      PackField(vs[..per], k, eff);
    } else {
      PackBytesField(vs[per..], k - per, per, eff);
    }
  }

  /** The stored width is ceil(K * eff / 8), and every byte is a byte. */
  lemma {:induction false} PackBytesWidth(vs: seq<nat>, per: nat, eff: nat)
    requires Layout(per, eff) && Fits(vs, eff)
    ensures |PackBytes(vs, per, eff)| == (|vs| * eff + 7) / 8
    ensures forall b :: 0 <= b < |PackBytes(vs, per, eff)| ==> PackBytes(vs, per, eff)[b] < 256
    decreases |vs|
  {
    assert Pow2(8) == 256 by { assert Pow2(4) == 16; }
    if 0 < |vs| < per {
      PackBound(vs, eff);
      PowersAscend(|vs| * eff, 8);
    } else if |vs| >= per {
      PackBound(vs[..per], eff);
      PackBytesWidth(vs[per..], per, eff);
    }
  }

  lemma {:induction false} PowersAscend(j: nat, k: nat)
    requires j <= k
    ensures Pow2(j) <= Pow2(k)
  {
    if j < k { PowersAscend(j, k - 1); }
  }

  /** The width the loader infers, packed * 8 / eff, is K exactly when K * eff fills whole bytes. */
  lemma InferredWidthTwoBit(k: nat, width: nat)
    requires width == (k * 2 + 7) / 8
    ensures width * 8 / 2 == k <==> k * 2 % 8 == 0
  {
    assert k * 2 % 8 == 2 * (k % 4);
    assert 8 * width <= k * 2 + 7 < 8 * width + 8;
    if k % 4 == 0 { assert k == 4 * (k / 4); }
  }

  lemma InferredWidthFourBit(k: nat, width: nat)
    requires width == (k * 4 + 7) / 8
    ensures width * 8 / 4 == k <==> k * 4 % 8 == 0
  {
    var h := k / 2;
    assert k == 2 * h || k == 2 * h + 1;
    if k == 2 * h { assert width == h && k * 4 == 8 * h; } else { assert width == h + 1 && k * 4 == 8 * h + 4; }
  }

  function Masked(indices: seq<nat>, eff: nat): (vs: seq<nat>)
    ensures |vs| == |indices|
  {
    seq(|indices|, i requires 0 <= i < |indices| => And(indices[i], Pow2(eff) - 1))
  }

  lemma MaskedFits(indices: seq<nat>, eff: nat)
    ensures Fits(Masked(indices, eff), eff)
    ensures Fits(indices, eff) ==> Masked(indices, eff) == indices
  {
    forall i | 0 <= i < |indices|
      ensures And(indices[i], Pow2(eff) - 1) < Pow2(eff)
      ensures indices[i] < Pow2(eff) ==> And(indices[i], Pow2(eff) - 1) == indices[i]
    {
      AndLowMask(indices[i], eff);
      Recompose(indices[i], eff);
      if indices[i] < Pow2(eff) {
        DisjointField(indices[i], 0, eff);
        ShlZero(eff);
      }
    }
  }

  /** A byte row with the bytes b at its front and zeros behind. */
  function Padded(b: seq<nat>, width: nat): (row: seq<nat>)
    requires |b| <= width
    ensures |row| == width
  {
    b + seq(width - |b|, _ => 0)
  }

  lemma PaddedNext(b: seq<nat>, n: nat, opens: bool, v: nat, shift: nat, width: nat)
    requires |b| == (if opens then n else n + 1) && (opens ==> shift == 0) && n < width
    ensures Padded(NextBytes(b, n, opens, v, shift), width)
      == Padded(b, width)[n := Or(Padded(b, width)[n], Shl(v, shift))]
  {
    var row := Padded(b, width);
    if opens {
      assert row[n] == 0 && Or(0, Shl(v, 0)) == v;
    } else {
      assert row[n] == b[n];
    }
  }

  lemma StoreIndex(vs: seq<nat>, v: nat, width: nat, per: nat, eff: nat, n: nat, shift: nat)
    requires Layout(per, eff) && Fits(vs, eff) && |PackBytes(vs + [v], per, eff)| <= width
    requires n == |vs| / per && shift == BitOffset(|vs|, per, eff)
    ensures |PackBytes(vs, per, eff)| <= width && n < width
    ensures Padded(PackBytes(vs + [v], per, eff), width)
      == Padded(PackBytes(vs, per, eff), width)[n := Or(Padded(PackBytes(vs, per, eff), width)[n], Shl(v, shift))]
  {
    PackBytesSnoc(vs, v, per, eff);
    PaddedNext(PackBytes(vs, per, eff), n, |vs| % per == 0, v, shift, width);
  }

  lemma PrefixWidth(vs: seq<nat>, i: nat, width: nat, per: nat, eff: nat)
    requires Layout(per, eff) && Fits(vs, eff) && i <= |vs| && width == (|vs| * eff + 7) / 8
    ensures |PackBytes(vs[..i], per, eff)| <= width
  {
    PackBytesWidth(vs[..i], per, eff);
    assert i * eff <= |vs| * eff;
  }

  /** The byte row when the first i indices have been stored. */
  function PrefixRow(vs: seq<nat>, i: nat, per: nat, eff: nat): (row: seq<nat>)
    requires Layout(per, eff) && Fits(vs, eff) && i <= |vs|
    ensures |row| == (|vs| * eff + 7) / 8
  {
    PrefixWidth(vs, i, (|vs| * eff + 7) / 8, per, eff);
    Padded(PackBytes(vs[..i], per, eff), (|vs| * eff + 7) / 8)
  }

  lemma PrefixEnds(vs: seq<nat>, per: nat, eff: nat)
    requires Layout(per, eff) && Fits(vs, eff)
    ensures PrefixRow(vs, 0, per, eff) == seq((|vs| * eff + 7) / 8, _ => 0)
    ensures PrefixRow(vs, |vs|, per, eff) == PackBytes(vs, per, eff)
  {
    assert vs[..0] == [] && vs[..|vs|] == vs;
    PackBytesWidth(vs, per, eff);
  }

  lemma StorePrefix(vs: seq<nat>, i: nat, per: nat, eff: nat)
    requires Layout(per, eff) && Fits(vs, eff) && i < |vs|
    ensures var row := PrefixRow(vs, i, per, eff);
      i / per < |row| &&
      PrefixRow(vs, i + 1, per, eff) == row[i / per := Or(row[i / per], Shl(vs[i], BitOffset(i, per, eff)))]
  {
    var width := (|vs| * eff + 7) / 8;
    PrefixWidth(vs, i + 1, width, per, eff);
    assert vs[..i + 1] == vs[..i] + [vs[i]];
    StoreIndex(vs[..i], vs[i], width, per, eff, i / per, BitOffset(i, per, eff));
  }

  method PackRow(indices: seq<nat>, bits: nat) returns (packed: array<nat>)
    requires 2 <= bits <= 4
    ensures fresh(packed)
    ensures packed[..] == PackBytes(Masked(indices, EffectiveBits(bits)), 8 / EffectiveBits(bits), EffectiveBits(bits))
  {
    var eff := EffectiveBits(bits);
    var per := 8 / eff;
    LayoutOf(bits);
    packed := PackFields(indices, per, eff);
  }

  method PackFields(indices: seq<nat>, per: nat, eff: nat) returns (packed: array<nat>)
    requires Layout(per, eff)
    ensures fresh(packed) && packed[..] == PackBytes(Masked(indices, eff), per, eff)
  {
    ghost var vs := Masked(indices, eff);
    MaskedFits(indices, eff);
    PrefixEnds(vs, per, eff);
    var width := (|indices| * eff + 7) / 8;
    packed := new nat[width](_ => 0);
    StoreAll(packed, indices, per, eff, vs);
  }

  /** The loop that ors every index in. */
  method StoreAll(packed: array<nat>, indices: seq<nat>, per: nat, eff: nat, ghost vs: seq<nat>)
    requires Layout(per, eff) && vs == Masked(indices, eff) && Fits(vs, eff)
    requires packed[..] == PrefixRow(vs, 0, per, eff)
    modifies packed
    ensures packed[..] == PrefixRow(vs, |vs|, per, eff)
  {
    for i := 0 to |indices|
      invariant packed[..] == PrefixRow(vs, i, per, eff)
    {
      StorePrefix(vs, i, per, eff);
      var byteIdx, mask := i / per, Pow2(eff) - 1;
      packed[byteIdx] := Or(packed[byteIdx], Shl(And(indices[i], mask), BitOffset(i, per, eff)));
    }
  }

  /** The index the decoder reads at position k. */
  function IndexIn(packed: seq<nat>, k: nat, per: nat, eff: nat): nat
    requires per > 0 && k / per < |packed|
  {
    Field(packed[k / per], k % per, eff)
  }

  predicate Reads(packed: seq<nat>, indices: seq<nat>, per: nat, eff: nat)
    requires per > 0
  {
    forall k :: 0 <= k < |indices| ==> k / per < |packed| && IndexIn(packed, k, per, eff) == indices[k]
  }

  lemma InsidePacked(k: nat, count: nat, width: nat, per: nat, eff: nat)
    requires Layout(per, eff) && k < count && count * eff <= width * 8
    ensures k / per < width
  {
    if eff == 4 {} else {}
  }

  /** The decoder's row: effective width, then the index loop. */
  method UnpackRow(packed: seq<nat>, count: nat, bits: nat) returns (indices: seq<nat>)
    requires 2 <= bits <= 4 && count * EffectiveBits(bits) <= |packed| * 8
    ensures |indices| == count && Stores(packed, indices, bits)
  {
    var eff := EffectiveBits(bits);
    var per := 8 / eff;
    LayoutOf(bits);
    indices := UnpackFields(packed, count, per, eff);
  }

  method UnpackFields(packed: seq<nat>, count: nat, per: nat, eff: nat) returns (indices: seq<nat>)
    requires Layout(per, eff) && count * eff <= |packed| * 8
    ensures |indices| == count && Reads(packed, indices, per, eff)
  {
    indices := [];
    for k := 0 to count
      invariant |indices| == k && Reads(packed, indices, per, eff)
    {
      InsidePacked(k, count, |packed|, per, eff);
      var v := And(Shr(packed[k / per], (k % per) * eff), Pow2(eff) - 1);
      ReadsNext(packed, indices, v, per, eff);
      indices := indices + [v];
    }
  }

  lemma ReadsNext(packed: seq<nat>, indices: seq<nat>, v: nat, per: nat, eff: nat)
    requires per > 0 && Reads(packed, indices, per, eff)
    requires |indices| / per < |packed| && v == IndexIn(packed, |indices|, per, eff)
    ensures Reads(packed, indices + [v], per, eff)
  {}

  /** Every index of a row reads back from the bytes. */
  predicate Stores(packed: seq<nat>, indices: seq<nat>, bits: nat)
    requires 2 <= bits <= 4
  {
    Reads(packed, indices, 8 / EffectiveBits(bits), EffectiveBits(bits))
  }

  /** Unpacking what was packed gives the indices back, for every row length. */
  lemma PackedRowStores(indices: seq<nat>, bits: nat)
    requires 2 <= bits <= 4 && Fits(indices, EffectiveBits(bits))
    ensures var packed := PackBytes(Masked(indices, EffectiveBits(bits)), 8 / EffectiveBits(bits), EffectiveBits(bits));
      Stores(packed, indices, bits) && |indices| * EffectiveBits(bits) <= |packed| * 8
  {
    var eff := EffectiveBits(bits);
    LayoutOf(bits);
    MaskedFits(indices, eff);
    PackBytesWidth(indices, 8 / eff, eff);
    forall k | 0 <= k < |indices|
      ensures k / (8 / eff) < |PackBytes(indices, 8 / eff, eff)|
      ensures IndexIn(PackBytes(indices, 8 / eff, eff), k, 8 / eff, eff) == indices[k]
    {
      PackBytesField(indices, k, 8 / eff, eff);
    }
  }
}
