/** Eight 4-bit values to a 32-bit word, stored as a signed integer. */
module Nibbles {
  import opened Bits
  import opened PackedFields

  const HALF_WORD: int := 0x8000_0000

  predicate AreNibbles(s: seq<nat>) {
    forall i :: 0 <= i < |s| ==> s[i] < 16
  }

  /** The uint32 to int32 cast and back. */
  function ToInt32(u: nat): (i: int)
    requires u < WORD
    ensures -HALF_WORD <= i < HALF_WORD
  {
    if u >= HALF_WORD then u - WORD else u
  }

  function ToUint32(i: int): (u: nat)
    ensures u < WORD
  {
    i % WORD
  }

  lemma CastBack(u: nat)
    requires u < WORD
    ensures ToUint32(ToInt32(u)) == u
  {}

  lemma SixteenWords()
    ensures Pow2(4) == 16 && Pow2(32) == WORD && Pow2(8) == 256
  {
    assert Pow2(4) == 16;
    assert Pow2(8) == 256;
    assert Pow2(12) == 0x1000;
    assert Pow2(16) == 0x1_0000;
    assert Pow2(20) == 0x10_0000;
    assert Pow2(24) == 0x100_0000;
    assert Pow2(28) == 0x1000_0000;
  }

  /** The weight of nibble t in a word. */
  function Sixteens(t: nat): (d: nat)
    requires t < 8
    ensures d > 0
  {
    [1, 16, 256, 4096, 65536, 1048576, 16777216, 268435456][t]
  }

  lemma SixteensLaw(t: nat)
    requires t < 8
    ensures Pow2(t * 4) == Sixteens(t) && Pow2(4) == 16
  {
    SixteenWords();
    assert Pow2(0) == 1 && Pow2(4) == 16 && Pow2(8) == 256 && Pow2(12) == 4096 && Pow2(16) == 65536;
    assert Pow2(20) == 1048576 && Pow2(24) == 16777216 && Pow2(28) == 268435456;
  }

  /** Word y while only the first m nibbles of each word are in place. */
  function PartWords(s: seq<nat>, m: nat): (w: seq<nat>)
    requires m <= 8
    ensures |w| == |s| / 8
  {
    seq(|s| / 8, y requires 0 <= y < |s| / 8 => Pack(s[8 * y..8 * y + m], 4))
  }

  /** Word y of the packing: nibbles 8y to 8y + 7, lowest first. */
  function Words(s: seq<nat>): (w: seq<nat>)
    ensures |w| == |s| / 8
  {
    PartWords(s, 8)
  }

  /** `q |= res[:, i::8] << (4 * i)`. */
  function OrColumn(q: seq<nat>, s: seq<nat>, i: nat): (w: seq<nat>)
    requires |q| == |s| / 8 && i < 8
    ensures |w| == |q|
  {
    seq(|q|, y requires 0 <= y < |q| => Or(q[y], Shl(s[8 * y + i], 4 * i)))
  }

  lemma OrColumnAppends(s: seq<nat>, i: nat)
    requires AreNibbles(s) && i < 8
    ensures OrColumn(PartWords(s, i), s, i) == PartWords(s, i + 1)
  {
    var l, r := OrColumn(PartWords(s, i), s, i), PartWords(s, i + 1);
    forall y | 0 <= y < |s| / 8 ensures l[y] == r[y] { WordAppends(s, i, y); }
    assert l == r;
  }

  lemma WordAppends(s: seq<nat>, i: nat, y: nat)
    requires AreNibbles(s) && i < 8 && y < |s| / 8
    ensures Or(Pack(s[8 * y..8 * y + i], 4), Shl(s[8 * y + i], 4 * i)) == Pack(s[8 * y..8 * y + (i + 1)], 4)
  {
    var vs, v := s[8 * y..8 * y + i], s[8 * y + i];
    SliceNibbles(s, 8 * y, 8 * y + i);
    PackAppend(vs, v, 4);
    assert vs + [v] == s[8 * y..8 * y + (i + 1)];
  }

  lemma SliceNibbles(s: seq<nat>, from: nat, to: nat)
    requires AreNibbles(s) && from <= to <= |s|
    ensures Fits(s[from..to], 4)
  {
    SixteenWords();
  }

  lemma WordBound(s: seq<nat>, y: nat)
    requires AreNibbles(s) && y < |s| / 8
    ensures Words(s)[y] < WORD
  {
    SliceNibbles(s, 8 * y, 8 * y + 8);
    PackBound(s[8 * y..8 * y + 8], 4);
    SixteenWords();
  }

  /** The eight-pass packing loop, then the cast. */
  method PackNibbles(res: seq<nat>) returns (stored: seq<int>)
    requires AreNibbles(res) && |res| % 8 == 0
    ensures Stores(stored, res)
  {
    var q: seq<nat> := seq(|res| / 8, _ => 0);
    for i := 0 to 8
      invariant q == PartWords(res, i)
    {
      OrColumnAppends(res, i);
      q := OrColumn(q, res, i);
    }
    forall y | 0 <= y < |q| ensures q[y] < WORD { WordBound(res, y); }
    stored := seq(|q|, y requires 0 <= y < |q| && q[y] < WORD => ToInt32(q[y]));
  }

  predicate Stores(stored: seq<int>, res: seq<nat>) {
    && |stored| == |res| / 8
    && forall y :: 0 <= y < |stored| ==> Words(res)[y] < WORD && stored[y] == ToInt32(Words(res)[y])
  }

  /** Nibble p of the stored words. */
  function NibbleAt(stored: seq<int>, p: nat): nat
    requires p < 8 * |stored|
  {
    Field(ToUint32(stored[p / 8]), p % 8, 4)
  }

  /** `for i in range(8): res[:, i::8] = (qw >> (4 * i)) & 0xF`. */
  method UnpackNibbles(stored: seq<int>) returns (res: seq<nat>)
    ensures |res| == 8 * |stored| && forall p :: 0 <= p < |res| ==> res[p] == NibbleAt(stored, p)
  {
    var size := 8 * |stored|;
    res := seq(size, _ => 0);
    for i := 0 to 8
      invariant |res| == size
      invariant forall p :: 0 <= p < size && p % 8 < i ==> res[p] == NibbleAt(stored, p)
    {
      res := seq(size, p requires 0 <= p < size && |res| == size =>
        if p % 8 == i then And(Shr(ToUint32(stored[p / 8]), i * 4), Pow2(4) - 1) else res[p]);
    }
  }

  /** Unpacking the stored words gives the nibbles back. */
  lemma NibblesBack(res: seq<nat>, stored: seq<int>, p: nat)
    requires AreNibbles(res) && |res| % 8 == 0 && Stores(stored, res) && p < |res|
    ensures NibbleAt(stored, p) == res[p]
  {
    var y := p / 8;
    CastBack(Words(res)[y]);
    SliceNibbles(res, 8 * y, 8 * y + 8);
    PackField(res[8 * y..8 * y + 8], p % 8, 4);
  }

  /** Nibble p of stored words in numbers: a negative word stands for itself plus 2^32. */
  lemma NibbleAtLaw(stored: seq<int>, p: nat)
    requires p < 8 * |stored| && -0x8000_0000 <= stored[p / 8] < 0x8000_0000
    ensures var v := stored[p / 8];
      NibbleAt(stored, p) == (if v < 0 then v + 0x1_0000_0000 else v) / Sixteens(p % 8) % 16
  {
    Unsigned(stored[p / 8]);
    SixteensLaw(p % 8);
    FieldIs(ToUint32(stored[p / 8]), p % 8, 4, Sixteens(p % 8), 16);
  }

  lemma Unsigned(v: int)
    requires -0x8000_0000 <= v < 0x8000_0000
    ensures ToUint32(v) == if v < 0 then v + 0x1_0000_0000 else v
  {}

  /** Stored words are 32-bit signed numbers. */
  lemma StoredRange(stored: seq<int>, res: seq<nat>, y: nat)
    requires Stores(stored, res) && y < |stored|
    ensures -0x8000_0000 <= stored[y] < 0x8000_0000
  {}
}
