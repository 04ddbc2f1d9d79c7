/** The Marlin permutation tables: the loops that build them, and the fact that each one rearranges
    the bits of an index, so that it is a permutation. */
module MarlinPerms {
  import opened Bits
  import opened PackedFields
  import opened Tensors

  // ----- rearranging index bits -----

  function BitsAt(x: nat, source: seq<nat>): (bits: seq<nat>)
    ensures |bits| == |source|
  {
    seq(|source|, t requires 0 <= t < |source| => Field(x, source[t], 1))
  }

  /** The number whose bit t is bit source[t] of x. */
  function Rearrange(x: nat, source: seq<nat>): nat {
    Pack(BitsAt(x, source), 1)
  }

  predicate Inverse(source: seq<nat>, inv: seq<nat>) {
    |inv| == |source| && forall t :: 0 <= t < |source| ==> inv[t] < |source| && source[inv[t]] == t
  }

  lemma BitsFit(x: nat, source: seq<nat>)
    ensures Fits(BitsAt(x, source), 1)
  {
    forall t | 0 <= t < |source| ensures BitsAt(x, source)[t] < Pow2(1) { FieldFits(x, source[t], 1); }
  }

  lemma RearrangedField(x: nat, source: seq<nat>, t: nat)
    requires t < |source|
    ensures Field(Rearrange(x, source), t, 1) == Field(x, source[t], 1)
  {
    BitsFit(x, source);
    PackField(BitsAt(x, source), t, 1);
  }

  /** Rearranging bits is undone by the inverse rearrangement. */
  lemma RearrangeBack(x: nat, source: seq<nat>, inv: seq<nat>)
    requires Inverse(source, inv) && x < Pow2(|source|)
    ensures Rearrange(Rearrange(x, source), inv) == x
    ensures Rearrange(x, source) < Pow2(|source|)
  {
    BitsFit(x, source);
    PackBound(BitsAt(x, source), 1);
    var n, y := |source|, Rearrange(x, source);
    var back := BitsAt(y, inv);
    forall t | 0 <= t < n ensures back[t] == Field(x, t, 1) { RearrangedField(x, source, inv[t]); }
    assert back == Fields(x, n, 1);
    PackOfFields(x, n, 1);
  }

  /** A table that rearranges the bits of its index is a permutation. */
  lemma RearrangementPermutes(table: seq<nat>, source: seq<nat>, inv: seq<nat>)
    requires Inverse(source, inv) && |table| == Pow2(|source|)
    requires forall p :: 0 <= p < |table| ==> table[p] == Rearrange(p, source)
    ensures IsPermutation(table)
  {
    forall p | 0 <= p < |table| ensures table[p] < |table| && Rearrange(table[p], inv) == p {
      RearrangeBack(p, source, inv);
    }
  }

  // ----- the loops of get_perms -----

  /** The two row patterns: four consecutive rows for W4A8, pairs eight apart for plain Marlin. */
  datatype RowPattern = FourConsecutive | SkipEight

  function Row(pattern: RowPattern, i: nat, r: nat): nat {
    match pattern
    case FourConsecutive => 4 * (i % 4) + r
    case SkipEight => if r < 2 then 2 * (i % 4) + r else 2 * (i % 4 + 4) + (r - 2)
  }

  /** Entry e of the eight indices one thread contributes. */
  function Entry(pattern: RowPattern, i: nat, e: nat): nat {
    16 * Row(pattern, i, e % 4) + i / 4 + 8 * (e / 4)
  }

  function Raw(pattern: RowPattern, p: nat): nat {
    Entry(pattern, p / 32, p % 8) + 256 * (p / 8 % 4)
  }

  function Interleave(wholeColumn: bool): (s: seq<nat>)
    ensures |s| == 8 && forall i :: 0 <= i < 8 ==> s[i] < 8
  {
    if wholeColumn then [4, 0, 5, 1, 6, 2, 7, 3] else [0, 2, 4, 6, 1, 3, 5, 7]
  }

  /** The table the loops produce, `wholeColumn` meaning groupsize == k. */
  function PermTable(pattern: RowPattern, wholeColumn: bool): (table: seq<nat>)
    ensures |table| == 1024
  {
    seq(1024, p requires 0 <= p < 1024 => Raw(pattern, p / 8 * 8 + Interleave(wholeColumn)[p % 8]))
  }

  function ScaleEntry(p: nat): nat {
    p / 8 + 8 * (p % 8)
  }

  function ScaleTable(): (table: seq<nat>)
    ensures |table| == 64
  {
    seq(64, p requires 0 <= p < 64 => ScaleEntry(p))
  }

  function SingleOffset(t: nat): nat
    requires t < 8
  {
    [0, 1, 8, 9, 16, 17, 24, 25][t]
  }

  function SingleEntry(p: nat): nat {
    2 * (p / 8) + SingleOffset(p % 8)
  }

  function SingleTable(): (table: seq<nat>)
    ensures |table| == 32
  {
    seq(32, p requires 0 <= p < 32 => SingleEntry(p))
  }

  method ThreadEntries(pattern: RowPattern, i: nat) returns (perm1: seq<nat>)
    ensures |perm1| == 8 && forall e :: 0 <= e < 8 ==> perm1[e] == Entry(pattern, i, e)
  {
    perm1 := [];
    var col := i / 4;
    for block := 0 to 2
      invariant |perm1| == 4 * block && forall e :: 0 <= e < |perm1| ==> perm1[e] == Entry(pattern, i, e)
    {
      for r := 0 to 4
        invariant |perm1| == 4 * block + r && forall e :: 0 <= e < |perm1| ==> perm1[e] == Entry(pattern, i, e)
      {
        perm1 := perm1 + [16 * Row(pattern, i, r) + col + 8 * block];
      }
    }
  }

  lemma Digits(i: nat, j: nat, e: nat)
    requires j < 4 && e < 8
    ensures var p := 32 * i + 8 * j + e; p / 32 == i && p / 8 == 4 * i + j && p / 8 % 4 == j && p % 8 == e
  {}

  lemma RawAt(pattern: RowPattern, i: nat, j: nat, e: nat)
    requires j < 4 && e < 8
    ensures Raw(pattern, 32 * i + 8 * j + e) == Entry(pattern, i, e) + 256 * j
  {
    Digits(i, j, e);
  }

  method RawPerm(pattern: RowPattern) returns (perm: seq<nat>)
    ensures |perm| == 1024 && forall p :: 0 <= p < 1024 ==> perm[p] == Raw(pattern, p)
  {
    perm := [];
    for i := 0 to 32
      invariant |perm| == 32 * i && forall p :: 0 <= p < |perm| ==> perm[p] == Raw(pattern, p)
    {
      var perm1 := ThreadEntries(pattern, i);
      for j := 0 to 4
        invariant |perm| == 32 * i + 8 * j && forall p :: 0 <= p < |perm| ==> perm[p] == Raw(pattern, p)
      {
        ghost var n := 32 * i + 8 * j;
        forall p | n <= p < n + 8 ensures Raw(pattern, p) == perm1[p - n] + 256 * j { RawAt(pattern, i, j, p - n); }
        perm := perm + seq(8, e requires 0 <= e < 8 => perm1[e] + 256 * j);
      }
    }
  }

  lemma RowEntries(i: nat, j: nat)
    requires j < 8
    ensures ScaleEntry(8 * i + j) == i + 8 * j && SingleEntry(8 * i + j) == 2 * i + SingleOffset(j)
  {
    EightByEight(j, i);
  }

  lemma EightByEight(i: nat, j: nat)
    requires i < 8
    ensures (i + 8 * j) / 8 == j && (i + 8 * j) % 8 == i
  {}

  method ScalePerms() returns (scalePerm: seq<nat>, scalePermSingle: seq<nat>)
    ensures scalePerm == ScaleTable() && scalePermSingle == SingleTable()
  {
    scalePerm := [];
    for i := 0 to 8
      invariant |scalePerm| == 8 * i && forall p :: 0 <= p < 8 * i ==> scalePerm[p] == ScaleEntry(p)
    {
      forall p | 8 * i <= p < 8 * i + 8 ensures ScaleEntry(p) == i + 8 * (p - 8 * i) { RowEntries(i, p - 8 * i); }
      scalePerm := scalePerm + seq(8, j requires 0 <= j < 8 => i + 8 * j);
    }
    scalePermSingle := [];
    for i := 0 to 4
      invariant |scalePermSingle| == 8 * i && forall p :: 0 <= p < 8 * i ==> scalePermSingle[p] == SingleEntry(p)
    {
      forall p | 8 * i <= p < 8 * i + 8 ensures SingleEntry(p) == 2 * i + SingleOffset(p - 8 * i) {
        RowEntries(i, p - 8 * i);
      }
      scalePermSingle := scalePermSingle + seq(8, t requires 0 <= t < 8 => 2 * i + SingleOffset(t));
    }
  }

  method GetPerms(pattern: RowPattern, wholeColumn: bool)
    returns (perm: seq<nat>, scalePerm: seq<nat>, scalePermSingle: seq<nat>)
    ensures perm == PermTable(pattern, wholeColumn)
    ensures scalePerm == ScaleTable() && scalePermSingle == SingleTable()
  {
    var raw := RawPerm(pattern);
    perm := PermuteBlocks(raw, Interleave(wholeColumn));
    scalePerm, scalePermSingle := ScalePerms();
  }

  // ----- each table as a rearrangement of bits -----

  lemma PackFrom(b: seq<nat>, k: nat)
    requires k < |b|
    ensures Pack(b[k..], 1) == b[k] + 2 * Pack(b[k + 1..], 1)
  {
    assert b[k..][1..] == b[k + 1..];
    assert Shl(Pack(b[k + 1..], 1), 1) == 2 * Shl(Pack(b[k + 1..], 1), 0);
  }

  lemma PackFive(b: seq<nat>, k: nat)
    requires k + 5 <= |b|
    ensures Pack(b[k..], 1) ==
      b[k] + 2 * b[k + 1] + 4 * b[k + 2] + 8 * b[k + 3] + 16 * b[k + 4] + 32 * Pack(b[k + 5..], 1)
  {
    PackFrom(b, k);
    PackFrom(b, k + 1);
    PackFrom(b, k + 2);
    PackFrom(b, k + 3);
    PackFrom(b, k + 4);
  }

  /** The bits of a ten-bit index. */
  lemma TenBits(x: nat) returns (b: seq<nat>)
    requires x < 1024
    ensures |b| == 10 && forall t :: 0 <= t < 10 ==> b[t] < 2 && b[t] == Field(x, t, 1)
    ensures x == b[0] + 2 * b[1] + 4 * b[2] + 8 * b[3] + 16 * b[4]
              + 32 * b[5] + 64 * b[6] + 128 * b[7] + 256 * b[8] + 512 * b[9]
  {
    assert Pow2(10) == 1024 by { assert Pow2(5) == 32; }
    b := Fields(x, 10, 1);
    PackOfFields(x, 10, 1);
    assert b[0..] == b;
    PackFive(b, 0);
    PackFive(b, 5);
    forall t | 0 <= t < 10 ensures b[t] < 2 { FieldFits(x, t, 1); }
  }

  lemma RearrangeTen(x: nat, source: seq<nat>, b: seq<nat>)
    requires |source| == 10 && |b| == 10 && forall t :: 0 <= t < 10 ==> source[t] < 10
    requires forall t :: 0 <= t < 10 ==> b[t] == Field(x, t, 1)
    ensures Rearrange(x, source) ==
      b[source[0]] + 2 * b[source[1]] + 4 * b[source[2]] + 8 * b[source[3]] + 16 * b[source[4]]
      + 32 * b[source[5]] + 64 * b[source[6]] + 128 * b[source[7]] + 256 * b[source[8]] + 512 * b[source[9]]
  {
    var c := seq(10, t requires 0 <= t < 10 => Field(x, source[t], 1));
    assert c[0..] == c;
    PackFive(c, 0);
    PackFive(c, 5);
  }

  /** Which index bit each bit of a table entry comes from. In the whole-column interleave bit 3,
      the block, is the complement of its source. */
  function PermSource(pattern: RowPattern, wholeColumn: bool): (source: seq<nat>)
    ensures |source| == 10 && forall t :: 0 <= t < 10 ==> source[t] < 10
  {
    match (pattern, wholeColumn)
    case (FourConsecutive, false) => [7, 8, 9, 1, 2, 0, 5, 6, 3, 4]
    case (SkipEight, false) => [7, 8, 9, 1, 2, 5, 6, 0, 3, 4]
    case (FourConsecutive, true) => [7, 8, 9, 0, 1, 2, 5, 6, 3, 4]
    case (SkipEight, true) => [7, 8, 9, 0, 1, 5, 6, 2, 3, 4]
  }

  function PermInverse(pattern: RowPattern, wholeColumn: bool): (inv: seq<nat>)
    ensures Inverse(PermSource(pattern, wholeColumn), inv)
  {
    match (pattern, wholeColumn)
    case (FourConsecutive, false) => [5, 3, 4, 8, 9, 6, 7, 0, 1, 2]
    case (SkipEight, false) => [7, 3, 4, 8, 9, 5, 6, 0, 1, 2]
    case (FourConsecutive, true) => [3, 4, 5, 8, 9, 6, 7, 0, 1, 2]
    case (SkipEight, true) => [3, 4, 7, 8, 9, 5, 6, 0, 1, 2]
  }

  /** Complement of bit 3. */
  function ToggleBlock(v: nat): nat {
    if v / 8 % 2 == 0 then v + 8 else v - 8
  }

  lemma InterleavedIndex(p: nat, b: seq<nat>, wholeColumn: bool)
    requires p < 1024 && |b| == 10 && forall t :: 0 <= t < 10 ==> b[t] < 2
    requires p == b[0] + 2 * b[1] + 4 * b[2] + 8 * b[3] + 16 * b[4]
              + 32 * b[5] + 64 * b[6] + 128 * b[7] + 256 * b[8] + 512 * b[9]
    ensures p / 32 == b[5] + 2 * b[6] + 4 * b[7] + 8 * b[8] + 16 * b[9]
    ensures p / 8 % 4 == b[3] + 2 * b[4]
    ensures Interleave(wholeColumn)[p % 8] ==
      if wholeColumn then b[1] + 2 * b[2] + 4 * (1 - b[0]) else b[2] + 2 * b[0] + 4 * b[1]
  {
    assert p % 8 == b[0] + 2 * b[1] + 4 * b[2];
  }

  /** Every entry of a Marlin table is its index with the bits rearranged; the whole-column interleave
      also complements the block bit. */
  lemma PermTableBits(pattern: RowPattern, wholeColumn: bool, p: nat)
    requires p < 1024
    ensures PermTable(pattern, wholeColumn)[p] ==
      if wholeColumn then ToggleBlock(Rearrange(p, PermSource(pattern, wholeColumn)))
      else Rearrange(p, PermSource(pattern, wholeColumn))
  {
    var b := TenBits(p);
    RearrangeTen(p, PermSource(pattern, wholeColumn), b);
    RawOfBits(pattern, wholeColumn, p, b);
    Assemble(pattern, wholeColumn, b, Rearrange(p, PermSource(pattern, wholeColumn)));
  }

  lemma {:induction false} ZerosPack(source: seq<nat>)
    ensures Rearrange(0, source) == 0
  {
    if |source| > 0 {
      ZerosPack(source[1..]);
      assert BitsAt(0, source)[1..] == BitsAt(0, source[1..]);
      ZeroField(source[0]);
    }
  }

  lemma {:induction false} ZeroField(t: nat)
    ensures Field(0, t, 1) == 0
  {
    ShrOfZero(t * 1);
  }

  lemma {:induction false} ShrOfZero(k: nat)
    ensures Shr(0, k) == 0
  {
    if k > 0 { ShrOfZero(k - 1); }
  }

  /** So the whole-column table is no rearrangement of index bits: those leave 0 at 0, and it starts with 8. */
  lemma WholeColumnStart(pattern: RowPattern, source: seq<nat>)
    ensures PermTable(pattern, true)[0] == 8 && Rearrange(0, source) == 0
  {
    ZerosPack(source);
    assert Interleave(true)[0] == 4;
  }

  /** The table entry written out in the bits of its index. */
  function FromBits(pattern: RowPattern, wholeColumn: bool, b: seq<int>): int
    requires |b| == 10
  {
    var low, col, j := b[5] + 2 * b[6], b[7] + 2 * b[8] + 4 * b[9], b[3] + 2 * b[4];
    var r0, r1 := if wholeColumn then b[1] else b[2], if wholeColumn then b[2] else b[0];
    var row := if pattern.FourConsecutive? then 4 * low + r0 + 2 * r1 else 2 * low + r0 + 8 * r1;
    var block: int := if wholeColumn then 1 - b[0] else b[1];
    16 * row + col + 8 * block + 256 * j
  }

  lemma RawOfBits(pattern: RowPattern, wholeColumn: bool, p: nat, b: seq<nat>)
    requires p < 1024 && |b| == 10 && forall t :: 0 <= t < 10 ==> b[t] < 2
    requires p == b[0] + 2 * b[1] + 4 * b[2] + 8 * b[3] + 16 * b[4]
              + 32 * b[5] + 64 * b[6] + 128 * b[7] + 256 * b[8] + 512 * b[9]
    ensures PermTable(pattern, wholeColumn)[p] == FromBits(pattern, wholeColumn, b)
  {
    InterleavedIndex(p, b, wholeColumn);
    PermTableAt(pattern, wholeColumn, p);
    EntryOfBits(pattern, wholeColumn, p, Interleave(wholeColumn)[p % 8], b);
  }

  lemma EntryOfBits(pattern: RowPattern, wholeColumn: bool, p: nat, e: nat, b: seq<nat>)
    requires p < 1024 && |b| == 10 && forall t :: 0 <= t < 10 ==> b[t] < 2
    requires p == b[0] + 2 * b[1] + 4 * b[2] + 8 * b[3] + 16 * b[4]
              + 32 * b[5] + 64 * b[6] + 128 * b[7] + 256 * b[8] + 512 * b[9]
    requires e == if wholeColumn then b[1] + 2 * b[2] + 4 * (1 - b[0]) else b[2] + 2 * b[0] + 4 * b[1]
    ensures Raw(pattern, p / 8 * 8 + e) == FromBits(pattern, wholeColumn, b)
  {
    var low, col, j := b[5] + 2 * b[6], b[7] + 2 * b[8] + 4 * b[9], b[3] + 2 * b[4];
    assert p / 8 == j + 4 * low + 16 * col;
    RawBits(pattern, p / 8 * 8 + e, e, low, col, j);
    EntryParts(pattern, e, low, wholeColumn, b);
  }

  lemma PermTableAt(pattern: RowPattern, wholeColumn: bool, p: nat)
    requires p < 1024
    ensures PermTable(pattern, wholeColumn)[p] == Raw(pattern, p / 8 * 8 + Interleave(wholeColumn)[p % 8])
  {}

  lemma Assemble(pattern: RowPattern, wholeColumn: bool, b: seq<nat>, v: nat)
    requires |b| == 10 && forall t :: 0 <= t < 10 ==> b[t] < 2
    requires var s := PermSource(pattern, wholeColumn);
      v == b[s[0]] + 2 * b[s[1]] + 4 * b[s[2]] + 8 * b[s[3]] + 16 * b[s[4]]
        + 32 * b[s[5]] + 64 * b[s[6]] + 128 * b[s[7]] + 256 * b[s[8]] + 512 * b[s[9]]
    ensures FromBits(pattern, wholeColumn, b) == if wholeColumn then ToggleBlock(v) else v
  {
    if wholeColumn {
      var s := PermSource(pattern, true);
      ToggleAt(v, b[7] + 2 * b[8] + 4 * b[9], b[0],
               b[s[4]] + 2 * b[s[5]] + 4 * b[s[6]] + 8 * b[s[7]] + 16 * b[s[8]] + 32 * b[s[9]]);
    }
  }

  lemma ToggleAt(v: nat, low: nat, bit: nat, high: nat)
    requires low < 8 && bit < 2 && v == low + 8 * bit + 16 * high
    ensures ToggleBlock(v) == low + 8 * (1 - bit) + 16 * high
  {
    assert v / 8 == bit + 2 * high;
  }

  lemma RawBits(pattern: RowPattern, x: nat, e: nat, low: nat, col: nat, j: nat)
    requires e < 8 && low < 4 && j < 4 && x == 32 * (low + 4 * col) + 8 * j + e
    ensures Raw(pattern, x) == 16 * Row(pattern, low, e % 4) + col + 8 * (e / 4) + 256 * j
  {
    var i := low + 4 * col;
    RawAt(pattern, i, j, e);
    ThreadEntry(pattern, i, low, col, e);
  }

  lemma ThreadEntry(pattern: RowPattern, i: nat, low: nat, col: nat, e: nat)
    requires low < 4 && i == low + 4 * col
    ensures Entry(pattern, i, e) == 16 * Row(pattern, low, e % 4) + col + 8 * (e / 4)
  {
    assert i / 4 == col && i % 4 == low;
  }

  lemma EntryParts(pattern: RowPattern, e: nat, low: nat, wholeColumn: bool, b: seq<nat>)
    requires |b| == 10 && forall t :: 0 <= t < 10 ==> b[t] < 2
    requires low == b[5] + 2 * b[6]
    requires e == if wholeColumn then b[1] + 2 * b[2] + 4 * (1 - b[0]) else b[2] + 2 * b[0] + 4 * b[1]
    ensures e / 4 == if wholeColumn then 1 - b[0] else b[1]
    ensures Row(pattern, low, e % 4) ==
      var r0, r1 := if wholeColumn then b[1] else b[2], if wholeColumn then b[2] else b[0];
      if pattern.FourConsecutive? then 4 * low + r0 + 2 * r1 else 2 * low + r0 + 8 * r1
  {
    assert e % 4 == (if wholeColumn then b[1] else b[2]) + 2 * (if wholeColumn then b[2] else b[0]);
  }

  lemma PermTablePermutes(pattern: RowPattern, wholeColumn: bool)
    ensures IsPermutation(PermTable(pattern, wholeColumn))
  {
    var table, source := PermTable(pattern, wholeColumn), PermSource(pattern, wholeColumn);
    var inv := PermInverse(pattern, wholeColumn);
    assert Pow2(10) == 1024 by { assert Pow2(5) == 32; }
    var plain := seq(1024, p requires 0 <= p < 1024 => Rearrange(p, source));
    RearrangementPermutes(plain, source, inv);
    forall p | 0 <= p < 1024 ensures table[p] == if wholeColumn then ToggleBlock(plain[p]) else plain[p] {
      PermTableBits(pattern, wholeColumn, p);
    }
    if wholeColumn {
      forall p | 0 <= p < 1024 ensures table[p] < 1024 && ToggleBlock(table[p]) == plain[p] {
        ToggleTwice(plain[p]);
      }
    }
  }

  lemma ToggleTwice(v: nat)
    requires v < 1024
    ensures ToggleBlock(v) < 1024 && ToggleBlock(ToggleBlock(v)) == v
  {}

  /** The group-scale table is its own inverse. */
  lemma ScaleTableInvolution()
    ensures IsPermutation(ScaleTable())
    ensures forall p :: 0 <= p < 64 ==> ScaleTable()[p] < 64 && ScaleTable()[ScaleTable()[p]] == p
  {
    var table := ScaleTable();
    forall p | 0 <= p < 64 ensures table[p] < 64 && table[table[p]] == p { ScaleEntryTwice(p); }
  }

  lemma ScaleEntryTwice(p: nat)
    requires p < 64
    ensures ScaleEntry(p) < 64 && ScaleEntry(ScaleEntry(p)) == p
  {
    EightByEight(p / 8, p % 8);
  }

  /** The channel-scale table is a permutation. */
  lemma SingleTablePermutes()
    ensures IsPermutation(SingleTable())
  {
    var table := SingleTable();
    forall p | 0 <= p < 32 ensures table[p] < 32 && p == SingleBack(table[p]) { SingleEntryBack(p / 8, p % 8, p); }
  }

  function SingleBack(v: nat): nat {
    v / 2 % 4 * 8 + v / 8 * 2 + v % 2
  }

  lemma SingleEntryBack(i: nat, t: nat, p: nat)
    requires i < 4 && t < 8 && i == p / 8 && t == p % 8
    ensures SingleEntry(p) < 32 && SingleBack(SingleEntry(p)) == p
  {
    assert SingleOffset(t) == t / 2 * 8 + t % 2;
    SingleDigits(i, t % 2, t / 2);
  }

  lemma SingleDigits(i: nat, low: nat, high: nat)
    requires i < 4 && low < 2 && high < 4
    ensures var v := 2 * i + low + 8 * high; v < 32 && SingleBack(v) == 8 * i + 2 * high + low
  {
    var v := 2 * i + low + 8 * high;
    assert v / 8 == high && v % 2 == low && v / 2 == i + 4 * high;
  }
}
