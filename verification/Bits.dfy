/** Bitwise operators on natural numbers, and the facts about disjoint bit fields that the
    packing loops of this repository rely on. Unsigned words are naturals with an explicit bound. */
module Bits {
  import opened Arithmetic

  const WORD: int := 0x1_0000_0000  // one more than the largest 32-bit unsigned number

  function And(x: nat, y: nat): nat {
    if x == 0 || y == 0 then 0
    else 2 * And(x / 2, y / 2) + (if x % 2 == 1 && y % 2 == 1 then 1 else 0)
  }

  function Or(x: nat, y: nat): nat {
    if x == 0 then y
    else if y == 0 then x
    else 2 * Or(x / 2, y / 2) + (if x % 2 == 1 || y % 2 == 1 then 1 else 0)
  }

  function Xor(x: nat, y: nat): nat {
    if x == 0 then y
    else if y == 0 then x
    else 2 * Xor(x / 2, y / 2) + (if x % 2 != y % 2 then 1 else 0)
  }

  function Popcount(x: nat): nat {
    if x == 0 then 0 else x % 2 + Popcount(x / 2)
  }

  function Pow2(k: nat): (p: nat)
    ensures p > 0
  {
    if k == 0 then 1 else 2 * Pow2(k - 1)
  }

  function Shl(x: nat, k: nat): nat {
    if k == 0 then x else 2 * Shl(x, k - 1)
  }

  function Shr(x: nat, k: nat): nat {
    if k == 0 then x else Shr(x / 2, k - 1)
  }

  /** The k lowest bits of x. */
  function Low(x: nat, k: nat): nat {
    if k == 0 then 0 else 2 * Low(x / 2, k - 1) + x % 2
  }

  /** A field placed above the bits already present is added by `|`, and reads back by `>>`. */
  lemma {:induction false} DisjointField(x: nat, y: nat, k: nat)
    requires x < Pow2(k)
    ensures Or(x, Shl(y, k)) == x + Shl(y, k)
    ensures Shr(x + Shl(y, k), k) == y
    ensures Low(x + Shl(y, k), k) == x
  {
    if k > 0 {
      DisjointField(x / 2, y, k - 1);
      assert (x + 2 * Shl(y, k - 1)) / 2 == x / 2 + Shl(y, k - 1);
    }
  }

  /** Masking with 2^k - 1 keeps the k lowest bits. */
  lemma {:induction false} AndLowMask(x: nat, k: nat)
    ensures And(x, Pow2(k) - 1) == Low(x, k)
  {
    if k > 0 {
      AndLowMask(x / 2, k - 1);
      assert (Pow2(k) - 1) / 2 == Pow2(k - 1) - 1;
      if x == 0 { LowOfZero(k); }
    }
  }

  lemma {:induction false} LowOfZero(k: nat)
    ensures Low(0, k) == 0
  {
    if k > 0 { LowOfZero(k - 1); }
  }

  /** Low bits and remaining bits make up the number again. */
  lemma {:induction false} Recompose(x: nat, k: nat)
    ensures x == Low(x, k) + Shl(Shr(x, k), k)
    ensures Low(x, k) < Pow2(k)
  {
    if k > 0 { Recompose(x / 2, k - 1); }
  }

  lemma {:induction false} ShlBound(x: nat, j: nat, k: nat)
    requires x < Pow2(j)
    ensures Shl(x, k) + Pow2(k) <= Pow2(j + k)
  {
    if k > 0 { ShlBound(x, j, k - 1); }
    else { assert Pow2(k) == 1; }
  }

  predicate IsPow2(n: nat) {
    n == 1 || (n > 0 && n % 2 == 0 && IsPow2(n / 2))
  }

  lemma {:induction false} IsPow2Exponent(n: nat) returns (s: nat)
    requires IsPow2(n)
    ensures n == Pow2(s)
  {
    if n == 1 { s := 0; } else { s := IsPow2Exponent(n / 2); s := s + 1; }
  }

  /** The guard `n & (n - 1) == 0` admits the powers of two and zero, nothing else. */
  lemma {:induction false} PowerOfTwoGuard(n: nat)
    requires n > 0
    ensures And(n, n - 1) == 0 <==> IsPow2(n)
  {
    if n % 2 == 0 {
      PowerOfTwoGuard(n / 2);
      assert (n - 1) / 2 == n / 2 - 1;
      assert And(n, n - 1) == 2 * And(n / 2, n / 2 - 1);
    } else if n > 1 {
      assert n / 2 == (n - 1) / 2 > 0;
      AndSelf(n / 2);
    }
  }

  lemma {:induction false} AndSelf(x: nat)
    ensures And(x, x) == x
  {
    if x > 0 { AndSelf(x / 2); }
  }

  // ----- what the operators mean in numbers -----

  lemma {:induction false} ShlLaw(x: nat, k: nat)
    ensures Shl(x, k) == x * Pow2(k)
  {
    if k > 0 {
      ShlLaw(x, k - 1);
      DoubleProduct(x, Pow2(k - 1));
    } else {
      assert Pow2(0) == 1;
    }
  }

  lemma DoubleProduct(x: nat, p: nat)
    ensures 2 * (x * p) == x * (2 * p)
  {}

  /** Shifting right divides by a power of two, and the bits shifted out are the remainder. */
  lemma ShrLaw(x: nat, k: nat)
    ensures Shr(x, k) == x / Pow2(k) && Low(x, k) == x % Pow2(k)
  {
    Recompose(x, k);
    ShlLaw(Shr(x, k), k);
    DivMod(Shr(x, k), Pow2(k), Low(x, k));
  }

  /** Bit k of the three operators. */
  lemma {:induction false} BitLaw(x: nat, y: nat, k: nat)
    ensures Shr(And(x, y), k) % 2 == (if Shr(x, k) % 2 == 1 && Shr(y, k) % 2 == 1 then 1 else 0)
    ensures Shr(Or(x, y), k) % 2 == (if Shr(x, k) % 2 == 1 || Shr(y, k) % 2 == 1 then 1 else 0)
    ensures Shr(Xor(x, y), k) % 2 == (if Shr(x, k) % 2 != Shr(y, k) % 2 then 1 else 0)
  {
    if k > 0 {
      BitLaw(x / 2, y / 2, k - 1);
      AndHalf(x, y);
      OrHalf(x, y);
      XorHalf(x, y);
    }
  }

  lemma HalfIs(a: nat, x: nat)
    requires x == 2 * a || x == 2 * a + 1
    ensures x / 2 == a
  {}

  lemma AndHalf(x: nat, y: nat)
    ensures And(x, y) / 2 == And(x / 2, y / 2)
  {
    if x > 0 && y > 0 { HalfIs(And(x / 2, y / 2), And(x, y)); }
  }

  lemma OrHalf(x: nat, y: nat)
    ensures Or(x, y) / 2 == Or(x / 2, y / 2)
  {
    if x > 0 && y > 0 { HalfIs(Or(x / 2, y / 2), Or(x, y)); }
  }

  lemma XorHalf(x: nat, y: nat)
    ensures Xor(x, y) / 2 == Xor(x / 2, y / 2)
  {
    if x > 0 && y > 0 { HalfIs(Xor(x / 2, y / 2), Xor(x, y)); }
  }

  /** Powers of two, from their sums of exponents. */
  lemma {:induction false} Pow2Law(j: nat, k: nat)
    ensures Pow2(0) == 1 && Pow2(1) == 2 && Pow2(j + k) == Pow2(j) * Pow2(k)
  {
    if j > 0 {
      Pow2Law(j - 1, k);
      DoubleProduct(Pow2(k), Pow2(j - 1));
    }
  }

  /** The powers of two are those numbers. */
  lemma {:induction false} Pow2Is(s: nat)
    ensures IsPow2(Pow2(s))
  {
    if s > 0 { Pow2Is(s - 1); }
  }
}
