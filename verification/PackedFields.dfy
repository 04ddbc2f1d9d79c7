/** Equal-width bit fields in one word, lowest field first: what the `|=` loops build and what the
    shift-and-mask decoders read. */
module PackedFields {
  import opened Bits

  predicate Fits(vs: seq<nat>, w: nat) {
    forall i :: 0 <= i < |vs| ==> vs[i] < Pow2(w)
  }

  /** The number whose base-2^w digits are vs. */
  function Pack(vs: seq<nat>, w: nat): nat {
    if |vs| == 0 then 0 else vs[0] + Shl(Pack(vs[1..], w), w)
  }

  /** Field t: `(x >> (t * w)) & (2^w - 1)`. */
  function Field(x: nat, t: nat, w: nat): nat {
    And(Shr(x, t * w), Pow2(w) - 1)
  }

  lemma {:induction false} ShlAdd(x: nat, y: nat, k: nat)
    ensures Shl(x + y, k) == Shl(x, k) + Shl(y, k)
  {
    if k > 0 { ShlAdd(x, y, k - 1); }
  }

  lemma {:induction false} ShlShl(x: nat, j: nat, k: nat)
    ensures Shl(Shl(x, j), k) == Shl(x, j + k)
  {
    if k > 0 { ShlShl(x, j, k - 1); }
  }

  lemma {:induction false} ShrShr(x: nat, j: nat, k: nat)
    ensures Shr(Shr(x, j), k) == Shr(x, j + k)
  {
    if j > 0 { ShrShr(x / 2, j - 1, k); }
  }

  lemma {:induction false} ShlZero(k: nat)
    ensures Shl(0, k) == 0
  {
    if k > 0 { ShlZero(k - 1); }
  }

  lemma {:induction false} PackBound(vs: seq<nat>, w: nat)
    requires Fits(vs, w)
    ensures Pack(vs, w) < Pow2(|vs| * w)
  {
    if |vs| > 0 {
      PackBound(vs[1..], w);
      assert |vs[1..]| * w + w == |vs| * w;
      ShlBound(Pack(vs[1..], w), |vs[1..]| * w, w);
    }
  }

  /** Or-ing a value in above the fields already present appends it. */
  lemma PackAppend(vs: seq<nat>, v: nat, w: nat)
    requires Fits(vs, w)
    ensures Or(Pack(vs, w), Shl(v, |vs| * w)) == Pack(vs + [v], w)
  {
    PackBound(vs, w);
    DisjointField(Pack(vs, w), v, |vs| * w);
    PackSnoc(vs, v, w);
  }

  lemma {:induction false} PackSnoc(vs: seq<nat>, v: nat, w: nat)
    ensures Pack(vs + [v], w) == Pack(vs, w) + Shl(v, |vs| * w)
  {
    if |vs| == 0 {
      ShlZero(w);
      assert vs + [v] == [v] && |vs| * w == 0;
      assert Pack([v], w) == v + Shl(Pack([v][1..], w), w);
    } else {
      var rest, below := vs[1..], (|vs| - 1) * w;
      PackSnoc(rest, v, w);
      assert (vs + [v])[1..] == rest + [v];
      ShlAdd(Pack(rest, w), Shl(v, below), w);
      ShlShl(v, below, w);
      WidthStep(|vs|, w, below);
    }
  }

  lemma WidthStep(n: nat, w: nat, below: nat)
    requires n > 0 && below == (n - 1) * w
    ensures below + w == n * w
  {}

  /** Shift-and-mask reads each field back; no field disturbs another. */
  lemma {:induction false} PackField(vs: seq<nat>, t: nat, w: nat)
    requires Fits(vs, w) && t < |vs|
    ensures Field(Pack(vs, w), t, w) == vs[t]
  {
    var rest := vs[1..];
    DisjointField(vs[0], Pack(rest, w), w);
    if t == 0 {
      FirstField(Pack(vs, w), w);
    } else {
      PackField(rest, t - 1, w);
      LaterField(Pack(vs, w), t, w, (t - 1) * w);
    }
  }

  lemma FirstField(x: nat, w: nat)
    ensures Field(x, 0, w) == Low(x, w)
  {
    assert 0 * w == 0;
    AndLowMask(x, w);
  }

  lemma LaterField(x: nat, t: nat, w: nat, below: nat)
    requires t > 0 && below == (t - 1) * w
    ensures Field(x, t, w) == Field(Shr(x, w), t - 1, w)
  {
    ShrShr(x, w, below);
    WidthStep(t, w, below);
  }

  /** The n fields of a word. */
  function Fields(x: nat, n: nat, w: nat): (vs: seq<nat>)
    ensures |vs| == n
  {
    seq(n, t requires 0 <= t < n => Field(x, t, w))
  }

  lemma FieldFits(x: nat, t: nat, w: nat)
    ensures Field(x, t, w) < Pow2(w)
  {
    AndLowMask(Shr(x, t * w), w);
    Recompose(Shr(x, t * w), w);
  }

  /** A word is the packing of its fields, so packing is a bijection. */
  lemma {:induction false} PackOfFields(x: nat, n: nat, w: nat)
    requires x < Pow2(n * w)
    ensures Pack(Fields(x, n, w), w) == x
    decreases n
  {
    var vs := Fields(x, n, w);
    if n == 0 {
      assert 0 * w == 0;
    } else {
      assert (n - 1) * w + w == n * w;
      ShrBound(x, (n - 1) * w, w);
      PackOfFields(Shr(x, w), n - 1, w);
      forall t | 0 <= t < n - 1 ensures vs[1..][t] == Field(Shr(x, w), t, w) {
        assert w + t * w == (t + 1) * w;
        ShrShr(x, w, t * w);
      }
      assert vs[1..] == Fields(Shr(x, w), n - 1, w);
      assert 0 * w == 0;
      AndLowMask(x, w);
      Recompose(x, w);
    }
  }

  lemma {:induction false} ShrBound(x: nat, j: nat, k: nat)
    requires x < Pow2(j + k)
    ensures Shr(x, k) < Pow2(j)
  {
    if k > 0 {
      assert Pow2(j + k) == 2 * Pow2(j + k - 1);
      ShrBound(x / 2, j, k - 1);
    }
  }

  /** A field in numbers: the quotient by the fields below it, modulo its size. */
  lemma FieldLaw(x: nat, t: nat, w: nat)
    ensures Field(x, t, w) == x / Pow2(t * w) % Pow2(w)
  {
    AndLowMask(Shr(x, t * w), w);
    ShrLaw(x, t * w);
    ShrLaw(Shr(x, t * w), w);
  }

  lemma FieldIs(x: nat, t: nat, w: nat, d: nat, m: nat)
    requires d > 0 && m > 0 && d == Pow2(t * w) && m == Pow2(w)
    ensures Field(x, t, w) == x / d % m
  {
    FieldLaw(x, t, w);
  }

  /** Element t of a list, or zero past its end. */
  function OrZero(vs: seq<nat>, t: nat): nat {
    if t < |vs| then vs[t] else 0
  }

  /** Up to four fields, written out. */
  lemma PackUpToFour(vs: seq<nat>, w: nat, m: nat)
    requires |vs| <= 4 && m == Pow2(w)
    ensures Pack(vs, w) == OrZero(vs, 0) + m * (OrZero(vs, 1) + m * (OrZero(vs, 2) + m * OrZero(vs, 3)))
  {
    PackStep(vs, w, m);
    PackStep(Tail(vs), w, m);
    PackStep(Tail(Tail(vs)), w, m);
    PackStep(Tail(Tail(Tail(vs))), w, m);
    TailAt(vs, 0);
    TailAt(vs, 1);
    TailAt(vs, 2);
    TailAt(Tail(vs), 0);
    TailAt(Tail(vs), 1);
    TailAt(Tail(Tail(vs)), 0);
    assert Tail(Tail(Tail(Tail(vs)))) == [] && Pack([], w) == 0;
  }

  function Tail(vs: seq<nat>): seq<nat> {
    if vs == [] then [] else vs[1..]
  }

  lemma PackStep(vs: seq<nat>, w: nat, m: nat)
    requires m == Pow2(w)
    ensures Pack(vs, w) == OrZero(vs, 0) + m * Pack(Tail(vs), w)
  {
    var p := Pack(Tail(vs), w);
    ShlLaw(p, w);
    TimesCommutes(p, m);
    if vs == [] { ShlZero(w); }
  }

  lemma TimesCommutes(p: nat, m: nat)
    ensures p * m == m * p
  {}

  lemma TailAt(vs: seq<nat>, t: nat)
    ensures OrZero(Tail(vs), t) == OrZero(vs, t + 1)
  {}
}
