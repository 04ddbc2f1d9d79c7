/** Per-group symmetric quantisation to 8, 4 or 2 bits, its byte packing, and what a second pass does. */
module Symmetric {
  import Reals
  import opened Rounding

  const FLOOR: real := 0.0000000001  // 1e-10

  /** Codes are clamped to [Low, High]; the scale is the absolute maximum over Divisor. */
  function Lowest(bits: nat): int {
    if bits == 8 then -127 else if bits == 4 then -7 else -2
  }

  function Highest(bits: nat): int {
    if bits == 8 then 127 else if bits == 4 then 7 else 1
  }

  function Divisor(bits: nat): int {
    if bits == 8 then 127 else if bits == 4 then 7 else 2
  }

  predicate Supported(bits: nat) {
    bits == 8 || bits == 4 || bits == 2
  }

  function Top(group: seq<real>): (a: real)
    ensures a > 0.0
  {
    Max(AbsMax(group), FLOOR)
  }

  function Scale(group: seq<real>, bits: nat): (s: real)
    ensures s > 0.0
  {
    if bits == 8 then Top(group) / 127.0 else if bits == 4 then Top(group) / 7.0 else Top(group) / 2.0
  }

  function Code(w: real, s: real, bits: nat): (q: int)
    requires s > 0.0
    ensures Lowest(bits) <= q <= Highest(bits)
  {
    Clamp(Round(w / s), Lowest(bits), Highest(bits))
  }

  function Codes(group: seq<real>, bits: nat): (q: seq<int>)
    ensures |q| == |group| && forall j :: 0 <= j < |q| ==> Lowest(bits) <= q[j] <= Highest(bits)
  {
    seq(|group|, j requires 0 <= j < |group| => Code(group[j], Scale(group, bits), bits))
  }

  /** The value of a code. */
  function Value(q: int, s: real): real {
    q as real * s
  }

  /** The largest reconstruction error: half a scale at 8 and 4 bits, one scale at 2 bits. */
  function MaxError(s: real, bits: nat): real {
    if bits == 2 then s else 0.5 * s
  }

  /** Codes times scale. */
  function Reconstruct(q: seq<int>, s: real): (w: seq<real>)
    ensures |w| == |q|
  {
    seq(|q|, j requires 0 <= j < |q| => Value(q[j], s))
  }

  lemma TopIs(group: seq<real>, bits: nat)
    ensures Value(Divisor(bits), Scale(group, bits)) == Top(group)
  {}

  lemma QuotientRange(w: real, top: real, s: real, d: real)
    requires -top <= w <= top && s > 0.0 && d * s == top
    ensures -d <= w / s <= d
    ensures w == top ==> w / s == d
    ensures w == -top ==> w / s == -d
  {
    assert (-d) * s == -top;
    Reals.AtMost(w, d, s);
    Reals.AtLeast(w, -d, s);
    if w == top { Reals.Exactly(w, d, s); }
    if w == -top { Reals.Exactly(w, -d, s); }
  }

  /** w / s lies within the divisor on both sides. */
  lemma RatioBound(w: real, top: real, s: real, d: int)
    requires Abs(w) <= top && s > 0.0 && Value(d, s) == top
    ensures -d as real <= w / s <= d as real && -d <= Round(w / s) <= d
    ensures w == top ==> Round(w / s) == d
    ensures w == -top ==> Round(w / s) == -d
  {
    QuotientRange(w, top, s, d as real);
    RoundMonotone(w / s, d as real);
    RoundMonotone(-d as real, w / s);
    RoundInteger(d);
    RoundInteger(-d);
  }

  /** What one element's code and its value satisfy. */
  lemma Element(w: real, top: real, s: real, bits: nat)
    requires Supported(bits) && Abs(w) <= top && s > 0.0 && Value(Divisor(bits), s) == top
    ensures Abs(w - Value(Code(w, s, bits), s)) <= MaxError(s, bits)
    ensures Abs(Value(Code(w, s, bits), s)) <= top
    ensures bits != 2 && Abs(w) == top ==> Abs(Value(Code(w, s, bits), s)) == top
  {
    var d, q := Divisor(bits), Code(w, s, bits);
    RatioBound(w, top, s, d);
    ErrorOf(w, s, q, if bits == 2 then 1.0 else 0.5, w / s);
    WithinTop(q, d, s, top);
  }

  lemma ErrorOf(w: real, s: real, q: int, slack: real, x: real)
    requires s > 0.0 && x == w / s && -slack <= x - q as real <= slack
    ensures -slack * s <= w - Value(q, s) <= slack * s
  {
    Reals.Undo(w, s);
    var d := x - q as real;
    assert d * s == x * s - q as real * s;
    Reals.Sandwich(-slack, d, slack, s, w - Value(q, s));
  }

  lemma WithinTop(q: int, d: int, s: real, top: real)
    requires s > 0.0 && -d <= q <= d && Value(d, s) == top
    ensures Abs(Value(q, s)) <= top
    ensures q == d || q == -d ==> Abs(Value(q, s)) == top
  {
    Reals.Sandwich(-d as real, q as real, d as real, s, Value(q, s));
    assert (-d as real) * s == -top;
    if q == -d { assert Value(q, s) == -top; }
  }

  lemma ElementOf(group: seq<real>, bits: nat, j: nat)
    requires Supported(bits) && j < |group|
    ensures Abs(group[j]) <= Top(group) && Value(Divisor(bits), Scale(group, bits)) == Top(group)
    ensures Reconstruct(Codes(group, bits), Scale(group, bits))[j]
         == Value(Code(group[j], Scale(group, bits), bits), Scale(group, bits))
  {
    AbsMaxBounds(group, j);
    TopIs(group, bits);
  }

  /** Every element is reconstructed within the largest error. */
  lemma ErrorBound(group: seq<real>, bits: nat, j: nat)
    requires Supported(bits) && j < |group|
    ensures Abs(group[j] - Reconstruct(Codes(group, bits), Scale(group, bits))[j]) <= MaxError(Scale(group, bits), bits)
  {
    ElementOf(group, bits, j);
    Element(group[j], Top(group), Scale(group, bits), bits);
  }

  /** Re-coding code times scale gives the code. */
  lemma Recode(q: int, s: real, bits: nat, r: real)
    requires s > 0.0 && Lowest(bits) <= q <= Highest(bits) && r == Value(q, s)
    ensures Code(r, s, bits) == q
  {
    Reals.Exactly(r, q as real, s);
    RoundInteger(q);
  }

  /** If the reconstruction has the scale of the original, a second pass repeats the codes. */
  lemma SameCodes(q: seq<int>, s: real, bits: nat, recon: seq<real>)
    requires s > 0.0 && recon == Reconstruct(q, s) && Scale(recon, bits) == s
    requires forall j :: 0 <= j < |q| ==> Lowest(bits) <= q[j] <= Highest(bits)
    ensures Codes(recon, bits) == q
  {
    forall j | 0 <= j < |q| ensures Codes(recon, bits)[j] == q[j] { Recode(q[j], s, bits, recon[j]); }
  }

  /** Two groups with the same bound, attained in both unless it is the floor, have the same top. */
  lemma SameTop(group: seq<real>, recon: seq<real>, at: nat)
    requires forall j :: 0 <= j < |recon| ==> Abs(recon[j]) <= Top(group)
    requires AbsMax(group) <= FLOOR || (at < |recon| && Abs(recon[at]) == Top(group))
    ensures Top(recon) == Top(group)
  {
    AbsMaxLeast(recon, Top(group));
    if AbsMax(group) > FLOOR { AbsMaxBounds(recon, at); }
  }

  /** At 8 and 4 bits quantisation is idempotent on every group, the floored ones included. */
  lemma Idempotent(group: seq<real>, bits: nat)
    requires bits == 8 || bits == 4
    ensures var recon := Reconstruct(Codes(group, bits), Scale(group, bits));
      Scale(recon, bits) == Scale(group, bits) && Codes(recon, bits) == Codes(group, bits)
  {
    var recon := Reconstruct(Codes(group, bits), Scale(group, bits));
    forall j | 0 <= j < |group|
      ensures Abs(recon[j]) <= Top(group) && (Abs(group[j]) == Top(group) ==> Abs(recon[j]) == Top(group))
    {
      ElementOf(group, bits, j);
      Element(group[j], Top(group), Scale(group, bits), bits);
    }
    var at := if |group| > 0 then TopPosition(group) else 0;
    SameTop(group, recon, at);
    SecondPass(group, recon, bits);
  }

  ghost function TopPosition(group: seq<real>): (at: nat)
    requires |group| > 0
    ensures at < |group| && (AbsMax(group) > FLOOR ==> Abs(group[at]) == Top(group))
  {
    Attained(group);
    var at: nat :| at < |group| && Abs(group[at]) == AbsMax(group);
    at
  }

  lemma Attained(group: seq<real>)
    requires |group| > 0
    ensures exists at: nat :: at < |group| && Abs(group[at]) == AbsMax(group)
  {
    var at := AbsMaxAttained(group);
  }

  /** A 2-bit element: coded -2 exactly at minus three quarters of the top or below, and then it alone
      reaches the top again. */
  lemma TwoBitElement(w: real, top: real, s: real)
    requires Abs(w) <= top && s > 0.0 && Value(2, s) == top
    ensures if w <= -0.75 * top then Abs(Value(Code(w, s, 2), s)) == top else Abs(Value(Code(w, s, 2), s)) <= s
  {
    TwoBitCode(w, top, s);
    var q := Code(w, s, 2);
    if q == -2 { WithinTop(q, 2, s, top); } else { WithinTop(q, 1, s, s); }
  }

  lemma TwoBitElementOf(group: seq<real>, recon: seq<real>, j: nat)
    requires recon == Reconstruct(Codes(group, 2), Scale(group, 2)) && j < |group|
    ensures Abs(recon[j]) <= Top(group)
    ensures if group[j] <= -0.75 * Top(group) then Abs(recon[j]) == Top(group) else Abs(recon[j]) <= Scale(group, 2)
  {
    ElementOf(group, 2, j);
    Element(group[j], Top(group), Scale(group, 2), 2);
    TwoBitElement(group[j], Top(group), Scale(group, 2));
  }

  lemma SameTopSameScale(group: seq<real>, recon: seq<real>, bits: nat)
    requires Top(group) == Top(recon)
    ensures Scale(group, bits) == Scale(recon, bits)
  {}

  /** At 2 bits a second pass repeats the first exactly when the group is at the floor or some element
      is at most minus three quarters of the maximum, the only ones coded -2. */
  lemma TwoBitIdempotentIff(group: seq<real>, recon: seq<real>)
    requires recon == Reconstruct(Codes(group, 2), Scale(group, 2))
    ensures (Scale(recon, 2) == Scale(group, 2) && Codes(recon, 2) == Codes(group, 2)) <==>
      AbsMax(group) <= FLOOR || exists j :: 0 <= j < |group| && group[j] <= -0.75 * Top(group)
  {
    if AbsMax(group) <= FLOOR {
      TwoBitSameTop(group, recon, 0);
      SecondPass(group, recon, 2);
    } else if at: nat :| at < |group| && group[at] <= -0.75 * Top(group) {
      TwoBitSameTop(group, recon, at);
      SecondPass(group, recon, 2);
    } else {
      forall j | 0 <= j < |group| ensures Abs(recon[j]) <= Scale(group, 2) { TwoBitElementOf(group, recon, j); }
      AbsMaxLeast(recon, Scale(group, 2));
      SmallerScale(group, recon);
    }
  }

  /** A second pass over a reconstruction with the same top repeats scale and codes. */
  lemma SecondPass(group: seq<real>, recon: seq<real>, bits: nat)
    requires recon == Reconstruct(Codes(group, bits), Scale(group, bits)) && Top(recon) == Top(group)
    ensures Scale(recon, bits) == Scale(group, bits) && Codes(recon, bits) == Codes(group, bits)
  {
    SameTopSameScale(group, recon, bits);
    SameCodes(Codes(group, bits), Scale(group, bits), bits, recon);
  }

  lemma TwoBitSameTop(group: seq<real>, recon: seq<real>, at: nat)
    requires recon == Reconstruct(Codes(group, 2), Scale(group, 2))
    requires AbsMax(group) <= FLOOR || (at < |group| && group[at] <= -0.75 * Top(group))
    ensures Top(recon) == Top(group)
  {
    TwoBitWithin(group, recon);
    if AbsMax(group) > FLOOR { TwoBitElementOf(group, recon, at); }
    SameTop(group, recon, at);
  }

  lemma TwoBitWithin(group: seq<real>, recon: seq<real>)
    requires recon == Reconstruct(Codes(group, 2), Scale(group, 2))
    ensures forall j :: 0 <= j < |group| ==> Abs(recon[j]) <= Top(group)
  {
    forall j | 0 <= j < |group| ensures Abs(recon[j]) <= Top(group) { TwoBitElementOf(group, recon, j); }
  }

  lemma SmallerScale(group: seq<real>, recon: seq<real>)
    requires AbsMax(group) > FLOOR && AbsMax(recon) <= Scale(group, 2)
    ensures Scale(recon, 2) < Scale(group, 2)
  {
    TopIs(group, 2);
    TopIs(recon, 2);
    assert Top(recon) < Top(group);
  }

  lemma TwoBitCode(w: real, top: real, s: real)
    requires s > 0.0 && 2.0 * s == top
    ensures Code(w, s, 2) == -2 <==> w <= -0.75 * top
  {
    Reals.AtMost(w, -1.5, s);
    RoundHalfDown(w / s);
  }

  /** -1.5 rounds to the even -2. */
  lemma RoundHalfDown(x: real)
    ensures Round(x) <= -2 <==> x <= -1.5
  {
    assert Round(-1.5) == -2;
    if x <= -1.5 { RoundMonotone(x, -1.5); }
  }

  /** A positive group of one element: its 2-bit reconstruction is half of it, and the next is a quarter. */
  lemma HalvesAlone(w: real)
    requires w > FLOOR
    ensures Scale([w], 2) == w / 2.0 && Codes([w], 2) == [1]
    ensures Reconstruct(Codes([w], 2), Scale([w], 2)) == [w / 2.0]
  {
    var s := w / 2.0;
    assert AbsMax([w]) == w by { assert [w][1..] == []; }
    Reals.Exactly(w, 2.0, s);
    RoundInteger(2);
    assert Code(w, s, 2) == 1;
    assert Value(1, s) == s;
  }

  /** Requantising the 2-bit reconstruction of the group [1.0] halves its scale. */
  lemma TwoBitChanges()
    ensures var once := Reconstruct(Codes([1.0], 2), Scale([1.0], 2));
      && Scale([1.0], 2) == 0.5 && once == [0.5]
      && Scale(once, 2) == 0.25 && Reconstruct(Codes(once, 2), Scale(once, 2)) == [0.25]
  {
    HalvesAlone(1.0);
    HalvesAlone(0.5);
  }
}
