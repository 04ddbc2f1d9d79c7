/** Round-half-to-even and absolute maxima over the reals. */
module Rounding {

  function Abs(x: real): real {
    if x < 0.0 then -x else x
  }

  function Max(x: real, y: real): real {
    if x < y then y else x
  }

  function Min(x: real, y: real): real {
    if x < y then x else y
  }

  function Clamp(n: int, lo: int, hi: int): int {
    if n < lo then lo else if n > hi then hi else n
  }

  /** `torch.round` and `np.round`: to the nearest integer, ties to even. */
  function Round(x: real): (n: int)
    ensures x - 0.5 <= n as real <= x + 0.5
  {
    var f := x.Floor;
    var d := x - f as real;
    if d < 0.5 then f else if d > 0.5 then f + 1 else if f % 2 == 0 then f else f + 1
  }

  lemma RoundInteger(n: int)
    ensures Round(n as real) == n
  {
    assert (n as real).Floor == n;
  }

  lemma RoundMonotone(x: real, y: real)
    requires x <= y
    ensures Round(x) <= Round(y)
  {
    assert x.Floor <= y.Floor;
  }

  lemma RoundOdd(x: real)
    ensures Round(-x) == -Round(x)
  {
    var f := x.Floor;
    if f as real == x {
      RoundInteger(f);
      RoundInteger(-f);
    } else {
      assert (-x).Floor == -f - 1;
    }
  }

  /** `t.abs().amax()`, 0 for no elements. */
  function AbsMax(s: seq<real>): (m: real)
    ensures m >= 0.0
  {
    if |s| == 0 then 0.0 else Max(Abs(s[0]), AbsMax(s[1..]))
  }

  lemma {:induction false} AbsMaxBounds(s: seq<real>, i: nat)
    requires i < |s|
    ensures Abs(s[i]) <= AbsMax(s)
  {
    if i > 0 { AbsMaxBounds(s[1..], i - 1); }
  }

  lemma {:induction false} AbsMaxAttained(s: seq<real>) returns (i: nat)
    requires |s| > 0
    ensures i < |s| && Abs(s[i]) == AbsMax(s)
  {
    if |s| == 1 || AbsMax(s[1..]) <= Abs(s[0]) {
      i := 0;
    } else {
      i := AbsMaxAttained(s[1..]);
      i := i + 1;
    }
  }

  lemma {:induction false} AbsMaxLeast(s: seq<real>, bound: real)
    requires bound >= 0.0 && forall i :: 0 <= i < |s| ==> Abs(s[i]) <= bound
    ensures AbsMax(s) <= bound
  {
    if |s| > 0 { AbsMaxLeast(s[1..], bound); }
  }
}
