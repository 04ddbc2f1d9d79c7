/** The compiler's architecture arguments for a list of targets. */
module ArchArgs {
  import Bits
  import opened ArchTokens
  import opened ArchList

  /** One `-gencode` pair: machine code for an SM, or PTX for it. */
  datatype Gencode = Sass(sm: string) | Ptx(sm: string)

  function Decimal(s: string): nat {
    if s == "" || !IsDigit(s[|s| - 1]) then 0
    else 10 * Decimal(s[..|s| - 1]) + (s[|s| - 1] as nat - '0' as nat)
  }

  /** `sm.parse::<u32>().unwrap_or(0)`. */
  function Key(sm: string): nat {
    var digits := if |sm| > 1 && sm[0] == '+' then sm[1..] else sm;
    if digits != "" && AllDigits(digits) && Decimal(digits) < Bits.WORD then Decimal(digits) else 0
  }

  function Keys(specs: seq<SmSpec>): seq<nat> {
    seq(|specs|, i requires 0 <= i < |specs| => Key(specs[i].sm))
  }

  /** The last of the greatest numbers. */
  predicate IsLastMax(keys: seq<nat>, k: nat) {
    && k < |keys| && (forall j :: 0 <= j < |keys| ==> keys[j] <= keys[k])
    && (forall j :: k < j < |keys| ==> keys[j] < keys[k])
  }

  predicate IsHighest(specs: seq<SmSpec>, k: nat) {
    IsLastMax(Keys(specs), k)
  }

  predicate Distinct(specs: seq<SmSpec>) {
    forall i, j :: 0 <= i < j < |specs| ==> specs[i].sm != specs[j].sm
  }

  /** How often PTX for an SM is emitted when target k is the highest. */
  function PtxCount(specs: seq<SmSpec>, k: nat, sm: string): nat
    requires k < |specs|
  {
    if SmSpec(sm, true) in specs || specs[k].sm == sm then 1 else 0
  }

  predicate Targets(specs: seq<SmSpec>, sm: string) {
    SmSpec(sm, true) in specs || SmSpec(sm, false) in specs
  }

  function ForTarget(spec: SmSpec): seq<Gencode> {
    if spec.ptx then [Sass(spec.sm), Ptx(spec.sm)] else [Sass(spec.sm)]
  }

  function Requested(specs: seq<SmSpec>): seq<Gencode> {
    if specs == [] then [] else Requested(specs[..|specs| - 1]) + ForTarget(specs[|specs| - 1])
  }

  lemma NotBefore(first: seq<SmSpec>, last: SmSpec)
    requires Distinct(first + [last])
    ensures !Targets(first, last.sm) && Distinct(first)
  {
    var specs := first + [last];
    assert forall i :: 0 <= i < |first| ==> specs[i] == first[i];
    assert forall i :: 0 <= i < |first| ==> specs[i].sm != specs[|first|].sm;
  }

  lemma {:induction false} RequestedCounts(specs: seq<SmSpec>, sm: string)
    requires Distinct(specs)
    ensures multiset(Requested(specs))[Sass(sm)] == if Targets(specs, sm) then 1 else 0
    ensures multiset(Requested(specs))[Ptx(sm)] == if SmSpec(sm, true) in specs then 1 else 0
  {
    if specs != [] {
      var first, last := specs[..|specs| - 1], specs[|specs| - 1];
      assert specs == first + [last];
      NotBefore(first, last);
      RequestedCounts(first, sm);
      TargetCounts(Requested(first), last, sm);
      assert SmSpec(sm, true) in specs <==> SmSpec(sm, true) in first || SmSpec(sm, true) == last;
      assert SmSpec(sm, false) in specs <==> SmSpec(sm, false) in first || SmSpec(sm, false) == last;
    }
  }

  lemma TargetCounts(before: seq<Gencode>, last: SmSpec, sm: string)
    ensures var all := multiset(before + ForTarget(last));
      && all[Sass(sm)] == multiset(before)[Sass(sm)] + (if last.sm == sm then 1 else 0)
      && all[Ptx(sm)] == multiset(before)[Ptx(sm)] + (if last == SmSpec(sm, true) then 1 else 0)
  {
    assert multiset(before + ForTarget(last)) == multiset(before) + multiset(ForTarget(last));
  }

  /** `max_by_key`: the later of two equal keys wins. */
  method MaxByKey(keys: seq<nat>) returns (k: nat)
    requires keys != []
    ensures IsLastMax(keys, k)
  {
    k := 0;
    for i := 1 to |keys|
      invariant k < i
      invariant forall j :: 0 <= j < i ==> keys[j] <= keys[k]
      invariant forall j :: k < j < i ==> keys[j] < keys[k]
    {
      if keys[k] <= keys[i] { k := i; }
    }
  }

  lemma LastMaxUnique(keys: seq<nat>, k: nat, m: nat)
    requires IsLastMax(keys, k) && IsLastMax(keys, m)
    ensures k == m
  {
    assert keys[k] <= keys[m] && keys[m] <= keys[k];
  }

  /** Machine code once for every target and nothing else; PTX once for each target that asked for it and
      for the highest, and for nothing else. */
  ghost predicate Covers(args: seq<Gencode>, specs: seq<SmSpec>, k: nat, sm: string)
    requires k < |specs|
  {
    && multiset(args)[Sass(sm)] == (if Targets(specs, sm) then 1 else 0)
    && multiset(args)[Ptx(sm)] == PtxCount(specs, k, sm)
  }

  method NvccArchArgs(specs: seq<SmSpec>) returns (args: seq<Gencode>)
    ensures specs == [] ==> args == []
    ensures forall k: nat :: IsHighest(specs, k) ==>
      args == Requested(specs) + if specs[k].ptx then [] else [Ptx(specs[k].sm)]
    ensures Distinct(specs) ==> forall k, sm :: IsHighest(specs, k) ==> Covers(args, specs, k, sm)
  {
    args := [];
    for i := 0 to |specs|
      invariant args == Requested(specs[..i])
    {
      var spec := specs[i];
      assert specs[..i + 1][..i] == specs[..i];
      args := args + [Sass(spec.sm)];
      if spec.ptx { args := args + [Ptx(spec.sm)]; }
      assert args == Requested(specs[..i]) + ForTarget(spec);
    }
    assert specs[..|specs|] == specs;
    if specs != [] {
      var max := MaxByKey(Keys(specs));
      if !specs[max].ptx { args := args + [Ptx(specs[max].sm)]; }
      forall k: nat | IsHighest(specs, k) ensures k == max { LastMaxUnique(Keys(specs), k, max); }
      assert args == Requested(specs) + if specs[max].ptx then [] else [Ptx(specs[max].sm)];
      if Distinct(specs) {
        forall k, sm | IsHighest(specs, k) ensures Covers(args, specs, k, sm) {
          RequestedCovers(args, specs, max, sm);
        }
      }
    }
  }

  lemma RequestedCovers(args: seq<Gencode>, specs: seq<SmSpec>, k: nat, sm: string)
    requires Distinct(specs) && k < |specs|
    requires args == Requested(specs) + if specs[k].ptx then [] else [Ptx(specs[k].sm)]
    ensures Covers(args, specs, k, sm)
  {
    RequestedCounts(specs, sm);
    if !specs[k].ptx { PlainOnce(specs, k); }
    assert specs[k].ptx ==> specs[k] == SmSpec(specs[k].sm, true) && args == Requested(specs);
  }

  lemma PlainOnce(specs: seq<SmSpec>, k: nat)
    requires Distinct(specs) && k < |specs| && !specs[k].ptx
    ensures SmSpec(specs[k].sm, true) !in specs
  {}

  /** A parsed list names no SM twice, so its arguments are covered by the method's contract. */
  lemma ListedDistinct(specs: seq<SmSpec>, tokens: set<string>)
    requires Lists(specs, tokens)
    ensures Distinct(specs)
  {
    forall i, j | 0 <= i < j < |specs| ensures specs[i].sm != specs[j].sm {
      assert Before(Sms(specs)[i], Sms(specs)[j]);
      BeforeTotal(specs[i].sm, specs[i].sm);
    }
  }
}
