/** The two-phase swap protocol: plan, copy, commit, out to the host and back. */
module BlockSwaps {
  import opened BlockLedger
  import opened BlockRuns

  /** The state after planning a move of `sources` from one location to the other and committing it,
      and the blocks they moved to. */
  function Moved(s: State, from: Location, to: Location, sources: seq<nat>): (r: (State, seq<nat>))
    requires Formed(s) && Managed(s, sources) && |sources| <= |s.Free(to)|
  {
    TakeShape(s, to, |sources|);
    (Release(Take(s, to, |sources|), from, sources), s.Free(to)[..|sources|])
  }

  /** A move changes no block's identity or location, and shifts as many blocks as it names. */
  lemma MovedShape(s: State, from: Location, to: Location, sources: seq<nat>)
    requires Formed(s) && Managed(s, sources) && |sources| <= |s.Free(to)| && from != to
    ensures var t := Moved(s, from, to, sources).0;
      && SameBlocks(s, t)
      && |t.Free(from)| == |s.Free(from)| + |sources|
      && |t.Free(to)| == |s.Free(to)| - |sources|
  {
    TakeShape(s, to, |sources|);
    ReleaseShape(Take(s, to, |sources|), from, sources);
  }

  lemma DistinctPrefix(ids: seq<nat>, n: nat)
    requires Distinct(ids) && n <= |ids|
    ensures Distinct(ids[..n]) && forall id :: id in ids[..n] ==> id in ids
  {}

  /** The destination blocks of a plan are unheld before it and held once after it. */
  lemma PlannedOnce(s: State, handles: multiset<nat>, to: Location, n: nat, id: nat)
    requires Consistent(s, handles) && n <= |s.Free(to)|
    ensures id in s.Free(to)[..n] ==>
      id !in handles && id in s.blocks && s.blocks[id].location == to && multiset(s.Free(to)[..n])[id] == 1
    ensures id !in s.Free(to)[..n] ==> multiset(s.Free(to)[..n])[id] == 0
  {
    assert ListExact(s, to);
    DistinctPrefix(s.Free(to), n);
    DistinctCount(s.Free(to)[..n], id);
  }

  /** One plan and one commit move a sole owner's blocks: the new handles are the destination blocks,
      the old blocks are queued at their own location, and nobody else's block changes. */
  lemma MoveKeeps(s: State, handles: multiset<nat>, from: Location, to: Location, sources: seq<nat>,
                  after: multiset<nat>)
    requires Consistent(s, handles) && Formed(s) && from != to && Managed(s, sources)
    requires SoleOwner(s, handles, from, sources) && |sources| <= |s.Free(to)|
    requires after == handles + multiset(s.Free(to)[..|sources|]) - multiset(sources)
    ensures var t := Moved(s, from, to, sources).0;
      && Consistent(t, after) && SameBlocks(s, t)
      && |t.Free(from)| == |s.Free(from)| + |sources|
      && |t.Free(to)| == |s.Free(to)| - |sources|
  {
    var n := |sources|;
    var planned := handles + multiset(s.Free(to)[..n]);
    var s1 := PlanKeepsOwner(s, handles, from, to, sources, planned);
    MovedShape(s, from, to, sources);
    ReleaseKeeps(s1, planned, from, sources);
    SameState(Release(s1, from, sources), Moved(s, from, to, sources).0, planned - multiset(sources), after);
  }

  /** Planning hands out fresh blocks, so the sources stay solely owned. */
  lemma PlanKeepsOwner(s: State, handles: multiset<nat>, from: Location, to: Location, sources: seq<nat>,
                       planned: multiset<nat>) returns (s1: State)
    requires Consistent(s, handles) && Formed(s) && from != to && Managed(s, sources)
    requires SoleOwner(s, handles, from, sources) && |sources| <= |s.Free(to)|
    requires planned == handles + multiset(s.Free(to)[..|sources|])
    ensures s1 == Take(s, to, |sources|) && Consistent(s1, planned) && SoleOwner(s1, planned, from, sources)
    ensures Managed(s1, sources) && SameBlocks(s, s1)
    ensures s1.Free(from) == s.Free(from) && s1.Free(to) == s.Free(to)[|sources|..]
  {
    s1 := TakeKeeps(s, handles, to, |sources|, planned);
    TakeShape(s, to, |sources|);
    forall id | id in sources ensures planned[id] == 1 { PlannedOnce(s, handles, to, |sources|, id); }
  }

  /** After the move its owner is the sole owner of the destination blocks. */
  lemma MovedOwner(s: State, handles: multiset<nat>, from: Location, to: Location, sources: seq<nat>,
                   after: multiset<nat>)
    requires Consistent(s, handles) && Formed(s) && from != to && Managed(s, sources)
    requires SoleOwner(s, handles, from, sources) && |sources| <= |s.Free(to)|
    requires after == handles + multiset(s.Free(to)[..|sources|]) - multiset(sources)
    ensures var (t, targets) := Moved(s, from, to, sources);
      SoleOwner(t, after, to, targets) && Managed(t, targets) && |targets| == |sources|
  {
    var n := |sources|;
    var targets := s.Free(to)[..n];
    MovedShape(s, from, to, sources);
    assert ListExact(s, to);
    DistinctPrefix(s.Free(to), n);
    forall id | id in targets ensures id in s.blocks && s.blocks[id].location == to && after[id] == 1 {
      TargetOwned(s, handles, from, to, sources, after, id);
    }
  }

  lemma TargetOwned(s: State, handles: multiset<nat>, from: Location, to: Location, sources: seq<nat>,
                    after: multiset<nat>, id: nat)
    requires Consistent(s, handles) && from != to && SoleOwner(s, handles, from, sources)
    requires |sources| <= |s.Free(to)| && id in s.Free(to)[..|sources|]
    requires after == handles + multiset(s.Free(to)[..|sources|]) - multiset(sources)
    ensures id in s.blocks && s.blocks[id].location == to && after[id] == 1
  {
    PlannedOnce(s, handles, to, |sources|, id);
    DistinctCount(sources, id);
  }

  /** Out to the host and back: the allocator stays consistent at every stage, the way back cannot
      fail, both free counts are restored, and no other request's handle is lost. */
  lemma SwapOutAndIn(s: State, handles: multiset<nat>, sources: seq<nat>)
    requires Consistent(s, handles) && Formed(s) && Managed(s, sources)
    requires SoleOwner(s, handles, Gpu, sources) && |sources| <= |s.freeCpu|
    ensures var (out, host) := Moved(s, Gpu, Cpu, sources);
      && Formed(out) && Managed(out, host) && |host| <= |out.freeGpu|
      && var (back, gpu) := Moved(out, Cpu, Gpu, host);
        && |back.freeGpu| == |s.freeGpu| && |back.freeCpu| == |s.freeCpu|
        && |gpu| == |sources|
        && Consistent(back, handles - multiset(sources) + multiset(gpu))
        && forall id :: id in handles && id !in sources ==>
          id in back.blocks && id !in gpu && back.blocks[id].refCount == s.blocks[id].refCount > 0
  {
    var during := handles + multiset(s.freeCpu[..|sources|]) - multiset(sources);
    var out, host := SwapOut(s, handles, sources, during);
    var (back, gpu) := Moved(out, Cpu, Gpu, host);
    var after := during + multiset(gpu) - multiset(host);
    MoveKeeps(out, during, Cpu, Gpu, host, after);
    SameHandles(s, handles, sources, gpu);
    forall id | id in handles && id !in sources
      ensures id in back.blocks && id !in gpu && back.blocks[id].refCount == s.blocks[id].refCount > 0
    {
      OtherKept(s, handles, sources, out, during, |host|, back, after, id);
    }
  }

  lemma SwapOut(s: State, handles: multiset<nat>, sources: seq<nat>, during: multiset<nat>)
    returns (out: State, host: seq<nat>)
    requires Consistent(s, handles) && Formed(s) && Managed(s, sources)
    requires SoleOwner(s, handles, Gpu, sources) && |sources| <= |s.freeCpu|
    requires during == handles + multiset(s.freeCpu[..|sources|]) - multiset(sources)
    ensures (out, host) == Moved(s, Gpu, Cpu, sources) && host == s.freeCpu[..|sources|]
    ensures Consistent(out, during) && Formed(out) && Managed(out, host) && SoleOwner(out, during, Cpu, host)
    ensures |out.freeGpu| == |s.freeGpu| + |sources| && |out.freeCpu| == |s.freeCpu| - |sources|
  {
    MoveKeeps(s, handles, Gpu, Cpu, sources, during);
    MovedOwner(s, handles, Gpu, Cpu, sources, during);
    out, host := Moved(s, Gpu, Cpu, sources).0, Moved(s, Gpu, Cpu, sources).1;
    ConsistentFormed(out, during);
  }

  /** The host blocks come and go: what remains is the old handles with the moved blocks replaced. */
  lemma SameHandles(s: State, handles: multiset<nat>, sources: seq<nat>, gpu: seq<nat>)
    requires Consistent(s, handles) && Formed(s) && Managed(s, sources)
    requires SoleOwner(s, handles, Gpu, sources) && |sources| <= |s.freeCpu|
    ensures var host := multiset(s.freeCpu[..|sources|]);
      handles + host - multiset(sources) + multiset(gpu) - host == handles - multiset(sources) + multiset(gpu)
  {
    var host := multiset(s.freeCpu[..|sources|]);
    forall id ensures (handles + host - multiset(sources) + multiset(gpu) - host)[id]
      == (handles - multiset(sources) + multiset(gpu))[id]
    {
      RoundTripCount(s, handles, sources, id);
    }
  }

  lemma OtherKept(s: State, handles: multiset<nat>, sources: seq<nat>, out: State, during: multiset<nat>, n: nat,
                  back: State, after: multiset<nat>, id: nat)
    requires Consistent(s, handles) && Formed(s) && Managed(s, sources)
    requires SoleOwner(s, handles, Gpu, sources) && n == |sources| <= |s.freeCpu|
    requires during == handles + multiset(s.freeCpu[..n]) - multiset(sources)
    requires Consistent(out, during) && n <= |out.freeGpu| && Consistent(back, after)
    requires after == during + multiset(out.freeGpu[..n]) - multiset(s.freeCpu[..n])
    requires id in handles && id !in sources
    ensures id in back.blocks && id in s.blocks && id !in out.freeGpu[..n]
    ensures back.blocks[id].refCount == s.blocks[id].refCount > 0
  {
    RoundTripCount(s, handles, sources, id);
    PlannedOnce(out, during, Gpu, n, id);
    assert after[id] == handles[id];
  }

  /** The host blocks and the moved blocks never coincide with what is subtracted for them. */
  lemma RoundTripCount(s: State, handles: multiset<nat>, sources: seq<nat>, id: nat)
    requires Consistent(s, handles) && Formed(s) && Managed(s, sources)
    requires SoleOwner(s, handles, Gpu, sources) && |sources| <= |s.freeCpu|
    ensures var host := multiset(s.freeCpu[..|sources|]);
      && host[id] <= 1 && multiset(sources)[id] <= handles[id]
      && (host[id] == 1 ==> handles[id] == 0 && id !in sources)
      && (id !in sources ==> multiset(sources)[id] == 0)
  {
    PlannedOnce(s, handles, Cpu, |sources|, id);
    DistinctCount(sources, id);
  }

  /** Committing one plan twice breaks the allocator. */
  lemma SecondCommitBreaks(s: State, handles: multiset<nat>, from: Location, sources: seq<nat>, after: multiset<nat>)
    requires Consistent(s, handles) && Managed(s, sources) && SoleOwner(s, handles, from, sources) && |sources| > 0
    requires after == handles - multiset(sources)
    ensures var t := Release(s, from, sources);
      Managed(t, sources) && !Consistent(Release(t, from, sources), after - multiset(sources))
  {
    var t := Release(s, from, sources);
    ReleaseShape(s, from, sources);
    ReleaseKeeps(s, handles, from, sources);
    DistinctCount(sources, sources[0]);
    assert sources[0] in sources && after[sources[0]] == 0;
    if Consistent(Release(t, from, sources), after - multiset(sources)) {
      ReleaseNeeds(t, after, from, sources);
    }
  }

  // ----- other calls between a plan and its commit -----

  /** The call names none of these blocks: it neither pins, frees nor commits them. */
  predicate Spares(op: Op, ids: seq<nat>) {
    forall i :: 0 <= i < |op.Named()| ==> op.Named()[i] !in ids
  }

  /** The blocks a call hands out are unheld before it. */
  lemma PoppedUnheld(s: State, handles: multiset<nat>, op: Op, loc: Location, id: nat)
    requires Consistent(s, handles) && id in handles
    ensures multiset(Popped(s, op, loc))[id] == 0
  {
    var free, out := s.Free(loc), Popped(s, op, loc);
    assert ListExact(s, loc) && id !in free;
    forall i | 0 <= i < |out| ensures out[i] != id { assert out[i] == free[i] && free[i] in free; }
  }

  /** A legal call that spares a held block leaves its handles alone. */
  lemma SparedHandles(s: State, handles: multiset<nat>, op: Op, id: nat)
    requires Consistent(s, handles) && id in handles && id !in op.Named()
    ensures Handles(s, handles, op)[id] == handles[id]
  {
    match op
    case Allocate(loc, _) => PoppedUnheld(s, handles, op, loc, id);
    case Plan(loc, _) => PoppedUnheld(s, handles, op, loc, id);
    case Pin(ids) => assert id !in multiset(ids);
    case Free(ids) => assert id !in multiset(ids);
    case Commit(_, sources) => assert id !in multiset(sources);
  }

  lemma SparedOwner(s: State, handles: multiset<nat>, op: Op, loc: Location, ids: seq<nat>)
    requires Consistent(s, handles) && Formed(s) && Managed(s, op.Named()) && SoleOwner(s, handles, loc, ids)
    requires Spares(op, ids)
    ensures SoleOwner(Step(s, op), Handles(s, handles, op), loc, ids)
  {
    StepFormed(s, op);
    forall id | id in ids ensures Handles(s, handles, op)[id] == 1 { SparedHandles(s, handles, op, id); }
  }

  /** Whatever legal calls run between a plan and its commit, sole ownership survives as long as they
      spare the blocks, so the commit stays legal. */
  lemma {:induction false} RunSparesOwner(s: State, handles: multiset<nat>, ops: seq<Op>, loc: Location, ids: seq<nat>)
    requires Consistent(s, handles) && Formed(s) && AllNamed(s, ops) && RunLegal(s, handles, ops)
    requires SoleOwner(s, handles, loc, ids) && Managed(s, ids)
    requires forall k :: 0 <= k < |ops| ==> Spares(ops[k], ids)
    ensures SoleOwner(Run(s, ops), RunHandles(s, handles, ops), loc, ids)
    ensures Managed(Run(s, ops), ids) && Legal(Run(s, ops), RunHandles(s, handles, ops), Commit(loc, ids))
    decreases |ops|
  {
    if |ops| > 0 {
      NextNamed(s, ops);
      StepKeepsIff(s, handles, ops[0]);
      StepFormed(s, ops[0]);
      SparedOwner(s, handles, ops[0], loc, ids);
      RunSparesOwner(Step(s, ops[0]), Handles(s, handles, ops[0]), ops[1..], loc, ids);
    }
  }

  /** A plan, any such run, and the commit: the allocator is consistent after the commit. */
  lemma PlanRunCommit(s: State, handles: multiset<nat>, from: Location, to: Location, sources: seq<nat>, ops: seq<Op>)
    returns (t: State, held: multiset<nat>)
    requires Consistent(s, handles) && Formed(s) && Managed(s, sources) && SoleOwner(s, handles, from, sources)
    requires AllNamed(s, [Plan(to, sources)] + ops) && RunLegal(s, handles, [Plan(to, sources)] + ops)
    requires forall k :: 0 <= k < |ops| ==> Spares(ops[k], sources)
    ensures t == Run(s, [Plan(to, sources)] + ops) && held == RunHandles(s, handles, [Plan(to, sources)] + ops)
    ensures Formed(t) && Managed(t, sources) && Consistent(t, held)
    ensures Consistent(Release(t, from, sources), held - multiset(sources))
  {
    var all := [Plan(to, sources)] + ops;
    forall k | 0 <= k < |all| ensures Spares(all[k], sources) {
      if k > 0 { assert all[k] == ops[k - 1]; }
    }
    t, held := Run(s, all), RunHandles(s, handles, all);
    RunKeepsIff(s, handles, all);
    RunConsistentAtEnd(s, handles, all);
    ConsistentFormed(t, held);
    RunSparesOwner(s, handles, all, from, sources);
    ReleaseKeeps(t, held, from, sources);
  }
}
