/** The paged-KV block manager as a mutable object. */
module BlockManagement {
  import Bits
  import opened Wrappers
  import opened BlockLedger
  import opened BlockRuns

  datatype AllocationError =
    | InsufficientGpuBlocks(requested: nat, available: nat)
    | InsufficientCpuBlocks(requested: nat, available: nat)

  datatype SwapPlan = SwapPlan(gpuToCpu: seq<(nat, nat)>, cpuToGpu: seq<(nat, nat)>)

  function Sources(pairs: seq<(nat, nat)>): (ids: seq<nat>)
    ensures |ids| == |pairs|
  {
    seq(|pairs|, i requires 0 <= i < |pairs| => pairs[i].0)
  }

  function Zip(a: seq<nat>, b: seq<nat>): (pairs: seq<(nat, nat)>)
    requires |a| == |b|
    ensures |pairs| == |a| && forall i :: 0 <= i < |a| ==> pairs[i].0 == a[i] && pairs[i].1 == b[i]
  {
    seq(|a|, i requires 0 <= i < |a| => (a[i], b[i]))
  }

  function Range(from: nat, n: nat): seq<nat> {
    seq(n, i requires 0 <= i < n => from + i)
  }

  /** The state of a new manager: GPU blocks numbered first, then CPU blocks, all free in order. */
  function Fresh(gpu: nat, cpu: nat): State {
    State(Table(Range(0, gpu + cpu), gpu), Range(0, gpu), Range(gpu, cpu))
  }

  function Table(ids: seq<nat>, gpu: nat): map<nat, Block> {
    map id | id in ids :: Block(id, if id < gpu then Gpu else Cpu, 0)
  }

  lemma FreshConsistent(gpu: nat, cpu: nat)
    ensures Consistent(Fresh(gpu, cpu), multiset{})
    ensures Formed(Fresh(gpu, cpu))
  {
    var s := Fresh(gpu, cpu);
    var all := Range(0, gpu + cpu);
    forall id ensures id in all <==> 0 <= id < gpu + cpu {
      if 0 <= id < gpu + cpu { assert all[id] == id; }
    }
    forall id ensures id in Range(0, gpu) <==> 0 <= id < gpu {
      if 0 <= id < gpu { assert Range(0, gpu)[id] == id; }
    }
    forall id ensures id in Range(gpu, cpu) <==> gpu <= id < gpu + cpu {
      if gpu <= id < gpu + cpu { assert Range(gpu, cpu)[id - gpu] == id; }
    }
    assert ListExact(s, Gpu) && ListExact(s, Cpu);
    ConsistentFormed(s, multiset{});
  }

  lemma FreshFirst(gpu: nat, cpu: nat)
    requires gpu > 0
    ensures var s := Fresh(gpu, cpu);
      Formed(s) && Consistent(s, multiset{}) && |s.freeGpu| > 0 && s.freeGpu[0] == 0 && Managed(s, [0])
  {
    FreshConsistent(gpu, cpu);
    assert Fresh(gpu, cpu).freeGpu[0] == 0;
  }

  /** On a new manager, freeing or pinning its first block is already inconsistent. */
  lemma FreshBreaks(s: State, gpu: nat, cpu: nat)
    requires gpu > 0 && s == Fresh(gpu, cpu)
    ensures Consistent(s, multiset{}) && Formed(s) && Managed(s, [0])
    ensures !Consistent(Step(s, Op.Free([0])), Handles(s, multiset{}, Op.Free([0])))
    ensures !Consistent(Step(s, Op.Pin([0])), Handles(s, multiset{}, Op.Pin([0])))
  {
    FreshFirst(gpu, cpu);
    StepKeepsIff(s, multiset{}, Op.Free([0]));
    StepKeepsIff(s, multiset{}, Op.Pin([0]));
    assert !Legal(s, multiset{}, Op.Free([0]));
    assert !Legal(s, multiset{}, Op.Pin([0]));
  }

  lemma FreshNextGpu(gpu: nat)
    ensures Fresh(gpu + 1, 0)
      == State(Fresh(gpu, 0).blocks[gpu := Block(gpu, Gpu, 0)], Fresh(gpu, 0).freeGpu + [gpu], [])
  {
    assert Range(0, gpu + 1) == Range(0, gpu) + [gpu];
    assert Fresh(gpu + 1, 0).blocks == Fresh(gpu, 0).blocks[gpu := Block(gpu, Gpu, 0)];
  }

  lemma FreshNextCpu(gpu: nat, cpu: nat)
    ensures Fresh(gpu, cpu + 1) == State(
      Fresh(gpu, cpu).blocks[gpu + cpu := Block(gpu + cpu, Cpu, 0)], Fresh(gpu, cpu).freeGpu,
      Fresh(gpu, cpu).freeCpu + [gpu + cpu])
  {
    assert Range(0, gpu + cpu + 1) == Range(0, gpu + cpu) + [gpu + cpu];
    assert Range(gpu, cpu + 1) == Range(gpu, cpu) + [gpu + cpu];
    assert Fresh(gpu, cpu + 1).blocks == Fresh(gpu, cpu).blocks[gpu + cpu := Block(gpu + cpu, Cpu, 0)];
  }

  /** Taking the front of a queue moves it across the boundary. */
  lemma FirstMoves(taken: seq<nat>, free: seq<nat>)
    requires |free| > 0
    ensures (taken + [free[0]]) + free[1..] == taken + free
  {
    assert free == [free[0]] + free[1..];
  }

  /** The blocks a plan hands out are distinct, at its destination, and have one reference each. */
  lemma PlannedBlocks(s: State, handles: multiset<nat>, loc: Location, n: nat, t: State)
    requires Consistent(s, handles) && Formed(s) && n <= |s.Free(loc)| && t == TryTake(s, loc, n)
    ensures forall j :: 0 <= j < n ==> OnceAt(t, s.Free(loc)[j], loc)
    ensures forall i, j :: 0 <= i < j < n ==> s.Free(loc)[i] != s.Free(loc)[j]
  {
    assert ListExact(s, loc);
    TakeShape(s, loc, n);
    forall j | 0 <= j < n ensures OnceAt(t, s.Free(loc)[j], loc) {
      assert s.Free(loc)[j] in s.Free(loc) && s.Free(loc)[..n][j] in s.Free(loc)[..n];
      TakeRefs(s, loc, n, s.Free(loc)[j]);
    }
  }

  predicate OnceAt(s: State, id: nat, loc: Location) {
    id in s.blocks && s.blocks[id].location == loc && s.blocks[id].refCount == 1
  }

  class BlockManager {
    var blocks: map<nat, Block>
    var freeGpu: seq<nat>
    var freeCpu: seq<nat>
    const blockSize: nat
    var nextId: nat

    /** The handles clients hold, with multiplicity. */
    ghost var handles: multiset<nat>

    function View(): State
      reads this
    {
      State(blocks, freeGpu, freeCpu)
    }

    /** Every queued block is a managed one. */
    ghost predicate Valid()
      reads this
    {
      Formed(View())
    }

    /** What one call does: the step of the ledger, the handles that go with it, and consistency kept
        exactly when the call was legal. */
    twostate predicate Did(op: Op)
      requires old(Valid()) && Managed(old(View()), op.Named())
      reads this
    {
      && Valid()
      && View() == Step(old(View()), op)
      && handles == Handles(old(View()), old(handles), op)
      && nextId == old(nextId)
      && (Consistent(old(View()), old(handles)) ==>
        (Consistent(View(), handles) <==> Legal(old(View()), old(handles), op)))
    }

    constructor (numGpuBlocks: nat, numCpuBlocks: nat, blockSize: nat)
      requires blockSize > 0 && numGpuBlocks + numCpuBlocks < Bits.WORD
      ensures View() == Fresh(numGpuBlocks, numCpuBlocks)
      ensures Valid() && handles == multiset{} && Consistent(View(), handles)
      ensures this.blockSize == blockSize && nextId == numGpuBlocks + numCpuBlocks
    {
      this.blockSize := blockSize;
      blocks, freeGpu, freeCpu, nextId, handles := map[], [], [], 0, multiset{};
      new;
      for i := 0 to numGpuBlocks
        invariant nextId == i && View() == Fresh(i, 0) && handles == multiset{}
      {
        FreshNextGpu(i);
        blocks := blocks[nextId := Block(nextId, Gpu, 0)];
        freeGpu := freeGpu + [nextId];
        nextId := nextId + 1;
      }
      for i := 0 to numCpuBlocks
        invariant nextId == numGpuBlocks + i && View() == Fresh(numGpuBlocks, i) && handles == multiset{}
      {
        FreshNextCpu(numGpuBlocks, i);
        blocks := blocks[nextId := Block(nextId, Cpu, 0)];
        freeCpu := freeCpu + [nextId];
        nextId := nextId + 1;
      }
      FreshConsistent(numGpuBlocks, numCpuBlocks);
    }

    /** Record the handles of a finished call. */
    ghost method Settle(s: State, before: multiset<nat>, op: Op)
      requires Formed(s) && Managed(s, op.Named()) && View() == Step(s, op)
      modifies this`handles
      ensures Valid() && handles == Handles(s, before, op)
      ensures Consistent(s, before) ==> (Consistent(View(), handles) <==> Legal(s, before, op))
    {
      StepFormed(s, op);
      handles := Handles(s, before, op);
      if Consistent(s, before) { StepKeepsIff(s, before, op); }
    }

    method PopFirstGpu() returns (id: nat)
      requires |freeGpu| > 0 && freeGpu[0] in blocks
      modifies this`blocks, this`freeGpu
      ensures id == old(freeGpu)[0]
      ensures View() == SetRef(old(View()), id, 1).WithFree(Gpu, old(freeGpu)[1..])
    {
      id := freeGpu[0];
      freeGpu := freeGpu[1..];
      blocks := blocks[id := blocks[id].(refCount := 1)];
    }

    /** The loop of a covered allocation: pop the front, reference it once. */
    method PopGpu(n: nat) returns (taken: seq<nat>)
      requires Valid() && n <= |freeGpu|
      modifies this`blocks, this`freeGpu
      ensures View() == Take(old(View()), Gpu, n)
      ensures taken == old(freeGpu)[..n]
    {
      ghost var s, t := View(), View();
      taken := [];
      for i := 0 to n
        invariant t == View() && |taken| == i && Managed(t, t.freeGpu)
        invariant taken + t.freeGpu == s.freeGpu
        invariant Take(t, Gpu, n - i) == Take(s, Gpu, n)
      {
        TakeUnfold(t, Gpu, n - i);
        FirstMoves(taken, t.freeGpu);
        var id := PopFirstGpu();
        t := View();
        taken := taken + [id];
      }
      assert taken == (taken + t.freeGpu)[..n];
    }

    method AllocateGpu(n: nat) returns (r: Result<seq<nat>, AllocationError>)
      requires Valid()
      modifies this
      ensures Did(Allocate(Gpu, n))
      ensures r == if n <= |old(freeGpu)| then Ok(old(freeGpu)[..n]) else Err(InsufficientGpuBlocks(n, |old(freeGpu)|))
    {
      ghost var s := View();
      if |freeGpu| < n {
        r := Err(InsufficientGpuBlocks(n, |freeGpu|));
      } else {
        var taken := PopGpu(n);
        r := Ok(taken);
      }
      Settle(s, handles, Allocate(Gpu, n));
    }

    method PopFirstCpu() returns (id: nat)
      requires |freeCpu| > 0 && freeCpu[0] in blocks
      modifies this`blocks, this`freeCpu
      ensures id == old(freeCpu)[0]
      ensures View() == SetRef(old(View()), id, 1).WithFree(Cpu, old(freeCpu)[1..])
    {
      id := freeCpu[0];
      freeCpu := freeCpu[1..];
      blocks := blocks[id := blocks[id].(refCount := 1)];
    }

    /** The loop of a covered allocation: pop the front, reference it once. */
    method PopCpu(n: nat) returns (taken: seq<nat>)
      requires Valid() && n <= |freeCpu|
      modifies this`blocks, this`freeCpu
      ensures View() == Take(old(View()), Cpu, n)
      ensures taken == old(freeCpu)[..n]
    {
      ghost var s, t := View(), View();
      taken := [];
      for i := 0 to n
        invariant t == View() && |taken| == i && Managed(t, t.freeCpu)
        invariant taken + t.freeCpu == s.freeCpu
        invariant Take(t, Cpu, n - i) == Take(s, Cpu, n)
      {
        TakeUnfold(t, Cpu, n - i);
        FirstMoves(taken, t.freeCpu);
        var id := PopFirstCpu();
        t := View();
        taken := taken + [id];
      }
      assert taken == (taken + t.freeCpu)[..n];
    }

    method AllocateCpu(n: nat) returns (r: Result<seq<nat>, AllocationError>)
      requires Valid()
      modifies this
      ensures Did(Allocate(Cpu, n))
      ensures r == if n <= |old(freeCpu)| then Ok(old(freeCpu)[..n]) else Err(InsufficientCpuBlocks(n, |old(freeCpu)|))
    {
      ghost var s := View();
      if |freeCpu| < n {
        r := Err(InsufficientCpuBlocks(n, |freeCpu|));
      } else {
        var taken := PopCpu(n);
        r := Ok(taken);
      }
      Settle(s, handles, Allocate(Cpu, n));
    }

    method Free(ids: seq<nat>)
      requires Valid() && Managed(View(), ids)
      modifies this
      ensures Did(Op.Free(ids))
    {
      ghost var s := View();
      for i := 0 to |ids|
        invariant Managed(View(), ids[i..]) && nextId == old(nextId) && handles == old(handles)
        invariant FreeAll(View(), ids[i..]) == FreeAll(s, ids)
      {
        var id := ids[i];
        ghost var before := View();
        assert ids[i..][0] == id && ids[i..][1..] == ids[i + 1..];
        if blocks[id].refCount > 0 {
          blocks := blocks[id := blocks[id].(refCount := blocks[id].refCount - 1)];
        }
        if blocks[id].refCount == 0 {
          match blocks[id].location
          case Gpu => freeGpu := freeGpu + [id];
          case Cpu => freeCpu := freeCpu + [id];
        }
        assert View() == FreeOne(before, id);
      }
      Settle(s, handles, Op.Free(ids));
    }

    /** Reference counts are 32-bit; one more reference than fits panics in checked builds. */
    method Pin(ids: seq<nat>)
      requires Valid() && Managed(View(), ids)
      requires forall id :: id in ids ==> blocks[id].refCount + multiset(ids)[id] < Bits.WORD
      modifies this
      ensures Did(Op.Pin(ids))
    {
      ghost var s := View();
      for i := 0 to |ids|
        invariant Managed(View(), ids[i..]) && nextId == old(nextId) && handles == old(handles)
        invariant PinAll(View(), ids[i..]) == PinAll(s, ids)
      {
        var id := ids[i];
        assert ids[i..][0] == id && ids[i..][1..] == ids[i + 1..];
        blocks := blocks[id := blocks[id].(refCount := blocks[id].refCount + 1)];
      }
      Settle(s, handles, Op.Pin(ids));
    }

    method PlanSwapOut(gpuBlocks: seq<nat>) returns (r: Result<SwapPlan, AllocationError>)
      requires Valid()
      modifies this
      ensures Did(Plan(Cpu, gpuBlocks))
      ensures if |gpuBlocks| <= |old(freeCpu)|
        then r.Ok? && |r.value.gpuToCpu| == |gpuBlocks| && r.value.cpuToGpu == []
        else r == Err(InsufficientCpuBlocks(|gpuBlocks|, |old(freeCpu)|))
      ensures r.Ok? ==> forall j :: 0 <= j < |gpuBlocks| ==>
        r.value.gpuToCpu[j].0 == gpuBlocks[j] && r.value.gpuToCpu[j].1 == old(freeCpu)[j]
    {
      var targets := AllocateCpu(|gpuBlocks|);
      match targets
      case Ok(ids) => r := Ok(SwapPlan(Zip(gpuBlocks, ids), []));
      case Err(e) => r := Err(e);
    }

    method CommitSwapOut(plan: SwapPlan)
      requires Valid() && Managed(View(), Sources(plan.gpuToCpu))
      modifies this
      ensures Did(Commit(Gpu, Sources(plan.gpuToCpu)))
    {
      ghost var s, ids := View(), Sources(plan.gpuToCpu);
      for i := 0 to |plan.gpuToCpu|
        invariant Managed(View(), ids[i..]) && nextId == old(nextId) && handles == old(handles)
        invariant Release(View(), Gpu, ids[i..]) == Release(s, Gpu, ids)
      {
        ReleaseUnfold(View(), Gpu, ids[i..]);
        assert ids[i..][1..] == ids[i + 1..];
        var gpuId := plan.gpuToCpu[i].0;
        assert ids[i..][0] == gpuId;
        blocks := blocks[gpuId := blocks[gpuId].(refCount := 0)];
        freeGpu := freeGpu + [gpuId];
      }
      Settle(s, handles, Commit(Gpu, ids));
    }

    method PlanSwapIn(cpuBlocks: seq<nat>) returns (r: Result<SwapPlan, AllocationError>)
      requires Valid()
      modifies this
      ensures Did(Plan(Gpu, cpuBlocks))
      ensures if |cpuBlocks| <= |old(freeGpu)|
        then r.Ok? && |r.value.cpuToGpu| == |cpuBlocks| && r.value.gpuToCpu == []
        else r == Err(InsufficientGpuBlocks(|cpuBlocks|, |old(freeGpu)|))
      ensures r.Ok? ==> forall j :: 0 <= j < |cpuBlocks| ==>
        r.value.cpuToGpu[j].0 == cpuBlocks[j] && r.value.cpuToGpu[j].1 == old(freeGpu)[j]
    {
      var targets := AllocateGpu(|cpuBlocks|);
      match targets
      case Ok(ids) => r := Ok(SwapPlan([], Zip(cpuBlocks, ids)));
      case Err(e) => r := Err(e);
    }

    method CommitSwapIn(plan: SwapPlan)
      requires Valid() && Managed(View(), Sources(plan.cpuToGpu))
      modifies this
      ensures Did(Commit(Cpu, Sources(plan.cpuToGpu)))
    {
      ghost var s, ids := View(), Sources(plan.cpuToGpu);
      for i := 0 to |plan.cpuToGpu|
        invariant Managed(View(), ids[i..]) && nextId == old(nextId) && handles == old(handles)
        invariant Release(View(), Cpu, ids[i..]) == Release(s, Cpu, ids)
      {
        ReleaseUnfold(View(), Cpu, ids[i..]);
        assert ids[i..][1..] == ids[i + 1..];
        var cpuId := plan.cpuToGpu[i].0;
        assert ids[i..][0] == cpuId;
        blocks := blocks[cpuId := blocks[cpuId].(refCount := 0)];
        freeCpu := freeCpu + [cpuId];
      }
      Settle(s, handles, Commit(Cpu, ids));
    }
  }
}
