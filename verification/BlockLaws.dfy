/** The block manager's calls, block by block and queue by queue. */
module BlockLaws {
  import opened BlockLedger
  import opened BlockRuns
  import opened BlockManagement

  /** Every block but id is as it was, and id has kept its identity and location. */
  predicate OnlyRefs(s: State, t: State, id: nat) {
    && id in s.blocks && t.blocks.Keys == s.blocks.Keys
    && (forall other :: other in s.blocks && other != id ==> t.blocks[other] == s.blocks[other])
    && t.blocks[id].id == s.blocks[id].id && t.blocks[id].location == s.blocks[id].location
  }

  lemma {:induction false} FreeSnoc(s: State, ids: seq<nat>, id: nat)
    requires Managed(s, ids + [id])
    ensures Managed(s, ids) && id in FreeAll(s, ids).blocks
    ensures FreeAll(s, ids + [id]) == FreeOne(FreeAll(s, ids), id)
    decreases |ids|
  {
    assert forall i :: 0 <= i < |ids| ==> ids[i] == (ids + [id])[i];
    assert (ids + [id])[|ids|] == id;
    if |ids| == 0 {
      assert ids + [id] == [id] && [id][1..] == [];
    } else {
      assert (ids + [id])[1..] == ids[1..] + [id];
      FreeSnoc(FreeOne(s, ids[0]), ids[1..], id);
    }
  }

  /** Freeing one more block takes one reference off it, if it has any, and queues it at its own location when it
      is left with none; nothing else changes. */
  lemma FreeLaw(s: State, ids: seq<nat>, id: nat, t: State, u: State)
    requires Managed(s, ids + [id]) && Managed(s, ids) && t == FreeAll(s, ids) && u == FreeAll(s, ids + [id])
    ensures FreeAll(s, []) == s && OnlyRefs(t, u, id)
    ensures var n := t.blocks[id].refCount;
      && u.blocks[id].refCount == (if n == 0 then 0 else n - 1)
      && u.freeGpu == (if n <= 1 && t.blocks[id].location == Gpu then t.freeGpu + [id] else t.freeGpu)
      && u.freeCpu == (if n <= 1 && t.blocks[id].location == Cpu then t.freeCpu + [id] else t.freeCpu)
  {
    FreeSnoc(s, ids, id);
  }

  lemma {:induction false} PinSnoc(s: State, ids: seq<nat>, id: nat)
    requires Managed(s, ids + [id])
    ensures Managed(s, ids) && id in PinAll(s, ids).blocks
    ensures var t := PinAll(s, ids); PinAll(s, ids + [id]) == SetRef(t, id, t.blocks[id].refCount + 1)
    decreases |ids|
  {
    assert forall i :: 0 <= i < |ids| ==> ids[i] == (ids + [id])[i];
    assert (ids + [id])[|ids|] == id;
    if |ids| == 0 {
      assert ids + [id] == [id] && [id][1..] == [];
    } else {
      assert (ids + [id])[1..] == ids[1..] + [id];
      PinSnoc(SetRef(s, ids[0], s.blocks[ids[0]].refCount + 1), ids[1..], id);
    }
  }

  /** Pinning one more block adds one reference to it and changes nothing else. */
  lemma PinLaw(s: State, ids: seq<nat>, id: nat, t: State, u: State)
    requires Managed(s, ids + [id]) && Managed(s, ids) && t == PinAll(s, ids) && u == PinAll(s, ids + [id])
    ensures PinAll(s, []) == s && OnlyRefs(t, u, id)
    ensures u.blocks[id].refCount == t.blocks[id].refCount + 1 && u.freeGpu == t.freeGpu && u.freeCpu == t.freeCpu
  {
    PinSnoc(s, ids, id);
  }

  /** A block after a call that only changes reference counts. */
  predicate Counted(s: State, t: State, id: nat, n: nat) {
    && id in s.blocks && id in t.blocks
    && t.blocks[id].id == s.blocks[id].id && t.blocks[id].location == s.blocks[id].location
    && t.blocks[id].refCount == n
  }

  /** Allocation takes the front of one queue, gives those blocks one reference each, and changes nothing else. */
  lemma TakeLaw(s: State, loc: Location, n: nat, t: State)
    requires n <= |s.Free(loc)| && Managed(s, s.Free(loc)) && t == Take(s, loc, n)
    ensures t.freeGpu == if loc == Gpu then s.freeGpu[n..] else s.freeGpu
    ensures t.freeCpu == if loc == Cpu then s.freeCpu[n..] else s.freeCpu
    ensures t.blocks.Keys == s.blocks.Keys
    ensures forall id :: id in s.blocks ==>
      Counted(s, t, id, if id in s.Free(loc)[..n] then 1 else s.blocks[id].refCount)
  {
    TakeShape(s, loc, n);
    forall id | id in s.blocks ensures Counted(s, t, id, if id in s.Free(loc)[..n] then 1 else s.blocks[id].refCount) {
      TakeRefs(s, loc, n, id);
    }
    assert s.Free(Gpu) == s.freeGpu && s.Free(Cpu) == s.freeCpu && t.Free(Gpu) == t.freeGpu && t.Free(Cpu) == t.freeCpu;
  }

  /** A commit queues its source blocks, in order, at the source location, without a reference, and changes
      nothing else. */
  lemma CommitLaw(s: State, loc: Location, ids: seq<nat>, t: State)
    requires Managed(s, ids) && t == Release(s, loc, ids)
    ensures t.freeGpu == if loc == Gpu then s.freeGpu + ids else s.freeGpu
    ensures t.freeCpu == if loc == Cpu then s.freeCpu + ids else s.freeCpu
    ensures t.blocks.Keys == s.blocks.Keys
    ensures forall id :: id in s.blocks ==> Counted(s, t, id, if id in ids then 0 else s.blocks[id].refCount)
  {
    ReleaseShape(s, loc, ids);
    assert s.Free(Gpu) == s.freeGpu && s.Free(Cpu) == s.freeCpu && t.Free(Gpu) == t.freeGpu && t.Free(Cpu) == t.freeCpu;
  }

  /** Every call is one of these, on the blocks it names. */
  lemma StepLaw(s: State, loc: Location, n: nat, ids: seq<nat>)
    requires Formed(s) && Managed(s, ids)
    ensures Step(s, Op.Free(ids)) == FreeAll(s, ids) && Step(s, Op.Pin(ids)) == PinAll(s, ids)
    ensures Step(s, Commit(loc, ids)) == Release(s, loc, ids)
    ensures Step(s, Allocate(loc, n)) == if n <= |s.Free(loc)| then Take(s, loc, n) else s
    ensures Step(s, Plan(loc, ids)) == if |ids| <= |s.Free(loc)| then Take(s, loc, |ids|) else s
  {}

  /** A new manager: GPU blocks numbered from 0, CPU blocks after them, all unreferenced and queued in order. */
  lemma FreshLaw(gpu: nat, cpu: nat, s: State)
    requires s == Fresh(gpu, cpu)
    ensures forall id :: id in s.blocks <==> 0 <= id < gpu + cpu
    ensures forall id :: id in s.blocks ==> s.blocks[id] == Block(id, if id < gpu then Gpu else Cpu, 0)
    ensures |s.freeGpu| == gpu && forall j :: 0 <= j < gpu ==> s.freeGpu[j] == j
    ensures |s.freeCpu| == cpu && forall j :: 0 <= j < cpu ==> s.freeCpu[j] == gpu + j
  {
    var all := Range(0, gpu + cpu);
    forall id ensures id in all <==> 0 <= id < gpu + cpu {
      if 0 <= id < gpu + cpu { assert all[id] == id; }
    }
  }

  /** The blocks a commit releases are the first halves of its pairs. */
  lemma SourcesLaw(pairs: seq<(nat, nat)>, j: nat)
    requires j < |pairs|
    ensures |Sources(pairs)| == |pairs| && Sources(pairs)[j] == pairs[j].0
  {}
}
