/** What the block manager's operations do to its state, and which calls keep it consistent. */
module BlockLedger {

  datatype Location = Gpu | Cpu

  datatype Block = Block(id: nat, location: Location, refCount: nat)

  datatype State = State(blocks: map<nat, Block>, freeGpu: seq<nat>, freeCpu: seq<nat>) {
    function Free(loc: Location): seq<nat> {
      if loc.Gpu? then freeGpu else freeCpu
    }

    function WithFree(loc: Location, free: seq<nat>): State {
      if loc.Gpu? then this.(freeGpu := free) else this.(freeCpu := free)
    }
  }

  function SetRef(s: State, id: nat, n: nat): State
    requires id in s.blocks
  {
    s.(blocks := s.blocks[id := s.blocks[id].(refCount := n)])
  }

  predicate Managed(s: State, ids: seq<nat>) {
    forall i :: 0 <= i < |ids| ==> ids[i] in s.blocks
  }

  // ----- the operations -----

  /** Take n blocks from the front of a free list, each with one reference. */
  function Take(s: State, loc: Location, n: nat): State
    requires n <= |s.Free(loc)| && Managed(s, s.Free(loc))
    decreases n
  {
    if n == 0 then s
    else
      var id := s.Free(loc)[0];
      Take(SetRef(s, id, 1).WithFree(loc, s.Free(loc)[1..]), loc, n - 1)
  }

  function FreeOne(s: State, id: nat): State
    requires id in s.blocks
  {
    var b := s.blocks[id];
    var s' := if b.refCount > 0 then SetRef(s, id, b.refCount - 1) else s;
    if s'.blocks[id].refCount == 0 then s'.WithFree(b.location, s'.Free(b.location) + [id]) else s'
  }

  function FreeAll(s: State, ids: seq<nat>): State
    requires Managed(s, ids)
    decreases |ids|
  {
    if |ids| == 0 then s else FreeAll(FreeOne(s, ids[0]), ids[1..])
  }

  function PinAll(s: State, ids: seq<nat>): State
    requires Managed(s, ids)
    decreases |ids|
  {
    if |ids| == 0 then s else PinAll(SetRef(s, ids[0], s.blocks[ids[0]].refCount + 1), ids[1..])
  }

  /** Commit a swap: the source blocks, taken to live at loc, lose their references and queue up. */
  function Release(s: State, loc: Location, ids: seq<nat>): State
    requires Managed(s, ids)
    decreases |ids|
  {
    if |ids| == 0 then s
    else
      var s' := SetRef(s, ids[0], 0);
      Release(s'.WithFree(loc, s'.Free(loc) + [ids[0]]), loc, ids[1..])
  }

  // ----- consistency -----

  predicate Distinct(ids: seq<nat>) {
    forall i, j :: 0 <= i < j < |ids| ==> ids[i] != ids[j]
  }

  /** The free list of a location holds exactly its unreferenced blocks, each once. */
  ghost predicate ListExact(s: State, loc: Location) {
    && Distinct(s.Free(loc))
    && forall id :: id in s.Free(loc) <==> id in s.blocks && s.blocks[id].location == loc && s.blocks[id].refCount == 0
  }

  /** Consistency with the outstanding handles: reference counts are handle multiplicities. */
  ghost predicate Consistent(s: State, handles: multiset<nat>) {
    && (forall id :: id in handles ==> id in s.blocks)
    && (forall id :: id in s.blocks ==> s.blocks[id].refCount == handles[id])
    && ListExact(s, Gpu)
    && ListExact(s, Cpu)
  }

  lemma ConsistentManaged(s: State, handles: multiset<nat>, loc: Location)
    requires Consistent(s, handles)
    ensures Managed(s, s.Free(loc))
  {
    assert ListExact(s, loc);
    forall i | 0 <= i < |s.Free(loc)| ensures s.Free(loc)[i] in s.blocks { assert s.Free(loc)[i] in s.Free(loc); }
  }

  // ----- allocation -----

  /** Allocation removes the first n blocks of the queue and touches nothing else. */
  lemma {:induction false} TakeShape(s: State, loc: Location, n: nat)
    requires n <= |s.Free(loc)| && Managed(s, s.Free(loc))
    ensures Take(s, loc, n).Free(loc) == s.Free(loc)[n..]
    ensures forall other :: other != loc ==> Take(s, loc, n).Free(other) == s.Free(other)
    ensures SameBlocks(s, Take(s, loc, n))
    decreases n
  {
    if n > 0 {
      var free := s.Free(loc);
      var one := SetRef(s, free[0], 1).WithFree(loc, free[1..]);
      TakeUnfold(s, loc, n);
      TakeShape(one, loc, n - 1);
      assert free[1..][n - 1..] == free[n..];
    }
  }

  /** Block identities and locations never change. */
  predicate SameBlocks(s: State, t: State) {
    && t.blocks.Keys == s.blocks.Keys
    && forall id :: id in s.blocks ==>
      t.blocks[id].location == s.blocks[id].location && t.blocks[id].id == s.blocks[id].id
  }

  /** The blocks taken have one reference, the others what they had. */
  lemma {:induction false} TakeRefs(s: State, loc: Location, n: nat, id: nat)
    requires n <= |s.Free(loc)| && Managed(s, s.Free(loc)) && id in s.blocks
    ensures id in Take(s, loc, n).blocks && Take(s, loc, n).blocks[id].refCount == TakenRefs(s, loc, n, id)
    decreases n
  {
    if n > 0 {
      var free := s.Free(loc);
      var one := SetRef(s, free[0], 1).WithFree(loc, free[1..]);
      TakeUnfold(s, loc, n);
      TakeRefs(one, loc, n - 1, id);
      assert free[..n] == [free[0]] + free[1..][..n - 1];
    }
  }

  function TakenRefs(s: State, loc: Location, n: nat, id: nat): nat
    requires n <= |s.Free(loc)| && id in s.blocks
  {
    if id in s.Free(loc)[..n] then 1 else s.blocks[id].refCount
  }

  /** What n blocks taken from a queue leave behind. */
  ghost predicate Taken(s: State, t: State, loc: Location, n: nat)
    requires n <= |s.Free(loc)|
  {
    && t.Free(loc) == s.Free(loc)[n..] && (forall other :: other != loc ==> t.Free(other) == s.Free(other))
    && SameBlocks(s, t)
    && forall id :: id in s.blocks ==> t.blocks[id].refCount == TakenRefs(s, loc, n, id)
  }

  /** The blocks handed out are now held once each. */
  lemma TakeKeeps(s: State, handles: multiset<nat>, loc: Location, n: nat, after: multiset<nat>)
    returns (t: State)
    requires Consistent(s, handles) && n <= |s.Free(loc)|
    requires after == handles + multiset(s.Free(loc)[..n])
    ensures Managed(s, s.Free(loc)) && t == Take(s, loc, n)
    ensures Consistent(t, after)
  {
    ConsistentManaged(s, handles, loc);
    t := Take(s, loc, n);
    TakeShape(s, loc, n);
    forall id | id in s.blocks ensures t.blocks[id].refCount == TakenRefs(s, loc, n, id) {
      TakeRefs(s, loc, n, id);
    }
    var other := if loc.Gpu? then Cpu else Gpu;
    assert ListExact(s, loc) && ListExact(s, other);
    TakenHere(s, t, loc, n);
    TakenElsewhere(s, t, loc, n, other);
    forall id ensures id in after ==> id in t.blocks
      ensures id in t.blocks ==> t.blocks[id].refCount == after[id]
    {
      TakenHeld(s, handles, loc, n, after, id);
    }
  }

  lemma TakenHeld(s: State, handles: multiset<nat>, loc: Location, n: nat, after: multiset<nat>, id: nat)
    requires Consistent(s, handles) && n <= |s.Free(loc)| && after == handles + multiset(s.Free(loc)[..n])
    ensures id in after ==> id in s.blocks
    ensures id in s.blocks ==> TakenRefs(s, loc, n, id) == after[id]
  {
    var free := s.Free(loc);
    assert ListExact(s, loc) && free == free[..n] + free[n..];
    DistinctCount(free[..n], id);
    assert id in free[..n] ==> id in free;
  }

  lemma TakenHere(s: State, t: State, loc: Location, n: nat)
    requires n <= |s.Free(loc)| && ListExact(s, loc) && Taken(s, t, loc, n)
    ensures ListExact(t, loc)
  {
    var free := s.Free(loc);
    assert free == free[..n] + free[n..];
    forall id ensures id in free[n..] <==> id in free && id !in free[..n] {
      SplitMember(free, n, id);
    }
  }

  lemma SplitMember(free: seq<nat>, n: nat, id: nat)
    requires n <= |free| && Distinct(free)
    ensures id in free[n..] <==> id in free && id !in free[..n]
  {
    assert free == free[..n] + free[n..];
    forall i, j | 0 <= i < n <= j < |free| ensures free[i] != free[j] {}
  }

  lemma TakenElsewhere(s: State, t: State, loc: Location, n: nat, other: Location)
    requires n <= |s.Free(loc)| && ListExact(s, loc) && Taken(s, t, loc, n)
    requires other != loc && ListExact(s, other)
    ensures ListExact(t, other)
  {
    forall id | id in s.Free(loc)[..n] ensures id in s.Free(loc) {}
  }

  lemma TakeUnfold(s: State, loc: Location, n: nat)
    requires 0 < n <= |s.Free(loc)| && Managed(s, s.Free(loc))
    ensures var free := s.Free(loc);
      var one := SetRef(s, free[0], 1).WithFree(loc, free[1..]);
      Managed(one, one.Free(loc)) && Take(s, loc, n) == Take(one, loc, n - 1)
  {}

  lemma SameState(s: State, t: State, handles: multiset<nat>, others: multiset<nat>)
    requires s == t && handles == others && Consistent(s, handles)
    ensures Consistent(t, others)
  {}

  // ----- release of handles -----

  lemma FreeHeld(s: State, handles: multiset<nat>, id: nat)
    requires Consistent(s, handles) && id in handles
    ensures id in s.blocks && Consistent(FreeOne(s, id), handles - multiset{id})
  {
    var t, loc := FreeOne(s, id), s.blocks[id].location;
    var other := if loc.Gpu? then Cpu else Gpu;
    assert ListExact(s, loc) && ListExact(s, other);
    assert id !in s.Free(loc) && id !in s.Free(other);
    assert ListExact(t, loc) && ListExact(t, other);
  }

  lemma {:induction false} FreeAllGrows(s: State, ids: seq<nat>)
    requires Managed(s, ids)
    ensures s.freeGpu <= FreeAll(s, ids).freeGpu && s.freeCpu <= FreeAll(s, ids).freeCpu
    ensures SameBlocks(s, FreeAll(s, ids))
    decreases |ids|
  {
    if |ids| > 0 { FreeAllGrows(FreeOne(s, ids[0]), ids[1..]); }
  }

  lemma PrefixDistinct(a: seq<nat>, b: seq<nat>)
    requires a <= b && Distinct(b)
    ensures Distinct(a)
  {
    forall i, j | 0 <= i < j < |a| ensures a[i] != a[j] { assert a[i] == b[i] && a[j] == b[j]; }
  }

  /** Freeing a block nobody holds queues it a second time, and nothing later repairs that. */
  lemma FreeUnheldBreaks(s: State, handles: multiset<nat>, id: nat, rest: seq<nat>, after: multiset<nat>)
    requires Consistent(s, handles) && id in s.blocks && id !in handles && Managed(s, rest)
    ensures Managed(FreeOne(s, id), rest) && !Consistent(FreeAll(FreeOne(s, id), rest), after)
  {
    var t, loc := FreeOne(s, id), s.blocks[id].location;
    var u := FreeAll(t, rest);
    assert ListExact(s, loc);
    FreeAllGrows(t, rest);
    var i :| 0 <= i < |s.Free(loc)| && s.Free(loc)[i] == id;
    assert t.Free(loc)[i] == t.Free(loc)[|s.Free(loc)|] == id;
    assert !Distinct(t.Free(loc));
    if ListExact(u, loc) { PrefixDistinct(t.Free(loc), u.Free(loc)); }
  }

  lemma SplitFirst(handles: multiset<nat>, ids: seq<nat>)
    requires |ids| > 0
    ensures multiset(ids) == multiset{ids[0]} + multiset(ids[1..])
    ensures handles - multiset(ids) == handles - multiset{ids[0]} - multiset(ids[1..])
    ensures multiset(ids) <= handles <==> ids[0] in handles && multiset(ids[1..]) <= handles - multiset{ids[0]}
  {
    assert ids == [ids[0]] + ids[1..];
    var m, r := multiset(ids), multiset(ids[1..]);
    assert m == multiset{ids[0]} + r;
    if m <= handles {
      assert m[ids[0]] >= 1;
      forall x ensures r[x] <= (handles - multiset{ids[0]})[x] { assert m[x] <= handles[x]; }
    }
    if ids[0] in handles && r <= handles - multiset{ids[0]} {
      forall x ensures m[x] <= handles[x] { assert r[x] <= (handles - multiset{ids[0]})[x]; }
    }
  }

  /** `free` keeps the allocator consistent exactly when each block is freed at most as often as it
      is held. */
  lemma {:induction false} FreeKeepsIff(s: State, handles: multiset<nat>, ids: seq<nat>)
    requires Consistent(s, handles) && Managed(s, ids)
    ensures Consistent(FreeAll(s, ids), handles - multiset(ids)) <==> multiset(ids) <= handles
    decreases |ids|
  {
    if |ids| == 0 {
      assert handles - multiset(ids) == handles;
    } else {
      SplitFirst(handles, ids);
      if ids[0] in handles {
        FreeHeld(s, handles, ids[0]);
        FreeKeepsIff(FreeOne(s, ids[0]), handles - multiset{ids[0]}, ids[1..]);
      } else {
        FreeUnheldBreaks(s, handles, ids[0], ids[1..], handles - multiset(ids));
      }
    }
  }

  // ----- pinning -----

  lemma PinHeld(s: State, handles: multiset<nat>, id: nat)
    requires Consistent(s, handles) && id in handles
    ensures id in s.blocks
    ensures Consistent(SetRef(s, id, s.blocks[id].refCount + 1), handles + multiset{id})
  {
    var t := SetRef(s, id, s.blocks[id].refCount + 1);
    assert ListExact(s, Gpu) && ListExact(s, Cpu);
    assert ListExact(t, Gpu) && ListExact(t, Cpu);
  }

  lemma {:induction false} PinShape(s: State, ids: seq<nat>)
    requires Managed(s, ids)
    ensures var t := PinAll(s, ids);
      && t.freeGpu == s.freeGpu && t.freeCpu == s.freeCpu && SameBlocks(s, t)
      && forall id :: id in s.blocks ==> t.blocks[id].refCount >= s.blocks[id].refCount
    decreases |ids|
  {
    if |ids| > 0 { PinShape(SetRef(s, ids[0], s.blocks[ids[0]].refCount + 1), ids[1..]); }
  }

  /** A block pinned while free is on a free list with a reference, and pinning more never mends it. */
  lemma PinUnheldBreaks(s: State, handles: multiset<nat>, ids: seq<nat>, after: multiset<nat>)
    requires Consistent(s, handles) && Managed(s, ids) && |ids| > 0 && ids[0] !in handles
    ensures !Consistent(PinAll(s, ids), after)
  {
    var id, loc := ids[0], s.blocks[ids[0]].location;
    assert ListExact(s, loc);
    var one, t := SetRef(s, id, s.blocks[id].refCount + 1), PinAll(s, ids);
    PinShape(one, ids[1..]);
    assert one.blocks[id].refCount > 0 && t == PinAll(one, ids[1..]);
    StaleEntry(t, after, loc, id);
  }

  lemma StaleEntry(s: State, handles: multiset<nat>, loc: Location, id: nat)
    requires id in s.Free(loc) && id in s.blocks && s.blocks[id].refCount > 0
    ensures !Consistent(s, handles)
  {
    assert !ListExact(s, loc);
  }

  /** `pin` keeps the allocator consistent exactly when every pinned block is already held. */
  lemma {:induction false} PinKeepsIff(s: State, handles: multiset<nat>, ids: seq<nat>, after: multiset<nat>)
    requires Consistent(s, handles) && Managed(s, ids) && after == handles + multiset(ids)
    ensures Consistent(PinAll(s, ids), after) <==> forall i :: 0 <= i < |ids| ==> ids[i] in handles
    decreases |ids|
  {
    if |ids| == 0 {
      assert after == handles;
    } else if ids[0] in handles {
      PinHeld(s, handles, ids[0]);
      assert ids == [ids[0]] + ids[1..];
      var t := PinFirst(s, ids);
      PinKeepsIff(t, handles + multiset{ids[0]}, ids[1..], after);
      HeldRest(handles, ids);
    } else {
      PinUnheldBreaks(s, handles, ids, after);
    }
  }

  lemma PinFirst(s: State, ids: seq<nat>) returns (t: State)
    requires Managed(s, ids) && |ids| > 0
    ensures t == SetRef(s, ids[0], s.blocks[ids[0]].refCount + 1)
    ensures Managed(t, ids[1..]) && PinAll(s, ids) == PinAll(t, ids[1..])
  {
    t := SetRef(s, ids[0], s.blocks[ids[0]].refCount + 1);
  }

  lemma HeldRest(handles: multiset<nat>, ids: seq<nat>)
    requires |ids| > 0 && ids[0] in handles
    ensures (forall i :: 0 <= i < |ids| ==> ids[i] in handles)
       <==> (forall i :: 0 <= i < |ids[1..]| ==> ids[1..][i] in handles + multiset{ids[0]})
  {
    if forall i :: 0 <= i < |ids[1..]| ==> ids[1..][i] in handles + multiset{ids[0]} {
      forall i | 0 <= i < |ids| ensures ids[i] in handles {
        if i > 0 { assert ids[1..][i - 1] == ids[i]; }
      }
    }
  }

  // ----- committing a swap -----

  lemma {:induction false} DistinctCount(ids: seq<nat>, id: nat)
    requires Distinct(ids)
    ensures multiset(ids)[id] == if id in ids then 1 else 0
  {
    if |ids| > 0 {
      var rest := ids[1..];
      assert ids == [ids[0]] + rest;
      DistinctCount(rest, id);
      assert ids[0] !in rest;
    }
  }

  /** A commit appends its blocks to their queue, unreferenced, and touches nothing else. */
  predicate Released(s: State, t: State, loc: Location, ids: seq<nat>) {
    && t.Free(loc) == s.Free(loc) + ids
    && (forall other :: other != loc ==> t.Free(other) == s.Free(other))
    && SameBlocks(s, t)
    && forall id :: id in s.blocks ==> t.blocks[id].refCount == if id in ids then 0 else s.blocks[id].refCount
  }

  lemma ReleasedFirst(s: State, u: State, t: State, loc: Location, first: nat, rest: seq<nat>)
    requires first in s.blocks && Released(s, u, loc, [first]) && Released(u, t, loc, rest)
    ensures Released(s, t, loc, [first] + rest)
  {
    assert s.Free(loc) + [first] + rest == s.Free(loc) + ([first] + rest);
  }

  lemma {:induction false} ReleaseShape(s: State, loc: Location, ids: seq<nat>)
    requires Managed(s, ids)
    ensures Released(s, Release(s, loc, ids), loc, ids)
    decreases |ids|
  {
    if |ids| > 0 {
      var s' := SetRef(s, ids[0], 0);
      var u := s'.WithFree(loc, s'.Free(loc) + [ids[0]]);
      ReleaseUnfold(s, loc, ids);
      ReleaseShape(u, loc, ids[1..]);
      ReleasedFirst(s, u, Release(s, loc, ids), loc, ids[0], ids[1..]);
      assert ids == [ids[0]] + ids[1..];
    }
  }

  lemma ReleaseUnfold(s: State, loc: Location, ids: seq<nat>)
    requires Managed(s, ids) && |ids| > 0
    ensures var s' := SetRef(s, ids[0], 0);
      var u := s'.WithFree(loc, s'.Free(loc) + [ids[0]]);
      Managed(u, ids[1..]) && Release(s, loc, ids) == Release(u, loc, ids[1..])
  {}

  /** What a commit may be given: distinct blocks of the source location, each held exactly once. */
  ghost predicate SoleOwner(s: State, handles: multiset<nat>, loc: Location, ids: seq<nat>) {
    Distinct(ids) && forall id :: id in ids ==> id in s.blocks && s.blocks[id].location == loc && handles[id] == 1
  }

  lemma ReleaseKeeps(s: State, handles: multiset<nat>, loc: Location, ids: seq<nat>)
    requires Consistent(s, handles) && Managed(s, ids) && SoleOwner(s, handles, loc, ids)
    ensures Consistent(Release(s, loc, ids), handles - multiset(ids))
  {
    ReleaseShape(s, loc, ids);
    var t, after := Release(s, loc, ids), handles - multiset(ids);
    forall id ensures after[id] == if id in ids then 0 else handles[id] { DistinctCount(ids, id); }
    ReleasedExact(s, handles, t, loc, ids);
    ReleasedElsewhere(s, t, loc, ids, if loc.Gpu? then Cpu else Gpu);
  }

  lemma ReleasedExact(s: State, handles: multiset<nat>, t: State, loc: Location, ids: seq<nat>)
    requires Consistent(s, handles) && SoleOwner(s, handles, loc, ids) && Released(s, t, loc, ids)
    ensures ListExact(t, loc)
  {
    assert ListExact(s, loc);
    assert forall id :: id in s.Free(loc) ==> id !in ids;
    DistinctConcat(s.Free(loc), ids);
  }

  lemma DistinctConcat(a: seq<nat>, b: seq<nat>)
    requires Distinct(a) && Distinct(b) && forall id :: id in a ==> id !in b
    ensures Distinct(a + b)
  {
    forall i, j | 0 <= i < j < |a + b| ensures (a + b)[i] != (a + b)[j] {
      if i < |a| <= j { assert (a + b)[i] in a && (a + b)[j] in b; }
    }
  }

  lemma ReleasedElsewhere(s: State, t: State, loc: Location, ids: seq<nat>, other: Location)
    requires Released(s, t, loc, ids) && other != loc && ListExact(s, other)
    requires forall id :: id in ids ==> id in s.blocks && s.blocks[id].location == loc
    ensures ListExact(t, other)
  {}

  lemma ReleaseNeeds(s: State, handles: multiset<nat>, loc: Location, ids: seq<nat>)
    requires Consistent(s, handles) && Managed(s, ids)
    requires Consistent(Release(s, loc, ids), handles - multiset(ids))
    ensures SoleOwner(s, handles, loc, ids)
  {
    ReleaseShape(s, loc, ids);
    var t := Release(s, loc, ids);
    assert ListExact(t, loc);
    AppendedDistinct(s.Free(loc), ids);
    forall id | id in ids ensures id in s.blocks && s.blocks[id].location == loc && handles[id] == 1 {
      DistinctCount(ids, id);
      QueuedOnce(s, handles, loc, ids, t, id);
    }
  }

  lemma AppendedDistinct(free: seq<nat>, ids: seq<nat>)
    requires Distinct(free + ids)
    ensures Distinct(ids) && forall id :: id in ids ==> id !in free
  {
    forall i, j | 0 <= i < j < |ids| ensures ids[i] != ids[j] {
      assert (free + ids)[|free| + i] == ids[i] && (free + ids)[|free| + j] == ids[j];
    }
    forall i, j | 0 <= i < |ids| && 0 <= j < |free| ensures ids[i] != free[j] {
      assert (free + ids)[|free| + i] == ids[i] && (free + ids)[j] == free[j];
    }
  }

  lemma QueuedOnce(s: State, handles: multiset<nat>, loc: Location, ids: seq<nat>, t: State, id: nat)
    requires Consistent(s, handles) && Consistent(t, handles - multiset(ids))
    requires SameBlocks(s, t) && id in t.Free(loc) && id !in s.Free(loc) && multiset(ids)[id] == 1
    ensures id in s.blocks && s.blocks[id].location == loc && handles[id] == 1
  {
    assert ListExact(s, loc) && ListExact(t, loc);
  }
}
