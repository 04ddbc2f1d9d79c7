/** Whole runs of the block manager: consistency, conservation of blocks and first-in-first-out order. */
module BlockRuns {
  import opened BlockLedger

  /** The calls a client can make. Planning a swap is an allocation at the destination; committing
      one releases the source blocks. */
  datatype Op =
    | Allocate(loc: Location, n: nat)
    | Pin(ids: seq<nat>)
    | Free(ids: seq<nat>)
    | Plan(destination: Location, sources: seq<nat>)
    | Commit(source: Location, sources: seq<nat>)
  {
    /** The blocks a call names; the original panics on an unmanaged one. */
    function Named(): seq<nat> {
      match this
      case Allocate(_, _) => []
      case Pin(ids) => ids
      case Free(ids) => ids
      case Plan(_, _) => []
      case Commit(_, sources) => sources
    }
  }

  predicate Formed(s: State) {
    Managed(s, s.freeGpu) && Managed(s, s.freeCpu)
  }

  /** An allocation that the free list cannot cover changes nothing. */
  function TryTake(s: State, loc: Location, n: nat): State
    requires Formed(s)
  {
    if n <= |s.Free(loc)| then Take(s, loc, n) else s
  }

  function Step(s: State, op: Op): (t: State)
    requires Formed(s) && Managed(s, op.Named())
  {
    match op
    case Allocate(loc, n) => TryTake(s, loc, n)
    case Pin(ids) => PinAll(s, ids)
    case Free(ids) => FreeAll(s, ids)
    case Plan(loc, sources) => TryTake(s, loc, |sources|)
    case Commit(loc, sources) => Release(s, loc, sources)
  }

  /** The blocks an operation hands out from, and returns to, the queue of a location. */
  function Popped(s: State, op: Op, loc: Location): seq<nat> {
    if op.Allocate? && op.loc == loc && op.n <= |s.Free(loc)| then s.Free(loc)[..op.n]
    else if op.Plan? && op.destination == loc && |op.sources| <= |s.Free(loc)| then s.Free(loc)[..|op.sources|]
    else []
  }

  function Pushed(s: State, op: Op, loc: Location): seq<nat>
    requires Formed(s) && Managed(s, op.Named())
  {
    var t := Step(s, op);
    if (op.Free? || op.Commit?) && |s.Free(loc)| <= |t.Free(loc)| then t.Free(loc)[|s.Free(loc)|..] else []
  }

  /** The handles outstanding after an operation. */
  function Handles(s: State, handles: multiset<nat>, op: Op): multiset<nat> {
    match op
    case Pin(ids) => handles + multiset(ids)
    case Free(ids) => handles - multiset(ids)
    case Commit(_, sources) => handles - multiset(sources)
    case Allocate(loc, _) => handles + multiset(Popped(s, op, loc))
    case Plan(loc, _) => handles + multiset(Popped(s, op, loc))
  }

  /** What the ownership discipline asks of a call. */
  ghost predicate Legal(s: State, handles: multiset<nat>, op: Op) {
    match op
    case Allocate(_, _) => true
    case Plan(_, _) => true
    case Pin(ids) => forall i :: 0 <= i < |ids| ==> ids[i] in handles
    case Free(ids) => multiset(ids) <= handles
    case Commit(loc, sources) => SoleOwner(s, handles, loc, sources)
  }

  lemma ConsistentFormed(s: State, handles: multiset<nat>)
    requires Consistent(s, handles)
    ensures Formed(s)
  {
    ConsistentManaged(s, handles, Gpu);
    ConsistentManaged(s, handles, Cpu);
  }

  lemma TryTakeKeeps(s: State, handles: multiset<nat>, loc: Location, n: nat, after: multiset<nat>)
    requires Consistent(s, handles) && Formed(s)
    requires after == handles + multiset(if n <= |s.Free(loc)| then s.Free(loc)[..n] else [])
    ensures Consistent(TryTake(s, loc, n), after)
  {
    if n <= |s.Free(loc)| {
      var t := TakeKeeps(s, handles, loc, n, after);
    } else {
      assert after == handles;
    }
  }

  /** A call keeps the allocator consistent with its handles exactly when it obeys the discipline. */
  lemma StepKeepsIff(s: State, handles: multiset<nat>, op: Op)
    requires Consistent(s, handles) && Formed(s) && Managed(s, op.Named())
    ensures Consistent(Step(s, op), Handles(s, handles, op)) <==> Legal(s, handles, op)
  {
    match op
    case Allocate(loc, n) => TryTakeKeeps(s, handles, loc, n, Handles(s, handles, op));
    case Plan(loc, sources) => TryTakeKeeps(s, handles, loc, |sources|, Handles(s, handles, op));
    case Pin(ids) => PinKeepsIff(s, handles, ids, handles + multiset(ids));
    case Free(ids) => FreeKeepsIff(s, handles, ids);
    case Commit(loc, sources) =>
      if SoleOwner(s, handles, loc, sources) { ReleaseKeeps(s, handles, loc, sources); }
      else if Consistent(Release(s, loc, sources), handles - multiset(sources)) {
        ReleaseNeeds(s, handles, loc, sources);
      }
  }

  lemma StepShape(s: State, op: Op, loc: Location)
    requires Formed(s) && Managed(s, op.Named())
    ensures SameBlocks(s, Step(s, op))
    ensures s.Free(loc) + Pushed(s, op, loc) == Popped(s, op, loc) + Step(s, op).Free(loc)
  {
    if op.Free? || op.Commit? { PushShape(s, op, loc); } else { PopShape(s, op, loc); }
  }

  lemma PopShape(s: State, op: Op, loc: Location)
    requires Formed(s) && Managed(s, op.Named()) && (op.Allocate? || op.Plan? || op.Pin?)
    ensures SameBlocks(s, Step(s, op)) && Pushed(s, op, loc) == []
    ensures s.Free(loc) == Popped(s, op, loc) + Step(s, op).Free(loc)
  {
    match op
    case Allocate(l, n) => TryTakeShape(s, l, n, loc);
    case Plan(l, sources) => TryTakeShape(s, l, |sources|, loc);
    case Pin(ids) => PinShape(s, ids);
  }

  lemma PushShape(s: State, op: Op, loc: Location)
    requires Formed(s) && Managed(s, op.Named()) && (op.Free? || op.Commit?)
    ensures SameBlocks(s, Step(s, op)) && Popped(s, op, loc) == []
    ensures s.Free(loc) + Pushed(s, op, loc) == Step(s, op).Free(loc)
  {
    match op
    case Free(ids) => FreeAllGrows(s, ids);
    case Commit(l, sources) => ReleaseShape(s, l, sources);
  }

  lemma TryTakeShape(s: State, from: Location, n: nat, loc: Location)
    requires Formed(s)
    ensures SameBlocks(s, TryTake(s, from, n))
    ensures s.Free(loc)
      == (if from == loc && n <= |s.Free(loc)| then s.Free(loc)[..n] else []) + TryTake(s, from, n).Free(loc)
  {
    if n <= |s.Free(from)| { TakeShape(s, from, n); }
  }

  // ----- runs -----

  lemma {:induction false} FreeAllFormed(s: State, ids: seq<nat>)
    requires Formed(s) && Managed(s, ids)
    ensures Formed(FreeAll(s, ids))
    decreases |ids|
  {
    if |ids| > 0 { FreeAllFormed(FreeOne(s, ids[0]), ids[1..]); }
  }

  lemma TryTakeFormed(s: State, loc: Location, n: nat)
    requires Formed(s)
    ensures Formed(TryTake(s, loc, n))
  {
    if n <= |s.Free(loc)| {
      TakeShape(s, loc, n);
      var t := Take(s, loc, n);
      assert t.Free(Gpu) == t.freeGpu && t.Free(Cpu) == t.freeCpu;
    }
  }

  lemma ReleaseFormed(s: State, loc: Location, ids: seq<nat>)
    requires Formed(s) && Managed(s, ids)
    ensures Formed(Release(s, loc, ids))
  {
    ReleaseShape(s, loc, ids);
    var t := Release(s, loc, ids);
    assert t.Free(Gpu) == t.freeGpu && t.Free(Cpu) == t.freeCpu;
  }

  lemma StepFormed(s: State, op: Op)
    requires Formed(s) && Managed(s, op.Named())
    ensures Formed(Step(s, op)) && SameBlocks(s, Step(s, op))
  {
    StepShape(s, op, Gpu);
    match op
    case Allocate(l, n) => TryTakeFormed(s, l, n);
    case Plan(l, sources) => TryTakeFormed(s, l, |sources|);
    case Pin(ids) => PinShape(s, ids);
    case Free(ids) => FreeAllFormed(s, ids);
    case Commit(l, sources) => ReleaseFormed(s, l, sources);
  }

  predicate AllNamed(s: State, ops: seq<Op>) {
    forall k :: 0 <= k < |ops| ==> Managed(s, ops[k].Named())
  }

  lemma NextNamed(s: State, ops: seq<Op>)
    requires Formed(s) && AllNamed(s, ops) && |ops| > 0
    ensures Formed(Step(s, ops[0])) && AllNamed(Step(s, ops[0]), ops[1..])
  {
    StepFormed(s, ops[0]);
    forall k | 0 <= k < |ops[1..]| ensures Managed(Step(s, ops[0]), ops[1..][k].Named()) {
      assert Managed(s, ops[k + 1].Named());
    }
  }

  function Run(s: State, ops: seq<Op>): State
    requires Formed(s) && AllNamed(s, ops)
    decreases |ops|
  {
    if |ops| == 0 then s else NextNamed(s, ops); Run(Step(s, ops[0]), ops[1..])
  }

  function RunHandles(s: State, handles: multiset<nat>, ops: seq<Op>): multiset<nat>
    requires Formed(s) && AllNamed(s, ops)
    decreases |ops|
  {
    if |ops| == 0 then handles
    else NextNamed(s, ops); RunHandles(Step(s, ops[0]), Handles(s, handles, ops[0]), ops[1..])
  }

  function RunPushed(s: State, ops: seq<Op>, loc: Location): seq<nat>
    requires Formed(s) && AllNamed(s, ops)
    decreases |ops|
  {
    if |ops| == 0 then []
    else NextNamed(s, ops); Pushed(s, ops[0], loc) + RunPushed(Step(s, ops[0]), ops[1..], loc)
  }

  function RunPopped(s: State, ops: seq<Op>, loc: Location): seq<nat>
    requires Formed(s) && AllNamed(s, ops)
    decreases |ops|
  {
    if |ops| == 0 then []
    else NextNamed(s, ops); Popped(s, ops[0], loc) + RunPopped(Step(s, ops[0]), ops[1..], loc)
  }

  ghost predicate RunLegal(s: State, handles: multiset<nat>, ops: seq<Op>)
    requires Formed(s) && AllNamed(s, ops)
    decreases |ops|
  {
    |ops| == 0 || (
      NextNamed(s, ops);
      Legal(s, handles, ops[0]) && RunLegal(Step(s, ops[0]), Handles(s, handles, ops[0]), ops[1..]))
  }

  ghost predicate RunConsistent(s: State, handles: multiset<nat>, ops: seq<Op>)
    requires Formed(s) && AllNamed(s, ops)
    decreases |ops|
  {
    Consistent(s, handles) && (|ops| == 0 || (
      NextNamed(s, ops);
      RunConsistent(Step(s, ops[0]), Handles(s, handles, ops[0]), ops[1..])))
  }

  /** Over every run: the reference counts equal the outstanding handles and the free lists hold
      exactly the unreferenced blocks after each call, if and only if every call was legal. */
  lemma {:induction false} RunKeepsIff(s: State, handles: multiset<nat>, ops: seq<Op>)
    requires Consistent(s, handles) && Formed(s) && AllNamed(s, ops)
    ensures RunConsistent(s, handles, ops) <==> RunLegal(s, handles, ops)
    decreases |ops|
  {
    if |ops| > 0 {
      NextNamed(s, ops);
      assert Managed(s, ops[0].Named());
      StepKeepsIff(s, handles, ops[0]);
      if Legal(s, handles, ops[0]) {
        RunKeepsIff(Step(s, ops[0]), Handles(s, handles, ops[0]), ops[1..]);
      }
    }
  }

  lemma {:induction false} RunConsistentAtEnd(s: State, handles: multiset<nat>, ops: seq<Op>)
    requires Formed(s) && AllNamed(s, ops) && RunConsistent(s, handles, ops)
    ensures Consistent(Run(s, ops), RunHandles(s, handles, ops))
    decreases |ops|
  {
    if |ops| > 0 {
      NextNamed(s, ops);
      RunConsistentAtEnd(Step(s, ops[0]), Handles(s, handles, ops[0]), ops[1..]);
    }
  }

  /** Every run, legal or not, is first in, first out: the blocks handed out followed by the blocks
      still queued are the initial queue followed by the blocks returned. So a returned block is not
      handed out before every block ahead of it. */
  lemma {:induction false} RunFifo(s: State, ops: seq<Op>, loc: Location)
    requires Formed(s) && AllNamed(s, ops)
    ensures s.Free(loc) + RunPushed(s, ops, loc) == RunPopped(s, ops, loc) + Run(s, ops).Free(loc)
    ensures RunPopped(s, ops, loc) <= s.Free(loc) + RunPushed(s, ops, loc)
    decreases |ops|
  {
    if |ops| > 0 {
      NextNamed(s, ops);
      assert Managed(s, ops[0].Named());
      StepShape(s, ops[0], loc);
      var t := Step(s, ops[0]);
      RunFifo(t, ops[1..], loc);
      Requeue(s.Free(loc), Pushed(s, ops[0], loc), Popped(s, ops[0], loc), t.Free(loc),
              RunPushed(t, ops[1..], loc), RunPopped(t, ops[1..], loc), Run(t, ops[1..]).Free(loc));
    }
  }

  lemma Requeue(free: seq<nat>, pushed: seq<nat>, popped: seq<nat>, next: seq<nat>,
                morePushed: seq<nat>, morePopped: seq<nat>, last: seq<nat>)
    requires free + pushed == popped + next && next + morePushed == morePopped + last
    ensures free + (pushed + morePushed) == (popped + morePopped) + last
  {
    calc {
      free + (pushed + morePushed);
      (free + pushed) + morePushed;
      popped + (next + morePushed);
      (popped + morePopped) + last;
    }
  }

  // ----- conservation -----

  function Located(s: State, loc: Location): set<nat> {
    set id | id in s.blocks && s.blocks[id].location == loc
  }

  function HeldAt(s: State, loc: Location): set<nat> {
    set id | id in s.blocks && s.blocks[id].location == loc && s.blocks[id].refCount > 0
  }

  function Elements(ids: seq<nat>): set<nat> {
    set id | id in ids
  }

  lemma {:induction false} DistinctSize(ids: seq<nat>)
    requires Distinct(ids)
    ensures |Elements(ids)| == |ids|
  {
    if |ids| > 0 {
      var rest := ids[1..];
      DistinctSize(rest);
      FirstAndRest(ids, rest);
    }
  }

  lemma FirstAndRest(ids: seq<nat>, rest: seq<nat>)
    requires |ids| > 0 && rest == ids[1..] && Distinct(ids)
    ensures Elements(ids) == {ids[0]} + Elements(rest) && ids[0] !in Elements(rest)
  {
    assert ids == [ids[0]] + rest;
  }

  /** Free and held blocks of a location add up to all its blocks. */
  lemma Conservation(s: State, handles: multiset<nat>, loc: Location)
    requires Consistent(s, handles)
    ensures |s.Free(loc)| + |HeldAt(s, loc)| == |Located(s, loc)|
  {
    assert ListExact(s, loc);
    var free, held := Elements(s.Free(loc)), HeldAt(s, loc);
    DistinctSize(s.Free(loc));
    assert free + held == Located(s, loc);
    assert free !! held;
    assert |free + held| == |free| + |held|;
  }

  /** The set of blocks of a location is the same after every run. */
  lemma {:induction false} RunLocated(s: State, ops: seq<Op>, loc: Location)
    requires Formed(s) && AllNamed(s, ops)
    ensures Located(Run(s, ops), loc) == Located(s, loc)
    decreases |ops|
  {
    if |ops| > 0 {
      NextNamed(s, ops);
      assert Managed(s, ops[0].Named());
      StepFormed(s, ops[0]);
      RunLocated(Step(s, ops[0]), ops[1..], loc);
      assert Located(Step(s, ops[0]), loc) == Located(s, loc);
    }
  }
}
