/**
 All histories of src/memory/mempool.c as it is written, however many slabs they use:
 what still holds in them, and what destroying the pool then does.
 */
module MempoolAsWrittenRuns {
  import opened Seqs
  import opened SlabSizing
  import opened SlabMem
  import opened SlabSums
  import opened MempoolState
  import opened MempoolRuns
  import opened MempoolAsWritten

  // -------------------------------------------------------------- the invariant

  /** Every slab is on exactly one list, and on the empty one exactly if nothing in it is used. */
  ghost predicate Listed(p: Pool) {
    && NoDup(p.partial) && NoDup(p.full) && NoDup(p.empty)
    && (forall id :: id in p.partial || id in p.full || id in p.empty <==> id in p.mem)
    && (forall id :: !(id in p.partial && id in p.full))
    && (forall id :: id in p.empty ==> id !in p.partial && id !in p.full)
    && (forall id :: id in p.mem ==> (id in p.empty <==> p.mem[id].used == 0))
  }

  /** Line 296 never clears last_free_idx, so it stays what slab_alloc has set. */
  ghost predicate TailsStuck(p: Pool) {
    forall id :: id in p.mem ==> p.mem[id].lastFreeIdx == p.geo.num - 1
  }

  ghost predicate AsWrittenOk(p: Pool) {
    Tracked(p) && Listed(p) && TailsStuck(p)
  }

  lemma ListedMeansUsedListed(p: Pool)
    requires Listed(p)
    ensures UsedListed(p)
  {
    forall id | id in p.mem && p.mem[id].used > 0 ensures id in p.partial || id in p.full {
      assert id in p.empty <==> p.mem[id].used == 0;
    }
  }

  /** A slab that moves to the list of its new use, or stays because its use is of the same kind. */
  lemma MoveKeepsListed(p: Pool, id: SlabId, s: Slab, to: ListName)
    requires Listed(p) && id in p.mem && (to.EmptyList? <==> s.used == 0)
    ensures Listed(MoveList(p.(mem := p.mem[id := s]), id, to))
  {
    var p' := MoveList(p.(mem := p.mem[id := s]), id, to);
    MovedMembers(p.partial, id, to.PartialList?, p'.partial);
    MovedMembers(p.full, id, to.FullList?, p'.full);
    MovedMembers(p.empty, id, to.EmptyList?, p'.empty);
    MovedListed(p, id, s, to, p');
  }

  /** q' is q with the slab on it exactly if here. */
  ghost predicate MovedList(q: seq<SlabId>, id: SlabId, here: bool, q': seq<SlabId>) {
    NoDup(q') && forall x :: x in q' <==> if x == id then here else x in q
  }

  lemma MovedMembers(q: seq<SlabId>, id: SlabId, here: bool, q': seq<SlabId>)
    requires NoDup(q) && q' == (if here then [id] else []) + Without(q, id)
    ensures MovedList(q, id, here, q')
  {
    WithoutOne(q, id);
    NoDupHead(id, Without(q, id));
  }

  lemma MovedListed(p: Pool, id: SlabId, s: Slab, to: ListName, p': Pool)
    requires Listed(p) && id in p.mem && p'.mem == p.mem[id := s] && (to.EmptyList? <==> s.used == 0)
    requires MovedList(p.partial, id, to.PartialList?, p'.partial)
    requires MovedList(p.full, id, to.FullList?, p'.full)
    requires MovedList(p.empty, id, to.EmptyList?, p'.empty)
    ensures Listed(p')
  {
  }

  lemma NoDupHead(id: SlabId, q: seq<SlabId>)
    requires NoDup(q) && id !in q
    ensures NoDup([id] + q) && [] + q == q
  {
  }

  lemma StayKeepsListed(p: Pool, id: SlabId, s: Slab)
    requires Listed(p) && id in p.mem && (s.used == 0 <==> p.mem[id].used == 0)
    ensures Listed(p.(mem := p.mem[id := s]))
  {
  }

  /** Replacing a slab by one that is chained and laid in the same block. */
  lemma ReplaceTracked(p: Pool, id: SlabId, s: Slab, p': Pool)
    requires AsWrittenOk(p) && id in p.mem && p'.geo == p.geo && p'.mem == p.mem[id := s]
    requires Chained(p.geo, s, FreeChain(s)) && Laid(p.geo, s) && s.sBase == p.mem[id].sBase
    requires s.lastFreeIdx == p.geo.num - 1 && CurOk(p')
    requires p'.slabNums == p.slabNums && p'.totalObjs == p.totalObjs
    requires p'.usedObjs == p.usedObjs - p.mem[id].used + s.used
    requires p'.freeObjs == p.freeObjs - p.mem[id].free + s.free
    requires Listed(p')
    ensures AsWrittenOk(p')
  {
    PutChain(p, id, s, p');
    SameBlocks(p, p');
    ReplaceCounts(p, id, s, p');
    ListedMeansUsedListed(p');
  }

  lemma PutChain(p: Pool, id: SlabId, s: Slab, p': Pool)
    requires ChainsOk(p) && TailsStuck(p) && p'.geo == p.geo && p'.mem == p.mem[id := s]
    requires Chained(p.geo, s, FreeChain(s)) && Laid(p.geo, s) && s.lastFreeIdx == p.geo.num - 1
    ensures ChainsOk(p') && TailsStuck(p')
  {
  }

  // ---------------------------------------------------------------- the steps

  lemma TakeAsWrittenFields(p: Pool, id: SlabId)
    requires id in p.mem && 0 <= p.mem[id].freeIdx < |p.mem[id].freelist|
    ensures var s, s', p' := p.mem[id], TakeObj(p.mem[id], AsWritten), AllocFrom(p, id, AsWritten);
            && p'.geo == p.geo && p'.mem == p.mem[id := s'] && p'.cur == p.cur
            && p'.slabNums == p.slabNums && p'.totalObjs == p.totalObjs
            && p'.usedObjs == p.usedObjs + 1 && p'.freeObjs == p.freeObjs - 1
            && s'.used == s.used + 1 && s'.free == s.free - 1 && s'.lastFreeIdx == s.lastFreeIdx
            && s'.sBase == s.sBase && s'.objBase == s.objBase && s'.objEnd == s.objEnd
  {
  }

  lemma TakeAsWrittenLists(p: Pool, id: SlabId)
    requires Listed(p) && id in p.mem && 0 <= p.mem[id].freeIdx < |p.mem[id].freelist| && p.mem[id].used >= 0
    ensures Listed(AllocFrom(p, id, AsWritten))
  {
    var s, s' := p.mem[id], TakeObj(p.mem[id], AsWritten);
    var p1 := p.(mem := p.mem[id := s']);
    if s.freeIdx == s.lastFreeIdx {
      MoveKeepsListed(p, id, s', FullList);
      var p2 := MoveList(p1, id, FullList);
      if s'.used == 1 {
        assert p2.mem[id := s'] == p2.mem;
        MoveKeepsListed(p2, id, s', PartialList);
      }
    } else if s'.used == 1 {
      MoveKeepsListed(p, id, s', PartialList);
    } else {
      StayKeepsListed(p, id, s');
    }
  }

  lemma TakeAsWrittenOk(p: Pool, id: SlabId)
    requires AsWrittenOk(p) && id in p.mem && p.mem[id].free > 0
    ensures TakeFrom(p, id, AsWritten).1.Some? && AsWrittenOk(TakeFrom(p, id, AsWritten).0)
  {
    TakeObjChained(p.geo, p.mem[id], AsWritten);
    PoolCounts(p, id);
    TakeAsWrittenFields(p, id);
    TakeAsWrittenLists(p, id);
    ReplaceTracked(p, id, TakeObj(p.mem[id], AsWritten), AllocFrom(p, id, AsWritten));
  }

  lemma NewSlabKeepsListed(p: Pool, id: SlabId, sBase: int)
    requires Listed(p) && GeometryOk(p.geo) && id !in p.mem
    ensures Listed(SlabAlloc(p, id, sBase))
  {
    NoDupHead(id, p.empty);
  }

  lemma SlabAllocAsWritten(p: Pool, id: SlabId, sBase: int)
    requires AsWrittenOk(p) && SysOk(p, Some((id, sBase)))
    ensures AsWrittenOk(SlabAlloc(p, id, sBase))
  {
    var p', s := SlabAlloc(p, id, sBase), NewSlab(p.geo, sBase);
    NewSlabOk(p.geo, sBase);
    PutChain(p, id, s, p');
    OneBlockMore(p, id, s, p');
    SlabAllocCounts(p, id, s, p');
    NewSlabKeepsListed(p, id, sBase);
    ListedMeansUsedListed(p');
  }

  lemma FoundHasFree(p: Pool)
    requires AsWrittenOk(p)
    ensures FindSlab(p).Some? ==> FindSlab(p).value in p.mem && p.mem[FindSlab(p).value].free > 0
  {
    FirstFreeFinds(p.partial, p.mem);
    FirstFreeFinds(p.empty, p.mem);
    if p.cur.Some? {
      PoolCounts(p, p.cur.value);
    }
  }

  lemma CurIsFree(p: Pool, id: SlabId)
    requires AsWrittenOk(p) && id in p.mem
    ensures AsWrittenOk(p.(cur := Some(id)))
  {
  }

  lemma AllocAsWrittenOk(p: Pool, sys: Option<(SlabId, int)>)
    requires AsWrittenOk(p) && SysOk(p, sys)
    ensures AsWrittenOk(Alloc(p, AsWritten, sys).0)
  {
    if p.freeObjs == 0 {
      if sys.Some? {
        var (id, sBase) := sys.value;
        SlabAllocAsWritten(p, id, sBase);
        TakeAsWrittenOk(SlabAlloc(p, id, sBase), id);
      }
    } else {
      FoundHasFree(p);
      if FindSlab(p).Some? {
        CurIsFree(p, FindSlab(p).value);
        TakeAsWrittenOk(p.(cur := FindSlab(p)), FindSlab(p).value);
      }
    }
  }

  lemma FreeAsWrittenOk(p: Pool, id: SlabId, i: int)
    requires AsWrittenOk(p) && Live(p, id, i)
    ensures |p.mem[id].freelist| == p.geo.num
    ensures FreeObj(p, id, i, AsWritten).Some? ==> AsWrittenOk(FreeObj(p, id, i, AsWritten).value)
  {
    FreeAsWrittenIff(p, id, i);
    if FreeObj(p, id, i, AsWritten).Some? {
      FreeMovesFields(p, id, i, AsWritten);
      PutObjChained(p.geo, p.mem[id], i);
      PutListed(p, id, i);
      ReplaceTracked(p, id, PutObj(p.mem[id], i), FreeObj(p, id, i, AsWritten).value);
    }
  }

  lemma PutListed(p: Pool, id: SlabId, i: int)
    requires Listed(p) && id in p.mem && 0 <= i < |p.mem[id].freelist| && p.mem[id].used > 0
    ensures var s := PutObj(p.mem[id], i);
            var m := p.(mem := p.mem[id := s]);
            Listed(if p.mem[id].used == 1 then MoveList(m, id, EmptyList) else m)
  {
    var s := PutObj(p.mem[id], i);
    if p.mem[id].used == 1 {
      MoveKeepsListed(p, id, s, EmptyList);
    } else {
      StayKeepsListed(p, id, s);
    }
  }

  lemma AsWrittenStep(p: Pool, op: Op, p': Pool)
    requires AsWrittenOk(p) && Step(p, op, AsWritten, p')
    ensures AsWrittenOk(p')
  {
    match op
    case AllocOp(sys) => AllocAsWrittenOk(p, sys);
    case FreeOp(id, i) => FreeAsWrittenOk(p, id, i);
  }

  lemma AsWrittenSteps()
    ensures forall p, op, p' :: AsWrittenOk(p) && Step(p, op, AsWritten, p') ==> AsWrittenOk(p')
  {
    forall p, op, p' | AsWrittenOk(p) && Step(p, op, AsWritten, p') ensures AsWrittenOk(p') {
      AsWrittenStep(p, op, p');
    }
  }

  /** After every history as written: right free chains, layout and counters, and every slab on one list. */
  lemma AsWrittenKeeps(ps: seq<Pool>, ops: seq<Op>, k: nat)
    requires IsHistory(ps, ops, AsWritten) && k <= |ops|
    ensures AsWrittenOk(ps[k])
  {
    AsWrittenSteps();
    HistoryInduction(ps, ops, AsWritten, AsWrittenOk, k);
  }

  /**
   As written too, mempool_free finds the owner and the slot of every live object, so
   that a free in a history is mempool_free of the object's address.
   */
  lemma AsWrittenFindsOwner(ps: seq<Pool>, ops: seq<Op>, k: nat, id: SlabId, i: int)
    requires IsHistory(ps, ops, AsWritten) && k <= |ops| && Live(ps[k], id, i)
    ensures ps[k].geo.size > 0
    ensures var obj := ObjAddr(ps[k].geo, ps[k].mem[id], i);
            FindObjSlab(ps[k], obj) == Some(id) && SlotOf(ps[k].geo, ps[k].mem[id], obj) == i
  {
    AsWrittenKeeps(ps, ops, k);
    FindObjSlabExact(ps[k], id, i);
  }

  // --------------------------------------------------------------- the teardown

  /** What the releasing loop works on: sound chains, and counters that still count used objects as before. */
  ghost predicate Releasable(p: Pool, used: int) {
    && GeometryOk(p.geo) && ChainsOk(p)
    && p.slabNums == |p.mem| && p.totalObjs == |p.mem| * p.geo.num
    && p.usedObjs == used && p.freeObjs == |p.mem| * p.geo.num - used
  }

  lemma ReleaseOne(p: Pool, id: SlabId, used: int)
    requires Releasable(p, used) && id in p.mem
    ensures |p.mem[id].freelist| == p.geo.num && UsedSlots(p.mem[id], AsWritten, p.geo.num) == []
    ensures Releasable(FreeOneSlab(p, id, AsWritten), used)
  {
    UsedSlotsAsWrittenEmpty(p.geo, p.mem[id], p.geo.num);
    OneSlabLess(p.mem, id, p.geo.num);
  }

  /** Releasing slabs as written calls no destructor and leaves used_objs alone. */
  lemma {:induction false} ReleaseAsWritten(p: Pool, ids: seq<SlabId>, used: int)
    requires Releasable(p, used) && NoDup(ids) && forall id :: id in ids ==> id in p.mem
    ensures FreeSlabs(p, ids, AsWritten).1 == [] && Releasable(FreeSlabs(p, ids, AsWritten).0, used)
    ensures forall id :: id in FreeSlabs(p, ids, AsWritten).0.mem <==> id in p.mem && id !in ids
    decreases |ids|
  {
    if ids != [] {
      FirstAndRest(ids);
      ReleaseOne(p, ids[0], used);
      ReleaseAsWritten(FreeOneSlab(p, ids[0], AsWritten), ids[1..], used);
      assert forall id :: id in ids <==> id == ids[0] || id in ids[1..];
    }
  }

  lemma ListedOnce(p: Pool)
    requires Listed(p)
    ensures NoDup(AllSlabs(p)) && forall id :: id in AllSlabs(p) <==> id in p.mem
  {
    AppendApart(p.partial, p.full);
    AppendApart(p.partial + p.full, p.empty);
  }

  lemma TrackedReleasable(p: Pool)
    requires Tracked(p)
    ensures Releasable(p, p.usedObjs) && p.usedObjs >= 0
    ensures p.usedObjs > 0 ==> exists id :: id in p.mem && p.mem[id].used > 0
    ensures p.usedObjs == 0 ==> forall id :: id in p.mem ==> p.mem[id].used == 0
  {
    forall k | k in p.mem ensures UsedOf(p.mem[k]) >= 0 && UsedOf(p.mem[k]) + FreeOf(p.mem[k]) == p.geo.num {
      PoolCounts(p, k);
    }
    SumBounds(p.mem, UsedOf);
    SumSplit(p.mem, UsedOf, FreeOf, p.geo.num);
    if p.usedObjs > 0 {
      var k :| k in p.mem && UsedOf(p.mem[k]) > 0;
      assert p.mem[k].used > 0;
    }
    forall k | k in p.mem && p.usedObjs == 0 ensures p.mem[k].used == 0 {
      assert UsedOf(p.mem[k]) == p.mem[k].used;
    }
  }

  /** Some object is live exactly if used_objs is not 0. */
  lemma LiveIffUsed(p: Pool)
    requires Tracked(p)
    ensures (exists id, i :: Live(p, id, i)) <==> p.usedObjs != 0
  {
    TrackedReleasable(p);
    if p.usedObjs != 0 {
      var id :| id in p.mem && p.mem[id].used > 0;
      UsedIffLive(p.geo, p.mem[id]);
      var i :| IsUsed(p.mem[id], i);
      assert Live(p, id, i);
    }
    if id, i :| Live(p, id, i) {
      UsedMeansCounted(p.geo, p.mem[id], i);
    }
  }

  lemma DestroyTracked(p: Pool)
    requires Tracked(p) && Listed(p)
    ensures var (q, log) := FreeSlabs(p, AllSlabs(p), AsWritten);
            && log == [] && q.mem == map[] && q.slabNums == q.totalObjs == 0
            && q.usedObjs == p.usedObjs && q.freeObjs == -p.usedObjs
  {
    ListedOnce(p);
    TrackedReleasable(p);
    ReleaseAll(p, AllSlabs(p), p.usedObjs);
  }

  lemma ReleaseAll(p: Pool, ids: seq<SlabId>, used: int)
    requires Releasable(p, used) && NoDup(ids) && forall id :: id in ids <==> id in p.mem
    ensures var (q, log) := FreeSlabs(p, ids, AsWritten);
            && log == [] && q.mem == map[] && q.slabNums == q.totalObjs == 0
            && q.usedObjs == used && q.freeObjs == -used
  {
    ReleaseAsWritten(p, ids, used);
    NothingLeft(FreeSlabs(p, ids, AsWritten).0, used);
  }

  lemma NothingLeft(q: Pool, used: int)
    requires Releasable(q, used) && forall id :: id !in q.mem
    ensures q.mem == map[] && q.slabNums == q.totalObjs == 0 && q.usedObjs == used && q.freeObjs == -used
  {
    assert q.mem == map[];
  }

  lemma LiveAddrIffUsed(p: Pool)
    requires Tracked(p) && Listed(p)
    ensures (forall obj :: !LiveAddr(p, AllSlabs(p), obj)) <==> p.usedObjs == 0
  {
    ListedOnce(p);
    LiveIffUsed(p);
    NobodyLive(p);
  }

  /**
   Destroying the pool after any history as written: all slabs are released, no
   destructor is called, used_objs keeps the number of objects held and free_objs ends
   as far below zero.  So the destructor runs on exactly the live objects if and only
   if the program holds none.
   */
  lemma DestroyAsWrittenIff(ps: seq<Pool>, ops: seq<Op>)
    requires IsHistory(ps, ops, AsWritten)
    ensures var p, held := ps[|ops|], Held(ps, ops, AsWritten, |ops|);
            var (q, log) := FreeSlabs(p, AllSlabs(p), AsWritten);
            && log == [] && q.mem == map[] && q.slabNums == q.totalObjs == 0
            && q.usedObjs == held && q.freeObjs == -held
            && ((forall obj :: obj in log <==> LiveAddr(p, AllSlabs(p), obj)) <==> held == 0)
  {
    AsWrittenDestroyable(ps, ops);
    HeldIsUsed(ps, ops, |ops|);
    DestroyTracked(ps[|ops|]);
    LiveAddrIffUsed(ps[|ops|]);
  }

  lemma AsWrittenDestroyable(ps: seq<Pool>, ops: seq<Op>)
    requires IsHistory(ps, ops, AsWritten)
    ensures Tracked(ps[|ops|]) && Listed(ps[|ops|])
  {
    AsWrittenKeeps(ps, ops, |ops|);
  }

  lemma NobodyLive(p: Pool)
    requires forall id :: id in AllSlabs(p) <==> id in p.mem
    ensures (forall obj :: !LiveAddr(p, AllSlabs(p), obj)) <==> !exists id, i :: Live(p, id, i)
  {
    forall id, i | Live(p, id, i) ensures LiveAddr(p, AllSlabs(p), ObjAddr(p.geo, p.mem[id], i)) {
      assert id in AllSlabs(p);
    }
  }

  lemma OneObjectHistory(g: Geometry) returns (ps: seq<Pool>, ops: seq<Op>)
    requires GeometryOk(g)
    ensures HoldsAtMost(ps, ops, AsWritten, 1) && ps[0].geo == g && Held(ps, ops, AsWritten, |ops|) == 1
  {
    ps, ops := [NewPool(g), One(g, 1)], [AllocOp(FirstBlock(0))];
    OneStep(g, 0);
    assert IsHistory(ps, ops, AsWritten);
    HeldIsUsed(ps, ops, 0);
    HeldIsUsed(ps, ops, 1);
  }

  /** One allocation is enough: its object is live and never destroyed. */
  lemma LostDestructorHistory(g: Geometry) returns (ps: seq<Pool>, ops: seq<Op>)
    requires GeometryOk(g)
    ensures HoldsAtMost(ps, ops, AsWritten, 1) && ps[0].geo == g
    ensures var p := ps[|ops|];
            (exists obj :: LiveAddr(p, AllSlabs(p), obj)) && FreeSlabs(p, AllSlabs(p), AsWritten).1 == []
  {
    ps, ops := OneObjectHistory(g);
    DestroyAsWrittenIff(ps, ops);
  }
}
