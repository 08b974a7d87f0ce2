/**
 What the three statements of src/memory/mempool.c do as they are written: when one
 call still does what is meant, and up to how many objects a program may hold at a
 time so that no history of calls goes wrong.
 */
module MempoolAsWritten {
  import opened Seqs
  import opened SlabSizing
  import opened SlabMem
  import opened SlabSums
  import opened MempoolState
  import opened MempoolRuns

  // ------------------------------------------------------------------ one call

  /** Line 296: an allocation keeps a pool in order exactly when it does not take a slab's last free object. */
  lemma AllocAsWrittenIff(p: Pool, id: SlabId)
    requires PoolOk(p) && id in p.mem && p.mem[id].free > 0
    ensures 0 <= p.mem[id].freeIdx < |p.mem[id].freelist|
    ensures PoolOk(AllocFrom(p, id, AsWritten)) <==> p.mem[id].freeIdx != p.mem[id].lastFreeIdx
    ensures p.mem[id].freeIdx != p.mem[id].lastFreeIdx ==> AllocFrom(p, id, AsWritten) == AllocFrom(p, id, Intended)
  {
    TakeObjAsWrittenIff(p.geo, p.mem[id]);
    AllocFromKeeps(p, id);
    if p.mem[id].freeIdx == p.mem[id].lastFreeIdx {
      BadSlabBadPool(AllocFrom(p, id, AsWritten), id);
    } else {
      SameTakeSameAlloc(p, id);
    }
  }

  lemma SameTakeSameAlloc(p: Pool, id: SlabId)
    requires id in p.mem && 0 <= p.mem[id].freeIdx < |p.mem[id].freelist|
    requires TakeObj(p.mem[id], AsWritten) == TakeObj(p.mem[id], Intended)
    ensures AllocFrom(p, id, AsWritten) == AllocFrom(p, id, Intended)
  {
  }

  lemma BadSlabBadPool(q: Pool, id: SlabId)
    requires id in q.mem && !SlabOk(q.geo, q.mem[id])
    ensures !PoolOk(q)
  {
  }

  /**
   Line 424: in any state, in order or not, a free goes on to read the slab it has
   released exactly when it frees the slab's last object while another slab is
   empty; otherwise it is the intended free.
   */
  lemma FreeAsWrittenIff(p: Pool, id: SlabId, i: int)
    requires id in p.mem && 0 <= i < |p.mem[id].freelist| && 0 <= p.geo.num <= |p.mem[id].freelist|
    ensures FreeObj(p, id, i, AsWritten).None? <==> p.mem[id].used == 1 && p.empty != []
    ensures FreeObj(p, id, i, AsWritten) == FreeObj(p, id, i, Intended) <==> !(p.mem[id].used == 1 && p.empty != [])
  {
  }

  /**
   Had only the read at line 430 been repaired, the pool would keep the released
   slab as its current one, which the next allocation reads, exactly if it was current.
   */
  lemma CurDanglesIff(p: Pool, id: SlabId, i: int)
    requires PoolOk(p) && Live(p, id, i)
    ensures 0 <= i < |p.mem[id].freelist| == p.geo.num && FreeObj(p, id, i, Intended).Some?
    ensures CurOk(FreeObj(p, id, i, Intended).value.(cur := p.cur))
            <==> !(p.mem[id].used == 1 && p.empty != [] && p.cur == Some(id))
  {
    FreeBranch(p, id, i);
    if p.mem[id].used == 1 && p.empty != [] {
      FreeReleasesOk(p, id, i);
    } else {
      FreeMovesOk(p, id, i, Intended);
    }
  }

  /**
   Line 382: in any state with a right free chain the teardown of a slab calls no
   destructor and leaves used_objs alone; it is right exactly for slabs without used objects.
   */
  lemma TeardownAsWrittenIff(p: Pool, id: SlabId)
    requires GeometryOk(p.geo) && id in p.mem && Chained(p.geo, p.mem[id], FreeChain(p.mem[id]))
    ensures |p.mem[id].freelist| == p.geo.num
    ensures UsedSlots(p.mem[id], AsWritten, p.geo.num) == []
    ensures (forall i :: i in UsedSlots(p.mem[id], AsWritten, p.geo.num) <==> IsUsed(p.mem[id], i))
            <==> p.mem[id].used == 0
    ensures FreeOneSlab(p, id, AsWritten).usedObjs == p.usedObjs
    ensures SlabOk(p.geo, p.mem[id]) ==>
              (FreeOneSlab(p, id, AsWritten) == FreeOneSlab(p, id, Intended) <==> p.mem[id].used == 0)
  {
    var s := p.mem[id];
    UsedSlotsAsWrittenEmpty(p.geo, s, p.geo.num);
    UsedIffLive(p.geo, s);
    if SlabOk(p.geo, s) {
      TeardownExact(p.geo, s);
      SameTeardown(p, id);
    }
  }

  lemma SameTeardown(p: Pool, id: SlabId)
    requires id in p.mem && 0 <= p.geo.num <= |p.mem[id].freelist|
    requires UsedSlots(p.mem[id], AsWritten, p.geo.num) == []
    ensures FreeOneSlab(p, id, AsWritten) == FreeOneSlab(p, id, Intended)
            <==> |UsedSlots(p.mem[id], Intended, p.geo.num)| == 0
  {
  }

  /** A slab counts a used object exactly if some slot is in use. */
  lemma UsedIffLive(g: Geometry, s: Slab)
    requires GeometryOk(g) && Chained(g, s, FreeChain(s))
    ensures s.used >= 0 && (s.used > 0 <==> exists i :: IsUsed(s, i))
  {
    SlabCounts(g, s);
    if s.used > 0 {
      OffChainCount(FreeChain(s), g.num);
      OffChainMembers(FreeChain(s), g.num);
      var i := OffChain(FreeChain(s), g.num)[0];
      assert i in OffChain(FreeChain(s), g.num);
      assert IsUsed(s, i);
    }
    if i :| IsUsed(s, i) {
      UsedMeansCounted(g, s, i);
    }
  }

  // ------------------------------------------------------------- what goes wrong

  /** A free object exists, but the next allocation returns NULL, whatever memory the system has. */
  ghost predicate Stranded(p: Pool, mode: Mode) {
    && p.geo.align > 0 && p.geo.num > 0 && CurOk(p) && p.freeObjs > 0
    && forall sys :: Alloc(p, mode, sys).1.None?
  }

  /** Freeing some live object reads a slab that the same call has released. */
  ghost predicate ReadsReleased(p: Pool, mode: Mode) {
    exists id, i :: Live(p, id, i) && 0 <= p.geo.num <= |p.mem[id].freelist| && FreeObj(p, id, i, mode).None?
  }

  /** The objects a program holds after k calls: allocations that returned one, less frees. */
  ghost function Held(ps: seq<Pool>, ops: seq<Op>, mode: Mode, k: nat): int
    requires IsHistory(ps, ops, mode) && k <= |ops|
  {
    if k == 0 then 0
    else
      Held(ps, ops, mode, k - 1) +
      match ops[k - 1]
      case AllocOp(sys) =>
        assert Step(ps[k - 1], ops[k - 1], mode, ps[k - 1 + 1]);
        if Alloc(ps[k - 1], mode, sys).1.Some? then 1 else 0
      case FreeOp(_, _) => -1
  }

  /** A history in which the program never holds more than limit objects. */
  ghost predicate HoldsAtMost(ps: seq<Pool>, ops: seq<Op>, mode: Mode, limit: nat) {
    IsHistory(ps, ops, mode) && forall k: nat :: k <= |ops| ==> Held(ps, ops, mode, k) <= limit
  }

  ghost predicate NeverStrands(g: Geometry, mode: Mode, limit: nat) {
    forall ps: seq<Pool>, ops: seq<Op> ::
      HoldsAtMost(ps, ops, mode, limit) && ps[0].geo == g ==> !Stranded(ps[|ops|], mode)
  }

  ghost predicate NeverReadsReleased(g: Geometry, mode: Mode, limit: nat) {
    forall ps: seq<Pool>, ops: seq<Op> ::
      HoldsAtMost(ps, ops, mode, limit) && ps[0].geo == g ==> !ReadsReleased(ps[|ops|], mode)
  }

  // -------------------------------------- the counter used_objs, in either mode

  lemma StepCounts(p: Pool, op: Op, mode: Mode, p': Pool)
    requires Step(p, op, mode, p')
    ensures p'.geo == p.geo
    ensures op.AllocOp? ==> p'.usedObjs == p.usedObjs + if Alloc(p, mode, op.sys).1.Some? then 1 else 0
    ensures op.FreeOp? && FreeObj(p, op.id, op.i, AsWritten).Some? ==> p'.usedObjs == p.usedObjs - 1
  {
    if op.FreeOp? {
      FreeAsWrittenIff(p, op.id, op.i);
    }
  }

  /** As written, used_objs is the number of objects the program holds. */
  lemma {:induction false} HeldIsUsed(ps: seq<Pool>, ops: seq<Op>, k: nat)
    requires IsHistory(ps, ops, AsWritten) && k <= |ops|
    ensures Held(ps, ops, AsWritten, k) == ps[k].usedObjs && ps[k].geo == ps[0].geo
  {
    if k > 0 {
      HeldIsUsed(ps, ops, k - 1);
      assert Step(ps[k - 1], ops[k - 1], AsWritten, ps[k - 1 + 1]);
      StepCounts(ps[k - 1], ops[k - 1], AsWritten, ps[k]);
    }
  }

  // --------------------------------- as long as one slab holds all the objects

  /**
   The only slab is the current one.  Its last_free_idx and its list may be wrong,
   but its chain, the counters and the empty list are right.
   */
  ghost predicate OneSlab(p: Pool, id: SlabId) {
    && GeometryOk(p.geo) && p.mem.Keys == {id} && p.cur == Some(id)
    && Chained(p.geo, p.mem[id], FreeChain(p.mem[id])) && p.mem[id].lastFreeIdx == p.geo.num - 1
    && p.usedObjs == p.mem[id].used && p.freeObjs == p.mem[id].free
    && p.empty == (if p.mem[id].used == 0 then [id] else [])
  }

  ghost predicate AtMostOneSlab(p: Pool) {
    (GeometryOk(p.geo) && p == NewPool(p.geo)) || exists id :: OneSlab(p, id)
  }

  lemma OneSlabCounts(p: Pool, id: SlabId)
    requires OneSlab(p, id)
    ensures 0 <= p.mem[id].free <= p.geo.num && 0 <= p.mem[id].used <= p.geo.num
  {
    Pigeonhole(FreeChain(p.mem[id]), p.geo.num);
  }

  lemma FirstSlab(p: Pool, id: SlabId, sBase: int)
    requires GeometryOk(p.geo) && p == NewPool(p.geo)
    ensures OneSlab(SlabAlloc(p, id, sBase), id)
  {
    NewSlabOk(p.geo, sBase);
  }

  lemma TakeInOneSlab(p: Pool, id: SlabId)
    requires OneSlab(p, id) && p.mem[id].free > 0
    ensures TakeFrom(p, id, AsWritten).1.Some? && OneSlab(TakeFrom(p, id, AsWritten).0, id)
  {
    OneSlabCounts(p, id);
    TakeObjChained(p.geo, p.mem[id], AsWritten);
    WithoutSame(id);
    var p' := AllocFrom(p, id, AsWritten);
    assert p'.mem == p.mem[id := TakeObj(p.mem[id], AsWritten)];
    assert p'.empty == [];
  }

  lemma WithoutSame(id: SlabId)
    ensures Without([id], id) == [] && Without([], id) == []
  {
  }

  lemma FreeInOneSlab(p: Pool, id: SlabId, jd: SlabId, i: int)
    requires OneSlab(p, id) && Live(p, jd, i)
    ensures jd == id && 0 <= i < |p.mem[id].freelist| == p.geo.num
    ensures FreeObj(p, id, i, AsWritten).Some? && OneSlab(FreeObj(p, id, i, AsWritten).value, id)
  {
    assert jd in p.mem.Keys;
    OneSlabCounts(p, id);
    UsedMeansCounted(p.geo, p.mem[id], i);
    PutObjChained(p.geo, p.mem[id], i);
    FreeMovesFields(p, id, i, AsWritten);
  }

  /** No step leaves this state while the program holds at most the objects of a slab. */
  lemma OneSlabStep(p: Pool, op: Op, p': Pool)
    requires AtMostOneSlab(p) && Step(p, op, AsWritten, p') && p'.usedObjs <= p.geo.num
    ensures AtMostOneSlab(p')
  {
    if id :| OneSlab(p, id) {
      OneSlabCounts(p, id);
      match op
      case AllocOp(sys) =>
        if p.freeObjs > 0 {
          TakeInOneSlab(p, id);
        }
      case FreeOp(jd, i) => FreeInOneSlab(p, id, jd, i);
    } else if op.AllocOp? && op.sys.Some? {
      var (id, sBase) := op.sys.value;
      FirstSlab(p, id, sBase);
      TakeInOneSlab(SlabAlloc(p, id, sBase), id);
    }
  }

  lemma {:induction false} OneSlabHistory(g: Geometry, ps: seq<Pool>, ops: seq<Op>, k: nat)
    requires g.num >= 0 && HoldsAtMost(ps, ops, AsWritten, g.num) && ps[0].geo == g && k <= |ops|
    ensures AtMostOneSlab(ps[k])
  {
    if k > 0 {
      OneSlabHistory(g, ps, ops, k - 1);
      HeldIsUsed(ps, ops, k - 1);
      HeldIsUsed(ps, ops, k);
      assert Step(ps[k - 1], ops[k - 1], AsWritten, ps[k - 1 + 1]);
      OneSlabStep(ps[k - 1], ops[k - 1], ps[k]);
    }
  }

  lemma OneSlabWorks(p: Pool)
    requires AtMostOneSlab(p)
    ensures !Stranded(p, AsWritten) && !ReadsReleased(p, AsWritten)
  {
    if id :| OneSlab(p, id) {
      OneSlabCounts(p, id);
      if p.freeObjs > 0 {
        TakeInOneSlab(p, id);
        assert Alloc(p, AsWritten, None).1.Some?;
      }
      forall jd, i | Live(p, jd, i) ensures FreeObj(p, jd, i, AsWritten).Some? {
        FreeInOneSlab(p, id, jd, i);
      }
    }
  }

  // ------------------------------------- histories that hold one object too many

  /** A slab at sBase from which the objects below k have been taken, with line 296 as written. */
  function Taken(g: Geometry, sBase: int, k: nat): Slab
    requires GeometryOk(g) && k <= g.num
  {
    NewSlab(g, sBase).(freeIdx := if k == g.num then -1 else k, used := k, free := g.num - k,
                       freelist := seq(g.num, i => if i < k || i == g.num - 1 then END else i + 1))
  }

  lemma TakenStep(g: Geometry, sBase: int, k: nat)
    requires GeometryOk(g) && k < g.num
    ensures Taken(g, sBase, k).freeIdx == k
    ensures TakeObj(Taken(g, sBase, k), AsWritten) == Taken(g, sBase, k + 1)
  {
    var s := Taken(g, sBase, k);
    assert s.freelist[k := END] == Taken(g, sBase, k + 1).freelist;
  }

  lemma TakenNew(g: Geometry, sBase: int)
    requires GeometryOk(g)
    ensures Taken(g, sBase, 0) == NewSlab(g, sBase)
  {
    assert Taken(g, sBase, 0).freelist == NewFreelist(g.num);
  }

  lemma TakenChain(g: Geometry, sBase: int, k: nat)
    requires GeometryOk(g) && k <= g.num
    ensures forall i :: IsUsed(Taken(g, sBase, k), i) <==> 0 <= i < k
  {
    var s, c := Taken(g, sBase, k), seq(g.num - k, i => k + i);
    forall i | k <= i < g.num ensures i in c {
      assert c[i - k] == i;
    }
    ChainIsFreeChain(g, s, c);
  }

  /** A slab whose objects have all been taken and then those below k put back, with line 296 as written. */
  function PutBack(g: Geometry, sBase: int, k: nat): Slab
    requires GeometryOk(g) && k <= g.num
  {
    NewSlab(g, sBase).(freeIdx := k - 1, used := g.num - k, free := k,
                       freelist := seq(g.num, i => if 0 < i < k then i - 1 else END))
  }

  lemma PutBackNone(g: Geometry, sBase: int)
    requires GeometryOk(g)
    ensures PutBack(g, sBase, 0) == Taken(g, sBase, g.num)
  {
    assert PutBack(g, sBase, 0).freelist == Taken(g, sBase, g.num).freelist;
  }

  lemma PutBackStep(g: Geometry, sBase: int, k: nat)
    requires GeometryOk(g) && k < g.num
    ensures PutObj(PutBack(g, sBase, k), k) == PutBack(g, sBase, k + 1)
  {
    var s := PutBack(g, sBase, k);
    assert s.freelist[k := ToUShort(k - 1)] == PutBack(g, sBase, k + 1).freelist;
  }

  lemma PutBackChain(g: Geometry, sBase: int, k: nat)
    requires GeometryOk(g) && k <= g.num
    ensures forall i :: IsUsed(PutBack(g, sBase, k), i) <==> k <= i < g.num
  {
    var s, c := PutBack(g, sBase, k), seq(k, i => k - 1 - i);
    forall i | 0 <= i < k ensures i in c {
      assert c[k - 1 - i] == i;
    }
    ChainIsFreeChain(g, s, c);
  }

  /** The pool after k allocations from one slab, which lies at 0. */
  function One(g: Geometry, k: nat): Pool
    requires GeometryOk(g) && k <= g.num
  {
    if k == 0 then NewPool(g)
    else Pool(g, if k < g.num then [0] else [], if k < g.num then [] else [0], [], Some(0), 1, g.num, k, g.num - k,
              map[0 := Taken(g, 0, k)])
  }

  /** Two slabs: a objects have been put back to the first, b taken from the second, which lies behind it. */
  function Two(g: Geometry, a: nat, b: nat): Pool
    requires GeometryOk(g) && a <= g.num && 0 < b <= g.num
  {
    Pool(g, if b < g.num then [1] else [],
         if a == g.num then (if b < g.num then [] else [1]) else if b < g.num then [0] else [1, 0],
         if a < g.num then [] else [0], Some(1), 2, 2 * g.num, g.num - a + b, a + g.num - b,
         map[0 := PutBack(g, 0, a), 1 := Taken(g, g.slabSize, b)])
  }

  /** What the system allocator gives for the k-th allocation. */
  function FirstBlock(k: nat): Option<(SlabId, int)> {
    if k == 0 then Some((0, 0)) else None
  }

  lemma OneStep(g: Geometry, k: nat)
    requires GeometryOk(g) && k < g.num
    ensures Step(One(g, k), AllocOp(FirstBlock(k)), AsWritten, One(g, k + 1))
  {
    TakenStep(g, 0, k);
    if k == 0 {
      TakenNew(g, 0);
      assert map[0 := Taken(g, 0, 0)][0 := Taken(g, 0, 1)] == map[0 := Taken(g, 0, 1)];
    } else {
      assert One(g, k).mem[0 := Taken(g, 0, k + 1)] == map[0 := Taken(g, 0, k + 1)];
    }
  }

  lemma WithoutSmall(a: SlabId, b: SlabId)
    requires a != b
    ensures Without([a], a) == [] && Without([a], b) == [a] && Without([], a) == []
    ensures Without([a, b], a) == [b] && Without([a, b], b) == [a]
  {
  }

  lemma TwoTakeStep(g: Geometry, a: nat, b: nat)
    requires GeometryOk(g) && a <= g.num && 0 < b < g.num
    ensures Step(Two(g, a, b), AllocOp(None), AsWritten, Two(g, a, b + 1))
  {
    TakenStep(g, g.slabSize, b);
    var p, p' := Two(g, a, b), Two(g, a, b + 1);
    TwoTaken(p, TakeObj(p.mem[1], AsWritten));
    assert p.mem[1 := Taken(g, g.slabSize, b + 1)] == p'.mem;
    assert FindSlab(p) == Some(1) && p.(cur := Some(1)) == p;
    assert AllocFrom(p, 1, AsWritten) == p';
  }

  lemma TwoTaken(p: Pool, s: Slab)
    requires p.partial == [1] && p.full in {[0], []} && p.empty in {[0], []}
    ensures var m := MoveList(p, 1, FullList);
            m.partial == [] && m.full == [1] + p.full && m.empty == p.empty
  {
    WithoutSmall(0, 1);
    WithoutSmall(1, 0);
  }

  lemma SecondSlab(g: Geometry)
    requires GeometryOk(g)
    ensures Step(One(g, g.num), AllocOp(Some((1, g.slabSize))), AsWritten, Two(g, 0, 1))
  {
    TakenNew(g, g.slabSize);
    PutBackNone(g, 0);
    var p1 := SlabAlloc(One(g, g.num), 1, g.slabSize);
    assert p1 == Pool(g, [], [0], [1], Some(1), 2, 2 * g.num, g.num, g.num,
                      map[0 := PutBack(g, 0, 0), 1 := Taken(g, g.slabSize, 0)]);
    SecondTaken(g, p1);
  }

  lemma SecondTaken(g: Geometry, p1: Pool)
    requires GeometryOk(g)
    requires p1 == Pool(g, [], [0], [1], Some(1), 2, 2 * g.num, g.num, g.num,
                        map[0 := PutBack(g, 0, 0), 1 := Taken(g, g.slabSize, 0)])
    ensures TakeFrom(p1, 1, AsWritten).0 == Two(g, 0, 1)
  {
    TakenStep(g, g.slabSize, 0);
    WithoutSmall(0, 1);
    WithoutSmall(1, 0);
    assert p1.mem[1 := Taken(g, g.slabSize, 1)] == Two(g, 0, 1).mem;
  }

  lemma TwoPutStep(g: Geometry, a: nat)
    requires GeometryOk(g) && a < g.num
    ensures Step(Two(g, a, 1), FreeOp(0, a), AsWritten, Two(g, a + 1, 1))
  {
    var p, q := Two(g, a, 1), Two(g, a + 1, 1);
    PutBackStep(g, 0, a);
    PutBackChain(g, 0, a);
    assert Live(p, 0, a);
    FreeMovesFields(p, 0, a, AsWritten);
    assert NoteTail(PutBack(g, 0, a + 1), a) == PutBack(g, 0, a + 1);
    assert p.mem[0 := PutBack(g, 0, a + 1)] == q.mem;
    TwoPut(p);
    assert FreeObj(p, 0, a, AsWritten).value == q;
  }

  lemma TwoPut(p: Pool)
    requires p.partial == [1] && p.full == [0] && p.empty == []
    ensures var m := MoveList(p, 0, EmptyList);
            m.partial == [1] && m.full == [] && m.empty == [0]
  {
    WithoutSmall(0, 1);
    WithoutSmall(1, 0);
  }

  /** A history of the code as written that ends in q and never uses more than one object too many. */
  ghost predicate Reaches(g: Geometry, ps: seq<Pool>, ops: seq<Op>, q: Pool) {
    && IsHistory(ps, ops, AsWritten) && ps[0].geo == g && ps[|ops|] == q
    && forall k :: 0 <= k < |ps| ==> ps[k].usedObjs <= g.num + 1
  }

  /** The steps os lead through the pools qs. */
  ghost predicate Leads(g: Geometry, qs: seq<Pool>, os: seq<Op>) {
    && |qs| == |os| + 1
    && (forall k :: 0 <= k < |os| ==> Step(qs[k], os[k], AsWritten, qs[k + 1]))
    && forall k :: 0 <= k < |qs| ==> qs[k].usedObjs <= g.num + 1
  }

  lemma GoOn(g: Geometry, ps: seq<Pool>, ops: seq<Op>, qs: seq<Pool>, os: seq<Op>)
    requires Leads(g, qs, os) && Reaches(g, ps, ops, qs[0])
    ensures Reaches(g, ps + qs[1..], ops + os, qs[|os|])
  {
    var ps', ops' := ps + qs[1..], ops + os;
    forall k | 0 <= k < |ops'| ensures Step(ps'[k], ops'[k], AsWritten, ps'[k + 1]) {
      if k < |ops| {
        assert Step(ps[k], ops[k], AsWritten, ps[k + 1]);
      } else {
        assert ps'[k] == qs[k - |ops|] && ps'[k + 1] == qs[k - |ops| + 1];
      }
    }
    assert ps'[|ops'|] == qs[|os|];
  }

  /** Fill the first slab. */
  lemma FillHistory(g: Geometry) returns (ps: seq<Pool>, ops: seq<Op>)
    requires GeometryOk(g)
    ensures Reaches(g, ps, ops, One(g, g.num))
  {
    ps := seq(g.num + 1, k requires 0 <= k <= g.num => One(g, k));
    ops := seq(g.num, k requires 0 <= k < g.num => AllocOp(FirstBlock(k)));
    forall k | 0 <= k < |ops| ensures Step(ps[k], ops[k], AsWritten, ps[k + 1]) {
      OneStep(g, k);
    }
  }

  /** Then take one object from a second slab. */
  lemma SecondHistory(g: Geometry) returns (ps: seq<Pool>, ops: seq<Op>)
    requires GeometryOk(g)
    ensures Reaches(g, ps, ops, Two(g, 0, 1))
  {
    ps, ops := FillHistory(g);
    var qs, os := [One(g, g.num), Two(g, 0, 1)], [AllocOp(Some((1, g.slabSize)))];
    SecondSlab(g);
    GoOn(g, ps, ops, qs, os);
    ps, ops := ps + qs[1..], ops + os;
  }

  /** Then free n objects of the first slab. */
  lemma DrainHistory(g: Geometry, n: nat) returns (ps: seq<Pool>, ops: seq<Op>)
    requires GeometryOk(g) && n <= g.num
    ensures Reaches(g, ps, ops, Two(g, n, 1))
  {
    ps, ops := SecondHistory(g);
    var qs, os := DrainSteps(g, n);
    GoOn(g, ps, ops, qs, os);
    ps, ops := ps + qs[1..], ops + os;
  }

  lemma DrainSteps(g: Geometry, n: nat) returns (qs: seq<Pool>, os: seq<Op>)
    requires GeometryOk(g) && n <= g.num
    ensures Leads(g, qs, os) && qs[0] == Two(g, 0, 1) && qs[|os|] == Two(g, n, 1)
  {
    qs := seq(n + 1, k requires 0 <= k <= n => Two(g, k, 1));
    os := seq(n, k => FreeOp(0, k));
    forall k | 0 <= k < n ensures Step(qs[k], os[k], AsWritten, qs[k + 1]) {
      TwoPutStep(g, k);
    }
  }

  /** Having freed all but one of them, fill the second slab. */
  lemma RefillHistory(g: Geometry) returns (ps: seq<Pool>, ops: seq<Op>)
    requires GeometryOk(g)
    ensures Reaches(g, ps, ops, Two(g, g.num - 1, g.num))
  {
    ps, ops := DrainHistory(g, g.num - 1);
    var qs, os := RefillSteps(g, g.num - 1);
    GoOn(g, ps, ops, qs, os);
    ps, ops := ps + qs[1..], ops + os;
  }

  lemma RefillSteps(g: Geometry, a: nat) returns (qs: seq<Pool>, os: seq<Op>)
    requires GeometryOk(g) && a == g.num - 1
    ensures Leads(g, qs, os) && qs[0] == Two(g, a, 1) && qs[|os|] == Two(g, a, g.num)
  {
    qs := seq(g.num, k requires 0 <= k < g.num => Two(g, a, k + 1));
    os := seq(g.num - 1, k => AllocOp(None));
    forall k | 0 <= k < |os| ensures Step(qs[k], os[k], AsWritten, qs[k + 1]) {
      TwoTakeFrom(g, a, k + 1, qs[k], os[k], qs[k + 1]);
    }
    assert forall k :: 0 <= k < |qs| ==> qs[k].usedObjs == g.num - a + k + 1;
  }

  lemma TwoTakeFrom(g: Geometry, a: nat, b: nat, p: Pool, op: Op, q: Pool)
    requires GeometryOk(g) && a <= g.num && 0 < b < g.num
    requires p == Two(g, a, b) && op == AllocOp(None) && q == Two(g, a, b + 1)
    ensures Step(p, op, AsWritten, q)
  {
    TwoTakeStep(g, a, b);
  }

  lemma ReachesHolds(g: Geometry, ps: seq<Pool>, ops: seq<Op>, q: Pool)
    requires Reaches(g, ps, ops, q)
    ensures HoldsAtMost(ps, ops, AsWritten, g.num + 1)
  {
    forall k: nat | k <= |ops| ensures Held(ps, ops, AsWritten, k) <= g.num + 1 {
      HeldIsUsed(ps, ops, k);
    }
  }

  /**
   Holding at most one object more than a slab has: the first slab, with all but one
   of its objects free, stays on the full list, and with the second slab full the
   next allocation returns NULL.
   */
  lemma StrandingHistory(g: Geometry) returns (ps: seq<Pool>, ops: seq<Op>)
    requires GeometryOk(g)
    ensures HoldsAtMost(ps, ops, AsWritten, g.num + 1) && ps[0].geo == g && Stranded(ps[|ops|], AsWritten)
  {
    ps, ops := RefillHistory(g);
    ReachesHolds(g, ps, ops, Two(g, g.num - 1, g.num));
    var q := Two(g, g.num - 1, g.num);
    assert q.mem[1].free == 0 && LoadSlab(q) == None;
  }

  /**
   Holding at most one object more than a slab has: the first slab is empty, and
   freeing the only object of the second, current one releases it and reads it.
   */
  lemma ReleasedReadHistory(g: Geometry) returns (ps: seq<Pool>, ops: seq<Op>)
    requires GeometryOk(g)
    ensures HoldsAtMost(ps, ops, AsWritten, g.num + 1) && ps[0].geo == g && ReadsReleased(ps[|ops|], AsWritten)
    ensures var p := ps[|ops|];
            && p.cur == Some(1) && Live(p, 1, 0) && 0 <= p.geo.num <= |p.mem[1].freelist|
            && FreeObj(p, 1, 0, AsWritten).None?
  {
    ps, ops := DrainHistory(g, g.num);
    var q := Two(g, g.num, 1);
    ReachesHolds(g, ps, ops, q);
    TakenChain(g, g.slabSize, 1);
    assert Live(q, 1, 0);
    FreeAsWrittenIff(q, 1, 0);
  }

  // -------------------------------------------------------------- exact conditions

  lemma FewerHeld(ps: seq<Pool>, ops: seq<Op>, mode: Mode, limit: nat, more: nat)
    requires HoldsAtMost(ps, ops, mode, limit) && limit <= more
    ensures HoldsAtMost(ps, ops, mode, more)
  {
  }

  /**
   As written, every free object can be allocated again exactly for programs that
   never hold more objects than one slab has.
   */
  lemma NeverStrandsIff(g: Geometry, limit: nat)
    requires GeometryOk(g)
    ensures NeverStrands(g, AsWritten, limit) <==> limit <= g.num
  {
    if limit <= g.num {
      forall ps: seq<Pool>, ops: seq<Op> | HoldsAtMost(ps, ops, AsWritten, limit) && ps[0].geo == g
        ensures !Stranded(ps[|ops|], AsWritten)
      {
        FewerHeld(ps, ops, AsWritten, limit, g.num);
        OneSlabHistory(g, ps, ops, |ops|);
        OneSlabWorks(ps[|ops|]);
      }
    } else {
      var ps, ops := StrandingHistory(g);
      FewerHeld(ps, ops, AsWritten, g.num + 1, limit);
    }
  }

  /** As written, no valid free reads a released slab exactly for the same programs. */
  lemma NeverReadsReleasedIff(g: Geometry, limit: nat)
    requires GeometryOk(g)
    ensures NeverReadsReleased(g, AsWritten, limit) <==> limit <= g.num
  {
    if limit <= g.num {
      forall ps: seq<Pool>, ops: seq<Op> | HoldsAtMost(ps, ops, AsWritten, limit) && ps[0].geo == g
        ensures !ReadsReleased(ps[|ops|], AsWritten)
      {
        FewerHeld(ps, ops, AsWritten, limit, g.num);
        OneSlabHistory(g, ps, ops, |ops|);
        OneSlabWorks(ps[|ops|]);
      }
    } else {
      var ps, ops := ReleasedReadHistory(g);
      FewerHeld(ps, ops, AsWritten, g.num + 1, limit);
    }
  }

  /** With the intended statements neither goes wrong, however many objects a program holds. */
  lemma IntendedNeverFails(g: Geometry, limit: nat)
    ensures NeverStrands(g, Intended, limit) && NeverReadsReleased(g, Intended, limit)
  {
    forall ps: seq<Pool>, ops: seq<Op> | HoldsAtMost(ps, ops, Intended, limit) && ps[0].geo == g
      ensures !Stranded(ps[|ops|], Intended) && !ReadsReleased(ps[|ops|], Intended)
    {
      HistoryKeeps(ps, ops, |ops|);
      OrderedNeverFails(ps[|ops|]);
    }
  }

  lemma OrderedNeverFails(p: Pool)
    requires PoolOk(p)
    ensures !Stranded(p, Intended) && !ReadsReleased(p, Intended)
  {
    if p.freeObjs > 0 {
      AllocOk(p, None);
    }
    forall id, i | Live(p, id, i) ensures 0 <= i < |p.mem[id].freelist| == p.geo.num && FreeObj(p, id, i, Intended).Some? {
      FreeOk(p, id, i);
    }
  }
}
