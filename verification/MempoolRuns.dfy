/** Whole histories of a pool: allocations and valid frees from creation, and the final teardown. */
module MempoolRuns {
  import opened Seqs
  import opened SlabSizing
  import opened SlabMem
  import opened SlabSums
  import opened MempoolState

  /** An allocation with what the system allocator would give, or a free of slot i of slab id. */
  datatype Op = AllocOp(sys: Option<(SlabId, int)>) | FreeOp(id: SlabId, i: int)

  ghost predicate Step(p: Pool, op: Op, mode: Mode, p': Pool) {
    match op
    case AllocOp(sys) =>
      p.geo.align > 0 && p.geo.num > 0 && CurOk(p) && SysOk(p, sys) && p' == Alloc(p, mode, sys).0
    case FreeOp(id, i) =>
      && Live(p, id, i) && 0 <= p.geo.num <= |p.mem[id].freelist|
      && FreeObj(p, id, i, mode) == Some(p')
  }

  ghost predicate IsHistory(ps: seq<Pool>, ops: seq<Op>, mode: Mode) {
    && |ps| == |ops| + 1 && GeometryOk(ps[0].geo) && ps[0] == NewPool(ps[0].geo)
    && forall k :: 0 <= k < |ops| ==> Step(ps[k], ops[k], mode, ps[k + 1])
  }

  lemma StepKeeps(p: Pool, op: Op, p': Pool)
    requires PoolOk(p) && Step(p, op, Intended, p')
    ensures PoolOk(p')
  {
    match op
    case AllocOp(sys) => AllocOk(p, sys);
    case FreeOp(id, i) => FreeOk(p, id, i);
  }

  lemma NewPoolOk(g: Geometry)
    requires GeometryOk(g)
    ensures PoolOk(NewPool(g))
  {
  }

  /** What holds of a new pool and is kept by every step holds after every history. */
  lemma {:induction false} HistoryInduction(ps: seq<Pool>, ops: seq<Op>, mode: Mode, inv: Pool -> bool, k: nat)
    requires IsHistory(ps, ops, mode) && k <= |ops| && inv(ps[0])
    requires forall p, op, p' :: inv(p) && Step(p, op, mode, p') ==> inv(p')
    ensures inv(ps[k])
  {
    if k > 0 {
      HistoryInduction(ps, ops, mode, inv, k - 1);
      HistoryStep(ps, ops, mode, k - 1);
    }
  }

  lemma HistoryStep(ps: seq<Pool>, ops: seq<Op>, mode: Mode, k: nat)
    requires IsHistory(ps, ops, mode) && k < |ops|
    ensures Step(ps[k], ops[k], mode, ps[k + 1])
  {
  }

  lemma StepsKeep()
    ensures forall p, op, p' :: PoolOk(p) && Step(p, op, Intended, p') ==> PoolOk(p')
  {
    forall p, op, p' | PoolOk(p) && Step(p, op, Intended, p') ensures PoolOk(p') {
      StepKeeps(p, op, p');
    }
  }

  lemma HistoryKeeps(ps: seq<Pool>, ops: seq<Op>, k: nat)
    requires IsHistory(ps, ops, Intended) && k <= |ops|
    ensures PoolOk(ps[k])
  {
    NewPoolOk(ps[0].geo);
    StepsKeep();
    HistoryInduction(ps, ops, Intended, PoolOk, k);
  }

  /**
   After any history: the counters agree, there is at most one empty slab, each
   slab's free chain visits its free objects once each and then the sentinel, and
   the slab is on the list of its class.
   */
  lemma HistoryFacts(ps: seq<Pool>, ops: seq<Op>, k: nat)
    requires IsHistory(ps, ops, Intended) && k <= |ops|
    ensures var p := ps[k];
            && p.totalObjs == p.usedObjs + p.freeObjs == p.slabNums * p.geo.num
            && p.usedObjs == Sum(p.mem, UsedOf) && |p.empty| <= 1
            && (forall id :: id in p.mem ==>
                  var c := FreeChain(p.mem[id]);
                  && NoDup(c) && |c| == p.mem[id].free == p.geo.num - p.mem[id].used
                  && Linked(p.mem[id].freelist, p.mem[id].freeIdx, c))
            && (forall id :: id in p.mem ==>
                  && (id in p.full <==> p.mem[id].free == 0)
                  && (id in p.empty <==> p.mem[id].used == 0)
                  && (id in p.partial <==> p.mem[id].free > 0 && p.mem[id].used > 0))
  {
    HistoryKeeps(ps, ops, k);
    CountersAgree(ps[k]);
  }

  // ----------------------------------------------------------- mempool_destory

  /** free_one_slab for each of ids in turn; also the addresses handed to the destructor. */
  function FreeSlabs(p: Pool, ids: seq<SlabId>, mode: Mode): (Pool, seq<int>)
    decreases |ids|
  {
    if ids == [] || ids[0] !in p.mem || !(0 <= p.geo.num <= |p.mem[ids[0]].freelist|) then (p, [])
    else
      var s := p.mem[ids[0]];
      var (q, log) := FreeSlabs(FreeOneSlab(p, ids[0], mode), ids[1..], mode);
      (q, Addrs(p.geo, s, UsedSlots(s, mode, p.geo.num)) + log)
  }

  /** obj is the address of a live object of one of the slabs ids. */
  ghost predicate LiveAddr(p: Pool, ids: seq<SlabId>, obj: int) {
    exists id, i :: id in ids && Live(p, id, i) && obj == ObjAddr(p.geo, p.mem[id], i)
  }

  lemma AddrsExact(p: Pool, id: SlabId)
    requires PoolOk(p) && id in p.mem
    ensures |p.mem[id].freelist| == p.geo.num
    ensures var a := Addrs(p.geo, p.mem[id], UsedSlots(p.mem[id], Intended, p.geo.num));
            NoDup(a) && forall obj :: obj in a <==> LiveAddr(p, [id], obj)
  {
    var s := p.mem[id];
    var u := UsedSlots(s, Intended, p.geo.num);
    var a := Addrs(p.geo, s, u);
    TeardownExact(p.geo, s);
    forall k, l | 0 <= k < l < |a| ensures a[k] != a[l] {
      assert u[k] in u && u[l] in u && u[k] != u[l];
      SlotsDisjoint(p, id, u[k], id, u[l]);
    }
    forall obj ensures obj in a <==> LiveAddr(p, [id], obj) {
      if obj in a {
        var k :| 0 <= k < |a| && a[k] == obj;
        assert u[k] in u && Live(p, id, u[k]) && id in [id];
      }
      if LiveAddr(p, [id], obj) {
        var i :| Live(p, id, i) && obj == ObjAddr(p.geo, p.mem[id], i);
        var k :| 0 <= k < |u| && u[k] == i;
        assert a[k] == obj;
      }
    }
  }

  /** A live object has one owner. */
  lemma LiveAddrApart(p: Pool, a: SlabId, rest: seq<SlabId>, obj: int)
    requires PoolOk(p) && a !in rest && LiveAddr(p, [a], obj)
    ensures !LiveAddr(p, rest, obj)
  {
    var i :| Live(p, a, i) && obj == ObjAddr(p.geo, p.mem[a], i);
    forall id, j | id in rest && Live(p, id, j) ensures obj != ObjAddr(p.geo, p.mem[id], j) {
      SlotsDisjoint(p, a, i, id, j);
    }
  }

  lemma FreeOneLive(p: Pool, id: SlabId, ids: seq<SlabId>, obj: int)
    requires PoolOk(p) && id in p.mem && id !in ids
    ensures |p.mem[id].freelist| == p.geo.num
    ensures LiveAddr(FreeOneSlab(p, id, Intended), ids, obj) <==> LiveAddr(p, ids, obj)
  {
    var q := FreeOneSlab(p, id, Intended);
    forall jd, j | jd in ids ensures Live(q, jd, j) <==> Live(p, jd, j) {
    }
    if LiveAddr(p, ids, obj) {
      var jd, j :| jd in ids && Live(p, jd, j) && obj == ObjAddr(p.geo, p.mem[jd], j);
      assert Live(q, jd, j) && obj == ObjAddr(q.geo, q.mem[jd], j);
    }
  }

  /** One turn of the release loop. */
  lemma FreeFirst(p: Pool, ids: seq<SlabId>)
    requires PoolOk(p) && p.cur.None? && NoDup(ids) && ids != [] && forall id :: id in ids ==> id in p.mem
    ensures |p.mem[ids[0]].freelist| == p.geo.num
    ensures var p1 := FreeOneSlab(p, ids[0], Intended);
            && PoolOk(p1) && p1.cur.None? && p1.geo == p.geo && p1.mem == p.mem - {ids[0]}
    ensures NoDup(ids[1..]) && ids[0] !in ids[1..] && ids == [ids[0]] + ids[1..]
  {
    FreeOneSlabOk(p, ids[0]);
    FirstAndRest(ids);
  }

  lemma FirstAndRest(ids: seq<SlabId>)
    requires NoDup(ids) && ids != []
    ensures NoDup(ids[1..]) && ids[0] !in ids[1..] && ids == [ids[0]] + ids[1..]
  {
  }

  lemma {:induction false} FreeSlabsPool(p: Pool, ids: seq<SlabId>)
    requires PoolOk(p) && p.cur.None? && NoDup(ids) && forall id :: id in ids ==> id in p.mem
    ensures var q := FreeSlabs(p, ids, Intended).0;
            PoolOk(q) && q.cur.None? && forall id :: id in q.mem <==> id in p.mem && id !in ids
    decreases |ids|
  {
    if ids != [] {
      FreeFirst(p, ids);
      FreeSlabsPool(FreeOneSlab(p, ids[0], Intended), ids[1..]);
      assert forall id :: id in ids <==> id == ids[0] || id in ids[1..];
    }
  }

  /** Releasing the slabs ids destroys exactly the live objects in them, each once. */
  lemma {:induction false} FreeSlabsLog(p: Pool, ids: seq<SlabId>)
    requires PoolOk(p) && p.cur.None? && NoDup(ids) && forall id :: id in ids ==> id in p.mem
    ensures var log := FreeSlabs(p, ids, Intended).1;
            NoDup(log) && forall obj :: obj in log <==> LiveAddr(p, ids, obj)
    decreases |ids|
  {
    if ids != [] {
      var id, rest := ids[0], ids[1..];
      FreeFirst(p, ids);
      var p1 := FreeOneSlab(p, id, Intended);
      FreeSlabsLog(p1, rest);
      LogJoin(p, id, rest, FreeSlabs(p1, rest, Intended).1);
    }
  }

  lemma LogJoin(p: Pool, id: SlabId, rest: seq<SlabId>, log: seq<int>)
    requires PoolOk(p) && id in p.mem && id !in rest && NoDup(log)
    requires |p.mem[id].freelist| == p.geo.num
    requires forall obj :: obj in log <==> LiveAddr(FreeOneSlab(p, id, Intended), rest, obj)
    ensures var all := Addrs(p.geo, p.mem[id], UsedSlots(p.mem[id], Intended, p.geo.num)) + log;
            NoDup(all) && forall obj :: obj in all <==> LiveAddr(p, [id] + rest, obj)
  {
    var first := Addrs(p.geo, p.mem[id], UsedSlots(p.mem[id], Intended, p.geo.num));
    AddrsExact(p, id);
    forall obj ensures obj in first + log <==> LiveAddr(p, [id] + rest, obj) {
      FreeOneLive(p, id, rest, obj);
      LiveAddrSplit(p, id, rest, obj);
    }
    forall obj | obj in first ensures obj !in log {
      FreeOneLive(p, id, rest, obj);
      LiveAddrApart(p, id, rest, obj);
    }
    AppendApart(first, log);
  }

  lemma LiveAddrSplit(p: Pool, id: SlabId, rest: seq<SlabId>, obj: int)
    ensures LiveAddr(p, [id] + rest, obj) <==> LiveAddr(p, [id], obj) || LiveAddr(p, rest, obj)
  {
    if LiveAddr(p, [id], obj) {
      var i :| Live(p, id, i) && obj == ObjAddr(p.geo, p.mem[id], i);
      assert id in [id] + rest;
    }
    if LiveAddr(p, rest, obj) {
      var jd, i :| jd in rest && Live(p, jd, i) && obj == ObjAddr(p.geo, p.mem[jd], i);
      assert jd in [id] + rest;
    }
    if LiveAddr(p, [id] + rest, obj) {
      var jd, i :| jd in [id] + rest && Live(p, jd, i) && obj == ObjAddr(p.geo, p.mem[jd], i);
      assert jd in [id] || jd in rest;
    }
  }

  /** free_all_slabs goes through the three lists. */
  function AllSlabs(p: Pool): seq<SlabId> {
    p.partial + p.full + p.empty
  }

  lemma AllSlabsOnce(p: Pool)
    requires PoolOk(p)
    ensures NoDup(AllSlabs(p)) && forall id :: id in AllSlabs(p) <==> id in p.mem
  {
    forall id | id in p.mem ensures id in AllSlabs(p) {
      PoolCounts(p, id);
    }
    forall id | id in p.mem
      ensures !(id in p.partial && id in p.full) && !(id in p.partial && id in p.empty) && !(id in p.full && id in p.empty)
    {
      PoolCounts(p, id);
    }
    AppendApart(p.partial, p.full);
    AppendApart(p.partial + p.full, p.empty);
  }

  lemma AppendApart<T>(a: seq<T>, b: seq<T>)
    requires NoDup(a) && NoDup(b) && forall x :: x in a ==> x !in b
    ensures NoDup(a + b)
  {
    forall i, j | 0 <= i < j < |a + b| ensures (a + b)[i] != (a + b)[j] {
      if i < |a| <= j {
        assert a[i] in a && b[j - |a|] in b;
      }
    }
  }

  /** Destroying a pool runs the destructor exactly once on each live object, on nothing else, and all counters reach zero. */
  lemma DestroyExact(p: Pool)
    requires PoolOk(p)
    ensures var (q, log) := FreeSlabs(p.(cur := None), AllSlabs(p), Intended);
            && q.mem == map[] && q.partial == q.full == q.empty == []
            && q.slabNums == q.totalObjs == q.usedObjs == q.freeObjs == 0
            && NoDup(log)
            && forall obj :: obj in log <==> exists id, i :: Live(p, id, i) && obj == ObjAddr(p.geo, p.mem[id], i)
  {
    var p0 := p.(cur := None);
    AllSlabsOnce(p);
    FreeSlabsPool(p0, AllSlabs(p));
    FreeSlabsLog(p0, AllSlabs(p));
    var (q, log) := FreeSlabs(p0, AllSlabs(p), Intended);
    assert q.mem == map[];
    EmptyPool(q);
    forall obj ensures obj in log <==> exists id, i :: Live(p, id, i) && obj == ObjAddr(p.geo, p.mem[id], i) {
      if id, i :| Live(p, id, i) && obj == ObjAddr(p.geo, p.mem[id], i) {
        assert Live(p0, id, i) && id in AllSlabs(p);
      }
      if obj in log {
        var id, i :| id in AllSlabs(p) && Live(p0, id, i) && obj == ObjAddr(p0.geo, p0.mem[id], i);
        assert Live(p, id, i);
      }
    }
  }

  lemma EmptyPool(q: Pool)
    requires PoolOk(q) && q.mem == map[]
    ensures q.partial == q.full == q.empty == []
    ensures q.slabNums == q.totalObjs == q.usedObjs == q.freeObjs == 0
  {
    NoMembers(q.partial);
    NoMembers(q.full);
    NoMembers(q.empty);
  }

  lemma NoMembers(q: seq<SlabId>)
    requires forall id :: id !in q
    ensures q == []
  {
    forall id ensures id !in multiset(q) {
      assert id !in q;
    }
    assert multiset(q) == multiset{};
    assert |q| == |multiset(q)|;
  }

  // ------------------------------------------------------ the loop of teardown

  /** With the slabs before the current entries released and `destroyed` reported, the rest is still to do. */
  ghost predicate RestToDo(start: Pool, now: Pool, destroyed: seq<int>) {
    var done := FreeSlabs(start.(cur := None), AllSlabs(start), Intended);
    var rest := FreeSlabs(now.(cur := None), AllSlabs(now), Intended);
    done.0 == rest.0 && done.1 == destroyed + rest.1
  }

  ghost predicate Releasing(start: Pool, now: Pool, destroyed: seq<int>) {
    PoolOk(now.(cur := None)) && RestToDo(start, now, destroyed)
  }

  lemma ReleasingStarts(p: Pool)
    requires PoolOk(p)
    ensures Releasing(p, p, [])
  {
  }

  lemma RestStep(start: Pool, now: Pool, destroyed: seq<int>, id: SlabId, now2: Pool)
    requires RestToDo(start, now, destroyed) && AllSlabs(now) != [] && id == AllSlabs(now)[0]
    requires id in now.mem && 0 <= now.geo.num <= |now.mem[id].freelist|
    requires now2 == FreeOneSlab(now, id, Intended) && AllSlabs(now2) == AllSlabs(now)[1..]
    ensures RestToDo(start, now2, destroyed + Addrs(now.geo, now.mem[id], UsedSlots(now.mem[id], Intended, now.geo.num)))
  {
    var first := Addrs(now.geo, now.mem[id], UsedSlots(now.mem[id], Intended, now.geo.num));
    assert now2.(cur := None) == FreeOneSlab(now.(cur := None), id, Intended);
    var rest := FreeSlabs(now2.(cur := None), AllSlabs(now2), Intended);
    assert FreeSlabs(now.(cur := None), AllSlabs(now), Intended) == (rest.0, first + rest.1);
    assert destroyed + (first + rest.1) == (destroyed + first) + rest.1;
  }

  lemma ReleasingStep(start: Pool, now: Pool, destroyed: seq<int>)
    requires Releasing(start, now, destroyed) && AllSlabs(now) != []
    ensures var id := AllSlabs(now)[0];
            && id in now.mem && |now.mem[id].freelist| == now.geo.num && 0 <= now.geo.num
            && Releasing(start, FreeOneSlab(now, id, Intended),
                         destroyed + Addrs(now.geo, now.mem[id], UsedSlots(now.mem[id], Intended, now.geo.num)))
  {
    ReleaseKeepsPool(now);
    RestStep(start, now, destroyed, AllSlabs(now)[0], FreeOneSlab(now, AllSlabs(now)[0], Intended));
  }

  lemma ReleaseKeepsPool(now: Pool)
    requires PoolOk(now.(cur := None)) && AllSlabs(now) != []
    ensures var id := AllSlabs(now)[0];
            && id in now.mem && |now.mem[id].freelist| == now.geo.num && 0 <= now.geo.num
            && PoolOk(FreeOneSlab(now, id, Intended).(cur := None))
            && AllSlabs(FreeOneSlab(now, id, Intended)) == AllSlabs(now)[1..]
  {
    var id := AllSlabs(now)[0];
    AllSlabsStep(now.(cur := None));
    CurIsKept(now, id);
    FreeCurless(now.(cur := None), id);
  }

  lemma FreeCurless(p: Pool, id: SlabId)
    requires PoolOk(p) && p.cur.None? && id in p.mem
    ensures |p.mem[id].freelist| == p.geo.num && 0 <= p.geo.num
    ensures PoolOk(FreeOneSlab(p, id, Intended))
  {
    FreeOneSlabOk(p, id);
  }

  lemma CurIsKept(p: Pool, id: SlabId)
    requires id in p.mem && 0 <= p.geo.num <= |p.mem[id].freelist|
    ensures FreeOneSlab(p, id, Intended).(cur := None) == FreeOneSlab(p.(cur := None), id, Intended)
    ensures AllSlabs(FreeOneSlab(p, id, Intended)) == AllSlabs(FreeOneSlab(p.(cur := None), id, Intended))
  {
  }

  lemma ReleasingEnds(start: Pool, now: Pool, destroyed: seq<int>)
    requires RestToDo(start, now, destroyed) && AllSlabs(now) == []
    ensures FreeSlabs(start.(cur := None), AllSlabs(start), Intended) == (now.(cur := None), destroyed)
  {
    assert destroyed + [] == destroyed;
  }

  /** Removing the entry a list loop stands at. */
  lemma AllSlabsStep(p: Pool)
    requires PoolOk(p) && AllSlabs(p) != []
    ensures AllSlabs(p)[0] in p.mem && |p.mem[AllSlabs(p)[0]].freelist| == p.geo.num
    ensures AllSlabs(FreeOneSlab(p, AllSlabs(p)[0], Intended)) == AllSlabs(p)[1..]
  {
    var ids := AllSlabs(p);
    AllSlabsOnce(p);
    assert ids[0] in ids && ids[0] in p.mem;
    assert SlabOk(p.geo, p.mem[ids[0]]);
    DropFirst(p.partial, p.full, p.empty);
  }

  lemma DropFirst(a: seq<SlabId>, b: seq<SlabId>, c: seq<SlabId>)
    requires NoDup(a + b + c) && a + b + c != []
    ensures var x := (a + b + c)[0];
            Without(a, x) + Without(b, x) + Without(c, x) == (a + b + c)[1..]
  {
    var s := a + b + c;
    var x := s[0];
    WithoutIsRest(s);
    WithoutJoin(a + b, c, x);
    WithoutJoin(a, b, x);
  }

  lemma WithoutIsRest(s: seq<SlabId>)
    requires s != []
    ensures Without(s, s[0]) == s[1..]
  {
  }

  /** Unlinking from lists that share no entry is unlinking from each. */
  lemma WithoutJoin(a: seq<SlabId>, b: seq<SlabId>, x: SlabId)
    requires NoDup(a + b)
    ensures NoDup(a) && NoDup(b)
    ensures Without(a + b, x) == Without(a, x) + Without(b, x)
  {
    assert forall i :: 0 <= i < |a| ==> (a + b)[i] == a[i];
    assert forall i :: 0 <= i < |b| ==> (a + b)[|a| + i] == b[i];
    WithoutAppend(a, b, x);
    if x in a {
      WithoutAbsent(b, x);
    } else {
      WithoutAbsent(a, x);
    }
  }

  lemma {:induction false} WithoutAppend(a: seq<SlabId>, b: seq<SlabId>, x: SlabId)
    ensures Without(a + b, x) == if x in a then Without(a, x) + b else a + Without(b, x)
  {
    if a == [] {
      assert a + b == b;
    } else {
      assert a == [a[0]] + a[1..] && (a + b)[1..] == a[1..] + b;
      WithoutAppend(a[1..], b, x);
    }
  }

  lemma {:induction false} WithoutAbsent(q: seq<SlabId>, id: SlabId)
    requires id !in q
    ensures Without(q, id) == q
  {
    if q != [] {
      assert q == [q[0]] + q[1..];
      WithoutAbsent(q[1..], id);
    }
  }

  // ------------------------------------------------------------ calls by address

  /** What alloc_obj_from_slab asserts, for the slab mempool_alloc is going to use. */
  ghost predicate AllocReady(p: Pool, sys: Option<(SlabId, int)>) {
    && GeometryOk(p.geo) && CurOk(p)
    && if p.freeObjs == 0 then
         sys.Some? ==> 0 <= NewSlab(p.geo, sys.value.1).freeIdx < |NewSlab(p.geo, sys.value.1).freelist|
       else
         && FindSlab(p).Some? && FindSlab(p).value in p.mem
         && 0 <= p.mem[FindSlab(p).value].freeIdx < |p.mem[FindSlab(p).value].freelist|
  }

  lemma AllocIsReady(p: Pool, sys: Option<(SlabId, int)>)
    requires PoolOk(p)
    ensures AllocReady(p, sys)
  {
    if p.freeObjs == 0 {
      if sys.Some? {
        NewSlabOk(p.geo, sys.value.1);
      }
    } else {
      FindSlabFinds(p);
      FreeIdxValid(p.geo, p.mem[FindSlab(p).value]);
    }
  }

  /** mempool_free of an address. */
  ghost function FreeAddr(p: Pool, obj: int): Pool
    requires FreeReady(p, obj)
  {
    match FindObjSlab(p, obj)
    case None => p
    case Some(id) => FreeObj(p, id, SlotOf(p.geo, p.mem[id], obj), Intended).value
  }

  ghost predicate FreeReady(p: Pool, obj: int) {
    && p.geo.size > 0
    && match FindObjSlab(p, obj)
       case None => true
       case Some(id) =>
         && id in p.mem && 0 <= p.geo.num <= |p.mem[id].freelist|
         && 0 <= SlotOf(p.geo, p.mem[id], obj) < |p.mem[id].freelist|
  }

  /** A valid argument of mempool_free: the address of a live object, or one that no slab in use holds. */
  ghost predicate ValidFree(p: Pool, obj: int) {
    FindObjSlab(p, obj).None? || exists id, i :: Live(p, id, i) && obj == ObjAddr(p.geo, p.mem[id], i)
  }

  /** Freeing a live object by its address frees that object and no other; any other valid call does nothing. */
  lemma FreeAddrOk(p: Pool, obj: int)
    requires PoolOk(p) && ValidFree(p, obj)
    ensures FreeReady(p, obj) && PoolOk(FreeAddr(p, obj))
    ensures FindObjSlab(p, obj).None? ==> FreeAddr(p, obj) == p
    ensures forall id, i :: Live(p, id, i) && obj == ObjAddr(p.geo, p.mem[id], i) ==>
              FreedSlot(p, FreeAddr(p, obj), id, i)
  {
    forall id, i | Live(p, id, i) && obj == ObjAddr(p.geo, p.mem[id], i)
      ensures FreeReady(p, obj) && PoolOk(FreeAddr(p, obj)) && FreedSlot(p, FreeAddr(p, obj), id, i)
      ensures FindObjSlab(p, obj).Some?
    {
      FreeLiveOk(p, id, i);
    }
  }

  lemma FreeLiveOk(p: Pool, id: SlabId, i: int)
    requires PoolOk(p) && Live(p, id, i)
    ensures var obj := ObjAddr(p.geo, p.mem[id], i);
            && FindObjSlab(p, obj).Some? && FreeReady(p, obj)
            && PoolOk(FreeAddr(p, obj)) && FreedSlot(p, FreeAddr(p, obj), id, i)
  {
    OrderedIsTracked(p);
    FindObjSlabExact(p, id, i);
    FreeOk(p, id, i);
  }
}
