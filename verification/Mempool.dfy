/**
 The object pool of src/memory/mempool.c on top of single slabs: three slab lists,
 the cached current slab, the counters and the memory the slabs live in.
 */
module SlabSums {
  import opened SlabMem

  type SlabId = nat

  ghost function Pick(m: map<SlabId, Slab>): SlabId
    requires m != map[]
  {
    var k :| k in m; k
  }

  /** The sum of f over all slabs. */
  ghost function Sum(m: map<SlabId, Slab>, f: Slab -> int): int
    decreases |m|
  {
    if m == map[] then 0 else f(m[Pick(m)]) + Sum(m - {Pick(m)}, f)
  }

  lemma {:induction false} SumRemove(m: map<SlabId, Slab>, f: Slab -> int, k: SlabId)
    requires k in m
    ensures Sum(m, f) == f(m[k]) + Sum(m - {k}, f)
    decreases |m|
  {
    var x := Pick(m);
    if x != k {
      SumRemove(m - {x}, f, k);
      SumRemove(m - {k}, f, x);
      assert m - {x} - {k} == m - {k} - {x};
      assert x in m - {k};
    }
  }

  lemma SumAdd(m: map<SlabId, Slab>, f: Slab -> int, k: SlabId, s: Slab)
    requires k !in m
    ensures Sum(m[k := s], f) == Sum(m, f) + f(s)
  {
    SumRemove(m[k := s], f, k);
    assert m[k := s] - {k} == m;
  }

  lemma SumUpdate(m: map<SlabId, Slab>, f: Slab -> int, k: SlabId, s: Slab)
    requires k in m
    ensures Sum(m[k := s], f) == Sum(m, f) - f(m[k]) + f(s)
  {
    SumRemove(m, f, k);
    SumRemove(m[k := s], f, k);
    assert m[k := s] - {k} == m - {k};
  }

  lemma {:induction false} SumBounds(m: map<SlabId, Slab>, f: Slab -> int)
    requires forall k :: k in m ==> f(m[k]) >= 0
    ensures Sum(m, f) >= 0
    ensures Sum(m, f) > 0 ==> exists k :: k in m && f(m[k]) > 0
    ensures forall k :: k in m ==> Sum(m, f) >= f(m[k])
    decreases |m|
  {
    if m != map[] {
      var x := Pick(m);
      var rest := m - {x};
      assert forall k :: k in rest ==> k in m && rest[k] == m[k];
      SumBounds(rest, f);
      if Sum(rest, f) > 0 {
        var k :| k in rest && f(rest[k]) > 0;
        assert k in m && f(m[k]) > 0;
      }
      forall k | k in m ensures Sum(m, f) >= f(m[k]) {
        assert k != x ==> k in rest;
      }
    }
  }

  /** Sums of two parts that always add up to n. */
  lemma {:induction false} SumSplit(m: map<SlabId, Slab>, f: Slab -> int, g: Slab -> int, n: int)
    requires forall k :: k in m ==> f(m[k]) + g(m[k]) == n
    ensures Sum(m, f) + Sum(m, g) == |m| * n
    decreases |m|
  {
    if m != map[] {
      var x := Pick(m);
      var rest := m - {x};
      assert forall k :: k in rest ==> k in m && rest[k] == m[k];
      SumSplit(rest, f, g, n);
      assert |rest| == |m| - 1 by { assert rest.Keys == m.Keys - {x}; }
      assert |m| * n == |rest| * n + n;
    }
  }
}

module MempoolState {
  import opened Seqs
  import opened SlabSizing
  import opened SlabMem
  import opened SlabSums

  /** `struct mempool` with its slabs_info; `mem` is the allocated slabs by address of their struct. */
  datatype Pool = Pool(geo: Geometry, partial: seq<SlabId>, full: seq<SlabId>, empty: seq<SlabId>,
                       cur: Option<SlabId>, slabNums: int, totalObjs: int, usedObjs: int, freeObjs: int,
                       mem: map<SlabId, Slab>)

  datatype ListName = PartialList | FullList | EmptyList

  const UsedOf: Slab -> int := (s: Slab) => s.used
  const FreeOf: Slab -> int := (s: Slab) => s.free

  function NewPool(geo: Geometry): Pool {
    Pool(geo, [], [], [], None, 0, 0, 0, 0, map[])
  }

  /** The current slab has not been released. */
  predicate CurOk(p: Pool) {
    p.cur.Some? ==> p.cur.value in p.mem
  }

  // ------------------------------------------------------------- the operations

  /** list_del from the list the slab is on, then list_add to another. */
  function MoveList(p: Pool, id: SlabId, to: ListName): Pool {
    p.(partial := (if to.PartialList? then [id] else []) + Without(p.partial, id),
       full := (if to.FullList? then [id] else []) + Without(p.full, id),
       empty := (if to.EmptyList? then [id] else []) + Without(p.empty, id))
  }

  /** slab_alloc with the two blocks the system allocator returned. */
  function SlabAlloc(p: Pool, id: SlabId, sBase: int): Pool
    requires p.geo.align > 0 && p.geo.num >= 0
  {
    p.(mem := p.mem[id := NewSlab(p.geo, sBase)], empty := [id] + p.empty, slabNums := p.slabNums + 1,
       freeObjs := p.freeObjs + p.geo.num, totalObjs := p.totalObjs + p.geo.num, cur := Some(id))
  }

  function FirstFree(q: seq<SlabId>, mem: map<SlabId, Slab>): Option<SlabId> {
    if q == [] then None
    else if q[0] in mem && mem[q[0]].free > 0 then Some(q[0])
    else FirstFree(q[1..], mem)
  }

  function LoadSlab(p: Pool): Option<SlabId> {
    var r := FirstFree(p.partial, p.mem);
    if r.Some? then r else FirstFree(p.empty, p.mem)
  }

  /** find_slab and load_slab: the current slab if it has a free object, otherwise a new current slab. */
  function FindSlab(p: Pool): Option<SlabId>
    requires CurOk(p)
  {
    if p.cur.Some? && p.mem[p.cur.value].free != 0 then p.cur else LoadSlab(p)
  }

  /** alloc_obj_from_slab, the pool's side; the slab's is TakeObj. */
  function AllocFrom(p: Pool, id: SlabId, mode: Mode): Pool
    requires id in p.mem && 0 <= p.mem[id].freeIdx < |p.mem[id].freelist|
  {
    var s := p.mem[id];
    var s' := TakeObj(s, mode);
    var p1 := p.(mem := p.mem[id := s']);
    var p2 := if s.freeIdx == s.lastFreeIdx then MoveList(p1, id, FullList) else p1;
    var p3 := if s'.used == 1 then MoveList(p2, id, PartialList) else p2;
    p3.(freeObjs := p3.freeObjs - 1, usedObjs := p3.usedObjs + 1)
  }

  /** Take an object from a chosen slab; the other case is the assertion on free_idx, which FreeIdxValid rules out. */
  function TakeFrom(p: Pool, id: SlabId, mode: Mode): (Pool, Option<int>) {
    if id in p.mem && 0 <= p.mem[id].freeIdx < |p.mem[id].freelist|
    then (AllocFrom(p, id, mode), Some(ObjAddr(p.geo, p.mem[id], p.mem[id].freeIdx)))
    else (p, None)
  }

  /** mempool_alloc; sys is what the system allocator gives for a slab, None if it refuses. */
  function Alloc(p: Pool, mode: Mode, sys: Option<(SlabId, int)>): (Pool, Option<int>)
    requires p.geo.align > 0 && p.geo.num > 0 && CurOk(p)
  {
    if p.freeObjs == 0 then
      match sys
      case None => (p, None)
      case Some(block) => TakeFrom(SlabAlloc(p, block.0, block.1), block.0, mode)
    else
      match FindSlab(p)
      case None => (p, None)
      case Some(id) => TakeFrom(p.(cur := Some(id)), id, mode)
  }

  predicate AddrInSlab(s: Slab, obj: int) {
    s.objBase <= obj <= s.objEnd
  }

  function FirstHolding(q: seq<SlabId>, mem: map<SlabId, Slab>, obj: int): Option<SlabId> {
    if q == [] then None
    else if q[0] in mem && mem[q[0]].used > 0 && AddrInSlab(mem[q[0]], obj) then Some(q[0])
    else FirstHolding(q[1..], mem, obj)
  }

  function FindObjSlab(p: Pool, obj: int): Option<SlabId> {
    if p.usedObjs == 0 then None
    else
      var r := FirstHolding(p.partial, p.mem, obj);
      if r.Some? then r else FirstHolding(p.full, p.mem, obj)
  }

  /** The slots below n that the teardown test takes to be in use, in order. */
  function UsedSlots(s: Slab, mode: Mode, n: nat): seq<int>
    requires n <= |s.freelist|
  {
    if n == 0 then [] else UsedSlots(s, mode, n - 1) + (if InUseTest(s, n - 1, mode) then [n - 1] else [])
  }

  /** The addresses of the slots: what the destructor is called on. */
  function Addrs(g: Geometry, s: Slab, slots: seq<int>): seq<int> {
    seq(|slots|, k requires 0 <= k < |slots| => ObjAddr(g, s, slots[k]))
  }

  /** free_all_objs_one_slab and the rest of free_one_slab. */
  function FreeOneSlab(p: Pool, id: SlabId, mode: Mode): Pool
    requires id in p.mem && 0 <= p.geo.num <= |p.mem[id].freelist|
  {
    var inUse := |UsedSlots(p.mem[id], mode, p.geo.num)|;
    p.(usedObjs := p.usedObjs - inUse, freeObjs := p.freeObjs - (p.geo.num - inUse),
       totalObjs := p.totalObjs - p.geo.num, slabNums := p.slabNums - 1,
       partial := Without(p.partial, id), full := Without(p.full, id), empty := Without(p.empty, id),
       mem := p.mem - {id})
  }

  /** The slot an address belongs to. */
  function SlotOf(g: Geometry, s: Slab, obj: int): int
    requires g.size > 0
  {
    (obj - s.objBase) / g.size
  }

  /**
   free_obj2slab.  The intended step is finished with a slab it has released, and
   forgets it as the current one; as written the code goes on to line 430.
   */
  function FreeObj(p: Pool, id: SlabId, i: int, mode: Mode): Option<Pool>
    requires id in p.mem && 0 <= i < |p.mem[id].freelist| && 0 <= p.geo.num <= |p.mem[id].freelist|
  {
    var s := PutObj(p.mem[id], i);
    var p1 := p.(mem := p.mem[id := s]);
    if s.used == 0 && p.empty != [] then
      var p2 := FreeOneSlab(p1, id, mode);
      match mode
      case Intended =>
        Some(p2.(cur := if p.cur == Some(id) then None else p.cur,
                 freeObjs := p2.freeObjs + 1, usedObjs := p2.usedObjs - 1))
      case AsWritten => FinishFree(p2, id, i)
    else
      FinishFree(if s.used == 0 then MoveList(p1, id, EmptyList) else p1, id, i)
  }

  /** Lines 430 to 436.  None: line 430 reads a slab that has been released. */
  function FinishFree(p: Pool, id: SlabId, i: int): Option<Pool> {
    if id !in p.mem then None
    else
      var s := p.mem[id];
      var p' := if s.lastFreeIdx == -1 then MoveList(p, id, PartialList).(mem := p.mem[id := NoteTail(s, i)]) else p;
      Some(p'.(freeObjs := p'.freeObjs + 1, usedObjs := p'.usedObjs - 1))
  }

  // -------------------------------------------------------------- the invariant

  /** Full means no free object, empty no used one, partial both kinds. */
  ghost predicate Belongs(s: Slab, l: ListName) {
    match l
    case PartialList => s.used > 0 && s.free > 0
    case FullList => s.free == 0
    case EmptyList => s.used == 0
  }

  /** A list holds exactly the slabs of its class, once each. */
  ghost predicate ListHolds(q: seq<SlabId>, mem: map<SlabId, Slab>, l: ListName) {
    NoDup(q) && forall id :: id in q <==> id in mem && Belongs(mem[id], l)
  }

  ghost predicate ListsOk(p: Pool) {
    && ListHolds(p.partial, p.mem, PartialList)
    && ListHolds(p.full, p.mem, FullList)
    && ListHolds(p.empty, p.mem, EmptyList)
    && |p.empty| <= 1
  }

  ghost predicate SlabsOk(p: Pool) {
    forall id :: id in p.mem ==> SlabOk(p.geo, p.mem[id])
  }

  ghost predicate BlocksApart(p: Pool) {
    forall a, b :: a in p.mem && b in p.mem && a != b ==>
      || p.mem[a].sBase + p.geo.slabSize <= p.mem[b].sBase
      || p.mem[b].sBase + p.geo.slabSize <= p.mem[a].sBase
  }

  ghost predicate CountsOk(p: Pool) {
    && p.slabNums == |p.mem| && p.totalObjs == |p.mem| * p.geo.num
    && p.usedObjs == Sum(p.mem, UsedOf) && p.freeObjs == Sum(p.mem, FreeOf)
  }

  ghost predicate PoolOk(p: Pool) {
    GeometryOk(p.geo) && SlabsOk(p) && ListsOk(p) && BlocksApart(p) && CountsOk(p) && CurOk(p)
  }

  /** What the lookup of an object needs, and what also holds with the statements as written. */
  ghost predicate Tracked(p: Pool) {
    && GeometryOk(p.geo) && ChainsOk(p) && UsedListed(p) && BlocksApart(p) && CountsOk(p) && CurOk(p)
  }

  ghost predicate ChainsOk(p: Pool) {
    forall id :: id in p.mem ==> Chained(p.geo, p.mem[id], FreeChain(p.mem[id])) && Laid(p.geo, p.mem[id])
  }

  ghost predicate UsedListed(p: Pool) {
    forall id :: id in p.mem && p.mem[id].used > 0 ==> id in p.partial || id in p.full
  }

  lemma OrderedIsTracked(p: Pool)
    requires PoolOk(p)
    ensures Tracked(p)
  {
    forall id | id in p.mem && p.mem[id].used > 0 ensures id in p.partial || id in p.full {
      PoolCounts(p, id);
    }
  }

  /** Slot i of slab id holds a live object. */
  ghost predicate Live(p: Pool, id: SlabId, i: int) {
    id in p.mem && IsUsed(p.mem[id], i)
  }

  /** The system allocator returns blocks that overlap nothing in use. */
  ghost predicate SysOk(p: Pool, sys: Option<(SlabId, int)>) {
    sys.Some? ==>
      && sys.value.0 !in p.mem
      && forall a :: a in p.mem ==>
           || p.mem[a].sBase + p.geo.slabSize <= sys.value.1
           || sys.value.1 + p.geo.slabSize <= p.mem[a].sBase
  }

  // ------------------------------------------------------------- moving a slab

  /** MOVE_LIST puts the slab at the head of one list and takes it off the others. */
  lemma MovedFirst(p: Pool, id: SlabId, to: ListName)
    ensures var p' := MoveList(p, id, to);
            && p' == p.(partial := p'.partial, full := p'.full, empty := p'.empty)
            && (var q := if to.PartialList? then p'.partial else if to.FullList? then p'.full else p'.empty;
                q != [] && q[0] == id)
            && (if to.PartialList? then p'.partial[1..] else p'.partial) == Without(p.partial, id)
            && (if to.FullList? then p'.full[1..] else p'.full) == Without(p.full, id)
            && (if to.EmptyList? then p'.empty[1..] else p'.empty) == Without(p.empty, id)
  {
  }

  /** slab_alloc puts the new slab at the head of the empty list and makes it the current one. */
  lemma NewSlabFirst(p: Pool, id: SlabId, sBase: int)
    requires p.geo.align > 0 && p.geo.num >= 0
    ensures var p' := SlabAlloc(p, id, sBase);
            && p'.empty == [id] + p.empty && p'.cur == Some(id)
            && p'.partial == p.partial && p'.full == p.full && p'.mem.Keys == p.mem.Keys + {id}
  {
  }

  /** Replacing one slab and moving it to its class keeps the three lists exact. */
  lemma MoveKeepsLists(p: Pool, id: SlabId, s: Slab, to: ListName)
    requires ListHolds(p.partial, p.mem, PartialList) && ListHolds(p.full, p.mem, FullList)
    requires ListHolds(p.empty, p.mem, EmptyList)
    requires id in p.mem && Belongs(s, to) && s.used + s.free > 0 && s.used >= 0 && s.free >= 0
    ensures var p' := MoveList(p.(mem := p.mem[id := s]), id, to);
            && ListHolds(p'.partial, p'.mem, PartialList) && ListHolds(p'.full, p'.mem, FullList)
            && ListHolds(p'.empty, p'.mem, EmptyList)
            && |p'.empty| <= |p.empty| + (if to.EmptyList? then 1 else 0)
  {
    MoveKeepsOne(p.partial, p.mem, id, s, PartialList, to);
    MoveKeepsOne(p.full, p.mem, id, s, FullList, to);
    MoveKeepsOne(p.empty, p.mem, id, s, EmptyList, to);
    WithoutOne(p.empty, id);
  }

  lemma MoveKeepsOne(q: seq<SlabId>, mem: map<SlabId, Slab>, id: SlabId, s: Slab, l: ListName, to: ListName)
    requires ListHolds(q, mem, l) && id in mem
    requires Belongs(s, to) && s.used + s.free > 0 && s.used >= 0 && s.free >= 0
    ensures ListHolds((if to == l then [id] else []) + Without(q, id), mem[id := s], l)
  {
    WithoutOne(q, id);
    assert [] + Without(q, id) == Without(q, id);
    assert Belongs(s, l) <==> l == to;
  }

  /** A slab that stays in its class needs no move. */
  lemma StayKeepsLists(p: Pool, id: SlabId, s: Slab, l: ListName)
    requires ListsOk(p) && id in p.mem && Belongs(p.mem[id], l) && Belongs(s, l)
    requires p.mem[id].used + p.mem[id].free > 0 && p.mem[id].used >= 0 && p.mem[id].free >= 0
    requires s.used + s.free > 0 && s.used >= 0 && s.free >= 0
    ensures ListsOk(p.(mem := p.mem[id := s]))
  {
  }

  lemma SlabCounts(g: Geometry, s: Slab)
    requires GeometryOk(g) && Chained(g, s, FreeChain(s))
    ensures s.used >= 0 && s.free >= 0 && s.used + s.free == g.num
  {
    Pigeonhole(FreeChain(s), g.num);
  }

  lemma PoolCounts(p: Pool, id: SlabId)
    requires GeometryOk(p.geo) && id in p.mem && Chained(p.geo, p.mem[id], FreeChain(p.mem[id]))
    ensures p.mem[id].used >= 0 && p.mem[id].free >= 0 && p.mem[id].used + p.mem[id].free == p.geo.num
  {
    SlabCounts(p.geo, p.mem[id]);
  }

  /** Replacing a slab by one in the same block keeps the slabs and the blocks in order. */
  lemma ReplaceSlab(p: Pool, id: SlabId, s: Slab, p': Pool)
    requires SlabsOk(p) && BlocksApart(p) && id in p.mem
    requires SlabOk(p.geo, s) && s.sBase == p.mem[id].sBase
    requires p'.geo == p.geo && p'.mem == p.mem[id := s]
    ensures SlabsOk(p') && BlocksApart(p')
  {
    assert SlabsOk(p');
    SameBlocks(p, p');
  }

  lemma SameBlocks(p: Pool, p': Pool)
    requires BlocksApart(p) && p'.geo == p.geo
    requires forall k :: k in p'.mem ==> k in p.mem && p'.mem[k].sBase == p.mem[k].sBase
    ensures BlocksApart(p')
  {
  }

  lemma ReplaceCounts(p: Pool, id: SlabId, s: Slab, p': Pool)
    requires CountsOk(p) && id in p.mem && p'.geo == p.geo && p'.mem == p.mem[id := s]
    requires p'.slabNums == p.slabNums && p'.totalObjs == p.totalObjs
    requires p'.usedObjs == p.usedObjs - p.mem[id].used + s.used
    requires p'.freeObjs == p.freeObjs - p.mem[id].free + s.free
    ensures CountsOk(p')
  {
    SumUpdate(p.mem, UsedOf, id, s);
    SumUpdate(p.mem, FreeOf, id, s);
    assert p'.mem.Keys == p.mem.Keys;
    assert |p'.mem| == |p'.mem.Keys| == |p.mem|;
  }

  // ------------------------------------------------------------- mempool_alloc

  /** What alloc_obj_from_slab changes apart from the lists. */
  lemma AllocFromFields(p: Pool, id: SlabId)
    requires PoolOk(p) && id in p.mem && p.mem[id].free > 0
    ensures 0 <= p.mem[id].freeIdx < |p.mem[id].freelist|
    ensures var s, s', p' := p.mem[id], TakeObj(p.mem[id], Intended), AllocFrom(p, id, Intended);
            && p'.mem == p.mem[id := s'] && p'.geo == p.geo && p'.cur == p.cur
            && SlabOk(p.geo, s') && s'.sBase == s.sBase
            && p'.slabNums == p.slabNums && p'.totalObjs == p.totalObjs
            && p'.usedObjs == p.usedObjs - s.used + s'.used && p'.freeObjs == p.freeObjs - s.free + s'.free
  {
    TakeObjOk(p.geo, p.mem[id]);
    AllocFields(p, id);
  }

  lemma AllocFields(p: Pool, id: SlabId)
    requires id in p.mem && 0 <= p.mem[id].freeIdx < |p.mem[id].freelist|
    ensures var p' := AllocFrom(p, id, Intended);
            && p'.mem == p.mem[id := TakeObj(p.mem[id], Intended)] && p'.geo == p.geo && p'.cur == p.cur
            && p'.slabNums == p.slabNums && p'.totalObjs == p.totalObjs
            && p'.usedObjs == p.usedObjs + 1 && p'.freeObjs == p.freeObjs - 1
  {
  }

  lemma AllocFromKeeps(p: Pool, id: SlabId)
    requires PoolOk(p) && id in p.mem && p.mem[id].free > 0
    ensures 0 <= p.mem[id].freeIdx < |p.mem[id].freelist|
    ensures PoolOk(AllocFrom(p, id, Intended))
  {
    AllocFromFields(p, id);
    var s', p' := TakeObj(p.mem[id], Intended), AllocFrom(p, id, Intended);
    ReplaceSlab(p, id, s', p');
    ReplaceCounts(p, id, s', p');
    AllocFromLists(p, id);
  }

  /** An allocation in the chosen slab: one free slot becomes live and nothing else changes hands. */
  lemma AllocFromOk(p: Pool, id: SlabId)
    requires PoolOk(p) && id in p.mem && p.mem[id].free > 0
    ensures 0 <= p.mem[id].freeIdx < |p.mem[id].freelist|
    ensures PoolOk(AllocFrom(p, id, Intended)) && AllocFrom(p, id, Intended).cur == p.cur
    ensures TookSlot(p, AllocFrom(p, id, Intended), id, p.mem[id].freeIdx,
                     ObjAddr(p.geo, p.mem[id], p.mem[id].freeIdx))
  {
    AllocFromKeeps(p, id);
    AllocFromFields(p, id);
    TakeObjOk(p.geo, p.mem[id]);
    TookFromSlab(p, AllocFrom(p, id, Intended), id, TakeObj(p.mem[id], Intended), p.mem[id].freeIdx);
  }

  /** A change of use in one slab is the same change of use in the pool. */
  lemma TookFromSlab(p: Pool, p': Pool, id: SlabId, s': Slab, i: int)
    requires id in p.mem && p'.mem == p.mem[id := s'] && p'.geo == p.geo && s'.objBase == p.mem[id].objBase
    requires !IsUsed(p.mem[id], i)
    requires forall j :: IsUsed(s', j) <==> IsUsed(p.mem[id], j) || j == i
    ensures TookSlot(p, p', id, i, ObjAddr(p.geo, p.mem[id], i))
  {
  }

  /** Between p and p' exactly slot i of slab id has become live, and its address is obj. */
  ghost predicate TookSlot(p: Pool, p': Pool, id: SlabId, i: int, obj: int) {
    && !Live(p, id, i) && Live(p', id, i) && obj == ObjAddr(p'.geo, p'.mem[id], i)
    && forall jd, j :: Live(p', jd, j) <==> Live(p, jd, j) || (jd == id && j == i)
  }

  lemma AllocFromLists(p: Pool, id: SlabId)
    requires PoolOk(p) && id in p.mem && p.mem[id].free > 0
    ensures 0 <= p.mem[id].freeIdx < |p.mem[id].freelist|
    ensures ListsOk(AllocFrom(p, id, Intended))
  {
    var s := p.mem[id];
    TakeObjOk(p.geo, s);
    FreeIdxValid(p.geo, s);
    PoolCounts(p, id);
    var s' := TakeObj(s, Intended);
    if s.free == 1 {
      MoveKeepsLists(p, id, s', FullList);
      assert id !in p.empty;
      WithoutOne(p.empty, id);
    } else if s.used == 0 {
      MoveKeepsLists(p, id, s', PartialList);
      WithoutOne(p.empty, id);
    } else {
      StayKeepsLists(p, id, s', PartialList);
    }
  }

  /** Without a free object anywhere there is no empty slab. */
  lemma NoFreeNoEmpty(p: Pool)
    requires PoolOk(p) && p.freeObjs == 0
    ensures p.empty == [] && forall id :: id in p.mem ==> p.mem[id].free == 0
  {
    forall id | id in p.mem ensures p.mem[id].free >= 0 {
      PoolCounts(p, id);
    }
    SumBounds(p.mem, FreeOf);
    forall id | id in p.mem ensures p.mem[id].free == 0 {
      assert FreeOf(p.mem[id]) == p.mem[id].free;
    }
    if p.empty != [] {
      assert p.empty[0] in p.empty;
      PoolCounts(p, p.empty[0]);
    }
  }

  lemma SlabAllocOk(p: Pool, id: SlabId, sBase: int)
    requires PoolOk(p) && p.freeObjs == 0 && SysOk(p, Some((id, sBase)))
    ensures PoolOk(SlabAlloc(p, id, sBase))
  {
    var p', s := SlabAlloc(p, id, sBase), NewSlab(p.geo, sBase);
    NoFreeNoEmpty(p);
    NewSlabOk(p.geo, sBase);
    SlabAllocCounts(p, id, s, p');
    SlabAllocLists(p, id, sBase);
    SlabAllocBlocks(p, id, s, p');
  }

  lemma SlabAllocBlocks(p: Pool, id: SlabId, s: Slab, p': Pool)
    requires SlabsOk(p) && BlocksApart(p) && SysOk(p, Some((id, s.sBase))) && SlabOk(p.geo, s)
    requires p'.geo == p.geo && p'.mem == p.mem[id := s]
    ensures SlabsOk(p') && BlocksApart(p')
  {
    assert SlabsOk(p');
    OneBlockMore(p, id, s, p');
  }

  lemma OneBlockMore(p: Pool, id: SlabId, s: Slab, p': Pool)
    requires BlocksApart(p) && SysOk(p, Some((id, s.sBase))) && p'.geo == p.geo && p'.mem == p.mem[id := s]
    ensures BlocksApart(p')
  {
  }

  lemma SlabAllocCounts(p: Pool, id: SlabId, s: Slab, p': Pool)
    requires CountsOk(p) && id !in p.mem && s.used == 0 && s.free == p.geo.num
    requires p'.geo == p.geo && p'.mem == p.mem[id := s] && p'.slabNums == p.slabNums + 1
    requires p'.totalObjs == p.totalObjs + p.geo.num
    requires p'.usedObjs == p.usedObjs && p'.freeObjs == p.freeObjs + p.geo.num
    ensures CountsOk(p')
  {
    SumAdd(p.mem, UsedOf, id, s);
    SumAdd(p.mem, FreeOf, id, s);
    OneMoreSlab(p.mem, id, s, p.geo.num);
  }

  lemma OneMoreSlab(m: map<SlabId, Slab>, id: SlabId, s: Slab, n: int)
    requires id !in m
    ensures |m[id := s]| == |m| + 1 && |m[id := s]| * n == |m| * n + n
  {
    OneKeyMore(m, id, s);
    NextSlot(|m|, n);
  }

  lemma OneKeyMore(m: map<SlabId, Slab>, id: SlabId, s: Slab)
    requires id !in m
    ensures |m[id := s]| == |m| + 1
  {
    assert m[id := s].Keys == m.Keys + {id};
    assert |m[id := s]| == |m[id := s].Keys|;
  }

  lemma SlabAllocLists(p: Pool, id: SlabId, sBase: int)
    requires ListsOk(p) && p.empty == [] && p.geo.align > 0 && p.geo.num > 0 && id !in p.mem
    ensures ListsOk(SlabAlloc(p, id, sBase))
  {
    assert SlabAlloc(p, id, sBase).empty == [id];
  }

  lemma SlabAllocLive(p: Pool, id: SlabId, sBase: int)
    requires GeometryOk(p.geo) && id !in p.mem
    ensures forall jd, j :: Live(SlabAlloc(p, id, sBase), jd, j) <==> Live(p, jd, j)
  {
    NewSlabOk(p.geo, sBase);
  }

  lemma {:induction false} FirstFreeFinds(q: seq<SlabId>, mem: map<SlabId, Slab>)
    ensures var r := FirstFree(q, mem);
            && (r.Some? ==> r.value in q && r.value in mem && mem[r.value].free > 0)
            && (r.None? ==> forall id :: id in q && id in mem ==> mem[id].free <= 0)
  {
    if q != [] {
      FirstFreeFinds(q[1..], mem);
      assert q == [q[0]] + q[1..];
    }
  }

  /**
   As long as the counter says that a free object exists, find_slab finds one: the
   current slab if it has one, otherwise the first partial slab, and the empty slab only
   if there is no partial one.
   */
  lemma FindSlabFinds(p: Pool)
    requires PoolOk(p) && p.freeObjs != 0
    ensures FindSlab(p).Some? && FindSlab(p).value in p.mem && p.mem[FindSlab(p).value].free > 0
    ensures if p.cur.Some? && p.mem[p.cur.value].free > 0 then FindSlab(p) == p.cur
            else if p.partial != [] then FindSlab(p) == Some(p.partial[0])
            else p.empty != [] && FindSlab(p) == Some(p.empty[0])
  {
    var id := SomeFreeSlab(p);
    FirstFreeFinds(p.partial, p.mem);
    FirstFreeFinds(p.empty, p.mem);
    if p.cur.Some? {
      PoolCounts(p, p.cur.value);
    }
    FirstListed(p);
  }

  lemma FirstListed(p: Pool)
    requires PoolOk(p)
    ensures p.partial != [] ==> p.partial[0] in p.mem && p.mem[p.partial[0]].free > 0
    ensures p.empty != [] ==> p.empty[0] in p.mem && p.mem[p.empty[0]].free > 0
  {
    if p.partial != [] {
      assert p.partial[0] in p.partial;
    }
    if p.empty != [] {
      assert p.empty[0] in p.empty;
      PoolCounts(p, p.empty[0]);
    }
  }

  lemma SomeFreeSlab(p: Pool) returns (id: SlabId)
    requires PoolOk(p) && p.freeObjs != 0
    ensures id in p.mem && p.mem[id].free > 0 && (id in p.partial || id in p.empty)
  {
    forall k | k in p.mem ensures FreeOf(p.mem[k]) >= 0 {
      PoolCounts(p, k);
    }
    SumBounds(p.mem, FreeOf);
    id :| id in p.mem && FreeOf(p.mem[id]) > 0;
    PoolCounts(p, id);
  }

  /**
   mempool_alloc in a pool in order: NULL exactly when no object is free and the
   system allocator refuses, otherwise the address of a slot that was free; that
   slot becomes live and every other keeps its state.
   */
  lemma AllocOk(p: Pool, sys: Option<(SlabId, int)>)
    requires PoolOk(p) && SysOk(p, sys)
    ensures var (p', r) := Alloc(p, Intended, sys);
            && PoolOk(p')
            && (r.None? <==> p.freeObjs == 0 && sys.None?)
            && (r.None? ==> p' == p)
            && (r.Some? ==> p'.cur.Some? && exists i :: TookSlot(p, p', p'.cur.value, i, r.value))
  {
    if p.freeObjs == 0 {
      if sys.Some? {
        AllocNewOk(p, sys.value.0, sys.value.1);
      }
    } else {
      AllocFoundOk(p, sys);
    }
  }

  lemma AllocNewOk(p: Pool, id: SlabId, sBase: int)
    requires PoolOk(p) && p.freeObjs == 0 && SysOk(p, Some((id, sBase)))
    ensures var (p', r) := Alloc(p, Intended, Some((id, sBase)));
            PoolOk(p') && r.Some? && p'.cur == Some(id) && exists i :: TookSlot(p, p', id, i, r.value)
  {
    var p1 := SlabAlloc(p, id, sBase);
    SlabAllocOk(p, id, sBase);
    SlabAllocLive(p, id, sBase);
    AllocFromOk(p1, id);
    var (p', r) := Alloc(p, Intended, Some((id, sBase)));
    assert TookSlot(p1, p', id, p1.mem[id].freeIdx, r.value);
    assert TookSlot(p, p', id, p1.mem[id].freeIdx, r.value);
  }

  lemma AllocFoundOk(p: Pool, sys: Option<(SlabId, int)>)
    requires PoolOk(p) && p.freeObjs != 0
    ensures var (p', r) := Alloc(p, Intended, sys);
            PoolOk(p') && r.Some? && p'.cur.Some? && exists i :: TookSlot(p, p', p'.cur.value, i, r.value)
  {
    FindSlabFinds(p);
    var id := FindSlab(p).value;
    AllocCurOk(p, id);
    AllocIsTake(p, sys, id);
    assert TookSlot(p, Alloc(p, Intended, sys).0, id, p.mem[id].freeIdx, Alloc(p, Intended, sys).1.value);
  }

  lemma AllocIsTake(p: Pool, sys: Option<(SlabId, int)>, id: SlabId)
    requires p.geo.align > 0 && p.geo.num > 0 && CurOk(p) && p.freeObjs != 0 && FindSlab(p) == Some(id)
    requires id in p.mem && 0 <= p.mem[id].freeIdx < |p.mem[id].freelist|
    ensures Alloc(p, Intended, sys) == (AllocFrom(p.(cur := Some(id)), id, Intended),
                                        Some(ObjAddr(p.geo, p.mem[id], p.mem[id].freeIdx)))
  {
  }

  lemma AllocCurOk(p: Pool, id: SlabId)
    requires PoolOk(p) && id in p.mem && p.mem[id].free > 0
    ensures 0 <= p.mem[id].freeIdx < |p.mem[id].freelist|
    ensures var p1 := p.(cur := Some(id));
            && PoolOk(AllocFrom(p1, id, Intended)) && AllocFrom(p1, id, Intended).cur == Some(id)
            && TookSlot(p, AllocFrom(p1, id, Intended), id, p.mem[id].freeIdx,
                        ObjAddr(p.geo, p.mem[id], p.mem[id].freeIdx))
  {
    var p1 := p.(cur := Some(id));
    AllocFromOk(p1, id);
    assert forall jd, j :: Live(p1, jd, j) <==> Live(p, jd, j);
  }

  // --------------------------------------------------------- layout and lookup

  /**
   Live objects, indeed all slots, are aligned, lie inside their slab's block and
   are pairwise disjoint, within a slab and across slabs.
   */
  lemma SlotsDisjoint(p: Pool, a: SlabId, i: int, b: SlabId, j: int)
    requires PoolOk(p) && a in p.mem && b in p.mem && 0 <= i < p.geo.num && 0 <= j < p.geo.num
    requires (a, i) != (b, j)
    ensures var x, y := ObjAddr(p.geo, p.mem[a], i), ObjAddr(p.geo, p.mem[b], j);
            && x % p.geo.align == 0
            && p.mem[a].sBase <= x && x + p.geo.size <= p.mem[a].sBase + p.geo.slabSize
            && (x + p.geo.size <= y || y + p.geo.size <= x)
  {
    SlotInBlock(p.geo, p.mem[a], i);
    SlotInBlock(p.geo, p.mem[b], j);
    if a == b {
      SlotsApart(p.geo, p.mem[a], i, j);
      SlotsApart(p.geo, p.mem[a], j, i);
    }
  }

  lemma {:induction false} FirstHoldingFinds(q: seq<SlabId>, mem: map<SlabId, Slab>, obj: int)
    ensures var r := FirstHolding(q, mem, obj);
            && (r.Some? ==> r.value in q && r.value in mem && mem[r.value].used > 0 && AddrInSlab(mem[r.value], obj))
            && (r.None? ==> forall id :: id in q && id in mem ==> mem[id].used <= 0 || !AddrInSlab(mem[id], obj))
  {
    if q != [] {
      FirstHoldingFinds(q[1..], mem, obj);
      assert q == [q[0]] + q[1..];
    }
  }

  /** Although the test includes obj_end, only the owner's range contains the address of a slot. */
  lemma OnlyOwnerHolds(p: Pool, id: SlabId, i: int, other: SlabId)
    requires Tracked(p) && id in p.mem && 0 <= i < p.geo.num && other in p.mem
    requires AddrInSlab(p.mem[other], ObjAddr(p.geo, p.mem[id], i))
    ensures other == id
  {
    SlotInBlock(p.geo, p.mem[id], i);
    SlotInBlock(p.geo, p.mem[other], 0);
  }

  /** find_obj_slab returns the slab that owns a live object, and the slot is recovered from the address. */
  lemma FindObjSlabExact(p: Pool, id: SlabId, i: int)
    requires Tracked(p) && Live(p, id, i)
    ensures FindObjSlab(p, ObjAddr(p.geo, p.mem[id], i)) == Some(id)
    ensures SlotOf(p.geo, p.mem[id], ObjAddr(p.geo, p.mem[id], i)) == i
  {
    var obj := ObjAddr(p.geo, p.mem[id], i);
    LiveInRange(p, id, i);
    FindObjSlabFinds(p, id, obj);
    OnlyOwnerHolds(p, id, i, FindObjSlab(p, obj).value);
  }

  lemma LiveInRange(p: Pool, id: SlabId, i: int)
    requires Tracked(p) && Live(p, id, i)
    ensures var s, obj := p.mem[id], ObjAddr(p.geo, p.mem[id], i);
            0 <= i < p.geo.num && s.used > 0 && AddrInSlab(s, obj) && SlotOf(p.geo, s, obj) == i
  {
    SlotInBlock(p.geo, p.mem[id], i);
    SlotsApart(p.geo, p.mem[id], i, i);
    UsedMeansCounted(p.geo, p.mem[id], i);
  }

  lemma FindObjSlabFinds(p: Pool, id: SlabId, obj: int)
    requires Tracked(p) && id in p.mem && p.mem[id].used > 0 && AddrInSlab(p.mem[id], obj)
    ensures var r := FindObjSlab(p, obj);
            r.Some? && r.value in p.mem && AddrInSlab(p.mem[r.value], obj)
  {
    LiveMeansUsed(p, id);
    FirstHoldingFinds(p.partial, p.mem, obj);
    FirstHoldingFinds(p.full, p.mem, obj);
    assert id in p.partial || id in p.full;
  }

  /**
   find_obj_slab returns a slab exactly for the addresses from its first object up to and
   including the one behind its last, as long as it has a used object.
   */
  lemma FindObjSlabIff(p: Pool, obj: int, id: SlabId)
    requires Tracked(p)
    ensures FindObjSlab(p, obj) == Some(id) <==>
              && id in p.mem && p.mem[id].used > 0
              && p.mem[id].objBase <= obj <= p.mem[id].objBase + p.geo.num * p.geo.size
  {
    FirstHoldingFinds(p.partial, p.mem, obj);
    FirstHoldingFinds(p.full, p.mem, obj);
    if id in p.mem && p.mem[id].used > 0 && AddrInSlab(p.mem[id], obj) {
      FindObjSlabFinds(p, id, obj);
      RangesApart(p, id, FindObjSlab(p, obj).value, obj);
    }
  }

  lemma RangesApart(p: Pool, a: SlabId, b: SlabId, obj: int)
    requires GeometryOk(p.geo) && ChainsOk(p) && BlocksApart(p) && a in p.mem && b in p.mem
    requires AddrInSlab(p.mem[a], obj) && AddrInSlab(p.mem[b], obj)
    ensures a == b
  {
    SlotInBlock(p.geo, p.mem[a], 0);
    SlotInBlock(p.geo, p.mem[b], 0);
  }

  lemma LiveMeansUsed(p: Pool, id: SlabId)
    requires Tracked(p) && id in p.mem && p.mem[id].used > 0
    ensures p.usedObjs > 0 && p.mem[id].free >= 0
  {
    forall k | k in p.mem ensures UsedOf(p.mem[k]) >= 0 {
      PoolCounts(p, k);
    }
    SumBounds(p.mem, UsedOf);
    PoolCounts(p, id);
    assert UsedOf(p.mem[id]) > 0;
  }

  /** The counters: all objects are used or free, and none is negative, so the unsigned fields never wrap. */
  lemma CountersAgree(p: Pool)
    requires PoolOk(p)
    ensures p.totalObjs == p.usedObjs + p.freeObjs == p.slabNums * p.geo.num
    ensures p.usedObjs >= 0 && p.freeObjs >= 0 && p.slabNums >= 0
  {
    forall k | k in p.mem ensures UsedOf(p.mem[k]) >= 0 && FreeOf(p.mem[k]) >= 0
                               && UsedOf(p.mem[k]) + FreeOf(p.mem[k]) == p.geo.num {
      PoolCounts(p, k);
    }
    SumBounds(p.mem, UsedOf);
    SumBounds(p.mem, FreeOf);
    SumSplit(p.mem, UsedOf, FreeOf, p.geo.num);
  }

  // --------------------------------------------------------------- the teardown

  /** The slots below n that are off the chain c. */
  function OffChain(c: seq<int>, n: nat): seq<int> {
    if n == 0 then [] else OffChain(c, n - 1) + (if n - 1 in c then [] else [n - 1])
  }

  lemma {:induction false} OffChainSame(c: seq<int>, d: seq<int>, n: nat)
    requires forall i :: 0 <= i < n ==> (i in c <==> i in d)
    ensures OffChain(c, n) == OffChain(d, n)
  {
    if n > 0 {
      OffChainSame(c, d, n - 1);
    }
  }

  lemma RemovedMembers(c: seq<int>, j: nat)
    requires j < |c|
    ensures forall i :: i != c[j] ==> (i in c <==> i in RemoveAt(c, j))
  {
    var d := RemoveAt(c, j);
    forall i | i in c && i != c[j] ensures i in d {
      var k :| 0 <= k < |c| && c[k] == i;
      assert d[if k < j then k else k - 1] == i;
    }
  }

  lemma {:induction false} OffChainCount(c: seq<int>, n: nat)
    requires NoDup(c) && forall k :: 0 <= k < |c| ==> 0 <= c[k] < n
    ensures |OffChain(c, n)| == n - |c|
    decreases n
  {
    if n == 0 {
      Pigeonhole(c, 0);
    } else if n - 1 in c {
      var j :| 0 <= j < |c| && c[j] == n - 1;
      var d := RemoveAt(c, j);
      OffChainCount(d, n - 1);
      RemovedMembers(c, j);
      OffChainSame(c, d, n - 1);
    } else {
      OffChainCount(c, n - 1);
    }
  }

  lemma {:induction false} UsedSlotsAreOffChain(g: Geometry, s: Slab, n: nat)
    requires GeometryOk(g) && SlabOk(g, s) && n <= g.num
    ensures UsedSlots(s, Intended, n) == OffChain(FreeChain(s), n)
  {
    if n > 0 {
      UsedSlotsAreOffChain(g, s, n - 1);
      InUseTestExact(g, s, n - 1);
    }
  }

  lemma {:induction false} OffChainMembers(c: seq<int>, n: nat)
    ensures forall i :: i in OffChain(c, n) <==> 0 <= i < n && i !in c
    ensures forall k :: 0 <= k < |OffChain(c, n)| ==> 0 <= OffChain(c, n)[k] < n
    ensures NoDup(OffChain(c, n))
  {
    if n > 0 {
      OffChainMembers(c, n - 1);
    }
  }

  /** The teardown of a slab destroys exactly its live objects, each once, and counts them exactly. */
  lemma TeardownExact(g: Geometry, s: Slab)
    requires GeometryOk(g) && SlabOk(g, s)
    ensures NoDup(UsedSlots(s, Intended, g.num))
    ensures forall i :: i in UsedSlots(s, Intended, g.num) <==> IsUsed(s, i)
    ensures |UsedSlots(s, Intended, g.num)| == s.used
  {
    UsedSlotsAreOffChain(g, s, g.num);
    OffChainMembers(FreeChain(s), g.num);
    OffChainCount(FreeChain(s), g.num);
  }

  lemma {:induction false} UsedSlotsAsWrittenEmpty(g: Geometry, s: Slab, n: nat)
    requires GeometryOk(g) && Chained(g, s, FreeChain(s)) && n <= g.num
    ensures UsedSlots(s, AsWritten, n) == []
  {
    if n > 0 {
      UsedSlotsAsWrittenEmpty(g, s, n - 1);
      InUseTestAsWrittenNever(g, s, n - 1);
    }
  }

  // --------------------------------------------------------------- mempool_free

  /** Between p and p' exactly slot i of slab id has stopped being live. */
  ghost predicate FreedSlot(p: Pool, p': Pool, id: SlabId, i: int) {
    && Live(p, id, i)
    && forall jd, j :: Live(p', jd, j) <==> Live(p, jd, j) && (jd != id || j != i)
  }

  lemma WithoutSlabLists(p: Pool, id: SlabId, p': Pool)
    requires ListsOk(p) && p'.mem == p.mem - {id}
    requires p'.partial == Without(p.partial, id) && p'.full == Without(p.full, id)
    requires p'.empty == Without(p.empty, id)
    ensures ListsOk(p')
  {
    WithoutOne(p.partial, id);
    WithoutOne(p.full, id);
    WithoutOne(p.empty, id);
  }

  lemma OneSlabLess(m: map<SlabId, Slab>, id: SlabId, n: int)
    requires id in m
    ensures |m - {id}| == |m| - 1 && |m - {id}| * n == |m| * n - n
  {
    var rest := m - {id};
    assert m == rest[id := m[id]];
    OneKeyMore(rest, id, m[id]);
    NextSlot(|rest|, n);
  }

  lemma WithoutSlabCounts(p: Pool, id: SlabId, p': Pool)
    requires CountsOk(p) && id in p.mem && p'.geo == p.geo && p'.mem == p.mem - {id}
    requires p'.slabNums == p.slabNums - 1 && p'.totalObjs == p.totalObjs - p.geo.num
    requires p'.usedObjs == p.usedObjs - p.mem[id].used && p'.freeObjs == p.freeObjs - p.mem[id].free
    ensures CountsOk(p')
  {
    SumRemove(p.mem, UsedOf, id);
    SumRemove(p.mem, FreeOf, id);
    OneSlabLess(p.mem, id, p.geo.num);
  }

  /** What is left when a slab is gone: lists without it, counters less its share. */
  ghost predicate SlabGone(p: Pool, id: SlabId, p': Pool) {
    && id in p.mem && p'.geo == p.geo && p'.mem == p.mem - {id}
    && p'.partial == Without(p.partial, id) && p'.full == Without(p.full, id)
    && p'.empty == Without(p.empty, id)
    && p'.slabNums == p.slabNums - 1 && p'.totalObjs == p.totalObjs - p.geo.num
    && p'.usedObjs == p.usedObjs - p.mem[id].used && p'.freeObjs == p.freeObjs - p.mem[id].free
    && p'.cur == if p.cur == Some(id) then None else p.cur
  }

  lemma SlabGoneOk(p: Pool, id: SlabId, p': Pool)
    requires PoolOk(p) && SlabGone(p, id, p')
    ensures PoolOk(p')
  {
    WithoutSlabLists(p, id, p');
    WithoutSlabCounts(p, id, p');
    WithoutSlabBlocks(p, id, p');
  }

  lemma WithoutSlabBlocks(p: Pool, id: SlabId, p': Pool)
    requires SlabsOk(p) && BlocksApart(p) && p'.geo == p.geo && p'.mem == p.mem - {id}
    ensures SlabsOk(p') && BlocksApart(p')
  {
  }

  /** Releasing any slab of a pool in order, with its counters, leaves a pool in order. */
  lemma FreeOneSlabOk(p: Pool, id: SlabId)
    requires PoolOk(p) && id in p.mem
    ensures var p' := FreeOneSlab(p, id, Intended);
            && PoolOk(p'.(cur := if p.cur == Some(id) then None else p.cur))
            && p'.geo == p.geo && p'.mem == p.mem - {id} && p'.cur == p.cur
            && (p.cur.None? ==> PoolOk(p'))
  {
    var p' := FreeOneSlab(p, id, Intended);
    TeardownExact(p.geo, p.mem[id]);
    PoolCounts(p, id);
    SlabGoneOk(p, id, p'.(cur := if p.cur == Some(id) then None else p.cur));
    assert p.cur.None? ==> p'.(cur := None) == p';
  }

  /** The slab left by a free, and the facts that choose the branch. */
  lemma FreeBranch(p: Pool, id: SlabId, i: int)
    requires PoolOk(p) && Live(p, id, i)
    ensures 0 <= i < |p.mem[id].freelist| == p.geo.num
    ensures var s, s' := p.mem[id], NoteTail(PutObj(p.mem[id], i), i);
            && SlabOk(p.geo, s') && s'.sBase == s.sBase && s'.objBase == s.objBase
            && s'.used == s.used - 1 >= 0 && s'.free == s.free + 1
            && (s.lastFreeIdx == -1 <==> s.free == 0)
            && (s.used == 1 ==> s.free > 0 && s' == PutObj(s, i))
            && forall j :: IsUsed(s', j) <==> IsUsed(s, j) && j != i
  {
    PutObjOk(p.geo, p.mem[id], i);
    PoolCounts(p, id);
  }

  /** The list a slab goes to in a free that does not release it; None if it stays. */
  function FreeTo(s: Slab): Option<ListName> {
    if s.used == 1 then Some(EmptyList) else if s.lastFreeIdx == -1 then Some(PartialList) else None
  }

  /** What a free that releases nothing changes. */
  lemma FreeMovesFields(p: Pool, id: SlabId, i: int, mode: Mode)
    requires id in p.mem && 0 <= i < |p.mem[id].freelist| && 0 <= p.geo.num <= |p.mem[id].freelist|
    requires p.mem[id].used == 1 ==> p.empty == [] && p.mem[id].lastFreeIdx != -1
    ensures var m := p.(mem := p.mem[id := NoteTail(PutObj(p.mem[id], i), i)], freeObjs := p.freeObjs + 1,
                        usedObjs := p.usedObjs - 1);
            FreeObj(p, id, i, mode) ==
              Some(match FreeTo(p.mem[id]) case None => m case Some(to) => MoveList(m, id, to))
  {
    var s := PutObj(p.mem[id], i);
    assert p.mem[id := s][id := NoteTail(s, i)] == p.mem[id := NoteTail(s, i)];
  }

  /** Freeing without releasing: the slab moves to its new class. */
  lemma FreeMovesOk(p: Pool, id: SlabId, i: int, mode: Mode)
    requires PoolOk(p) && Live(p, id, i) && (p.mem[id].used > 1 || p.empty == [])
    ensures 0 <= i < |p.mem[id].freelist| == p.geo.num
    ensures var r := FreeObj(p, id, i, mode);
            r.Some? && PoolOk(r.value) && r.value.geo == p.geo
            && r.value.mem == p.mem[id := NoteTail(PutObj(p.mem[id], i), i)]
  {
    FreeBranch(p, id, i);
    FreeMovesFields(p, id, i, mode);
    var s', p' := NoteTail(PutObj(p.mem[id], i), i), FreeObj(p, id, i, mode).value;
    ReplaceSlab(p, id, s', p');
    ReplaceCounts(p, id, s', p');
    FreeMovesLists(p, id, i, p');
  }

  lemma FreeMovesLists(p: Pool, id: SlabId, i: int, p': Pool)
    requires PoolOk(p) && Live(p, id, i) && (p.mem[id].used > 1 || p.empty == [])
    requires 0 <= i < |p.mem[id].freelist|
    requires var m := p.(mem := p.mem[id := NoteTail(PutObj(p.mem[id], i), i)], freeObjs := p.freeObjs + 1,
                         usedObjs := p.usedObjs - 1);
             p' == match FreeTo(p.mem[id]) case None => m case Some(to) => MoveList(m, id, to)
    ensures ListsOk(p')
  {
    FreeBranch(p, id, i);
    PoolCounts(p, id);
    var s, s' := p.mem[id], NoteTail(PutObj(p.mem[id], i), i);
    if s.used == 1 {
      MoveKeepsLists(p, id, s', EmptyList);
    } else if s.free == 0 {
      MoveKeepsLists(p, id, s', PartialList);
    } else {
      StayKeepsLists(p, id, s', PartialList);
    }
  }

  /** Freeing the last object while an empty slab exists releases the slab. */
  lemma FreeReleasesOk(p: Pool, id: SlabId, i: int)
    requires PoolOk(p) && Live(p, id, i) && p.mem[id].used == 1 && p.empty != []
    ensures 0 <= i < |p.mem[id].freelist| == p.geo.num
    ensures var r := FreeObj(p, id, i, Intended);
            r.Some? && PoolOk(r.value) && r.value.geo == p.geo && r.value.mem == p.mem - {id}
  {
    FreeReleasesFields(p, id, i);
    SlabGoneOk(p, id, FreeObj(p, id, i, Intended).value);
  }

  lemma FreeReleasesFields(p: Pool, id: SlabId, i: int)
    requires PoolOk(p) && Live(p, id, i) && p.mem[id].used == 1 && p.empty != []
    ensures 0 <= i < |p.mem[id].freelist| == p.geo.num
    ensures var r := FreeObj(p, id, i, Intended);
            r.Some? && SlabGone(p, id, r.value)
  {
    FreeBranch(p, id, i);
    PoolCounts(p, id);
    TeardownExact(p.geo, PutObj(p.mem[id], i));
    ReleaseFields(p, id, i);
  }

  lemma ReleaseFields(p: Pool, id: SlabId, i: int)
    requires id in p.mem && 0 <= i < |p.mem[id].freelist| == p.geo.num
    requires p.mem[id].used == 1 && p.mem[id].free == p.geo.num - 1 && p.empty != []
    requires UsedSlots(PutObj(p.mem[id], i), Intended, p.geo.num) == []
    ensures var r := FreeObj(p, id, i, Intended);
            r.Some? && SlabGone(p, id, r.value)
  {
    var s' := PutObj(p.mem[id], i);
    assert p.mem[id := s'] - {id} == p.mem - {id};
  }

  /**
   mempool_free of a live object in a pool in order: exactly its slot stops being
   live and the pool stays in order, also when the slab is released in the middle.
   */
  lemma FreeOk(p: Pool, id: SlabId, i: int)
    requires PoolOk(p) && Live(p, id, i)
    ensures 0 <= i < |p.mem[id].freelist| == p.geo.num
    ensures var r := FreeObj(p, id, i, Intended);
            r.Some? && PoolOk(r.value) && FreedSlot(p, r.value, id, i)
  {
    FreeBranch(p, id, i);
    if p.mem[id].used == 1 && p.empty != [] {
      FreeReleasesOk(p, id, i);
      ReleasedLive(p, FreeObj(p, id, i, Intended).value, id, i);
    } else {
      FreeMovesOk(p, id, i, Intended);
      FreedFromSlab(p, FreeObj(p, id, i, Intended).value, id, NoteTail(PutObj(p.mem[id], i), i), i);
    }
  }

  lemma FreedFromSlab(p: Pool, p': Pool, id: SlabId, s': Slab, i: int)
    requires id in p.mem && p'.mem == p.mem[id := s'] && IsUsed(p.mem[id], i)
    requires forall j :: IsUsed(s', j) <==> IsUsed(p.mem[id], j) && j != i
    ensures FreedSlot(p, p', id, i)
  {
  }

  /** A slab with one used object has one live slot. */
  lemma ReleasedLive(p: Pool, p': Pool, id: SlabId, i: int)
    requires PoolOk(p) && Live(p, id, i) && p.mem[id].used == 1 && p'.mem == p.mem - {id}
    ensures FreedSlot(p, p', id, i)
  {
    FreeBranch(p, id, i);
    var s' := NoteTail(PutObj(p.mem[id], i), i);
    forall j | IsUsed(p.mem[id], j) ensures j == i {
      if j != i {
        assert IsUsed(s', j);
        UsedMeansCounted(p.geo, s', j);
      }
    }
  }
}
