/** The code of src/memory/mempool.c, with its loops and in-place updates and the three intended statements. */
module MempoolCode {
  import opened Seqs
  import opened SlabSizing
  import opened SlabMem
  import opened SlabSums
  import opened MempoolState
  import opened MempoolRuns

  /** init_freelist on a zeroed array. */
  method InitFreelist(num: nat) returns (freelist: seq<int>)
    requires 0 < num <= 511
    ensures freelist == NewFreelist(num)
  {
    freelist := seq(num, _ => 0);
    var i := 0;
    while i < num - 1
      invariant 0 <= i <= num - 1 && |freelist| == num
      invariant forall j :: 0 <= j < i ==> freelist[j] == j + 1
    {
      freelist := freelist[i := i + 1];
      i := i + 1;
    }
    freelist := freelist[num - 1 := ToUShort(-1)];
  }

  /**
   mempool_create for a new name: NULL exactly when the alignment slack and 8
   objects do not fit 64 pages, otherwise an empty pool in order.
   */
  method MempoolCreate(objSize: int, align: int) returns (pool: Mempool?)
    requires IsUsable(align) && 1 <= objSize < 0x8000_0000
    ensures pool == null <==> 8 * PoolSize(objSize, align) + CalculateAlignment(align) > 64 * PAGE_SIZE
    ensures pool != null ==>
      && PoolOk(pool.View()) && pool.View() == NewPool(pool.geo)
      && pool.geo.size == PoolSize(objSize, align) && pool.geo.align == CalculateAlignment(align)
      && (var g := pool.geo;
          && g.align % 8 == 0 && align <= g.align < align + 8
          && g.size % g.align == 0 && objSize <= g.size < objSize + g.align
          && WellSized(g.size, g.align, g.num, g.slabSize))
  {
    CalculateAlignmentIs(align);
    PoolSizeBounds(objSize, align);
    var ok, size, poolAlign, order, num := SizePool(objSize, align);
    if !ok {
      return null;
    }
    pool := new Mempool(Geometry(size, poolAlign, num, SlabSize(order)));
  }

  /** `struct mempool` and its slabs_info. */
  class Mempool {
    const geo: Geometry
    var partial: seq<SlabId>
    var full: seq<SlabId>
    var empty: seq<SlabId>
    var cur: Option<SlabId>
    var slabNums: int
    var totalObjs: int
    var usedObjs: int
    var freeObjs: int
    var mem: map<SlabId, Slab>

    function View(): Pool
      reads this
    {
      Pool(geo, partial, full, empty, cur, slabNums, totalObjs, usedObjs, freeObjs, mem)
    }

    /** init_slabs_info of mempool_create. */
    constructor (g: Geometry)
      requires GeometryOk(g)
      ensures View() == NewPool(g) && PoolOk(View())
    {
      geo := g;
      partial, full, empty, cur := [], [], [], None;
      slabNums, totalObjs, usedObjs, freeObjs, mem := 0, 0, 0, 0, map[];
      new;
      NewPoolOk(g);
    }

    /** MOVE_LIST */
    method Move(id: SlabId, to: ListName)
      modifies this`partial, this`full, this`empty
      ensures View() == MoveList(old(View()), id, to)
    {
      partial := Without(partial, id);
      full := Without(full, id);
      empty := Without(empty, id);
      match to
      case PartialList => partial := [id] + partial;
      case FullList => full := [id] + full;
      case EmptyList => empty := [id] + empty;
    }

    method SlabAllocate(id: SlabId, sBase: int)
      requires GeometryOk(geo)
      modifies this
      ensures View() == SlabAlloc(old(View()), id, sBase)
    {
      var freelist := InitFreelist(geo.num);
      var objBase := Align(sBase, geo.align);
      var slab := Slab(sBase, objBase, objBase + geo.num * geo.size, 0, geo.num - 1, 0, geo.num, freelist);
      mem := mem[id := slab];
      empty := [id] + empty;
      slabNums := slabNums + 1;
      freeObjs := freeObjs + geo.num;
      totalObjs := totalObjs + geo.num;
      cur := Some(id);
    }

    /** One list_for_each_entry loop of load_slab. */
    method FirstWithFree(q: seq<SlabId>) returns (r: Option<SlabId>)
      ensures r == FirstFree(q, mem)
    {
      var i := 0;
      while i < |q|
        invariant i <= |q| && FirstFree(q, mem) == FirstFree(q[i..], mem)
      {
        if q[i] in mem && mem[q[i]].free > 0 {
          return Some(q[i]);
        }
        i := i + 1;
      }
      r := None;
    }

    /** find_slab and load_slab. */
    method FindSlabNow() returns (r: Option<SlabId>)
      requires CurOk(View())
      modifies this`cur
      ensures r == FindSlab(old(View()))
      ensures cur == if r.Some? then r else old(cur)
    {
      if cur.Some? && mem[cur.value].free != 0 {
        return cur;
      }
      r := FirstWithFree(partial);
      if r.None? {
        r := FirstWithFree(empty);
      }
      if r.Some? {
        cur := r;
      }
    }

    method AllocObjFromSlab(id: SlabId) returns (obj: int)
      requires id in mem && 0 <= mem[id].freeIdx < |mem[id].freelist|
      modifies this
      ensures View() == AllocFrom(old(View()), id, Intended)
      ensures obj == ObjAddr(geo, old(mem)[id], old(mem)[id].freeIdx)
    {
      var slab := mem[id];
      var freeIdx := slab.freeIdx;
      var last := freeIdx == slab.lastFreeIdx;
      slab := slab.(freeIdx := ToShort(slab.freelist[freeIdx]));
      slab := slab.(freelist := slab.freelist[freeIdx := ToUShort(-1)]);
      slab := slab.(free := slab.free - 1, used := slab.used + 1);
      if last {
        slab := slab.(lastFreeIdx := -1);
      }
      mem := mem[id := slab];
      if last {
        Move(id, FullList);
      }
      if slab.used == 1 {
        Move(id, PartialList);
      }
      freeObjs := freeObjs - 1;
      usedObjs := usedObjs + 1;
      obj := slab.objBase + freeIdx * geo.size;
    }

    /** The body of mempool_alloc. */
    method AllocNow(sys: Option<(SlabId, int)>) returns (r: Option<int>)
      requires AllocReady(View(), sys)
      modifies this
      ensures (View(), r) == Alloc(old(View()), Intended, sys)
    {
      if freeObjs == 0 {
        if sys.None? {
          return None;
        }
        SlabAllocate(sys.value.0, sys.value.1);
        var obj := AllocObjFromSlab(sys.value.0);
        return Some(obj);
      }
      var id := FindSlabNow();
      var obj := AllocObjFromSlab(id.value);
      r := Some(obj);
    }

    /** mempool_alloc: NULL exactly when nothing is free and the system refuses; otherwise a fresh live object. */
    method MempoolAlloc(sys: Option<(SlabId, int)>) returns (r: Option<int>)
      requires PoolOk(View()) && SysOk(View(), sys)
      modifies this
      ensures (View(), r) == Alloc(old(View()), Intended, sys)
      ensures PoolOk(View())
      ensures r.None? <==> old(freeObjs) == 0 && sys.None?
      ensures r.Some? ==> cur.Some? && exists i :: TookSlot(old(View()), View(), cur.value, i, r.value)
    {
      AllocOk(View(), sys);
      AllocIsReady(View(), sys);
      r := AllocNow(sys);
    }

    /** One list_for_each_entry loop of find_obj_slab. */
    method FirstThatHolds(q: seq<SlabId>, obj: int) returns (r: Option<SlabId>)
      ensures r == FirstHolding(q, mem, obj)
    {
      var i := 0;
      while i < |q|
        invariant i <= |q| && FirstHolding(q, mem, obj) == FirstHolding(q[i..], mem, obj)
      {
        if q[i] in mem && mem[q[i]].used > 0 && AddrInSlab(mem[q[i]], obj) {
          return Some(q[i]);
        }
        i := i + 1;
      }
      r := None;
    }

    method FindObjSlabNow(obj: int) returns (r: Option<SlabId>)
      ensures r == FindObjSlab(View(), obj)
    {
      if usedObjs == 0 {
        return None;
      }
      r := FirstThatHolds(partial, obj);
      if r.None? {
        r := FirstThatHolds(full, obj);
      }
    }

    /** free_all_objs_one_slab: `destroyed` is the sequence of destructor calls. */
    method FreeAllObjsOneSlab(id: SlabId) returns (destroyed: seq<int>)
      requires id in mem && 0 <= geo.num <= |mem[id].freelist|
      modifies this`usedObjs, this`freeObjs, this`totalObjs
      ensures var slots := UsedSlots(mem[id], Intended, geo.num);
              && destroyed == Addrs(geo, mem[id], slots)
              && usedObjs == old(usedObjs) - |slots|
              && freeObjs == old(freeObjs) - (geo.num - |slots|)
      ensures totalObjs == old(totalObjs) - geo.num
    {
      var slab := mem[id];
      destroyed := [];
      var i := 0;
      while i < geo.num
        invariant 0 <= i <= geo.num
        invariant destroyed == Addrs(geo, slab, UsedSlots(slab, Intended, i))
        invariant usedObjs == old(usedObjs) - |UsedSlots(slab, Intended, i)|
        invariant freeObjs == old(freeObjs) - (i - |UsedSlots(slab, Intended, i)|)
        invariant totalObjs == old(totalObjs) - i
      {
        var obj := slab.objBase + i * geo.size;
        if slab.freeIdx == -1 || (slab.freelist[i] == ToUShort(-1) && i != slab.lastFreeIdx) {
          destroyed := destroyed + [obj];
          usedObjs := usedObjs - 1;
        } else {
          freeObjs := freeObjs - 1;
        }
        totalObjs := totalObjs - 1;
        i := i + 1;
      }
    }

    method FreeSlabNow(id: SlabId) returns (destroyed: seq<int>)
      requires id in mem && 0 <= geo.num <= |mem[id].freelist|
      modifies this
      ensures View() == FreeOneSlab(old(View()), id, Intended)
      ensures destroyed == Addrs(geo, old(mem)[id], UsedSlots(old(mem)[id], Intended, geo.num))
    {
      destroyed := FreeAllObjsOneSlab(id);
      partial := Without(partial, id);
      full := Without(full, id);
      empty := Without(empty, id);
      mem := mem - {id};
      slabNums := slabNums - 1;
    }

    /** free_obj2slab for slot freeIdx. */
    method FreeObj2Slab(freeIdx: int, id: SlabId)
      requires id in mem && 0 <= freeIdx < |mem[id].freelist| && 0 <= geo.num <= |mem[id].freelist|
      modifies this
      ensures FreeObj(old(View()), id, freeIdx, Intended) == Some(View())
    {
      var slab := mem[id];
      slab := slab.(freelist := slab.freelist[freeIdx := ToUShort(slab.freeIdx)]);
      slab := slab.(freeIdx := freeIdx, free := slab.free + 1, used := slab.used - 1);
      var start := mem;
      mem := mem[id := slab];
      if slab.used == 0 && empty != [] {
        var destroyed := FreeSlabNow(id);
        cur := if cur == Some(id) then None else cur;
        freeObjs := freeObjs + 1;
        usedObjs := usedObjs - 1;
        return;
      }
      if slab.used == 0 {
        Move(id, EmptyList);
      }
      if slab.lastFreeIdx == -1 {
        mem := mem[id := slab.(lastFreeIdx := freeIdx)];
        assert mem == start[id := NoteTail(slab, freeIdx)];
        Move(id, PartialList);
      }
      freeObjs := freeObjs + 1;
      usedObjs := usedObjs - 1;
    }

    /** The body of mempool_free. */
    method FreeNow(obj: int)
      requires FreeReady(View(), obj)
      modifies this
      ensures View() == FreeAddr(old(View()), obj)
    {
      var slab := FindObjSlabNow(obj);
      if slab.Some? {
        FreeObj2Slab((obj - mem[slab.value].objBase) / geo.size, slab.value);
      }
    }

    /** mempool_free of a live object, or of an address no slab in use holds. */
    method MempoolFree(obj: int)
      requires PoolOk(View()) && ValidFree(View(), obj)
      modifies this
      ensures PoolOk(View())
      ensures FindObjSlab(old(View()), obj).None? ==> View() == old(View())
      ensures forall id, i :: Live(old(View()), id, i) && obj == ObjAddr(geo, old(mem)[id], i) ==>
                FreedSlot(old(View()), View(), id, i)
    {
      FreeAddrOk(View(), obj);
      FreeNow(obj);
    }

    /** free_all_slabs: the slabs of the three lists, one list after the other. */
    method FreeListsNow() returns (destroyed: seq<int>)
      requires PoolOk(View())
      modifies this
      ensures (View().(cur := None), destroyed)
              == FreeSlabs(old(View()).(cur := None), AllSlabs(old(View())), Intended)
    {
      ghost var p := View();
      ReleasingStarts(p);
      destroyed := ReleasePartial(p, []);
      destroyed := ReleaseFull(p, destroyed);
      destroyed := ReleaseEmpty(p, destroyed);
      ReleasingEnds(p, View(), destroyed);
    }

    method ReleasePartial(ghost p: Pool, destroyed: seq<int>) returns (all: seq<int>)
      requires Releasing(p, View(), destroyed)
      modifies this
      ensures Releasing(p, View(), all) && partial == []
    {
      all := destroyed;
      while partial != []
        invariant Releasing(p, View(), all)
        decreases |partial + full + empty|
      {
        all := ReleaseFirst(p, partial[0], all);
      }
    }

    method ReleaseFull(ghost p: Pool, destroyed: seq<int>) returns (all: seq<int>)
      requires Releasing(p, View(), destroyed) && partial == []
      modifies this
      ensures Releasing(p, View(), all) && partial == [] && full == []
    {
      all := destroyed;
      while full != []
        invariant Releasing(p, View(), all) && partial == []
        decreases |partial + full + empty|
      {
        all := ReleaseFirst(p, full[0], all);
      }
    }

    method ReleaseEmpty(ghost p: Pool, destroyed: seq<int>) returns (all: seq<int>)
      requires Releasing(p, View(), destroyed) && partial == [] && full == []
      modifies this
      ensures Releasing(p, View(), all) && partial == [] && full == [] && empty == []
    {
      all := destroyed;
      while empty != []
        invariant Releasing(p, View(), all) && partial == [] && full == []
        decreases |partial + full + empty|
      {
        all := ReleaseFirst(p, empty[0], all);
      }
    }

    /** The body of those loops. */
    method ReleaseFirst(ghost p: Pool, id: SlabId, destroyed: seq<int>) returns (all: seq<int>)
      requires Releasing(p, View(), destroyed) && AllSlabs(View()) != [] && id == AllSlabs(View())[0]
      modifies this
      ensures Releasing(p, View(), all)
      ensures |partial + full + empty| == old(|partial + full + empty|) - 1
      ensures old(partial) == [] ==> partial == []
      ensures old(full) == [] ==> full == []
    {
      ReleasingStep(p, View(), destroyed);
      AllSlabsStep(View().(cur := None));
      ghost var before := AllSlabs(View());
      var more := FreeSlabNow(id);
      all := destroyed + more;
      assert AllSlabs(View()) == before[1..];
    }

    /** free_all_slabs: the destructor runs exactly once on each live object, and all counters reach zero. */
    method FreeAllSlabs() returns (destroyed: seq<int>)
      requires PoolOk(View())
      modifies this
      ensures mem == map[] && slabNums == totalObjs == usedObjs == freeObjs == 0
      ensures NoDup(destroyed)
      ensures forall obj :: obj in destroyed <==>
                exists id, i :: Live(old(View()), id, i) && obj == ObjAddr(geo, old(mem)[id], i)
    {
      DestroyExact(View());
      destroyed := FreeListsNow();
    }
  }
}
