/**
 One slab of src/memory/mempool.c: its free chain is threaded through `freelist`,
 an array of unsigned shorts that ends the chain with (unsigned short)-1.

 Three statements of the source depart from their evident intent.  `Mode` selects
 between the statement as written and the intended one:
   line 296  a comparison with -1 where an assignment is meant;
   line 382  unsigned shorts compared with -1, which they never equal;
   line 424  a slab is released whose fields line 430 then still reads.
 */
module SlabMem {
  import opened Seqs
  import opened SlabSizing

  datatype Mode = Intended | AsWritten

  /** (freelist_idx_t)-1 */
  const END: int := 65535

  /** What a pool fixes for all its slabs. */
  datatype Geometry = Geometry(size: int, align: int, num: int, slabSize: int)

  ghost predicate GeometryOk(g: Geometry) {
    && g.size > 0 && g.align > 0 && g.size % g.align == 0
    && SLAB_OBJ_MIN_NUM <= g.num <= 511
    && g.num * g.size + g.align <= g.slabSize
  }

  /** `struct slab`; the freelist is part of the struct, so it is a field, not a shared array. */
  datatype Slab = Slab(sBase: int, objBase: int, objEnd: int,
                       freeIdx: int, lastFreeIdx: int, used: int, free: int, freelist: seq<int>)

  /** An unsigned short stored into a short. */
  function ToShort(u: int): int {
    if u >= 32768 then u - 65536 else u
  }

  /** A short stored into an unsigned short. */
  function ToUShort(s: int): int {
    if s < 0 then s + 65536 else s
  }

  function NewFreelist(n: nat): seq<int> {
    seq(n, i => if i == n - 1 then END else i + 1)
  }

  /** The slab slab_alloc builds in the block at sBase. */
  function NewSlab(g: Geometry, sBase: int): Slab
    requires g.align > 0 && g.num >= 0
  {
    var objBase := Align(sBase, g.align);
    Slab(sBase, objBase, objBase + g.num * g.size, 0, g.num - 1, 0, g.num, NewFreelist(g.num))
  }

  /** The indices met by following free_idx through freelist for n steps. */
  function Follow(freelist: seq<int>, i: int, n: int): seq<int>
    decreases n
  {
    if n <= 0 || i < 0 || i >= |freelist| then [] else [i] + Follow(freelist, ToShort(freelist[i]), n - 1)
  }

  /** The free chain, walked from free_idx for as many steps as there are free objects. */
  function FreeChain(s: Slab): seq<int> {
    Follow(s.freelist, s.freeIdx, s.free)
  }

  /** c is the free chain from index i: linked through freelist and ended by the sentinel. */
  ghost predicate Linked(freelist: seq<int>, i: int, c: seq<int>) {
    && (forall k :: 0 <= k < |c| ==> 0 <= c[k] < |freelist|)
    && i == (if c == [] then -1 else c[0])
    && forall k {:trigger freelist[c[k]]} :: 0 <= k < |c| ==>
         freelist[c[k]] == if k + 1 < |c| then c[k + 1] else END
  }

  /** The object slots that are in use: those off the free chain. */
  ghost predicate IsUsed(s: Slab, i: int) {
    0 <= i < |s.freelist| && i !in FreeChain(s)
  }

  /** c is the whole free chain of s, and every other entry of the freelist is the sentinel. */
  ghost predicate Chained(g: Geometry, s: Slab, c: seq<int>) {
    && |s.freelist| == g.num && |c| == s.free && s.used + s.free == g.num
    && NoDup(c) && Linked(s.freelist, s.freeIdx, c)
    && forall i :: 0 <= i < g.num && i !in c ==> s.freelist[i] == END
  }

  ghost predicate ChainOk(g: Geometry, s: Slab, c: seq<int>) {
    Chained(g, s, c) && s.lastFreeIdx == (if c == [] then -1 else c[|c| - 1])
  }

  /** The objects lie where slab_alloc has put them. */
  ghost predicate Laid(g: Geometry, s: Slab) {
    && g.align > 0
    && s.objBase == Align(s.sBase, g.align) && s.objEnd == s.objBase + g.num * g.size
  }

  ghost predicate SlabOk(g: Geometry, s: Slab) {
    ChainOk(g, s, FreeChain(s)) && Laid(g, s)
  }

  /** Following the links finds the chain and then the sentinel. */
  lemma {:induction false} FollowFinds(freelist: seq<int>, i: int, c: seq<int>)
    requires Linked(freelist, i, c) && |freelist| <= 511
    ensures Follow(freelist, i, |c|) == c
    decreases |c|
  {
    if c != [] {
      var rest := c[1..];
      assert freelist[c[0]] == if 1 < |c| then c[1] else END;
      assert forall k :: 0 <= k < |rest| ==> rest[k] == c[k + 1];
      FollowFinds(freelist, ToShort(freelist[c[0]]), rest);
      assert c == [c[0]] + rest;
    }
  }

  lemma ChainIsFreeChain(g: Geometry, s: Slab, c: seq<int>)
    requires GeometryOk(g) && Chained(g, s, c)
    ensures FreeChain(s) == c
  {
    FollowFinds(s.freelist, s.freeIdx, c);
  }

  /** Distinct numbers below n are at most n. */
  lemma {:induction false} Pigeonhole(c: seq<int>, n: nat)
    requires NoDup(c) && forall k :: 0 <= k < |c| ==> 0 <= c[k] < n
    ensures |c| <= n
    decreases n
  {
    if c != [] {
      assert 0 <= c[0] < n;
      if j :| 0 <= j < |c| && c[j] == n - 1 {
        var d := RemoveAt(c, j);
        Pigeonhole(d, n - 1);
      } else {
        Pigeonhole(c, n - 1);
      }
    }
  }

  /** A slot is used only in a slab that counts a used object, and only if some object is not free. */
  lemma UsedMeansCounted(g: Geometry, s: Slab, i: int)
    requires Chained(g, s, FreeChain(s)) && g.num >= 0 && IsUsed(s, i)
    ensures s.used > 0 && s.free < g.num
  {
    var c := FreeChain(s) + [i];
    Pigeonhole(c, g.num);
  }

  // --------------------------------------------------------------- slab_alloc

  lemma NewSlabOk(g: Geometry, sBase: int)
    requires GeometryOk(g)
    ensures SlabOk(g, NewSlab(g, sBase))
    ensures forall i :: !IsUsed(NewSlab(g, sBase), i)
    ensures NewSlab(g, sBase).free == g.num && NewSlab(g, sBase).used == 0
  {
    var s, c := NewSlab(g, sBase), Count(g.num);
    NewSlabChain(g, sBase);
    ChainIsFreeChain(g, s, c);
    forall i ensures !IsUsed(s, i) {
      if IsUsed(s, i) {
        UsedMeansCounted(g, s, i);
      }
    }
  }

  lemma NewSlabChain(g: Geometry, sBase: int)
    requires GeometryOk(g)
    ensures ChainOk(g, NewSlab(g, sBase), Count(g.num))
  {
    var c := Count(g.num);
    NewFreelistLinked(g.num);
    forall i | 0 <= i < g.num ensures i in c {
      assert c[i] == i;
    }
  }

  function Count(n: nat): (c: seq<int>)
    ensures |c| == n && forall i :: 0 <= i < n ==> c[i] == i
  {
    seq(n, i => i)
  }

  lemma NewFreelistLinked(n: nat)
    requires 0 < n
    ensures Linked(NewFreelist(n), 0, Count(n)) && NoDup(Count(n))
  {
  }

  // ------------------------------------------------------ alloc_obj_from_slab

  /** The part of alloc_obj_from_slab that concerns the slab. */
  function TakeObj(s: Slab, mode: Mode): Slab
    requires 0 <= s.freeIdx < |s.freelist|
  {
    var i := s.freeIdx;
    s.(freeIdx := ToShort(s.freelist[i]), freelist := s.freelist[i := END],
       free := s.free - 1, used := s.used + 1,
       lastFreeIdx := if i == s.lastFreeIdx && mode == Intended then -1 else s.lastFreeIdx)
  }

  /** The assertion in alloc_obj_from_slab never fires on a slab with a free object. */
  lemma FreeIdxValid(g: Geometry, s: Slab)
    requires GeometryOk(g) && SlabOk(g, s) && s.free > 0
    ensures 0 <= s.freeIdx < |s.freelist| && FreeChain(s)[0] == s.freeIdx
    ensures s.freeIdx == s.lastFreeIdx <==> s.free == 1
  {
    var c := FreeChain(s);
    assert c[0] == s.freeIdx;
  }

  /** In either mode the object taken was free, is used afterwards, and nothing else changes hands. */
  lemma TakeObjChained(g: Geometry, s: Slab, mode: Mode)
    requires GeometryOk(g) && Chained(g, s, FreeChain(s)) && s.free > 0
    ensures 0 <= s.freeIdx < |s.freelist|
    ensures var s' := TakeObj(s, mode);
            && Chained(g, s', FreeChain(s')) && s'.used == s.used + 1
            && FreeChain(s') == FreeChain(s)[1..]
            && !IsUsed(s, s.freeIdx)
            && (forall i :: IsUsed(s', i) <==> IsUsed(s, i) || i == s.freeIdx)
  {
    var c := FreeChain(s);
    assert c[0] == s.freeIdx;
    var s', d := TakeObj(s, mode), c[1..];
    LinkedTail(s.freelist, s.freeIdx, c);
    assert c == [c[0]] + d;
    assert Chained(g, s', d);
    ChainIsFreeChain(g, s', d);
  }

  /** With line 296 as intended, last_free_idx stays the tail of the chain too. */
  lemma TakeObjOk(g: Geometry, s: Slab)
    requires GeometryOk(g) && SlabOk(g, s) && s.free > 0
    ensures 0 <= s.freeIdx < |s.freelist|
    ensures var s' := TakeObj(s, Intended);
            && SlabOk(g, s') && s'.used == s.used + 1
            && FreeChain(s') == FreeChain(s)[1..]
            && !IsUsed(s, s.freeIdx)
            && (forall i :: IsUsed(s', i) <==> IsUsed(s, i) || i == s.freeIdx)
  {
    FreeIdxValid(g, s);
    TakeObjChained(g, s, Intended);
  }

  lemma LinkedTail(freelist: seq<int>, first: int, c: seq<int>)
    requires Linked(freelist, first, c) && NoDup(c) && c != [] && |freelist| <= 511
    ensures Linked(freelist[c[0] := END], ToShort(freelist[c[0]]), c[1..]) && NoDup(c[1..]) && c[0] !in c[1..]
  {
    var d := c[1..];
    assert freelist[c[0]] == if 1 < |c| then c[1] else END;
    forall k {:trigger d[k]} | 0 <= k < |d|
      ensures 0 <= d[k] < |freelist| && d[k] != c[0]
      ensures freelist[c[0] := END][d[k]] == if k + 1 < |d| then d[k + 1] else END
    {
      assert d[k] == c[k + 1] && freelist[c[k + 1]] == if k + 2 < |c| then c[k + 2] else END;
    }
  }

  /** As written, the slab stays in order exactly when it is not its last free object that is taken. */
  lemma TakeObjAsWrittenIff(g: Geometry, s: Slab)
    requires GeometryOk(g) && SlabOk(g, s) && s.free > 0
    ensures 0 <= s.freeIdx < |s.freelist|
    ensures SlabOk(g, TakeObj(s, AsWritten)) <==> s.freeIdx != s.lastFreeIdx
    ensures s.freeIdx != s.lastFreeIdx ==> TakeObj(s, AsWritten) == TakeObj(s, Intended)
  {
    FreeIdxValid(g, s);
    TakeObjOk(g, s);
    if s.freeIdx == s.lastFreeIdx {
      var w := TakeObj(s, AsWritten);
      assert FreeChain(w) == [] && w.lastFreeIdx == s.freeIdx;
    }
  }

  // ------------------------------------------------------------- free_obj2slab

  /** Lines 415 to 420: the object goes to the head of the chain. */
  function PutObj(s: Slab, i: int): Slab
    requires 0 <= i < |s.freelist|
  {
    s.(freelist := s.freelist[i := ToUShort(s.freeIdx)], freeIdx := i, free := s.free + 1, used := s.used - 1)
  }

  /** Lines 430 and 431: the first free object of a slab is also the tail of its chain. */
  function NoteTail(s: Slab, i: int): Slab {
    if s.lastFreeIdx == -1 then s.(lastFreeIdx := i) else s
  }

  lemma LinkedPush(freelist: seq<int>, first: int, c: seq<int>, i: int)
    requires Linked(freelist, first, c) && NoDup(c) && 0 <= i < |freelist| && i !in c
    ensures Linked(freelist[i := ToUShort(first)], i, [i] + c) && NoDup([i] + c)
  {
    var d := [i] + c;
    assert ToUShort(first) == if c == [] then END else c[0];
    forall k {:trigger d[k]} | 0 <= k < |d|
      ensures freelist[i := ToUShort(first)][d[k]] == if k + 1 < |d| then d[k + 1] else END
    {
      if k > 0 {
        assert d[k] == c[k - 1] && c[k - 1] != i;
      }
    }
  }

  lemma PutObjChained(g: Geometry, s: Slab, i: int)
    requires GeometryOk(g) && Chained(g, s, FreeChain(s)) && IsUsed(s, i)
    ensures var s' := PutObj(s, i);
            && Chained(g, s', FreeChain(s')) && s'.free == s.free + 1 && s.used > 0
            && FreeChain(s') == [i] + FreeChain(s)
            && (forall j :: IsUsed(s', j) <==> IsUsed(s, j) && j != i)
  {
    var c, s' := FreeChain(s), PutObj(s, i);
    var d := [i] + c;
    assert forall k :: 0 < k < |d| ==> d[k] == c[k - 1];
    LinkedPush(s.freelist, s.freeIdx, c, i);
    Pigeonhole(d, g.num);
    assert Chained(g, s', d);
    ChainIsFreeChain(g, s', d);
  }

  lemma PutObjOk(g: Geometry, s: Slab, i: int)
    requires GeometryOk(g) && SlabOk(g, s) && IsUsed(s, i)
    ensures var s' := NoteTail(PutObj(s, i), i);
            && SlabOk(g, s') && s'.free == s.free + 1 && s.used > 0
            && FreeChain(s') == [i] + FreeChain(s)
            && (forall j :: IsUsed(s', j) <==> IsUsed(s, j) && j != i)
    ensures s.lastFreeIdx == -1 <==> s.free == 0
  {
    PutObjChained(g, s, i);
    var c, s' := FreeChain(s), NoteTail(PutObj(s, i), i);
    assert FreeChain(s') == FreeChain(PutObj(s, i));
    assert c != [] ==> c[|c| - 1] == ([i] + c)[|c|];
  }

  // -------------------------------------------------------------------- teardown

  /** The in-use test of free_all_objs_one_slab, on unsigned shorts. */
  predicate InUseTest(s: Slab, i: int, mode: Mode)
    requires 0 <= i < |s.freelist|
  {
    match mode
    case Intended => s.freeIdx == -1 || (s.freelist[i] == END && i != s.lastFreeIdx)
    case AsWritten => ToUShort(s.freeIdx) == -1 || (s.freelist[i] == -1 && i != ToUShort(s.lastFreeIdx))
  }

  /** The intended test finds exactly the live objects. */
  lemma InUseTestExact(g: Geometry, s: Slab, i: int)
    requires GeometryOk(g) && SlabOk(g, s) && 0 <= i < g.num
    ensures InUseTest(s, i, Intended) <==> IsUsed(s, i)
  {
    var c := FreeChain(s);
    if i in c {
      var k :| 0 <= k < |c| && c[k] == i;
      assert s.freelist[c[k]] == if k + 1 < |c| then c[k + 1] else END;
      assert c[0] != -1;
    }
  }

  /** The test as written finds nothing, whatever last_free_idx holds: an unsigned short is never -1. */
  lemma InUseTestAsWrittenNever(g: Geometry, s: Slab, i: int)
    requires GeometryOk(g) && Chained(g, s, FreeChain(s)) && 0 <= i < g.num
    ensures !InUseTest(s, i, AsWritten)
  {
    var c := FreeChain(s);
    if i in c {
      var k :| 0 <= k < |c| && c[k] == i;
      assert s.freelist[c[k]] == if k + 1 < |c| then c[k + 1] else END;
    }
    if c != [] {
      assert c[0] >= 0;
    }
  }

  // --------------------------------------------------------------------- layout

  function ObjAddr(g: Geometry, s: Slab, i: int): int {
    s.objBase + i * g.size
  }

  /** Every slot is aligned and lies with its whole object in the slab's block, which obj_end does not leave. */
  lemma SlotInBlock(g: Geometry, s: Slab, i: int)
    requires GeometryOk(g) && Laid(g, s) && 0 <= i < g.num
    ensures ObjAddr(g, s, i) % g.align == 0
    ensures s.sBase <= s.objBase <= ObjAddr(g, s, i)
    ensures ObjAddr(g, s, i) + g.size <= s.objEnd < s.sBase + g.slabSize
  {
    AlignRoundsUp(s.sBase, g.align);
    MulMono(0, i, g.size);
    MulMono(i + 1, g.num, g.size);
    NextSlot(i, g.size);
    MultiplesAdd(s.objBase, i, g.size, g.align);
  }

  lemma NextSlot(i: int, size: int)
    ensures (i + 1) * size == i * size + size
  {
  }

  /** A multiple of a plus any number of multiples of a is a multiple of a. */
  lemma MultiplesAdd(x: int, i: int, y: int, a: int)
    requires a > 0 && x % a == 0 && y % a == 0
    ensures (x + i * y) % a == 0
  {
    var q, p := x / a, y / a;
    assert x == q * a && y == p * a;
    Factor(q, i, p, a);
    MultipleMod(q + i * p, a);
  }

  lemma Factor(q: int, i: int, p: int, a: int)
    ensures q * a + i * (p * a) == (q + i * p) * a
  {
  }

  /** Two slots of a slab do not overlap, and the index is recovered from the address. */
  lemma SlotsApart(g: Geometry, s: Slab, i: int, j: int)
    requires GeometryOk(g) && 0 <= i < g.num && 0 <= j < g.num
    ensures i < j ==> ObjAddr(g, s, i) + g.size <= ObjAddr(g, s, j)
    ensures (ObjAddr(g, s, i) - s.objBase) / g.size == i
  {
    if i < j {
      MulMono(i + 1, j, g.size);
      NextSlot(i, g.size);
    }
    DivExact(i, g.size);
  }

  lemma DivExact(i: int, a: int)
    requires a > 0
    ensures (i * a) / a == i
  {
    MultipleMod(i, a);
    var d := (i * a) / a;
    assert i * a == d * a;
    if d < i {
      LessSameFactor(d, i, a);
    } else if i < d {
      LessSameFactor(i, d, a);
    }
  }

  lemma LessSameFactor(x: int, y: int, a: int)
    requires x < y && a > 0
    ensures x * a < y * a
  {
    MulMono(x + 1, y, a);
  }
}
