/**
 Object size, alignment and slab order of src/memory/mempool.c, with 8-byte
 pointers, pages of 4096 bytes and slabs of at most 2^6 pages.
 */
module SlabSizing {
  const PAGE_SIZE := 4096
  const MALLOC_MAX_ORDER := 6
  const SLAB_OBJ_MIN_NUM := 8
  const POINTER_SIZE := 8

  /** The powers of two up to a page. */
  predicate IsAlignment(a: int) {
    a in {1, 2, 4, 8, 16, 32, 64, 128, 256, 512, 1024, 2048, 4096}
  }

  /** A request that calculate_alignment turns into a power of two up to a page. */
  predicate IsUsable(align: int) {
    align >= 1 && IsAlignment(CalculateAlignment(align))
  }

  /** ALIGN(x, a) for a power of two a: add a - 1, then clear the low bits. */
  function Align(x: int, a: int): int
    requires a > 0
  {
    (x + a - 1) - (x + a - 1) % a
  }

  /** ALIGN rounds up to the next multiple. */
  lemma AlignRoundsUp(x: int, a: int)
    requires a > 0
    ensures x <= Align(x, a) < x + a && Align(x, a) % a == 0
    ensures forall m :: x <= m && m % a == 0 ==> Align(x, a) <= m
  {
    var y := x + a - 1;
    assert y == (y / a) * a + y % a;
    var q := y / a;
    assert Align(x, a) == q * a;
    MultipleMod(q, a);
    forall m | x <= m && m % a == 0 ensures Align(x, a) <= m {
      var k := m / a;
      assert m == k * a;
      assert (q - 1) * a < k * a;
      LessFactor(q - 1, k, a);
      MulMono(q, k, a);
    }
  }

  lemma MultipleMod(q: int, a: int)
    requires a > 0
    ensures (q * a) % a == 0
  {
    var r := (q * a) % a;
    var d := (q * a) / a;
    assert q * a == d * a + r;
    assert (q - d) * a == r;
    if q - d >= 1 {
      MulMono(1, q - d, a);
    } else if q - d <= -1 {
      MulMono(q - d, -1, a);
    }
  }

  lemma MulMono(x: int, y: int, a: int)
    requires x <= y && a >= 0
    ensures x * a <= y * a
  {
  }

  lemma LessFactor(x: int, y: int, a: int)
    requires x * a < y * a && a > 0
    ensures x < y
  {
    if y <= x {
      MulMono(y, x, a);
    }
  }

  // ----------------------------------------------------- which requests are usable

  /** ALIGN as the source writes it, on unsigned words. */
  function AlignBits(x: bv64, a: bv64): bv64 {
    (x + (a - 1)) & !(a - 1)
  }

  /** It pads an object of one byte to the alignment exactly if the alignment is a power of two or 0. */
  lemma AlignPadsIff(a: bv64)
    ensures AlignBits(1, a) == a <==> a & (a - 1) == 0
  {
  }

  /** The alignments of IsAlignment are all that pad and do not exceed a page. */
  lemma PaddingUpToPage(a: bv64)
    ensures a in {1, 2, 4, 8, 16, 32, 64, 128, 256, 512, 1024, 2048, 4096}
            <==> a != 0 && AlignBits(1, a) == a && a <= 4096
  {
    AlignPadsIff(a);
  }

  /** With alignment 0 every padded size is 0, by which mempool_estimate divides. */
  lemma AlignToZero(x: bv64)
    ensures AlignBits(x, 0) == 0
  {
  }

  /** The subtraction of mempool_estimate stays above zero in every order exactly for alignments up to a page. */
  lemma NoWrapIff(align: int)
    ensures (forall order: nat :: order <= MALLOC_MAX_ORDER ==> SlabSize(order) - align >= 0) <==> align <= PAGE_SIZE
  {
    assert SlabSize(0) == PAGE_SIZE;
  }

  /** calculate_alignment, which gives pool->align. */
  function CalculateAlignment(align: int): int {
    Align(align, POINTER_SIZE)
  }

  /** The bytes of a slab of the given order. */
  function SlabSize(order: nat): nat
    requires order <= MALLOC_MAX_ORDER
  {
    PAGE_SIZE * [1, 2, 4, 8, 16, 32, 64][order]
  }

  /** mempool_estimate: objects that fit when align bytes are kept back, and the bytes left over. */
  function Estimate(order: nat, size: int, align: int): (int, int)
    requires order <= MALLOC_MAX_ORDER && size > 0
  {
    var room := SlabSize(order) - align;
    (room / size, room % size)
  }

  /** pool->size of mempool_create. */
  function PoolSize(objSize: int, align: int): int
    requires CalculateAlignment(align) > 0
  {
    Align(objSize, CalculateAlignment(align))
  }

  /** Enough room for the minimum number of objects. */
  predicate Roomy(order: nat, size: int, align: int)
    requires order <= MALLOC_MAX_ORDER
  {
    SLAB_OBJ_MIN_NUM * size <= SlabSize(order) - align
  }

  lemma EstimateRoomy(order: nat, size: int, align: int)
    requires order <= MALLOC_MAX_ORDER && size > 0
    ensures var (num, left) := Estimate(order, size, align);
            && SlabSize(order) - align == num * size + left && 0 <= left < size
            && (num >= SLAB_OBJ_MIN_NUM <==> Roomy(order, size, align))
  {
    var room := SlabSize(order) - align;
    var (num, left) := Estimate(order, size, align);
    assert room == num * size + left;
    if num >= 8 {
      MulMono(8, num, size);
    } else {
      MulMono(num, 7, size);
    }
  }

  lemma RoomyMonotone(order: nat, more: nat, size: int, align: int)
    requires order <= more <= MALLOC_MAX_ORDER
    ensures Roomy(order, size, align) ==> Roomy(more, size, align)
  {
  }

  /** Every request is rounded up to words, and a power of two of at least a word is kept. */
  lemma CalculateAlignmentIs(align: int)
    requires align >= 0
    ensures var a := CalculateAlignment(align);
            && align <= a < align + POINTER_SIZE && a % POINTER_SIZE == 0
            && (IsAlignment(align) ==> IsUsable(align) && a == if align < POINTER_SIZE then POINTER_SIZE else align)
            && (align >= 1 ==> a >= POINTER_SIZE)
  {
  }

  lemma PoolSizeBounds(objSize: int, align: int)
    requires IsUsable(align) && 1 <= objSize < 0x8000_0000
    ensures var a := CalculateAlignment(align); var size := PoolSize(objSize, align);
            size % a == 0 && objSize <= size < objSize + a && a <= size <= 0x8000_0000
  {
    LimitAligned(CalculateAlignment(align));
    AlignBounds(objSize, CalculateAlignment(align));
  }

  lemma AlignBounds(x: int, a: int)
    requires 1 <= x <= 0x8000_0000 && a > 0 && 0x8000_0000 % a == 0
    ensures a <= Align(x, a) <= 0x8000_0000 && Align(x, a) % a == 0 && x <= Align(x, a) < x + a
  {
    AlignRoundsUp(x, a);
    var k := Align(x, a) / a;
    assert Align(x, a) == k * a;
    LessFactor(0, k, a);
    MulMono(1, k, a);
  }

  /** 2^31 is a multiple of every alignment. */
  lemma LimitAligned(a: int)
    requires IsAlignment(a)
    ensures 0x8000_0000 % a == 0
  {
  }

  /** The fragmentation test cannot reject an order with enough objects. */
  lemma FragmentationAccepts(order: nat, size: int, align: int)
    requires order <= MALLOC_MAX_ORDER && size > 0 && align > 0 && Roomy(order, size, align)
    ensures Estimate(order, size, align).1 * 8 <= SlabSize(order)
  {
    EstimateRoomy(order, size, align);
  }

  /** The least roomy order holds at most 511 objects, far from the sentinel 65535 and within a short. */
  lemma ObjectCountBound(order: nat, size: int, align: int)
    requires order <= MALLOC_MAX_ORDER && 8 <= align <= size
    requires Roomy(order, size, align) && (order > 0 ==> !Roomy(order - 1, size, align))
    ensures SLAB_OBJ_MIN_NUM <= Estimate(order, size, align).0 <= 511
  {
    EstimateRoomy(order, size, align);
    var num := Estimate(order, size, align).0;
    if order == 0 {
      assert num * size < 512 * size;
    } else {
      assert SlabSize(order) == 2 * SlabSize(order - 1);
      assert num * size < 512 * size;
    }
    LessFactor(num, 512, size);
  }

  /**
   calculate_slab_order: the least order up to 6 that holds at least 8 objects,
   and failure (numPerSlab 0) exactly when even order 6 does not.
   */
  method CalculateSlabOrder(size: int, align: int) returns (numPerSlab: int, order: nat, leftOver: int)
    requires IsAlignment(align) && 8 <= align <= size
    ensures order <= MALLOC_MAX_ORDER
    ensures numPerSlab == 0 <==> !Roomy(MALLOC_MAX_ORDER, size, align)
    ensures numPerSlab != 0 ==>
      && Roomy(order, size, align) && (forall o :: 0 <= o < order ==> !Roomy(o, size, align))
      && SLAB_OBJ_MIN_NUM <= numPerSlab <= 511
      && numPerSlab * size + leftOver == SlabSize(order) - align && 0 <= leftOver < size
  {
    numPerSlab, order, leftOver := 0, 0, 0;
    var o := 0;
    while o <= MALLOC_MAX_ORDER
      invariant 0 <= o <= MALLOC_MAX_ORDER + 1
      invariant forall p :: 0 <= p < o ==> !Roomy(p, size, align)
      invariant numPerSlab == 0 && order == 0
    {
      var (num, remainder) := Estimate(o, size, align);
      EstimateRoomy(o, size, align);
      if num == 0 || num < SLAB_OBJ_MIN_NUM {
        o := o + 1;
        continue;
      }
      numPerSlab := num;
      order := o;
      leftOver := remainder;
      RoomyMonotone(o, MALLOC_MAX_ORDER, size, align);
      ObjectCountBound(o, size, align);
      FragmentationAccepts(o, size, align);
      if leftOver * 8 <= SlabSize(o) {
        break;
      }
      o := o + 1;
    }
  }

  /**
   A slab of 1, 2, 4, .. or 64 pages, the least that takes 8 objects beside the alignment
   slack, and as many objects as fit.
   */
  predicate WellSized(size: int, align: int, num: int, slabSize: int) {
    && slabSize in {4096, 8192, 16384, 32768, 65536, 131072, 262144}
    && num * size + align <= slabSize < (num + 1) * size + align
    && 8 * size + align <= slabSize
    && (slabSize > 4096 ==> 8 * size + align > slabSize / 2)
  }

  lemma LeastRoomyIsWellSized(order: nat, size: int, align: int, num: int, left: int)
    requires order <= MALLOC_MAX_ORDER && Roomy(order, size, align)
    requires forall o: nat :: o < order ==> !Roomy(o, size, align)
    requires num * size + left == SlabSize(order) - align && 0 <= left < size
    ensures WellSized(size, align, num, SlabSize(order))
  {
    NextSlabSize(order);
    assert order > 0 ==> !Roomy(order - 1, size, align);
    assert (num + 1) * size == num * size + size;
  }

  lemma NextSlabSize(order: nat)
    requires order <= MALLOC_MAX_ORDER
    ensures SlabSize(order) in {4096, 8192, 16384, 32768, 65536, 131072, 262144}
    ensures if order == 0 then SlabSize(order) == 4096 else SlabSize(order) == 2 * SlabSize(order - 1)
  {
  }

  /**
   The sizing part of mempool_create, for every positive int object size and usable alignment: it fails
   exactly when 8 objects and the alignment slack do not fit 64 pages, and otherwise
   the slab is the least that takes them and holds as many objects as fit.
   */
  method SizePool(objSize: int, align: int)
    returns (ok: bool, size: int, poolAlign: int, order: nat, num: int)
    requires IsUsable(align) && 1 <= objSize < 0x8000_0000
    ensures align <= poolAlign == CalculateAlignment(align)
    ensures size == PoolSize(objSize, align)
    ensures size % poolAlign == 0 && objSize <= size < objSize + poolAlign && size <= 0x8000_0000
    ensures ok <==> 8 * size + poolAlign <= 64 * PAGE_SIZE
    ensures ok ==> order <= MALLOC_MAX_ORDER && 8 <= num <= 511 && num * size + poolAlign <= SlabSize(order)
    ensures ok ==> WellSized(size, poolAlign, num, SlabSize(order))
  {
    CalculateAlignmentIs(align);
    PoolSizeBounds(objSize, align);
    poolAlign := CalculateAlignment(align);
    size := Align(objSize, poolAlign);
    var left;
    num, order, left := CalculateSlabOrder(size, poolAlign);
    ok := num != 0;
    if ok {
      LeastRoomyIsWellSized(order, size, poolAlign, num, left);
    }
  }

  /** With an alignment of at most 8 a pool can be created exactly for objects of up to 32760 bytes. */
  lemma CreationLimit(objSize: int, align: int)
    requires 1 <= align <= 8 && 1 <= objSize < 0x8000_0000
    ensures Roomy(MALLOC_MAX_ORDER, PoolSize(objSize, align), CalculateAlignment(align)) <==> objSize <= 32760
  {
    CalculateAlignmentIs(align);
    WordAligned(objSize);
    WordLimit(objSize, (objSize + 7) / 8);
    RoomyTop(PoolSize(objSize, align), POINTER_SIZE);
  }

  lemma WordAligned(x: int)
    ensures Align(x, 8) == 8 * ((x + 7) / 8)
  {
  }

  lemma WordLimit(x: int, q: int)
    requires 8 * q <= x + 7 < 8 * q + 8
    ensures 8 * (8 * q) + 8 <= 64 * PAGE_SIZE <==> x <= 32760
  {
  }

  lemma RoomyTop(size: int, align: int)
    ensures Roomy(MALLOC_MAX_ORDER, size, align) <==> 8 * size + align <= 64 * PAGE_SIZE
  {
  }
}
