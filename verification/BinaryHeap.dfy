/**
 The array heap of src/container/heap.c for an arbitrary comparison function.
 The source calls the loop that moves an element towards the root sift_down and
 the one that moves it towards the leaves sift_up; the names are kept.
 */
module BinaryHeap {
  import opened Seqs

  const HEAP_INIT_CAP := 16

  /** Always true; mentioning it picks the instance of the order laws a proof uses. */
  ghost predicate Triple<T>(a: T, b: T, c: T) {
    true
  }

  /** cmp is a total preorder on the elements of m, as a sign: negative, zero or positive. */
  ghost predicate PreorderOn<T(!new)>(cmp: (T, T) -> int, m: multiset<T>) {
    && (forall a, b {:trigger Triple(a, b, a)} :: a in m && b in m ==> (cmp(a, b) <= 0 <==> cmp(b, a) >= 0))
    && (forall a, b, c {:trigger Triple(a, b, c)} ::
          a in m && b in m && c in m && cmp(a, b) <= 0 && cmp(b, c) <= 0 ==> cmp(a, c) <= 0)
  }

  function Parent(i: int): int
    requires i > 0
  {
    (i - 1) / 2
  }

  ghost predicate Ordered<T>(cmp: (T, T) -> int, s: seq<T>) {
    forall i {:trigger Parent(i)} :: 0 < i < |s| ==> cmp(s[Parent(i)], s[i]) <= 0
  }

  /** Ordered but for the edge above k; k's children already fit under k's parent. */
  ghost predicate OrderedButAbove<T>(cmp: (T, T) -> int, s: seq<T>, k: int) {
    && (forall i {:trigger Parent(i)} :: 0 < i < |s| && i != k ==> cmp(s[Parent(i)], s[i]) <= 0)
    && (forall i {:trigger Parent(i)} :: 0 < i < |s| && Parent(i) == k && k > 0 ==> cmp(s[Parent(k)], s[i]) <= 0)
  }

  /** Ordered but for the edges below k; k's children already fit under k's parent. */
  ghost predicate OrderedButBelow<T>(cmp: (T, T) -> int, s: seq<T>, k: int) {
    && (forall i {:trigger Parent(i)} :: 0 < i < |s| && Parent(i) != k ==> cmp(s[Parent(i)], s[i]) <= 0)
    && (forall i {:trigger Parent(i)} :: 0 < i < |s| && Parent(i) == k && k > 0 ==> cmp(s[Parent(k)], s[i]) <= 0)
  }

  ghost predicate BelowChildren<T>(cmp: (T, T) -> int, s: seq<T>, k: int, c: nat)
    requires c < |s|
  {
    forall i {:trigger Parent(i)} :: 0 < i < |s| && Parent(i) == k ==> cmp(s[c], s[i]) <= 0
  }

  function Swap<T>(s: seq<T>, i: nat, j: nat): seq<T>
    requires i < |s| && j < |s|
  {
    s[i := s[j]][j := s[i]]
  }

  /** s with the element at k moved up as long as its parent is greater. */
  function Raised<T>(cmp: (T, T) -> int, s: seq<T>, k: nat): seq<T>
    requires k < |s|
    decreases k
  {
    if k == 0 || cmp(s[Parent(k)], s[k]) <= 0 then s else Raised(cmp, Swap(s, k, Parent(k)), Parent(k))
  }

  /** The child of k that is less than the other, the left one if neither is. */
  function SmallerOf<T>(cmp: (T, T) -> int, s: seq<T>, k: nat): nat
    requires 2 * k + 1 < |s|
  {
    if 2 * k + 2 < |s| && cmp(s[2 * k + 2], s[2 * k + 1]) < 0 then 2 * k + 2 else 2 * k + 1
  }

  /** s with the element at k moved down as long as its smaller child is less. */
  function Lowered<T>(cmp: (T, T) -> int, s: seq<T>, k: nat): seq<T>
    requires k < |s|
    decreases |s| - k
  {
    if 2 * k + 1 >= |s| || cmp(s[SmallerOf(cmp, s, k)], s[k]) >= 0 then s
    else Lowered(cmp, Swap(s, SmallerOf(cmp, s, k), k), SmallerOf(cmp, s, k))
  }

  lemma SwapKeeps<T>(s: seq<T>, i: nat, j: nat)
    requires i < |s| && j < |s|
    ensures multiset(Swap(s, i, j)) == multiset(s)
  {
  }

  lemma InMultiset<T>(s: seq<T>)
    ensures forall i :: 0 <= i < |s| ==> s[i] in multiset(s)
  {
  }

  /** One turn of the loop towards the root. */
  lemma SwapUp<T(!new)>(cmp: (T, T) -> int, s: seq<T>, k: nat)
    requires 0 < k < |s| && PreorderOn(cmp, multiset(s)) && OrderedButAbove(cmp, s, k)
    requires cmp(s[Parent(k)], s[k]) > 0
    ensures OrderedButAbove(cmp, Swap(s, k, Parent(k)), Parent(k))
  {
    var p := Parent(k);
    var t := Swap(s, k, p);
    InMultiset(s);
    assert Triple(s[k], s[p], s[k]) && cmp(s[k], s[p]) <= 0;
    forall i | 0 < i < |t| && i != p ensures cmp(t[Parent(i)], t[i]) <= 0 {
      if i == k {
      } else if Parent(i) == k {
        assert cmp(s[p], s[i]) <= 0;
      } else if Parent(i) == p {
        assert cmp(s[p], s[i]) <= 0 && Triple(s[k], s[p], s[i]);
      } else {
        assert cmp(s[Parent(i)], s[i]) <= 0;
      }
    }
    forall i | 0 < i < |t| && Parent(i) == p && p > 0 ensures cmp(t[Parent(p)], t[i]) <= 0 {
      assert cmp(s[Parent(p)], s[p]) <= 0;
      if i != k {
        assert cmp(s[p], s[i]) <= 0 && Triple(s[Parent(p)], s[p], s[i]);
      }
    }
  }

  /** One turn of the loop towards the leaves: c is k's smaller child. */
  lemma SwapDown<T(!new)>(cmp: (T, T) -> int, s: seq<T>, k: nat, c: nat)
    requires c < |s| && (c == 2 * k + 1 || c == 2 * k + 2)
    requires PreorderOn(cmp, multiset(s)) && OrderedButBelow(cmp, s, k)
    requires BelowChildren(cmp, s, k, c)
    requires cmp(s[c], s[k]) < 0
    ensures OrderedButBelow(cmp, Swap(s, c, k), c)
  {
    var t := Swap(s, c, k);
    assert Parent(c) == k;
    forall i | 0 < i < |t| && Parent(i) != c ensures cmp(t[Parent(i)], t[i]) <= 0 {
      if i == c {
      } else if Parent(i) == k {
      } else if i == k {
        assert cmp(s[Parent(k)], s[c]) <= 0;
      } else {
        assert cmp(s[Parent(i)], s[i]) <= 0;
      }
    }
    forall i | 0 < i < |t| && Parent(i) == c && c > 0 ensures cmp(t[Parent(c)], t[i]) <= 0 {
      assert cmp(s[Parent(i)], s[i]) <= 0;
    }
  }

  lemma {:induction false} RootIsLeast<T(!new)>(cmp: (T, T) -> int, s: seq<T>, i: nat)
    requires i < |s| && PreorderOn(cmp, multiset(s)) && Ordered(cmp, s)
    ensures cmp(s[0], s[i]) <= 0
  {
    InMultiset(s);
    assert Triple(s[0], s[0], s[0]);
    if i > 0 {
      RootIsLeast(cmp, s, Parent(i));
      assert cmp(s[Parent(i)], s[i]) <= 0 && Triple(s[0], s[Parent(i)], s[i]);
    }
  }

  lemma RootIsLeastOfAll<T(!new)>(cmp: (T, T) -> int, s: seq<T>)
    requires |s| > 0 && PreorderOn(cmp, multiset(s)) && Ordered(cmp, s)
    ensures s[0] in multiset(s) && forall x :: x in multiset(s) ==> cmp(s[0], x) <= 0
  {
    forall i | 0 <= i < |s| ensures cmp(s[0], s[i]) <= 0 {
      RootIsLeast(cmp, s, i);
    }
  }

  /** A smaller heap needs the order on fewer elements. */
  lemma PreorderShrinks<T(!new)>(cmp: (T, T) -> int, m: multiset<T>, m': multiset<T>)
    requires PreorderOn(cmp, m) && m' <= m
    ensures PreorderOn(cmp, m')
  {
    forall a, b | a in m' && b in m' ensures cmp(a, b) <= 0 <==> cmp(b, a) >= 0 {
      assert Triple(a, b, a);
    }
    forall a, b, c | a in m' && b in m' && c in m' && cmp(a, b) <= 0 && cmp(b, c) <= 0
      ensures cmp(a, c) <= 0
    {
      assert Triple(a, b, c);
    }
  }

  class Heap<T(0, !new)> {
    const cmp: (T, T) -> int
    var elements: array<T>
    var num: nat
    var cap: nat
    /** The queued elements, as the caller sees them. */
    ghost var contents: multiset<T>

    ghost function Elems(): seq<T>
      requires num <= elements.Length
      reads this, elements
    {
      elements[..num]
    }

    ghost predicate Valid()
      reads this, elements
    {
      && num <= elements.Length == cap
      && contents == multiset(Elems())
    }

    /** What makes the array a heap: cmp orders the elements, and they are in heap order. */
    ghost predicate InOrder()
      requires num <= elements.Length
      reads this, elements
    {
      PreorderOn(cmp, contents) && Ordered(cmp, Elems())
    }

    constructor (cmp: (T, T) -> int)
      ensures Valid() && InOrder() && this.cmp == cmp && contents == multiset{} && fresh(elements)
      ensures num == 0 && cap == 16
    {
      this.cmp := cmp;
      elements := new T[HEAP_INIT_CAP];
      num, cap := 0, HEAP_INIT_CAP;
      contents := multiset{};
    }

    method SwapElements(i: nat, j: nat)
      requires i < num <= elements.Length && j < num
      modifies elements
      ensures Elems() == Swap(old(Elems()), i, j)
    {
      var tmp := elements[i];
      elements[i] := elements[j];
      elements[j] := tmp;
    }

    /** sift_down: move the element at last towards the root. */
    method SiftDown(last: nat)
      requires last < num <= elements.Length
      modifies elements
      ensures multiset(Elems()) == old(multiset(Elems()))
      ensures Elems() == Raised(cmp, old(Elems()), last)
      ensures PreorderOn(cmp, multiset(Elems())) && old(OrderedButAbove(cmp, Elems(), last)) ==> Ordered(cmp, Elems())
    {
      var k: nat := last;
      ghost var orderly := PreorderOn(cmp, multiset(Elems())) && OrderedButAbove(cmp, Elems(), last);
      while k > 0
        invariant k < num
        invariant orderly ==> OrderedButAbove(cmp, Elems(), k)
        invariant Raised(cmp, Elems(), k) == Raised(cmp, old(Elems()), last)
        invariant multiset(Elems()) == old(multiset(Elems()))
      {
        var parent := (k - 1) / 2;
        if cmp(elements[parent], elements[k]) <= 0 {
          break;
        }
        SwapKeeps(Elems(), k, parent);
        if orderly {
          SwapUp(cmp, Elems(), k);
        }
        SwapElements(k, parent);
        k := parent;
      }
    }

    /** The realloc of heap_push. */
    method Grow()
      requires num <= elements.Length == cap
      modifies this
      ensures num == old(num) < elements.Length == cap == old(cap) + HEAP_INIT_CAP && fresh(elements)
      ensures Elems() == old(Elems()) && contents == old(contents)
    {
      var grown := new T[cap + HEAP_INIT_CAP];
      forall i | 0 <= i < num {
        grown[i] := elements[i];
      }
      elements := grown;
      cap := cap + HEAP_INIT_CAP;
    }

    /** heap_push: grow by HEAP_INIT_CAP slots when full, append, sift. */
    method Push(elem: T)
      requires Valid()
      modifies this, elements
      ensures Valid() && contents == old(contents) + multiset{elem}
      ensures old(InOrder()) && PreorderOn(cmp, contents) ==> InOrder()
      ensures elements == old(elements) || fresh(elements)
      ensures num == old(num) + 1 && cap == if old(num) == old(cap) then old(cap) + 16 else old(cap)
      ensures old(num) < old(cap) ==> elements == old(elements)
      ensures Elems() == Raised(cmp, old(Elems()) + [elem], old(num))
    {
      ghost var before := Elems();
      if cap == num {
        Grow();
      }
      Append(elem, before);
      contents := contents + multiset{elem};
    }

    method Append(elem: T, ghost before: seq<T>)
      requires num < elements.Length && Elems() == before
      modifies elements, this`num
      ensures num == old(num) + 1
      ensures multiset(Elems()) == multiset(before) + multiset{elem}
      ensures Elems() == Raised(cmp, before + [elem], |before|)
      ensures Ordered(cmp, before) && PreorderOn(cmp, multiset(before) + multiset{elem}) ==> Ordered(cmp, Elems())
    {
      elements[num] := elem;
      num := num + 1;
      assert Elems() == before + [elem];
      if Ordered(cmp, before) {
        Appended(cmp, before, elem);
      }
      SiftDown(num - 1);
    }

    static lemma Appended(cmp: (T, T) -> int, s: seq<T>, x: T)
      requires Ordered(cmp, s)
      ensures OrderedButAbove(cmp, s + [x], |s|)
      ensures multiset(s + [x]) == multiset(s) + multiset{x}
    {
    }

    /** The elements without the last one, which has replaced the root. */
    ghost static function LastToRoot(all: seq<T>): seq<T>
      requires |all| > 1
    {
      all[..|all| - 1][0 := all[|all| - 1]]
    }

    /** What a heap is after its root has been popped. */
    ghost static function WithoutRoot(cmp: (T, T) -> int, all: seq<T>): seq<T>
      requires |all| > 0
    {
      if |all| == 1 then [] else Lowered(cmp, LastToRoot(all), 0)
    }

    method ReplaceRoot(last: nat, ghost all: seq<T>)
      requires 0 < num == last < elements.Length && all == elements[..last + 1]
      modifies elements
      ensures Elems() == LastToRoot(all) && |all| == last + 1
    {
      elements[0] := elements[last];
    }

    /** sift_up: put the element at last at the root and move it towards the leaves of the first last slots. */
    method SiftUp(last: nat, ghost all: seq<T>)
      requires num == last < elements.Length && all == elements[..last + 1]
      modifies elements
      ensures multiset(Elems()) == multiset(all) - multiset{all[0]}
      ensures Elems() == WithoutRoot(cmp, all)
      ensures PreorderOn(cmp, multiset(all)) && Ordered(cmp, all) ==> Ordered(cmp, Elems())
    {
      if last <= 0 {
        OneElement(all);
        return;
      }
      ReplaceRoot(last, all);
      LastToRootMultiset(all);
      if PreorderOn(cmp, multiset(all)) && Ordered(cmp, all) {
        RootReplaced(cmp, all);
      }
      SettleRoot(LastToRoot(all));
    }

    static lemma OneElement(all: seq<T>)
      requires |all| == 1
      ensures multiset(all) - multiset{all[0]} == multiset{}
    {
      assert all == [all[0]];
    }

    /** The loop of sift_up. */
    method SettleRoot(ghost start: seq<T>)
      requires 0 < num <= elements.Length && Elems() == start
      modifies elements
      ensures multiset(Elems()) == multiset(start)
      ensures Elems() == Lowered(cmp, start, 0)
      ensures PreorderOn(cmp, multiset(start)) && OrderedButBelow(cmp, start, 0) ==> Ordered(cmp, Elems())
    {
      var parent, done := 0, false;
      ghost var s := start;
      ghost var orderly := PreorderOn(cmp, multiset(start)) && OrderedButBelow(cmp, start, 0);
      while !done && 2 * parent + 1 < num
        invariant parent < num == |start| && |s| == |start|
        invariant Elems() == s && multiset(s) == multiset(start)
        invariant if done then s == Lowered(cmp, start, 0) else Lowered(cmp, s, parent) == Lowered(cmp, start, 0)
        invariant orderly ==> if done then Ordered(cmp, s) else OrderedButBelow(cmp, s, parent)
        decreases !done, num - parent
      {
        var child;
        child, done := SettleStep(parent, s);
        if !done {
          SwapKeeps(s, child, parent);
          s := Swap(s, child, parent);
          parent := child;
        }
      }
      if orderly && !done {
        NoChildren(cmp, s, parent);
      }
    }

    static lemma NoChildren(cmp: (T, T) -> int, s: seq<T>, k: nat)
      requires OrderedButBelow(cmp, s, k) && 2 * k + 1 >= |s|
      ensures Ordered(cmp, s)
    {
    }

    /** The body of that loop: swap with the smaller child, or stop. */
    method SettleStep(parent: nat, ghost s: seq<T>) returns (child: nat, done: bool)
      requires num <= elements.Length && Elems() == s && 2 * parent + 1 < num
      modifies elements
      ensures done ==> Elems() == s == Lowered(cmp, s, parent)
      ensures !done ==> child == SmallerOf(cmp, s, parent) && cmp(s[child], s[parent]) < 0
      ensures !done ==> parent < child < num && Elems() == Swap(s, child, parent)
      ensures PreorderOn(cmp, multiset(s)) && OrderedButBelow(cmp, s, parent) ==>
                if done then Ordered(cmp, s) else OrderedButBelow(cmp, Swap(s, child, parent), child)
    {
      child := 2 * parent + 1;
      var right := child + 1;
      if right < num && cmp(elements[right], elements[child]) < 0 {
        child := right;
      }
      assert child == SmallerOf(cmp, s, parent);
      done := cmp(elements[child], elements[parent]) >= 0;
      if PreorderOn(cmp, multiset(s)) && OrderedButBelow(cmp, s, parent) {
        SettleOrder(cmp, s, parent, child);
      }
      if !done {
        SwapElements(child, parent);
      }
    }

    static lemma SettleOrder(cmp: (T, T) -> int, s: seq<T>, k: nat, c: nat)
      requires 2 * k + 1 < |s| && PreorderOn(cmp, multiset(s)) && OrderedButBelow(cmp, s, k)
      requires c == SmallerOf(cmp, s, k)
      ensures if cmp(s[c], s[k]) >= 0 then Ordered(cmp, s) else OrderedButBelow(cmp, Swap(s, c, k), c)
    {
      SmallerChild(cmp, s, k);
      if cmp(s[c], s[k]) >= 0 {
        LeafReached(cmp, s, k, c);
      } else {
        SwapDown(cmp, s, k, c);
      }
    }

    /** Comparing the two children of k finds one that is below both. */
    static lemma SmallerChild(cmp: (T, T) -> int, s: seq<T>, k: nat)
      requires 2 * k + 1 < |s| && PreorderOn(cmp, multiset(s))
      ensures BelowChildren(cmp, s, k, SmallerOf(cmp, s, k))
    {
      InMultiset(s);
      var l, r := 2 * k + 1, 2 * k + 2;
      assert Triple(s[l], s[l], s[l]);
      if r < |s| {
        assert Triple(s[r], s[r], s[r]) && Triple(s[l], s[r], s[l]);
      }
      forall i | 0 < i < |s| && Parent(i) == k ensures i == l || i == r {
      }
    }

    /** Moving the last element to the root drops the old root and disorders only the edges below. */
    static lemma RootReplaced(cmp: (T, T) -> int, all: seq<T>)
      requires |all| > 1 && Ordered(cmp, all) && PreorderOn(cmp, multiset(all))
      ensures var s := LastToRoot(all);
              && multiset(s) == multiset(all) - multiset{all[0]}
              && OrderedButBelow(cmp, s, 0) && PreorderOn(cmp, multiset(s))
    {
      LastToRootMultiset(all);
      PreorderShrinks(cmp, multiset(all), multiset(all) - multiset{all[0]});
    }

    static lemma LastToRootMultiset(all: seq<T>)
      requires |all| > 1
      ensures multiset(LastToRoot(all)) == multiset(all) - multiset{all[0]}
    {
      var n := |all| - 1;
      assert all == all[..n] + [all[n]];
      assert all[..n] == [all[0]] + all[1..n];
      assert all[..n][0 := all[n]] == [all[n]] + all[1..n];
    }

    /** If the smaller child is no smaller than its parent, the heap is ordered. */
    static lemma LeafReached(cmp: (T, T) -> int, s: seq<T>, k: nat, c: nat)
      requires c < |s| && PreorderOn(cmp, multiset(s)) && OrderedButBelow(cmp, s, k)
      requires c == 2 * k + 1 || c == 2 * k + 2
      requires BelowChildren(cmp, s, k, c)
      requires cmp(s[c], s[k]) >= 0
      ensures Ordered(cmp, s)
    {
      InMultiset(s);
      assert Triple(s[k], s[c], s[k]);
      forall i | 0 < i < |s| ensures cmp(s[Parent(i)], s[i]) <= 0 {
        if Parent(i) == k {
          assert cmp(s[k], s[c]) <= 0 && cmp(s[c], s[i]) <= 0 && Triple(s[k], s[c], s[i]);
        }
      }
    }

    /** heap_pop: NULL on the empty heap, otherwise the root, removed once; of a heap in order, a least element. */
    method Pop() returns (r: Option<T>)
      requires Valid()
      modifies this, elements
      ensures Valid() && elements == old(elements)
      ensures r.None? <==> old(contents) == multiset{}
      ensures r.None? ==> contents == old(contents)
      ensures r.Some? ==> old(num) > 0 && r.value == old(Elems())[0] && r.value in old(contents)
      ensures r.Some? ==> contents == old(contents) - multiset{r.value}
      ensures r.Some? ==> num == old(num) - 1 && cap == old(cap) && Elems() == WithoutRoot(cmp, old(Elems()))
      ensures old(InOrder()) ==> InOrder()
      ensures old(InOrder()) && r.Some? ==> forall x :: x in old(contents) ==> cmp(r.value, x) <= 0
    {
      if num == 0 {
        return None;
      }
      RootAmongAll(cmp, Elems());
      var top := elements[0];
      DropRoot();
      r := Some(top);
    }

    static lemma RootAmongAll(cmp: (T, T) -> int, s: seq<T>)
      requires |s| > 0
      ensures s[0] in multiset(s)
      ensures PreorderOn(cmp, multiset(s)) && Ordered(cmp, s) ==> forall x :: x in multiset(s) ==> cmp(s[0], x) <= 0
    {
      InMultiset(s);
      if PreorderOn(cmp, multiset(s)) && Ordered(cmp, s) {
        RootIsLeastOfAll(cmp, s);
      }
    }

    /** The end of heap_pop. */
    method DropRoot()
      requires Valid() && num > 0
      modifies this, elements
      ensures Valid() && elements == old(elements)
      ensures contents == old(contents) - multiset{old(Elems())[0]}
      ensures Elems() == WithoutRoot(cmp, old(Elems())) && num == old(num) - 1 && cap == old(cap)
      ensures old(InOrder()) ==> InOrder()
    {
      ghost var s := Elems();
      num := num - 1;
      SiftUp(num, s);
      contents := contents - multiset{s[0]};
      StillPreorder(cmp, multiset(s), contents);
    }

    static lemma StillPreorder(cmp: (T, T) -> int, m: multiset<T>, m': multiset<T>)
      requires m' <= m
      ensures PreorderOn(cmp, m) ==> PreorderOn(cmp, m')
    {
      if PreorderOn(cmp, m) {
        PreorderShrinks(cmp, m, m');
      }
    }

    /** heap_top: NULL on the empty heap, otherwise the root; of a heap in order, a least element. */
    method Top() returns (r: Option<T>)
      requires Valid()
      ensures r.None? <==> contents == multiset{}
      ensures r.Some? ==> num > 0 && r.value == Elems()[0] && r.value in contents
      ensures InOrder() && r.Some? ==> forall x :: x in contents ==> cmp(r.value, x) <= 0
    {
      if num == 0 {
        return None;
      }
      RootAmongAll(cmp, Elems());
      r := Some(elements[0]);
    }
  }
}
