/**
 The circular doubly linked list of src/container/list.h.  A ring is described by
 the sequence of its nodes in `next` order, beginning with the list head; every
 operation is the pointer code of the source, proved against that sequence.
 */
module IntrusiveList {
  import opened Seqs

  /** `struct list_head`; null stands for the two poison values. */
  class Node {
    var next: Node?
    var prev: Node?

    /** LIST_HEAD: a list of its own, empty. */
    constructor ()
      ensures Ring([this])
    {
      next, prev := this, this;
    }
  }

  /** s is the ring through s[0]: next goes along s and around, prev is its inverse. */
  ghost predicate Ring(s: seq<Node>)
    reads s
  {
    && |s| > 0 && NoDup(s)
    && (forall i {:trigger s[i].next} :: 0 <= i < |s| - 1 ==> s[i].next == s[i + 1])
    && (forall i {:trigger s[i].prev} :: 0 < i < |s| ==> s[i].prev == s[i - 1])
    && s[|s| - 1].next == s[0] && s[0].prev == s[|s| - 1]
  }

  // ------------------------------------------------------------- facts on rings

  /** Memory determines the ring: two descriptions from the same node are equal. */
  lemma RingDetermined(s: seq<Node>, t: seq<Node>)
    requires Ring(s) && Ring(t) && s[0] == t[0]
    ensures s == t
  {
    var m := if |s| <= |t| then |s| else |t|;
    RingPrefix(s, t, m);
    assert s[m - 1] == s[..m][m - 1] == t[..m][m - 1] == t[m - 1];
    assert s[m - 1].next == t[m - 1].next;
  }

  lemma {:induction false} RingPrefix(s: seq<Node>, t: seq<Node>, m: nat)
    requires Ring(s) && Ring(t) && s[0] == t[0] && m <= |s| && m <= |t|
    ensures s[..m] == t[..m]
  {
    if m > 1 {
      RingPrefix(s, t, m - 1);
      assert s[m - 2] == s[..m - 1][m - 2] == t[..m - 1][m - 2] == t[m - 2];
      assert s[m - 2].next == t[m - 2].next;
      assert s[..m] == s[..m - 1] + [s[m - 1]];
      assert t[..m] == t[..m - 1] + [t[m - 1]];
    }
  }

  /** A ring may be described from any of its nodes. */
  lemma RotateRing(s: seq<Node>, k: nat)
    requires Ring(s) && k < |s|
    ensures Ring(s[k..] + s[..k])
  {
    var r := s[k..] + s[..k];
    forall i {:trigger r[i].next} | 0 <= i < |r| - 1 ensures r[i].next == r[i + 1] {
      var j := if i < |s| - k then k + i else i - (|s| - k);
      assert r[i] == s[j] && s[j].next == s[if j == |s| - 1 then 0 else j + 1];
    }
    forall i {:trigger r[i].prev} | 0 < i < |r| ensures r[i].prev == r[i - 1] {
      var j := if i < |s| - k then k + i else i - (|s| - k);
      assert r[i] == s[j] && s[j].prev == s[if j == 0 then |s| - 1 else j - 1];
    }
    assert r[0] == s[k] && s[k].prev == s[if k == 0 then |s| - 1 else k - 1];
    var l := if k == 0 then |s| - 1 else k - 1;
    assert r[|r| - 1] == s[l] && s[l].next == s[k];
  }

  predicate ListEmpty(head: Node)
    reads head
  {
    head.next == head
  }

  predicate ListIsFirst(list: Node, head: Node)
    reads list
  {
    list.prev == head
  }

  predicate ListIsLast(list: Node, head: Node)
    reads list
  {
    list.next == head
  }

  predicate ListIsSingular(head: Node)
    reads head
  {
    !ListEmpty(head) && head.next == head.prev
  }

  /** What the pointer tests say about the sequence. */
  lemma ListTests(s: seq<Node>, k: nat)
    requires Ring(s) && k < |s|
    ensures ListEmpty(s[0]) <==> |s| == 1
    ensures ListIsSingular(s[0]) <==> |s| == 2
    ensures ListIsFirst(s[k], s[0]) <==> (if |s| == 1 then true else k == 1)
    ensures ListIsLast(s[k], s[0]) <==> k == |s| - 1
  {
    assert s[0].next == s[if |s| == 1 then 0 else 1];
    assert s[k].prev == s[if k == 0 then |s| - 1 else k - 1];
    assert s[k].next == s[if k == |s| - 1 then 0 else k + 1];
  }

  // --------------------------------------------------------- adding and deleting

  method InitListHead(list: Node)
    modifies list
    ensures Ring([list])
  {
    list.next := list;
    list.prev := list;
  }

  /** __list_add: insert between two known consecutive nodes. */
  method ListAddBetween(n: Node, prev: Node, next: Node, ghost s: seq<Node>, ghost k: nat)
    requires Ring(s) && n !in s && k < |s|
    requires prev == s[k] && next == s[k].next
    modifies n, s
    ensures Ring(InsertAt(s, k + 1, n))
    ensures forall x :: x in s && x != prev ==> x.next == old(x.next)
    ensures forall x :: x in s && x != next ==> x.prev == old(x.prev)
  {
    ghost var r := InsertAt(s, k + 1, n);
    assert next == s[if k == |s| - 1 then 0 else k + 1];
    next.prev := n;
    n.next := next;
    n.prev := prev;
    prev.next := n;
    forall i {:trigger r[i].next} | 0 <= i < |r| - 1 ensures r[i].next == r[i + 1] {
    }
    forall i {:trigger r[i].prev} | 0 < i < |r| ensures r[i].prev == r[i - 1] {
    }
  }

  /** list_add: insert after s[k]. */
  method ListAdd(n: Node, head: Node, ghost s: seq<Node>, ghost k: nat)
    requires Ring(s) && n !in s && k < |s| && head == s[k]
    modifies n, s
    ensures Ring(InsertAt(s, k + 1, n))
  {
    assert head.next == s[if k == |s| - 1 then 0 else k + 1];
    ListAddBetween(n, head, head.next, s, k);
  }

  /** list_add_tail on the list's head: append. */
  method ListAddTail(n: Node, head: Node, ghost s: seq<Node>)
    requires Ring(s) && n !in s && head == s[0]
    modifies n, s
    ensures Ring(s + [n])
  {
    ListAddBetween(n, head.prev, head, s, |s| - 1);
    assert InsertAt(s, |s|, n) == s + [n];
  }

  /** __list_del_entry: unlink, leaving the entry's own pointers alone. */
  method ListDelEntry(entry: Node, ghost s: seq<Node>, ghost k: nat)
    requires Ring(s) && |s| > 1 && k < |s| && entry == s[k]
    modifies s
    ensures Ring(RemoveAt(s, k))
    ensures entry.next == old(entry.next) && entry.prev == old(entry.prev)
  {
    ghost var r := RemoveAt(s, k);
    ghost var n := |s|;
    assert entry.next == s[if k == n - 1 then 0 else k + 1];
    assert entry.prev == s[if k == 0 then n - 1 else k - 1];
    var prev, next := entry.prev, entry.next;
    next.prev := prev;
    prev.next := next;
    forall i {:trigger r[i].next} | 0 <= i < |r| - 1 ensures r[i].next == r[i + 1] {
    }
    forall i {:trigger r[i].prev} | 0 < i < |r| ensures r[i].prev == r[i - 1] {
    }
  }

  /** list_del: unlink and poison. */
  method ListDel(entry: Node, ghost s: seq<Node>, ghost k: nat)
    requires Ring(s) && |s| > 1 && k < |s| && entry == s[k]
    modifies s
    ensures Ring(RemoveAt(s, k))
    ensures entry.next == null && entry.prev == null
  {
    RemovedAbsent(s, k);
    ListDelEntry(entry, s, k);
    entry.next := null;
    entry.prev := null;
  }

  /** list_replace: the new node takes the old one's place, also in a ring of one. */
  method ListReplace(old_: Node, new_: Node, ghost s: seq<Node>, ghost k: nat)
    requires Ring(s) && k < |s| && old_ == s[k] && new_ !in s
    modifies new_, s
    ensures Ring(s[k := new_])
  {
    ghost var r := s[k := new_];
    ghost var n := |s|;
    assert old_.next == s[if k == n - 1 then 0 else k + 1];
    assert old_.prev == s[if k == 0 then n - 1 else k - 1];
    new_.next := old_.next;
    new_.next.prev := new_;
    new_.prev := old_.prev;
    new_.prev.next := new_;
  }

  // ------------------------------------------------------------ moving entries

  /** The ring list_swap works on after it has put entry2 in the place of entry1. */
  ghost function Replaced(s: seq<Node>, i: nat, j: nat): (u: seq<Node>)
    requires i < |s| && 0 < j < |s| && i != j
    ensures |u| == |s| - 1
  {
    RemoveAt(s, j)[if i < j then i else i - 1 := s[j]]
  }

  lemma SwapSteps(s: seq<Node>, i: nat, j: nat)
    requires NoDup(s) && 0 < i < |s| && 0 < j < |s| && i != j
    ensures s[j] !in RemoveAt(s, j) && s[i] !in Replaced(s, i, j)
    ensures RemoveAt(s, j)[if i < j then i else i - 1] == s[i]
    ensures Replaced(s, i, j)[j - 1] == if s[j - 1] == s[i] then s[j] else s[j - 1]
    ensures InsertAt(Replaced(s, i, j), j, s[i]) == s[i := s[j]][j := s[i]]
  {
  }

  /** s[i] and t[j] are distinct entries of one list, or entries of two lists. */
  ghost predicate Swappable(s: seq<Node>, i: nat, t: seq<Node>, j: nat)
    reads s, t
  {
    Ring(s) && 0 < i < |s| && 0 < j < |t| && if t == s then i != j else Apart(s, t)
  }

  /**
   list_swap exchanges two distinct entries: of one list, adjacent in either order
   or apart, or of two lists.
   */
  method ListSwap(entry1: Node, entry2: Node, ghost s: seq<Node>, ghost i: nat, ghost t: seq<Node>, ghost j: nat)
    requires Swappable(s, i, t, j) && entry1 == s[i] && entry2 == t[j]
    modifies s, t
    ensures t == s ==> Ring(s[i := entry2][j := entry1])
    ensures t != s ==> Ring(s[i := entry2]) && Ring(t[j := entry1])
  {
    var pos := entry2.prev;
    assert pos == t[j - 1];
    ListTakeOver(entry1, entry2, s, i, t, j);
    if pos == entry1 {
      pos := entry2;
    }
    SwapEnd(s, i, t, j);
    ListAddBeside(entry1, pos, AddedTo(s, i, t, j), j - 1, if t == s then [] else s[i := entry2]);
  }

  /** list_add to one ring, beside another one. */
  method ListAddBeside(n: Node, head: Node, ghost s: seq<Node>, ghost k: nat, ghost u: seq<Node>)
    requires Ring(s) && n !in s && k < |s| && head == s[k]
    requires u != [] ==> Ring(u) && forall i :: 0 <= i < |u| ==> u[i] !in s && u[i] != n
    modifies n, s
    ensures Ring(InsertAt(s, k + 1, n))
    ensures u != [] ==> Ring(u)
  {
    ListAdd(n, head, s, k);
    assert forall i :: 0 <= i < |u| ==> u[i].next == old(u[i].next) && u[i].prev == old(u[i].prev);
  }

  /** The ring to which list_swap adds entry1 again. */
  ghost function AddedTo(s: seq<Node>, i: nat, t: seq<Node>, j: nat): seq<Node>
    requires i < |s| && 0 < j < |t| && (t == s ==> i != j)
  {
    if t == s then Replaced(s, i, j) else RemoveAt(t, j)
  }

  lemma SwapEnd(s: seq<Node>, i: nat, t: seq<Node>, j: nat)
    requires NoDup(s) && NoDup(t) && 0 < i < |s| && 0 < j < |t|
    requires if t == s then i != j else forall a, b :: 0 <= a < |s| && 0 <= b < |t| ==> s[a] != t[b]
    ensures var q, u := AddedTo(s, i, t, j), s[i := t[j]];
            && |q| >= j && s[i] !in q
            && q[j - 1] == (if t[j - 1] == s[i] then t[j] else t[j - 1])
            && InsertAt(q, j, s[i]) == (if t == s then s[i := s[j]][j := s[i]] else t[j := s[i]])
            && (t != s ==> forall a :: 0 <= a < |u| ==> u[a] !in q && u[a] != s[i])
  {
    if t == s {
      SwapSteps(s, i, j);
    } else {
      RemovedAbsent(t, j);
    }
  }

  /** The first half of list_swap: entry2 is unlinked and takes the place of entry1. */
  method ListTakeOver(entry1: Node, entry2: Node, ghost s: seq<Node>, ghost i: nat, ghost t: seq<Node>, ghost j: nat)
    requires Swappable(s, i, t, j) && entry1 == s[i] && entry2 == t[j]
    modifies s, t
    ensures Ring(AddedTo(s, i, t, j))
    ensures t != s ==> Ring(s[i := entry2])
  {
    if t == s {
      SwapSteps(s, i, j);
    }
    RemovedAbsent(t, j);
    ListDel(entry2, t, j);
    ListReplace(entry1, entry2, if t == s then RemoveAt(s, j) else s, if t == s && j < i then i - 1 else i);
  }

  /** list_move_tail: the entry s[k] goes to the back of the list t, which may be the one it is on. */
  method ListMoveTail(list: Node, head: Node, ghost s: seq<Node>, ghost k: nat, ghost t: seq<Node>)
    requires Ring(s) && (t == s || Apart(s, t))
    requires 0 < k < |s| && list == s[k] && head == t[0]
    modifies s, t
    ensures t == s ==> Ring(RemoveAt(s, k) + [list])
    ensures t != s ==> Ring(RemoveAt(s, k)) && Ring(t + [list])
  {
    RemovedAbsent(s, k);
    ListDelEntry(list, s, k);
    ListAddTail(list, head, if t == s then RemoveAt(s, k) else t);
  }

  /** list_rotate_left: the first entry becomes the last. */
  method ListRotateLeft(head: Node, ghost s: seq<Node>)
    requires Ring(s) && head == s[0]
    modifies s
    ensures Ring(if |s| == 1 then s else [head] + s[2..] + [s[1]])
  {
    ListTests(s, 0);
    if !ListEmpty(head) {
      var first := head.next;
      assert first == s[1];
      ListMoveTail(first, head, s, 1, s);
      assert RemoveAt(s, 1) + [first] == [head] + s[2..] + [s[1]];
    }
  }

  lemma RotateSteps(s: seq<Node>, k: nat)
    requires 0 < k < |s|
    ensures RemoveAt(s, 0) == s[1..]
    ensures var p := if k == 1 then |s| - 1 else k - 1;
            var v := InsertAt(s[1..], p, s[0]);
            v[p..] + v[..p] == [s[0]] + s[k..] + s[1..k]
  {
    if k == 1 {
      assert InsertAt(s[1..], |s| - 1, s[0]) == s[1..] + [s[0]];
    } else {
      var v := InsertAt(s[1..], k - 1, s[0]);
      assert v == s[1..k] + ([s[0]] + s[k..]);
      assert v[k - 1..] == [s[0]] + s[k..] && v[..k - 1] == s[1..k];
    }
  }

  /** list_add_tail before an arbitrary node s[k] of a ring. */
  method ListAddBefore(n: Node, list: Node, ghost s: seq<Node>, ghost k: nat)
    requires Ring(s) && n !in s && k < |s| && list == s[k]
    modifies n, s
    ensures Ring(InsertAt(s, if k == 0 then |s| else k, n))
  {
    ghost var p := if k == 0 then |s| - 1 else k - 1;
    assert s[k].prev == s[p] && s[p].next == s[k];
    ListAddBetween(n, list.prev, list, s, p);
  }

  /** list_rotate_to_front moves the head, not the entries: it is unlinked and put before `list`. */
  method ListRotateToFront(list: Node, head: Node, ghost s: seq<Node>, ghost k: nat)
    requires Ring(s) && 0 < k < |s| && list == s[k] && head == s[0]
    modifies s
    ensures Ring([head] + s[k..] + s[1..k])
  {
    RotateSteps(s, k);
    ListDelEntry(head, s, 0);
    ListAddBefore(head, list, s[1..], k - 1);
    Rotated(s, k);
  }

  lemma Rotated(s: seq<Node>, k: nat)
    requires 0 < k < |s|
    requires Ring(InsertAt(s[1..], if k == 1 then |s| - 1 else k - 1, s[0]))
    ensures Ring([s[0]] + s[k..] + s[1..k])
  {
    RotateSteps(s, k);
    RotateRing(InsertAt(s[1..], if k == 1 then |s| - 1 else k - 1, s[0]), if k == 1 then |s| - 1 else k - 1);
  }

  /** list_bulk_move_tail: the entries s[i] .. s[j] go to the back, in order. */
  method ListBulkMoveTail(head: Node, first: Node, last: Node, ghost s: seq<Node>, ghost i: nat, ghost j: nat)
    requires Ring(s) && 0 < i <= j < |s|
    requires head == s[0] && first == s[i] && last == s[j]
    modifies s
    ensures Ring(s[..i] + s[j + 1..] + s[i..j + 1])
  {
    ghost var n := |s|;
    assert first.prev == s[i - 1] && last.next == s[if j == n - 1 then 0 else j + 1];
    assert head.prev == s[n - 1];
    first.prev.next := last.next;
    last.next.prev := first.prev;
    head.prev.next := first;
    first.prev := head.prev;
    last.next := head;
    head.prev := last;
    BulkRing(s, i, j);
    BulkMovedSlices(s, i, j);
  }

  /** The six writes of list_bulk_move_tail, as they leave the entries. */
  ghost predicate BulkLinked(s: seq<Node>, i: nat, j: nat)
    requires 0 < i <= j < |s|
    reads s
  {
    && (forall a {:trigger s[a].next} :: 0 <= a < |s| - 1 && a != i - 1 && a != j ==> s[a].next == s[a + 1])
    && (forall a {:trigger s[a].prev} :: 0 < a < |s| && a != i && a != j + 1 ==> s[a].prev == s[a - 1])
    && s[j].next == s[0] && s[0].prev == s[j]
    && (var m := if j == |s| - 1 then i - 1 else |s| - 1;
        s[m].next == s[i] && s[i].prev == s[m])
    && (j < |s| - 1 ==> s[i - 1].next == s[j + 1] && s[j + 1].prev == s[i - 1])
  }

  lemma BulkRing(s: seq<Node>, i: nat, j: nat)
    requires NoDup(s) && 0 < i <= j < |s| && BulkLinked(s, i, j)
    ensures Ring(BulkMoved(s, i, j))
  {
    if j == |s| - 1 {
      assert BulkMoved(s, i, j) == s;
    } else {
      BulkRingInside(s, i, j);
    }
  }

  lemma BulkRingInside(s: seq<Node>, i: nat, j: nat)
    requires NoDup(s) && 0 < i <= j < |s| - 1 && BulkLinked(s, i, j)
    ensures Ring(BulkMoved(s, i, j))
  {
    var r := BulkMoved(s, i, j);
    BulkMovedDistinct(s, i, j);
    forall a {:trigger r[a].next} | 0 <= a < |r| - 1 ensures r[a].next == r[a + 1] {
      BulkEdge(s, i, j, a);
    }
    forall a {:trigger r[a].prev} | 0 < a < |r| ensures r[a].prev == r[a - 1] {
      BulkEdge(s, i, j, a - 1);
    }
  }

  /** Neighbours in the new order are linked both ways. */
  lemma BulkEdge(s: seq<Node>, i: nat, j: nat, a: nat)
    requires 0 < i <= j < |s| - 1 && a < |s| - 1 && BulkLinked(s, i, j)
    ensures var r := BulkMoved(s, i, j); r[a].next == r[a + 1] && r[a + 1].prev == r[a]
  {
    var r, m := BulkMoved(s, i, j), |s| - (j + 1 - i);
    if a == m - 1 {
      assert r[a] == s[|s| - 1] && r[a + 1] == s[i];
    } else if a == i - 1 {
      assert r[a] == s[i - 1] && r[a + 1] == s[j + 1];
    } else {
      var c := if a < i then a else if a < m then a + (j + 1 - i) else a - m + i;
      assert r[a] == s[c] && r[a + 1] == s[c + 1];
    }
  }

  lemma BulkMovedDistinct(s: seq<Node>, i: nat, j: nat)
    requires NoDup(s) && 0 < i <= j < |s|
    ensures NoDup(BulkMoved(s, i, j))
  {
  }

  ghost function BulkMoved(s: seq<Node>, i: nat, j: nat): (r: seq<Node>)
    requires 0 < i <= j < |s|
    ensures |r| == |s|
    ensures var m := |s| - (j + 1 - i);
            forall a :: 0 <= a < |s| ==>
              r[a] == if a < i then s[a] else if a < m then s[a + (j + 1 - i)] else s[a - m + i]
  {
    var m := |s| - (j + 1 - i);
    seq(|s|, a requires 0 <= a < |s| =>
      if a < i then s[a] else if a < m then s[a + (j + 1 - i)] else s[a - m + i])
  }

  lemma BulkMovedSlices(s: seq<Node>, i: nat, j: nat)
    requires 0 < i <= j < |s|
    ensures BulkMoved(s, i, j) == s[..i] + s[j + 1..] + s[i..j + 1]
  {
  }

  // --------------------------------------------------------- cutting and joining

  /** list_cut_position: the entries up to and including `entry` move to `list`. */
  method ListCutPosition(list: Node, head: Node, entry: Node, ghost s: seq<Node>, ghost k: nat)
    requires Ring(s) && list !in s && head == s[0]
    requires (k < |s| && entry == s[k]) || (entry !in s && |s| <= 2)
    modifies list, s
    ensures entry in s && |s| > 1 ==> k < |s| && Ring([list] + s[1..k + 1]) && Ring([head] + s[k + 1..])
    ensures entry !in s || |s| == 1 ==> unchanged(list) && Ring(s)
  {
    ListTests(s, 0);
    if ListEmpty(head) {
      return;
    }
    assert head.next == s[1];
    if ListIsSingular(head) && head.next != entry && head != entry {
      return;
    }
    assert entry in s;
    if entry == head {
      CutNone(list, s);
    } else {
      ListCutAfter(list, head, entry, s, k);
    }
  }

  lemma CutNothing(list: Node, s: seq<Node>)
    requires |s| > 0
    ensures [list] + s[1..1] == [list] && [s[0]] + s[1..] == s
  {
  }

  /** __list_cut_position */
  method ListCutAfter(list: Node, head: Node, entry: Node, ghost s: seq<Node>, ghost k: nat)
    requires Ring(s) && list !in s && 0 < k < |s| && head == s[0] && entry == s[k]
    modifies list, s
    ensures Ring([list] + s[1..k + 1]) && Ring([head] + s[k + 1..])
  {
    assert head.next == s[1];
    var newFirst := entry.next;
    assert newFirst == s[if k == |s| - 1 then 0 else k + 1];
    list.next := head.next;
    list.next.prev := list;
    list.prev := entry;
    entry.next := list;
    head.next := newFirst;
    newFirst.prev := head;
    CutRings(s, list, k + 1);
  }

  /** list_cut_before: the entries before `entry` move to `list`; all of them if entry is the head. */
  method ListCutBefore(list: Node, head: Node, entry: Node, ghost s: seq<Node>, ghost k: nat)
    requires Ring(s) && list !in s && k < |s| && head == s[0] && entry == s[k]
    modifies list, s
    ensures var m := if k == 0 then |s| else k;
            Ring([list] + s[1..m]) && Ring([head] + s[m..])
  {
    CutBeforeTest(s, k);
    if head.next == entry {
      CutNone(list, s);
      return;
    }
    ListCutMiddle(list, head, entry, s, if k == 0 then |s| else k);
  }

  lemma CutBeforeTest(s: seq<Node>, k: nat)
    requires Ring(s) && k < |s|
    ensures s[0].next == s[k] <==> (if k == 0 then |s| else k) == 1
  {
    assert s[0].next == s[if |s| == 1 then 0 else 1];
  }

  /** Nothing is cut off. */
  method CutNone(list: Node, ghost s: seq<Node>)
    requires Ring(s) && list !in s
    modifies list
    ensures Ring([list] + s[1..1]) && Ring([s[0]] + s[1..])
  {
    InitListHead(list);
    CutNothing(list, s);
  }

  /** list_cut_before when something is cut off. */
  method ListCutMiddle(list: Node, head: Node, entry: Node, ghost s: seq<Node>, ghost m: nat)
    requires Ring(s) && list !in s && 1 < m <= |s| && head == s[0]
    requires entry == if m == |s| then s[0] else s[m]
    modifies list, s
    ensures Ring([list] + s[1..m]) && Ring([head] + s[m..])
  {
    assert head.next == s[1] && entry.prev == s[m - 1];
    list.next := head.next;
    list.next.prev := list;
    list.prev := entry.prev;
    list.prev.next := list;
    head.next := entry;
    entry.prev := head;
    CutRings(s, list, m);
  }

  /** The six writes of a cut before s[m]. */
  ghost predicate CutLinked(s: seq<Node>, list: Node, m: nat)
    requires 1 < m <= |s|
    reads s, list
  {
    && list.next == s[1] && s[1].prev == list
    && list.prev == s[m - 1] && s[m - 1].next == list
    && (forall i {:trigger s[i].next} :: 0 < i < |s| - 1 && i != m - 1 ==> s[i].next == s[i + 1])
    && (forall i {:trigger s[i].prev} :: 1 < i < |s| && i != m ==> s[i].prev == s[i - 1])
    && (var e := if m == |s| then s[0] else s[m]; s[0].next == e && e.prev == s[0])
    && (m < |s| ==> s[|s| - 1].next == s[0] && s[0].prev == s[|s| - 1])
  }

  /** They leave two rings. */
  lemma CutRings(s: seq<Node>, list: Node, m: nat)
    requires NoDup(s) && list !in s && 1 < m <= |s| && CutLinked(s, list, m)
    ensures Ring([list] + s[1..m]) && Ring([s[0]] + s[m..])
  {
    CutHeaded(s, list, m);
    CutSlices(list, s, m);
  }

  lemma CutHeaded(s: seq<Node>, list: Node, m: nat)
    requires NoDup(s) && list !in s && 1 < m <= |s| && CutLinked(s, list, m)
    ensures Ring(Headed(list, s, 1, m)) && Ring(Headed(s[0], s, m, |s|))
  {
  }

  lemma CutSlices(list: Node, s: seq<Node>, m: nat)
    requires 0 < m <= |s|
    ensures Headed(list, s, 1, m) == [list] + s[1..m] && Headed(s[0], s, m, |s|) == [s[0]] + s[m..]
  {
    HeadedIs(list, s, 1, m);
    HeadedIs(s[0], s, m, |s|);
  }

  /** Two rings that share no node. */
  ghost predicate Apart(s: seq<Node>, t: seq<Node>)
    reads s, t
  {
    Ring(s) && Ring(t) && forall i, j :: 0 <= i < |s| && 0 <= j < |t| ==> s[i] != t[j]
  }

  /** __list_splice: the entries of the ring t go between s[k] and its successor. */
  method ListSpliceBetween(list: Node, prev: Node, next: Node,
                           ghost s: seq<Node>, ghost t: seq<Node>, ghost k: nat)
    requires Apart(s, t) && |t| > 1 && list == t[0]
    requires k < |s| && prev == s[k] && next == s[k].next
    modifies s, t
    ensures Ring(Spliced(s, t, k))
    ensures list.next == old(list.next) && list.prev == old(list.prev)
  {
    assert next == s[if k == |s| - 1 then 0 else k + 1];
    var first, last := list.next, list.prev;
    assert first == t[1] && last == t[|t| - 1];
    first.prev := prev;
    prev.next := first;
    last.next := next;
    next.prev := last;
    SpliceRing(s, t, k);
  }

  /** The four writes of a splice leave one ring. */
  lemma SpliceRing(s: seq<Node>, t: seq<Node>, k: nat)
    requires NoDup(s) && NoDup(t) && |t| > 1 && k < |s|
    requires forall i, j :: 0 <= i < |s| && 0 <= j < |t| ==> s[i] != t[j]
    requires forall i {:trigger s[i].next} :: 0 <= i < |s| - 1 && i != k ==> s[i].next == s[i + 1]
    requires forall i {:trigger s[i].prev} :: 0 < i < |s| && i != k + 1 ==> s[i].prev == s[i - 1]
    requires forall i {:trigger t[i].next} :: 0 < i < |t| - 1 ==> t[i].next == t[i + 1]
    requires forall i {:trigger t[i].prev} :: 1 < i < |t| ==> t[i].prev == t[i - 1]
    requires t[1].prev == s[k] && s[k].next == t[1]
    requires var e := if k == |s| - 1 then s[0] else s[k + 1];
             t[|t| - 1].next == e && e.prev == t[|t| - 1]
    requires k < |s| - 1 ==> s[|s| - 1].next == s[0] && s[0].prev == s[|s| - 1]
    ensures Ring(Spliced(s, t, k))
  {
    var r := Spliced(s, t, k);
    SplicedDistinct(s, t, k);
    forall a {:trigger r[a].next} | 0 <= a < |r| - 1 ensures r[a].next == r[a + 1] {
    }
    forall a {:trigger r[a].prev} | 0 < a < |r| ensures r[a].prev == r[a - 1] {
    }
  }

  lemma SplicedDistinct(s: seq<Node>, t: seq<Node>, k: nat)
    requires NoDup(s) && NoDup(t) && |t| > 0 && k < |s|
    requires forall i, j :: 0 <= i < |s| && 0 <= j < |t| ==> s[i] != t[j]
    ensures NoDup(Spliced(s, t, k)) && t[0] !in Spliced(s, t, k)
  {
  }

  lemma SpliceNothing(s: seq<Node>, t: seq<Node>, k: nat)
    requires |t| == 1 && k < |s|
    ensures Spliced(s, t, k) == s && t == [t[0]]
  {
  }

  lemma SpliceSlices(s: seq<Node>, t: seq<Node>)
    requires |s| > 0 && |t| > 0
    ensures Spliced(s, t, 0) == [s[0]] + t[1..] + s[1..]
    ensures Spliced(s, t, |s| - 1) == s + t[1..]
  {
    SplicedIs(s, t, 0);
    SplicedIs(s, t, |s| - 1);
  }

  /** list_splice: the entries of t become the first entries of s. */
  method ListSplice(list: Node, head: Node, ghost s: seq<Node>, ghost t: seq<Node>)
    requires Apart(s, t) && list == t[0] && head == s[0]
    modifies s, t
    ensures Ring([head] + t[1..] + s[1..])
    ensures list.next == old(list.next) && list.prev == old(list.prev)
  {
    SpliceSlices(s, t);
    ListTests(t, 0);
    if !ListEmpty(list) {
      ListSpliceBetween(list, head, head.next, s, t, 0);
    } else {
      SpliceNothing(s, t, 0);
    }
  }

  /** list_splice_tail: the entries of t become the last entries of s. */
  method ListSpliceTail(list: Node, head: Node, ghost s: seq<Node>, ghost t: seq<Node>)
    requires Apart(s, t) && list == t[0] && head == s[0]
    modifies s, t
    ensures Ring(s + t[1..])
    ensures list.next == old(list.next) && list.prev == old(list.prev)
  {
    SpliceSlices(s, t);
    ListTests(t, 0);
    if !ListEmpty(list) {
      assert head.prev == s[|s| - 1] && s[|s| - 1].next == head;
      ListSpliceBetween(list, head.prev, head, s, t, |s| - 1);
    } else {
      SpliceNothing(s, t, |s| - 1);
    }
  }

  /** list_splice_init: as list_splice, and the emptied list is a list again. */
  method ListSpliceInit(list: Node, head: Node, ghost s: seq<Node>, ghost t: seq<Node>)
    requires Apart(s, t) && list == t[0] && head == s[0]
    modifies s, t
    ensures Ring([head] + t[1..] + s[1..]) && Ring([list])
  {
    SpliceSlices(s, t);
    ListTests(t, 0);
    if !ListEmpty(list) {
      SplicedDistinct(s, t, 0);
      ListSplice(list, head, s, t);
      InitListHead(list);
    } else {
      SpliceNothing(s, t, 0);
    }
  }

  /** list_splice_tail_init */
  method ListSpliceTailInit(list: Node, head: Node, ghost s: seq<Node>, ghost t: seq<Node>)
    requires Apart(s, t) && list == t[0] && head == s[0]
    modifies s, t
    ensures Ring(s + t[1..]) && Ring([list])
  {
    SpliceSlices(s, t);
    ListTests(t, 0);
    if !ListEmpty(list) {
      SplicedDistinct(s, t, |s| - 1);
      ListSpliceTail(list, head, s, t);
      InitListHead(list);
    } else {
      SpliceNothing(s, t, |s| - 1);
    }
  }

  /** Splicing back what a cut at k took off gives the original sequence. */
  lemma CutParts(list: Node, s: seq<Node>, k: nat)
    requires NoDup(s) && list !in s && k < |s|
    ensures var t, u := [list] + s[1..k + 1], [s[0]] + s[k + 1..];
            && (forall i, j :: 0 <= i < |u| && 0 <= j < |t| ==> u[i] != t[j])
            && (forall x :: x in t ==> x == list || x in s) && (forall x :: x in u ==> x in s)
            && [s[0]] + t[1..] + u[1..] == s
  {
    assert ([list] + s[1..k + 1])[1..] == s[1..k + 1] && ([s[0]] + s[k + 1..])[1..] == s[k + 1..];
  }

  /** Cutting a list anywhere and splicing the part back restores it. */
  method CutThenSplice(list: Node, head: Node, entry: Node, ghost s: seq<Node>, ghost k: nat)
    requires Ring(s) && Ring([list]) && list !in s && k < |s| && head == s[0] && entry == s[k]
    modifies list, s
    ensures Ring(s) && Ring([list])
  {
    ListCutPosition(list, head, entry, s, k);
    CutParts(list, s, k);
    if |s| == 1 {
      assert [list] + s[1..k + 1] == [list] && [head] + s[k + 1..] == s;
    }
    ListSpliceInit(list, head, [head] + s[k + 1..], [list] + s[1..k + 1]);
  }

  // ---------------------------------------------------------------- iteration

  /** The entries of s that are not in drop. */
  function Kept(s: seq<Node>, drop: set<Node>): seq<Node> {
    if s == [] then []
    else Kept(s[..|s| - 1], drop) + (if s[|s| - 1] in drop then [] else [s[|s| - 1]])
  }

  /** The positions in s of those entries. */
  ghost function KeptAt(s: seq<Node>, drop: set<Node>): seq<int> {
    if s == [] then []
    else KeptAt(s[..|s| - 1], drop) + (if s[|s| - 1] in drop then [] else [|s| - 1])
  }

  /** r consists of the entries of s at the positions `at`, which are all those not in drop, in increasing order. */
  ghost predicate Selects(s: seq<Node>, drop: set<Node>, at: seq<int>, r: seq<Node>) {
    && |at| == |r|
    && (forall i :: 0 <= i < |at| ==> 0 <= at[i] < |s| && r[i] == s[at[i]])
    && (forall i, j :: 0 <= i < j < |at| ==> at[i] < at[j])
    && (forall k :: 0 <= k < |s| ==> (k in at <==> s[k] !in drop))
  }

  lemma {:induction false} KeptExact(s: seq<Node>, drop: set<Node>)
    ensures Selects(s, drop, KeptAt(s, drop), Kept(s, drop))
  {
    if s != [] {
      var n := |s| - 1;
      var at := KeptAt(s[..n], drop);
      KeptExact(s[..n], drop);
      assert forall i :: 0 <= i < n ==> s[..n][i] == s[i];
      assert n !in at;
    }
  }

  /** How many of s[1] .. s[k - 1] have been kept, plus one for the head. */
  ghost function Pos(s: seq<Node>, drop: set<Node>, k: nat): (d: nat)
    requires 0 < k <= |s|
    ensures 1 <= d <= k
  {
    if k == 1 then 1 else Pos(s, drop, k - 1) + (if s[k - 1] in drop then 0 else 1)
  }

  /** The ring when the entries before s[k] have been visited. */
  ghost function Visited(s: seq<Node>, drop: set<Node>, k: nat): seq<Node>
    requires 0 < k <= |s|
  {
    if k == 1 then s
    else
      var r, d := Visited(s, drop, k - 1), Pos(s, drop, k - 1);
      if s[k - 1] in drop && d < |r| then RemoveAt(r, d) else r
  }

  lemma {:induction false} VisitedShape(s: seq<Node>, drop: set<Node>, k: nat)
    requires 0 < k <= |s| && s[0] !in drop
    ensures var r, d := Visited(s, drop, k), Pos(s, drop, k);
            && |r| == d + |s| - k
            && (forall i :: k <= i < |s| ==> r[d + i - k] == s[i])
            && (forall x :: x in r ==> x in s)
    ensures Visited(s, drop, k)[0] == s[0]
  {
    if k > 1 {
      VisitedShape(s, drop, k - 1);
      var r, d := Visited(s, drop, k - 1), Pos(s, drop, k - 1);
      assert r[d] == s[k - 1];
      if s[k - 1] in drop {
        var q := RemoveAt(r, d);
        forall i | k <= i < |s| ensures q[d + i - k] == s[i] {
          assert r[d + i - (k - 1)] == s[i];
        }
      }
    }
  }

  lemma PrefixStep(r: seq<Node>, d: nat)
    requires d < |r|
    ensures RemoveAt(r, d)[..d] == r[..d] && r[..d + 1] == r[..d] + [r[d]]
  {
  }

  lemma KeptNext(s: seq<Node>, drop: set<Node>, k: nat)
    requires 0 < k <= |s|
    ensures Kept(s[..k], drop) == Kept(s[..k - 1], drop) + (if s[k - 1] in drop then [] else [s[k - 1]])
  {
    assert s[..k][..k - 1] == s[..k - 1] && s[..k][k - 1] == s[k - 1];
  }

  lemma {:induction false} VisitedKept(s: seq<Node>, drop: set<Node>, k: nat)
    requires 0 < k <= |s| && s[0] !in drop
    ensures |Visited(s, drop, k)| >= Pos(s, drop, k)
    ensures Visited(s, drop, k)[..Pos(s, drop, k)] == Kept(s[..k], drop)
  {
    VisitedShape(s, drop, k);
    KeptNext(s, drop, k);
    if k > 1 {
      VisitedShape(s, drop, k - 1);
      VisitedKept(s, drop, k - 1);
      var r, d := Visited(s, drop, k - 1), Pos(s, drop, k - 1);
      assert r[d] == s[k - 1];
      PrefixStep(r, d);
    } else {
      assert s[..0] == [] && s[..1] == [s[0]];
    }
  }

  lemma AllVisited(s: seq<Node>, drop: set<Node>)
    requires |s| > 0 && s[0] !in drop
    ensures Visited(s, drop, |s|) == Kept(s, drop) && Selects(s, drop, KeptAt(s, drop), Kept(s, drop))
  {
    VisitedShape(s, drop, |s|);
    VisitedKept(s, drop, |s|);
    KeptExact(s, drop);
    assert s[..|s|] == s;
  }

  /** list_for_each_entry_safe whose body deletes the entries of drop leaves exactly the others, in order. */
  method DeleteWhileIterating(head: Node, drop: set<Node>, ghost s: seq<Node>)
    requires Ring(s) && head == s[0] && head !in drop
    modifies s
    ensures Ring(Kept(s, drop)) && Selects(s, drop, KeptAt(s, drop), Kept(s, drop))
  {
    ghost var k := 1;
    assert head.next == s[if |s| == 1 then 0 else 1];
    var pos := head.next;
    var n := pos.next;
    while pos != head
      invariant 1 <= k <= |s| && Ring(Visited(s, drop, k))
      invariant pos == if k == |s| then head else s[k]
      invariant n == pos.next
      decreases |s| - k
    {
      n := DeleteOne(pos, n, head, drop, s, k);
      k := k + 1;
      pos := n;
      n := n.next;
    }
    AllVisited(s, drop);
  }

  /** The body of that loop at s[k]; the next entry has been read beforehand. */
  method DeleteOne(pos: Node, n: Node?, head: Node, drop: set<Node>, ghost s: seq<Node>, ghost k: nat)
    returns (next: Node)
    requires 0 < k < |s| && s[0] == head && head !in drop && pos == s[k]
    requires Ring(Visited(s, drop, k)) && n == pos.next
    modifies s
    ensures Ring(Visited(s, drop, k + 1))
    ensures next == n && next == if k + 1 == |s| then head else s[k + 1]
  {
    ghost var ring, d := Visited(s, drop, k), Pos(s, drop, k);
    VisitedShape(s, drop, k);
    assert ring[d] == pos && ring[0] == head;
    assert forall i :: 0 <= i < |ring| ==> ring[i] in s;
    assert k + 1 < |s| ==> ring[d + 1] == s[k + 1];
    assert ring[d].next == ring[if d == |ring| - 1 then 0 else d + 1];
    next := n;
    if pos in drop {
      ListDel(pos, ring, d);
    }
  }
}
