/** Small facts, mostly about sequences, that several components share. */
module Seqs {
  datatype Option<+T> = None | Some(value: T)

  function Min(a: int, b: int): int {
    if a < b then a else b
  }

  ghost predicate NoDup<T>(s: seq<T>) {
    forall i, j :: 0 <= i < j < |s| ==> s[i] != s[j]
  }

  function RemoveAt<T>(s: seq<T>, k: nat): (r: seq<T>)
    requires k < |s|
    ensures |r| == |s| - 1
    ensures forall i :: 0 <= i < |r| ==> r[i] == s[if i < k then i else i + 1]
  {
    seq(|s| - 1, i requires 0 <= i < |s| - 1 => s[if i < k then i else i + 1])
  }

  function InsertAt<T>(s: seq<T>, k: nat, x: T): (r: seq<T>)
    requires k <= |s|
    ensures |r| == |s| + 1 && r[k] == x
    ensures forall i :: 0 <= i < |r| && i != k ==> r[i] == s[if i < k then i else i - 1]
  {
    seq(|s| + 1, i requires 0 <= i <= |s| => if i < k then s[i] else if i == k then x else s[i - 1])
  }

  /** The first occurrence of x unlinked. */
  function Without<T(==)>(q: seq<T>, x: T): seq<T> {
    if q == [] then [] else if q[0] == x then q[1..] else [q[0]] + Without(q[1..], x)
  }

  lemma {:induction false} WithoutAt<T>(q: seq<T>, i: nat, x: T)
    requires i <= |q| && (forall k :: 0 <= k < i ==> q[k] != x) && (i < |q| ==> q[i] == x)
    ensures Without(q, x) == if i < |q| then q[..i] + q[i + 1..] else q
  {
    if i > 0 {
      WithoutAt(q[1..], i - 1, x);
      assert q == [q[0]] + q[1..];
    }
  }

  lemma {:induction false} WithoutOne<T>(q: seq<T>, x: T)
    requires NoDup(q)
    ensures NoDup(Without(q, x))
    ensures |Without(q, x)| == if x in q then |q| - 1 else |q|
    ensures forall y :: y in Without(q, x) <==> y in q && y != x
  {
    if q != [] {
      assert q == [q[0]] + q[1..];
      WithoutOne(q[1..], x);
      if q[0] == x {
        assert forall y :: y in q[1..] <==> y in q && y != x;
      } else {
        assert q[0] !in Without(q[1..], x);
      }
    }
  }

  lemma RemovedAbsent<T>(s: seq<T>, k: nat)
    requires NoDup(s) && k < |s|
    ensures s[k] !in RemoveAt(s, k) && NoDup(RemoveAt(s, k))
    ensures forall x :: x in RemoveAt(s, k) ==> x in s
  {
  }

  /** h followed by s[lo..hi]. */
  function Headed<T>(h: T, s: seq<T>, lo: nat, hi: nat): (r: seq<T>)
    requires lo <= hi <= |s|
    ensures |r| == 1 + hi - lo && r[0] == h
    ensures forall i :: 0 < i < |r| ==> r[i] == s[lo + i - 1]
  {
    seq(1 + hi - lo, i requires 0 <= i <= hi - lo => if i == 0 then h else s[lo + i - 1])
  }

  lemma HeadedIs<T>(h: T, s: seq<T>, lo: nat, hi: nat)
    requires lo <= hi <= |s|
    ensures Headed(h, s, lo, hi) == [h] + s[lo..hi]
  {
  }

  /** s with t's elements but the first put after s[k]. */
  function Spliced<T>(s: seq<T>, t: seq<T>, k: nat): (r: seq<T>)
    requires k < |s| && |t| > 0
    ensures |r| == |s| + |t| - 1
    ensures forall i :: 0 <= i < |r| ==>
              r[i] == if i <= k then s[i] else if i < k + |t| then t[i - k] else s[i - |t| + 1]
  {
    seq(|s| + |t| - 1, i requires 0 <= i < |s| + |t| - 1 =>
      if i <= k then s[i] else if i < k + |t| then t[i - k] else s[i - |t| + 1])
  }

  lemma SplicedIs<T>(s: seq<T>, t: seq<T>, k: nat)
    requires k < |s| && |t| > 0
    ensures Spliced(s, t, k) == s[..k + 1] + t[1..] + s[k + 1..]
  {
  }
}
