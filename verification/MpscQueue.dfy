/**
 The intrusive multi-producer single-consumer queue of src/queue/mpscq.c, as a
 system of atomic steps under sequential consistency.  Every shared read and
 every shared write is a step of its own; the exchange of `head` is the load
 and compare-and-swap retry loop of src/include/atm_gcc_sync.h.
 */
module MpscQueue {
  import opened Seqs

  type Node = nat
  type Pid = nat

  /** The node embedded in the queue itself. */
  const STUB: Node := 0

  /** Where a producer is inside `mpscq_push(self, n)`. */
  datatype Producer =
    | Clear(n: Node)             // about to run n->next = 0
    | Load(n: Node)              // about to load head
    | Cas(n: Node, cur: Node)    // about to compare-and-swap head from cur to n
    | Link(n: Node, prev: Node)  // exchanged; about to run prev->next = n

  /** Where the consumer is inside `mpscq_pop(self)`. */
  datatype Consumer =
    | Idle
    | ReadNext(t: Node)              // about to read t->next for the first time
    | SkipStub(nx: Node)             // about to move tail from the stub to nx
    | ReadSecond(t: Node)            // stub skipped; about to read t->next
    | Take(t: Node, nx: Node)        // about to set tail to nx and return t
    | ReadHead(t: Node)              // about to compare t with head
    | StubClear(t: Node)             // pushing the stub: about to clear stub.next
    | StubLoad(t: Node)
    | StubCas(t: Node, cur: Node)
    | StubLink(t: Node, prev: Node)
    | Recheck(t: Node)               // stub pushed; about to read t->next again

  /**
   Shared memory, the threads, and two histories: `pushed` lists user nodes in
   the order of their successful exchanges, `popped` the nodes pop returned.
   A node absent from `next` has a null link.
   */
  datatype State = State(head: Node, tail: Node, next: map<Node, Node>,
                         producers: map<Pid, Producer>, consumer: Consumer,
                         pushed: seq<Node>, popped: seq<Node>)

  datatype Action = StartPush(p: Pid, n: Node) | PushStep(p: Pid) | StartPop | PopStep

  /** `mpscq_create`; links of user nodes may hold anything. */
  ghost predicate Init(s: State) {
    && s.head == STUB && s.tail == STUB && STUB !in s.next
    && s.producers == map[] && s.consumer == Idle
    && s.pushed == [] && s.popped == []
  }

  /** The user nodes whose push has exchanged and that no pop has returned. */
  function InFlight(s: State): seq<Node> {
    if |s.popped| <= |s.pushed| then s.pushed[|s.popped|..] else []
  }

  /** A caller pushes a node that is neither queued nor being pushed. */
  ghost predicate Enabled(s: State, a: Action) {
    match a
    case StartPush(p, n) =>
      && p !in s.producers && n != STUB && n !in InFlight(s)
      && forall q | q in s.producers :: s.producers[q].n != n
    case PushStep(p) => p in s.producers
    case StartPop => s.consumer == Idle
    case PopStep => s.consumer != Idle
  }

  function ProducerStep(s: State, p: Pid): State
    requires p in s.producers
  {
    match s.producers[p]
    case Clear(n) => s.(next := s.next - {n}, producers := s.producers[p := Load(n)])
    case Load(n) => s.(producers := s.producers[p := Cas(n, s.head)])
    case Cas(n, cur) =>
      if s.head == cur then
        s.(head := n, pushed := s.pushed + [n], producers := s.producers[p := Link(n, cur)])
      else
        s.(producers := s.producers[p := Load(n)])
    case Link(n, prev) => s.(next := s.next[prev := n], producers := s.producers - {p})
  }

  function ConsumerStep(s: State): State
    requires s.consumer != Idle
  {
    match s.consumer
    case ReadNext(t) =>
      if t == STUB then
        s.(consumer := if t in s.next then SkipStub(s.next[t]) else Idle)
      else
        s.(consumer := if t in s.next then Take(t, s.next[t]) else ReadHead(t))
    case SkipStub(nx) => s.(tail := nx, consumer := ReadSecond(nx))
    case ReadSecond(t) =>
      s.(consumer := if t in s.next then Take(t, s.next[t]) else ReadHead(t))
    case Take(t, nx) => s.(tail := nx, consumer := Idle, popped := s.popped + [t])
    case ReadHead(t) => s.(consumer := if t != s.head then Idle else StubClear(t))
    case StubClear(t) => s.(next := s.next - {STUB}, consumer := StubLoad(t))
    case StubLoad(t) => s.(consumer := StubCas(t, s.head))
    case StubCas(t, cur) =>
      if s.head == cur then s.(head := STUB, consumer := StubLink(t, cur))
      else s.(consumer := StubLoad(t))
    case StubLink(t, prev) => s.(next := s.next[prev := STUB], consumer := Recheck(t))
    case Recheck(t) => s.(consumer := if t in s.next then Take(t, s.next[t]) else Idle)
  }

  function Apply(s: State, a: Action): State
    requires a.PushStep? ==> a.p in s.producers
    requires a.PopStep? ==> s.consumer != Idle
  {
    match a
    case StartPush(p, n) => s.(producers := s.producers[p := Clear(n)])
    case PushStep(p) => ProducerStep(s, p)
    case StartPop => s.(consumer := ReadNext(s.tail))
    case PopStep => ConsumerStep(s)
  }

  // ---------------------------------------------------------------- the chain

  /** Somebody has exchanged b in after a and has yet to write a->next = b. */
  ghost predicate Pending(s: State, a: Node, b: Node) {
    || (exists p :: p in s.producers && s.producers[p] == Link(b, a))
    || (b == STUB && s.consumer.StubLink? && s.consumer.prev == a)
  }

  ghost predicate Linked(s: State, a: Node, b: Node) {
    if a in s.next then s.next[a] == b else Pending(s, a, b)
  }

  /**
   c is the queue from tail to head: consecutive nodes are joined by a written
   link or, while that link is still null, by a thread about to write it.
   */
  ghost predicate IsChain(s: State, c: seq<Node>) {
    && |c| > 0 && c[0] == s.tail && c[|c| - 1] == s.head && NoDup(c)
    && s.head !in s.next
    && forall i :: 0 <= i < |c| - 1 ==> Linked(s, c[i], c[i + 1])
  }

  ghost predicate Adjacent(c: seq<Node>, a: Node, b: Node) {
    exists i :: 0 <= i < |c| - 1 && c[i] == a && c[i + 1] == b
  }

  /** The chain without the stub. */
  function Users(c: seq<Node>): seq<Node> {
    if c == [] then [] else (if c[0] == STUB then [] else [c[0]]) + Users(c[1..])
  }

  ghost predicate ProducerOk(s: State, c: seq<Node>, pr: Producer) {
    && pr.n != STUB
    && match pr
       case Clear(n) => n !in c
       case Load(n) => n !in c && n !in s.next
       case Cas(n, cur) => n !in c && n !in s.next
       case Link(n, prev) => Adjacent(c, prev, n) && prev !in s.next
  }

  ghost predicate ConsumerOk(s: State, c: seq<Node>) {
    match s.consumer
    case Idle => true
    case ReadNext(t) => t == s.tail
    case SkipStub(nx) => s.tail == STUB && STUB in s.next && s.next[STUB] == nx
    case ReadSecond(t) => t == s.tail && t != STUB
    case Take(t, nx) => t == s.tail && t != STUB && t in s.next && s.next[t] == nx
    case ReadHead(t) => t == s.tail && t != STUB
    case StubClear(t) => t == s.tail && STUB !in c
    case StubLoad(t) => t == s.tail && STUB !in c && STUB !in s.next
    case StubCas(t, cur) => t == s.tail && STUB !in c && STUB !in s.next
    case StubLink(t, prev) => t == s.tail && t != STUB && Adjacent(c, prev, STUB) && prev !in s.next
    case Recheck(t) => t == s.tail && t != STUB
  }

  ghost predicate Inv(s: State, c: seq<Node>) {
    && IsChain(s, c)
    && (forall p :: p in s.producers ==> ProducerOk(s, c, s.producers[p]))
    && (forall p, q :: p in s.producers && q in s.producers && p != q ==>
                         s.producers[p].n != s.producers[q].n)
    && ConsumerOk(s, c)
    && s.popped + Users(c) == s.pushed
  }

  /** How one step moves the chain. */
  ghost function NextChain(s: State, c: seq<Node>, a: Action): seq<Node> {
    match a
    case PushStep(p) =>
      if p in s.producers && s.producers[p].Cas? && s.head == s.producers[p].cur
      then c + [s.producers[p].n] else c
    case PopStep =>
      if s.consumer.StubCas? && s.head == s.consumer.cur then c + [STUB]
      else if (s.consumer.SkipStub? || s.consumer.Take?) && |c| > 0 then c[1..]
      else c
    case _ => c
  }

  // ------------------------------------------------- every step keeps the chain

  lemma UsersAppend(c: seq<Node>, x: Node)
    ensures Users(c + [x]) == Users(c) + (if x == STUB then [] else [x])
  {
    if c == [] {
      assert [] + [x] == [x];
      assert [x][1..] == [];
    } else {
      assert (c + [x])[1..] == c[1..] + [x];
      UsersAppend(c[1..], x);
    }
  }

  lemma UsersMember(c: seq<Node>, x: Node)
    ensures x in Users(c) <==> x in c && x != STUB
  {
  }

  lemma StartPushKeeps(s: State, c: seq<Node>, p: Pid, n: Node)
    requires Inv(s, c) && Enabled(s, StartPush(p, n))
    ensures Inv(Apply(s, StartPush(p, n)), c)
  {
    var s' := Apply(s, StartPush(p, n));
    assert InFlight(s) == Users(c) by { assert s.pushed == s.popped + Users(c); }
    UsersMember(c, n);
    forall i | 0 <= i < |c| - 1 ensures Linked(s', c[i], c[i + 1]) {
      PendingSurvives(s, s', c[i], c[i + 1]);
    }
  }

  /** A pending link stays pending as long as the thread that owes it is untouched. */
  lemma PendingSurvives(s: State, s': State, a: Node, b: Node)
    requires s'.consumer == s.consumer
    requires forall q :: q in s.producers && s.producers[q].Link? ==>
                           q in s'.producers && s'.producers[q] == s.producers[q]
    ensures Pending(s, a, b) ==> Pending(s', a, b)
  {
  }

  lemma AdjacentUnique(c: seq<Node>, a: Node, b: Node, a': Node, b': Node)
    requires NoDup(c) && Adjacent(c, a, b) && Adjacent(c, a', b')
    ensures a == a' <==> b == b'
  {
  }

  lemma AdjacentAppend(c: seq<Node>, x: Node, a: Node, b: Node)
    requires Adjacent(c, a, b)
    ensures Adjacent(c + [x], a, b)
  {
    var i :| 0 <= i < |c| - 1 && c[i] == a && c[i + 1] == b;
    assert (c + [x])[i] == a && (c + [x])[i + 1] == b;
  }

  lemma ClearKeeps(s: State, c: seq<Node>, p: Pid)
    requires Inv(s, c) && p in s.producers && s.producers[p].Clear?
    ensures Inv(ProducerStep(s, p), c)
  {
    var s' := ProducerStep(s, p);
    forall i | 0 <= i < |c| - 1 ensures Linked(s', c[i], c[i + 1]) {
      PendingSurvives(s, s', c[i], c[i + 1]);
    }
  }

  lemma LoadKeeps(s: State, c: seq<Node>, p: Pid)
    requires Inv(s, c) && p in s.producers
    requires s.producers[p].Load? || (s.producers[p].Cas? && s.head != s.producers[p].cur)
    ensures Inv(ProducerStep(s, p), c)
  {
    var s' := ProducerStep(s, p);
    forall i | 0 <= i < |c| - 1 ensures Linked(s', c[i], c[i + 1]) {
      PendingSurvives(s, s', c[i], c[i + 1]);
    }
  }

  lemma ExchangeKeeps(s: State, c: seq<Node>, p: Pid)
    requires Inv(s, c) && p in s.producers
    requires s.producers[p].Cas? && s.head == s.producers[p].cur
    ensures Inv(ProducerStep(s, p), c + [s.producers[p].n])
  {
    var n := s.producers[p].n;
    var s', c' := ProducerStep(s, p), c + [n];
    UsersAppend(c, n);
    assert s.popped + Users(c') == s'.pushed;
    assert c'[|c| - 1] == s.head && c'[|c|] == n && s'.producers[p] == Link(n, s.head);
    assert Adjacent(c', s.head, n);
    forall i | 0 <= i < |c'| - 1 ensures Linked(s', c'[i], c'[i + 1]) {
      if i < |c| - 1 {
        assert Linked(s, c[i], c[i + 1]);
        PendingSurvives(s, s', c[i], c[i + 1]);
      } else {
        assert Pending(s', s.head, n);
      }
    }
    forall q | q in s'.producers ensures ProducerOk(s', c', s'.producers[q]) {
      if q != p {
        assert ProducerOk(s, c, s.producers[q]);
        if s.producers[q].Link? {
          AdjacentAppend(c, n, s.producers[q].prev, s.producers[q].n);
        }
      }
    }
    if s.consumer.StubLink? {
      AdjacentAppend(c, n, s.consumer.prev, STUB);
    }
  }

  lemma LinkKeeps(s: State, c: seq<Node>, p: Pid)
    requires Inv(s, c) && p in s.producers && s.producers[p].Link?
    ensures Inv(ProducerStep(s, p), c)
  {
    var n, prev := s.producers[p].n, s.producers[p].prev;
    var s' := ProducerStep(s, p);
    assert ProducerOk(s, c, s.producers[p]);
    assert prev != s.head by {
      var i :| 0 <= i < |c| - 1 && c[i] == prev && c[i + 1] == n;
    }
    forall i | 0 <= i < |c| - 1 ensures Linked(s', c[i], c[i + 1]) {
      assert Linked(s, c[i], c[i + 1]) && Adjacent(c, c[i], c[i + 1]);
      AdjacentUnique(c, prev, n, c[i], c[i + 1]);
      if q :| q in s.producers && s.producers[q] == Link(c[i + 1], c[i]) {
        assert c[i] != prev ==> q in s'.producers && s'.producers[q] == Link(c[i + 1], c[i]);
      }
    }
    forall q | q in s'.producers ensures ProducerOk(s', c, s'.producers[q]) {
      assert ProducerOk(s, c, s.producers[q]);
      if s.producers[q].Link? {
        AdjacentUnique(c, prev, n, s.producers[q].prev, s.producers[q].n);
      } else {
        assert prev in c && prev != s.producers[q].n;
      }
    }
    if s.consumer.StubLink? {
      AdjacentUnique(c, prev, n, s.consumer.prev, STUB);
    }
  }

  /** The consumer moves between program points without touching memory. */
  lemma QuietConsumerKeeps(s: State, c: seq<Node>, to: Consumer)
    requires Inv(s, c) && !s.consumer.StubLink? && ConsumerOk(s.(consumer := to), c)
    requires !to.StubLink?
    ensures Inv(s.(consumer := to), c)
  {
    var s' := s.(consumer := to);
    forall i | 0 <= i < |c| - 1 ensures Linked(s', c[i], c[i + 1]) {
      assert Linked(s, c[i], c[i + 1]);
      if exists p :: p in s.producers && s.producers[p] == Link(c[i + 1], c[i]) {
        var p :| p in s.producers && s.producers[p] == Link(c[i + 1], c[i]);
        assert p in s'.producers && s'.producers[p] == Link(c[i + 1], c[i]);
      }
    }
    forall q | q in s'.producers ensures ProducerOk(s', c, s'.producers[q]) {
      assert ProducerOk(s, c, s.producers[q]);
    }
  }

  /** Moving tail over its first, already linked node. */
  lemma AdvanceKeeps(s: State, c: seq<Node>, s': State)
    requires Inv(s, c) && s.tail in s.next && !s.consumer.StubLink?
    requires s' == s.(tail := s.next[s.tail], consumer := s'.consumer, popped := s'.popped)
    requires s'.consumer == Idle || (s'.consumer == ReadSecond(s'.tail) && s.tail == STUB)
    requires s'.popped == s.popped + (if s.tail == STUB then [] else [s.tail])
    ensures |c| > 1 && c[1] == s'.tail
    ensures Inv(s', c[1..])
  {
    assert c[0] == s.tail && Linked(s, c[0], c[1]);
    var c' := c[1..];
    assert s'.popped + Users(c') == s.popped + Users(c);
    forall i | 0 <= i < |c'| - 1 ensures Linked(s', c'[i], c'[i + 1]) {
      assert Linked(s, c[i + 1], c[i + 2]);
      if exists p :: p in s.producers && s.producers[p] == Link(c[i + 2], c[i + 1]) {
        var p :| p in s.producers && s.producers[p] == Link(c[i + 2], c[i + 1]);
        assert p in s'.producers && s'.producers[p] == Link(c[i + 2], c[i + 1]);
      }
    }
    forall q | q in s'.producers ensures ProducerOk(s', c', s'.producers[q]) {
      var pr := s.producers[q];
      assert ProducerOk(s, c, pr);
      if pr.Link? {
        var i :| 0 <= i < |c| - 1 && c[i] == pr.prev && c[i + 1] == pr.n;
        assert c'[i - 1] == pr.prev && c'[i] == pr.n;
      }
    }
  }

  lemma StubClearKeeps(s: State, c: seq<Node>)
    requires Inv(s, c) && s.consumer.StubClear?
    ensures Inv(ConsumerStep(s), c)
  {
    var s' := ConsumerStep(s);
    forall i | 0 <= i < |c| - 1 ensures Linked(s', c[i], c[i + 1]) {
      assert Linked(s, c[i], c[i + 1]) && c[i] in c;
      if exists p :: p in s.producers && s.producers[p] == Link(c[i + 1], c[i]) {
        var p :| p in s.producers && s.producers[p] == Link(c[i + 1], c[i]);
        assert p in s'.producers && s'.producers[p] == Link(c[i + 1], c[i]);
      }
    }
    forall q | q in s'.producers ensures ProducerOk(s', c, s'.producers[q]) {
      assert ProducerOk(s, c, s.producers[q]);
    }
  }

  lemma StubExchangeKeeps(s: State, c: seq<Node>)
    requires Inv(s, c) && s.consumer.StubCas? && s.head == s.consumer.cur
    ensures Inv(ConsumerStep(s), c + [STUB])
  {
    var s', c' := ConsumerStep(s), c + [STUB];
    UsersAppend(c, STUB);
    assert c'[|c| - 1] == s.head && c'[|c|] == STUB;
    assert Adjacent(c', s.head, STUB);
    forall i | 0 <= i < |c'| - 1 ensures Linked(s', c'[i], c'[i + 1]) {
      if i < |c| - 1 {
        assert Linked(s, c[i], c[i + 1]);
        if exists p :: p in s.producers && s.producers[p] == Link(c[i + 1], c[i]) {
          var p :| p in s.producers && s.producers[p] == Link(c[i + 1], c[i]);
          assert p in s'.producers && s'.producers[p] == Link(c[i + 1], c[i]);
        }
      } else {
        assert Pending(s', s.head, STUB);
      }
    }
    forall q | q in s'.producers ensures ProducerOk(s', c', s'.producers[q]) {
      assert ProducerOk(s, c, s.producers[q]);
      if s.producers[q].Link? {
        AdjacentAppend(c, STUB, s.producers[q].prev, s.producers[q].n);
      }
    }
  }

  lemma StubLinkKeeps(s: State, c: seq<Node>)
    requires Inv(s, c) && s.consumer.StubLink?
    ensures Inv(ConsumerStep(s), c)
  {
    var prev := s.consumer.prev;
    var s' := ConsumerStep(s);
    assert prev != s.head by {
      var i :| 0 <= i < |c| - 1 && c[i] == prev && c[i + 1] == STUB;
    }
    forall i | 0 <= i < |c| - 1 ensures Linked(s', c[i], c[i + 1]) {
      assert Linked(s, c[i], c[i + 1]) && Adjacent(c, c[i], c[i + 1]);
      AdjacentUnique(c, prev, STUB, c[i], c[i + 1]);
      if exists p :: p in s.producers && s.producers[p] == Link(c[i + 1], c[i]) {
        var p :| p in s.producers && s.producers[p] == Link(c[i + 1], c[i]);
        assert p in s'.producers && s'.producers[p] == Link(c[i + 1], c[i]);
      }
    }
    forall q | q in s'.producers ensures ProducerOk(s', c, s'.producers[q]) {
      assert ProducerOk(s, c, s.producers[q]);
      if s.producers[q].Link? {
        AdjacentUnique(c, prev, STUB, s.producers[q].prev, s.producers[q].n);
      } else {
        assert prev in c && prev != s.producers[q].n;
      }
    }
  }

  lemma PopStepKeeps(s: State, c: seq<Node>)
    requires Inv(s, c) && s.consumer != Idle
    ensures Inv(ConsumerStep(s), NextChain(s, c, PopStep))
  {
    match s.consumer
    case SkipStub(nx) => AdvanceKeeps(s, c, ConsumerStep(s));
    case Take(t, nx) => AdvanceKeeps(s, c, ConsumerStep(s));
    case StubClear(t) => StubClearKeeps(s, c);
    case StubCas(t, cur) =>
      if s.head == cur {
        StubExchangeKeeps(s, c);
      } else {
        QuietConsumerKeeps(s, c, StubLoad(t));
      }
    case StubLink(t, prev) => StubLinkKeeps(s, c);
    case ReadHead(t) =>
      assert t == s.head ==> |c| == 1 && STUB !in c;
      QuietConsumerKeeps(s, c, ConsumerStep(s).consumer);
    case ReadNext(t) => QuietConsumerKeeps(s, c, ConsumerStep(s).consumer);
    case ReadSecond(t) => QuietConsumerKeeps(s, c, ConsumerStep(s).consumer);
    case StubLoad(t) => QuietConsumerKeeps(s, c, ConsumerStep(s).consumer);
    case Recheck(t) => QuietConsumerKeeps(s, c, ConsumerStep(s).consumer);
    case Idle =>
  }

  lemma StepKeeps(s: State, c: seq<Node>, a: Action)
    requires Inv(s, c) && Enabled(s, a)
    ensures Inv(Apply(s, a), NextChain(s, c, a))
  {
    match a
    case StartPush(p, n) => StartPushKeeps(s, c, p, n);
    case StartPop => QuietConsumerKeeps(s, c, ReadNext(s.tail));
    case PopStep => PopStepKeeps(s, c);
    case PushStep(p) =>
      match s.producers[p] {
        case Clear(_) => ClearKeeps(s, c, p);
        case Load(_) => LoadKeeps(s, c, p);
        case Cas(_, cur) => if s.head == cur { ExchangeKeeps(s, c, p); } else { LoadKeeps(s, c, p); }
        case Link(_, _) => LinkKeeps(s, c, p);
      }
  }

  // ------------------------------------------------------------- whole runs

  /** run[i] steps to run[i + 1] by acts[i]; the run starts in an initial state. */
  ghost predicate IsRun(run: seq<State>, acts: seq<Action>) {
    && |run| == |acts| + 1 && Init(run[0])
    && forall i :: 0 <= i < |acts| ==>
                     Enabled(run[i], acts[i]) && run[i + 1] == Apply(run[i], acts[i])
  }

  /** The chain after k steps, computed from the run. */
  ghost function ChainAt(run: seq<State>, acts: seq<Action>, k: nat): seq<Node>
    requires k <= |acts| && |run| == |acts| + 1
  {
    if k == 0 then [STUB] else NextChain(run[k - 1], ChainAt(run, acts, k - 1), acts[k - 1])
  }

  lemma {:induction false} RunKeeps(run: seq<State>, acts: seq<Action>, k: nat)
    requires IsRun(run, acts) && k <= |acts|
    ensures Inv(run[k], ChainAt(run, acts, k))
  {
    if k == 0 {
      assert [STUB][1..] == [];
    } else {
      RunKeeps(run, acts, k - 1);
      StepKeeps(run[k - 1], ChainAt(run, acts, k - 1), acts[k - 1]);
    }
  }

  /**
   Nothing is lost, duplicated or reordered: in every state of every
   interleaving there is exactly one chain from tail to head, and the nodes
   popped so far followed by its user nodes are the nodes in exchange order.
   */
  lemma FifoInEveryInterleaving(run: seq<State>, acts: seq<Action>, k: nat)
    requires IsRun(run, acts) && k <= |acts|
    ensures exists c :: IsChain(run[k], c) && run[k].popped + Users(c) == run[k].pushed
    ensures forall c, d :: IsChain(run[k], c) && IsChain(run[k], d) ==> c == d
    ensures forall c :: IsChain(run[k], c) ==> run[k].popped + Users(c) == run[k].pushed
  {
    var c := ChainAt(run, acts, k);
    RunKeeps(run, acts, k);
    forall d | IsChain(run[k], d) ensures d == c {
      ChainUnique(run[k], c, d);
    }
  }

  /** Memory and the pending links determine the chain. */
  lemma ChainUnique(s: State, c: seq<Node>, d: seq<Node>)
    requires Inv(s, c) && IsChain(s, d)
    ensures c == d
  {
    var m := if |c| < |d| then |c| else |d|;
    ChainPrefix(s, c, d, m);
    assert c[m - 1] == c[..m][m - 1] == d[..m][m - 1] == d[m - 1];
  }

  lemma {:induction false} ChainPrefix(s: State, c: seq<Node>, d: seq<Node>, m: nat)
    requires Inv(s, c) && IsChain(s, d) && m <= |c| && m <= |d|
    ensures c[..m] == d[..m]
  {
    if m > 0 {
      ChainPrefix(s, c, d, m - 1);
      if m > 1 {
        assert c[m - 2] == c[..m - 1][m - 2] == d[..m - 1][m - 2] == d[m - 2];
        SuccessorUnique(s, c, c[m - 2], c[m - 1], d[m - 1]);
      }
      assert c[..m] == c[..m - 1] + [c[m - 1]];
      assert d[..m] == d[..m - 1] + [d[m - 1]];
    }
  }

  lemma SuccessorUnique(s: State, c: seq<Node>, a: Node, b: Node, b': Node)
    requires Inv(s, c) && Linked(s, a, b) && Linked(s, a, b')
    ensures b == b'
  {
    if a !in s.next {
      PendingAdjacent(s, c, a, b);
      PendingAdjacent(s, c, a, b');
      AdjacentUnique(c, a, b, a, b');
    }
  }

  lemma PendingAdjacent(s: State, c: seq<Node>, a: Node, b: Node)
    requires Inv(s, c) && Pending(s, a, b)
    ensures Adjacent(c, a, b)
  {
    if p :| p in s.producers && s.producers[p] == Link(b, a) {
      assert ProducerOk(s, c, s.producers[p]);
    }
  }

  // ------------------------------------------------- what a pop may rely on

  /**
   The node a pop returns is out of the queue at once: it is neither head nor
   tail nor on the chain, no producer holds it as the node it pushes or as the
   prev it will write to, so any idle producer may push it again immediately.
   */
  lemma ReturnedNodeIsFree(run: seq<State>, acts: seq<Action>, k: nat)
    requires IsRun(run, acts) && k < |acts|
    requires acts[k] == PopStep && run[k].consumer.Take?
    ensures var t, s' := run[k].consumer.t, run[k + 1];
            && s'.popped == run[k].popped + [t] && t != STUB
            && t != s'.head && t != s'.tail
            && (forall c :: IsChain(s', c) ==> t !in c)
            && (forall p :: p in s'.producers ==>
                              s'.producers[p].n != t && !(s'.producers[p].Link? && s'.producers[p].prev == t))
            && (forall p :: p !in s'.producers ==> Enabled(s', StartPush(p, t)))
  {
    var s, s', c := run[k], run[k + 1], ChainAt(run, acts, k);
    var t := s.consumer.t;
    RunKeeps(run, acts, k);
    RunKeeps(run, acts, k + 1);
    assert ChainAt(run, acts, k + 1) == c[1..] && t == c[0];
    forall d | IsChain(s', d) ensures t !in d {
      ChainUnique(s', c[1..], d);
    }
    forall p | p in s'.producers
      ensures s'.producers[p].n != t && !(s'.producers[p].Link? && s'.producers[p].prev == t)
    {
      assert ProducerOk(s, c, s.producers[p]) && ProducerOk(s', c[1..], s'.producers[p]);
    }
    UsersMember(c[1..], t);
    assert InFlight(s') == Users(c[1..]) by { assert s'.pushed == s'.popped + Users(c[1..]); }
  }

  /** When the consumer clears the stub's link, the stub is off the chain and nobody owes a write to it. */
  lemma StubReuseIsSafe(run: seq<State>, acts: seq<Action>, k: nat)
    requires IsRun(run, acts) && k <= |acts| && run[k].consumer.StubClear?
    ensures forall c :: IsChain(run[k], c) ==> STUB !in c
    ensures forall b :: !Pending(run[k], STUB, b)
    ensures run[k].head != STUB && run[k].tail != STUB
  {
    var c := ChainAt(run, acts, k);
    RunKeeps(run, acts, k);
    forall d | IsChain(run[k], d) ensures STUB !in d {
      ChainUnique(run[k], c, d);
    }
    forall b | Pending(run[k], STUB, b) ensures false {
      PendingAdjacent(run[k], c, STUB, b);
    }
  }

  /** Some producer is between its exchange and its link. */
  ghost predicate Window(s: State) {
    exists p :: p in s.producers && s.producers[p].Link?
  }

  ghost predicate WindowSeen(run: seq<State>, i: nat, j: nat)
    requires j < |run|
  {
    exists k :: i < k <= j && Window(run[k])
  }

  /** What a pop that has seen no open window knows about the chain. */
  ghost predicate PopKnows(s: State, c: seq<Node>) {
    match s.consumer
    case ReadHead(_) => |c| == 1
    case StubClear(_) => |c| == 1
    case StubLoad(_) => |c| == 1
    case StubCas(_, _) => |c| == 1
    case StubLink(t, prev) => |c| == 2 && prev == t
    case Recheck(t) => t in s.next
    case _ => true
  }

  /** The pop that starts at step i is still running in run[i + 1] .. run[j]. */
  ghost predicate DuringPop(run: seq<State>, acts: seq<Action>, i: nat, j: nat) {
    && IsRun(run, acts) && i < j <= |acts| && acts[i] == StartPop
    && forall k :: i < k <= j ==> run[k].consumer != Idle
  }

  lemma LoneNodeWithoutWindow(s: State, c: seq<Node>)
    requires Inv(s, c) && !Window(s) && !s.consumer.StubLink? && s.tail !in s.next
    ensures |c| == 1
  {
    assert |c| > 1 ==> Linked(s, c[0], c[1]);
  }

  lemma PopKnowsStep(s: State, c: seq<Node>, a: Action)
    requires Inv(s, c) && Enabled(s, a) && s.consumer != Idle
    requires Inv(Apply(s, a), NextChain(s, c, a))
    requires PopKnows(s, c) && !Window(s) && !Window(Apply(s, a))
    ensures PopKnows(Apply(s, a), NextChain(s, c, a))
  {
    var s' := Apply(s, a);
    match a
    case StartPush(p, n) =>
    case StartPop =>
    case PushStep(p) =>
      assert p in s'.producers ==> !s'.producers[p].Link?;
    case PopStep =>
      if (s.consumer.ReadNext? || s.consumer.ReadSecond?) && s.consumer.t !in s.next {
        LoneNodeWithoutWindow(s, c);
      }
  }

  lemma {:induction false} PopKnowsAlways(run: seq<State>, acts: seq<Action>, i: nat, j: nat)
    requires DuringPop(run, acts, i, j)
    ensures WindowSeen(run, i, j) || PopKnows(run[j], ChainAt(run, acts, j))
  {
    if j > i + 1 {
      PopKnowsAlways(run, acts, i, j - 1);
      RunKeeps(run, acts, j - 1);
      RunKeeps(run, acts, j);
      if !WindowSeen(run, i, j) {
        assert !Window(run[j - 1]) && !Window(run[j]);
        PopKnowsStep(run[j - 1], ChainAt(run, acts, j - 1), acts[j - 1]);
      }
    }
  }

  /**
   A pop that returns NULL found the queue empty at its first read of next, or
   some producer was between exchange and link at a moment during that pop.
   */
  lemma NullPopExplained(run: seq<State>, acts: seq<Action>, i: nat, j: nat)
    requires DuringPop(run, acts, i, j) && j < |acts| && acts[j] == PopStep
    requires run[j + 1].consumer == Idle && run[j + 1].popped == run[j].popped
    ensures || WindowSeen(run, i, j)
            || (run[j].consumer.ReadNext? && run[j].pushed == run[j].popped)
  {
    PopKnowsAlways(run, acts, i, j);
    RunKeeps(run, acts, j);
    var s, c := run[j], ChainAt(run, acts, j);
    if !WindowSeen(run, i, j) {
      assert !Window(s);
      if s.consumer.ReadNext? {
        LoneNodeWithoutWindow(s, c);
        assert c == [STUB] && Users(c) == Users(c[1..]) == [];
      }
    }
  }

  // ---------------------------------------------- pushes and pops that keep stepping

  /** The step exchanges head: a compare-and-swap that finds the value it loaded. */
  predicate Exchanges(s: State, a: Action) {
    match a
    case PushStep(p) => p in s.producers && s.producers[p].Cas? && s.head == s.producers[p].cur
    case PopStep => s.consumer.StubCas? && s.head == s.consumer.cur
    case _ => false
  }

  /** How often `mine` is taken between run[i] and run[j]. */
  ghost function StepsOf(acts: seq<Action>, mine: Action, i: nat, j: nat): nat
    requires i <= j <= |acts|
  {
    if i == j then 0 else StepsOf(acts, mine, i, j - 1) + (if acts[j - 1] == mine then 1 else 0)
  }

  /** How often another step than `mine` exchanges head in that time. */
  ghost function ExchangesOfOthers(run: seq<State>, acts: seq<Action>, mine: Action, i: nat, j: nat): nat
    requires i <= j <= |acts| < |run|
  {
    if i == j then 0
    else ExchangesOfOthers(run, acts, mine, i, j - 1)
         + (if acts[j - 1] != mine && Exchanges(run[j - 1], acts[j - 1]) then 1 else 0)
  }

  /** The steps a pop has still to make if head is not exchanged; a stale compare-and-swap costs a new load. */
  function PopSteps(s: State): nat {
    match s.consumer
    case Idle => 0
    case ReadNext(_) => 10
    case SkipStub(_) => 9
    case ReadSecond(_) => 8
    case ReadHead(_) => 7
    case StubClear(_) => 6
    case StubLoad(_) => 5
    case StubCas(_, cur) => if s.head == cur then 4 else 6
    case StubLink(_, _) => 3
    case Recheck(_) => 2
    case Take(_, _) => 1
  }

  function PushSteps(s: State, p: Pid): nat {
    if p !in s.producers then 0
    else
      match s.producers[p]
      case Clear(_) => 4
      case Load(_) => 3
      case Cas(_, cur) => if s.head == cur then 2 else 4
      case Link(_, _) => 1
  }

  /** A step of the pop uses up one; an exchange by a producer adds at most two; no other step adds any. */
  lemma PopStepsStep(s: State, a: Action)
    requires Enabled(s, a) && !a.StartPop?
    ensures PopSteps(Apply(s, a)) + (if a == PopStep then 1 else 0)
            <= PopSteps(s) + (if a != PopStep && Exchanges(s, a) then 2 else 0)
  {
  }

  lemma PushStepsStep(s: State, a: Action, p: Pid)
    requires Enabled(s, a) && !(a.StartPush? && a.p == p)
    ensures PushSteps(Apply(s, a), p) + (if a == PushStep(p) then 1 else 0)
            <= PushSteps(s, p) + (if a != PushStep(p) && Exchanges(s, a) then 2 else 0)
  {
  }

  /**
   A pop that starts at step i ends: by step j, if it is not over before, it has made
   at most 10 steps and 2 more for each exchange of a producer in between.
   */
  lemma {:induction false} PopEnds(run: seq<State>, acts: seq<Action>, i: nat, j: nat)
    requires IsRun(run, acts) && i < j <= |acts| && acts[i] == StartPop
    requires forall k :: i < k < j ==> run[k].consumer != Idle
    ensures PopSteps(run[j]) + StepsOf(acts, PopStep, i + 1, j)
            <= 10 + 2 * ExchangesOfOthers(run, acts, PopStep, i + 1, j)
  {
    if j > i + 1 {
      PopEnds(run, acts, i, j - 1);
      PopStepsStep(run[j - 1], acts[j - 1]);
    }
  }

  /** Every exchange by a producer during a pop is a node pushed. */
  lemma {:induction false} OthersExchangesArePushes(run: seq<State>, acts: seq<Action>, i: nat, j: nat)
    requires IsRun(run, acts) && i <= j <= |acts|
    ensures ExchangesOfOthers(run, acts, PopStep, i, j) == |run[j].pushed| - |run[i].pushed|
  {
    if i < j {
      OthersExchangesArePushes(run, acts, i, j - 1);
      ExchangeIsPush(run[j - 1], acts[j - 1]);
    }
  }

  lemma ExchangeIsPush(s: State, a: Action)
    requires Enabled(s, a)
    ensures |Apply(s, a).pushed| == |s.pushed| + (if a != PopStep && Exchanges(s, a) then 1 else 0)
  {
  }

  /** So a pop makes at most 10 steps and 2 more for each node pushed meanwhile, and can always make the next one. */
  lemma PopIsBounded(run: seq<State>, acts: seq<Action>, i: nat, j: nat)
    requires IsRun(run, acts) && i < j <= |acts| && acts[i] == StartPop
    requires forall k :: i < k < j ==> run[k].consumer != Idle
    ensures StepsOf(acts, PopStep, i + 1, j) <= 10 + 2 * (|run[j].pushed| - |run[i].pushed|)
    ensures run[j].consumer != Idle ==> Enabled(run[j], PopStep)
  {
    PopEnds(run, acts, i, j);
    OthersExchangesArePushes(run, acts, i + 1, j);
  }

  /** A push that starts at step i makes at most 4 steps and 2 more for each exchange of another thread. */
  lemma {:induction false} PushIsBounded(run: seq<State>, acts: seq<Action>, p: Pid, i: nat, j: nat)
    requires IsRun(run, acts) && i < j <= |acts| && acts[i].StartPush? && acts[i].p == p
    requires forall k :: i < k < j ==> p in run[k].producers
    ensures PushSteps(run[j], p) + StepsOf(acts, PushStep(p), i + 1, j)
            <= 4 + 2 * ExchangesOfOthers(run, acts, PushStep(p), i + 1, j)
    ensures p in run[j].producers ==> Enabled(run[j], PushStep(p))
  {
    if j > i + 1 {
      PushIsBounded(run, acts, p, i, j - 1);
      PushStepsStep(run[j - 1], acts[j - 1], p);
    }
  }

  /** How often the compare-and-swap of p's push fails between run[i] and run[j]. */
  ghost function Failures(run: seq<State>, acts: seq<Action>, p: Pid, i: nat, j: nat): nat
    requires i <= j <= |acts| < |run|
  {
    if i == j then 0
    else Failures(run, acts, p, i, j - 1) + (if acts[j - 1] == PushStep(p) && Fails(run[j - 1], p) then 1 else 0)
  }

  predicate Fails(s: State, p: Pid) {
    p in s.producers && s.producers[p].Cas? && s.head != s.producers[p].cur
  }

  /** The steps a push takes if no compare-and-swap fails. */
  function StraightSteps(s: State, p: Pid): nat {
    if p !in s.producers then 0
    else
      match s.producers[p]
      case Clear(_) => 4
      case Load(_) => 3
      case Cas(_, _) => 2
      case Link(_, _) => 1
  }

  /** A push that is over has taken exactly 4 steps and a load and a compare-and-swap more for each failure. */
  lemma {:induction false} PushTakesExactly(run: seq<State>, acts: seq<Action>, p: Pid, i: nat, j: nat)
    requires IsRun(run, acts) && i < j <= |acts| && acts[i].StartPush? && acts[i].p == p
    requires forall k :: i < k < j ==> p in run[k].producers
    ensures StraightSteps(run[j], p) + StepsOf(acts, PushStep(p), i + 1, j) == 4 + 2 * Failures(run, acts, p, i + 1, j)
  {
    if j > i + 1 {
      PushTakesExactly(run, acts, p, i, j - 1);
      StraightStep(run[j - 1], acts[j - 1], p);
    }
  }

  lemma StraightStep(s: State, a: Action, p: Pid)
    requires Enabled(s, a) && p in s.producers
    ensures StraightSteps(Apply(s, a), p) + (if a == PushStep(p) then 1 else 0)
            == StraightSteps(s, p) + (if a == PushStep(p) && Fails(s, p) then 2 else 0)
  {
  }

  // --------------------------------------------- the queue used by one thread

  /** No push or pop is under way. */
  ghost predicate Quiet(s: State) {
    s.producers == map[] && s.consumer == Idle
  }

  lemma ContentsOfChain(s: State, c: seq<Node>)
    requires Inv(s, c)
    ensures InFlight(s) == Users(c)
  {
    assert s.pushed == s.popped + Users(c);
  }

  lemma PushAlone(s: State, c: seq<Node>, n: Node)
    requires Inv(s, c) && Quiet(s) && n != STUB && n !in InFlight(s)
    ensures Inv(s.(head := n, next := (s.next - {n})[s.head := n], pushed := s.pushed + [n]), c + [n])
  {
    StepKeeps(s, c, StartPush(0, n));
    var s1 := Apply(s, StartPush(0, n));
    StepKeeps(s1, c, PushStep(0));
    var s2 := Apply(s1, PushStep(0));
    StepKeeps(s2, c, PushStep(0));
    var s3 := Apply(s2, PushStep(0));
    StepKeeps(s3, c, PushStep(0));
    var s4 := Apply(s3, PushStep(0));
    StepKeeps(s4, c + [n], PushStep(0));
    assert Apply(s4, PushStep(0)).producers == map[];
  }

  lemma SkipAlone(s: State, c: seq<Node>)
    requires Inv(s, c) && Quiet(s) && s.tail == STUB && STUB in s.next
    ensures |c| > 1 && Inv(s.(tail := s.next[STUB], consumer := ReadSecond(s.next[STUB])), c[1..])
    ensures Users(c[1..]) == Users(c) && s.next[STUB] != STUB
  {
    QuietConsumerKeeps(s, c, ReadNext(STUB));
    QuietConsumerKeeps(s.(consumer := ReadNext(STUB)), c, SkipStub(s.next[STUB]));
    var s1, nx := s.(consumer := SkipStub(s.next[STUB])), s.next[STUB];
    AdvanceKeeps(s1, c, s1.(tail := nx, consumer := ReadSecond(nx)));
    assert s1.(tail := nx, consumer := ReadSecond(nx)) == s.(tail := nx, consumer := ReadSecond(nx));
  }

  lemma ReachStubClear(s: State, c: seq<Node>)
    requires Inv(s, c) && s.producers == map[] && s.tail != STUB && s.tail !in s.next
    requires s.consumer == ReadNext(s.tail) || s.consumer == ReadSecond(s.tail)
    ensures c == [s.tail] && Inv(s.(consumer := StubClear(s.tail)), c)
  {
    LoneNodeWithoutWindow(s, c);
    QuietConsumerKeeps(s, c, StubClear(s.tail));
  }

  lemma TakeAlone(s: State, c: seq<Node>)
    requires Inv(s, c) && s.producers == map[] && s.tail != STUB && (s.tail in s.next || |c| > 1)
    requires s.consumer in {ReadNext(s.tail), ReadSecond(s.tail), Recheck(s.tail)}
    ensures s.tail in s.next && |c| > 1 && Users(c) == [s.tail] + Users(c[1..])
    ensures Inv(s.(tail := s.next[s.tail], consumer := Idle, popped := s.popped + [s.tail]), c[1..])
  {
    assert |c| > 1 ==> Linked(s, c[0], c[1]);
    AdvanceKeeps(s, c, s.(tail := s.next[s.tail], consumer := Idle, popped := s.popped + [s.tail]));
  }

  /** `struct mpscq` with the code of push and pop run without interference. */
  class Queue {
    var head: Node
    var tail: Node
    var next: map<Node, Node>
    ghost var pushed: seq<Node>
    ghost var popped: seq<Node>

    ghost function View(): State
      reads this
    {
      State(head, tail, next, map[], Idle, pushed, popped)
    }

    ghost predicate Valid()
      reads this
    {
      exists c :: Inv(View(), c)
    }

    ghost function Contents(): seq<Node>
      reads this
    {
      InFlight(View())
    }

    /** `mpscq_create`: memory holds the links of all other nodes, whatever they are. */
    constructor (memory: map<Node, Node>)
      ensures Valid() && Init(View()) && Contents() == []
      ensures next == memory - {STUB}
    {
      head, tail := STUB, STUB;
      next := memory - {STUB};
      pushed, popped := [], [];
      new;
      assert Users([STUB]) == Users([STUB][1..]) == [];
      assert Inv(View(), [STUB]);
    }

    /** `atm_full_xchg` on head: load, compare-and-swap, retry. */
    method Exchange(n: Node) returns (cur: Node)
      modifies this`head
      ensures cur == old(head) && head == n
    {
      cur := head;
      var swapped := false;
      while !swapped
        invariant if swapped then cur == old(head) && head == n else head == old(head)
        decreases !swapped
      {
        cur := head;
        if head == cur {
          head := n;
          swapped := true;
        }
      }
    }

    /** Push run alone appends. */
    method Push(n: Node)
      requires Valid() && n != STUB && n !in Contents()
      modifies this
      ensures Valid() && Contents() == old(Contents()) + [n]
      ensures pushed == old(pushed) + [n] && popped == old(popped)
    {
      ghost var c :| Inv(View(), c);
      PushAlone(View(), c, n);
      ContentsOfChain(View(), c);
      next := next - {n};
      var prev := Exchange(n);
      next := next[prev := n];
      pushed := pushed + [n];
      ContentsOfChain(View(), c + [n]);
      UsersAppend(c, n);
    }

    /** The stub is pushed like any node, but is no user node. */
    method PushStub(ghost s: State, ghost c: seq<Node>)
      requires Inv(s, c) && s == View().(consumer := StubClear(tail))
      modifies this`head, this`next
      ensures Inv(View().(consumer := Recheck(tail)), c + [STUB])
    {
      StepKeeps(s, c, PopStep);
      ghost var s1 := Apply(s, PopStep);
      StepKeeps(s1, c, PopStep);
      ghost var s2 := Apply(s1, PopStep);
      StepKeeps(s2, c, PopStep);
      ghost var s3 := Apply(s2, PopStep);
      StepKeeps(s3, c + [STUB], PopStep);
      next := next - {STUB};
      var prev := Exchange(STUB);
      next := next[prev := STUB];
    }

    /** The part of pop after a possible stub at the tail has been skipped. */
    method PopUser(ghost at: Consumer, ghost c: seq<Node>) returns (r: Option<Node>)
      requires at == ReadNext(tail) || at == ReadSecond(tail)
      requires Inv(View().(consumer := at), c) && tail != STUB
      modifies this
      ensures Valid() && pushed == old(pushed)
      ensures r.Some? && old(Contents()) == [r.value] + Contents() && popped == old(popped) + [r.value]
    {
      var t := tail;
      ghost var s, d := View().(consumer := at), c;
      ContentsOfChain(s, c);
      if t !in next {
        ReachStubClear(s, c);
        PushStub(s.(consumer := StubClear(t)), c);
        s, d := View().(consumer := Recheck(t)), c + [STUB];
        UsersAppend(c, STUB);
      }
      TakeAlone(s, d);
      tail := next[t];
      popped := popped + [t];
      r := Some(t);
      ContentsOfChain(View(), d[1..]);
    }

    /** Pop run alone is a FIFO dequeue, and returns NULL exactly on the empty queue. */
    method Pop() returns (r: Option<Node>)
      requires Valid()
      modifies this
      ensures Valid() && pushed == old(pushed)
      ensures r.None? <==> old(Contents()) == []
      ensures r.None? ==> Contents() == [] && popped == old(popped)
      ensures r.Some? ==> old(Contents()) == [r.value] + Contents() && popped == old(popped) + [r.value]
    {
      ghost var c :| Inv(View(), c);
      ContentsOfChain(View(), c);
      if tail == STUB {
        if tail !in next {
          LoneNodeWithoutWindow(View(), c);
          assert Users(c) == Users(c[1..]) == [];
          return None;
        }
        SkipAlone(View(), c);
        tail := next[tail];
        r := PopUser(ReadSecond(tail), c[1..]);
      } else {
        QuietConsumerKeeps(View(), c, ReadNext(tail));
        r := PopUser(ReadNext(tail), c);
      }
    }
  }
}
