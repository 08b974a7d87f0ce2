/**
 Timers (src/coroutine/co_time.c) and the queues of the coroutine scheduler
 (src/coroutine/sched/core.c) for create, yield, sleep and finish.
 */
module CoTime {
  import opened BinaryHeap

  type Co = nat

  /** A timer fires at `when` (ms) and resumes the coroutine co. */
  datatype Timer = Timer(when: int, co: Co)

  const TWO_31: int := 0x8000_0000
  const TWO_32: int := 0x1_0000_0000

  /** Conversion of a long to int: the low 32 bits, read as two's complement. */
  function ToInt(x: int): int {
    (x + TWO_31) % TWO_32 - TWO_31
  }

  /** It is the int that agrees in its low 32 bits. */
  lemma ToIntIs(x: int)
    ensures -0x8000_0000 <= ToInt(x) < 0x8000_0000 && exists k :: ToInt(x) == x + k * 0x1_0000_0000
  {
    var q := (x + TWO_31) / TWO_32;
    assert ToInt(x) == x + (-q) * 0x1_0000_0000;
  }

  /** `co_timer_cmp` returns a long difference as int. */
  function Compare(a: Timer, b: Timer): int {
    ToInt(a.when - b.when)
  }

  /** The comparison is the difference of deadlines, both ways round, exactly while they are less than 2^31 ms apart. */
  lemma CompareExactIff(a: Timer, b: Timer)
    ensures (Compare(a, b) == a.when - b.when && Compare(b, a) == b.when - a.when)
            <==> -TWO_31 < a.when - b.when < TWO_31
  {
    ToIntIdentity(a.when - b.when);
    ToIntIdentity(b.when - a.when);
  }

  lemma ToIntIdentity(x: int)
    ensures ToInt(x) == x <==> -TWO_31 <= x < TWO_31
  {
  }

  /** Two timers far enough apart are each before the other: the comparison is then no order. */
  lemma FarTimersBreakOrder(c: Co, d: Co)
    ensures Compare(Timer(TWO_31, c), Timer(0, d)) < 0 && Compare(Timer(0, d), Timer(TWO_31, c)) < 0
    ensures !PreorderOn(Compare, multiset{Timer(TWO_31, c), Timer(0, d)})
  {
    var m := multiset{Timer(TWO_31, c), Timer(0, d)};
    var a, b := Timer(TWO_31, c), Timer(0, d);
    assert a in m && b in m && Triple(a, b, a);
    assert Compare(Timer(TWO_31, c), Timer(0, d)) == -TWO_31;
  }

  /** All deadlines are less than 2^31 ms apart. */
  ghost predicate Near(m: multiset<Timer>) {
    forall a, b :: a in m && b in m ==> a.when - b.when < TWO_31
  }

  /** cmp orders timers by deadline as long as the deadlines are close. */
  ghost predicate IsTimerOrder(cmp: (Timer, Timer) -> int) {
    forall a: Timer, b: Timer {:trigger cmp(a, b)} :: -TWO_31 < a.when - b.when < TWO_31 ==> cmp(a, b) == a.when - b.when
  }

  lemma CompareIsTimerOrder()
    ensures IsTimerOrder(Compare)
  {
    forall a: Timer, b: Timer | -TWO_31 < a.when - b.when < TWO_31 ensures Compare(a, b) == a.when - b.when {
      CompareExactIff(a, b);
    }
  }

  lemma NearIsOrdered(cmp: (Timer, Timer) -> int, m: multiset<Timer>)
    requires IsTimerOrder(cmp) && Near(m)
    ensures PreorderOn(cmp, m)
    ensures forall a, b {:trigger cmp(a, b)} :: a in m && b in m ==> cmp(a, b) == a.when - b.when
  {
  }
}

module CoSched {
  import opened Seqs
  import opened BinaryHeap
  import opened CoTime

  /** The scheduler; `unfinished` is the history of coroutines created and not yet finished. */
  datatype State = State(ready: seq<Co>, waiting: seq<Co>, running: Option<Co>, coNums: int,
                         timers: multiset<Timer>, unfinished: set<Co>)

  datatype Action =
    | Create(co: Co)
    | Pick
    | Yield
    | Sleep(now: int, ms: int)
    | Finish
    | Fire(t: Timer, now: int)

  const EMPTY := State([], [], None, 0, multiset{}, {})

  ghost predicate Earliest(m: multiset<Timer>, t: Timer) {
    t in m && forall u :: u in m ==> t.when <= u.when
  }

  ghost predicate Enabled(s: State, a: Action) {
    match a
    case Create(co) => co !in s.unfinished
    case Pick => s.running.None?
    case Yield => s.running.Some?
    case Sleep(now, ms) => s.running.Some?
    case Finish => s.running.Some?
    case Fire(t, now) => s.running.None? && t in s.timers && t.when <= now
  }

  function Resume(s: State, co: Co): State {
    s.(waiting := Without(s.waiting, co), ready := s.ready + [co])
  }

  function Apply(s: State, a: Action): State
    requires Enabled(s, a)
  {
    match a
    case Create(co) => s.(ready := s.ready + [co], coNums := s.coNums + 1, unfinished := s.unfinished + {co})
    case Pick => if s.ready == [] then s else s.(running := Some(s.ready[0]), ready := s.ready[1..])
    case Yield => s.(ready := s.ready + [s.running.value], running := None)
    case Sleep(now, ms) =>
      s.(timers := s.timers + multiset{Timer(now + ms, s.running.value)},
         waiting := s.waiting + [s.running.value], running := None)
    case Finish => s.(coNums := s.coNums - 1, unfinished := s.unfinished - {s.running.value}, running := None)
    case Fire(t, now) => Resume(s.(timers := s.timers - multiset{t}), t.co)
  }

  /** Each waiting coroutine has exactly one pending timer, and there is no other timer. */
  ghost predicate OneTimerEach(m: multiset<Timer>, q: seq<Co>) {
    && (forall t :: t in m ==> m[t] == 1 && t.co in q)
    && (forall t, u :: t in m && u in m && t.co == u.co ==> t == u)
    && (forall co :: co in q ==> exists t :: t in m && t.co == co)
  }

  /** Ready, waiting and running partition the unfinished coroutines, and co_nums counts them. */
  ghost predicate Partition(s: State) {
    && NoDup(s.ready) && NoDup(s.waiting)
    && (forall co :: co in s.ready ==> co !in s.waiting && s.running != Some(co))
    && (forall co :: co in s.waiting ==> s.running != Some(co))
    && (forall co :: co in s.unfinished <==> co in s.ready || co in s.waiting || s.running == Some(co))
    && s.coNums == |s.unfinished|
    && s.coNums == |s.ready| + |s.waiting| + (if s.running.Some? then 1 else 0)
  }

  ghost predicate Inv(s: State) {
    Partition(s) && OneTimerEach(s.timers, s.waiting)
  }

  lemma AddTimer(m: multiset<Timer>, q: seq<Co>, t: Timer)
    requires OneTimerEach(m, q) && t.co !in q
    ensures OneTimerEach(m + multiset{t}, q + [t.co])
  {
    var m' := m + multiset{t};
    assert t !in m && t in m';
    forall c | c in q + [t.co] ensures exists u :: u in m' && u.co == c {
      if c != t.co {
        var u :| u in m && u.co == c;
        assert u in m';
      }
    }
  }

  lemma SuspendKeeps(s: State)
    requires Partition(s) && s.running.Some?
    ensures Partition(s.(waiting := s.waiting + [s.running.value], running := None))
  {
  }

  lemma SleepKeeps(s: State, now: int, ms: int)
    requires Inv(s) && Enabled(s, Sleep(now, ms))
    ensures Inv(Apply(s, Sleep(now, ms)))
  {
    AddTimer(s.timers, s.waiting, Timer(now + ms, s.running.value));
    SuspendKeeps(s);
  }

  lemma RemoveTimer(m: multiset<Timer>, q: seq<Co>, t: Timer)
    requires OneTimerEach(m, q) && NoDup(q) && t in m
    ensures OneTimerEach(m - multiset{t}, Without(q, t.co))
  {
    WithoutOne(q, t.co);
    var m' := m - multiset{t};
    assert m[t] == 1 && t !in m';
    forall c | c in Without(q, t.co) ensures exists u :: u in m' && u.co == c {
      var u :| u in m && u.co == c;
      assert u in m';
    }
  }

  lemma ResumeKeeps(s: State, co: Co)
    requires Partition(s) && s.running.None? && co in s.waiting
    ensures Partition(Resume(s, co))
  {
    WithoutOne(s.waiting, co);
  }

  lemma RemoveTimerKeeps(s: State, t: Timer)
    requires Inv(s) && s.running.None? && t in s.timers
    ensures Inv(Resume(s.(timers := s.timers - multiset{t}), t.co))
  {
    RemoveTimer(s.timers, s.waiting, t);
    ResumeKeeps(s.(timers := s.timers - multiset{t}), t.co);
  }

  lemma CreateKeeps(s: State, co: Co)
    requires Partition(s) && co !in s.unfinished
    ensures Partition(s.(ready := s.ready + [co], coNums := s.coNums + 1, unfinished := s.unfinished + {co}))
  {
  }

  lemma PickKeeps(s: State)
    requires Partition(s) && s.running.None? && s.ready != []
    ensures Partition(s.(running := Some(s.ready[0]), ready := s.ready[1..]))
  {
    assert s.ready == [s.ready[0]] + s.ready[1..];
  }

  lemma YieldKeeps(s: State)
    requires Partition(s) && s.running.Some?
    ensures Partition(s.(ready := s.ready + [s.running.value], running := None))
  {
  }

  lemma FinishKeeps(s: State)
    requires Partition(s) && s.running.Some?
    ensures Partition(s.(coNums := s.coNums - 1, unfinished := s.unfinished - {s.running.value}, running := None))
  {
  }

  lemma StepKeeps(s: State, a: Action)
    requires Inv(s) && Enabled(s, a)
    ensures Inv(Apply(s, a))
  {
    match a
    case Create(co) => CreateKeeps(s, co);
    case Pick =>
      if s.ready != [] {
        PickKeeps(s);
      }
    case Yield => YieldKeeps(s);
    case Sleep(now, ms) => SleepKeeps(s, now, ms);
    case Finish => FinishKeeps(s);
    case Fire(t, now) => RemoveTimerKeeps(s, t);
  }

  ghost predicate IsRun(run: seq<State>, acts: seq<Action>) {
    && |run| == |acts| + 1 && run[0] == EMPTY
    && forall i :: 0 <= i < |acts| ==>
                     Enabled(run[i], acts[i]) && run[i + 1] == Apply(run[i], acts[i])
  }

  /** Every state of every run: each unfinished coroutine is in exactly one place and each waiting one has its timer. */
  lemma {:induction false} RunKeeps(run: seq<State>, acts: seq<Action>, k: nat)
    requires IsRun(run, acts) && k <= |acts|
    ensures Partition(run[k])
    ensures OneTimerEach(run[k].timers, run[k].waiting)
  {
    if k > 0 {
      RunKeeps(run, acts, k - 1);
      StepKeeps(run[k - 1], acts[k - 1]);
    }
  }

  /** The coroutines a step makes ready, and those it takes off the ready queue to run. */
  function ReadiedBy(s: State, a: Action): seq<Co> {
    match a
    case Create(co) => [co]
    case Yield => if s.running.Some? then [s.running.value] else []
    case Fire(t, _) => [t.co]
    case _ => []
  }

  function PickedBy(s: State, a: Action): seq<Co> {
    if a.Pick? && s.ready != [] then [s.ready[0]] else []
  }

  ghost function Readied(run: seq<State>, acts: seq<Action>, k: nat): seq<Co>
    requires k <= |acts| < |run|
  {
    if k == 0 then [] else Readied(run, acts, k - 1) + ReadiedBy(run[k - 1], acts[k - 1])
  }

  ghost function Picked(run: seq<State>, acts: seq<Action>, k: nat): seq<Co>
    requires k <= |acts| < |run|
  {
    if k == 0 then [] else Picked(run, acts, k - 1) + PickedBy(run[k - 1], acts[k - 1])
  }

  lemma StepOrder(s: State, a: Action)
    requires Enabled(s, a)
    ensures s.ready + ReadiedBy(s, a) == PickedBy(s, a) + Apply(s, a).ready
  {
  }

  lemma JoinOrder(picked: seq<Co>, ready: seq<Co>, more: seq<Co>, taken: seq<Co>, ready': seq<Co>)
    requires ready + more == taken + ready'
    ensures (picked + ready) + more == (picked + taken) + ready'
  {
    assert (picked + ready) + more == picked + (ready + more);
  }

  /** Coroutines run in the order in which they became ready; none is skipped or run twice for one wakeup. */
  lemma {:induction false} RunsInReadyOrder(run: seq<State>, acts: seq<Action>, k: nat)
    requires IsRun(run, acts) && k <= |acts|
    ensures Readied(run, acts, k) == Picked(run, acts, k) + run[k].ready
  {
    if k > 0 {
      var p, a := run[k - 1], acts[k - 1];
      RunsInReadyOrder(run, acts, k - 1);
      StepOrder(p, a);
      JoinOrder(Picked(run, acts, k - 1), p.ready, ReadiedBy(p, a), PickedBy(p, a), run[k].ready);
    }
  }

  /** The loop is never stuck: coroutines exist but none is ready or running only while a timer is pending. */
  lemma NeverStuck(run: seq<State>, acts: seq<Action>, k: nat)
    requires IsRun(run, acts) && k <= |acts|
    requires run[k].coNums > 0 && run[k].ready == [] && run[k].running.None?
    ensures exists t, now :: Enabled(run[k], Fire(t, now))
  {
    RunKeeps(run, acts, k);
    var s := run[k];
    var co := s.waiting[0];
    assert co in s.waiting;
    var t :| t in s.timers && t.co == co;
    assert Enabled(s, Fire(t, t.when));
  }

  /** The effect of firing a list of timers one after the other. */
  function FireAll(s: State, fired: seq<Timer>): State {
    if fired == [] then s
    else
      var s1 := FireAll(s, fired[..|fired| - 1]);
      var t := fired[|fired| - 1];
      Resume(s1.(timers := s1.timers - multiset{t}), t.co)
  }

  lemma FiredLast(m: multiset<Timer>, most: seq<Timer>, t: Timer)
    requires multiset(most + [t]) <= m
    ensures multiset(most) <= m && t in m - multiset(most)
    ensures m - multiset(most) - multiset{t} == m - multiset(most + [t])
  {
    assert multiset(most + [t]) == multiset(most) + multiset{t};
  }

  lemma {:induction false} FireAllKeeps(s: State, fired: seq<Timer>)
    requires Inv(s) && s.running.None? && multiset(fired) <= s.timers
    ensures Inv(FireAll(s, fired)) && FireAll(s, fired).running.None?
    ensures FireAll(s, fired).timers == s.timers - multiset(fired)
  {
    if fired != [] {
      var most, t := fired[..|fired| - 1], fired[|fired| - 1];
      assert fired == most + [t];
      FiredLast(s.timers, most, t);
      FireAllKeeps(s, most);
      RemoveTimerKeeps(FireAll(s, most), t);
    }
  }

  /** With coroutines alive but none ready or running, some timer is pending. */
  lemma IdleMeansPending(s: State)
    requires Inv(s) && s.coNums > 0 && s.running.None?
    ensures s.ready == [] ==> s.timers != multiset{}
  {
    if s.ready == [] {
      assert s.waiting[0] in s.waiting;
    }
  }

  /** wait is the time from now to some pending deadline, or 0 exactly when there is none. */
  ghost predicate Waits(s: State, now: int, wait: int) {
    if s.timers == multiset{} then wait == 0
    else wait > 0 && exists t :: t in s.timers && t.when == now + wait
  }

  /** wait is the time from now to the earliest pending deadline, or 0 exactly when there is none. */
  ghost predicate WaitExact(s: State, now: int, wait: int) {
    if s.timers == multiset{} then wait == 0
    else wait > 0 && exists t :: Earliest(s.timers, t) && t.when == now + wait
  }

  /**
   What a pass over the expired timers does, whatever the deadlines: it takes
   `fired` off the heap and resumes their coroutines in that order, none of them
   before its deadline.
   */
  ghost predicate Passed(s0: State, clock: nat -> int, fired: seq<Timer>, s: State) {
    && s == FireAll(s0, fired)
    && s0.timers == multiset(fired) + s.timers
    && forall i :: 0 <= i < |fired| ==> fired[i].when <= clock(i)
  }

  /** The same in nondecreasing order of deadline, no timer being overtaken by one that stays. */
  ghost predicate Expired(s0: State, clock: nat -> int, fired: seq<Timer>, s: State) {
    Passed(s0, clock, fired, s) && FiredInOrder(fired, s.timers)
  }

  ghost predicate FiredInOrder(fired: seq<Timer>, rest: multiset<Timer>) {
    && (forall i, j :: 0 <= i < j < |fired| ==> fired[i].when <= fired[j].when)
    && (forall i, u :: 0 <= i < |fired| && u in rest ==> fired[i].when <= u.when)
  }

  lemma FiredOneMore(fired: seq<Timer>, rest: multiset<Timer>, t: Timer)
    requires FiredInOrder(fired, rest) && Earliest(rest, t)
    ensures FiredInOrder(fired + [t], rest - multiset{t})
  {
    forall u | u in rest - multiset{t} ensures u in rest {
    }
  }

  /** Firing resumes one coroutine per timer and touches nothing else. */
  lemma {:induction false} FireAllCounts(s: State, fired: seq<Timer>)
    ensures |FireAll(s, fired).ready| == |s.ready| + |fired|
    ensures FireAll(s, fired).coNums == s.coNums && FireAll(s, fired).running == s.running
    ensures FireAll(s, fired).unfinished == s.unfinished
  {
    if fired != [] {
      FireAllCounts(s, fired[..|fired| - 1]);
    }
  }

  lemma PassedOneMore(s0: State, clock: nat -> int, fired: seq<Timer>, s: State, t: Timer)
    requires Passed(s0, clock, fired, s) && t in s.timers && t.when <= clock(|fired|)
    ensures Passed(s0, clock, fired + [t], Resume(s.(timers := s.timers - multiset{t}), t.co))
  {
    var all := fired + [t];
    assert all[..|fired|] == fired && all[|fired|] == t;
    FiredApart(fired, s.timers, t);
  }

  lemma FiredApart(fired: seq<Timer>, rest: multiset<Timer>, t: Timer)
    requires t in rest
    ensures multiset(fired) + rest == multiset(fired + [t]) + (rest - multiset{t})
  {
    assert rest == multiset{t} + (rest - multiset{t});
    assert multiset(fired + [t]) == multiset(fired) + multiset{t};
  }

  lemma PassedKeeps(s: State, clock: nat -> int, fired: seq<Timer>, s': State)
    requires Inv(s) && s.running.None? && Passed(s, clock, fired, s')
    ensures Inv(s') && s'.running.None? && s'.coNums == s.coNums && s'.unfinished == s.unfinished
    ensures |s'.ready| == |s.ready| + |fired|
  {
    FireAllKeeps(s, fired);
    FireAllCounts(s, fired);
  }

  lemma HeapTopIsEarliest(cmp: (Timer, Timer) -> int, m: multiset<Timer>, t: Timer)
    requires IsTimerOrder(cmp) && Near(m) && t in m && forall u :: u in m ==> cmp(t, u) <= 0
    ensures Earliest(m, t)
  {
    NearIsOrdered(cmp, m);
  }

  lemma NearShrinks(m: multiset<Timer>, m': multiset<Timer>)
    requires Near(m) && m' <= m
    ensures Near(m')
  {
    assert forall a :: a in m' ==> a in m;
  }

  lemma SleepFields(s: State, now: int, ms: int, s': State)
    requires Enabled(s, Sleep(now, ms))
    requires s'.timers == s.timers + multiset{Timer(now + ms, s.running.value)}
    requires s'.waiting == s.waiting + [s.running.value] && s'.ready == s.ready && s'.running.None?
    requires s'.coNums == s.coNums && s'.unfinished == s.unfinished
    ensures s' == Apply(s, Sleep(now, ms))
  {
  }
}
