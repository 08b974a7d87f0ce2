/** The code of src/coroutine/sched/core.c: the queues, the timers and the steps of main_loop. */
module CoSchedCode {
  import opened Seqs
  import opened BinaryHeap
  import opened CoTime
  import opened CoSched
  import CoLoop

  /** What one round of process_expired_timers does: no timer, one that is not due yet, or one that fires. */
  ghost predicate RoundIs(s: State, now: int, top: Option<Timer>, done: bool, wait: int, s': State) {
    match top
    case None => s.timers == multiset{} && done && wait == 0 && s' == s
    case Some(t) =>
      && t in s.timers && (done <==> t.when > now)
      && if done then wait == t.when - now && s' == s else Enabled(s, Fire(t, now)) && s' == Apply(s, Fire(t, now))
  }

  lemma RoundPasses(s0: State, clock: nat -> int, fired: seq<Timer>, s: State, top: Option<Timer>, done: bool,
                    wait: int, s': State)
    requires Passed(s0, clock, fired, s) && RoundIs(s, clock(|fired|), top, done, wait, s')
    ensures done ==> s' == s && Waits(s, clock(|fired|), wait)
    ensures !done ==> top.Some? && Passed(s0, clock, fired + [top.value], s') && |s'.timers| < |s.timers|
  {
    if !done {
      PassedOneMore(s0, clock, fired, s, top.value);
    }
  }

  lemma RoundInOrder(fired: seq<Timer>, s: State, now: int, top: Option<Timer>, done: bool, wait: int, s': State)
    requires RoundIs(s, now, top, done, wait, s') && FiredInOrder(fired, s.timers)
    requires top.Some? ==> Earliest(s.timers, top.value)
    ensures done ==> s' == s && WaitExact(s, now, wait)
    ensures !done ==> top.Some? && FiredInOrder(fired + [top.value], s'.timers)
  {
    if !done {
      FiredOneMore(fired, s.timers, top.value);
    }
  }

  /** `struct sched` with its timer heap. */
  class Sched {
    var coQueue: seq<Co>
    var coReadyQueue: seq<Co>
    var coCurr: Option<Co>
    var inCoroutine: bool
    var coNums: int
    const coTimerHeap: Heap<Timer>
    ghost var unfinished: set<Co>

    ghost function View(): State
      reads this, coTimerHeap
    {
      State(coReadyQueue, coQueue, if inCoroutine then coCurr else None, coNums,
            coTimerHeap.contents, unfinished)
    }

    ghost predicate Valid()
      reads this, coTimerHeap, coTimerHeap.elements
    {
      && coTimerHeap.Valid() && IsTimerOrder(coTimerHeap.cmp)
      && (inCoroutine ==> coCurr.Some?)
    }

    /** Deadlines are less than 2^31 ms apart and the heap is in their order. */
    ghost predicate Timely()
      requires coTimerHeap.num <= coTimerHeap.elements.Length
      reads coTimerHeap, coTimerHeap.elements
    {
      Near(coTimerHeap.contents) && coTimerHeap.InOrder()
    }

    constructor ()
      ensures Valid() && Timely() && View() == EMPTY && fresh(coTimerHeap) && fresh(coTimerHeap.elements)
    {
      coTimerHeap := new Heap<Timer>(Compare);
      CompareIsTimerOrder();
      coQueue, coReadyQueue := [], [];
      coCurr, inCoroutine, coNums := None, false, 0;
      unfinished := {};
    }

    /** sched_sched: a new coroutine becomes ready. */
    method SchedSched(co: Co)
      requires Valid() && co !in unfinished
      modifies this
      ensures Valid() && View() == Apply(old(View()), Create(co))
    {
      coReadyQueue := coReadyQueue + [co];
      coNums := coNums + 1;
      unfinished := unfinished + {co};
    }

    /** pick_one_co: 1 when no coroutine is ready. */
    method PickOneCo() returns (none: bool)
      requires Valid() && !inCoroutine
      modifies this
      ensures Valid() && View() == Apply(old(View()), Pick)
      ensures none == (old(coReadyQueue) == []) && inCoroutine == !none
    {
      if coReadyQueue == [] {
        coCurr := None;
        return true;
      }
      coCurr := Some(coReadyQueue[0]);
      coReadyQueue := coReadyQueue[1..];
      inCoroutine := true;
      return false;
    }

    method SchedYieldCoroutine()
      requires Valid() && inCoroutine
      modifies this
      ensures Valid() && View() == Apply(old(View()), Yield)
    {
      coReadyQueue := coReadyQueue + [coCurr.value];
      inCoroutine := false;
    }

    method PushTimer(t: Timer)
      requires Valid()
      modifies coTimerHeap, coTimerHeap.elements
      ensures coTimerHeap.elements == old(coTimerHeap.elements) || fresh(coTimerHeap.elements)
      ensures Valid() && coTimerHeap.contents == old(coTimerHeap.contents) + multiset{t}
      ensures old(Timely()) && Near(coTimerHeap.contents) ==> Timely()
    {
      coTimerHeap.Push(t);
      if Near(coTimerHeap.contents) {
        NearIsOrdered(coTimerHeap.cmp, coTimerHeap.contents);
      }
    }

    /** sched_delay; deadlines stay in order while they are less than 2^31 ms apart. */
    method SchedDelay(now: int, ms: int)
      requires Valid() && inCoroutine
      modifies this, coTimerHeap, coTimerHeap.elements
      ensures coTimerHeap.elements == old(coTimerHeap.elements) || fresh(coTimerHeap.elements)
      ensures Valid() && View() == Apply(old(View()), Sleep(now, ms))
      ensures old(Timely()) && Near(coTimerHeap.contents) ==> Timely()
    {
      ghost var s := View();
      PushTimer(Timer(now + ms, coCurr.value));
      SchedSuspend();
      SleepFields(s, now, ms, View());
    }

    /** sched_suspend_coroutine up to the switch to main_loop. */
    method SchedSuspend()
      requires coCurr.Some?
      modifies this`coQueue, this`inCoroutine
      ensures coQueue == old(coQueue) + [coCurr.value] && !inCoroutine
    {
      coQueue := coQueue + [coCurr.value];
      inCoroutine := false;
    }

    /** The end of co_wrapper. */
    method CoDone()
      requires Valid() && inCoroutine
      modifies this
      ensures Valid() && View() == Apply(old(View()), Finish)
    {
      coNums := coNums - 1;
      unfinished := unfinished - {coCurr.value};
      inCoroutine := false;
    }

    /** sched_co_resume: unlink from wherever it waits, append to the ready queue. */
    method SchedCoResume(co: Co)
      modifies this`coQueue, this`coReadyQueue
      ensures coQueue == Without(old(coQueue), co) && coReadyQueue == old(coReadyQueue) + [co]
    {
      var i := 0;
      while i < |coQueue| && coQueue[i] != co
        invariant i <= |coQueue| && coQueue == old(coQueue)
        invariant forall k :: 0 <= k < i ==> coQueue[k] != co
      {
        i := i + 1;
      }
      WithoutAt(coQueue, i, co);
      if i < |coQueue| {
        coQueue := coQueue[..i] + coQueue[i + 1..];
      }
      coReadyQueue := coReadyQueue + [co];
    }

    method PopTimer(ghost top: Timer)
      requires Valid() && coTimerHeap.num > 0 && top == coTimerHeap.Elems()[0]
      modifies coTimerHeap, coTimerHeap.elements
      ensures coTimerHeap.elements == old(coTimerHeap.elements)
      ensures Valid() && coTimerHeap.contents == old(coTimerHeap.contents) - multiset{top}
      ensures old(Timely()) ==> Timely()
    {
      ghost var before := coTimerHeap.contents;
      var popped := coTimerHeap.Pop();
      if Near(before) {
        NearShrinks(before, coTimerHeap.contents);
      }
    }

    /** The body of the loop of process_expired_timers, for a timer that is due. */
    method FireTop(top: Timer, ghost now: int)
      requires Valid() && !inCoroutine && coTimerHeap.num > 0 && top == coTimerHeap.Elems()[0]
      requires Enabled(View(), Fire(top, now))
      modifies this, coTimerHeap, coTimerHeap.elements
      ensures coTimerHeap.elements == old(coTimerHeap.elements) && !inCoroutine
      ensures Valid() && View() == Apply(old(View()), Fire(top, now))
      ensures old(Timely()) ==> Timely()
    {
      PopTimer(top);
      SchedCoResume(top.co);
    }

    /**
     process_expired_timers; clock(i) is the time read in round i.  It ends, and fires
     no timer early, whatever the deadlines; while they are close it fires in order
     and returns the exact wait to the earliest remaining timer, or 0 exactly when
     none remains.
     */
    method ProcessExpiredTimers(clock: nat -> int) returns (wait: int, fired: seq<Timer>)
      requires Valid() && !inCoroutine
      modifies this, coTimerHeap, coTimerHeap.elements
      ensures coTimerHeap.elements == old(coTimerHeap.elements) && !inCoroutine
      ensures Valid() && Passed(old(View()), clock, fired, View()) && Waits(View(), clock(|fired|), wait)
      ensures old(Timely()) ==>
                Timely() && Expired(old(View()), clock, fired, View()) && WaitExact(View(), clock(|fired|), wait)
    {
      fired := [];
      wait := 0;
      ghost var s0, timely := View(), Timely();
      var done := false;
      while !done
        invariant Valid() && !inCoroutine && coTimerHeap.elements == old(coTimerHeap.elements)
        invariant Passed(s0, clock, fired, View())
        invariant done ==> Waits(View(), clock(|fired|), wait)
        invariant timely ==> Timely() && FiredInOrder(fired, View().timers)
        invariant timely && done ==> WaitExact(View(), clock(|fired|), wait)
        decreases !done, |View().timers|
      {
        done, wait, fired := ProcessTop(clock, fired, s0);
      }
    }

    /** A round, with what it means for the pass so far. */
    method ProcessTop(clock: nat -> int, fired: seq<Timer>, ghost s0: State)
      returns (done: bool, wait: int, fired': seq<Timer>)
      requires Valid() && !inCoroutine && Passed(s0, clock, fired, View())
      modifies this, coTimerHeap, coTimerHeap.elements
      ensures coTimerHeap.elements == old(coTimerHeap.elements) && !inCoroutine
      ensures Valid() && Passed(s0, clock, fired', View())
      ensures done ==> fired' == fired && Waits(View(), clock(|fired|), wait)
      ensures !done ==> |View().timers| < |old(View()).timers|
      ensures old(Timely() && FiredInOrder(fired, View().timers)) ==>
                && Timely() && FiredInOrder(fired', View().timers)
                && (done ==> WaitExact(View(), clock(|fired|), wait))
    {
      ghost var s, timely := View(), Timely();
      var top;
      done, wait, top := Round(clock(|fired|));
      fired' := if done then fired else fired + [top.value];
      RoundPasses(s0, clock, fired, s, top, done, wait, View());
      if timely && FiredInOrder(fired, s.timers) {
        RoundInOrder(fired, s, clock(|fired|), top, done, wait, View());
      }
    }

    /** One round of process_expired_timers; now is the clock reading if there is a timer. */
    method Round(now: int) returns (done: bool, wait: int, top: Option<Timer>)
      requires Valid() && !inCoroutine
      modifies this, coTimerHeap, coTimerHeap.elements
      ensures coTimerHeap.elements == old(coTimerHeap.elements) && !inCoroutine
      ensures Valid() && RoundIs(old(View()), now, top, done, wait, View())
      ensures old(Timely()) ==> Timely() && (top.Some? ==> Earliest(old(View()).timers, top.value))
    {
      top := coTimerHeap.Top();
      if top.None? {
        return true, 0, None;
      }
      if Timely() {
        HeapTopIsEarliest(coTimerHeap.cmp, View().timers, top.value);
      }
      if top.value.when > now {
        return true, top.value.when - now, top;
      }
      FireTop(top.value, now);
      return false, 0, top;
    }
  }

  /** The thread of main_loop between two accesses to what it shares with other threads. */
  class MainLoop {
    const sched: Sched
    var phase: CoLoop.Phase
    /** The last clock reading, as a caller sees it. */
    ghost var time: int

    ghost function View(): CoLoop.Loop
      reads this, sched, sched.coTimerHeap
    {
      CoLoop.Loop(sched.View(), phase, time)
    }

    ghost predicate Valid()
      reads this, sched, sched.coTimerHeap, sched.coTimerHeap.elements
    {
      sched.Valid() && (phase.InCoroutine? <==> sched.inCoroutine)
    }

    constructor (sched: Sched, ghost now: int)
      requires sched.Valid() && !sched.inCoroutine
      ensures Valid() && this.sched == sched && View() == CoLoop.Loop(sched.View(), CoLoop.Top, now)
    {
      this.sched := sched;
      phase, time := CoLoop.Top, now;
    }

    /** Another thread's sched_sched. */
    method Spawn(co: Co)
      requires Valid() && co !in sched.unfinished
      modifies sched
      ensures Valid() && View() == CoLoop.Next(old(View()), CoLoop.Spawn(co))
    {
      sched.SchedSched(co);
    }

    /** Lines 114 to 124: false while there are no coroutines to wait for. */
    method Enter() returns (entered: bool)
      requires Valid() && phase.Top?
      modifies this
      ensures Valid() && entered == CoLoop.Can(old(View()), CoLoop.Enter)
      ensures View() == if entered then CoLoop.Next(old(View()), CoLoop.Enter) else old(View())
    {
      entered := sched.coNums != 0;
      if entered {
        phase := CoLoop.Picking;
      }
    }

    /** Line 125. */
    method TryPick()
      requires Valid() && phase.Picking?
      modifies this, sched
      ensures Valid() && CoLoop.Can(old(View()), CoLoop.TryPick)
      ensures View() == CoLoop.Next(old(View()), CoLoop.TryPick)
    {
      var none := sched.PickOneCo();
      phase := if none then CoLoop.FirstPass else CoLoop.InCoroutine;
    }

    /** A round of line 127 or 129; while deadlines are close it is for an earliest timer. */
    method PassRound(now: int) returns (ghost step: CoLoop.Step)
      requires Valid() && (phase.FirstPass? || phase.SecondPass?) && now >= time
      modifies this, sched, sched.coTimerHeap, sched.coTimerHeap.elements
      ensures Valid() && sched.coTimerHeap.elements == old(sched.coTimerHeap.elements)
      ensures step.LookEmpty? || (step.Look? && step.now == now)
      ensures CoLoop.Can(old(View()), step) && View() == CoLoop.Next(old(View()), step)
      ensures old(sched.Timely()) ==> sched.Timely() && CoLoop.InOrder(old(View()), step)
    {
      ghost var l := View();
      var done, wait, top := sched.Round(now);
      step := if top.None? then CoLoop.LookEmpty else CoLoop.Look(now, top.value);
      time := if top.None? then time else now;
      if done {
        phase := CoLoop.AfterPass(phase, wait);
      }
      RoundIsStep(l, now, top, done, wait, sched.View());
    }

    static lemma RoundIsStep(l: CoLoop.Loop, now: int, top: Option<Timer>, done: bool, wait: int, s': State)
      requires RoundIs(l.s, now, top, done, wait, s') && (l.phase.FirstPass? || l.phase.SecondPass?)
      requires l.s.running.None? && now >= l.time
      ensures var step := if top.None? then CoLoop.LookEmpty else CoLoop.Look(now, top.value);
              && CoLoop.Can(l, step)
              && CoLoop.Next(l, step) == CoLoop.Loop(s', if done then CoLoop.AfterPass(l.phase, wait) else l.phase,
                                                     if top.None? then l.time else now)
    {
    }

    /** Line 128: event_loop_run has returned. */
    method Return(now: int)
      requires Valid() && phase.Blocked? && CoLoop.TimesOut(time, phase.wait, now)
      modifies this
      ensures Valid() && View() == CoLoop.Next(old(View()), CoLoop.Return(now))
    {
      time := now;
      phase := CoLoop.SecondPass;
    }
  }
}
