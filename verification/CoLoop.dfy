/**
 main_loop of src/coroutine/sched/core.c as a thread among others: its steps are the
 pick, the rounds of process_expired_timers and the wait in event_loop_run
 (src/coroutine/runtime/event_loop.c), and between any two of them another thread may
 create a coroutine.
 */
module CoLoop {
  import opened Seqs
  import opened CoTime
  import opened CoSched

  /** Where the thread of main_loop stands. */
  datatype Phase =
    | Top
    | Picking
    | InCoroutine
    | FirstPass
    | Blocked(wait: int)
    | SecondPass

  /** `time` is the last reading of the monotonic clock. */
  datatype Loop = Loop(s: State, phase: Phase, time: int)

  /**
   Spawn is sched_sched on any thread.  Look is a round of process_expired_timers that
   finds t at the root of the heap and reads the clock, LookEmpty one that finds no timer.
   */
  datatype Step =
    | Spawn(co: Co)
    | Enter
    | TryPick
    | CoYield
    | CoSleep(now: int, ms: int)
    | CoFinish
    | Look(now: int, t: Timer)
    | LookEmpty
    | Return(now: int)

  ghost predicate Can(l: Loop, a: Step) {
    match a
    case Spawn(co) => co !in l.s.unfinished
    case Enter => l.phase.Top? && l.s.coNums != 0
    case TryPick => l.phase.Picking? && l.s.running.None?
    case CoYield => l.phase.InCoroutine? && l.s.running.Some?
    case CoSleep(now, _) => l.phase.InCoroutine? && l.s.running.Some? && now >= l.time
    case CoFinish => l.phase.InCoroutine? && l.s.running.Some?
    case Look(now, t) => (l.phase.FirstPass? || l.phase.SecondPass?) && l.s.running.None? && t in l.s.timers && now >= l.time
    case LookEmpty => (l.phase.FirstPass? || l.phase.SecondPass?) && l.s.timers == multiset{}
    case Return(now) => l.phase.Blocked? && TimesOut(l.time, l.phase.wait, now)
  }

  /**
   epoll_pwait is given (int)wait and nothing ever becomes ready: it returns once the
   timeout has passed, and never if the timeout is negative.
   */
  predicate TimesOut(since: int, wait: int, now: int) {
    ToInt(wait) >= 0 && now >= since + ToInt(wait)
  }

  /** The end of a pass: the first is followed by the wait, the second by the next turn. */
  function AfterPass(phase: Phase, wait: int): Phase {
    if phase.FirstPass? then Blocked(wait) else Top
  }

  function Next(l: Loop, a: Step): Loop
    requires Can(l, a)
  {
    match a
    case Spawn(co) => l.(s := Apply(l.s, Create(co)))
    case Enter => l.(phase := Picking)
    case TryPick => if l.s.ready == [] then l.(phase := FirstPass) else l.(s := Apply(l.s, Pick), phase := InCoroutine)
    case CoYield => l.(s := Apply(l.s, Yield), phase := Top)
    case CoSleep(now, ms) => Loop(Apply(l.s, Sleep(now, ms)), Top, now)
    case CoFinish => l.(s := Apply(l.s, Finish), phase := Top)
    case Look(now, t) =>
      if t.when > now then Loop(l.s, AfterPass(l.phase, t.when - now), now)
      else Loop(Apply(l.s, Fire(t, now)), l.phase, now)
    case LookEmpty => l.(phase := AfterPass(l.phase, 0))
    case Return(now) => Loop(l.s, SecondPass, now)
  }

  ghost predicate IsLoopRun(run: seq<Loop>, acts: seq<Step>) {
    && |run| == |acts| + 1 && run[0] == Loop(EMPTY, Top, run[0].time)
    && forall i :: 0 <= i < |acts| ==> Can(run[i], acts[i]) && run[i + 1] == Next(run[i], acts[i])
  }

  /** The heap has handed out an earliest timer each time, as it does while deadlines are close. */
  ghost predicate InDeadlineOrder(run: seq<Loop>, acts: seq<Step>) {
    |acts| < |run| && forall i :: 0 <= i < |acts| ==> InOrder(run[i], acts[i])
  }

  ghost predicate InOrder(l: Loop, a: Step) {
    a.Look? ==> Earliest(l.s.timers, a.t)
  }

  /** From the failed pick to the end of the second pass. */
  predicate Idle(phase: Phase) {
    phase.FirstPass? || phase.Blocked? || phase.SecondPass?
  }

  // -------------------------------------------------------------- the invariant

  /** A coroutine runs only in its phase, coroutines exist in the others, and the wait is for a pending timer. */
  ghost predicate PhaseOk(l: Loop) {
    && (l.phase.InCoroutine? <==> l.s.running.Some?)
    && (l.phase.Picking? || Idle(l.phase) ==> l.s.coNums > 0)
    && (l.phase.Blocked? ==> Waits(l.s, l.time, l.phase.wait))
  }

  ghost predicate LoopInv(l: Loop) {
    Inv(l.s) && PhaseOk(l)
  }

  /** The scheduler's step that a step of the loop makes, if any. */
  function ActionOf(l: Loop, a: Step): Option<Action> {
    match a
    case Spawn(co) => Some(Create(co))
    case TryPick => if l.s.ready == [] then None else Some(Pick)
    case CoYield => Some(Yield)
    case CoSleep(now, ms) => Some(Sleep(now, ms))
    case CoFinish => Some(Finish)
    case Look(now, t) => if t.when > now then None else Some(Fire(t, now))
    case _ => None
  }

  lemma StepIsAction(l: Loop, a: Step)
    requires Can(l, a)
    ensures match ActionOf(l, a)
            case None => Next(l, a).s == l.s
            case Some(act) => Enabled(l.s, act) && Next(l, a).s == Apply(l.s, act)
  {
  }

  lemma PhaseStep(l: Loop, a: Step)
    requires PhaseOk(l) && l.s.coNums >= 0 && Can(l, a)
    ensures PhaseOk(Next(l, a))
  {
  }

  lemma LoopStepKeeps(l: Loop, a: Step)
    requires LoopInv(l) && Can(l, a)
    ensures LoopInv(Next(l, a))
  {
    PhaseStep(l, a);
    StepIsAction(l, a);
    match ActionOf(l, a)
    case None =>
    case Some(act) => CoSched.StepKeeps(l.s, act);
  }

  /** In every run every unfinished coroutine is in its place, and the loop waits for a pending timer or not at all. */
  lemma {:induction false} LoopKeeps(run: seq<Loop>, acts: seq<Step>, k: nat)
    requires IsLoopRun(run, acts) && k <= |acts|
    ensures LoopInv(run[k])
  {
    if k > 0 {
      LoopKeeps(run, acts, k - 1);
      LoopStepKeeps(run[k - 1], acts[k - 1]);
    }
  }

  /** What the later proofs need of the invariant. */
  lemma LoopPhase(run: seq<Loop>, acts: seq<Step>, k: nat)
    requires IsLoopRun(run, acts) && k <= |acts|
    ensures PhaseOk(run[k])
    ensures run[k].s.coNums > 0 && run[k].s.running.None? && run[k].s.ready == [] ==> run[k].s.timers != multiset{}
  {
    LoopKeeps(run, acts, k);
    if run[k].s.coNums > 0 && run[k].s.running.None? {
      IdleMeansPending(run[k].s);
    }
  }

  // ------------------------------------------------------- the history of a turn

  /** What makes a coroutine ready while the loop thread is idle. */
  datatype News = Created(co: Co) | Woken(t: Timer)

  function CoOf(n: News): Co {
    match n
    case Created(co) => co
    case Woken(t) => t.co
  }

  function Cos(news: seq<News>): seq<Co> {
    seq(|news|, i requires 0 <= i < |news| => CoOf(news[i]))
  }

  /** The timers fired among the news. */
  ghost function Fired(news: seq<News>): multiset<Timer> {
    if news == [] then multiset{}
    else Fired(news[..|news| - 1]) + match news[|news| - 1] case Created(_) => multiset{} case Woken(t) => multiset{t}
  }

  lemma FiredNext(news: seq<News>, n: News)
    ensures Fired(news + [n]) == Fired(news) + match n case Created(_) => multiset{} case Woken(t) => multiset{t}
    ensures Cos(news + [n]) == Cos(news) + [CoOf(n)]
  {
    assert (news + [n])[..|news|] == news;
  }

  lemma {:induction false} FiredIsWoken(news: seq<News>)
    ensures forall t :: t in Fired(news) <==> Woken(t) in news
  {
    if news != [] {
      FiredIsWoken(news[..|news| - 1]);
      assert news == news[..|news| - 1] + [news[|news| - 1]];
    }
  }

  ghost predicate SomeCreated(news: seq<News>) {
    exists co :: Created(co) in news
  }

  ghost predicate SomeWoken(news: seq<News>) {
    exists t :: Woken(t) in news
  }

  /** Since the last failed pick: what has become ready, the timers pending then, and the first clock reading. */
  datatype Turn = Turn(news: seq<News>, pending: multiset<Timer>, first: Option<int>)

  function NewsOf(a: Step): seq<News> {
    match a
    case Spawn(co) => [Created(co)]
    case Look(now, t) => if t.when <= now then [Woken(t)] else []
    case _ => []
  }

  ghost predicate PickFails(l: Loop, a: Step) {
    a.TryPick? && l.s.ready == []
  }

  ghost function TurnAfter(l: Loop, a: Step, h: Turn): Turn {
    if PickFails(l, a) then Turn([], l.s.timers, None)
    else Turn(h.news + NewsOf(a), h.pending, if h.first.None? && a.Look? then Some(a.now) else h.first)
  }

  ghost function TurnAt(run: seq<Loop>, acts: seq<Step>, k: nat): Turn
    requires k <= |acts| < |run|
  {
    if k == 0 then Turn([], multiset{}, None) else TurnAfter(run[k - 1], acts[k - 1], TurnAt(run, acts, k - 1))
  }

  /** When the pass began with the first clock reading, some pending timer was due. */
  ghost predicate SomeDue(h: Turn) {
    h.first.Some? && exists t :: t in h.pending && t.when <= h.first.value
  }

  /** How the turn accounts for the state of the idle loop; `ordered` if timers come in deadline order. */
  ghost predicate TurnOk(l: Loop, h: Turn, ordered: bool) {
    Idle(l.phase) ==>
      && l.s.ready == Cos(h.news) && h.pending == l.s.timers + Fired(h.news) && h.pending != multiset{}
      && (l.phase.FirstPass? ==> (h.first.Some? <==> Fired(h.news) != multiset{}) && (h.first.Some? ==> SomeDue(h)))
      && (l.phase.Blocked? ==> Fired(h.news) != multiset{} ==> SomeDue(h))
      && (l.phase.Blocked? && ordered ==> SomeDue(h) ==> Fired(h.news) != multiset{})
      && (l.phase.Blocked? && ordered ==> WaitExact(l.s, l.time, l.phase.wait))
  }

  lemma TurnKeeps(l: Loop, a: Step, h: Turn, ordered: bool)
    requires PhaseOk(l) && Can(l, a) && TurnOk(l, h, ordered) && (ordered ==> InOrder(l, a))
    requires l.phase.Picking? && l.s.ready == [] ==> l.s.timers != multiset{}
    ensures TurnOk(Next(l, a), TurnAfter(l, a, h), ordered)
  {
    if Idle(l.phase) {
      match a
      case Spawn(co) => SpawnKeeps(l, co, h, ordered);
      case Look(now, t) =>
        if t.when <= now {
          WokenKeeps(l, now, t, h, ordered);
        } else {
          PassOver(l, now, t, h, ordered);
        }
      case LookEmpty => assert h.news + [] == h.news;
      case Return(now) => assert h.news + [] == h.news;
      case _ =>
    }
  }

  lemma SpawnKeeps(l: Loop, co: Co, h: Turn, ordered: bool)
    requires Idle(l.phase) && Can(l, Spawn(co)) && TurnOk(l, h, ordered)
    ensures TurnOk(Next(l, Spawn(co)), TurnAfter(l, Spawn(co), h), ordered)
  {
    FiredNext(h.news, Created(co));
  }

  lemma WokenKeeps(l: Loop, now: int, t: Timer, h: Turn, ordered: bool)
    requires Can(l, Look(now, t)) && TurnOk(l, h, ordered) && t.when <= now
    ensures TurnOk(Next(l, Look(now, t)), TurnAfter(l, Look(now, t), h), ordered)
  {
    FiredNext(h.news, Woken(t));
    FiredMoves(h.pending, l.s.timers, Fired(h.news), t);
  }

  lemma FiredMoves(pending: multiset<Timer>, rest: multiset<Timer>, fired: multiset<Timer>, t: Timer)
    requires t in rest && pending == rest + fired
    ensures t in pending && pending == (rest - multiset{t}) + (fired + multiset{t})
    ensures fired + multiset{t} != multiset{}
  {
    assert rest == (rest - multiset{t}) + multiset{t};
    assert t in fired + multiset{t};
  }

  lemma PassOver(l: Loop, now: int, t: Timer, h: Turn, ordered: bool)
    requires Can(l, Look(now, t)) && TurnOk(l, h, ordered) && t.when > now
    requires ordered ==> Earliest(l.s.timers, t)
    ensures TurnOk(Next(l, Look(now, t)), TurnAfter(l, Look(now, t), h), ordered)
  {
    assert h.news + [] == h.news;
    assert Fired(h.news) == multiset{} ==> h.pending == l.s.timers;
  }

  lemma {:induction false} TurnHolds(run: seq<Loop>, acts: seq<Step>, k: nat, ordered: bool)
    requires IsLoopRun(run, acts) && k <= |acts| && (ordered ==> InDeadlineOrder(run, acts))
    ensures TurnOk(run[k], TurnAt(run, acts, k), ordered)
  {
    if k > 0 {
      TurnHolds(run, acts, k - 1, ordered);
      LoopPhase(run, acts, k - 1);
      TurnKeeps(run[k - 1], acts[k - 1], TurnAt(run, acts, k - 1), ordered);
    }
  }

  // ----------------------------------------------------- what an idle turn does

  lemma NewsOrNot(news: seq<News>)
    ensures news != [] <==> SomeWoken(news) || SomeCreated(news)
  {
    if news != [] {
      match news[0]
      case Created(co) => assert Created(co) in news;
      case Woken(t) => assert Woken(t) in news;
    }
  }

  /**
   In every run, whenever the loop is idle: the ready queue is what has been created
   or woken since the failed pick, in that order.  So when it blocks, it does so while a
   coroutine is ready exactly if its first pass has fired a timer or a coroutine has
   been created since the failed pick, and it is told to wait exactly if timers remain.
   */
  lemma IdleTurnProgress(run: seq<Loop>, acts: seq<Step>, k: nat)
    requires IsLoopRun(run, acts) && k <= |acts| && Idle(run[k].phase)
    ensures var l, h := run[k], TurnAt(run, acts, k);
            && l.s.ready == Cos(h.news) && h.pending == l.s.timers + Fired(h.news)
            && (l.s.ready != [] <==> SomeWoken(h.news) || SomeCreated(h.news))
            && (l.phase.Blocked? ==> (l.phase.wait > 0 <==> l.s.timers != multiset{}) && l.phase.wait >= 0)
  {
    TurnHolds(run, acts, k, false);
    LoopPhase(run, acts, k);
    NewsOrNot(TurnAt(run, acts, k).news);
  }

  /**
   While timers come in deadline order the same in terms of what is known before the
   pass: the loop blocks with a coroutine ready exactly if at the first clock reading
   some pending deadline was due, or a coroutine has been created since the failed pick.
   */
  lemma BlocksWithReadyIff(run: seq<Loop>, acts: seq<Step>, k: nat)
    requires IsLoopRun(run, acts) && InDeadlineOrder(run, acts) && k <= |acts| && run[k].phase.Blocked?
    ensures var h := TurnAt(run, acts, k);
            && (SomeWoken(h.news) <==> SomeDue(h))
            && (run[k].s.ready != [] <==> SomeDue(h) || SomeCreated(h.news))
  {
    var h := TurnAt(run, acts, k);
    TurnHolds(run, acts, k, true);
    IdleTurnProgress(run, acts, k);
    FiredIsWoken(h.news);
    if SomeDue(h) {
      var t :| t in Fired(h.news);
      assert Woken(t) in h.news;
    }
  }

  // ------------------------------------------------------- the wait of event_loop_run

  /** A wait that is not negative reaches epoll_pwait unchanged exactly if it is less than 2^31 ms. */
  lemma TimeoutExactIff(wait: int)
    requires wait >= 0
    ensures ToInt(wait) == wait <==> wait < TWO_31
  {
    ToIntIdentity(wait);
  }

  /**
   While timers come in deadline order, the loop can leave the wait exactly from the
   earliest deadline on, if and only if the wait is less than 2^31 ms.
   */
  lemma IdleTurnPunctual(run: seq<Loop>, acts: seq<Step>, k: nat)
    requires IsLoopRun(run, acts) && InDeadlineOrder(run, acts) && k <= |acts|
    requires run[k].phase.Blocked? && run[k].s.timers != multiset{}
    ensures (forall now :: Can(run[k], Return(now)) <==> exists t :: t in run[k].s.timers && t.when <= now)
            <==> run[k].phase.wait < TWO_31
  {
    TurnHolds(run, acts, k, true);
    var l := run[k];
    var wait := l.phase.wait;
    TimeoutExactIff(wait);
    var t :| Earliest(l.s.timers, t) && t.when == l.time + wait;
    if wait >= TWO_31 {
      var now := if ToInt(wait) >= 0 then l.time + ToInt(wait) else t.when;
      LessThanWait(wait);
      assert Can(l, Return(now)) <==> ToInt(wait) >= 0;
    }
  }

  lemma LessThanWait(wait: int)
    requires wait >= TWO_31
    ensures ToInt(wait) < wait
  {
  }

  /** What the second pass finds after a wait of less than 2^31 ms: something ready, or something due. */
  ghost predicate ReadyOrDue(l: Loop) {
    l.s.ready != [] || exists t :: t in l.s.timers && t.when <= l.time
  }

  ghost predicate TurnPays(l: Loop) {
    l.phase.SecondPass? ==> ReadyOrDue(l)
  }

  lemma TurnPaysStep(l: Loop, a: Step, h: Turn)
    requires PhaseOk(l) && TurnOk(l, h, true) && Can(l, a) && InOrder(l, a) && TurnPays(l)
    requires l.phase.Blocked? ==> l.phase.wait < TWO_31
    ensures TurnPays(Next(l, a))
    ensures l.phase.SecondPass? && Next(l, a).phase.Top? ==> l.s.ready != []
  {
    match a
    case Return(now) =>
      if l.s.timers == multiset{} {
        FiredIsReady(h.news);
      } else {
        TimeoutExactIff(l.phase.wait);
      }
    case Spawn(co) =>
    case Look(now, t) =>
    case _ =>
  }

  lemma FiredIsReady(news: seq<News>)
    requires Fired(news) != multiset{}
    ensures Cos(news) != []
  {
  }

  /** No wait of the first k states reaches 2^31 ms. */
  ghost predicate ShortWaits(run: seq<Loop>, k: nat) {
    forall i :: 0 <= i < k && i < |run| && run[i].phase.Blocked? ==> run[i].phase.wait < TWO_31
  }

  lemma {:induction false} TurnPaysHolds(run: seq<Loop>, acts: seq<Step>, k: nat)
    requires IsLoopRun(run, acts) && InDeadlineOrder(run, acts) && k <= |acts| && ShortWaits(run, k)
    ensures TurnPays(run[k])
  {
    if k > 0 {
      TurnPaysHolds(run, acts, k - 1);
      LoopPhase(run, acts, k - 1);
      TurnHolds(run, acts, k - 1, true);
      TurnPaysStep(run[k - 1], acts[k - 1], TurnAt(run, acts, k - 1));
    }
  }

  /** While timers come in order and no wait reaches 2^31 ms, every idle turn ends with a coroutine ready. */
  lemma TurnEndsReady(run: seq<Loop>, acts: seq<Step>, k: nat)
    requires IsLoopRun(run, acts) && InDeadlineOrder(run, acts) && k < |acts| && ShortWaits(run, k)
    requires run[k].phase.SecondPass? && run[k + 1].phase.Top?
    ensures run[k + 1].s.ready != []
  {
    TurnPaysHolds(run, acts, k);
    LoopPhase(run, acts, k);
    TurnHolds(run, acts, k, true);
    TurnPaysStep(run[k], acts[k], TurnAt(run, acts, k));
  }

  // ------------------------------------------------------------------- progress

  predicate InPass(phase: Phase) {
    phase.FirstPass? || phase.SecondPass?
  }

  /** The rounds of process_expired_timers from step i to step j. */
  ghost function Rounds(acts: seq<Step>, i: nat, j: nat): nat
    requires i <= j <= |acts|
  {
    if i == j then 0 else Rounds(acts, i, j - 1) + (if acts[j - 1].Look? || acts[j - 1].LookEmpty? then 1 else 0)
  }

  /** The steps of the loop thread in that time. */
  ghost function OwnSteps(acts: seq<Step>, i: nat, j: nat): nat
    requires i <= j <= |acts|
  {
    if i == j then 0 else OwnSteps(acts, i, j - 1) + (if acts[j - 1].Spawn? then 0 else 1)
  }

  lemma FireLess(m: multiset<Timer>, t: Timer)
    requires t in m
    ensures |m - multiset{t}| == |m| - 1
  {
  }

  /** The rounds a pass has still to make. */
  function RoundsLeft(l: Loop): nat {
    if InPass(l.phase) then |l.s.timers| + 1 else 0
  }

  lemma RoundStep(l: Loop, a: Step)
    requires Can(l, a) && InPass(l.phase)
    ensures RoundsLeft(Next(l, a)) + (if a.Look? || a.LookEmpty? then 1 else 0) <= RoundsLeft(l)
  {
    if a.Look? {
      FireLess(l.s.timers, a.t);
    }
  }

  /** A pass makes at most one round for each pending timer and one more, whatever other threads do. */
  lemma {:induction false} PassEnds(run: seq<Loop>, acts: seq<Step>, i: nat, j: nat)
    requires IsLoopRun(run, acts) && i <= j <= |acts| && forall k :: i <= k < j ==> InPass(run[k].phase)
    ensures RoundsLeft(run[j]) + Rounds(acts, i, j) <= |run[i].s.timers| + 1
  {
    if i < j {
      PassEnds(run, acts, i, j - 1);
      RoundStep(run[j - 1], acts[j - 1]);
    }
  }

  /** The steps the loop thread needs to have a coroutine running, at most. */
  function StepsToRun(l: Loop): nat {
    var n := |l.s.timers|;
    match l.phase
    case InCoroutine => 0
    case Picking => if l.s.ready != [] then 1 else n + 6
    case Top => if l.s.ready != [] then 2 else n + 7
    case FirstPass => n + 5
    case Blocked(_) => n + 4
    case SecondPass => n + 3
  }

  lemma OwnStep(l: Loop, a: Step, h: Turn)
    requires PhaseOk(l) && TurnOk(l, h, true) && Can(l, a) && InOrder(l, a) && TurnPays(l)
    requires (l.phase.Blocked? ==> l.phase.wait < TWO_31) && !l.phase.InCoroutine?
    ensures StepsToRun(Next(l, a)) + (if a.Spawn? then 0 else 1) <= StepsToRun(l)
  {
    TurnPaysStep(l, a, h);
    if a.Look? {
      OwnRound(l, a.now, a.t);
    } else {
      OwnOther(l, a);
    }
  }

  lemma OwnRound(l: Loop, now: int, t: Timer)
    requires Can(l, Look(now, t))
    requires l.phase.SecondPass? && Next(l, Look(now, t)).phase.Top? ==> l.s.ready != []
    ensures StepsToRun(Next(l, Look(now, t))) + 1 <= StepsToRun(l)
  {
    FireLess(l.s.timers, t);
  }

  lemma OwnOther(l: Loop, a: Step)
    requires Can(l, a) && !a.Look? && !l.phase.InCoroutine?
    requires l.phase.SecondPass? && Next(l, a).phase.Top? ==> l.s.ready != []
    ensures StepsToRun(Next(l, a)) + (if a.Spawn? then 0 else 1) <= StepsToRun(l)
  {
  }

  lemma OwnStepAt(run: seq<Loop>, acts: seq<Step>, k: nat)
    requires IsLoopRun(run, acts) && InDeadlineOrder(run, acts) && k < |acts| && ShortWaits(run, k + 1)
    requires !run[k].phase.InCoroutine?
    ensures StepsToRun(run[k + 1]) + (if acts[k].Spawn? then 0 else 1) <= StepsToRun(run[k])
  {
    LoopPhase(run, acts, k);
    TurnHolds(run, acts, k, true);
    TurnPaysHolds(run, acts, k);
    OwnStep(run[k], acts[k], TurnAt(run, acts, k));
  }

  lemma {:induction false} OwnStepsAddUp(run: seq<Loop>, acts: seq<Step>, i: nat, j: nat)
    requires IsLoopRun(run, acts) && InDeadlineOrder(run, acts) && i <= j <= |acts| && ShortWaits(run, j)
    requires forall k :: i <= k < j ==> !run[k].phase.InCoroutine?
    ensures StepsToRun(run[j]) + OwnSteps(acts, i, j) <= StepsToRun(run[i])
  {
    if i < j {
      OwnStepsAddUp(run, acts, i, j - 1);
      OwnStepAt(run, acts, j - 1);
    }
  }

  /**
   While timers come in order and no wait reaches 2^31 ms, the loop thread has a
   coroutine running after at most 7 steps and one more for each pending timer, whatever
   other threads create in between; and while coroutines exist it can always make the next one.
   */
  lemma SomeCoroutineRuns(run: seq<Loop>, acts: seq<Step>, i: nat, j: nat)
    requires IsLoopRun(run, acts) && InDeadlineOrder(run, acts) && i <= j <= |acts| && ShortWaits(run, j + 1)
    requires forall k :: i <= k < j ==> !run[k].phase.InCoroutine?
    ensures OwnSteps(acts, i, j) <= |run[i].s.timers| + 7
    ensures run[j].s.coNums > 0 ==> exists a :: Can(run[j], a) && !a.Spawn?
  {
    OwnStepsAddUp(run, acts, i, j);
    LoopKeeps(run, acts, j);
    if run[j].s.coNums > 0 {
      LoopStuckIff(run, acts, j);
      if run[j].phase.Blocked? {
        TimeoutExactIff(run[j].phase.wait);
      }
    }
  }

  // -------------------------------------------------------------- sleeping long enough

  /** The coroutine that went to sleep until `until` still waits for that timer, or the time has come. */
  ghost predicate AsleepUntil(l: Loop, co: Co, until: int) {
    (co in l.s.waiting && Timer(until, co) in l.s.timers) || l.time >= until
  }

  lemma AsleepStep(l: Loop, a: Step, co: Co, until: int)
    requires LoopInv(l) && Can(l, a) && AsleepUntil(l, co, until)
    ensures AsleepUntil(Next(l, a), co, until)
  {
    TimersStep(l, a);
    if l.time >= until {
    } else if a.Look? && a.t.when <= a.now {
      AsleepFire(l.s, a.now, a.t, co, until);
    } else {
      StaysAsleep(l, a, co, until);
    }
  }

  lemma StaysAsleep(l: Loop, a: Step, co: Co, until: int)
    requires Can(l, a) && !(a.Look? && a.t.when <= a.now) && co in l.s.waiting && Timer(until, co) in l.s.timers
    ensures co in Next(l, a).s.waiting && Timer(until, co) in Next(l, a).s.timers
  {
  }

  lemma AsleepFire(s: State, now: int, t: Timer, co: Co, until: int)
    requires Inv(s) && Enabled(s, Fire(t, now)) && co in s.waiting && Timer(until, co) in s.timers
    ensures var s' := Apply(s, Fire(t, now));
            (co in s'.waiting && Timer(until, co) in s'.timers) || now >= until
  {
    WithoutOne(s.waiting, t.co);
    if t.co == co {
      assert t == Timer(until, co);
    }
  }

  /** A sleep takes at least as long as asked: until then the coroutine stays in the wait queue. */
  lemma SleepsLongEnough(run: seq<Loop>, acts: seq<Step>, i: nat, j: nat, co: Co, now: int, ms: int)
    requires IsLoopRun(run, acts) && i < j <= |acts|
    requires run[i].s.running == Some(co) && acts[i] == CoSleep(now, ms)
    ensures AsleepUntil(run[j], co, now + ms)
  {
    FallsAsleep(run[i], acts[i]);
    StaysAsleepUntil(run, acts, i + 1, j, co, now + ms);
  }

  lemma {:induction false} StaysAsleepUntil(run: seq<Loop>, acts: seq<Step>, i: nat, j: nat, co: Co, until: int)
    requires IsLoopRun(run, acts) && i <= j <= |acts| && AsleepUntil(run[i], co, until)
    ensures AsleepUntil(run[j], co, until)
  {
    if i < j {
      StaysAsleepUntil(run, acts, i, j - 1, co, until);
      AsleepAt(run, acts, j - 1, co, until);
    }
  }

  lemma AsleepAt(run: seq<Loop>, acts: seq<Step>, k: nat, co: Co, until: int)
    requires IsLoopRun(run, acts) && k < |acts| && AsleepUntil(run[k], co, until)
    ensures AsleepUntil(run[k + 1], co, until)
  {
    LoopKeeps(run, acts, k);
    AsleepStep(run[k], acts[k], co, until);
  }

  lemma FallsAsleep(l: Loop, a: Step)
    requires Can(l, a) && a.CoSleep?
    ensures AsleepUntil(Next(l, a), l.s.running.value, a.now + a.ms)
  {
  }

  // ------------------------------------------------------------ blocking for ever

  /** The loop has passed a negative timeout. */
  ghost predicate BlocksForever(l: Loop) {
    l.phase.Blocked? && ToInt(l.phase.wait) < 0
  }

  /** From then on no step of the loop thread is possible, whatever the other threads do. */
  lemma {:induction false} ForeverIsForever(run: seq<Loop>, acts: seq<Step>, i: nat, k: nat)
    requires IsLoopRun(run, acts) && i <= k <= |acts| && BlocksForever(run[i])
    ensures run[k].phase == run[i].phase
    ensures forall a :: Can(run[k], a) ==> a.Spawn?
    decreases k
  {
    if k > i {
      ForeverIsForever(run, acts, i, k - 1);
      assert acts[k - 1].Spawn?;
    }
  }

  /** With coroutines alive the loop thread can always move on, unless it blocks for ever. */
  lemma LoopStuckIff(run: seq<Loop>, acts: seq<Step>, k: nat)
    requires IsLoopRun(run, acts) && k <= |acts| && run[k].s.coNums > 0
    ensures (exists a :: Can(run[k], a) && !a.Spawn?) <==> !BlocksForever(run[k])
  {
    LoopPhase(run, acts, k);
    MovesUnlessForever(run[k]);
  }

  lemma MovesUnlessForever(l: Loop)
    requires PhaseOk(l) && l.s.coNums > 0
    ensures (exists a :: Can(l, a) && !a.Spawn?) <==> !BlocksForever(l)
  {
    match l.phase
    case Top => assert Can(l, Enter);
    case Picking => assert Can(l, TryPick);
    case InCoroutine => assert Can(l, CoYield);
    case Blocked(wait) =>
      if ToInt(wait) >= 0 {
        assert Can(l, Return(l.time + ToInt(wait)));
      }
    case _ =>
      if l.s.timers == multiset{} {
        assert Can(l, LookEmpty);
      } else {
        var t :| t in l.s.timers;
        assert Can(l, Look(l.time, t));
      }
  }

  ghost predicate SleepsAtMost(acts: seq<Step>, limit: int) {
    forall i :: 0 <= i < |acts| && acts[i].CoSleep? ==> acts[i].ms <= limit
  }

  ghost predicate DeadlinesWithin(l: Loop, limit: int) {
    && (forall t :: t in l.s.timers ==> t.when <= l.time + limit)
    && (l.phase.Blocked? && l.s.timers != multiset{} ==> l.phase.wait <= limit)
  }

  /** Only a sleep adds a timer, and the clock never goes back. */
  lemma TimersStep(l: Loop, a: Step)
    requires Can(l, a)
    ensures Next(l, a).time >= l.time
    ensures forall t :: t in Next(l, a).s.timers ==> t in l.s.timers || (a.CoSleep? && t.when == a.now + a.ms)
    ensures a.CoSleep? ==> Next(l, a).time == a.now
  {
    StepIsAction(l, a);
  }

  lemma DeadlinesStep(l: Loop, a: Step, limit: int)
    requires Can(l, a) && DeadlinesWithin(l, limit) && (a.CoSleep? ==> a.ms <= limit)
    ensures DeadlinesWithin(Next(l, a), limit)
  {
    TimersStep(l, a);
    WaitStep(l, a, limit);
  }

  lemma WaitStep(l: Loop, a: Step, limit: int)
    requires Can(l, a) && DeadlinesWithin(l, limit)
    ensures Next(l, a).phase.Blocked? && Next(l, a).s.timers != multiset{} ==> Next(l, a).phase.wait <= limit
  {
  }

  lemma {:induction false} DeadlinesHold(run: seq<Loop>, acts: seq<Step>, limit: int, k: nat)
    requires IsLoopRun(run, acts) && SleepsAtMost(acts, limit) && k <= |acts|
    ensures DeadlinesWithin(run[k], limit)
  {
    if k > 0 {
      DeadlinesHold(run, acts, limit, k - 1);
      DeadlinesStep(run[k - 1], acts[k - 1], limit);
    }
  }

  /** With sleeps below 2^31 ms every wait reaches epoll_pwait unchanged. */
  lemma ShortSleepsShortWaits(run: seq<Loop>, acts: seq<Step>, limit: int, k: nat)
    requires IsLoopRun(run, acts) && SleepsAtMost(acts, limit) && limit < TWO_31 && k <= |acts| && run[k].phase.Blocked?
    ensures 0 <= run[k].phase.wait < TWO_31 && ToInt(run[k].phase.wait) == run[k].phase.wait
  {
    LoopPhase(run, acts, k);
    DeadlinesHold(run, acts, limit, k);
    TimeoutExactIff(run[k].phase.wait);
  }

  /** A lone coroutine sleeps for ms, and the loop blocks with that wait: the states and steps of the run. */
  function LoneAt(ms: int, i: int): Loop {
    var asleep := State([], [0], None, 1, multiset{Timer(ms, 0)}, {0});
    match i
    case 0 => Loop(EMPTY, Top, 0)
    case 1 => Loop(State([0], [], None, 1, multiset{}, {0}), Top, 0)
    case 2 => Loop(State([0], [], None, 1, multiset{}, {0}), Picking, 0)
    case 3 => Loop(State([], [], Some(0), 1, multiset{}, {0}), InCoroutine, 0)
    case 4 => Loop(asleep, Top, 0)
    case 5 => Loop(asleep, Picking, 0)
    case 6 => Loop(asleep, FirstPass, 0)
    case _ => Loop(asleep, Blocked(ms), 0)
  }

  function LoneStep(ms: int, i: int): Step {
    match i
    case 0 => Spawn(0)
    case 1 => Enter
    case 2 => TryPick
    case 3 => CoSleep(0, ms)
    case 4 => Enter
    case 5 => TryPick
    case _ => Look(0, Timer(ms, 0))
  }

  lemma LoneNext(ms: int, i: nat)
    requires ms > 0 && i < 7
    ensures Can(LoneAt(ms, i), LoneStep(ms, i)) && LoneAt(ms, i + 1) == Next(LoneAt(ms, i), LoneStep(ms, i))
    ensures InOrder(LoneAt(ms, i), LoneStep(ms, i))
  {
    assert multiset{} + multiset{Timer(ms, 0)} == multiset{Timer(ms, 0)};
  }

  lemma LoneSleeper(ms: int) returns (run: seq<Loop>, acts: seq<Step>)
    requires ms > 0
    ensures IsLoopRun(run, acts) && InDeadlineOrder(run, acts) && SleepsAtMost(acts, ms)
    ensures |acts| == 7 && run[7] == LoneAt(ms, 7) && TurnAt(run, acts, 7).news == []
  {
    run, acts := seq(8, i => LoneAt(ms, i)), seq(7, i => LoneStep(ms, i));
    forall i | 0 <= i < |acts|
      ensures Can(run[i], acts[i]) && run[i + 1] == Next(run[i], acts[i]) && InOrder(run[i], acts[i])
    {
      LoneNext(ms, i);
    }
    assert TurnAt(run, acts, 6).news == [];
  }

  /** A sleep of 2^31 ms, although it is the only one, is never woken. */
  lemma SleepForever() returns (run: seq<Loop>, acts: seq<Step>)
    ensures IsLoopRun(run, acts) && InDeadlineOrder(run, acts) && SleepsAtMost(acts, TWO_31)
    ensures BlocksForever(run[|acts|])
  {
    run, acts := LoneSleeper(TWO_31);
  }

  ghost predicate NeverBlocksForever(limit: int) {
    forall run: seq<Loop>, acts: seq<Step>, k: nat ::
      IsLoopRun(run, acts) && SleepsAtMost(acts, limit) && k <= |acts| ==> !BlocksForever(run[k])
  }

  /** The loop never blocks for ever exactly for programs whose sleeps are shorter than 2^31 ms. */
  lemma NeverBlocksForeverIff(limit: int)
    ensures NeverBlocksForever(limit) <==> limit < TWO_31
  {
    if limit < TWO_31 {
      forall run: seq<Loop>, acts: seq<Step>, k: nat
        | IsLoopRun(run, acts) && SleepsAtMost(acts, limit) && k <= |acts|
        ensures !BlocksForever(run[k])
      {
        if run[k].phase.Blocked? {
          ShortSleepsShortWaits(run, acts, limit, k);
        }
      }
    } else {
      var run, acts := SleepForever();
      assert SleepsAtMost(acts, limit) && BlocksForever(run[|acts|]);
    }
  }

  lemma RunGoesOn(run: seq<Loop>, acts: seq<Step>, a: Step)
    requires IsLoopRun(run, acts) && Can(run[|acts|], a)
    ensures IsLoopRun(run + [Next(run[|acts|], a)], acts + [a])
  {
    var run', acts' := run + [Next(run[|acts|], a)], acts + [a];
    forall i | 0 <= i < |acts'| ensures Can(run'[i], acts'[i]) && run'[i + 1] == Next(run'[i], acts'[i]) {
      if i < |acts| {
        assert Can(run[i], acts[i]) && run[i + 1] == Next(run[i], acts[i]);
      }
    }
  }

  lemma {:induction false} TurnOfPrefix(run: seq<Loop>, acts: seq<Step>, l: Loop, a: Step, k: nat)
    requires k <= |acts| < |run|
    ensures TurnAt(run + [l], acts + [a], k) == TurnAt(run, acts, k)
  {
    if k > 0 {
      TurnOfPrefix(run, acts, l, a, k - 1);
    }
  }

  /** A coroutine created while the loop blocks is ready for as long as the other one sleeps, though nothing has fired. */
  lemma CreatedWhileBlocked(ms: int) returns (run: seq<Loop>, acts: seq<Step>)
    requires 0 < ms < TWO_31
    ensures IsLoopRun(run, acts) && run[|acts|].phase == Blocked(ms) && run[|acts|].s.ready == [1]
    ensures !SomeWoken(TurnAt(run, acts, |acts|).news)
    ensures forall now :: Can(run[|acts|], Return(now)) <==> now >= run[|acts|].time + ms
  {
    run, acts := LoneSleeper(ms);
    var l := Next(run[7], Spawn(1));
    RunGoesOn(run, acts, Spawn(1));
    TurnOfPrefix(run, acts, l, Spawn(1), 7);
    TimeoutExactIff(ms);
    run, acts := run + [l], acts + [Spawn(1)];
    assert TurnAt(run, acts, 8).news == [Created(1)];
  }
}
