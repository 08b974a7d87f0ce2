/**
 The thread pool of src/threadpool/threadpool.c as a step system.  Each critical
 section is one atomic step; `lock` says who holds pool->lock between the steps
 of a submit or a shutdown, so a worker may run between creating its thread and
 queueing its first work.  A condition variable may also wake spuriously.
 */
module ThreadPool {
  import opened Seqs

  datatype Status = Running | Stopping | Stopped

  /** A queued `struct work`: id stands for its address, fresh for every submit. */
  datatype Work = Work(id: nat, task: nat)

  datatype Worker =
    | Ready          // about to lock the queue in workqueue_get
    | Waiting        // in pthread_cond_wait, not signalled
    | Signalled      // woken, about to test the queue again
    | Busy(work: Work)
    | Leaving        // workqueue_get returned NULL; about to lock the pool
    | Gone

  /** A caller of threadpool_wait. */
  datatype Waiter = Asleep | Awake | Returned

  /** Who holds pool->lock between two steps. */
  datatype Lock = Free | Submitting(task: nat) | StopBegun | StopDone

  datatype State = State(
    maxThreads: int, threadsNum: int, status: Status,
    queue: seq<Work>, num: int, wqStatus: Status,
    lock: Lock, workers: seq<Worker>, waiters: seq<Waiter>,
    accepted: seq<Work>, started: seq<Work>, finished: seq<Work>)

  /** `woken` names the thread a pthread_cond_signal picks; `created` the result of pthread_create. */
  datatype Action =
    | Submit(task: nat, created: bool)
    | Put(woken: nat)
    | Shutdown
    | StopQueue
    | StopEnd(woken: nat)
    | Get(w: nat)
    | Finish(w: nat)
    | Leave(w: nat, woken: nat)
    | Spurious(w: nat)
    | Wait
    | Rewait(c: nat)
    | SpuriousWait(c: nat)

  /** `threadpool_create(maxThreads)` on a machine with cpus processors. */
  function Create(maxThreads: int, cpus: nat): State {
    State(Min(cpus * 3, maxThreads), 0, Running, [], 0, Running, Free, [], [], [], [], [])
  }

  function SignalWorker(ws: seq<Worker>, k: nat): seq<Worker> {
    if k < |ws| && ws[k].Waiting? then ws[k := Signalled] else ws
  }

  function Broadcast(ws: seq<Worker>): (r: seq<Worker>)
    ensures |r| == |ws|
    ensures forall i :: 0 <= i < |ws| ==> r[i] == if ws[i].Waiting? then Signalled else ws[i]
  {
    if ws == [] then []
    else [if ws[0].Waiting? then Signalled else ws[0]] + Broadcast(ws[1..])
  }

  function SignalWaiter(cs: seq<Waiter>, k: nat): seq<Waiter> {
    if k < |cs| && cs[k].Asleep? then cs[k := Awake] else cs
  }

  /** pthread_cond_signal wakes some sleeper if there is one. */
  ghost predicate PicksWorker(ws: seq<Worker>, k: nat) {
    Waiting in ws ==> k < |ws| && ws[k].Waiting?
  }

  ghost predicate PicksWaiter(cs: seq<Waiter>, k: nat) {
    Asleep in cs ==> k < |cs| && cs[k].Asleep?
  }

  ghost predicate Enabled(s: State, a: Action) {
    match a
    case Submit(_, _) => s.lock.Free?
    case Put(woken) => s.lock.Submitting? && (s.num == 0 ==> PicksWorker(s.workers, woken))
    case Shutdown => s.lock.Free?
    case StopQueue => s.lock.StopBegun?
    case StopEnd(woken) => s.lock.StopDone? && (s.threadsNum == 0 ==> PicksWaiter(s.waiters, woken))
    case Get(w) => w < |s.workers| && (s.workers[w].Ready? || s.workers[w].Signalled?)
    case Finish(w) => w < |s.workers| && s.workers[w].Busy?
    case Leave(w, woken) => w < |s.workers| && s.workers[w].Leaving? && s.lock.Free?
                            && (s.threadsNum == 1 ==> PicksWaiter(s.waiters, woken))
    case Spurious(w) => w < |s.workers| && s.workers[w].Waiting?
    case Wait => s.lock.Free?
    case Rewait(c) => c < |s.waiters| && s.waiters[c].Awake? && s.lock.Free?
    case SpuriousWait(c) => c < |s.waiters| && s.waiters[c].Asleep?
  }

  /** threadpool_submit up to the call of workqueue_put; a failed submit changes nothing. */
  function SubmitStep(s: State, task: nat, created: bool): State {
    if s.status != Running then s
    else if s.threadsNum < s.maxThreads then
      if !created then s
      else s.(workers := s.workers + [Ready], threadsNum := s.threadsNum + 1, lock := Submitting(task))
    else s.(lock := Submitting(task))
  }

  /** workqueue_put: signal only if the queue was empty. */
  function PutStep(s: State, woken: nat): State
    requires s.lock.Submitting?
  {
    var work := Work(|s.accepted|, s.lock.task);
    s.(queue := s.queue + [work],
       workers := if s.num == 0 then SignalWorker(s.workers, woken) else s.workers,
       num := s.num + 1, lock := Free, accepted := s.accepted + [work])
  }

  /** workqueue_get under wq->lock, up to the wait or the return. */
  function GetStep(s: State, w: nat): State
    requires w < |s.workers|
  {
    if s.num == 0 then
      s.(workers := s.workers[w := if s.wqStatus != Running then Leaving else Waiting])
    else if s.queue == [] then s
    else
      s.(workers := s.workers[w := Busy(s.queue[0])], queue := s.queue[1..], num := s.num - 1,
         started := s.started + [s.queue[0]])
  }

  function StopQueueStep(s: State): State {
    s.(wqStatus := Stopping, workers := Broadcast(s.workers), lock := StopDone)
  }

  function StopEndStep(s: State, woken: nat): State {
    if s.threadsNum == 0
    then s.(status := Stopped, waiters := SignalWaiter(s.waiters, woken), lock := Free)
    else s.(lock := Free)
  }

  /** The end of worker_fn under pool->lock. */
  function LeaveStep(s: State, w: nat, woken: nat): State
    requires w < |s.workers|
  {
    var s1 := s.(threadsNum := s.threadsNum - 1, workers := s.workers[w := Gone]);
    if s1.threadsNum == 0 then s1.(status := Stopped, waiters := SignalWaiter(s.waiters, woken))
    else s1
  }

  function Apply(s: State, a: Action): State
    requires Enabled(s, a)
  {
    match a
    case Submit(task, created) => SubmitStep(s, task, created)
    case Put(woken) => PutStep(s, woken)
    case Shutdown => s.(status := Stopping, lock := StopBegun)
    case StopQueue => StopQueueStep(s)
    case StopEnd(woken) => StopEndStep(s, woken)
    case Get(w) => GetStep(s, w)
    case Finish(w) => s.(workers := s.workers[w := Ready], finished := s.finished + [s.workers[w].work])
    case Leave(w, woken) => LeaveStep(s, w, woken)
    case Spurious(w) => s.(workers := s.workers[w := Signalled])
    case Wait => s.(waiters := s.waiters + [if s.status == Stopped then Returned else Asleep])
    case Rewait(c) => s.(waiters := s.waiters[c := if s.status == Stopped then Returned else Asleep])
    case SpuriousWait(c) => s.(waiters := s.waiters[c := Awake])
  }

  // ------------------------------------------------------------- the invariant

  /** A worker that will look at the queue again without being woken. */
  predicate Active(w: Worker) {
    w.Ready? || w.Signalled? || w.Busy?
  }

  function Live(ws: seq<Worker>): nat {
    if ws == [] then 0 else (if ws[0].Gone? then 0 else 1) + Live(ws[1..])
  }

  ghost predicate HasActive(ws: seq<Worker>) {
    exists i :: 0 <= i < |ws| && Active(ws[i])
  }

  /** Thread accounting and the two statuses. */
  ghost predicate ThreadsOk(s: State) {
    && s.threadsNum == Live(s.workers)
    && (s.threadsNum <= s.maxThreads || s.threadsNum == 0)
    && (s.lock.StopBegun? ==> s.status == Stopping)
    && (s.lock.StopDone? ==> s.status == Stopping && s.wqStatus == Stopping)
    && (!s.lock.StopBegun? ==> (s.status == Running <==> s.wqStatus == Running))
    && (s.lock.Submitting? ==> s.status == Running)
    && s.wqStatus != Stopped
    && (s.status == Stopped ==> s.lock.Free? && s.threadsNum == 0)
    && (s.lock.Free? && s.wqStatus == Stopping && s.threadsNum == 0 ==> s.status == Stopped)
  }

  /** When workers may wait, leave, or be missing. */
  ghost predicate WakeupOk(s: State) {
    && (forall i :: 0 <= i < |s.workers| && s.workers[i].Waiting? ==> s.wqStatus == Running)
    && (forall i :: 0 <= i < |s.workers| && (s.workers[i].Leaving? || s.workers[i].Gone?) ==>
                      s.wqStatus == Stopping && s.queue == [])
    && (s.maxThreads >= 1 && s.lock.Submitting? ==> s.workers != [])
    && (s.maxThreads >= 1 && s.queue != [] ==> HasActive(s.workers))
  }

  ghost predicate QueueOk(s: State) {
    && s.num == |s.queue|
    && s.started + s.queue == s.accepted
    && forall i :: 0 <= i < |s.accepted| ==> s.accepted[i].id == i
  }

  ghost predicate RunsOk(s: State) {
    && NoDup(s.finished)
    && (forall x :: x in s.finished ==> x in s.started)
    && (forall x :: x in s.started ==> x in s.finished || Busy(x) in s.workers)
    && (forall i :: 0 <= i < |s.workers| && s.workers[i].Busy? ==>
                      s.workers[i].work in s.started && s.workers[i].work !in s.finished)
    && (forall i, j :: 0 <= i < j < |s.workers| && s.workers[i].Busy? && s.workers[j].Busy? ==>
                         s.workers[i].work != s.workers[j].work)
  }

  /** Once the pool has stopped, some waiter has been woken if any is asleep. */
  ghost predicate WaitersOk(s: State) {
    s.status == Stopped && Asleep in s.waiters ==>
      exists c :: 0 <= c < |s.waiters| && !s.waiters[c].Asleep?
  }

  ghost predicate Inv(s: State) {
    ThreadsOk(s) && WakeupOk(s) && QueueOk(s) && RunsOk(s) && WaitersOk(s)
  }

  // ------------------------------------------------------- every step keeps it

  lemma LiveUpdate(ws: seq<Worker>, i: nat, w: Worker)
    requires i < |ws|
    ensures Live(ws[i := w]) == Live(ws) - (if ws[i].Gone? then 0 else 1) + (if w.Gone? then 0 else 1)
  {
    if i == 0 {
      assert ws[0 := w][1..] == ws[1..];
    } else {
      assert ws[i := w][1..] == ws[1..][i - 1 := w];
      LiveUpdate(ws[1..], i - 1, w);
    }
  }

  lemma LiveAppend(ws: seq<Worker>, w: Worker)
    ensures Live(ws + [w]) == Live(ws) + (if w.Gone? then 0 else 1)
  {
    if ws == [] {
      assert [] + [w] == [w] && [w][1..] == [];
    } else {
      assert (ws + [w])[1..] == ws[1..] + [w];
      LiveAppend(ws[1..], w);
    }
  }

  lemma LiveBroadcast(ws: seq<Worker>)
    ensures Live(Broadcast(ws)) == Live(ws)
  {
    if ws != [] {
      assert Broadcast(ws)[1..] == Broadcast(ws[1..]);
      LiveBroadcast(ws[1..]);
    }
  }

  lemma LiveZero(ws: seq<Worker>)
    ensures Live(ws) == 0 <==> forall i :: 0 <= i < |ws| ==> ws[i].Gone?
  {
    if ws != [] {
      LiveZero(ws[1..]);
      assert forall i :: 0 < i < |ws| ==> ws[i] == ws[1..][i - 1];
    }
  }

  lemma SubmitKeeps(s: State, task: nat, created: bool)
    requires Inv(s) && s.lock.Free?
    ensures Inv(SubmitStep(s, task, created))
  {
    var s' := SubmitStep(s, task, created);
    LiveAppend(s.workers, Ready);
    if s'.lock.Submitting? {
      if s.threadsNum < s.maxThreads {
        assert s'.workers[|s.workers|] == Ready;
        assert forall x :: Busy(x) in s.workers ==> Busy(x) in s'.workers;
      } else if s.maxThreads >= 1 {
        assert s.workers != [];
      }
    }
  }

  lemma PutKeeps(s: State, woken: nat)
    requires Inv(s) && Enabled(s, Put(woken))
    ensures Inv(PutStep(s, woken))
    ensures s.queue != [] ==> PutStep(s, woken).workers == s.workers
  {
    var s' := PutStep(s, woken);
    if s.num == 0 && woken < |s.workers| && s.workers[woken].Waiting? {
      LiveUpdate(s.workers, woken, Signalled);
      BusyUnchanged(s.workers, woken, Signalled);
      assert Active(s'.workers[woken]);
    } else if s.num == 0 && s.maxThreads >= 1 {
      assert s.workers[0] in s.workers;
      assert Active(s'.workers[0]);
    }
    assert s'.started + s'.queue == s'.accepted;
  }

  /** Moving one idle worker changes no busy one. */
  lemma BusyUnchanged(ws: seq<Worker>, k: nat, w: Worker)
    requires k < |ws| && !ws[k].Busy? && !w.Busy?
    ensures forall x :: Busy(x) in ws <==> Busy(x) in ws[k := w]
  {
    forall x | Busy(x) in ws ensures Busy(x) in ws[k := w] {
      var i :| 0 <= i < |ws| && ws[i] == Busy(x);
      assert ws[k := w][i] == Busy(x);
    }
  }

  lemma GetKeeps(s: State, w: nat)
    requires Inv(s) && Enabled(s, Get(w))
    ensures Inv(GetStep(s, w))
  {
    var s' := GetStep(s, w);
    LiveUpdate(s.workers, w, s'.workers[w]);
    if s.num == 0 {
      BusyUnchanged(s.workers, w, s'.workers[w]);
    } else {
      assert Active(s'.workers[w]);
      assert s'.started + s'.queue == s'.accepted;
      TakeKeepsRuns(s, w);
    }
  }

  lemma TakeKeepsRuns(s: State, w: nat)
    requires QueueOk(s) && RunsOk(s) && s.queue != [] && Enabled(s, Get(w))
    ensures RunsOk(GetStep(s, w))
  {
    var s', x := GetStep(s, w), s.queue[0];
    assert x !in s.started by {
      assert s.accepted[|s.started|] == x;
      assert forall i :: 0 <= i < |s.started| ==> s.accepted[i] == s.started[i];
    }
    assert s'.workers[w] == Busy(x) && x in s'.started;
    forall y | y in s'.started ensures y in s'.finished || Busy(y) in s'.workers {
      if y != x && y !in s.finished {
        var i :| 0 <= i < |s.workers| && s.workers[i] == Busy(y);
        assert s'.workers[i] == Busy(y);
      }
    }
  }

  lemma FinishKeeps(s: State, w: nat)
    requires Inv(s) && Enabled(s, Finish(w))
    ensures Inv(Apply(s, Finish(w)))
  {
    var s', x := Apply(s, Finish(w)), s.workers[w].work;
    LiveUpdate(s.workers, w, Ready);
    assert Active(s'.workers[w]);
    assert x in s'.finished;
    forall y | y in s'.started ensures y in s'.finished || Busy(y) in s'.workers {
      if y != x && y !in s.finished {
        var i :| 0 <= i < |s.workers| && s.workers[i] == Busy(y);
        assert s'.workers[i] == Busy(y);
      }
    }
  }

  lemma StopQueueKeeps(s: State)
    requires Inv(s) && s.lock.StopBegun?
    ensures Inv(StopQueueStep(s))
  {
    LiveBroadcast(s.workers);
    BroadcastKeepsBusy(s.workers);
    StopKeepsRuns(s);
    if i :| 0 <= i < |s.workers| && Active(s.workers[i]) {
      assert Active(StopQueueStep(s).workers[i]);
    }
  }

  lemma BroadcastKeepsBusy(ws: seq<Worker>)
    ensures forall x :: Busy(x) in Broadcast(ws) <==> Busy(x) in ws
  {
    forall x | Busy(x) in ws ensures Busy(x) in Broadcast(ws) {
      var i :| 0 <= i < |ws| && ws[i] == Busy(x);
      assert Broadcast(ws)[i] == Busy(x);
    }
  }

  lemma StopKeepsRuns(s: State)
    requires RunsOk(s)
    ensures RunsOk(StopQueueStep(s))
  {
    BroadcastKeepsBusy(s.workers);
  }

  lemma LeaveKeeps(s: State, w: nat, woken: nat)
    requires Inv(s) && Enabled(s, Leave(w, woken))
    ensures Inv(LeaveStep(s, w, woken))
  {
    var s' := LeaveStep(s, w, woken);
    LiveUpdate(s.workers, w, Gone);
    BusyUnchanged(s.workers, w, Gone);
    if s'.status == Stopped && Asleep in s.waiters {
      assert !s'.waiters[woken].Asleep?;
    }
  }

  lemma StopEndKeeps(s: State, woken: nat)
    requires Inv(s) && Enabled(s, StopEnd(woken))
    ensures Inv(StopEndStep(s, woken))
  {
    var s' := StopEndStep(s, woken);
    if s'.status == Stopped && Asleep in s.waiters {
      assert !s'.waiters[woken].Asleep?;
    }
  }

  lemma WaiterKeeps(s: State, a: Action)
    requires Inv(s) && Enabled(s, a) && (a.Wait? || a.Rewait? || a.SpuriousWait?)
    ensures Inv(Apply(s, a))
  {
    var s' := Apply(s, a);
    match a
    case Wait =>
      if s.status == Stopped {
        assert !s'.waiters[|s.waiters|].Asleep?;
      }
    case Rewait(c) => assert s.status == Stopped ==> !s'.waiters[c].Asleep?;
    case SpuriousWait(c) => assert !s'.waiters[c].Asleep?;
  }

  lemma StepKeeps(s: State, a: Action)
    requires Inv(s) && Enabled(s, a)
    ensures Inv(Apply(s, a))
  {
    match a
    case Submit(task, created) => SubmitKeeps(s, task, created);
    case Put(woken) => PutKeeps(s, woken);
    case Shutdown =>
    case StopQueue => StopQueueKeeps(s);
    case StopEnd(woken) => StopEndKeeps(s, woken);
    case Get(w) => GetKeeps(s, w);
    case Finish(w) => FinishKeeps(s, w);
    case Leave(w, woken) => LeaveKeeps(s, w, woken);
    case Spurious(w) =>
      LiveUpdate(s.workers, w, Signalled);
      BusyUnchanged(s.workers, w, Signalled);
      assert Active(Apply(s, a).workers[w]);
    case Wait => WaiterKeeps(s, a);
    case Rewait(_) => WaiterKeeps(s, a);
    case SpuriousWait(_) => WaiterKeeps(s, a);
  }

  // ----------------------------------------------------------------- whole runs

  ghost predicate Init(s: State) {
    exists m: int, cpus: nat :: s == Create(m, cpus)
  }

  ghost predicate IsRun(run: seq<State>, acts: seq<Action>) {
    && |run| == |acts| + 1 && Init(run[0])
    && forall i :: 0 <= i < |acts| ==>
                     Enabled(run[i], acts[i]) && run[i + 1] == Apply(run[i], acts[i])
  }

  lemma {:induction false} RunKeeps(run: seq<State>, acts: seq<Action>, k: nat)
    requires IsRun(run, acts) && k <= |acts|
    ensures Inv(run[k]) && run[k].maxThreads == run[0].maxThreads
  {
    if k > 0 {
      RunKeeps(run, acts, k - 1);
      StepKeeps(run[k - 1], acts[k - 1]);
    }
  }

  /** No lost wakeup, although only the put into an empty queue signals. */
  lemma NoLostWakeup(run: seq<State>, acts: seq<Action>, k: nat)
    requires IsRun(run, acts) && k <= |acts| && run[0].maxThreads >= 1
    requires run[k].queue != []
    ensures exists i :: 0 <= i < |run[k].workers| && Active(run[k].workers[i])
  {
    RunKeeps(run, acts, k);
  }

  /** Works leave the queue in the order in which they were accepted, and num is the queue's length. */
  lemma QueueIsFifo(run: seq<State>, acts: seq<Action>, k: nat)
    requires IsRun(run, acts) && k <= |acts|
    ensures run[k].started + run[k].queue == run[k].accepted
    ensures run[k].num == |run[k].queue|
    ensures forall i, j :: 0 <= i < j < |run[k].accepted| ==> run[k].accepted[i] != run[k].accepted[j]
    ensures run[k].threadsNum < run[k].maxThreads ==> |run[k].workers| == run[k].threadsNum || run[k].wqStatus != Running
  {
    RunKeeps(run, acts, k);
    NoneGone(run[k].workers);
  }

  /** Without leavers the live workers are all workers, so threads[threads_num] is the next free slot. */
  lemma NoneGone(ws: seq<Worker>)
    ensures (forall i :: 0 <= i < |ws| ==> !ws[i].Gone?) ==> Live(ws) == |ws|
  {
    if ws != [] {
      NoneGone(ws[1..]);
      assert forall i :: 0 < i < |ws| ==> ws[i] == ws[1..][i - 1];
    }
  }

  /** In a stopped pool the queue is empty and every accepted work has run exactly once. */
  lemma StoppedMeansDone(run: seq<State>, acts: seq<Action>, k: nat)
    requires IsRun(run, acts) && k <= |acts| && run[0].maxThreads >= 1
    requires run[k].status == Stopped
    ensures run[k].queue == []
    ensures NoDup(run[k].finished)
    ensures forall x :: x in run[k].finished <==> x in run[k].accepted
    ensures forall i :: 0 <= i < |run[k].workers| ==> run[k].workers[i].Gone?
  {
    RunKeeps(run, acts, k);
    LiveZero(run[k].workers);
    assert run[k].started == run[k].accepted;
  }

  ghost predicate AlwaysDrains(maxThreads: int) {
    forall run: seq<State>, acts: seq<Action>, k: nat ::
      IsRun(run, acts) && run[0].maxThreads == maxThreads && k <= |acts| && run[k].status == Stopped ==>
        run[k].queue == []
  }

  /**
   The drain guarantee holds exactly for pools of at least one thread: with none,
   a submit still returns 0 and its work is never run.
   */
  lemma DrainsIffSomeThread(m: int)
    ensures AlwaysDrains(m) <==> m >= 1
  {
    if m >= 1 {
      forall run: seq<State>, acts: seq<Action>, k: nat |
        IsRun(run, acts) && run[0].maxThreads == m && k <= |acts| && run[k].status == Stopped
        ensures run[k].queue == []
      {
        StoppedMeansDone(run, acts, k);
      }
    } else {
      var run, acts := ThreadlessRun(m, 7);
      assert run[5].status == Stopped && run[5].queue != [];
    }
  }

  /** Without threads: submit, then shut down; the accepted work is still queued in the stopped pool. */
  lemma ThreadlessRun(m: int, task: nat) returns (run: seq<State>, acts: seq<Action>)
    requires m <= 0
    ensures IsRun(run, acts) && |acts| == 5 && run[0] == Create(m, 1) && run[0].maxThreads == m
    ensures run[5].status == Stopped && run[5].queue == run[5].accepted == [Work(0, task)]
  {
    var s0 := Create(m, 1);
    var s1 := s0.(lock := Submitting(task));
    var s2 := s0.(queue := [Work(0, task)], num := 1, accepted := [Work(0, task)]);
    var s3 := s2.(status := Stopping, lock := StopBegun);
    var s4 := s3.(wqStatus := Stopping, lock := StopDone);
    var s5 := s4.(status := Stopped, lock := Free);
    run, acts := [s0, s1, s2, s3, s4, s5], [Submit(task, true), Put(0), Shutdown, StopQueue, StopEnd(0)];
    assert Apply(s0, acts[0]) == s1;
    assert Apply(s1, acts[1]) == s2;
    assert Apply(s2, acts[2]) == s3;
    assert Apply(s3, acts[3]) == s4;
    assert Apply(s4, acts[4]) == s5;
  }

  // ------------------------------------------------------------ creating threads

  /** While the pool runs, there is a worker for each submit that has succeeded, up to the limit. */
  ghost predicate WorkersGrown(s: State) {
    s.status == Running && s.maxThreads >= 0 ==>
      |s.workers| == Min(|s.accepted| + (if s.lock.Submitting? then 1 else 0), s.maxThreads)
  }

  lemma WorkersGrowStep(s: State, a: Action)
    requires Inv(s) && Enabled(s, a) && WorkersGrown(s)
    ensures WorkersGrown(Apply(s, a))
  {
    if s.status == Running && a.Submit? {
      NoneGone(s.workers);
    }
  }

  /** Threads are created lazily, one for each successful submit until the limit is reached, and never more. */
  lemma {:induction false} OneThreadPerSubmit(run: seq<State>, acts: seq<Action>, k: nat)
    requires IsRun(run, acts) && k <= |acts|
    ensures WorkersGrown(run[k])
  {
    if k > 0 {
      OneThreadPerSubmit(run, acts, k - 1);
      RunKeeps(run, acts, k - 1);
      WorkersGrowStep(run[k - 1], acts[k - 1]);
    }
  }

  /** The limit is the smaller of the argument and three times the processors. */
  lemma CreateLimits(m: int, cpus: nat)
    ensures var s := Create(m, cpus);
            && s.maxThreads <= m && s.maxThreads <= 3 * cpus && (s.maxThreads == m || s.maxThreads == 3 * cpus)
            && s.status == s.wqStatus == Running && s.workers == [] && s.queue == []
  {
  }

  // ------------------------------------------------------------ after shutdown

  function Weight(w: Worker): nat {
    match w
    case Gone => 0
    case Waiting => 0
    case Leaving => 1
    case Busy(_) => 3
    case _ => 2
  }

  function TotalWeight(ws: seq<Worker>): nat {
    if ws == [] then 0 else Weight(ws[0]) + TotalWeight(ws[1..])
  }

  /** What the workers have left to do, if nobody gives them more. */
  function Remaining(s: State): nat {
    2 * |s.queue| + TotalWeight(s.workers)
  }

  predicate IsWorkerStep(a: Action) {
    a.Get? || a.Finish? || a.Leave?
  }

  function WorkerSteps(acts: seq<Action>): nat {
    if acts == [] then 0
    else WorkerSteps(acts[..|acts| - 1]) + (if IsWorkerStep(acts[|acts| - 1]) then 1 else 0)
  }

  lemma WeightUpdate(ws: seq<Worker>, i: nat, w: Worker)
    requires i < |ws|
    ensures TotalWeight(ws[i := w]) == TotalWeight(ws) - Weight(ws[i]) + Weight(w)
  {
    if i == 0 {
      assert ws[0 := w][1..] == ws[1..];
    } else {
      assert ws[i := w][1..] == ws[1..][i - 1 := w];
      WeightUpdate(ws[1..], i - 1, w);
    }
  }

  /** Nothing to wake: a broadcast without waiters changes nothing. */
  lemma BroadcastIdle(ws: seq<Worker>)
    requires Waiting !in ws
    ensures Broadcast(ws) == ws
  {
  }

  /** Each worker step after the stop uses up at least one unit; no other step adds any, and none accepts work. */
  lemma StepAfterStop(s: State, a: Action)
    requires Inv(s) && Enabled(s, a) && s.wqStatus != Running
    ensures Apply(s, a).wqStatus != Running && Apply(s, a).accepted == s.accepted
    ensures Remaining(Apply(s, a)) + (if IsWorkerStep(a) then 1 else 0) <= Remaining(s)
    ensures !a.Spurious?
  {
    match a
    case Get(w) => WeightUpdate(s.workers, w, GetStep(s, w).workers[w]);
    case Finish(w) => WeightUpdate(s.workers, w, Ready);
    case Leave(w, _) => WeightUpdate(s.workers, w, Gone);
    case StopQueue => BroadcastIdle(s.workers);
    case _ =>
  }

  lemma NobodyWaitsAfterStop(run: seq<State>, acts: seq<Action>, k: nat)
    requires IsRun(run, acts) && k <= |acts| && run[k].wqStatus != Running
    ensures Waiting !in run[k].workers
  {
    RunKeeps(run, acts, k);
  }

  /** Every step from i on that starts after the stop accepts no work and spends what it should. */
  ghost predicate SpendsFrom(run: seq<State>, acts: seq<Action>, i: nat) {
    && |run| == |acts| + 1
    && forall k {:trigger acts[k]} :: i <= k < |acts| && run[k].wqStatus != Running ==>
         && run[k + 1].wqStatus != Running && run[k + 1].accepted == run[k].accepted
         && Remaining(run[k + 1]) + (if IsWorkerStep(acts[k]) then 1 else 0) <= Remaining(run[k])
  }

  lemma RunSpends(run: seq<State>, acts: seq<Action>)
    requires IsRun(run, acts)
    ensures SpendsFrom(run, acts, 0)
  {
    forall k | 0 <= k < |acts| && run[k].wqStatus != Running
      ensures run[k + 1].wqStatus != Running && run[k + 1].accepted == run[k].accepted
      ensures Remaining(run[k + 1]) + (if IsWorkerStep(acts[k]) then 1 else 0) <= Remaining(run[k])
    {
      RunKeeps(run, acts, k);
      StepAfterStop(run[k], acts[k]);
    }
  }

  lemma {:induction false} SpendingAddsUp(run: seq<State>, acts: seq<Action>, i: nat, j: nat)
    requires SpendsFrom(run, acts, i) && i <= j <= |acts| && run[i].wqStatus != Running
    ensures run[j].wqStatus != Running && run[j].accepted == run[i].accepted
    ensures Remaining(run[j]) + WorkerSteps(acts[i..j]) <= Remaining(run[i])
  {
    if i < j {
      SpendingAddsUp(run, acts, i, j - 1);
      var part := acts[i..j];
      assert part[..|part| - 1] == acts[i..j - 1] && part[|part| - 1] == acts[j - 1];
    }
  }

  /**
   From the moment the queue is stopped no work is accepted, and the rest of the
   run has at most Remaining worker steps.
   */
  lemma DrainIsBounded(run: seq<State>, acts: seq<Action>, i: nat, j: nat)
    requires IsRun(run, acts) && i <= j <= |acts| && run[i].wqStatus != Running
    ensures run[j].wqStatus != Running && run[j].accepted == run[i].accepted
    ensures Remaining(run[j]) + WorkerSteps(acts[i..j]) <= Remaining(run[i])
  {
    RunSpends(run, acts);
    SpendingAddsUp(run, acts, i, j);
  }

  /** A step that gives the workers nothing to do: no work, no new worker, no wakeup. */
  predicate LeavesWorkersAlone(a: Action) {
    !a.Submit? && !a.Put? && !a.StopQueue? && !a.Spurious?
  }

  lemma RestStep(s: State, a: Action)
    requires Inv(s) && Enabled(s, a) && LeavesWorkersAlone(a)
    ensures Remaining(Apply(s, a)) + (if IsWorkerStep(a) then 1 else 0) <= Remaining(s)
  {
    match a
    case Get(w) => WeightUpdate(s.workers, w, GetStep(s, w).workers[w]);
    case Finish(w) => WeightUpdate(s.workers, w, Ready);
    case Leave(w, _) => WeightUpdate(s.workers, w, Gone);
    case _ =>
  }

  lemma RestAt(run: seq<State>, acts: seq<Action>, k: nat)
    requires IsRun(run, acts) && k < |acts| && LeavesWorkersAlone(acts[k])
    ensures Remaining(run[k + 1]) + (if IsWorkerStep(acts[k]) then 1 else 0) <= Remaining(run[k])
  {
    RunKeeps(run, acts, k);
    RestStep(run[k], acts[k]);
  }

  /** Each step from i to j spends what it should. */
  ghost predicate Spends(run: seq<State>, acts: seq<Action>, i: nat, j: nat) {
    && j <= |acts| < |run|
    && forall k {:trigger acts[k]} :: i <= k < j ==>
         Remaining(run[k + 1]) + (if IsWorkerStep(acts[k]) then 1 else 0) <= Remaining(run[k])
  }

  lemma {:induction false} SpentAddsUp(run: seq<State>, acts: seq<Action>, i: nat, j: nat)
    requires i <= j && Spends(run, acts, i, j)
    ensures Remaining(run[j]) + WorkerSteps(acts[i..j]) <= Remaining(run[i])
  {
    if i < j {
      SpentAddsUp(run, acts, i, j - 1);
      var part := acts[i..j];
      assert part[..|part| - 1] == acts[i..j - 1] && part[|part| - 1] == acts[j - 1];
    }
  }

  /** Workers do not spin: left alone they make at most Remaining steps, and those without work then sleep or are gone. */
  lemma WorkersComeToRest(run: seq<State>, acts: seq<Action>, i: nat, j: nat)
    requires IsRun(run, acts) && i <= j <= |acts|
    requires forall k :: i <= k < j ==> LeavesWorkersAlone(acts[k])
    ensures Remaining(run[j]) + WorkerSteps(acts[i..j]) <= Remaining(run[i])
  {
    forall k | i <= k < j
      ensures Remaining(run[k + 1]) + (if IsWorkerStep(acts[k]) then 1 else 0) <= Remaining(run[k])
    {
      RestAt(run, acts, k);
    }
    SpentAddsUp(run, acts, i, j);
  }

  /** Until the pool is stopped, a worker can move, or the holder of the pool lock can. */
  lemma DrainNeverStuck(run: seq<State>, acts: seq<Action>, k: nat)
    requires IsRun(run, acts) && k <= |acts| && run[k].wqStatus != Running && run[k].status != Stopped
    ensures || (exists a: Action :: IsWorkerStep(a) && Enabled(run[k], a))
            || (!run[k].lock.Free? && exists a: Action :: (a.StopQueue? || a.StopEnd?) && Enabled(run[k], a))
  {
    var s := run[k];
    RunKeeps(run, acts, k);
    if s.lock.Free? {
      LiveZero(s.workers);
      var w :| 0 <= w < |s.workers| && !s.workers[w].Gone?;
      if s.workers[w].Busy? {
        assert Enabled(s, Finish(w));
      } else if s.workers[w].Leaving? {
        var c := PickWaiter(s.waiters);
        assert Enabled(s, Leave(w, c));
      } else {
        assert Enabled(s, Get(w));
      }
    } else if s.lock.StopBegun? {
      assert Enabled(s, StopQueue);
    } else {
      var c := PickWaiter(s.waiters);
      assert Enabled(s, StopEnd(c));
    }
  }

  ghost function PickWaiter(cs: seq<Waiter>): (k: nat)
    ensures PicksWaiter(cs, k)
  {
    if Asleep in cs then var k :| 0 <= k < |cs| && cs[k].Asleep?; k else 0
  }

  // ------------------------------------------------------------ threadpool_wait

  /** A lone caller of threadpool_wait is never left asleep in a stopped pool. */
  lemma LoneWaiterWakes(run: seq<State>, acts: seq<Action>, k: nat)
    requires IsRun(run, acts) && k <= |acts| && run[k].status == Stopped
    ensures |run[k].waiters| <= 1 ==> Asleep !in run[k].waiters
  {
    RunKeeps(run, acts, k);
  }

  ghost predicate HasReturned(s: State, c: nat) {
    c < |s.waiters| && s.waiters[c].Returned?
  }

  /**
   threadpool_wait returns only from a pool that is done: the step that makes a caller
   return is taken when the queue is empty, every accepted work has run and all
   workers are gone.
   */
  lemma WaitReturnsWhenDone(run: seq<State>, acts: seq<Action>, k: nat, c: nat)
    requires IsRun(run, acts) && k < |acts| && run[0].maxThreads >= 1
    requires HasReturned(run[k + 1], c) && !HasReturned(run[k], c)
    ensures run[k].status == Stopped && run[k].queue == []
    ensures forall x :: x in run[k].accepted ==> x in run[k].finished
    ensures forall i :: 0 <= i < |run[k].workers| ==> run[k].workers[i].Gone?
  {
    ReturnNeedsStop(run[k], acts[k], c);
    StoppedMeansDone(run, acts, k);
  }

  lemma ReturnNeedsStop(s: State, a: Action, c: nat)
    requires Enabled(s, a) && HasReturned(Apply(s, a), c) && !HasReturned(s, c)
    ensures s.status == Stopped
  {
  }

  /** A stopped pool stays stopped, unless somebody shuts it down again, and a caller that looks at it returns for good. */
  lemma StoppedLetsReturn(s: State, a: Action)
    requires Inv(s) && Enabled(s, a) && s.status == Stopped
    ensures a.Wait? ==> HasReturned(Apply(s, a), |s.waiters|)
    ensures a.Rewait? ==> HasReturned(Apply(s, a), a.c)
    ensures forall c: nat :: HasReturned(s, c) ==> HasReturned(Apply(s, a), c)
    ensures !a.Shutdown? ==> Apply(s, a).status == Stopped
  {
  }

  /** Until then a caller that looks goes to sleep, and only the end of the pool or a spurious wakeup ends its sleep. */
  lemma WaiterSleeps(s: State, a: Action)
    requires Enabled(s, a)
    ensures a.Wait? && s.status != Stopped ==> Apply(s, a).waiters == s.waiters + [Asleep]
    ensures a.Rewait? && s.status != Stopped ==> Apply(s, a).waiters == s.waiters[a.c := Asleep]
    ensures forall c :: 0 <= c < |s.waiters| && s.waiters[c].Asleep? && !Apply(s, a).waiters[c].Asleep? ==>
              Apply(s, a).waiters[c].Awake? && (Apply(s, a).status == Stopped || a == SpuriousWait(c))
  {
  }

  ghost predicate AlwaysWakes(n: nat) {
    forall run: seq<State>, acts: seq<Action>, k: nat ::
      IsRun(run, acts) && k <= |acts| && run[k].status == Stopped && |run[k].waiters| == n ==>
        Asleep !in run[k].waiters
  }

  /** Stopping signals the shutdown condition once, so n callers are all woken exactly when n is at most one. */
  lemma WakesIffAtMostOneWaiter(n: nat)
    ensures AlwaysWakes(n) <==> n <= 1
  {
    if n <= 1 {
      forall run: seq<State>, acts: seq<Action>, k: nat |
        IsRun(run, acts) && k <= |acts| && run[k].status == Stopped && |run[k].waiters| == n
        ensures Asleep !in run[k].waiters
      {
        LoneWaiterWakes(run, acts, k);
      }
    } else {
      var run, acts := ManyWaiters(n);
      var s := run[n];
      var stop := [Shutdown, StopQueue, StopEnd(0)];
      var s1 := Apply(s, stop[0]);
      var s2 := Apply(s1, stop[1]);
      var s3 := Apply(s2, stop[2]);
      var run', acts' := run + [s1, s2, s3], acts + stop;
      assert IsRun(run', acts');
      assert run'[n + 3] == s3 && s3.status == Stopped && s3.waiters[1] == Asleep;
    }
  }

  lemma {:induction false} ManyWaiters(n: nat) returns (run: seq<State>, acts: seq<Action>)
    ensures IsRun(run, acts) && |acts| == n
    ensures run[n] == Create(1, 1).(waiters := seq(n, _ => Asleep))
  {
    if n == 0 {
      run, acts := [Create(1, 1)], [];
      assert Create(1, 1).waiters == seq(0, _ => Asleep);
    } else {
      run, acts := ManyWaiters(n - 1);
      var s := Apply(run[n - 1], Wait);
      assert s.waiters == seq(n, _ => Asleep);
      run, acts := run + [s], acts + [Wait];
    }
  }

  // -------------------------------------------------- the critical sections as code

  /**
   `struct threadpool` and its `struct workqueue`.  Each method body is one critical
   section and makes exactly the step Apply describes, so StepKeeps says that it
   keeps Inv(View()).
   */
  class Pool {
    var maxThreads: int
    var threadsNum: int
    var status: Status
    var list: seq<Work>
    var num: int
    var wqStatus: Status
    var lock: Lock
    var workers: seq<Worker>
    var waiters: seq<Waiter>
    ghost var accepted: seq<Work>
    ghost var started: seq<Work>
    ghost var finished: seq<Work>
    var nextId: nat

    ghost function View(): State
      reads this
    {
      State(maxThreads, threadsNum, status, list, num, wqStatus, lock, workers, waiters,
            accepted, started, finished)
    }

    ghost predicate Valid()
      reads this
    {
      num == |list| && nextId == |accepted|
    }

    constructor (max: int, cpus: nat)
      ensures Valid() && View() == Create(max, cpus)
    {
      maxThreads := if cpus * 3 < max then cpus * 3 else max;
      threadsNum, status := 0, Running;
      list, num, wqStatus := [], 0, Running;
      lock, workers, waiters := Free, [], [];
      accepted, started, finished := [], [], [];
      nextId := 0;
    }

    /** create_new_thread, called with the pool lock held. */
    method CreateNewThread(created: bool) returns (rc: int)
      modifies this`workers, this`threadsNum
      ensures rc == if created then 0 else -1
      ensures workers == (if created then old(workers) + [Ready] else old(workers))
      ensures threadsNum == (if created then old(threadsNum) + 1 else old(threadsNum))
    {
      if !created {
        return -1;
      }
      workers := workers + [Ready];
      threadsNum := threadsNum + 1;
      return 0;
    }

    /** threadpool_submit up to workqueue_put; on 0 the caller goes on to WorkqueuePut. */
    method SubmitBegin(task: nat, created: bool) returns (rc: int)
      requires Valid() && lock.Free?
      modifies this
      ensures Valid() && View() == Apply(old(View()), Submit(task, created))
      ensures rc == 0 <==> lock == Submitting(task)
      ensures rc == 0 <==> old(status) == Running && (old(threadsNum) < maxThreads ==> created)
      ensures rc != 0 ==> rc == -1 && View() == old(View())
      ensures rc == 0 && old(threadsNum) < maxThreads ==>
                workers == old(workers) + [Ready] && threadsNum == old(threadsNum) + 1
      ensures rc == 0 && old(threadsNum) >= maxThreads ==> workers == old(workers) && threadsNum == old(threadsNum)
    {
      if status != Running {
        return -1;
      }
      if threadsNum < maxThreads {
        rc := CreateNewThread(created);
        if rc < 0 {
          return;
        }
      }
      lock := Submitting(task);
      rc := 0;
    }

    method WorkqueuePut(woken: nat)
      requires Valid() && Enabled(View(), Put(woken))
      modifies this
      ensures Valid() && View() == Apply(old(View()), Put(woken))
    {
      var work := Work(nextId, lock.task);
      nextId := nextId + 1;
      list := list + [work];
      if num == 0 && woken < |workers| && workers[woken].Waiting? {
        workers := workers[woken := Signalled];
      }
      num := num + 1;
      lock := Free;
      accepted := accepted + [work];
    }

    /** One turn of workqueue_get under wq->lock: take a work, return NULL, or wait. */
    method WorkqueueGet(w: nat) returns (work: Option<Work>)
      requires Valid() && Enabled(View(), Get(w))
      modifies this
      ensures Valid() && View() == Apply(old(View()), Get(w))
      ensures work.Some? <==> old(num) != 0
      ensures work.Some? ==> old(list) == [work.value] + list && workers[w] == Busy(work.value)
      ensures work.None? ==> list == old(list) == [] && workers[w] in {Leaving, Waiting}
    {
      if num == 0 {
        workers := workers[w := if wqStatus != Running then Leaving else Waiting];
        return None;
      }
      work := Some(list[0]);
      list := list[1..];
      num := num - 1;
      workers := workers[w := Busy(work.value)];
      started := started + [work.value];
    }

    /** threadpool_shutdown under the pool lock: set the status, stop the queue, finish if no thread is left. */
    method ShutdownPool(woken: nat) returns (rc: int)
      requires Valid() && lock.Free? && PicksWaiter(waiters, woken)
      modifies this
      ensures Valid() && rc == 0
      ensures var s1 := Apply(old(View()), Shutdown);
              var s2 := Apply(s1, StopQueue);
              View() == Apply(s2, StopEnd(woken))
      ensures status == if threadsNum == 0 then Stopped else Stopping
      ensures wqStatus == Stopping && Waiting !in workers
    {
      status := Stopping;
      lock := StopBegun;
      WorkqueueStop();
      ShutdownEnd(woken);
      return 0;
    }

    /** The last part of threadpool_shutdown. */
    method ShutdownEnd(woken: nat)
      requires Valid() && Enabled(View(), StopEnd(woken))
      modifies this`status, this`waiters, this`lock
      ensures Valid() && View() == Apply(old(View()), StopEnd(woken))
    {
      if threadsNum == 0 {
        status := Stopped;
        if woken < |waiters| && waiters[woken].Asleep? {
          waiters := waiters[woken := Awake];
        }
      }
      lock := Free;
    }

    /** workqueue_stop: the broadcast wakes every waiting worker. */
    method WorkqueueStop()
      requires Valid() && lock.StopBegun?
      modifies this`wqStatus, this`workers, this`lock
      ensures Valid() && View() == Apply(old(View()), StopQueue)
    {
      wqStatus := Stopping;
      lock := StopDone;
      BroadcastSignal();
    }

    /** pthread_cond_broadcast on wq->signal. */
    method BroadcastSignal()
      modifies this`workers
      ensures workers == Broadcast(old(workers))
    {
      ghost var before := workers;
      var i := 0;
      while i < |workers|
        invariant i <= |workers| == |before|
        invariant forall k :: 0 <= k < |before| ==>
          workers[k] == if k < i && before[k].Waiting? then Signalled else before[k]
      {
        if workers[i].Waiting? {
          workers := workers[i := Signalled];
        }
        i := i + 1;
      }
    }

    /** The end of worker_fn. */
    method WorkerExit(w: nat, woken: nat)
      requires Valid() && Enabled(View(), Leave(w, woken))
      modifies this
      ensures Valid() && View() == Apply(old(View()), Leave(w, woken))
      ensures threadsNum == 0 ==> status == Stopped
    {
      workers := workers[w := Gone];
      threadsNum := threadsNum - 1;
      if threadsNum == 0 {
        status := Stopped;
        if woken < |waiters| && waiters[woken].Asleep? {
          waiters := waiters[woken := Awake];
        }
      }
    }

    /** do_work of worker_fn: the task has run and been cleaned up. */
    method FinishWork(w: nat)
      requires Valid() && w < |workers| && workers[w].Busy?
      modifies this`workers, this`finished
      ensures Valid() && View() == Apply(old(View()), Finish(w))
      ensures finished == old(finished) + [old(workers)[w].work]
    {
      finished := finished + [workers[w].work];
      workers := workers[w := Ready];
    }

    /** threadpool_wait up to its return or its first sleep. */
    method WaitBegin() returns (returned: bool)
      requires Valid() && lock.Free?
      modifies this`waiters
      ensures Valid() && View() == Apply(old(View()), Wait)
      ensures returned <==> status == Stopped
    {
      returned := status == Stopped;
      waiters := waiters + [if returned then Returned else Asleep];
    }

    /** The next turn of its loop, once woken. */
    method WaitAgain(c: nat) returns (returned: bool)
      requires Valid() && Enabled(View(), Rewait(c))
      modifies this`waiters
      ensures Valid() && View() == Apply(old(View()), Rewait(c))
      ensures returned <==> status == Stopped
    {
      returned := status == Stopped;
      waiters := waiters[c := if returned then Returned else Asleep];
    }
  }
}
