/**
 WorkerThread (src/dispatch/worker_thread.cpp) as a step system: one worker, one thread that may
 call `drain`, one thread that calls `start` and `stop`, and any number of submitters.  Every mutex
 region, atomic access, notification and wakeup is one step; steps of different threads interleave
 in any order and a condition-variable wait may end without a notification.
 */
module Worker {
  import opened Wrappers

  /** Where the worker loop stands.  A task is in hand from its pop until it has run. */
  datatype WorkerPc =
    | NoThread
    | AtLock               // about to take the mutex and evaluate the wait predicate
    | Sleeping             // blocked on work_cv
    | Executing(task: nat)
    | Finished             // task done, about to load drain_waiters
    | ToNotify             // saw the flag, about to take the mutex and notify
    | Exited               // left the loop, not yet joined

  datatype DrainPc =
    | NotDraining
    | AtGate               // about to take the mutex and test the queue
    | Asleep               // blocked on drain_cv
    | Passed               // saw an empty queue, holds the mutex, about to clear the flag

  datatype ControlPc =
    | Steady
    | ClearStop | Spawn | PublishStart
    | SetStop | NotifyStop | Join | PublishStop

  datatype SubmitPc =
    | Outside
    | Admitted(task: nat)  // passed the running check, about to take the mutex
    | Queued               // pushed, notification pending

  datatype State = State(
    queue: seq<nat>, stopRequested: bool, running: bool, drainWaiters: bool,
    worker: WorkerPc, drainer: DrainPc, control: ControlPc, submitters: seq<SubmitPc>,
    enqueued: seq<nat>, executed: seq<nat>,
    exitMark: nat,    // |enqueued| when the worker last left its loop
    drainMark: nat)   // |enqueued| when drain() was last entered

  datatype Action =
    | SubmitCheck(i: nat, work: Option<nat>) | SubmitPush(i: nat) | SubmitNotify(i: nat)
    | WorkerLock | WorkerSpurious | WorkerFinish | WorkerLoadFlag | WorkerNotify
    | DrainBegin | DrainCheck | DrainSpurious | DrainReturn
    | StartCheck | StartClear | StartSpawn | StartPublish
    | StopCheck | StopSet | StopNotify | StopJoin | StopPublish

  ghost predicate Initial(s: State) {
    && s.queue == [] && !s.stopRequested && !s.running && !s.drainWaiters
    && s.worker == NoThread && s.drainer == NotDraining && s.control == Steady
    && s.enqueued == [] && s.executed == [] && s.exitMark == 0 && s.drainMark == 0
    && forall i :: 0 <= i < |s.submitters| ==> s.submitters[i] == Outside
  }

  /** Only a drainer between its test and its return keeps the mutex across steps. */
  predicate MutexFree(s: State) {
    s.drainer != Passed
  }

  predicate Enabled(s: State, a: Action) {
    match a
    case SubmitCheck(i, _) => i < |s.submitters| && s.submitters[i] == Outside
    case SubmitPush(i) => i < |s.submitters| && s.submitters[i].Admitted? && MutexFree(s)
    case SubmitNotify(i) => i < |s.submitters| && s.submitters[i] == Queued
    case WorkerLock => s.worker == AtLock && MutexFree(s)
    case WorkerSpurious => s.worker == Sleeping
    case WorkerFinish => s.worker.Executing?
    case WorkerLoadFlag => s.worker == Finished
    case WorkerNotify => s.worker == ToNotify && MutexFree(s)
    case DrainBegin => s.drainer == NotDraining
    case DrainCheck => s.drainer == AtGate
    case DrainSpurious => s.drainer == Asleep
    case DrainReturn => s.drainer == Passed
    case StartCheck => s.control == Steady
    case StartClear => s.control == ClearStop && MutexFree(s)
    case StartSpawn => s.control == Spawn
    case StartPublish => s.control == PublishStart
    case StopCheck => s.control == Steady
    case StopSet => s.control == SetStop && MutexFree(s)
    case StopNotify => s.control == NotifyStop
    case StopJoin => s.control == Join && s.worker == Exited
    case StopPublish => s.control == PublishStop
  }

  function WakeWorker(s: State): State {
    if s.worker == Sleeping then s.(worker := AtLock) else s
  }

  function Next(s: State, a: Action): State
    requires Enabled(s, a)
  {
    match a
    case SubmitCheck(i, work) =>
      if s.running && work.Some? then s.(submitters := s.submitters[i := Admitted(work.value)]) else s
    case SubmitPush(i) =>
      var task := s.submitters[i].task;
      s.(queue := s.queue + [task], enqueued := s.enqueued + [task], submitters := s.submitters[i := Queued])
    case SubmitNotify(i) => WakeWorker(s.(submitters := s.submitters[i := Outside]))
    case WorkerLock =>
      if s.queue == [] && !s.stopRequested then s.(worker := Sleeping)
      else if s.queue == [] then s.(worker := Exited, exitMark := |s.enqueued|)
      else s.(worker := Executing(s.queue[0]), queue := s.queue[1..])
    case WorkerSpurious => s.(worker := AtLock)
    case WorkerFinish => s.(worker := Finished, executed := s.executed + [s.worker.task])
    case WorkerLoadFlag => s.(worker := if s.drainWaiters then ToNotify else AtLock)
    case WorkerNotify =>
      if s.queue == [] && s.drainer == Asleep then s.(worker := AtLock, drainer := AtGate)
      else s.(worker := AtLock)
    case DrainBegin => s.(drainWaiters := true, drainer := AtGate, drainMark := |s.enqueued|)
    case DrainCheck => s.(drainer := if s.queue == [] then Passed else Asleep)
    case DrainSpurious => s.(drainer := AtGate)
    case DrainReturn => s.(drainWaiters := false, drainer := NotDraining)
    case StartCheck => if s.running then s else s.(control := ClearStop)
    case StartClear => s.(stopRequested := false, control := Spawn)
    case StartSpawn => s.(worker := AtLock, control := PublishStart)
    case StartPublish => s.(running := true, control := Steady)
    case StopCheck => if s.running then s.(control := SetStop) else s
    case StopSet => s.(stopRequested := true, control := NotifyStop)
    case StopNotify => WakeWorker(s.(control := Join))
    case StopJoin => s.(worker := NoThread, control := PublishStop)
    case StopPublish => s.(running := false, control := Steady)
  }

  ghost predicate Run(s: State, actions: seq<Action>, last: State)
    decreases |actions|
  {
    if actions == [] then s == last
    else Enabled(s, actions[0]) && Run(Next(s, actions[0]), actions[1..], last)
  }

  // ---------------------------------------------------------------- the invariant

  function InHand(s: State): seq<nat> {
    if s.worker.Executing? then [s.worker.task] else []
  }

  /** First in, first out, exactly once: nothing is lost, repeated or reordered. */
  ghost predicate History(s: State) {
    && s.enqueued == s.executed + InHand(s) + s.queue
    && (s.worker == NoThread || s.worker == Exited ==> |s.executed| == s.exitMark)
  }

  ghost predicate Lifecycle(s: State) {
    match s.control
    case Steady => if s.running then s.worker != NoThread && !s.stopRequested else s.worker == NoThread
    case ClearStop => !s.running && s.worker == NoThread
    case Spawn => !s.running && s.worker == NoThread && !s.stopRequested
    case PublishStart => !s.running && s.worker != NoThread && !s.stopRequested
    case SetStop => s.running && s.worker != NoThread && !s.stopRequested
    case NotifyStop => s.running && s.worker != NoThread && s.stopRequested
    case Join => s.running && s.worker != NoThread && s.stopRequested
    case PublishStop => s.running && s.worker == NoThread && s.stopRequested
  }

  ghost predicate SubmitNotifyPending(s: State) {
    exists i :: 0 <= i < |s.submitters| && s.submitters[i] == Queued
  }

  /** A worker that sleeps although it has something to do is about to be notified. */
  ghost predicate WorkerWakes(s: State) {
    s.worker == Sleeping && (s.queue != [] || s.stopRequested) ==> SubmitNotifyPending(s) || s.control == NotifyStop
  }

  predicate Busy(w: WorkerPc) {
    w.Executing? || w == Finished || w == ToNotify
  }

  /** A sleeping drainer still has its flag up and a worker that has yet to reach its notification. */
  ghost predicate DrainerWakes(s: State) {
    && (s.drainWaiters <==> s.drainer != NotDraining)
    && (s.drainer == Asleep ==> s.queue != [] || Busy(s.worker))
    && (s.drainer == Passed ==> s.queue == [])
    && s.drainMark <= |s.enqueued|
  }

  ghost predicate Inv(s: State) {
    && History(s) && Lifecycle(s) && WorkerWakes(s) && DrainerWakes(s)
    && (s.worker == Exited ==> s.stopRequested)
  }

  lemma StillPending(s: State, i: nat, pc: SubmitPc)
    requires i < |s.submitters|
    requires s.submitters[i] == Queued ==> pc == Queued
    ensures SubmitNotifyPending(s) ==> SubmitNotifyPending(s.(submitters := s.submitters[i := pc]))
    ensures pc == Queued ==> SubmitNotifyPending(s.(submitters := s.submitters[i := pc]))
  {
    var t := s.(submitters := s.submitters[i := pc]);
    if SubmitNotifyPending(s) {
      var j :| 0 <= j < |s.submitters| && s.submitters[j] == Queued;
      assert t.submitters[j] == Queued;
    }
    if pc == Queued {
      assert t.submitters[i] == Queued;
    }
  }

  lemma StepKeepsHistory(s: State, a: Action)
    requires History(s) && Lifecycle(s) && Enabled(s, a)
    ensures History(Next(s, a))
  {
    match a
    case SubmitPush(i) =>
      var task := [s.submitters[i].task];
      assert s.executed + InHand(s) + (s.queue + task) == s.executed + InHand(s) + s.queue + task;
    case WorkerLock =>
      if s.queue != [] {
        assert s.executed + [] + s.queue == s.executed + [s.queue[0]] + s.queue[1..];
      }
    case WorkerFinish =>
      assert s.executed + InHand(s) + s.queue == (s.executed + [s.worker.task]) + [] + s.queue;
    case _ =>
  }

  lemma StepKeepsLifecycle(s: State, a: Action)
    requires Lifecycle(s) && (s.worker == Exited ==> s.stopRequested) && Enabled(s, a)
    ensures Lifecycle(Next(s, a)) && (Next(s, a).worker == Exited ==> Next(s, a).stopRequested)
  {
  }

  lemma StepKeepsWorkerWakes(s: State, a: Action)
    requires WorkerWakes(s) && Lifecycle(s) && Enabled(s, a)
    ensures WorkerWakes(Next(s, a))
  {
    match a
    case SubmitCheck(i, work) =>
      if s.running && work.Some? {
        StillPending(s, i, Admitted(work.value));
      }
    case SubmitPush(i) => StillPending(s, i, Queued);
    case _ =>
  }

  lemma StepKeepsDrainerWakes(s: State, a: Action)
    requires Inv(s) && Enabled(s, a)
    ensures DrainerWakes(Next(s, a))
  {
  }

  lemma StepKeepsInv(s: State, a: Action)
    requires Inv(s) && Enabled(s, a)
    ensures Inv(Next(s, a))
  {
    StepKeepsHistory(s, a);
    StepKeepsLifecycle(s, a);
    StepKeepsWorkerWakes(s, a);
    StepKeepsDrainerWakes(s, a);
  }

  lemma InitialInv(s: State)
    requires Initial(s)
    ensures Inv(s)
  {
  }

  /** Everything below holds in every reachable state. */
  lemma {:induction false} EveryRunKeepsInv(s: State, actions: seq<Action>, last: State)
    requires Inv(s) && Run(s, actions, last)
    ensures Inv(last)
    decreases |actions|
  {
    if actions != [] {
      StepKeepsInv(s, actions[0]);
      EveryRunKeepsInv(Next(s, actions[0]), actions[1..], last);
    }
  }

  ghost predicate Reachable(s: State) {
    exists s0, actions :: Initial(s0) && Run(s0, actions, s)
  }

  lemma ReachableInv(s: State)
    requires Reachable(s)
    ensures Inv(s)
  {
    var s0, actions :| Initial(s0) && Run(s0, actions, s);
    InitialInv(s0);
    EveryRunKeepsInv(s0, actions, s);
  }

  /**
   No wakeup is lost: a sleeping drainer has its flag up and either tasks are queued or the worker
   is between its pop and its notification; a worker that sleeps on work has a notification coming.
   */
  lemma NoLostWakeup(s: State)
    requires Reachable(s)
    ensures s.drainer == Asleep ==> s.drainWaiters && (s.queue != [] || Busy(s.worker))
    ensures s.worker == Sleeping && (s.queue != [] || s.stopRequested) ==> SubmitNotifyPending(s) || s.control == NotifyStop
  {
    ReachableInv(s);
  }

  // ---------------------------------------------------------------- execution order and shutdown

  /**
   Tasks run in submission order, each once, across any number of stop/start cycles, and whatever
   was enqueued before the worker left its loop has run by then.
   */
  lemma FifoExactlyOnce(s: State)
    requires Reachable(s)
    ensures s.enqueued == s.executed + InHand(s) + s.queue && |InHand(s)| <= 1
    ensures s.worker == Exited || s.worker == NoThread ==>
              s.exitMark <= |s.enqueued| && s.executed == s.enqueued[..s.exitMark] && s.queue == s.enqueued[s.exitMark..]
  {
    ReachableInv(s);
  }

  // ---------------------------------------------------------------- drain

  /**
   When drain() is about to return, every task submitted before it has left the queue and at most
   one of them, the one in hand, has not finished.  All of them have finished unless the task in
   hand was the last one enqueued before the call.
   */
  lemma DrainReturns(s: State)
    requires Reachable(s) && s.drainer == Passed
    ensures s.queue == [] && s.drainMark <= |s.enqueued|
    ensures s.enqueued[..s.drainMark] <= s.executed + InHand(s)
    ensures s.enqueued[..s.drainMark] <= s.executed <==> !(s.worker.Executing? && s.drainMark == |s.enqueued|)
  {
    ReachableInv(s);
    assert s.enqueued == s.executed + InHand(s);
    assert s.worker.Executing? ==> |s.enqueued| == |s.executed| + 1;
  }

  /** drain() can return while the task submitted before it is still running. */
  lemma DrainMayReturnEarly()
    ensures exists s :: Reachable(s) && s.drainer == Passed && s.drainMark <= |s.enqueued|
                        && !(s.enqueued[..s.drainMark] <= s.executed)
  {
    hide Run, Initial;
    var s := Started();
    var t := ReachStep(s, SubmitCheck(0, Some(7)));
    t := ReachStep(t, SubmitPush(0));
    t := ReachStep(t, WorkerLock);
    t := ReachStep(t, DrainBegin);
    t := ReachStep(t, DrainCheck);
    assert t.enqueued == [7] && t.executed == [] && t.drainer == Passed && t.drainMark == 1;
  }

  /** A submit that races with stop() can enqueue after the worker has left, and then nothing runs it. */
  lemma RacingSubmitIsStranded()
    ensures exists s :: Reachable(s) && s.worker == NoThread && !s.running && s.queue == [7] && s.executed == []
  {
    hide Run, Initial;
    var s := Started();
    var t := ReachStep(s, SubmitCheck(0, Some(7)));
    t := ReachStep(t, StopCheck);
    t := ReachStep(t, StopSet);
    t := ReachStep(t, WorkerLock);
    t := ReachStep(t, SubmitPush(0));
    t := ReachStep(t, StopNotify);
    t := ReachStep(t, StopJoin);
    t := ReachStep(t, StopPublish);
  }

  lemma AboutToSpawn() returns (s: State)
    ensures Reachable(s)
    ensures s == State([], false, false, false, NoThread, NotDraining, Spawn, [Outside], [], [], 0, 0)
  {
    var s0 := State([], false, false, false, NoThread, NotDraining, Steady, [Outside], [], [], 0, 0);
    assert Initial(s0) && Run(s0, [], s0);
    assert Reachable(s0);
    hide Reachable, Run, Initial;
    s := ReachStep(s0, StartCheck);
    s := ReachStep(s, StartClear);
  }

  lemma Started() returns (s: State)
    ensures Reachable(s)
    ensures s == State([], false, true, false, AtLock, NotDraining, Steady, [Outside], [], [], 0, 0)
  {
    hide Reachable;
    s := AboutToSpawn();
    s := ReachStep(s, StartSpawn);
    s := ReachStep(s, StartPublish);
  }

  lemma ReachStep(s: State, a: Action) returns (t: State)
    requires Reachable(s) && Enabled(s, a)
    ensures Reachable(t) && t == Next(s, a)
  {
    t := Next(s, a);
    var s0, actions :| Initial(s0) && Run(s0, actions, s);
    assert Run(s, [a], t) by {
      assert [a][1..] == [];
    }
    RunConcat(s0, actions, s, [a], t);
  }

  lemma {:induction false} RunConcat(s: State, a: seq<Action>, t: State, b: seq<Action>, u: State)
    requires Run(s, a, t) && Run(t, b, u)
    ensures Run(s, a + b, u)
    decreases |a|
  {
    if a == [] {
      assert a + b == b;
    } else {
      assert (a + b)[1..] == a[1..] + b;
      RunConcat(Next(s, a[0]), a[1..], t, b, u);
    }
  }

  // ---------------------------------------------------------------- what drain delivers

  ghost predicate NoDrainBegin(actions: seq<Action>) {
    forall k :: 0 <= k < |actions| ==> !actions[k].DrainBegin?
  }

  lemma StepAppends(s: State, a: Action)
    requires Enabled(s, a)
    ensures s.executed <= Next(s, a).executed && s.enqueued <= Next(s, a).enqueued
  {
  }

  lemma {:induction false} HistoryGrows(s: State, actions: seq<Action>, last: State)
    requires Run(s, actions, last)
    ensures s.executed <= last.executed && s.enqueued <= last.enqueued
    decreases |actions|
  {
    hide Next, Enabled;
    if actions != [] {
      StepAppends(s, actions[0]);
      HistoryGrows(Next(s, actions[0]), actions[1..], last);
    }
  }

  lemma PendingIff(s: State)
    requires History(s)
    ensures s.executed != s.enqueued <==> s.queue != [] || s.worker.Executing?
    ensures s.executed <= s.enqueued
  {
    assert |s.enqueued| == |s.executed| + |InHand(s)| + |s.queue|;
  }

  /** Steps left before the worker pops the next task, counting a stop and a new start if it has gone. */
  function StepsToPop(s: State): nat {
    match s.worker
    case AtLock => 1
    case ToNotify => 2
    case Sleeping => 2
    case Finished => 3
    case Executing(_) => 4
    case NoThread =>
      (match s.control
       case Spawn => 2
       case ClearStop => 3
       case Steady => 4
       case _ => 5)
    case Exited => if s.control == Join then 6 else 7
  }

  lemma SomeNotification(s: State) returns (a: Action)
    requires WorkerWakes(s) && s.worker == Sleeping && (s.queue != [] || s.stopRequested)
    ensures Enabled(s, a) && (a.SubmitNotify? || a.StopNotify?)
  {
    if s.control == NotifyStop {
      a := StopNotify;
    } else {
      var i :| 0 <= i < |s.submitters| && s.submitters[i] == Queued;
      a := SubmitNotify(i);
    }
  }

  /** A step that brings the worker closer to its next pop while the drainer has not tested the queue. */
  lemma TowardsPop(s: State) returns (a: Action)
    requires Inv(s) && s.drainer == AtGate && s.queue != []
    ensures Enabled(s, a) && !a.DrainBegin?
    ensures var t := Next(s, a);
            && t.drainer == AtGate && t.enqueued == s.enqueued && (t.queue != [] || t.worker.Executing?)
            && 10 * |t.queue| + StepsToPop(t) < 10 * |s.queue| + StepsToPop(s)
  {
    match s.worker
    case Sleeping => a := SomeNotification(s);
    case AtLock => a := WorkerLock;
    case Executing(_) => a := WorkerFinish;
    case Finished => a := WorkerLoadFlag;
    case ToNotify => a := WorkerNotify;
    case NoThread =>
      a := if s.control == Spawn then StartSpawn
           else if s.control == ClearStop then StartClear
           else if s.control == Steady then StartCheck
           else StopPublish;
    case Exited => a := if s.control == Join then StopJoin else StopNotify;
  }

  /** From an unfinished backlog the drainer can be let through while the last task is in hand. */
  lemma {:induction false} RunToLastPop(s: State) returns (actions: seq<Action>, t: State)
    requires Inv(s) && s.drainer == AtGate && s.executed != s.enqueued
    ensures Run(s, actions, t) && NoDrainBegin(actions)
    ensures t.drainer == Passed && t.enqueued == s.enqueued && t.executed != t.enqueued && History(t)
    decreases 10 * |s.queue| + StepsToPop(s)
  {
    PendingIff(s);
    if s.queue == [] {
      t := Next(s, DrainCheck);
      actions := [DrainCheck];
      assert actions[1..] == [];
    } else {
      var a := TowardsPop(s);
      StepKeepsInv(s, a);
      PendingIff(Next(s, a));
      var rest;
      rest, t := RunToLastPop(Next(s, a));
      actions := [a] + rest;
      assert actions[1..] == rest;
    }
  }

  lemma LateDrain(s: State) returns (actions: seq<Action>, t: State)
    requires Inv(s) && s.drainer == NotDraining && s.executed != s.enqueued
    ensures Run(Next(s, DrainBegin), actions, t) && NoDrainBegin(actions) && t.drainer == Passed
    ensures !(s.enqueued <= t.executed)
  {
    hide Run, NoDrainBegin, StepsToPop;
    StepKeepsInv(s, DrainBegin);
    actions, t := RunToLastPop(Next(s, DrainBegin));
    PendingIff(t);
    assert |t.executed| < |t.enqueued|;
  }

  /**
   Whatever happens after the call, drain() returns only once every task submitted before it has run,
   exactly when they had all run already at the call.
   */
  lemma DrainDeliversIff(s: State)
    requires Reachable(s) && s.drainer == NotDraining
    ensures (forall actions, t ::
               Run(Next(s, DrainBegin), actions, t) && NoDrainBegin(actions) && t.drainer == Passed ==> s.enqueued <= t.executed)
            <==> s.executed == s.enqueued
  {
    ReachableInv(s);
    hide Run, Inv, NoDrainBegin, Reachable;
    if s.executed == s.enqueued {
      forall actions, t | Run(Next(s, DrainBegin), actions, t) && NoDrainBegin(actions) && t.drainer == Passed
        ensures s.enqueued <= t.executed
      {
        HistoryGrows(Next(s, DrainBegin), actions, t);
      }
    } else {
      var actions, t := LateDrain(s);
    }
  }

  // ---------------------------------------------------------------- what stop delivers

  ghost predicate NoneAdmitted(s: State) {
    forall i :: 0 <= i < |s.submitters| ==> !s.submitters[i].Admitted?
  }

  ghost predicate NoSubmitCheck(actions: seq<Action>) {
    forall k :: 0 <= k < |actions| ==> !actions[k].SubmitCheck?
  }

  ghost predicate NothingLeft(s: State) {
    NoneAdmitted(s) && (s.worker == Exited || s.worker == NoThread ==> s.queue == [])
  }

  lemma StepLeavesNothing(s: State, a: Action)
    requires NothingLeft(s) && Enabled(s, a) && !a.SubmitCheck?
    ensures NothingLeft(Next(s, a))
  {
    assert forall i :: !Enabled(s, SubmitPush(i));
  }

  lemma {:induction false} RunLeavesNothing(s: State, actions: seq<Action>, last: State)
    requires NothingLeft(s) && Run(s, actions, last) && NoSubmitCheck(actions)
    ensures NothingLeft(last)
    decreases |actions|
  {
    if actions != [] {
      StepLeavesNothing(s, actions[0]);
      RunLeavesNothing(Next(s, actions[0]), actions[1..], last);
    }
  }

  predicate Stopping(c: ControlPc) {
    c == SetStop || c == NotifyStop || c == Join
  }

  function StepsToExit(s: State): nat {
    10 * |s.queue| + (if s.drainer == Passed then 1 else 0) + (if s.control == SetStop then 1 else 0)
    + if s.worker == Exited then 0 else StepsToPop(s)
  }

  /** A step that brings a stopping worker closer to its exit. */
  lemma TowardsExit(s: State, i: nat) returns (a: Action)
    requires Inv(s) && Stopping(s.control) && i < |s.submitters| && s.submitters[i].Admitted?
    requires s.worker != Exited || !MutexFree(s)
    ensures Enabled(s, a) && !a.SubmitCheck?
    ensures var t := Next(s, a);
            Stopping(t.control) && |t.submitters| == |s.submitters| && t.submitters[i] == s.submitters[i]
            && StepsToExit(t) < StepsToExit(s)
  {
    if s.drainer == Passed {
      return DrainReturn;
    }
    if s.control == SetStop {
      return StopSet;
    }
    match s.worker
    case Sleeping => a := SomeNotification(s);
    case AtLock => a := WorkerLock;
    case Executing(_) => a := WorkerFinish;
    case Finished => a := WorkerLoadFlag;
    case ToNotify => a := WorkerNotify;
  }

  lemma {:induction false} RunToExit(s: State, i: nat) returns (actions: seq<Action>, t: State)
    requires Inv(s) && Stopping(s.control) && i < |s.submitters| && s.submitters[i].Admitted?
    ensures Run(s, actions, t) && NoSubmitCheck(actions) && Inv(t)
    ensures t.worker == Exited && MutexFree(t) && Stopping(t.control) && i < |t.submitters| && t.submitters[i].Admitted?
    decreases StepsToExit(s)
  {
    if s.worker == Exited && MutexFree(s) {
      actions, t := [], s;
    } else {
      var a := TowardsExit(s, i);
      StepKeepsInv(s, a);
      var rest;
      rest, t := RunToExit(Next(s, a), i);
      actions := [a] + rest;
      assert actions[1..] == rest;
    }
  }

  /** An admitted submit can push its task between the worker's exit and the join. */
  lemma PushAfterExit(s: State, i: nat) returns (actions: seq<Action>, t: State)
    requires Inv(s) && s.worker == Exited && MutexFree(s) && Stopping(s.control)
    requires i < |s.submitters| && s.submitters[i].Admitted?
    ensures Run(s, actions, t) && NoSubmitCheck(actions) && t.control == PublishStop && t.queue != []
  {
    var pushed := Next(s, SubmitPush(i));
    var joining := if s.control == NotifyStop then Next(pushed, StopNotify) else pushed;
    t := Next(joining, StopJoin);
    assert Run(joining, [StopJoin], t) by {
      assert [StopJoin][1..] == [];
    }
    actions := if s.control == NotifyStop then [SubmitPush(i), StopNotify, StopJoin] else [SubmitPush(i), StopJoin];
    if s.control == NotifyStop {
      assert actions[1..] == [StopNotify, StopJoin] && [StopNotify, StopJoin][1..] == [StopJoin];
    } else {
      assert actions[1..] == [StopJoin];
    }
  }

  lemma CleanStop(s: State, actions: seq<Action>, t: State)
    requires Inv(s) && s.control == Steady && s.running && NoneAdmitted(s)
    requires Run(Next(s, StopCheck), actions, t) && NoSubmitCheck(actions) && t.control == PublishStop
    ensures t.executed == t.enqueued
  {
    StepKeepsInv(s, StopCheck);
    RunLeavesNothing(Next(s, StopCheck), actions, t);
    EveryRunKeepsInv(Next(s, StopCheck), actions, t);
    PendingIff(t);
  }

  lemma StrandingStop(s: State, i: nat) returns (actions: seq<Action>, t: State)
    requires Inv(s) && s.control == Steady && s.running && i < |s.submitters| && s.submitters[i].Admitted?
    ensures Run(Next(s, StopCheck), actions, t) && NoSubmitCheck(actions) && t.control == PublishStop
    ensures t.executed != t.enqueued
  {
    hide Run, StepsToExit;
    var called := Next(s, StopCheck);
    StepKeepsInv(s, StopCheck);
    var first, exited := RunToExit(called, i);
    var second;
    second, t := PushAfterExit(exited, i);
    actions := first + second;
    RunConcat(called, first, exited, second, t);
    EveryRunKeepsInv(called, actions, t);
    PendingIff(t);
  }

  /**
   As long as nobody new calls submit(), stop() joins a worker that has run every task enqueued,
   exactly when no submit had passed its running check at the call without having pushed its task.
   */
  lemma StopDeliversIff(s: State)
    requires Reachable(s) && s.control == Steady && s.running
    ensures (forall actions, t ::
               Run(Next(s, StopCheck), actions, t) && NoSubmitCheck(actions) && t.control == PublishStop ==> t.executed == t.enqueued)
            <==> NoneAdmitted(s)
  {
    ReachableInv(s);
    hide Run, Inv, NoSubmitCheck, Next;
    if NoneAdmitted(s) {
      forall actions, t | Run(Next(s, StopCheck), actions, t) && NoSubmitCheck(actions) && t.control == PublishStop
        ensures t.executed == t.enqueued
      {
        CleanStop(s, actions, t);
      }
    } else {
      var i :| 0 <= i < |s.submitters| && s.submitters[i].Admitted?;
      var actions, t := StrandingStop(s, i);
    }
  }

  // ---------------------------------------------------------------- progress

  /** Steps that carry out what is under way: no new call, no spurious wakeup. */
  predicate Progress(a: Action) {
    !(a.SubmitCheck? || a.WorkerSpurious? || a.DrainBegin? || a.DrainSpurious? || a.StartCheck? || a.StopCheck?)
  }

  /** The steps of a run that start a call or wake a thread for no reason. */
  function Others(actions: seq<Action>): nat {
    if actions == [] then 0 else (if Progress(actions[0]) then 0 else 1) + Others(actions[1..])
  }

  function WorkerWork(w: WorkerPc): nat {
    match w
    case NoThread => 0
    case AtLock => 1
    case Sleeping => 0
    case Executing(_) => 6
    case Finished => 5
    case ToNotify => 4
    case Exited => 0
  }

  function DrainWork(d: DrainPc): nat {
    match d
    case NotDraining => 0
    case AtGate => 2
    case Asleep => 0
    case Passed => 1
  }

  function ControlWork(c: ControlPc): nat {
    match c
    case Steady => 0
    case ClearStop => 6
    case Spawn => 5
    case PublishStart => 3
    case SetStop => 6
    case NotifyStop => 4
    case Join => 2
    case PublishStop => 1
  }

  function SubmitWork(p: SubmitPc): nat {
    match p
    case Outside => 0
    case Admitted(_) => 10
    case Queued => 2
  }

  function SubmitsWork(ps: seq<SubmitPc>): nat {
    if ps == [] then 0 else SubmitWork(ps[0]) + SubmitsWork(ps[1..])
  }

  /** Bound on the progress steps left when nobody starts anything new. */
  function Work(s: State): nat {
    7 * |s.queue| + WorkerWork(s.worker) + DrainWork(s.drainer) + ControlWork(s.control) + SubmitsWork(s.submitters)
  }

  lemma {:induction false} SubmitsWorkUpdate(ps: seq<SubmitPc>, i: nat, p: SubmitPc)
    requires i < |ps|
    ensures SubmitsWork(ps[i := p]) + SubmitWork(ps[i]) == SubmitsWork(ps) + SubmitWork(p)
  {
    if i == 0 {
      assert ps[0 := p][1..] == ps[1..];
    } else {
      assert ps[i := p][1..] == ps[1..][i - 1 := p];
      SubmitsWorkUpdate(ps[1..], i - 1, p);
    }
  }

  lemma ProgressConsumes(s: State, a: Action)
    requires Enabled(s, a) && Progress(a)
    requires Lifecycle(s)
    ensures Work(Next(s, a)) < Work(s)
  {
    hide SubmitsWork;
    match a
    case SubmitPush(i) => SubmitsWorkUpdate(s.submitters, i, Queued);
    case SubmitNotify(i) => SubmitsWorkUpdate(s.submitters, i, Outside);
    case _ =>
  }

  lemma OtherCosts(s: State, a: Action)
    requires Enabled(s, a) && !Progress(a)
    ensures Work(Next(s, a)) <= Work(s) + 10
  {
    hide SubmitsWork;
    match a
    case SubmitCheck(i, work) =>
      if s.running && work.Some? {
        SubmitsWorkUpdate(s.submitters, i, Admitted(work.value));
      }
    case _ =>
  }

  /** In any run the work under way pays for all but eleven steps per new call or spurious wakeup. */
  lemma {:induction false} ProgressTerminates(s: State, actions: seq<Action>, last: State)
    requires Inv(s) && Run(s, actions, last)
    ensures |actions| + Work(last) <= Work(s) + 11 * Others(actions)
    decreases |actions|
  {
    hide Work, Inv;
    if actions != [] {
      InvLifecycle(s);
      if Progress(actions[0]) {
        ProgressConsumes(s, actions[0]);
      } else {
        OtherCosts(s, actions[0]);
      }
      StepKeepsInv(s, actions[0]);
      ProgressTerminates(Next(s, actions[0]), actions[1..], last);
    }
  }

  lemma InvLifecycle(s: State)
    requires Inv(s)
    ensures Lifecycle(s)
  {
  }

  ghost predicate Quiet(s: State) {
    forall a :: Progress(a) ==> !Enabled(s, a)
  }

  /**
   From any reachable state every run is bounded by the work under way and the calls and spurious
   wakeups it adds, submits during a stop included.  Once nothing is under way, every start, stop and submit has completed; a running worker has executed every task and released the
   drainer; a stopped one left behind only tasks enqueued after its exit, and a drainer can be stuck
   only behind such tasks.
   */
  lemma EverythingSettles(s: State, actions: seq<Action>, last: State)
    requires Reachable(s) && Run(s, actions, last)
    ensures |actions| <= Work(s) + 11 * Others(actions)
    ensures Quiet(last) ==>
              && last.control == Steady
              && (forall i :: 0 <= i < |last.submitters| ==> last.submitters[i] == Outside)
              && (last.running ==> last.executed == last.enqueued && last.drainer == NotDraining)
              && (!last.running ==> last.worker == NoThread && |last.executed| == last.exitMark <= |last.enqueued|
                                    && last.queue == last.enqueued[last.exitMark..]
                                    && (last.drainer != NotDraining ==> last.queue != []))
  {
    ReachableInv(s);
    EveryRunKeepsInv(s, actions, last);
    ProgressTerminates(s, actions, last);
    if Quiet(last) {
      QuietState(last);
    }
  }

  lemma QuietState(s: State)
    requires Inv(s) && Quiet(s)
    ensures s.control == Steady
    ensures forall i :: 0 <= i < |s.submitters| ==> s.submitters[i] == Outside
    ensures s.drainer == NotDraining || s.drainer == Asleep
    ensures s.worker == NoThread || (s.worker == Sleeping && s.queue == [] && s.drainer == NotDraining)
  {
    QuietSubmitters(s);
    QuietControl(s);
    assert !Enabled(s, DrainReturn) && !Enabled(s, DrainCheck);
    assert !Enabled(s, WorkerLock) && !Enabled(s, WorkerFinish) && !Enabled(s, WorkerLoadFlag) && !Enabled(s, WorkerNotify);
  }

  lemma QuietSubmitters(s: State)
    requires Inv(s) && Quiet(s)
    ensures MutexFree(s)
    ensures forall i :: 0 <= i < |s.submitters| ==> s.submitters[i] == Outside
  {
    hide Inv;
    assert !Enabled(s, DrainReturn);
    forall i | 0 <= i < |s.submitters|
      ensures s.submitters[i] == Outside
    {
      assert !Enabled(s, SubmitPush(i)) && !Enabled(s, SubmitNotify(i));
    }
  }

  lemma QuietControl(s: State)
    requires Quiet(s) && MutexFree(s)
    ensures s.control == Steady || (s.control == Join && s.worker != Exited)
  {
    assert !Enabled(s, StartClear) && !Enabled(s, StartSpawn) && !Enabled(s, StartPublish);
    assert s.control != ClearStop && s.control != Spawn && s.control != PublishStart;
    assert !Enabled(s, StopSet) && !Enabled(s, StopNotify) && !Enabled(s, StopJoin) && !Enabled(s, StopPublish);
  }

  // ---------------------------------------------------------------- the class

  /**
   The object behind the step system.  Its first four fields are the source's; `worker`, `drainer`,
   `control` and `submitters` record where the threads stand.  Each method is one step.
   */
  class WorkerThread {
    var queue: seq<nat>
    var stopRequested: bool
    var running: bool
    var drainWaiters: bool
    var worker: WorkerPc
    var drainer: DrainPc
    var control: ControlPc
    var submitters: seq<SubmitPc>
    ghost var enqueued: seq<nat>
    ghost var executed: seq<nat>
    ghost var exitMark: nat
    ghost var drainMark: nat

    ghost function Abstract(): State
      reads this
    {
      State(queue, stopRequested, running, drainWaiters, worker, drainer, control, submitters,
            enqueued, executed, exitMark, drainMark)
    }

    constructor (callers: nat)
      ensures Abstract() == Created(callers)
    {
      queue, stopRequested, running, drainWaiters := [], false, false, false;
      worker, drainer, control := NoThread, NotDraining, Steady;
      submitters := seq(callers, _ => Outside);
      enqueued, executed, exitMark, drainMark := [], [], 0, 0;
    }

    method CheckSubmit(i: nat, work: Option<nat>) returns (r: Result<()>)
      requires Enabled(Abstract(), SubmitCheck(i, work))
      modifies this
      ensures Abstract() == Next(old(Abstract()), SubmitCheck(i, work))
      ensures r == if !running then Err(InternalError) else if work.None? then Err(InvalidArgument) else Ok(())
    {
      if !running {
        return Err(InternalError);
      }
      if work.None? {
        return Err(InvalidArgument);
      }
      submitters := submitters[i := Admitted(work.value)];
      return Ok(());
    }

    method PushWork(i: nat)
      requires Enabled(Abstract(), SubmitPush(i))
      modifies this
      ensures Abstract() == Next(old(Abstract()), SubmitPush(i))
    {
      var task := submitters[i].task;
      queue := queue + [task];
      enqueued := enqueued + [task];
      submitters := submitters[i := Queued];
    }

    method NotifyWork(i: nat)
      requires Enabled(Abstract(), SubmitNotify(i))
      modifies this
      ensures Abstract() == Next(old(Abstract()), SubmitNotify(i))
    {
      submitters := submitters[i := Outside];
      if worker == Sleeping {
        worker := AtLock;
      }
    }

    /** The locked region of the worker loop: wait, leave, or pop the front task. */
    method WaitAndPop()
      requires Enabled(Abstract(), WorkerLock)
      modifies this
      ensures Abstract() == Next(old(Abstract()), WorkerLock)
    {
      if !(queue != [] || stopRequested) {
        worker := Sleeping;
        return;
      }
      if stopRequested && queue == [] {
        worker := Exited;
        exitMark := |enqueued|;
        return;
      }
      worker := Executing(queue[0]);
      queue := queue[1..];
    }

    method FinishTask()
      requires Enabled(Abstract(), WorkerFinish)
      modifies this
      ensures Abstract() == Next(old(Abstract()), WorkerFinish)
    {
      executed := executed + [worker.task];
      worker := Finished;
    }

    method LoadFlag()
      requires Enabled(Abstract(), WorkerLoadFlag)
      modifies this
      ensures Abstract() == Next(old(Abstract()), WorkerLoadFlag)
    {
      if drainWaiters {
        worker := ToNotify;
      } else {
        worker := AtLock;
      }
    }

    method NotifyDrainers()
      requires Enabled(Abstract(), WorkerNotify)
      modifies this
      ensures Abstract() == Next(old(Abstract()), WorkerNotify)
    {
      if queue == [] {
        if drainer == Asleep {
          drainer := AtGate;
        }
      }
      worker := AtLock;
    }

    method RaiseDrainFlag()
      requires Enabled(Abstract(), DrainBegin)
      modifies this
      ensures Abstract() == Next(old(Abstract()), DrainBegin)
    {
      drainWaiters := true;
      drainer := AtGate;
      drainMark := |enqueued|;
    }

    method TestQueue()
      requires Enabled(Abstract(), DrainCheck)
      modifies this
      ensures Abstract() == Next(old(Abstract()), DrainCheck)
    {
      if queue == [] {
        drainer := Passed;
      } else {
        drainer := Asleep;
      }
    }

    method LowerDrainFlag()
      requires Enabled(Abstract(), DrainReturn)
      modifies this
      ensures Abstract() == Next(old(Abstract()), DrainReturn)
    {
      drainWaiters := false;
      drainer := NotDraining;
    }

    method BeginStart()
      requires Enabled(Abstract(), StartCheck)
      modifies this
      ensures Abstract() == Next(old(Abstract()), StartCheck)
    {
      if running {
        return;
      }
      control := ClearStop;
    }

    method ClearStopRequest()
      requires Enabled(Abstract(), StartClear)
      modifies this
      ensures Abstract() == Next(old(Abstract()), StartClear)
    {
      stopRequested := false;
      control := Spawn;
    }

    method SpawnThread()
      requires Enabled(Abstract(), StartSpawn)
      modifies this
      ensures Abstract() == Next(old(Abstract()), StartSpawn)
    {
      worker := AtLock;
      control := PublishStart;
    }

    method PublishRunning()
      requires Enabled(Abstract(), StartPublish)
      modifies this
      ensures Abstract() == Next(old(Abstract()), StartPublish)
    {
      running := true;
      control := Steady;
    }

    method BeginStop()
      requires Enabled(Abstract(), StopCheck)
      modifies this
      ensures Abstract() == Next(old(Abstract()), StopCheck)
    {
      if !running {
        return;
      }
      control := SetStop;
    }

    method RequestStop()
      requires Enabled(Abstract(), StopSet)
      modifies this
      ensures Abstract() == Next(old(Abstract()), StopSet)
    {
      stopRequested := true;
      control := NotifyStop;
    }

    method NotifyStopRequest()
      requires Enabled(Abstract(), StopNotify)
      modifies this
      ensures Abstract() == Next(old(Abstract()), StopNotify)
    {
      control := Join;
      if worker == Sleeping {
        worker := AtLock;
      }
    }

    method JoinThread()
      requires Enabled(Abstract(), StopJoin)
      modifies this
      ensures Abstract() == Next(old(Abstract()), StopJoin)
    {
      worker := NoThread;
      control := PublishStop;
    }

    method PublishStopped()
      requires Enabled(Abstract(), StopPublish)
      modifies this
      ensures Abstract() == Next(old(Abstract()), StopPublish)
    {
      running := false;
      control := Steady;
    }

    /** One step of one thread. */
    method Perform(a: Action)
      requires Enabled(Abstract(), a)
      modifies this
      ensures Abstract() == Next(old(Abstract()), a)
    {
      match a
      case SubmitCheck(i, work) =>
        var r := CheckSubmit(i, work);
      case SubmitPush(i) => PushWork(i);
      case SubmitNotify(i) => NotifyWork(i);
      case WorkerLock => WaitAndPop();
      case WorkerSpurious => worker := AtLock;
      case WorkerFinish => FinishTask();
      case WorkerLoadFlag => LoadFlag();
      case WorkerNotify => NotifyDrainers();
      case DrainBegin => RaiseDrainFlag();
      case DrainCheck => TestQueue();
      case DrainSpurious => drainer := AtGate;
      case DrainReturn => LowerDrainFlag();
      case StartCheck => BeginStart();
      case StartClear => ClearStopRequest();
      case StartSpawn => SpawnThread();
      case StartPublish => PublishRunning();
      case StopCheck => BeginStop();
      case StopSet => RequestStop();
      case StopNotify => NotifyStopRequest();
      case StopJoin => JoinThread();
      case StopPublish => PublishStopped();
    }
  }

  // ---------------------------------------------------------------- whole executions of the object

  /** Each action can take place when its turn comes. */
  ghost predicate Possible(s: State, actions: seq<Action>)
    decreases |actions|
  {
    actions == [] || (Enabled(s, actions[0]) && Possible(Next(s, actions[0]), actions[1..]))
  }

  function Created(callers: nat): State {
    State([], false, false, false, NoThread, NotDraining, Steady, seq(callers, _ => Outside), [], [], 0, 0)
  }

  /** A new object goes through any possible interleaving of its threads, and only into reachable states. */
  method Execute(callers: nat, actions: seq<Action>) returns (w: WorkerThread)
    requires Possible(Created(callers), actions)
    ensures fresh(w) && Run(Created(callers), actions, w.Abstract())
    ensures Reachable(w.Abstract()) && Inv(w.Abstract())
  {
    hide Inv, Enabled;
    w := new WorkerThread(callers);
    assert w.Abstract() == Created(callers);
    for k := 0 to |actions|
      invariant fresh(w) && Run(Created(callers), actions[..k], w.Abstract()) && Possible(w.Abstract(), actions[k..])
    {
      ghost var before := w.Abstract();
      assert actions[k..][0] == actions[k] && actions[k..][1..] == actions[k + 1..];
      w.Perform(actions[k]);
      RunOneMore(Created(callers), actions, k, before, w.Abstract());
    }
    assert actions[..|actions|] == actions;
    CreatedReaches(callers, actions, w.Abstract());
  }

  lemma RunOneMore(s: State, actions: seq<Action>, k: nat, t: State, u: State)
    requires k < |actions| && Run(s, actions[..k], t) && Enabled(t, actions[k]) && u == Next(t, actions[k])
    ensures Run(s, actions[..k + 1], u)
  {
    var a := actions[k];
    assert [a][1..] == [];
    assert Run(u, [], u) && Run(t, [a], u);
    RunConcat(s, actions[..k], t, [a], u);
    assert actions[..k] + [a] == actions[..k + 1];
  }

  lemma CreatedReaches(callers: nat, actions: seq<Action>, t: State)
    requires Run(Created(callers), actions, t)
    ensures Reachable(t) && Inv(t)
  {
    assert Initial(Created(callers));
    ReachableInv(t);
  }
}
