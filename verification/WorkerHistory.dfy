/**
 What the history of a WorkerThread (src/dispatch/worker_thread.cpp) says about its state: every part
 of the state is read off the actions alone, each by the last action that concerns it.
 */
module WorkerHistory {
  import opened Wrappers
  import opened Worker

  function Before(history: seq<Action>): seq<Action>
    requires history != []
  {
    history[..|history| - 1]
  }

  function Latest(history: seq<Action>): Action
    requires history != []
  {
    history[|history| - 1]
  }

  // ---------------------------------------------------------------- the flags

  function IsRunning(history: seq<Action>): bool {
    if history == [] then false
    else if Latest(history).StartPublish? then true
    else if Latest(history).StopPublish? then false
    else IsRunning(Before(history))
  }

  function StopAsked(history: seq<Action>): bool {
    if history == [] then false
    else if Latest(history).StopSet? then true
    else if Latest(history).StartClear? then false
    else StopAsked(Before(history))
  }

  function DrainAsked(history: seq<Action>): bool {
    if history == [] then false
    else if Latest(history).DrainBegin? then true
    else if Latest(history).DrainReturn? then false
    else DrainAsked(Before(history))
  }

  // ---------------------------------------------------------------- the tasks

  /** Where submitter i stands; a submit is let in only while the worker counts as running. */
  function Submitter(history: seq<Action>, i: nat): SubmitPc {
    if history == [] then Outside
    else
      match Latest(history)
      case SubmitCheck(j, work) =>
        if j == i && work.Some? && IsRunning(Before(history)) then Admitted(work.value) else Submitter(Before(history), i)
      case SubmitPush(j) => if j == i then Queued else Submitter(Before(history), i)
      case SubmitNotify(j) => if j == i then Outside else Submitter(Before(history), i)
      case _ => Submitter(Before(history), i)
  }

  /** The tasks pushed, oldest first: each push brings the task that its submitter was let in with. */
  function Pushed(history: seq<Action>): seq<nat> {
    if history == [] then []
    else
      match Latest(history)
      case SubmitPush(i) =>
        (match Submitter(Before(history), i)
         case Admitted(task) => Pushed(Before(history)) + [task]
         case _ => Pushed(Before(history)))
      case _ => Pushed(Before(history))
  }

  /** How many of them the worker has popped: one per locked region that finds one waiting. */
  function Popped(history: seq<Action>): nat {
    if history == [] then 0
    else
      Popped(Before(history))
      + if Latest(history).WorkerLock? && Popped(Before(history)) < |Pushed(Before(history))| then 1 else 0
  }

  /** How many it has run. */
  function Done(history: seq<Action>): nat {
    if history == [] then 0 else Done(Before(history)) + if Latest(history).WorkerFinish? then 1 else 0
  }

  /** How many had been pushed when drain() was last called. */
  function PushedAtDrain(history: seq<Action>): nat {
    if history == [] then 0
    else if Latest(history).DrainBegin? then |Pushed(Before(history))|
    else PushedAtDrain(Before(history))
  }

  // ---------------------------------------------------------------- the threads

  function WorkerAt(history: seq<Action>): WorkerPc {
    if history == [] then NoThread
    else
      var before := Before(history);
      match Latest(history)
      case WorkerLock =>
        if Popped(before) < |Pushed(before)| then Executing(Pushed(before)[Popped(before)])
        else if StopAsked(before) then Exited
        else Sleeping
      case WorkerSpurious => AtLock
      case WorkerFinish => Worker.Finished
      case WorkerLoadFlag => if DrainAsked(before) then ToNotify else AtLock
      case WorkerNotify => AtLock
      case StartSpawn => AtLock
      case StopJoin => NoThread
      case SubmitNotify(_) => if WorkerAt(before) == Sleeping then AtLock else WorkerAt(before)
      case StopNotify => if WorkerAt(before) == Sleeping then AtLock else WorkerAt(before)
      case _ => WorkerAt(before)
  }

  function DrainerAt(history: seq<Action>): DrainPc {
    if history == [] then NotDraining
    else
      var before := Before(history);
      match Latest(history)
      case DrainBegin => AtGate
      case DrainSpurious => AtGate
      case DrainReturn => NotDraining
      case DrainCheck => if Popped(before) < |Pushed(before)| then Asleep else Passed
      case WorkerNotify =>
        if DrainerAt(before) == Asleep && Popped(before) == |Pushed(before)| then AtGate else DrainerAt(before)
      case _ => DrainerAt(before)
  }

  function ControlAt(history: seq<Action>): ControlPc {
    if history == [] then Steady
    else
      match Latest(history)
      case StartCheck => if IsRunning(Before(history)) then ControlAt(Before(history)) else ClearStop
      case StartClear => Spawn
      case StartSpawn => PublishStart
      case StartPublish => Steady
      case StopCheck => if IsRunning(Before(history)) then SetStop else ControlAt(Before(history))
      case StopSet => NotifyStop
      case StopNotify => Join
      case StopJoin => PublishStop
      case StopPublish => Steady
      case _ => ControlAt(Before(history))
  }

  // ---------------------------------------------------------------- the history decides the state

  ghost predicate FlagsMatch(s: State, history: seq<Action>) {
    s.running == IsRunning(history) && s.stopRequested == StopAsked(history) && s.drainWaiters == DrainAsked(history)
  }

  ghost predicate SubmittersMatch(s: State, history: seq<Action>) {
    && (forall i :: 0 <= i < |s.submitters| ==> s.submitters[i] == Submitter(history, i))
    && s.drainMark == PushedAtDrain(history)
  }

  ghost predicate TasksMatch(s: State, history: seq<Action>) {
    && Done(history) <= Popped(history) <= |Pushed(history)|
    && (s.worker.Executing? <==> Done(history) < Popped(history))
    && s.enqueued == Pushed(history)
    && s.executed == Pushed(history)[..Done(history)]
    && s.queue == Pushed(history)[Popped(history)..]
  }

  ghost predicate ThreadsMatch(s: State, history: seq<Action>) {
    s.worker == WorkerAt(history) && s.drainer == DrainerAt(history) && s.control == ControlAt(history)
  }

  ghost predicate Matches(s: State, history: seq<Action>) {
    FlagsMatch(s, history) && SubmittersMatch(s, history) && TasksMatch(s, history) && ThreadsMatch(s, history)
  }

  lemma Appended(history: seq<Action>, a: Action)
    ensures Before(history + [a]) == history && Latest(history + [a]) == a
  {
  }

  lemma FlagsNext(s: State, history: seq<Action>, a: Action)
    requires FlagsMatch(s, history) && Enabled(s, a)
    ensures FlagsMatch(Next(s, a), history + [a])
  {
    Appended(history, a);
  }

  lemma SubmittersNext(s: State, history: seq<Action>, a: Action)
    requires FlagsMatch(s, history) && SubmittersMatch(s, history) && s.enqueued == Pushed(history) && Enabled(s, a)
    ensures SubmittersMatch(Next(s, a), history + [a])
  {
    Appended(history, a);
  }

  lemma PushNext(s: State, history: seq<Action>, i: nat)
    requires SubmittersMatch(s, history) && TasksMatch(s, history) && Enabled(s, SubmitPush(i))
    ensures TasksMatch(Next(s, SubmitPush(i)), history + [SubmitPush(i)])
  {
    Appended(history, SubmitPush(i));
    var longer := history + [SubmitPush(i)];
    assert Submitter(history, i) == s.submitters[i];
    var pushed, task := Pushed(history), s.submitters[i].task;
    assert Pushed(longer) == pushed + [task];
    assert (pushed + [task])[Popped(history)..] == pushed[Popped(history)..] + [task];
    assert (pushed + [task])[..Done(history)] == pushed[..Done(history)];
    assert Popped(longer) == Popped(history) && Done(longer) == Done(history);
  }

  lemma LockNext(s: State, history: seq<Action>)
    requires TasksMatch(s, history) && Enabled(s, WorkerLock)
    ensures TasksMatch(Next(s, WorkerLock), history + [WorkerLock])
  {
    Appended(history, WorkerLock);
    var longer := history + [WorkerLock];
    assert Pushed(longer) == Pushed(history) && Done(longer) == Done(history);
    assert |s.queue| == |Pushed(history)| - Popped(history);
  }

  lemma FinishNext(s: State, history: seq<Action>)
    requires History(s) && TasksMatch(s, history) && Enabled(s, WorkerFinish)
    ensures TasksMatch(Next(s, WorkerFinish), history + [WorkerFinish])
  {
    Appended(history, WorkerFinish);
    var longer := history + [WorkerFinish];
    assert Pushed(longer) == Pushed(history) && Popped(longer) == Popped(history) && Done(longer) == Done(history) + 1;
    assert |s.enqueued| == |s.executed| + 1 + |s.queue|;
    assert s.enqueued[|s.executed|] == s.worker.task;
  }

  lemma IdleNext(s: State, history: seq<Action>, a: Action)
    requires TasksMatch(s, history) && Enabled(s, a) && !a.SubmitPush? && !a.WorkerLock? && !a.WorkerFinish?
    requires a.StartSpawn? ==> s.worker == NoThread
    ensures TasksMatch(Next(s, a), history + [a])
  {
    Appended(history, a);
    var longer := history + [a];
    assert Pushed(longer) == Pushed(history) && Popped(longer) == Popped(history) && Done(longer) == Done(history);
    hide Pushed, Popped, Done;
  }

  lemma TasksNext(s: State, history: seq<Action>, a: Action)
    requires Inv(s) && SubmittersMatch(s, history) && TasksMatch(s, history) && Enabled(s, a)
    ensures TasksMatch(Next(s, a), history + [a])
  {
    hide TasksMatch, SubmittersMatch, History, WorkerWakes, DrainerWakes, Next;
    match a
    case SubmitPush(i) => PushNext(s, history, i);
    case WorkerLock => LockNext(s, history);
    case WorkerFinish => FinishNext(s, history);
    case _ => IdleNext(s, history, a);
  }

  lemma ThreadsNext(s: State, history: seq<Action>, a: Action)
    requires Matches(s, history) && Enabled(s, a)
    ensures ThreadsMatch(Next(s, a), history + [a])
  {
    Appended(history, a);
  }

  lemma PushedMatch(s: State, history: seq<Action>)
    requires TasksMatch(s, history)
    ensures s.enqueued == Pushed(history)
  {
  }

  lemma {:induction false} RunMatches(s: State, history: seq<Action>, actions: seq<Action>, last: State)
    requires Inv(s) && Matches(s, history) && Run(s, actions, last)
    ensures Matches(last, history + actions)
    decreases |actions|
  {
    hide FlagsMatch, SubmittersMatch, TasksMatch, ThreadsMatch, Next, Enabled, Inv;
    if actions == [] {
      assert history + [] == history;
    } else {
      FlagsNext(s, history, actions[0]);
      PushedMatch(s, history);
      SubmittersNext(s, history, actions[0]);
      TasksNext(s, history, actions[0]);
      ThreadsNext(s, history, actions[0]);
      StepKeepsInv(s, actions[0]);
      RunMatches(Next(s, actions[0]), history + [actions[0]], actions[1..], last);
      assert history + [actions[0]] + actions[1..] == history + actions;
    }
  }

  /** In every run from a new object the state is what its history says. */
  lemma HistoryDecides(callers: nat, actions: seq<Action>, s: State)
    requires Run(Created(callers), actions, s)
    ensures Matches(s, actions)
  {
    hide Run;
    InitialInv(Created(callers));
    RunMatches(Created(callers), [], actions, s);
    assert [] + actions == actions;
  }

  // ---------------------------------------------------------------- who is let in

  function One(p: SubmitPc): multiset<nat> {
    if p.Admitted? then multiset{p.task} else multiset{}
  }

  /** The tasks let in but not yet pushed. */
  function InFlight(submitters: seq<SubmitPc>): multiset<nat> {
    if submitters == [] then multiset{} else One(submitters[0]) + InFlight(submitters[1..])
  }

  lemma {:induction false} InFlightUpdate(submitters: seq<SubmitPc>, i: nat, p: SubmitPc)
    requires i < |submitters|
    ensures InFlight(submitters[i := p]) + One(submitters[i]) == InFlight(submitters) + One(p)
  {
    hide One;
    if i == 0 {
      assert submitters[0 := p][1..] == submitters[1..];
      Commute(One(p), InFlight(submitters[1..]), One(submitters[0]));
    } else {
      assert submitters[i := p][1..] == submitters[1..][i - 1 := p];
      InFlightUpdate(submitters[1..], i - 1, p);
      Exchange(One(submitters[0]), InFlight(submitters[1..][i - 1 := p]), One(submitters[i]), InFlight(submitters[1..]), One(p));
    }
  }

  lemma Commute(a: multiset<nat>, b: multiset<nat>, c: multiset<nat>)
    ensures (a + b) + c == (c + b) + a
  {
  }

  lemma Exchange(a: multiset<nat>, b: multiset<nat>, c: multiset<nat>, d: multiset<nat>, e: multiset<nat>)
    requires b + c == d + e
    ensures (a + b) + c == (a + d) + e
  {
    assert a + (b + c) == (a + b) + c && a + (d + e) == (a + d) + e;
  }

  /** The tasks of the submit calls made while the worker counted as running, read off the actions alone. */
  function Accepted(history: seq<Action>): multiset<nat> {
    if history == [] then multiset{}
    else
      match Latest(history)
      case SubmitCheck(_, work) =>
        Accepted(Before(history)) + (if work.Some? && IsRunning(Before(history)) then multiset{work.value} else multiset{})
      case _ => Accepted(Before(history))
  }

  ghost predicate Balanced(s: State, history: seq<Action>) {
    multiset(s.enqueued) + InFlight(s.submitters) == Accepted(history)
  }

  /** Exactly the accepted task joins the accepted ones. */
  lemma AcceptedNext(history: seq<Action>, a: Action)
    ensures Accepted(history + [a]) == Accepted(history)
            + if a.SubmitCheck? && a.work.Some? && IsRunning(history) then multiset{a.work.value} else multiset{}
  {
    Appended(history, a);
  }

  lemma InFlightAfter(submitters: seq<SubmitPc>, i: nat, p: SubmitPc)
    requires i < |submitters|
    ensures var before, after := InFlight(submitters), InFlight(submitters[i := p]);
            if submitters[i].Admitted? then !p.Admitted? ==> before == after + multiset{submitters[i].task}
            else if p.Admitted? then after == before + multiset{p.task}
            else after == before
  {
    hide InFlight;
    InFlightUpdate(submitters, i, p);
    NothingMore(InFlight(submitters));
    NothingMore(InFlight(submitters[i := p]));
  }

  lemma NothingMore(m: multiset<nat>)
    ensures m + multiset{} == m
  {
  }

  lemma PushBalance(enqueued: seq<nat>, task: nat, before: multiset<nat>, after: multiset<nat>)
    requires before == after + multiset{task}
    ensures multiset(enqueued + [task]) + after == multiset(enqueued) + before
  {
    assert multiset(enqueued + [task]) == multiset(enqueued) + multiset{task};
  }

  /** A step changes the tasks enqueued or in flight only by letting one in. */
  lemma StepBalance(s: State, a: Action)
    requires Enabled(s, a)
    ensures multiset(Next(s, a).enqueued) + InFlight(Next(s, a).submitters)
         == multiset(s.enqueued) + InFlight(s.submitters)
            + if a.SubmitCheck? && a.work.Some? && s.running then multiset{a.work.value} else multiset{}
  {
    hide InFlight;
    match a
    case SubmitCheck(i, work) =>
      if s.running && work.Some? {
        InFlightAfter(s.submitters, i, Admitted(work.value));
        Regroup(multiset(s.enqueued), InFlight(s.submitters), multiset{work.value});
      }
    case SubmitPush(i) =>
      InFlightAfter(s.submitters, i, Queued);
      PushBalance(s.enqueued, s.submitters[i].task, InFlight(s.submitters), InFlight(s.submitters[i := Queued]));
    case SubmitNotify(i) =>
      InFlightAfter(s.submitters, i, Outside);
    case _ =>
  }

  lemma Regroup(a: multiset<nat>, b: multiset<nat>, c: multiset<nat>)
    ensures a + (b + c) == a + b + c
  {
  }

  lemma BalancedNext(s: State, history: seq<Action>, a: Action)
    requires Balanced(s, history) && FlagsMatch(s, history) && Enabled(s, a)
    ensures Balanced(Next(s, a), history + [a])
  {
    hide Next, Enabled, InFlight, Accepted;
    AcceptedNext(history, a);
    StepBalance(s, a);
  }

  lemma {:induction false} RunBalanced(s: State, history: seq<Action>, actions: seq<Action>, last: State)
    requires Balanced(s, history) && FlagsMatch(s, history) && Run(s, actions, last)
    ensures Balanced(last, history + actions)
    decreases |actions|
  {
    hide Balanced, FlagsMatch, Next, Enabled;
    if actions == [] {
      assert history + [] == history;
    } else {
      BalancedNext(s, history, actions[0]);
      FlagsNext(s, history, actions[0]);
      RunBalanced(Next(s, actions[0]), history + [actions[0]], actions[1..], last);
      assert history + [actions[0]] + actions[1..] == history + actions;
    }
  }

  lemma {:induction false} NobodyInFlight(submitters: seq<SubmitPc>)
    requires forall i :: 0 <= i < |submitters| ==> !submitters[i].Admitted?
    ensures InFlight(submitters) == multiset{}
  {
    if submitters != [] {
      NobodyInFlight(submitters[1..]);
    }
  }

  /**
   In every run the tasks enqueued, with those let in and not yet pushed, are exactly the tasks of the
   submit calls made while the worker was running: a refused submit leaves no trace.
   */
  lemma OnlyAcceptedTasks(callers: nat, actions: seq<Action>, s: State)
    requires Run(Created(callers), actions, s)
    ensures multiset(s.enqueued) + InFlight(s.submitters) == Accepted(actions)
  {
    NobodyInFlight(Created(callers).submitters);
    RunBalanced(Created(callers), [], actions, s);
    assert [] + actions == actions;
  }

  ghost predicate NoStartPublish(actions: seq<Action>) {
    forall k :: 0 <= k < |actions| ==> !actions[k].StartPublish?
  }

  lemma ClosedStep(s: State, a: Action)
    requires !s.running && NoneAdmitted(s) && Enabled(s, a) && !a.StartPublish?
    ensures var t := Next(s, a); !t.running && NoneAdmitted(t) && t.enqueued == s.enqueued
  {
    assert forall i :: !Enabled(s, SubmitPush(i));
  }

  /** Until a start is published, nobody gets in and nothing is enqueued. */
  lemma {:induction false} ClosedUntilStarted(s: State, actions: seq<Action>, last: State)
    requires !s.running && NoneAdmitted(s) && Run(s, actions, last) && NoStartPublish(actions)
    ensures last.enqueued == s.enqueued && NoneAdmitted(last) && !last.running
    decreases |actions|
  {
    hide Next, Enabled, NoneAdmitted;
    if actions != [] {
      ClosedStep(s, actions[0]);
      ClosedUntilStarted(Next(s, actions[0]), actions[1..], last);
    }
  }

  /** Calls and spurious wakeups are always open to the threads they belong to. */
  lemma CallsAreOpen(s: State, i: nat, work: Option<nat>)
    ensures i < |s.submitters| && s.submitters[i] == Outside ==> Enabled(s, SubmitCheck(i, work))
    ensures s.drainer == NotDraining ==> Enabled(s, DrainBegin)
    ensures s.control == Steady ==> Enabled(s, StartCheck) && Enabled(s, StopCheck)
    ensures s.worker == Sleeping ==> Enabled(s, WorkerSpurious)
    ensures s.drainer == Asleep ==> Enabled(s, DrainSpurious)
  {
  }
}
