/**
 BackpressureController (src/dispatch/backpressure.cpp) as a step system.  Any number of threads
 interleave; one step is one region under the mutex, one notification or one wakeup, and a waiting
 thread may wake without being notified.
 */
module Backpressure {
  import opened Wrappers

  /**
   Idle: outside the controller.  Waiting: blocked on the condition variable.  Woken: released from
   the wait but not yet re-checking under the mutex.  Notifying: slot released, notification pending.
   */
  datatype Pc = Idle | Waiting | Woken | Notifying

  datatype State = State(max: nat, inFlight: int, threads: seq<Pc>, acquires: nat, releases: nat)

  datatype Action =
    | Acquire(t: nat)                    // the locked region of acquire(), entered for the first time
    | Recheck(t: nat)                    // the same region, re-entered after a wakeup
    | Release(t: nat)                    // the locked region of release()
    | Notify(t: nat, w: Option<nat>)     // notify_one(), waking w if anybody waits
    | Spurious(t: nat)

  ghost predicate Initial(s: State) {
    && s.max > 0 && s.inFlight == 0 && s.acquires == 0 && s.releases == 0
    && forall t :: 0 <= t < |s.threads| ==> s.threads[t] == Idle
  }

  predicate At(s: State, t: nat, pc: Pc) {
    t < |s.threads| && s.threads[t] == pc
  }

  predicate Enabled(s: State, a: Action) {
    match a
    case Acquire(t) => At(s, t, Idle)
    case Recheck(t) => At(s, t, Woken)
    case Release(t) => At(s, t, Idle)
    case Notify(t, w) =>
      At(s, t, Notifying) && (if w.None? then Waiting !in s.threads else At(s, w.value, Waiting))
    case Spurious(w) => At(s, w, Waiting)
  }

  function Move(s: State, t: nat, pc: Pc): State
    requires t < |s.threads|
  {
    s.(threads := s.threads[t := pc])
  }

  function Take(s: State, t: nat): State
    requires t < |s.threads|
  {
    if s.inFlight < s.max then
      Move(s, t, Idle).(inFlight := s.inFlight + 1, acquires := s.acquires + 1)
    else
      Move(s, t, Waiting)
  }

  /** A release without a slot in flight throws and changes nothing. */
  function Next(s: State, a: Action): State
    requires Enabled(s, a)
  {
    match a
    case Acquire(t) => Take(s, t)
    case Recheck(t) => Take(s, t)
    case Release(t) =>
      if s.inFlight > 0 then Move(s, t, Notifying).(inFlight := s.inFlight - 1, releases := s.releases + 1) else s
    case Notify(t, w) => if w.Some? then Move(Move(s, t, Idle), w.value, Woken) else Move(s, t, Idle)
    case Spurious(w) => Move(s, w, Woken)
  }

  ghost predicate Run(s: State, actions: seq<Action>, last: State)
    decreases |actions|
  {
    if actions == [] then s == last
    else Enabled(s, actions[0]) && Run(Next(s, actions[0]), actions[1..], last)
  }

  // ---------------------------------------------------------------- the class

  function Created(max: nat, callers: nat): State {
    State(max, 0, seq(callers, _ => Idle), 0, 0)
  }

  /** Each method is one step of the calling thread; `threads` records where every thread stands. */
  class BackpressureController {
    const maxInFlight: nat
    var inFlight: int
    var threads: seq<Pc>
    var acquires: nat
    var releases: nat

    function Abstract(): State
      reads this
    {
      State(maxInFlight, inFlight, threads, acquires, releases)
    }

    constructor (maxInFlight: nat, callers: nat)
      requires maxInFlight > 0
      ensures Abstract() == Created(maxInFlight, callers)
    {
      this.maxInFlight, this.inFlight, this.acquires, this.releases := maxInFlight, 0, 0, 0;
      this.threads := seq(callers, _ => Idle);
    }

    /** Locked region of acquire(): take a slot, or go to sleep on the condition variable. */
    method TakeOrWait(t: nat, ghost a: Action)
      requires a == Acquire(t) || a == Recheck(t)
      requires Enabled(Abstract(), a)
      modifies this
      ensures Abstract() == Next(old(Abstract()), a)
    {
      if !(inFlight < maxInFlight) {
        threads := threads[t := Waiting];
        return;
      }
      inFlight := inFlight + 1;
      acquires := acquires + 1;
      threads := threads[t := Idle];
    }

    method ReleaseSlot(t: nat) returns (r: Result<()>)
      requires Enabled(Abstract(), Release(t))
      modifies this
      ensures Abstract() == Next(old(Abstract()), Release(t))
      ensures r == if old(inFlight) > 0 then Ok(()) else Err(InternalError)
    {
      if !(inFlight > 0) {
        return Err(InternalError);
      }
      inFlight := inFlight - 1;
      releases := releases + 1;
      threads := threads[t := Notifying];
      return Ok(());
    }

    method NotifyOne(t: nat, w: Option<nat>)
      requires Enabled(Abstract(), Notify(t, w))
      modifies this
      ensures Abstract() == Next(old(Abstract()), Notify(t, w))
    {
      threads := threads[t := Idle];
      if w.Some? {
        threads := threads[w.value := Woken];
      }
    }

    /** One step of one thread. */
    method Perform(a: Action)
      requires Enabled(Abstract(), a)
      modifies this
      ensures Abstract() == Next(old(Abstract()), a)
    {
      match a
      case Acquire(t) => TakeOrWait(t, a);
      case Recheck(t) => TakeOrWait(t, a);
      case Release(t) =>
        var r := ReleaseSlot(t);
      case Notify(t, w) => NotifyOne(t, w);
      case Spurious(w) => threads := threads[w := Woken];
    }
  }

  /** `max_in_flight` must be positive. */
  method MakeController(maxInFlight: nat, callers: nat) returns (r: Result<BackpressureController>)
    ensures r.Ok? <==> maxInFlight > 0
    ensures r.Ok? ==> fresh(r.value) && Initial(r.value.Abstract()) && r.value.Abstract() == Created(maxInFlight, callers)
    ensures r.Err? ==> r.error == InvalidArgument
  {
    if maxInFlight == 0 {
      return Err(InvalidArgument);
    }
    var c := new BackpressureController(maxInFlight, callers);
    return Ok(c);
  }

  // ---------------------------------------------------------------- safety over every run

  function Count(s: State, pc: Pc): nat {
    multiset(s.threads)[pc]
  }

  ghost predicate SlotsBounded(s: State) {
    0 <= s.inFlight <= s.max && 0 < s.max && s.inFlight == s.acquires - s.releases
  }

  /** While anybody sleeps, each free slot is matched by a notification or a wakeup still to be acted on. */
  ghost predicate NoLostWakeup(s: State) {
    Waiting in s.threads ==> s.max - s.inFlight <= Count(s, Notifying) + Count(s, Woken)
  }

  ghost predicate Inv(s: State) {
    SlotsBounded(s) && NoLostWakeup(s)
  }

  lemma MoveCounts(s: State, t: nat, to: Pc, pc: Pc)
    requires t < |s.threads|
    ensures Count(Move(s, t, to), pc) + (if s.threads[t] == pc then 1 else 0)
            == Count(s, pc) + (if to == pc then 1 else 0)
  {
  }

  lemma Recount(s: State, t: nat, to: Pc)
    requires t < |s.threads|
    ensures forall pc :: Count(Move(s, t, to), pc) + (if s.threads[t] == pc then 1 else 0)
                         == Count(s, pc) + (if to == pc then 1 else 0)
    ensures Waiting in Move(s, t, to).threads && to != Waiting ==> Waiting in s.threads
  {
    forall pc
      ensures Count(Move(s, t, to), pc) + (if s.threads[t] == pc then 1 else 0) == Count(s, pc) + (if to == pc then 1 else 0)
    {
      MoveCounts(s, t, to, pc);
    }
  }

  lemma TakeKeepsInv(s: State, t: nat)
    requires Inv(s) && (At(s, t, Idle) || At(s, t, Woken))
    ensures Inv(Take(s, t))
  {
    Recount(s, t, if s.inFlight < s.max then Idle else Waiting);
  }

  lemma ReleaseKeepsInv(s: State, t: nat)
    requires Inv(s) && At(s, t, Idle)
    ensures Inv(Next(s, Release(t)))
  {
    Recount(s, t, Notifying);
  }

  lemma NotifyKeepsInv(s: State, t: nat, w: Option<nat>)
    requires Inv(s) && Enabled(s, Notify(t, w))
    ensures Inv(Next(s, Notify(t, w)))
  {
    var u := Move(s, t, Idle);
    Recount(s, t, Idle);
    if w.Some? {
      Recount(u, w.value, Woken);
    }
  }

  lemma StepKeepsInv(s: State, a: Action)
    requires Inv(s) && Enabled(s, a)
    ensures Inv(Next(s, a))
  {
    match a
    case Acquire(t) => TakeKeepsInv(s, t);
    case Recheck(t) => TakeKeepsInv(s, t);
    case Release(t) => ReleaseKeepsInv(s, t);
    case Notify(t, w) => NotifyKeepsInv(s, t, w);
    case Spurious(w) => Recount(s, w, Woken);
  }

  /** Slots never exceed the limit and no wakeup is lost, in any interleaving of any number of threads. */
  lemma {:induction false} EveryRunIsSafe(s: State, actions: seq<Action>, last: State)
    requires Run(s, actions, last) && (Initial(s) || Inv(s))
    ensures Inv(last)
    decreases |actions|
  {
    if Initial(s) {
      assert Waiting !in s.threads;
    }
    if actions != [] {
      StepKeepsInv(s, actions[0]);
      EveryRunIsSafe(Next(s, actions[0]), actions[1..], last);
    }
  }

  // ---------------------------------------------------------------- what the history says

  /** How many acquires have got a slot, read off the actions alone. */
  function Gained(max: nat, history: seq<Action>): nat {
    if history == [] then 0
    else
      var before, a := history[..|history| - 1], history[|history| - 1];
      Gained(max, before) + if (a.Acquire? || a.Recheck?) && Gained(max, before) - Freed(max, before) < max then 1 else 0
  }

  /** How many releases have given one back. */
  function Freed(max: nat, history: seq<Action>): nat {
    if history == [] then 0
    else
      var before, a := history[..|history| - 1], history[|history| - 1];
      Freed(max, before) + if a.Release? && Gained(max, before) - Freed(max, before) > 0 then 1 else 0
  }

  /** Where thread t stands: what its last action, or the last notification that reached it, made of it. */
  function Standing(max: nat, history: seq<Action>, t: nat): Pc {
    if history == [] then Idle
    else
      var before, a := history[..|history| - 1], history[|history| - 1];
      var slots := Gained(max, before) - Freed(max, before);
      match a
      case Acquire(u) => if u != t then Standing(max, before, t) else if slots < max then Idle else Waiting
      case Recheck(u) => if u != t then Standing(max, before, t) else if slots < max then Idle else Waiting
      case Release(u) => if u != t || slots <= 0 then Standing(max, before, t) else Notifying
      case Notify(u, w) => if w == Some(t) then Woken else if u == t then Idle else Standing(max, before, t)
      case Spurious(u) => if u == t then Woken else Standing(max, before, t)
  }

  ghost predicate Matches(s: State, max: nat, history: seq<Action>) {
    && s.max == max
    && s.acquires == Gained(max, history) && s.releases == Freed(max, history)
    && s.inFlight == Gained(max, history) - Freed(max, history)
    && forall t :: 0 <= t < |s.threads| ==> s.threads[t] == Standing(max, history, t)
  }

  lemma MatchesNext(s: State, max: nat, history: seq<Action>, a: Action)
    requires Matches(s, max, history) && Enabled(s, a)
    ensures Matches(Next(s, a), max, history + [a])
  {
    assert (history + [a])[..|history + [a]| - 1] == history;
  }

  lemma {:induction false} RunMatches(s: State, max: nat, history: seq<Action>, actions: seq<Action>, last: State)
    requires Matches(s, max, history) && Run(s, actions, last)
    ensures Matches(last, max, history + actions)
    decreases |actions|
  {
    hide Matches, Next, Enabled;
    if actions == [] {
      assert history + [] == history;
    } else {
      MatchesNext(s, max, history, actions[0]);
      RunMatches(Next(s, actions[0]), max, history + [actions[0]], actions[1..], last);
      assert history + [actions[0]] + actions[1..] == history + actions;
    }
  }

  /**
   In every run the slots in flight are the acquires that found one free minus the releases that had one
   to give back, and every thread stands where its own last step or wakeup left it.
   */
  lemma HistoryDecides(s: State, actions: seq<Action>, last: State)
    requires Initial(s) && Run(s, actions, last)
    ensures last.inFlight == Gained(s.max, actions) - Freed(s.max, actions)
    ensures |last.threads| == |s.threads|
    ensures forall t :: 0 <= t < |last.threads| ==> last.threads[t] == Standing(s.max, actions, t)
  {
    assert [] + actions == actions;
    RunMatches(s, s.max, [], actions, last);
    ThreadsKept(s, actions, last);
  }

  lemma {:induction false} ThreadsKept(s: State, actions: seq<Action>, last: State)
    requires Run(s, actions, last)
    ensures |last.threads| == |s.threads|
    decreases |actions|
  {
    if actions != [] {
      ThreadsKept(Next(s, actions[0]), actions[1..], last);
    }
  }

  /** Anybody outside may call, and anybody asleep may wake. */
  lemma CallsAreOpen(s: State, t: nat)
    requires t < |s.threads|
    ensures s.threads[t] == Idle ==> Enabled(s, Acquire(t)) && Enabled(s, Release(t))
    ensures s.threads[t] == Waiting ==> Enabled(s, Spurious(t))
  {
  }

  // ---------------------------------------------------------------- wakeups are acted on

  predicate IsWakeup(a: Action) {
    a.Recheck? || a.Notify?
  }

  ghost predicate OnlyWakeups(actions: seq<Action>) {
    forall k :: 0 <= k < |actions| ==> IsWakeup(actions[k])
  }

  ghost predicate Settled(s: State) {
    forall a :: IsWakeup(a) ==> !Enabled(s, a)
  }

  function Pending(s: State): nat {
    2 * Count(s, Notifying) + Count(s, Woken)
  }

  lemma WakeupConsumes(s: State, a: Action)
    requires Enabled(s, a) && IsWakeup(a)
    ensures Pending(Next(s, a)) < Pending(s)
  {
  }

  lemma {:induction false} WakeupsTerminate(s: State, actions: seq<Action>, last: State)
    requires Run(s, actions, last) && OnlyWakeups(actions)
    ensures |actions| + Pending(last) <= Pending(s)
    decreases |actions|
  {
    if actions != [] {
      WakeupConsumes(s, actions[0]);
      WakeupsTerminate(Next(s, actions[0]), actions[1..], last);
    }
  }

  lemma SettledMeansNothingPending(s: State)
    requires Settled(s)
    ensures Woken !in s.threads && Notifying !in s.threads
  {
    if Woken in s.threads {
      var t :| 0 <= t < |s.threads| && s.threads[t] == Woken;
      assert Enabled(s, Recheck(t));
    }
    if Notifying in s.threads {
      var t :| 0 <= t < |s.threads| && s.threads[t] == Notifying;
      if Waiting in s.threads {
        var w :| 0 <= w < |s.threads| && s.threads[w] == Waiting;
        assert Enabled(s, Notify(t, Some(w)));
      } else {
        assert Enabled(s, Notify(t, None));
      }
    }
  }

  /**
   From any reachable state, the wakeups under way run out after a bounded number of steps, and once
   they have, a thread is left sleeping only if every slot is taken.
   */
  lemma WakeupsReachSleepers(s0: State, prefix: seq<Action>, s: State, actions: seq<Action>, last: State)
    requires Initial(s0) && Run(s0, prefix, s) && Run(s, actions, last) && OnlyWakeups(actions)
    ensures |actions| <= Pending(s)
    ensures Settled(last) && Waiting in last.threads ==> last.inFlight == last.max
  {
    EveryRunIsSafe(s0, prefix, s);
    EveryRunIsSafe(s, actions, last);
    WakeupsTerminate(s, actions, last);
    if Settled(last) {
      SettledMeansNothingPending(last);
      assert Woken !in multiset(last.threads) && Notifying !in multiset(last.threads);
    }
  }

  // ---------------------------------------------------------------- whole executions of the object

  /** Each action can take place when its turn comes. */
  ghost predicate Possible(s: State, actions: seq<Action>)
    decreases |actions|
  {
    actions == [] || (Enabled(s, actions[0]) && Possible(Next(s, actions[0]), actions[1..]))
  }

  lemma {:induction false} RunOneMore(s: State, actions: seq<Action>, t: State, a: Action)
    requires Run(s, actions, t) && Enabled(t, a)
    ensures Run(s, actions + [a], Next(t, a))
    decreases |actions|
  {
    if actions == [] {
      assert [] + [a] == [a] && [a][1..] == [];
    } else {
      assert (actions + [a])[1..] == actions[1..] + [a];
      RunOneMore(Next(s, actions[0]), actions[1..], t, a);
    }
  }

  /** A new object, refused without slots, goes through any possible interleaving and keeps its limit. */
  method Execute(maxInFlight: nat, callers: nat, actions: seq<Action>) returns (r: Result<BackpressureController>)
    requires Possible(Created(maxInFlight, callers), actions)
    ensures r.Ok? <==> maxInFlight > 0
    ensures r.Err? ==> r.error == InvalidArgument
    ensures r.Ok? ==> fresh(r.value) && Run(Created(maxInFlight, callers), actions, r.value.Abstract())
    ensures r.Ok? ==> 0 <= r.value.inFlight <= maxInFlight && NoLostWakeup(r.value.Abstract())
  {
    hide Enabled, Next;
    r := MakeController(maxInFlight, callers);
    if r.Err? {
      return;
    }
    var c := r.value;
    ghost var start := Created(maxInFlight, callers);
    for k := 0 to |actions|
      invariant fresh(c) && Run(start, actions[..k], c.Abstract()) && Possible(c.Abstract(), actions[k..])
    {
      assert actions[k..][0] == actions[k] && actions[k..][1..] == actions[k + 1..];
      assert actions[..k + 1] == actions[..k] + [actions[k]];
      RunOneMore(start, actions[..k], c.Abstract(), actions[k]);
      c.Perform(actions[k]);
    }
    assert actions[..|actions|] == actions;
    assert Initial(start);
    EveryRunIsSafe(start, actions, c.Abstract());
    LimitKept(start, actions, c.Abstract());
  }

  lemma {:induction false} LimitKept(s: State, actions: seq<Action>, last: State)
    requires Run(s, actions, last)
    ensures last.max == s.max
    decreases |actions|
  {
    if actions != [] {
      LimitKept(Next(s, actions[0]), actions[1..], last);
    }
  }
}
