/** The lock of the requests for cache memory, and the orphaned threads that may keep it for ever. */
module CacheLocks {
  import opened CacheCaps
  import opened CacheProtocol
  import opened CacheWakeups
  import opened Common

  /** The lock is held by a thread whose coroutine has ended: nobody will release it. */
  ghost predicate Stuck(s: State) {
    s.lock.Some? && InPhase(s, s.lock.value, OrphanHolding)
  }

  /** The time limit strikes after the lock was got and before the coroutine goes on, or an orphan gets the lock. */
  predicate Sticks(s: State, a: Action) {
    || (a.Abandon? && InPhase(s, a.t, Holding))
    || (a.Acquire? && InPhase(s, a.t, OrphanAcquiring))
  }

  /** A step leaves the lock stuck exactly if it was, or if a time limit strikes while the lock is acquired. */
  lemma StepSticksExactly(s: State, a: Action)
    requires Enabled(s, a) && LockIsExclusive(s)
    ensures Stuck(Step(s, a)) <==> Stuck(s) || Sticks(s, a)
  {
    if Stuck(s) {
      StuckStays(s, a);
    } else if a.Arrive? || a.Read? {
      hide IsPending, HasTurn, Fits;
    } else {
      StepKeepsSizes(s, a);
      StepLock(s, a);
      OrphansHold(s, a);
      hide Step, Enabled;
    }
  }

  lemma OrphansHold(s: State, a: Action)
    requires Enabled(s, a) && !a.Arrive? && !a.Read?
    ensures Step(s, a).tasks[a.t].phase == OrphanHolding <==> Sticks(s, a)
    ensures s.tasks[a.t].phase != OrphanHolding
  {
    hide IsPending, HoldsLock, HasTurn, Fits;
    match a {
      case Abandon(_) =>
      case Acquire(_) =>
      case _ =>
    }
  }

  /** Nobody but the orphan holds the lock, and the orphan takes no step. */
  lemma OthersStep(s: State, a: Action)
    requires Enabled(s, a) && LockIsExclusive(s) && Stuck(s) && !a.Arrive? && !a.Read?
    ensures a.t != s.lock.value && a.t < |s.tasks| && !HoldsLock(s.tasks[a.t].phase)
    ensures !Admits(s, a)
  {
    OrphansHold(s, a);
    hide Step, Fits, IsPending;
  }

  /** Once stuck, always stuck, and no request is admitted any more. */
  lemma StuckStays(s: State, a: Action)
    requires Enabled(s, a) && LockIsExclusive(s) && Stuck(s)
    ensures Stuck(Step(s, a)) && !Admits(s, a)
  {
    if a.Arrive? || a.Read? {
      hide IsPending, HasTurn, Fits;
    } else {
      StepKeepsSizes(s, a);
      StepLock(s, a);
      OthersStep(s, a);
      hide Step, Enabled, Admits, HoldsLock;
    }
  }

  predicate WasAdmitted(p: Phase) {
    IsAdmitted(p) || IsCharged(p)
  }

  lemma OnlyTestsAdmit(s: State, a: Action, t: nat)
    requires Enabled(s, a) && t < |Step(s, a).tasks| && WasAdmitted(Step(s, a).tasks[t].phase) && !Admits(s, a)
    ensures t < |s.tasks| && WasAdmitted(s.tasks[t].phase)
  {
    if a.Arrive? || a.Read? {
      hide IsPending, HoldsLock, HasTurn, Fits;
    } else {
      StepKeepsSizes(s, a);
      if a.t == t {
        OwnAdmission(s, a);
      } else {
        hide Step, Enabled;
      }
    }
  }

  lemma OwnAdmission(s: State, a: Action)
    requires Enabled(s, a) && !a.Arrive? && !a.Read? && WasAdmitted(Step(s, a).tasks[a.t].phase) && !Admits(s, a)
    ensures WasAdmitted(s.tasks[a.t].phase)
  {
    hide IsPending, HoldsLock, HasTurn;
    if a.Test? || a.LoopTest? {
    } else {
      hide Fits;
      match a {
        case Dequeue(_) =>
        case Charge(_) =>
        case Free(_) =>
        case Signal(_) =>
        case _ =>
      }
    }
  }

  /** However a run goes on after the lock got stuck, whoever has memory then was admitted before. */
  lemma {:induction false} NobodyIsAdmittedOnceStuck(max: nat, before: seq<Action>, after: seq<Action>, t: nat)
    requires Run(max, before).Ok? && Stuck(Run(max, before).value)
    requires Run(max, before + after).Ok? && t < |Run(max, before + after).value.tasks|
    ensures Stuck(Run(max, before + after).value)
    ensures WasAdmitted(Run(max, before + after).value.tasks[t].phase) ==>
              t < |Run(max, before).value.tasks| && WasAdmitted(Run(max, before).value.tasks[t].phase)
    decreases |after|
  {
    hide Step, Enabled, Stuck, WasAdmitted, Admits;
    if after == [] {
      assert before + after == before;
    } else {
      var all, last := before + after, |after| - 1;
      assert all[..|all| - 1] == before + after[..last] && all[|all| - 1] == after[last];
      var s := Run(max, before + after[..last]).value;
      StuckUpTo(max, before, after[..last]);
      EveryRunKeepsInvariant(max, before + after[..last]);
      StuckStays(s, after[last]);
      if WasAdmitted(Run(max, all).value.tasks[t].phase) {
        OnlyTestsAdmit(s, after[last], t);
        NobodyIsAdmittedOnceStuck(max, before, after[..last], t);
      }
    }
  }

  lemma {:induction false} StuckUpTo(max: nat, before: seq<Action>, after: seq<Action>)
    requires Run(max, before).Ok? && Stuck(Run(max, before).value) && Run(max, before + after).Ok?
    ensures Stuck(Run(max, before + after).value)
    decreases |after|
  {
    hide Step, Enabled, Stuck;
    if after == [] {
      assert before + after == before;
    } else {
      var all, last := before + after, |after| - 1;
      assert all[..|all| - 1] == before + after[..last] && all[|all| - 1] == after[last];
      StuckUpTo(max, before, after[..last]);
      EveryRunKeepsInvariant(max, before + after[..last]);
      StuckStays(Run(max, before + after[..last]).value, after[last]);
    }
  }

  // ----- which requests can leave the lock stuck -----

  lemma {:induction false} UntimedRunsNeverStick(max: nat, actions: seq<Action>, limits: set<Limit>)
    requires Run(max, actions).Ok? && LimitsIn(actions, limits) && Timed !in limits
    ensures !Stuck(Run(max, actions).value)
  {
    UntimedRunsLoseNothing(max, actions, limits);
    hide Run, LimitsIn;
  }

  /** The only request, in the given phase. */
  function Alone(max: nat, p: Phase, enqueued: int, lock: Option<nat>): State {
    Start(max).(enqueued := enqueued, lock := lock, tasks := [Task(1, 1, Timed, p, 0)])
  }

  lemma AcquiringBegins(max: nat)
    ensures Leads(Start(max), Arrive(1, 1, Timed), Alone(max, Arrived, 1, None))
    ensures Leads(Alone(max, Arrived, 1, None), Precheck(0), Alone(max, Queued, 1, None))
  {
    hide IsPending, HoldsLock, HasTurn;
  }

  lemma AcquiringIsAbandoned(max: nat)
    ensures Leads(Alone(max, Queued, 1, None), Abandon(0), Alone(max, OrphanAcquiring, 0, None))
    ensures Leads(Alone(max, OrphanAcquiring, 0, None), Acquire(0), Alone(max, OrphanHolding, 0, Some(0)))
  {
    hide IsPending, HoldsLock, HasTurn;
  }

  /** A request runs into its time limit while its thread is acquiring the lock; then the thread gets it. */
  lemma LockMayStick(max: nat) returns (run: seq<Action>)
    ensures Run(max, run).Ok? && LimitsIn(run, {Timed}) && Stuck(Run(max, run).value)
  {
    AcquiringBegins(max);
    AcquiringIsAbandoned(max);
    assert Run(max, []) == Ok(Start(max)) && Arrivals([]) == [];
    assert Stuck(Alone(max, OrphanHolding, 0, Some(0)));
    hide Run, Arrivals, Step, Enabled, Alone, Start, Stuck;
    var n: State;
    run, n := Then(max, [], Start(max), Arrive(1, 1, Timed));
    run, n := Then(max, run, n, Precheck(0));
    run, n := Then(max, run, n, Abandon(0));
    run, n := Then(max, run, n, Acquire(0));
  }

  /** The lock stays usable in every interleaving exactly if no request may carry a time limit. */
  lemma LockIsSafeExactlyWithoutTimeLimits(max: nat, limits: set<Limit>)
    ensures (forall run | Run(max, run).Ok? && LimitsIn(run, limits) :: !Stuck(Run(max, run).value))
       <==> Timed !in limits
  {
    if Timed in limits {
      var run := LockMayStick(max);
      assert LimitsIn(run, limits);
    } else {
      forall run | Run(max, run).Ok? && LimitsIn(run, limits) ensures !Stuck(Run(max, run).value) {
        UntimedRunsNeverStick(max, run, limits);
      }
    }
  }
}
