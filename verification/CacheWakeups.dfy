/** Wakeups of the waiter for cache memory, and the orphaned threads that may take them away. */
module CacheWakeups {
  import opened CacheCaps
  import opened CacheProtocol
  import opened Common

  /** While a waiter is blocked and the event is clear, it does not fit or someone is about to signal. */
  ghost predicate NoLostWakeup(s: State) {
    forall t: nat | InPhase(s, t, Waiting) && !s.event :: !Fits(s, t) || SomeoneWillSignal(s)
  }

  ghost predicate SomeoneWillSignal(s: State) {
    exists t: nat :: InPhase(s, t, Freed)
  }

  /** An orphaned thread clears the event that a waiter with room is blocked on, and nobody will set it again. */
  ghost predicate Steals(s: State, a: Action) {
    && a.Clear? && InPhase(s, a.t, OrphanWoken) && !SomeoneWillSignal(s)
    && exists u: nat :: InPhase(s, u, Waiting) && Fits(s, u)
  }

  /** A step loses a wakeup exactly if it steals one. */
  lemma StepLosesExactlyBySteal(s: State, a: Action)
    requires Enabled(s, a) && LockIsExclusive(s) && NoLostWakeup(s)
    ensures NoLostWakeup(Step(s, a)) <==> !Steals(s, a)
  {
    if Steals(s, a) {
      StolenIsLost(s, a);
    } else {
      NothingElseLoses(s, a);
    }
  }

  lemma StolenIsLost(s: State, a: Action)
    requires Enabled(s, a) && Steals(s, a)
    ensures !NoLostWakeup(Step(s, a))
  {
    var n := Step(s, a);
    var u: nat :| InPhase(s, u, Waiting) && Fits(s, u);
    assert InPhase(n, u, Waiting) && Fits(n, u);
    if SomeoneWillSignal(n) {
      var f: nat :| InPhase(n, f, Freed);
      assert InPhase(s, f, Freed);
    }
  }

  lemma NothingElseLoses(s: State, a: Action)
    requires Enabled(s, a) && LockIsExclusive(s) && NoLostWakeup(s) && !Steals(s, a)
    ensures NoLostWakeup(Step(s, a))
  {
    var n := Step(s, a);
    forall u: nat | InPhase(n, u, Waiting) && !n.event ensures !Fits(n, u) || SomeoneWillSignal(n) {
      if a.Free? {
        assert InPhase(n, a.t, Freed);
      } else if InPhase(s, u, Waiting) && (a.Clear? || !s.event) {
        WaiterKeepsWaiting(s, a, u);
      }
    }
  }

  /** If the load does not fall and nobody signals, a blocked waiter stays excused. */
  lemma WaiterKeepsWaiting(s: State, a: Action, u: nat)
    requires Enabled(s, a) && LockIsExclusive(s) && NoLostWakeup(s) && !Steals(s, a)
    requires InPhase(s, u, Waiting) && InPhase(Step(s, a), u, Waiting) && !a.Free?
    requires !Step(s, a).event && (a.Clear? || !s.event)
    ensures !Fits(Step(s, a), u) || SomeoneWillSignal(Step(s, a))
  {
    var n := Step(s, a);
    if SomeoneWillSignal(s) {
      var f: nat :| InPhase(s, f, Freed);
      assert InPhase(n, f, Freed);
    }
  }

  /** Over a whole run, no wakeup is ever lost exactly if no step steals one. */
  lemma {:induction false} RunLosesExactlyBySteal(max: nat, actions: seq<Action>)
    requires Run(max, actions).Ok?
    ensures (forall i | 0 <= i <= |actions| && Run(max, actions[..i]).Ok? :: NoLostWakeup(Run(max, actions[..i]).value))
       <==> (forall i | 0 <= i < |actions| && Run(max, actions[..i]).Ok? ::
               !Steals(Run(max, actions[..i]).value, actions[i]))
  {
    hide Step, Enabled, NoLostWakeup, Steals;
    if actions == [] {
      NothingLost(max);
    } else {
      var last := |actions| - 1;
      var before := actions[..last];
      assert Run(max, before).Ok?;
      var s := Run(max, before).value;
      RunLosesExactlyBySteal(max, before);
      assert forall i | 0 <= i <= last :: actions[..i] == before[..i];
      assert before[..last] == before && actions[..|actions|] == actions;
      EveryRunKeepsInvariant(max, before);
      if NoLostWakeup(s) {
        StepLosesExactlyBySteal(s, actions[last]);
      }
    }
  }

  lemma NothingLost(max: nat)
    ensures NoLostWakeup(Start(max))
  {
  }

  // ----- which requests can lose a wakeup -----

  /** Nobody has a time limit, so no thread outlives its coroutine. */
  ghost predicate NobodyIsTimed(s: State) {
    forall t: nat | t < |s.tasks| :: s.tasks[t].limit != Timed && !IsOrphan(s.tasks[t].phase)
  }

  predicate IsOrphan(p: Phase) {
    p.OrphanAcquiring? || p.OrphanHolding? || p.OrphanLooping? || p.OrphanWaiting? || p.OrphanWoken?
  }

  lemma StepKeepsUntimed(s: State, a: Action)
    requires Enabled(s, a) && NobodyIsTimed(s) && (a.Arrive? ==> a.limit != Timed)
    ensures NobodyIsTimed(Step(s, a)) && !Steals(s, a)
  {
    if a.Arrive? || a.Read? {
      hide IsPending, HoldsLock, Fits;
    } else {
      StepKeepsSizes(s, a);
      OrphansWereTimed(s, a);
      hide Step, Enabled, IsOrphan;
    }
  }

  lemma OrphansWereTimed(s: State, a: Action)
    requires Enabled(s, a) && !a.Arrive? && !a.Read?
    ensures var x, y := s.tasks[a.t], Step(s, a).tasks[a.t];
            y.limit == x.limit && (IsOrphan(y.phase) ==> IsOrphan(x.phase) || x.limit == Timed)
    ensures a.Clear? && !IsOrphan(s.tasks[a.t].phase) ==> !InPhase(s, a.t, OrphanWoken)
  {
    hide IsPending, HoldsLock, Fits;
    match a {
      case GiveUp(_) =>
      case Abandon(_) =>
      case Expire(_) =>
      case Acquire(_) =>
      case LoopTest(_) =>
      case Wake(_) =>
      case Clear(_) =>
      case _ =>
    }
  }

  ghost predicate LimitsIn(actions: seq<Action>, limits: set<Limit>) {
    forall r | r in Arrivals(actions) :: r.limit in limits
  }

  lemma {:induction false} UntimedRunsLoseNothing(max: nat, actions: seq<Action>, limits: set<Limit>)
    requires Run(max, actions).Ok? && LimitsIn(actions, limits) && Timed !in limits
    ensures NobodyIsTimed(Run(max, actions).value) && NoLostWakeup(Run(max, actions).value)
  {
    hide Step, Enabled, NoLostWakeup, NobodyIsTimed;
    if actions == [] {
      NobodyAtStart(max);
    } else {
      var before, a := actions[..|actions| - 1], actions[|actions| - 1];
      assert Arrivals(actions) == Arrivals(before) + if a.Arrive? then [Request(a.size, a.count, a.limit)] else [];
      assert a.Arrive? ==> Request(a.size, a.count, a.limit) in Arrivals(actions);
      UntimedRunsLoseNothing(max, before, limits);
      EveryRunKeepsInvariant(max, before);
      StepKeepsUntimed(Run(max, before).value, a);
      StepLosesExactlyBySteal(Run(max, before).value, a);
    }
  }

  lemma NobodyAtStart(max: nat)
    ensures NobodyIsTimed(Start(max)) && NoLostWakeup(Start(max))
  {
  }

  /** The cache is full and nobody is asking for memory. */
  ghost predicate IsFull(s: State) {
    s.current == s.max > 0 && s.enqueued == 0 && s.lock == None
  }

  /** s with one more request for the whole cache, in the given phase. */
  function Asking(s: State, p: Phase, enqueued: int, lock: Option<nat>): State {
    s.(enqueued := enqueued, lock := lock, tasks := s.tasks + [Task(s.max, 1, Timed, p, 0)])
  }

  lemma WaiterEnters(s: State)
    requires IsFull(s)
    ensures var t, arrived, queued := |s.tasks|, Asking(s, Arrived, s.max, None), Asking(s, Queued, s.max, None);
            && Leads(s, Arrive(s.max, 1, Timed), arrived)
            && Leads(arrived, Precheck(t), queued)
            && Leads(queued, Acquire(t), Asking(s, Holding, s.max, Some(t)))
  {
    hide IsPending, HoldsLock;
  }

  lemma WaiterBlocks(s: State)
    requires IsFull(s)
    ensures var t, looping := |s.tasks|, Asking(s, Looping, s.max, Some(|s.tasks|));
            && Leads(Asking(s, Holding, s.max, Some(t)), Test(t), looping)
            && Leads(looping, LoopTest(t), Asking(s, Waiting, s.max, Some(t)))
            && Leads(Asking(s, Waiting, s.max, Some(t)), GiveUp(t), Asking(s, OrphanWaiting, 0, None))
  {
    hide IsPending, HoldsLock;
  }

  lemma OneMoreWaits(max: nat, run: seq<Action>, s: State) returns (longer: seq<Action>)
    requires Run(max, run) == Ok(s) && IsFull(s) && s.max == max
    ensures Run(max, longer) == Ok(Asking(s, Waiting, max, Some(|s.tasks|)))
    ensures Arrivals(longer) == Arrivals(run) + [Request(max, 1, Timed)]
  {
    hide Run, Arrivals, Step, Enabled, Asking, IsFull;
    WaiterEnters(s);
    WaiterBlocks(s);
    var n := s;
    longer, n := Then(max, run, n, Arrive(max, 1, Timed));
    longer, n := Then(max, longer, n, Precheck(|s.tasks|));
    longer, n := Then(max, longer, n, Acquire(|s.tasks|));
    longer, n := Then(max, longer, n, Test(|s.tasks|));
    longer, n := Then(max, longer, n, LoopTest(|s.tasks|));
  }

  /** The first request takes the whole cache. */
  lemma OneFillsTheCache(max: nat) returns (run: seq<Action>, s: State)
    requires max > 0
    ensures Run(max, run) == Ok(s) && Arrivals(run) == [Request(max, 1, Timed)]
    ensures IsFull(s) && s.max == max && |s.tasks| == 1 && s.tasks[0].size == max && s.tasks[0].phase == Live
  {
    run, s := AdmitAll(max, [Request(max, 1, Timed)]);
    hide Run, Arrivals;
    run, s := Then(max, run, s, Charge(0));
  }

  /** The first request, an orphaned thread and a waiter, in the given phases. */
  function Three(s: State, current: int, event: bool, pipe: seq<Message>, p0: Phase, p1: Phase, p2: Phase): State
    requires |s.tasks| == 1
  {
    s.(current := current, event := event, pipe := pipe, enqueued := s.max, lock := Some(2),
       tasks := [s.tasks[0].(phase := p0), Task(s.max, 1, Timed, p1, 0), Task(s.max, 1, Timed, p2, 0)])
  }

  lemma MemoryComesBack(s: State)
    requires IsFull(s) && |s.tasks| == 1 && s.tasks[0].size == s.max
    ensures var pipe := s.pipe + [Delete(s.tasks[0].first, s.tasks[0].count)];
            var freed := Three(s, 0, s.event, pipe, Freed, OrphanWaiting, Waiting);
            && Leads(Three(s, s.max, s.event, s.pipe, Live, OrphanWaiting, Waiting), Free(0), freed)
            && Leads(freed, Signal(0), Three(s, 0, true, pipe, Done, OrphanWaiting, Waiting))
  {
    hide IsPending, HoldsLock;
  }

  /** The orphaned thread sees the event first and clears it. */
  lemma OrphanIsFirst(s: State, pipe: seq<Message>)
    requires |s.tasks| == 1
    ensures var woken := Three(s, 0, true, pipe, Done, OrphanWoken, Waiting);
            && Leads(Three(s, 0, true, pipe, Done, OrphanWaiting, Waiting), Wake(1), woken)
            && Leads(woken, Clear(1), Three(s, 0, false, pipe, Done, OrphanLooping, Waiting))
  {
    hide IsPending, HoldsLock;
  }

  lemma NobodyWillSignal(s: State, pipe: seq<Message>)
    requires |s.tasks| == 1
    ensures !NoLostWakeup(Three(s, 0, false, pipe, Done, OrphanLooping, Waiting))
  {
    assert InPhase(Three(s, 0, false, pipe, Done, OrphanLooping, Waiting), 2, Waiting);
  }

  /**
   Request 0 fills the cache. Request 1 waits, runs into its time limit, and leaves its thread behind.
   Request 2 waits. Request 0 frees its memory; the orphaned thread sees the event first and clears it.
   */
  lemma WakeupIsLost(max: nat) returns (run: seq<Action>)
    requires max > 0
    ensures Run(max, run).Ok? && LimitsIn(run, {Timed}) && !NoLostWakeup(Run(max, run).value)
  {
    var s: State, n: State;
    run, s := OneFillsTheCache(max);
    var orphaned := Asking(s, OrphanWaiting, 0, None);
    var pipe := s.pipe + [Delete(s.tasks[0].first, s.tasks[0].count)];
    WaiterBlocks(s);
    MemoryComesBack(s);
    OrphanIsFirst(s, pipe);
    NobodyWillSignal(s, pipe);
    assert IsFull(orphaned) && |orphaned.tasks| == 2 && s.tasks == [s.tasks[0].(phase := Live)];
    assert Asking(orphaned, Waiting, max, Some(2)) == Three(s, max, s.event, s.pipe, Live, OrphanWaiting, Waiting);
    hide Run, Arrivals, Step, Enabled, Asking, IsFull, Three, NoLostWakeup;
    run := OneMoreWaits(max, run, s);
    run, n := Then(max, run, Asking(s, Waiting, max, Some(1)), GiveUp(1));
    run := OneMoreWaits(max, run, orphaned);
    run, n := Then(max, run, Asking(orphaned, Waiting, max, Some(2)), Free(0));
    run, n := Then(max, run, n, Signal(0));
    run, n := Then(max, run, n, Wake(1));
    run, n := Then(max, run, n, Clear(1));
  }

  /** No interleaving loses a wakeup exactly if no request may carry a time limit. */
  lemma WakeupsAreSafeExactlyWithoutTimeLimits(max: nat, limits: set<Limit>)
    requires max > 0
    ensures (forall run | Run(max, run).Ok? && LimitsIn(run, limits) :: NoLostWakeup(Run(max, run).value))
       <==> Timed !in limits
  {
    if Timed in limits {
      var run := WakeupIsLost(max);
      assert LimitsIn(run, limits);
    } else {
      forall run | Run(max, run).Ok? && LimitsIn(run, limits) ensures NoLostWakeup(Run(max, run).value) {
        UntimedRunsLoseNothing(max, run, limits);
      }
    }
  }
}
