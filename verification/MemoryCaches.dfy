/**
 The cache object: its shared counters, pipe, lock and event, its atomic sections, and the coroutines made
 of them. Between any two sections of one coroutine the others may take any number of steps.
 */
module MemoryCaches {
  import opened CacheProtocol
  import opened CacheWakeups
  import opened Common

  /** What one look at the event brings to a blocked thread. */
  datatype Look = StaysBlocked | TestsAgain | Fails(gap: Gap)

  /** A place between two sections of one allocation; the k-th look at the lock or at the event follows it. */
  datatype Gap =
    | ToPrecheck | ToLock(k: nat) | ToTest | ToLook(k: nat) | ToClear(k: nat) | ToRetest(k: nat)
    | ToDequeue | ToCharge

  /**
   How an allocation ends, and in which gap if a time limit struck, or that it is still waiting when the account
   of it stops.
   */
  datatype Outcome = Allocated(first: nat) | Refused | TimedOut(gap: Gap) | StillWaiting

  /**
   Does the wait go on, or does the time limit end the coroutine, or the thread's own deadline its wait? While
   the lock is asked for, begun tells whether a thread has begun to acquire it.
   */
  datatype Ending = GoesOn | CoroutineEnds(begun: bool) | ThreadEnds

  /**
   What everybody else does in each gap, where the time limit strikes, and how often the lock and the event
   are looked at again before the account stops.
   */
  datatype Surroundings = Surroundings(
    others: Gap -> seq<Action>, ending: Gap -> Ending, lockLooks: nat, eventLooks: nat)
  {
    /** Nobody else does anything, and no time limit strikes. */
    ghost predicate Quiet() {
      forall g :: others(g) == [] && ending(g) == GoesOn
    }

    /** A time limit strikes in this gap, and struck in none before it in the same loop. */
    ghost predicate Strikes(g: Gap) {
      && (ending(g).CoroutineEnds? || (g.ToLook? && ending(g).ThreadEnds?))
      && match g
         case ToLock(k) => k <= lockLooks && forall j: nat | j < k :: !ending(ToLock(j)).CoroutineEnds?
         case ToTest => true
         case ToLook(k) => PassesLooks(k)
         case ToClear(k) => PassesLooks(k + 1)
         case ToRetest(k) => PassesLooks(k + 1) && !ending(ToClear(k)).CoroutineEnds?
         case _ => false
    }

    /** No time limit ended the coroutine before the first k looks at the event. */
    ghost predicate PassesLooks(k: nat) {
      k <= eventLooks + 1 && forall j: nat | j < k :: !ending(ToLook(j)).CoroutineEnds?
    }
  }

  /** Who is not among the others: the handler of one allocation, or the runtime. */
  datatype Self = HandlerOf(t: nat) | Runtime

  predicate ByOthers(a: Action, self: Self) {
    if self.Runtime? then !a.Read? else a.Arrive? || a.Read? || a.t != self.t
  }

  function Without(tasks: seq<Task>, t: nat): seq<Task>
    requires t < |tasks|
  {
    tasks[..t] + tasks[t + 1..]
  }

  lemma {:induction false} TotalWithout(tasks: seq<Task>, t: nat, p: Phase -> bool)
    requires t < |tasks|
    ensures Total(tasks, p) == Total(Without(tasks, t), p) + SizeIf(p, tasks[t])
    decreases |tasks|
  {
    var n := |tasks| - 1;
    if t < n {
      TotalWithout(tasks[..n], t, p);
      assert Without(tasks, t)[..n - 1] == Without(tasks[..n], t);
    } else {
      assert Without(tasks, t) == tasks[..n];
    }
  }

  lemma OthersLeaveTask(s: State, a: Action, t: nat)
    requires Enabled(s, a) && ByOthers(a, HandlerOf(t)) && t < |s.tasks|
    ensures |Step(s, a).tasks| >= |s.tasks| && Step(s, a).tasks[t] == s.tasks[t] && Step(s, a).max == s.max
  {
    hide IsPending, HoldsLock, Fits;
  }

  lemma HandlersOnlySend(s: State, a: Action)
    requires Enabled(s, a) && ByOthers(a, Runtime)
    ensures s.pipe <= Step(s, a).pipe && Step(s, a).tensors == s.tensors && Step(s, a).max == s.max
  {
    hide IsPending, HoldsLock, Fits;
  }

  /** Live handles of one allocation are among the live ones; those of one that ended are not. */
  lemma HandlesOf(s: State, t: nat)
    requires HandlesAreUnique(s) && t < |s.tasks| && IsCharged(s.tasks[t].phase)
    ensures s.tasks[t].phase == Live ==> Handles(s.tasks[t].first, s.tasks[t].count) <= LiveHandles(s.tasks)
    ensures s.tasks[t].phase != Live ==> Handles(s.tasks[t].first, s.tasks[t].count) !! LiveHandles(s.tasks)
  {
    hide LiveHandles;
    var x := s.tasks[t];
    forall h | h in Handles(x.first, x.count) ensures h in LiveHandles(s.tasks) <==> x.phase == Live {
      LiveHandlesAreThose(s.tasks, h);
    }
  }

  /** What the invariant says about one allocation. */
  lemma Settled(s: State, t: nat)
    requires Invariant(s) && t < |s.tasks|
    ensures s.enqueued == Total(Without(s.tasks, t), IsPending) + PendingSize(s.tasks[t])
    ensures s.current == Total(Without(s.tasks, t), IsLive) + LiveSize(s.tasks[t])
    ensures s.lock == Some(t) <==> HoldsLock(s.tasks[t].phase)
    ensures var x := s.tasks[t]; var mine := Handles(x.first, x.count);
            && (x.phase == Live ==> mine <= LiveHandles(s.tasks))
            && (IsCharged(x.phase) && x.phase != Live ==> mine !! LiveHandles(s.tasks))
  {
    TotalWithout(s.tasks, t, IsPending);
    TotalWithout(s.tasks, t, IsLive);
    if IsCharged(s.tasks[t].phase) {
      HandlesOf(s, t);
    }
    hide Total, LiveHandles, Handles;
  }

  predicate SameKind(r: Outcome, q: Outcome) {
    r.Allocated? == q.Allocated? && r.Refused? == q.Refused? && r.TimedOut? == q.TimedOut?
  }

  /** Where a time limit leaves an allocation. */
  function EndedFrom(p: Phase, begun: bool): Phase {
    if p == Queued then (if begun then OrphanAcquiring else Failed)
    else if p == Holding then OrphanHolding
    else OrphanOf(p)
  }

  lemma EndsFromLoop(p: Phase, begun: bool)
    requires p == Looping || p == Waiting || p == Woken
    ensures var q := EndedFrom(p, begun); HasEnded(q) && !HoldsLock(q) && !q.OrphanAcquiring? && q != Failed
  {
  }

  lemma TurnsAre(p: Phase)
    ensures HasTurn(p) <==> p == Holding || p == Looping || p == Waiting || p == Woken
  {
  }

  lemma HolderIsInLock(s: State, t: nat)
    requires Invariant(s) && t < |s.tasks|
    ensures HoldsLock(s.tasks[t].phase) <==> s.lock == Some(t)
  {
  }

  /** The sizes counted are those of actual requests, so none is negative. */
  lemma SizesAreSums(s: State, t: nat)
    requires Invariant(s) && t < |s.tasks|
    ensures s.current >= 0 && s.enqueued >= 0
  {
  }

  /** Failed, with or without a thread left behind. */
  predicate HasEnded(p: Phase) {
    || p.Failed? || p.OrphanAcquiring? || p.OrphanHolding?
    || p.OrphanLooping? || p.OrphanWaiting? || p.OrphanWoken?
  }

  class MemoryCache {
    const maxSizeBytes: nat
    var currentSizeBytes: int
    var enqueuedSizeBytes: int
    var handleCounter: nat
    var memoryFreed: bool
    var lock: Option<nat>
    var pipe: seq<Message>
    var allocatedTensors: set<nat>
    // where each allocation stands
    var tasks: seq<Task>

    function View(): State
      reads this
    {
      State(maxSizeBytes, currentSizeBytes, enqueuedSizeBytes, handleCounter, memoryFreed, lock,
            pipe, allocatedTensors, tasks)
    }

    constructor (maxSizeBytes: nat)
      ensures View() == Start(maxSizeBytes) && Invariant(View())
    {
      this.maxSizeBytes := maxSizeBytes;
      currentSizeBytes, enqueuedSizeBytes, handleCounter, memoryFreed := 0, 0, 0, false;
      pipe, allocatedTensors, lock, tasks := [], {}, None, [];
      new;
      StartKeepsInvariant(maxSizeBytes);
    }

    /** The request x stands in phase p. */
    ghost predicate Stands(t: nat, x: Task, p: Phase)
      reads this`tasks
    {
      t < |tasks| && tasks[t] == x.(phase := p)
    }

    ghost predicate Ends(t: nat, x: Task)
      reads this`tasks
    {
      t < |tasks| && HasEnded(tasks[t].phase) && tasks[t] == x.(phase := tasks[t].phase)
    }

    /** The counters are those of the other allocations, as if this one had never arrived. */
    ghost predicate IsUncounted(t: nat)
      reads this
    {
      && t < |tasks|
      && enqueuedSizeBytes == Total(Without(tasks, t), IsPending)
      && currentSizeBytes == Total(Without(tasks, t), IsLive)
    }

    ghost predicate LeavesNoTrace(t: nat)
      reads this
    {
      IsUncounted(t) && lock != Some(t)
    }

    /**
     What a request leaves behind whose time limit struck in a gap: a thread that acquires the lock if it had
     begun to, the lock itself if it was got and nobody told, or at most a thread of the waiting loop.
     */
    ghost predicate LeavesBehind(t: nat, gap: Gap, env: Surroundings)
      reads this
    {
      && t < |tasks| && (lock == Some(t) <==> gap == ToTest)
      && match gap
         case ToLock(_) =>
           tasks[t].phase == if env.ending(gap) == CoroutineEnds(true) then OrphanAcquiring else Failed
         case ToTest => tasks[t].phase == OrphanHolding
         case _ => HasEnded(tasks[t].phase) && !tasks[t].phase.OrphanAcquiring?
    }

    /** There is room for size bytes beside everything charged. */
    predicate HasRoom(size: int)
      reads this
    {
      currentSizeBytes + size <= maxSizeBytes
    }

    /**
     Why an allocation is still waiting: somebody else holds the lock, or it holds the lock itself and is
     blocked on the event, without room or without the event being set.
     */
    ghost predicate IsHeldUp(t: nat)
      reads this
    {
      && t < |tasks| && lock.Some?
      && if lock != Some(t) then tasks[t].phase == Queued
         else
           && tasks[t].phase == Waiting && tasks[t].limit != Immediate && tasks[t].size <= maxSizeBytes
           && (!HasRoom(tasks[t].size) || !memoryFreed)
    }

    /** Each outcome has a cause. */
    ghost predicate IsExplained(r: Outcome, t: nat, allocSize: nat, limit: Limit, env: Surroundings)
      reads this
    {
      match r
      case Allocated(_) => allocSize <= maxSizeBytes
      case Refused =>
        allocSize > maxSizeBytes || (limit == Immediate && !HasRoom(enqueuedSizeBytes + allocSize))
      case TimedOut(gap) => limit == Timed && env.Strikes(gap) && LeavesBehind(t, gap, env)
      case StillWaiting => IsHeldUp(t)
    }

    /** As long as no wakeup was lost, an allocation that waits although there is room is about to be woken. */
    lemma WaitingHasReason(t: nat)
      requires IsHeldUp(t) && lock == Some(t) && NoLostWakeup(View())
      ensures HasRoom(tasks[t].size) ==> SomeoneWillSignal(View())
    {
      assert InPhase(View(), t, Waiting);
    }

    // ----- one step of somebody else -----

    method Perform(a: Action)
      requires Invariant(View()) && Enabled(View(), a)
      modifies this
      ensures View() == Step(old(View()), a) && Invariant(View())
    {
      hide Step, Enabled, Invariant;
      StepKeepsInvariant(View(), a);
      StepKeepsMax(View(), a);
      var n := Step(View(), a);
      currentSizeBytes, enqueuedSizeBytes, handleCounter, memoryFreed := n.current, n.enqueued, n.counter, n.event;
      lock, pipe, allocatedTensors, tasks := n.lock, n.pipe, n.tensors, n.tasks;
    }

    /** The others take those of the given steps that are possible. */
    method Interleave(actions: seq<Action>, self: Self)
      requires Invariant(View())
      modifies this
      ensures Invariant(View())
      ensures self.HandlerOf? && self.t < |old(tasks)| ==> self.t < |tasks| && tasks[self.t] == old(tasks)[self.t]
      ensures self.Runtime? ==> old(pipe) <= pipe && allocatedTensors == old(allocatedTensors)
      ensures actions == [] ==> View() == old(View())
    {
      hide Step, Invariant, Enabled;
      for i := 0 to |actions|
        invariant Invariant(View())
        invariant self.HandlerOf? && self.t < |old(tasks)| ==> self.t < |tasks| && tasks[self.t] == old(tasks)[self.t]
        invariant self.Runtime? ==> old(pipe) <= pipe && allocatedTensors == old(allocatedTensors)
        invariant actions == [] ==> View() == old(View())
      {
        var a := actions[i];
        if ByOthers(a, self) && Enabled(View(), a) {
          if self.HandlerOf? && self.t < |tasks| {
            OthersLeaveTask(View(), a, self.t);
          }
          if self.Runtime? {
            HandlersOnlySend(View(), a);
          }
          Perform(a);
        }
      }
    }

    // ----- the sections of one allocation -----

    /** Entering the wait for memory: the request is counted before anything is tested. */
    method Enqueue(allocSize: nat, count: nat, limit: Limit) returns (t: nat)
      requires Invariant(View())
      modifies this`enqueuedSizeBytes, this`tasks
      ensures t == |old(tasks)| && View() == Step(old(View()), Arrive(allocSize, count, limit)) && Invariant(View())
      ensures Stands(t, Task(allocSize, count, limit, Arrived, 0), Arrived)
      ensures enqueuedSizeBytes == old(enqueuedSizeBytes) + allocSize
    {
      t := |tasks|;
      StepKeepsInvariant(View(), Arrive(allocSize, count, limit));
      hide Invariant;
      enqueuedSizeBytes := enqueuedSizeBytes + allocSize;
      tasks := tasks + [Task(allocSize, count, limit, Arrived, 0)];
    }

    /** The request without patience is refused if it does not fit beside everything charged or enqueued. */
    method TestAtOnce(t: nat, allocSize: nat, limit: Limit) returns (refused: bool)
      requires Invariant(View()) && InPhase(View(), t, Arrived)
      requires tasks[t].size == allocSize && tasks[t].limit == limit
      modifies this`enqueuedSizeBytes, this`tasks
      ensures View() == Step(old(View()), Precheck(t)) && Invariant(View())
      ensures refused <==> limit == Immediate && !old(HasRoom(enqueuedSizeBytes))
      ensures tasks == old(tasks)[t := old(tasks)[t].(phase := if refused then Failed else Queued)]
      ensures enqueuedSizeBytes == old(enqueuedSizeBytes) - if refused then allocSize else 0
    {
      StepKeepsInvariant(View(), Precheck(t));
      hide Invariant;
      refused := limit == Immediate && currentSizeBytes + enqueuedSizeBytes > maxSizeBytes;
      if refused {
        enqueuedSizeBytes := enqueuedSizeBytes - allocSize;
      }
      tasks := tasks[t := tasks[t].(phase := if refused then Failed else Queued)];
    }

    method TakeLock(t: nat)
      requires Invariant(View()) && InPhase(View(), t, Queued) && lock == None
      modifies this`lock, this`tasks
      ensures View() == Step(old(View()), Acquire(t)) && Invariant(View())
      ensures tasks == old(tasks)[t := old(tasks)[t].(phase := Holding)]
    {
      StepKeepsInvariant(View(), Acquire(t));
      hide Invariant;
      lock := Some(t);
      tasks := tasks[t := tasks[t].(phase := Holding)];
    }

    /** The test under the lock: admitted, refused, or sent to the waiting loop. */
    method TestForRoom(t: nat, allocSize: nat, limit: Limit) returns (admitted: bool, refused: bool)
      requires Invariant(View()) && InPhase(View(), t, Holding)
      requires tasks[t].size == allocSize && tasks[t].limit == limit
      modifies this`lock, this`enqueuedSizeBytes, this`tasks
      ensures View() == Step(old(View()), CacheProtocol.Test(t)) && Invariant(View())
      ensures var p := if admitted then Admitted else if refused then Failed else Looping;
              tasks == old(tasks)[t := old(tasks)[t].(phase := p)]
      ensures admitted <==> old(HasRoom(allocSize))
      ensures refused <==> !admitted && (limit == Immediate || allocSize > maxSizeBytes)
      ensures enqueuedSizeBytes == old(enqueuedSizeBytes) - if refused then allocSize else 0
    {
      StepKeepsInvariant(View(), CacheProtocol.Test(t));
      hide Invariant;
      admitted, refused := false, false;
      if currentSizeBytes + allocSize > maxSizeBytes {
        if limit == Immediate || allocSize > maxSizeBytes {
          refused, lock := true, None;
          enqueuedSizeBytes := enqueuedSizeBytes - allocSize;
          tasks := tasks[t := tasks[t].(phase := Failed)];
        } else {
          tasks := tasks[t := tasks[t].(phase := Looping)];
        }
      } else {
        admitted, lock := true, None;
        tasks := tasks[t := tasks[t].(phase := Admitted)];
      }
    }

    /** The test inside the waiting loop; without room the thread blocks on the event. */
    method TestAgain(t: nat, allocSize: nat) returns (admitted: bool)
      requires Invariant(View()) && InPhase(View(), t, Looping) && tasks[t].size == allocSize
      modifies this`lock, this`tasks
      ensures View() == Step(old(View()), LoopTest(t)) && Invariant(View())
      ensures admitted <==> old(HasRoom(allocSize))
      ensures tasks == old(tasks)[t := old(tasks)[t].(phase := if admitted then Admitted else Waiting)]
    {
      StepKeepsInvariant(View(), LoopTest(t));
      hide Invariant;
      admitted := currentSizeBytes + allocSize <= maxSizeBytes;
      if admitted {
        lock := None;
      }
      tasks := tasks[t := tasks[t].(phase := if admitted then Admitted else Waiting)];
    }

    method SeeEvent(t: nat)
      requires Invariant(View()) && InPhase(View(), t, Waiting) && memoryFreed
      modifies this`tasks
      ensures View() == Step(old(View()), Wake(t)) && Invariant(View())
      ensures tasks == old(tasks)[t := old(tasks)[t].(phase := Woken)]
    {
      StepKeepsInvariant(View(), Wake(t));
      hide Invariant;
      tasks := tasks[t := tasks[t].(phase := Woken)];
    }

    method ClearEvent(t: nat)
      requires Invariant(View()) && InPhase(View(), t, Woken)
      modifies this`memoryFreed, this`tasks
      ensures View() == Step(old(View()), Clear(t)) && Invariant(View())
      ensures tasks == old(tasks)[t := old(tasks)[t].(phase := Looping)]
    {
      StepKeepsInvariant(View(), Clear(t));
      hide Invariant;
      memoryFreed := false;
      tasks := tasks[t := tasks[t].(phase := Looping)];
    }

    /**
     The time limit ends the coroutine before a thread began to acquire the lock, or in the waiting loop, where
     the coroutine lets go of the lock and the thread goes on.
     */
    method TimeOut(t: nat, allocSize: nat)
      requires Invariant(View()) && Enabled(View(), GiveUp(t)) && tasks[t].size == allocSize
      modifies this`lock, this`enqueuedSizeBytes, this`tasks
      ensures View() == Step(old(View()), GiveUp(t)) && Invariant(View())
      ensures var p := old(tasks)[t].phase;
              tasks == old(tasks)[t := old(tasks)[t].(phase := if p == Queued then Failed else OrphanOf(p))]
    {
      StepKeepsInvariant(View(), GiveUp(t));
      hide Invariant;
      enqueuedSizeBytes := enqueuedSizeBytes - allocSize;
      if tasks[t].phase == Queued {
        tasks := tasks[t := tasks[t].(phase := Failed)];
      } else {
        lock := None;
        tasks := tasks[t := tasks[t].(phase := OrphanOf(tasks[t].phase))];
      }
    }

    /** The time limit ends the coroutine while its thread acquires the lock, or has it and nobody was told. */
    method AbandonLock(t: nat, allocSize: nat)
      requires Invariant(View()) && Enabled(View(), Abandon(t)) && tasks[t].size == allocSize
      modifies this`enqueuedSizeBytes, this`tasks
      ensures View() == Step(old(View()), Abandon(t)) && Invariant(View())
      ensures var p := old(tasks)[t].phase;
              tasks == old(tasks)[t := old(tasks)[t].(phase := if p == Queued then OrphanAcquiring else OrphanHolding)]
    {
      StepKeepsInvariant(View(), Abandon(t));
      hide Invariant;
      enqueuedSizeBytes := enqueuedSizeBytes - allocSize;
      tasks := tasks[t := tasks[t].(phase := if tasks[t].phase == Queued then OrphanAcquiring else OrphanHolding)];
    }

    /** The thread's own deadline passes while it is blocked: the allocation fails. */
    method DeadlinePasses(t: nat, allocSize: nat)
      requires Invariant(View()) && InPhase(View(), t, Waiting) && tasks[t].limit == Timed && tasks[t].size == allocSize
      modifies this`lock, this`enqueuedSizeBytes, this`tasks
      ensures View() == Step(old(View()), Expire(t)) && Invariant(View())
      ensures tasks == old(tasks)[t := old(tasks)[t].(phase := Failed)]
    {
      StepKeepsInvariant(View(), Expire(t));
      hide Invariant;
      enqueuedSizeBytes := enqueuedSizeBytes - allocSize;
      lock := None;
      tasks := tasks[t := tasks[t].(phase := Failed)];
    }

    method LeaveQueue(t: nat, allocSize: nat)
      requires Invariant(View()) && InPhase(View(), t, Admitted) && tasks[t].size == allocSize
      modifies this`enqueuedSizeBytes, this`tasks
      ensures View() == Step(old(View()), Dequeue(t)) && Invariant(View())
      ensures tasks == old(tasks)[t := old(tasks)[t].(phase := Dequeued)]
    {
      StepKeepsInvariant(View(), Dequeue(t));
      hide Invariant;
      enqueuedSizeBytes := enqueuedSizeBytes - allocSize;
      tasks := tasks[t := tasks[t].(phase := Dequeued)];
    }

    /** The charge, under the metadata lock: handles, sizes and the message to the runtime together. */
    method ChargeAndSend(t: nat, allocSize: nat, count: nat) returns (first: nat)
      requires Invariant(View()) && InPhase(View(), t, Dequeued)
      requires tasks[t].size == allocSize && tasks[t].count == count
      modifies this
      ensures first == old(handleCounter) && View() == Step(old(View()), Charge(t)) && Invariant(View())
      ensures tasks == old(tasks)[t := old(tasks)[t].(phase := Live, first := first)]
    {
      StepKeepsInvariant(View(), Charge(t));
      hide Invariant;
      first := handleCounter;
      currentSizeBytes := currentSizeBytes + allocSize;
      handleCounter := handleCounter + count;
      pipe := pipe + [Create(first, count)];
      tasks := tasks[t := tasks[t].(phase := Live, first := first)];
    }

    /** Giving memory back, under the metadata lock; the event is set afterwards. */
    method FreeAndSend(t: nat, allocSize: nat, first: nat, count: nat)
      requires Invariant(View()) && InPhase(View(), t, Live)
      requires tasks[t].size == allocSize && tasks[t].count == count && tasks[t].first == first
      modifies this
      ensures View() == Step(old(View()), CacheProtocol.Free(t)) && Invariant(View())
      ensures tasks == old(tasks)[t := old(tasks)[t].(phase := Freed)]
    {
      StepKeepsInvariant(View(), CacheProtocol.Free(t));
      hide Invariant;
      pipe := pipe + [Delete(first, count)];
      currentSizeBytes := currentSizeBytes - allocSize;
      tasks := tasks[t := tasks[t].(phase := Freed)];
    }

    method SignalFreed(t: nat)
      requires Invariant(View()) && InPhase(View(), t, Freed)
      modifies this
      ensures View() == Step(old(View()), Signal(t)) && Invariant(View())
      ensures tasks == old(tasks)[t := old(tasks)[t].(phase := Done)]
    {
      StepKeepsInvariant(View(), Signal(t));
      hide Invariant;
      memoryFreed := true;
      tasks := tasks[t := tasks[t].(phase := Done)];
    }

    // ----- the coroutines -----

    /** Others act, and the time limit may strike. */
    method Pause(t: nat, env: Surroundings, gap: Gap) returns (ended: bool)
      requires Invariant(View()) && t < |tasks| && (tasks[t].phase == Queued || HasTurn(tasks[t].phase))
      modifies this
      ensures Invariant(View()) && t < |tasks|
      ensures ended <==> env.ending(gap).CoroutineEnds? && old(tasks[t]).limit == Timed
      ensures tasks[t] == if ended then old(tasks[t]).(phase := EndedFrom(old(tasks[t]).phase, env.ending(gap).begun))
                          else old(tasks[t])
      ensures env.Quiet() ==> !ended && View() == old(View())
    {
      hide Step, Invariant, HasTurn;
      TurnsAre(tasks[t].phase);
      Interleave(env.others(gap), HandlerOf(t));
      ended := env.ending(gap).CoroutineEnds? && tasks[t].limit == Timed;
      if ended {
        if tasks[t].phase == Holding || (tasks[t].phase == Queued && env.ending(gap).begun) {
          AbandonLock(t, tasks[t].size);
        } else {
          TimeOut(t, tasks[t].size);
        }
      }
    }

    /** Asking for the lock, for as long as the surroundings let it go on. */
    method AcquireMemoryLock(t: nat, ghost x: Task, env: Surroundings) returns (r: Outcome)
      requires Invariant(View()) && Stands(t, x, Queued)
      modifies this
      ensures Invariant(View())
      ensures match r
              case Allocated(_) => Stands(t, x, Holding)
              case TimedOut(gap) =>
                Ends(t, x) && x.limit == Timed && gap.ToLock? && env.Strikes(gap) && LeavesBehind(t, gap, env)
              case StillWaiting => Stands(t, x, Queued) && lock.Some? && lock != Some(t)
              case Refused => false
      ensures env.Quiet() ==> SizesAre(old(currentSizeBytes), old(enqueuedSizeBytes))
      ensures env.Quiet() ==> (r.Allocated? <==> old(lock) == None) && !r.TimedOut?
    {
      hide Step, Invariant;
      for k := 0 to env.lockLooks + 1
        invariant Invariant(View()) && Stands(t, x, Queued)
        invariant k > 0 ==> lock.Some?
        invariant x.limit == Timed ==> forall j: nat | j < k :: !env.ending(ToLock(j)).CoroutineEnds?
        invariant env.Quiet() ==> View() == old(View())
      {
        var ended := Pause(t, env, ToLock(k));
        if ended {
          HolderIsInLock(View(), t);
          return TimedOut(ToLock(k));
        }
        if lock == None {
          TakeLock(t);
          return Allocated(0);
        }
      }
      HolderIsInLock(View(), t);
      r := StillWaiting;
    }

    ghost predicate SizesAre(current: int, enqueued: int)
      reads this
    {
      currentSizeBytes == current && enqueuedSizeBytes == enqueued
    }

    /** A pause in the waiting loop: a time limit leaves at most a thread behind, and not the lock. */
    method PauseInLoop(t: nat, env: Surroundings, gap: Gap) returns (ended: bool)
      requires Invariant(View()) && t < |tasks|
      requires tasks[t].phase == Looping || tasks[t].phase == Waiting || tasks[t].phase == Woken
      modifies this
      ensures Invariant(View()) && t < |tasks|
      ensures ended <==> env.ending(gap).CoroutineEnds? && old(tasks[t]).limit == Timed
      ensures if ended then
                && tasks[t] == old(tasks[t]).(phase := tasks[t].phase) && lock != Some(t)
                && HasEnded(tasks[t].phase) && !tasks[t].phase.OrphanAcquiring?
              else tasks[t] == old(tasks[t])
      ensures env.Quiet() ==> !ended && View() == old(View())
    {
      TurnsAre(tasks[t].phase);
      hide Step, Invariant, HasTurn, HoldsLock, HasEnded, EndedFrom;
      ghost var p := tasks[t].phase;
      ended := Pause(t, env, gap);
      if ended {
        EndsFromLoop(p, env.ending(gap).begun);
        HolderIsInLock(View(), t);
      }
    }

    /** Once the event is seen it is cleared, however long that takes. */
    method ClearAfterWakeup(t: nat, ghost x: Task, env: Surroundings, k: nat) returns (ended: bool, gap: Gap)
      requires Invariant(View()) && Stands(t, x, Waiting) && memoryFreed
      requires x.limit == Timed ==> env.PassesLooks(k + 1)
      modifies this
      ensures Invariant(View())
      ensures if ended then
                && Ends(t, x) && x.limit == Timed && lock != Some(t) && !tasks[t].phase.OrphanAcquiring?
                && (gap == ToClear(k) || gap == ToRetest(k)) && env.Strikes(gap)
              else Stands(t, x, Looping)
      ensures env.Quiet() ==> !ended && SizesAre(old(currentSizeBytes), old(enqueuedSizeBytes))
    {
      hide Step, Invariant;
      hide HasEnded, Surroundings.PassesLooks;
      SeeEvent(t);
      gap := ToClear(k);
      ended := PauseInLoop(t, env, gap);
      if !ended {
        ClearEvent(t);
        gap := ToRetest(k);
        ended := PauseInLoop(t, env, gap);
      }
    }

    /** One look at the event: the thread's deadline passes, or it stays blocked, or it clears the event. */
    method LookAtEvent(t: nat, ghost x: Task, env: Surroundings, k: nat) returns (r: Look)
      requires Invariant(View()) && Stands(t, x, Waiting)
      requires k <= env.eventLooks && (x.limit == Timed ==> env.PassesLooks(k + 1))
      modifies this
      ensures Invariant(View())
      ensures match r
              case StaysBlocked => Stands(t, x, Waiting) && !memoryFreed
              case TestsAgain => Stands(t, x, Looping)
              case Fails(gap) => Ends(t, x) && x.limit == Timed && env.Strikes(gap) && LeavesBehind(t, gap, env)
      ensures env.Quiet() ==> !r.Fails? && SizesAre(old(currentSizeBytes), old(enqueuedSizeBytes))
    {
      hide Step, Invariant;
      if env.ending(ToLook(k)).ThreadEnds? && tasks[t].limit == Timed {
        DeadlinePasses(t, tasks[t].size);
        HolderIsInLock(View(), t);
        return Fails(ToLook(k));
      }
      if !memoryFreed {
        return StaysBlocked;
      }
      var ended, gap := ClearAfterWakeup(t, x, env, k);
      r := if ended then Fails(gap) else TestsAgain;
    }

    /** The thread's loop: test, block on the event, clear it, test again. */
    method WaitUntilAvailable(t: nat, ghost x: Task, env: Surroundings) returns (r: Outcome)
      requires Invariant(View()) && Stands(t, x, Looping)
      modifies this
      ensures Invariant(View())
      ensures match r
              case Allocated(_) => Stands(t, x, Admitted) && HasRoom(x.size)
              case TimedOut(gap) => Ends(t, x) && x.limit == Timed && env.Strikes(gap) && LeavesBehind(t, gap, env)
              case StillWaiting => Stands(t, x, Waiting) && (!HasRoom(x.size) || !memoryFreed)
              case Refused => false
      ensures env.Quiet() ==> SizesAre(old(currentSizeBytes), old(enqueuedSizeBytes))
      ensures env.Quiet() ==> (r.Allocated? <==> old(HasRoom(x.size))) && !r.TimedOut?
    {
      hide Step, Invariant;
      for k := 0 to env.eventLooks + 1
        invariant Invariant(View()) && Stands(t, x, if k == 0 then Looping else Waiting)
        invariant k > 0 ==> !HasRoom(x.size) || !memoryFreed
        invariant x.limit == Timed ==> env.PassesLooks(k)
        invariant env.Quiet() ==> SizesAre(old(currentSizeBytes), old(enqueuedSizeBytes))
        invariant env.Quiet() && k > 0 ==> !HasRoom(x.size)
      {
        var ended := PauseInLoop(t, env, ToLook(k));
        if ended {
          return TimedOut(ToLook(k));
        }
        if tasks[t].phase == Waiting {
          var look := LookAtEvent(t, x, env, k);
          if look.Fails? {
            return TimedOut(look.gap);
          }
          if look.StaysBlocked? {
            continue;
          }
        }
        var admitted := TestAgain(t, tasks[t].size);
        if admitted {
          return Allocated(0);
        }
      }
      r := StillWaiting;
    }

    /** What becomes of a request when nobody else acts, the lock is free and no time limit strikes. */
    function QuietOutcome(current: int, enqueued: int, allocSize: nat, limit: Limit): Outcome {
      if limit == Immediate && current + enqueued > maxSizeBytes then Refused
      else if current + allocSize <= maxSizeBytes then Allocated(0)
      else if limit == Immediate || allocSize > maxSizeBytes then Refused
      else StillWaiting
    }

    /** With the lock held: the test, and the waiting loop if there is no room yet. */
    method TestOrWait(t: nat, ghost x: Task, allocSize: nat, limit: Limit, env: Surroundings) returns (r: Outcome)
      requires Invariant(View()) && Stands(t, x, Holding) && x.size == allocSize && x.limit == limit
      modifies this
      ensures Invariant(View()) && t < |tasks| && tasks[t] == x.(phase := tasks[t].phase)
      ensures match r
              case Allocated(_) => tasks[t].phase == Admitted && HasRoom(allocSize)
              case StillWaiting => tasks[t].phase == Waiting
              case TimedOut(_) => HasEnded(tasks[t].phase)
              case Refused => tasks[t].phase == Failed
      ensures IsExplained(r, t, allocSize, limit, env)
      ensures env.Quiet() ==> (r.Allocated? <==> old(HasRoom(allocSize))) && !r.TimedOut?
      ensures allocSize > maxSizeBytes ==> r.Refused? || r == TimedOut(ToTest)
      ensures r.StillWaiting? ==> limit != Immediate
    {
      hide Step, Invariant;
      var ended := Pause(t, env, ToTest);
      HolderIsInLock(View(), t);
      if ended {
        return TimedOut(ToTest);
      }
      var admitted, tooMuch := TestForRoom(t, allocSize, limit);
      SizesAreSums(View(), t);
      if tooMuch {
        return Refused;
      }
      if admitted {
        return Allocated(0);
      }
      r := WaitUntilAvailable(t, x, env);
      SizesAreSums(View(), t);
      HolderIsInLock(View(), t);
    }

    /** From the count of enqueued requests to the admission. */
    method WaitForFreeMemory(t: nat, ghost x: Task, allocSize: nat, limit: Limit, env: Surroundings)
      returns (r: Outcome)
      requires Invariant(View()) && Stands(t, x, Arrived) && x.size == allocSize && x.limit == limit
      modifies this
      ensures Invariant(View()) && t < |tasks| && tasks[t] == x.(phase := tasks[t].phase)
      ensures match r
              case Allocated(_) => tasks[t].phase == Admitted && HasRoom(allocSize)
              case StillWaiting => IsPending(tasks[t].phase)
              case TimedOut(_) => HasEnded(tasks[t].phase)
              case Refused => tasks[t].phase == Failed
      ensures IsExplained(r, t, allocSize, limit, env)
      ensures env.Quiet() && old(lock) == None ==>
                SameKind(r, QuietOutcome(old(currentSizeBytes), old(enqueuedSizeBytes), allocSize, limit))
    {
      hide Step, Invariant;
      var refused := TestAtOnce(t, allocSize, limit);
      if refused {
        return Refused;
      }
      r := AcquireMemoryLock(t, x, env);
      if r.Allocated? {
        r := TestOrWait(t, x, allocSize, limit, env);
      }
    }

    /** From the admission to the charge. */
    method ChargeAdmitted(t: nat, ghost x: Task, allocSize: nat, count: nat, env: Surroundings) returns (first: nat)
      requires Invariant(View()) && Stands(t, x, Admitted) && x.size == allocSize && x.count == count
      modifies this
      ensures Invariant(View()) && t < |tasks| && tasks[t] == x.(phase := Live, first := first)
    {
      hide Step, Invariant;
      Interleave(env.others(ToDequeue), HandlerOf(t));
      LeaveQueue(t, allocSize);
      Interleave(env.others(ToCharge), HandlerOf(t));
      first := ChargeAndSend(t, allocSize, count);
    }

    /**
     One allocation among all others. If it returns handles, they are live and charged; if it fails, the
     counters are those of the others. Every outcome has its cause and a time-out its gap, which tells what is
     left behind of the lock; in quiet surroundings the sizes alone decide.
     */
    method ScheduleAlloc(allocSize: nat, count: nat, limit: Limit, env: Surroundings) returns (r: Outcome, t: nat)
      requires Invariant(View())
      modifies this
      ensures Invariant(View()) && t == |old(tasks)| < |tasks|
      ensures tasks[t].size == allocSize && tasks[t].count == count && tasks[t].limit == limit
      ensures match r
              case Allocated(first) =>
                && tasks[t] == Task(allocSize, count, limit, Live, first)
                && Handles(first, count) <= LiveHandles(tasks)
                && currentSizeBytes == Total(Without(tasks, t), IsLive) + allocSize
                && enqueuedSizeBytes == Total(Without(tasks, t), IsPending) && lock != Some(t)
              case Refused => LeavesNoTrace(t)
              case TimedOut(_) => IsUncounted(t)
              case StillWaiting => IsPending(tasks[t].phase)
      ensures IsExplained(r, t, allocSize, limit, env)
      ensures env.Quiet() && old(lock) == None ==>
                SameKind(r, QuietOutcome(old(currentSizeBytes), old(enqueuedSizeBytes) + allocSize, allocSize, limit))
    {
      hide Step, Invariant, LiveHandles, Total, Without, Handles;
      ghost var x := Task(allocSize, count, limit, Arrived, 0);
      t := Enqueue(allocSize, count, limit);
      Interleave(env.others(ToPrecheck), HandlerOf(t));
      r := WaitForFreeMemory(t, x, allocSize, limit, env);
      if r.Allocated? {
        SizesAreSums(View(), t);
        var first := ChargeAdmitted(t, x, allocSize, count, env);
        r := Allocated(first);
      }
      Settled(View(), t);
    }

    /** allocate_cache: memory is held while the caller works with it and given back afterwards. */
    method AllocateCache(
      allocSize: nat, count: nat, limit: Limit, env: Surroundings, during: seq<Action>, after: seq<Action>)
      returns (r: Outcome, t: nat)
      requires Invariant(View())
      modifies this
      ensures Invariant(View()) && t == |old(tasks)| < |tasks|
      ensures r.Allocated? ==> LeavesNoTrace(t) && Handles(r.first, count) !! LiveHandles(tasks)
                               && tasks[t].phase == Done
      ensures r.Refused? ==> LeavesNoTrace(t)
      ensures r.TimedOut? ==> IsUncounted(t)
      ensures IsExplained(r, t, allocSize, limit, env)
      ensures env.Quiet() && old(lock) == None ==>
                SameKind(r, QuietOutcome(old(currentSizeBytes), old(enqueuedSizeBytes) + allocSize, allocSize, limit))
    {
      hide Step, Invariant, LiveHandles, Total, Without, Handles;
      r, t := ScheduleAlloc(allocSize, count, limit, env);
      if r.Allocated? {
        Interleave(during, HandlerOf(t));
        FreeAndSend(t, allocSize, r.first, count);
        Interleave(after, HandlerOf(t));
        SignalFreed(t);
        Settled(View(), t);
      }
    }

    // ----- the runtime -----

    /**
     The runtime reads messages until the pipe is empty, while handlers go on sending, and then looks the
     handles up. It finds them exactly if they belong to live allocations, and warns about no message.
     */
    method UseCache(handles: set<nat>, sent: seq<seq<Action>>) returns (found: bool, warned: bool)
      requires Invariant(View())
      modifies this
      ensures Invariant(View()) && pipe == []
      ensures allocatedTensors == LiveHandles(tasks)
      ensures found <==> handles <= LiveHandles(tasks)
      ensures !warned
    {
      hide Step, LiveHandles, HandlesAreUnique, SizesAddUp, LockIsExclusive;
      warned := false;
      var k := 0;
      while pipe != []
        invariant Invariant(View()) && !warned && 0 <= k <= |sent|
        decreases |sent| - k, |pipe|
      {
        var missing := ReadMessage();
        warned := warned || missing;
        if k < |sent| {
          Interleave(sent[k], Runtime);
          k := k + 1;
        }
      }
      found := handles <= allocatedTensors;
    }

    method ReadMessage() returns (missing: bool)
      requires Invariant(View()) && pipe != []
      modifies this`pipe, this`allocatedTensors
      ensures View() == Step(old(View()), Read) && Invariant(View()) && !missing && |pipe| < |old(pipe)|
    {
      StepKeepsInvariant(View(), Read);
      missing := false;
      var message := pipe[0];
      match message {
        case Create(first, count) =>
          allocatedTensors := allocatedTensors + Handles(first, count);
        case Delete(first, count) =>
          missing := !(Handles(first, count) <= allocatedTensors);
          allocatedTensors := allocatedTensors - Handles(first, count);
      }
      pipe := pipe[1..];
    }
  }
}
