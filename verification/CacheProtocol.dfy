/**
 The shared attention cache as a protocol: many handlers allocate and free, one runtime reads a pipe.
 Every step is one atomic section of the program; any interleaving of steps is a run.
 */
module CacheProtocol {
  import opened Common

  /**
   Where an allocation stands. Arrived: counted as enqueued. Queued: past the immediate test, asking for
   the lock. Holding: has the lock, before its first test. Looping: its thread is about to test inside the
   waiting loop. Waiting: the thread tested and is blocked on the event. Woken: it saw the event and has
   not cleared it. Admitted: passed a test and released the lock. Dequeued: no longer counted as enqueued,
   not charged yet. Live: charged. Freed: charge taken back, event not set yet.
   A time limit ends the coroutine but not its thread, which goes on as an orphan. From the waiting loop the
   coroutine releases the lock on its way out; while the lock is being acquired, or is held but the coroutine
   has not been told, it does not, and the orphan then holds the lock for nobody.
   */
  datatype Phase =
    | Arrived | Queued | Holding | Looping | Waiting | Woken | Admitted | Dequeued | Live | Freed | Done | Failed
    | OrphanAcquiring | OrphanHolding | OrphanLooping | OrphanWaiting | OrphanWoken

  /** How long a request is willing to wait. */
  datatype Limit = Immediate | Timed | Unlimited

  datatype Task = Task(size: nat, count: nat, limit: Limit, phase: Phase, first: nat)

  /** Handles are sent as a first handle and a count. */
  datatype Message = Create(first: nat, count: nat) | Delete(first: nat, count: nat)

  datatype State = State(
    max: nat, current: int, enqueued: int, counter: nat, event: bool, lock: Option<nat>,
    pipe: seq<Message>, tensors: set<nat>, tasks: seq<Task>)

  datatype Action =
    | Arrive(size: nat, count: nat, limit: Limit)
    | Precheck(t: nat) | GiveUp(t: nat) | Abandon(t: nat) | Expire(t: nat)
    | Acquire(t: nat) | Test(t: nat) | LoopTest(t: nat)
    | Wake(t: nat) | Clear(t: nat) | Dequeue(t: nat) | Charge(t: nat) | Free(t: nat) | Signal(t: nat) | Read

  function Handles(first: nat, count: nat): (r: set<nat>)
    ensures forall h :: h in r <==> first <= h < first + count
  {
    if count == 0 then {} else Handles(first, count - 1) + {first + count - 1}
  }

  predicate IsPending(p: Phase) {
    p.Arrived? || p.Queued? || HasTurn(p) || p.Admitted?
  }

  /** A coroutine that holds the lock. */
  predicate HasTurn(p: Phase) {
    p.Holding? || p.Looping? || p.Waiting? || p.Woken?
  }

  predicate HoldsLock(p: Phase) {
    HasTurn(p) || p.OrphanHolding?
  }

  predicate IsCharged(p: Phase) {
    p.Live? || p.Freed? || p.Done?
  }

  predicate IsLive(p: Phase) {
    p.Live?
  }

  function WithPhase(s: State, t: nat, p: Phase): State
    requires t < |s.tasks|
  {
    s.(tasks := s.tasks[t := s.tasks[t].(phase := p)])
  }

  /** The allocation ends without memory: it stops counting as enqueued and lets go of the lock. */
  function Fail(s: State, t: nat): State
    requires t < |s.tasks|
  {
    var n := WithPhase(s, t, Failed).(enqueued := s.enqueued - s.tasks[t].size);
    if HoldsLock(s.tasks[t].phase) then n.(lock := None) else n
  }

  function OrphanOf(p: Phase): Phase {
    if p == Looping then OrphanLooping else if p == Waiting then OrphanWaiting else OrphanWoken
  }

  /** The coroutine ends at its time limit inside the waiting loop; the thread keeps its place in the waiting loop. */
  function Orphan(s: State, t: nat): State
    requires t < |s.tasks|
  {
    WithPhase(s, t, OrphanOf(s.tasks[t].phase)).(enqueued := s.enqueued - s.tasks[t].size, lock := None)
  }

  predicate Fits(s: State, t: nat)
    requires t < |s.tasks|
  {
    s.current + s.tasks[t].size <= s.max
  }

  predicate InPhase(s: State, t: nat, p: Phase) {
    t < |s.tasks| && s.tasks[t].phase == p
  }

  /** May this step happen now? */
  predicate Enabled(s: State, a: Action) {
    match a
    case Arrive(_, _, _) => true
    case Precheck(t) => InPhase(s, t, Arrived)
    case GiveUp(t) =>
      && (InPhase(s, t, Queued) || InPhase(s, t, Looping) || InPhase(s, t, Waiting) || InPhase(s, t, Woken))
      && s.tasks[t].limit == Timed
    case Abandon(t) => (InPhase(s, t, Queued) || InPhase(s, t, Holding)) && s.tasks[t].limit == Timed
    case Expire(t) => (InPhase(s, t, Waiting) || InPhase(s, t, OrphanWaiting)) && s.tasks[t].limit == Timed
    case Acquire(t) => (InPhase(s, t, Queued) || InPhase(s, t, OrphanAcquiring)) && s.lock == None
    case Test(t) => InPhase(s, t, Holding)
    case LoopTest(t) => InPhase(s, t, Looping) || InPhase(s, t, OrphanLooping)
    case Wake(t) => (InPhase(s, t, Waiting) || InPhase(s, t, OrphanWaiting)) && s.event
    case Clear(t) => InPhase(s, t, Woken) || InPhase(s, t, OrphanWoken)
    case Dequeue(t) => InPhase(s, t, Admitted)
    case Charge(t) => InPhase(s, t, Dequeued)
    case Free(t) => InPhase(s, t, Live)
    case Signal(t) => InPhase(s, t, Freed)
    case Read => s.pipe != []
  }

  function Step(s: State, a: Action): State
    requires Enabled(s, a)
  {
    match a
    case Arrive(size, count, limit) =>
      s.(enqueued := s.enqueued + size, tasks := s.tasks + [Task(size, count, limit, Arrived, 0)])
    case Precheck(t) =>
      if s.tasks[t].limit == Immediate && s.current + s.enqueued > s.max then Fail(s, t) else WithPhase(s, t, Queued)
    case GiveUp(t) => if s.tasks[t].phase == Queued then Fail(s, t) else Orphan(s, t)
    case Abandon(t) =>
      WithPhase(s, t, if s.tasks[t].phase == Queued then OrphanAcquiring else OrphanHolding)
        .(enqueued := s.enqueued - s.tasks[t].size)
    case Expire(t) => if s.tasks[t].phase == Waiting then Fail(s, t) else WithPhase(s, t, Failed)
    case Acquire(t) =>
      WithPhase(s, t, if s.tasks[t].phase == Queued then Holding else OrphanHolding).(lock := Some(t))
    case Test(t) =>
      if Fits(s, t) then WithPhase(s, t, Admitted).(lock := None)
      else if s.tasks[t].limit == Immediate || s.tasks[t].size > s.max then Fail(s, t)
      else WithPhase(s, t, Looping)
    case LoopTest(t) =>
      if s.tasks[t].phase == OrphanLooping then WithPhase(s, t, if Fits(s, t) then Failed else OrphanWaiting)
      else if Fits(s, t) then WithPhase(s, t, Admitted).(lock := None)
      else WithPhase(s, t, Waiting)
    case Wake(t) => WithPhase(s, t, if s.tasks[t].phase == Waiting then Woken else OrphanWoken)
    case Clear(t) =>
      WithPhase(s, t, if s.tasks[t].phase == Woken then Looping else OrphanLooping).(event := false)
    case Dequeue(t) => WithPhase(s, t, Dequeued).(enqueued := s.enqueued - s.tasks[t].size)
    case Charge(t) =>
      var task := s.tasks[t];
      s.(tasks := s.tasks[t := task.(phase := Live, first := s.counter)],
         current := s.current + task.size, counter := s.counter + task.count,
         pipe := s.pipe + [Create(s.counter, task.count)])
    case Free(t) =>
      WithPhase(s, t, Freed).(current := s.current - s.tasks[t].size,
                              pipe := s.pipe + [Delete(s.tasks[t].first, s.tasks[t].count)])
    case Signal(t) => WithPhase(s, t, Done).(event := true)
    case Read => s.(pipe := s.pipe[1..], tensors := Apply(s.tensors, s.pipe[0]))
  }

  function Apply(tensors: set<nat>, m: Message): set<nat> {
    match m
    case Create(first, count) => tensors + Handles(first, count)
    case Delete(first, count) => tensors - Handles(first, count)
  }

  /** The runtime's tensors once it has read the whole pipe. */
  function Drained(tensors: set<nat>, pipe: seq<Message>): set<nat>
    decreases |pipe|
  {
    if pipe == [] then tensors else Drained(Apply(tensors, pipe[0]), pipe[1..])
  }

  /** No message in the pipe will ask to delete a handle that is not there. */
  predicate NeverMisses(tensors: set<nat>, pipe: seq<Message>)
    decreases |pipe|
  {
    pipe != [] ==>
      && (pipe[0].Delete? ==> Handles(pipe[0].first, pipe[0].count) <= tensors)
      && NeverMisses(Apply(tensors, pipe[0]), pipe[1..])
  }

  // ----- sums over tasks -----

  function SizeIf(p: Phase -> bool, t: Task): nat {
    if p(t.phase) then t.size else 0
  }

  function Total(tasks: seq<Task>, p: Phase -> bool): nat {
    if tasks == [] then 0 else Total(tasks[..|tasks| - 1], p) + SizeIf(p, tasks[|tasks| - 1])
  }

  lemma {:induction false} TotalAfterUpdate(tasks: seq<Task>, t: nat, x: Task, p: Phase -> bool)
    requires t < |tasks|
    ensures Total(tasks[t := x], p) == Total(tasks, p) - SizeIf(p, tasks[t]) + SizeIf(p, x)
    decreases |tasks|
  {
    var n := |tasks| - 1;
    if t < n {
      TotalAfterUpdate(tasks[..n], t, x, p);
      assert tasks[t := x][..n] == tasks[..n][t := x];
    } else {
      assert tasks[t := x][..n] == tasks[..n];
    }
  }

  lemma TotalAfterArrival(tasks: seq<Task>, x: Task, p: Phase -> bool)
    ensures Total(tasks + [x], p) == Total(tasks, p) + SizeIf(p, x)
  {
    assert (tasks + [x])[..|tasks|] == tasks;
  }

  // ----- what every run keeps -----

  function LiveHandles(tasks: seq<Task>): set<nat> {
    if tasks == [] then {}
    else
      var last := tasks[|tasks| - 1];
      LiveHandles(tasks[..|tasks| - 1]) + if last.phase == Live then Handles(last.first, last.count) else {}
  }

  lemma {:induction false} LiveHandlesAreThose(tasks: seq<Task>, h: nat)
    ensures h in LiveHandles(tasks) <==>
            exists t: nat :: t < |tasks| && tasks[t].phase == Live && h in Handles(tasks[t].first, tasks[t].count)
  {
    if tasks != [] {
      var n := |tasks| - 1;
      LiveHandlesAreThose(tasks[..n], h);
      if t: nat :| t < n && tasks[..n][t].phase == Live && h in Handles(tasks[..n][t].first, tasks[..n][t].count) {
        assert tasks[t] == tasks[..n][t];
      }
      if t: nat :| t < |tasks| && tasks[t].phase == Live && h in Handles(tasks[t].first, tasks[t].count) {
        assert t < n ==> tasks[..n][t] == tasks[t];
      }
    }
  }

  /** current_size is the sum of live reservations and enqueued_size the sum of pending ones. */
  ghost predicate SizesAddUp(s: State) {
    && s.current == Total(s.tasks, IsLive)
    && s.enqueued == Total(s.tasks, IsPending)
  }

  /** Charged tasks own handles below the counter, and no two of them share one. */
  ghost predicate HandlesAreUnique(s: State) {
    && (forall t: nat | t < |s.tasks| && IsCharged(s.tasks[t].phase) ::
          s.tasks[t].first + s.tasks[t].count <= s.counter)
    && forall t: nat, u: nat | t < |s.tasks| && u < |s.tasks| && t != u
                               && IsCharged(s.tasks[t].phase) && IsCharged(s.tasks[u].phase) ::
         Handles(s.tasks[t].first, s.tasks[t].count) !! Handles(s.tasks[u].first, s.tasks[u].count)
  }

  /** Reading the pipe to its end leaves exactly the live handles, and never misses one on the way. */
  ghost predicate RuntimeFollows(s: State) {
    Drained(s.tensors, s.pipe) == LiveHandles(s.tasks) && NeverMisses(s.tensors, s.pipe)
  }

  ghost predicate LockIsExclusive(s: State) {
    && (s.lock.Some? ==> s.lock.value < |s.tasks|)
    && forall t: nat | t < |s.tasks| :: HoldsLock(s.tasks[t].phase) <==> s.lock == Some(t)
  }

  ghost predicate Invariant(s: State) {
    SizesAddUp(s) && HandlesAreUnique(s) && RuntimeFollows(s) && LockIsExclusive(s)
  }

  function Start(max: nat): State {
    State(max, 0, 0, 0, false, None, [], {}, [])
  }

  lemma StartKeepsInvariant(max: nat)
    ensures Invariant(Start(max))
  {
  }

  /** The step changes one task in place. */
  ghost predicate Changes(s: State, n: State, t: nat, x: Task) {
    t < |s.tasks| && n.tasks == s.tasks[t := x]
  }

  function LiveSize(t: Task): nat {
    if IsLive(t.phase) then t.size else 0
  }

  lemma StepLoad(s: State, a: Action)
    requires Enabled(s, a) && !a.Arrive? && !a.Read?
    ensures var n := Step(s, a); var x, y := s.tasks[a.t], n.tasks[a.t];
            && Changes(s, n, a.t, y)
            && n.current == s.current - LiveSize(x) + LiveSize(y)
  {
    hide IsPending, HoldsLock, HasTurn, Fits;
    StepKeepsSizes(s, a);
    match a {
      case Charge(t) =>
      case Free(t) =>
      case _ =>
    }
  }

  /** The size of the task a step works on stays, and so does the capacity. */
  lemma StepKeepsSizes(s: State, a: Action)
    requires Enabled(s, a) && !a.Arrive? && !a.Read?
    ensures var n := Step(s, a);
            Changes(s, n, a.t, n.tasks[a.t]) && n.tasks[a.t].size == s.tasks[a.t].size && n.max == s.max
  {
    hide IsPending, HoldsLock, HasTurn, Fits;
  }

  lemma StepKeepsMax(s: State, a: Action)
    requires Enabled(s, a)
    ensures Step(s, a).max == s.max
  {
    if !a.Arrive? && !a.Read? {
      StepKeepsSizes(s, a);
    }
  }

  function PendingSize(t: Task): nat {
    if IsPending(t.phase) then t.size else 0
  }

  lemma StepQueue(s: State, a: Action)
    requires Enabled(s, a) && !a.Arrive? && !a.Read?
    ensures var n := Step(s, a); var x, y := s.tasks[a.t], n.tasks[a.t];
            && Changes(s, n, a.t, y)
            && n.enqueued == s.enqueued - PendingSize(x) + PendingSize(y)
  {
    hide Fits;
    StepKeepsSizes(s, a);
    match a {
      case Precheck(t) =>
      case GiveUp(t) =>
      case Abandon(t) =>
      case Expire(t) =>
      case Test(t) =>
      case Dequeue(t) =>
      case _ =>
    }
  }

  lemma StepLock(s: State, a: Action)
    requires Enabled(s, a) && !a.Arrive? && !a.Read?
    ensures var n := Step(s, a); var x, y := s.tasks[a.t].phase, n.tasks[a.t].phase;
            && Changes(s, n, a.t, n.tasks[a.t])
            && n.lock == (if HoldsLock(x) == HoldsLock(y) then s.lock else if HoldsLock(y) then Some(a.t) else None)
            && (!HoldsLock(x) && HoldsLock(y) ==> s.lock == None)
  {
    hide Fits, IsPending;
    StepKeepsSizes(s, a);
    match a {
      case Precheck(t) =>
      case GiveUp(t) =>
      case Abandon(t) =>
      case Expire(t) =>
      case Acquire(t) =>
      case Test(t) =>
      case LoopTest(t) =>
      case _ =>
    }
  }

  lemma SizesStep(s: State, a: Action)
    requires Enabled(s, a) && SizesAddUp(s)
    ensures SizesAddUp(Step(s, a))
  {
    var n := Step(s, a);
    if a.Arrive? {
      TotalAfterArrival(s.tasks, n.tasks[|s.tasks|], IsLive);
      TotalAfterArrival(s.tasks, n.tasks[|s.tasks|], IsPending);
    } else if !a.Read? {
      StepLoad(s, a);
      StepQueue(s, a);
      hide Step, Enabled, IsPending, IsLive;
      TotalAfterUpdate(s.tasks, a.t, n.tasks[a.t], IsLive);
      TotalAfterUpdate(s.tasks, a.t, n.tasks[a.t], IsPending);
    }
  }

  lemma LockStep(s: State, a: Action)
    requires Enabled(s, a) && LockIsExclusive(s)
    ensures LockIsExclusive(Step(s, a))
  {
    if !a.Arrive? && !a.Read? {
      StepLock(s, a);
      hide Step, Enabled;
    }
  }

  lemma ChargedTasks(s: State, a: Action, t: nat)
    requires Enabled(s, a) && t < |Step(s, a).tasks| && IsCharged(Step(s, a).tasks[t].phase)
    ensures var n := Step(s, a);
            && t < |s.tasks|
            && if a.Charge? && a.t == t then n.tasks[t].first == s.counter else KeepsHandles(s, n, t)
  {
    if a.Arrive? || a.Read? {
      hide IsPending, HoldsLock, HasTurn, Fits;
    } else {
      StepKeepsSizes(s, a);
      if a.t == t {
        OwnChargedTask(s, a);
      } else {
        hide Step, Enabled;
      }
    }
  }

  lemma OwnChargedTask(s: State, a: Action)
    requires Enabled(s, a) && !a.Arrive? && !a.Read? && IsCharged(Step(s, a).tasks[a.t].phase)
    ensures if a.Charge? then Step(s, a).tasks[a.t].first == s.counter else KeepsHandles(s, Step(s, a), a.t)
  {
    hide HoldsLock, HasTurn, Fits, IsPending;
    match a {
      case Charge(_) =>
      case Free(_) =>
      case Signal(_) =>
      case _ =>
    }
  }

  lemma CounterGrows(s: State, a: Action, t: nat)
    requires Enabled(s, a) && t < |s.tasks|
    ensures var n := Step(s, a);
            && s.counter <= n.counter && t < |n.tasks| && n.tasks[t].count == s.tasks[t].count
            && (a.Charge? && a.t == t ==> s.counter + s.tasks[t].count == n.counter)
  {
    hide IsPending, HoldsLock, HasTurn, Fits;
  }

  lemma HandlesStep(s: State, a: Action)
    requires Enabled(s, a) && HandlesAreUnique(s)
    ensures HandlesAreUnique(Step(s, a))
  {
    var n := Step(s, a);
    hide Step, Enabled;
    forall t: nat | t < |n.tasks| && IsCharged(n.tasks[t].phase)
      ensures t < |s.tasks| && n.tasks[t].first + n.tasks[t].count <= n.counter
      ensures if a.Charge? && a.t == t then n.tasks[t].first == s.counter else KeepsHandles(s, n, t)
    {
      ChargedTasks(s, a, t);
      CounterGrows(s, a, t);
    }
  }

  ghost predicate KeepsHandles(s: State, n: State, t: nat)
    requires t < |s.tasks| && t < |n.tasks|
  {
    && IsCharged(s.tasks[t].phase)
    && n.tasks[t].first == s.tasks[t].first && n.tasks[t].count == s.tasks[t].count
  }

  // ----- the runtime's side -----

  lemma {:induction false} ReadingOneMore(tensors: set<nat>, pipe: seq<Message>, m: Message)
    ensures Drained(tensors, pipe + [m]) == Apply(Drained(tensors, pipe), m)
    ensures NeverMisses(tensors, pipe + [m]) <==>
            NeverMisses(tensors, pipe) && (m.Delete? ==> Handles(m.first, m.count) <= Drained(tensors, pipe))
    decreases |pipe|
  {
    if pipe == [] {
      assert pipe + [m] == [m];
    } else {
      assert (pipe + [m])[1..] == pipe[1..] + [m];
      ReadingOneMore(Apply(tensors, pipe[0]), pipe[1..], m);
    }
  }

  lemma {:induction false} LiveHandlesAfterUpdate(tasks: seq<Task>, t: nat, x: Task)
    requires t < |tasks| && (!IsLive(tasks[t].phase) || !IsLive(x.phase))
    requires IsLive(tasks[t].phase) ==>
               forall u: nat | u < |tasks| && u != t && IsLive(tasks[u].phase) ::
                 Handles(tasks[u].first, tasks[u].count) !! Handles(tasks[t].first, tasks[t].count)
    ensures LiveHandles(tasks[t := x])
         == LiveHandles(tasks) - (if IsLive(tasks[t].phase) then Handles(tasks[t].first, tasks[t].count) else {})
            + if IsLive(x.phase) then Handles(x.first, x.count) else {}
    decreases |tasks|
  {
    var n := |tasks| - 1;
    if t < n {
      LiveHandlesAfterUpdate(tasks[..n], t, x);
      assert tasks[t := x][..n] == tasks[..n][t := x];
    } else {
      assert tasks[t := x][..n] == tasks[..n];
      if IsLive(tasks[t].phase) {
        forall h | h in LiveHandles(tasks[..n]) ensures h !in Handles(tasks[t].first, tasks[t].count) {
          LiveHandlesAreThose(tasks[..n], h);
        }
      }
    }
  }

  lemma RuntimeCharge(s: State, t: nat)
    requires Enabled(s, Charge(t)) && RuntimeFollows(s)
    ensures RuntimeFollows(Step(s, Charge(t)))
  {
    var n := Step(s, Charge(t));
    LiveHandlesAfterUpdate(s.tasks, t, n.tasks[t]);
    ReadingOneMore(s.tensors, s.pipe, Create(s.counter, s.tasks[t].count));
    hide LiveHandles, Drained, NeverMisses, Handles;
  }

  lemma RuntimeFree(s: State, t: nat)
    requires Enabled(s, Free(t)) && HandlesAreUnique(s) && RuntimeFollows(s)
    ensures RuntimeFollows(Step(s, Free(t)))
  {
    hide Drained, NeverMisses, LiveHandles;
    var n, x := Step(s, Free(t)), s.tasks[t];
    LiveHandlesAfterUpdate(s.tasks, t, n.tasks[t]);
    ReadingOneMore(s.tensors, s.pipe, Delete(x.first, x.count));
    forall h | h in Handles(x.first, x.count) ensures h in LiveHandles(s.tasks) {
      LiveHandlesAreThose(s.tasks, h);
    }
  }

  lemma RuntimeRest(s: State, a: Action)
    requires Enabled(s, a) && RuntimeFollows(s) && !a.Arrive? && !a.Read? && !a.Charge? && !a.Free?
    ensures RuntimeFollows(Step(s, a))
  {
    hide Drained, NeverMisses, LiveHandles;
    var n := Step(s, a);
    assert n.tasks == s.tasks[a.t := n.tasks[a.t]] && n.pipe == s.pipe && n.tensors == s.tensors;
    assert !IsLive(s.tasks[a.t].phase) && !IsLive(n.tasks[a.t].phase);
    LiveHandlesAfterUpdate(s.tasks, a.t, n.tasks[a.t]);
  }

  lemma RuntimeStep(s: State, a: Action)
    requires Enabled(s, a) && HandlesAreUnique(s) && RuntimeFollows(s)
    ensures RuntimeFollows(Step(s, a))
  {
    if a.Arrive? {
      assert Step(s, a).tasks[..|s.tasks|] == s.tasks;
    } else if a.Charge? {
      RuntimeCharge(s, a.t);
    } else if a.Free? {
      RuntimeFree(s, a.t);
    } else if !a.Read? {
      RuntimeRest(s, a);
    }
  }

  /** Every step keeps everything. */
  lemma StepKeepsInvariant(s: State, a: Action)
    requires Enabled(s, a) && Invariant(s)
    ensures Invariant(Step(s, a))
  {
    SizesStep(s, a);
    HandlesStep(s, a);
    RuntimeStep(s, a);
    LockStep(s, a);
    hide Step, Enabled, SizesAddUp, HandlesAreUnique, RuntimeFollows, LockIsExclusive;
  }

  // ----- runs -----

  /** The state after a list of steps, or nothing if one of them was not enabled. */
  function Run(max: nat, actions: seq<Action>): Result<State> {
    if actions == [] then Ok(Start(max))
    else
      var before := Run(max, actions[..|actions| - 1]);
      var a := actions[|actions| - 1];
      if before.Ok? && Enabled(before.value, a) then Ok(Step(before.value, a)) else Raised
  }

  /** Accounting, handle ownership, the runtime's map and the lock hold in every interleaving. */
  lemma {:induction false} EveryRunKeepsInvariant(max: nat, actions: seq<Action>)
    requires Run(max, actions).Ok?
    ensures Invariant(Run(max, actions).value)
  {
    hide Step, Enabled, Invariant;
    if actions == [] {
      StartKeepsInvariant(max);
    } else {
      EveryRunKeepsInvariant(max, actions[..|actions| - 1]);
      StepKeepsInvariant(Run(max, actions[..|actions| - 1]).value, actions[|actions| - 1]);
    }
  }

  lemma RunStep(max: nat, done: seq<Action>, s: State, a: Action)
    requires Run(max, done) == Ok(s) && Enabled(s, a)
    ensures Run(max, done + [a]) == Ok(Step(s, a))
  {
    hide Step, Enabled;
    assert (done + [a])[..|done|] == done;
  }
}
