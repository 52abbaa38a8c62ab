/** When the capacity of the shared attention cache is respected: step by step, and for given requests. */
module CacheCaps {
  import opened CacheProtocol
  import opened Common

  predicate IsAdmitted(p: Phase) {
    p.Admitted? || p.Dequeued?
  }

  /** What is charged or admitted. */
  function Claimed(s: State): int {
    s.current + Total(s.tasks, IsAdmitted)
  }

  ghost predicate WithinCap(s: State) {
    Claimed(s) <= s.max
  }

  function AdmittedSize(t: Task): nat {
    if IsAdmitted(t.phase) then t.size else 0
  }

  /** Does this step admit the request it tests? */
  predicate Admits(s: State, a: Action)
    requires Enabled(s, a)
  {
    (a.Test? || (a.LoopTest? && s.tasks[a.t].phase == Looping)) && Fits(s, a.t)
  }

  /** Only a test that finds room admits more; every other step at most turns an admission into a charge. */
  lemma StepAdmits(s: State, a: Action)
    requires Enabled(s, a) && !a.Arrive? && !a.Read?
    ensures var n := Step(s, a); var x, y := s.tasks[a.t], n.tasks[a.t];
            && Changes(s, n, a.t, y) && n.max == s.max && y.size == x.size
            && if Admits(s, a) then n.current == s.current && !IsAdmitted(x.phase) && IsAdmitted(y.phase)
               else n.current + AdmittedSize(y) <= s.current + AdmittedSize(x)
  {
    hide IsPending, HoldsLock;
    StepKeepsSizes(s, a);
    match a {
      case Test(t) =>
      case LoopTest(t) =>
      case Charge(t) =>
      case Free(t) =>
      case _ =>
    }
  }

  lemma StepClaims(s: State, a: Action)
    requires Enabled(s, a)
    ensures Step(s, a).max == s.max
    ensures if Admits(s, a) then Claimed(Step(s, a)) == Claimed(s) + s.tasks[a.t].size
            else Claimed(Step(s, a)) <= Claimed(s)
  {
    var n := Step(s, a);
    if a.Arrive? {
      hide Total;
      TotalAfterArrival(s.tasks, n.tasks[|s.tasks|], IsAdmitted);
    } else if !a.Read? {
      StepAdmits(s, a);
      TotalAfterUpdate(s.tasks, a.t, n.tasks[a.t], IsAdmitted);
      hide Step, Enabled, Total, IsAdmitted, Admits;
    } else {
      hide Total;
    }
  }

  /** A step keeps within the cap exactly if what it admits fits beside everything charged or admitted so far. */
  lemma StepStaysWithinCapExactly(s: State, a: Action)
    requires Enabled(s, a) && WithinCap(s)
    ensures Step(s, a).max == s.max
    ensures WithinCap(Step(s, a)) <==>
            (Admits(s, a) ==> Claimed(s) + s.tasks[a.t].size <= s.max)
  {
    StepClaims(s, a);
    hide Step, Enabled, Total, IsAdmitted, Admits;
  }

  /**
   No allocation that can still be admitted is tested while another one is between its own test and its charge.
   The test of a thread that outlived its coroutine admits nothing and may fall anywhere.
   */
  ghost predicate TestsAlone(s: State, a: Action) {
    a.Test? || (a.LoopTest? && InPhase(s, a.t, Looping)) ==> Total(s.tasks, IsAdmitted) == 0
  }

  ghost predicate TestsAloneThroughout(max: nat, actions: seq<Action>) {
    forall i | 0 <= i < |actions| && Run(max, actions[..i]).Ok? :: TestsAlone(Run(max, actions[..i]).value, actions[i])
  }

  /**
   If the tests of running coroutines do not fall between another test and its charge, as on a single event
   loop, usage never exceeds the cap, whatever orphaned threads test.
   */
  lemma {:induction false} CapHoldsWhenTestsAreAlone(max: nat, actions: seq<Action>)
    requires Run(max, actions).Ok? && TestsAloneThroughout(max, actions)
    ensures WithinCap(Run(max, actions).value) && Run(max, actions).value.max == max
  {
    hide Step, Enabled, TestsAlone, WithinCap;
    if actions == [] {
      NothingIsWithinCap(max);
    } else {
      var last := |actions| - 1;
      var before := actions[..last];
      assert Run(max, before).Ok?;
      assert TestsAlone(Run(max, actions[..last]).value, actions[last]);
      forall i | 0 <= i < |before| && Run(max, before[..i]).Ok?
        ensures TestsAlone(Run(max, before[..i]).value, before[i])
      {
        assert before[..i] == actions[..i];
        assert TestsAlone(Run(max, actions[..i]).value, actions[i]);
      }
      CapHoldsWhenTestsAreAlone(max, before);
      LoneTestStaysWithinCap(Run(max, before).value, actions[last]);
    }
  }

  lemma LoneTestStaysWithinCap(s: State, a: Action)
    requires Enabled(s, a) && TestsAlone(s, a) && WithinCap(s)
    ensures WithinCap(Step(s, a)) && Step(s, a).max == s.max
  {
    StepStaysWithinCapExactly(s, a);
    hide Step, Enabled;
  }

  lemma NothingIsWithinCap(max: nat)
    ensures WithinCap(Start(max))
  {
  }

  // ----- given requests, in every interleaving -----

  datatype Request = Request(size: nat, count: nat, limit: Limit)

  /** The requests of a run, in order of arrival. */
  function Arrivals(actions: seq<Action>): (rs: seq<Request>) {
    if actions == [] then []
    else
      var a := actions[|actions| - 1];
      Arrivals(actions[..|actions| - 1]) + if a.Arrive? then [Request(a.size, a.count, a.limit)] else []
  }

  /** The sizes of those requests that would fit into an empty cache. */
  function FittingTotal(max: nat, rs: seq<Request>): nat {
    if rs == [] then 0
    else
      var r := rs[|rs| - 1];
      FittingTotal(max, rs[..|rs| - 1]) + if r.size <= max then r.size else 0
  }

  /** The tasks are the requests, and whatever was admitted or charged would fit into an empty cache. */
  ghost predicate Requested(s: State, rs: seq<Request>) {
    && |s.tasks| == |rs|
    && (forall t | 0 <= t < |rs| :: s.tasks[t].size == rs[t].size)
    && forall t | 0 <= t < |rs| && (IsAdmitted(s.tasks[t].phase) || IsLive(s.tasks[t].phase)) :: rs[t].size <= s.max
  }

  lemma AdmittedFit(s: State, a: Action)
    requires Enabled(s, a) && !a.Arrive? && !a.Read? && s.current >= 0
    ensures var n := Step(s, a); var x, y := s.tasks[a.t].phase, n.tasks[a.t].phase;
            IsAdmitted(y) || IsLive(y) ==> IsAdmitted(x) || IsLive(x) || s.tasks[a.t].size <= s.max
  {
    match a {
      case Test(t) =>
      case LoopTest(t) =>
      case _ =>
    }
  }

  lemma StepKeepsRequested(s: State, rs: seq<Request>, a: Action)
    requires Enabled(s, a) && Requested(s, rs) && s.current >= 0
    ensures Step(s, a).max == s.max
    ensures Requested(Step(s, a), rs + if a.Arrive? then [Request(a.size, a.count, a.limit)] else [])
  {
    if !a.Arrive? && !a.Read? {
      StepKeepsSizes(s, a);
      AdmittedFit(s, a);
      hide Step, Enabled;
      assert rs + [] == rs;
    }
  }

  lemma {:induction false} RunKeepsRequested(max: nat, actions: seq<Action>)
    requires Run(max, actions).Ok?
    ensures Run(max, actions).value.max == max && Requested(Run(max, actions).value, Arrivals(actions))
  {
    hide Step, Enabled, Requested;
    if actions == [] {
      NothingRequested(max);
    } else {
      var before := actions[..|actions| - 1];
      RunKeepsRequested(max, before);
      EveryRunKeepsInvariant(max, before);
      StepKeepsRequested(Run(max, before).value, Arrivals(before), actions[|actions| - 1]);
    }
  }

  lemma NothingRequested(max: nat)
    ensures Requested(Start(max), [])
  {
  }

  lemma {:induction false} LoadIsBounded(max: nat, tasks: seq<Task>, rs: seq<Request>)
    requires |tasks| == |rs| && forall t | 0 <= t < |rs| :: tasks[t].size == rs[t].size
    requires forall t | 0 <= t < |rs| && IsLive(tasks[t].phase) :: rs[t].size <= max
    ensures Total(tasks, IsLive) <= FittingTotal(max, rs)
  {
    if rs != [] {
      LoadIsBounded(max, tasks[..|rs| - 1], rs[..|rs| - 1]);
    }
  }

  lemma {:induction false} FittingGrows(max: nat, rs: seq<Request>, all: seq<Request>)
    requires rs <= all
    ensures FittingTotal(max, rs) <= FittingTotal(max, all)
    decreases |all|
  {
    if |rs| < |all| {
      FittingGrows(max, rs, all[..|all| - 1]);
    } else {
      assert rs == all;
    }
  }

  // ----- the run that admits everything before it charges anything -----

  /** Every request has been served alone: the fitting ones wait to be charged, the others have failed. */
  ghost predicate AllAdmitted(s: State, max: nat, rs: seq<Request>) {
    && s.max == max && s.current == 0 && s.enqueued == 0 && s.lock == None && |s.tasks| == |rs|
    && forall t | 0 <= t < |rs| ::
         s.tasks[t].size == rs[t].size && s.tasks[t].phase == if rs[t].size <= max then Dequeued else Failed
  }

  lemma ArrivalsStep(run: seq<Action>, a: Action)
    ensures Arrivals(run + [a]) == Arrivals(run) + if a.Arrive? then [Request(a.size, a.count, a.limit)] else []
  {
    assert (run + [a])[..|run|] == run;
  }

  /** One more step of a run. */
  lemma Then(max: nat, run: seq<Action>, s: State, a: Action) returns (longer: seq<Action>, n: State)
    requires Run(max, run) == Ok(s) && Enabled(s, a)
    ensures n == Step(s, a) && Run(max, longer) == Ok(n)
    ensures Arrivals(longer) == Arrivals(run) + if a.Arrive? then [Request(a.size, a.count, a.limit)] else []
  {
    longer, n := run + [a], Step(s, a);
    RunStep(max, run, s, a);
    ArrivalsStep(run, a);
  }

  /** s with one more request, in the given phase. */
  function Beside(s: State, r: Request, p: Phase, enqueued: int, lock: Option<nat>): State {
    s.(enqueued := enqueued, lock := lock, tasks := s.tasks + [Task(r.size, r.count, r.limit, p, 0)])
  }

  ghost predicate Leads(s: State, a: Action, n: State) {
    Enabled(s, a) && Step(s, a) == n
  }

  lemma ServiceBegins(s: State, r: Request, max: nat, rs: seq<Request>)
    requires AllAdmitted(s, max, rs)
    ensures var arrived := Beside(s, r, Arrived, r.size, None);
            && Leads(s, Arrive(r.size, r.count, r.limit), arrived)
            && Leads(arrived, Precheck(|rs|), if r.limit == Immediate && r.size > max then Beside(s, r, Failed, 0, None)
                                              else Beside(s, r, Queued, r.size, None))
  {
    hide IsPending, HoldsLock;
  }

  lemma ServiceLocks(s: State, r: Request, max: nat, rs: seq<Request>)
    requires AllAdmitted(s, max, rs)
    ensures var holding := Beside(s, r, Holding, r.size, Some(|rs|));
            && Leads(Beside(s, r, Queued, r.size, None), Acquire(|rs|), holding)
            && Leads(holding, Test(|rs|), if r.size <= max then Beside(s, r, Admitted, r.size, None)
                                          else Beside(s, r, Failed, 0, None))
  {
    hide IsPending;
  }

  lemma ServiceEnds(s: State, r: Request, max: nat, rs: seq<Request>)
    requires AllAdmitted(s, max, rs)
    ensures Leads(Beside(s, r, Admitted, r.size, None), Dequeue(|rs|), Beside(s, r, Dequeued, 0, None))
    ensures AllAdmitted(Beside(s, r, if r.size <= max then Dequeued else Failed, 0, None), max, rs + [r])
  {
    hide IsPending, HoldsLock;
  }

  lemma AdmitOne(max: nat, run: seq<Action>, s: State, rs: seq<Request>, r: Request)
    returns (longer: seq<Action>, n: State)
    requires Run(max, run) == Ok(s) && Arrivals(run) == rs && AllAdmitted(s, max, rs)
    ensures Run(max, longer) == Ok(n) && Arrivals(longer) == rs + [r] && AllAdmitted(n, max, rs + [r])
  {
    hide Run, Arrivals, Step, Enabled, AllAdmitted, Beside;
    var t := |rs|;
    ServiceBegins(s, r, max, rs);
    ServiceLocks(s, r, max, rs);
    ServiceEnds(s, r, max, rs);
    longer, n := Then(max, run, s, Arrive(r.size, r.count, r.limit));
    longer, n := Then(max, longer, n, Precheck(t));
    if !(r.limit == Immediate && r.size > max) {
      longer, n := Then(max, longer, n, Acquire(t));
      longer, n := Then(max, longer, n, Test(t));
      if r.size <= max {
        longer, n := Then(max, longer, n, Dequeue(t));
      }
    }
  }

  lemma {:induction false} AdmitAll(max: nat, rs: seq<Request>) returns (run: seq<Action>, s: State)
    ensures Run(max, run) == Ok(s) && Arrivals(run) == rs && AllAdmitted(s, max, rs)
  {
    if rs == [] {
      run, s := [], Start(max);
    } else {
      var n := |rs| - 1;
      run, s := AdmitAll(max, rs[..n]);
      run, s := AdmitOne(max, run, s, rs[..n], rs[n]);
      assert rs[..n] + [rs[n]] == rs;
    }
  }

  /** The first n requests have been charged as far as they fit alone. */
  ghost predicate ChargedUpTo(s: State, max: nat, rs: seq<Request>, n: nat)
    requires n <= |rs|
  {
    && |s.tasks| == |rs| && s.current == FittingTotal(max, rs[..n])
    && forall t | n <= t < |rs| ::
         s.tasks[t].size == rs[t].size && s.tasks[t].phase == if rs[t].size <= max then Dequeued else Failed
  }

  lemma {:induction false} ChargeAll(max: nat, run: seq<Action>, s: State, rs: seq<Request>, n: nat)
    returns (longer: seq<Action>, done: State)
    requires n <= |rs| && Run(max, run) == Ok(s) && Arrivals(run) == rs && ChargedUpTo(s, max, rs, n)
    ensures Run(max, longer) == Ok(done) && Arrivals(longer) == rs && ChargedUpTo(done, max, rs, |rs|)
    decreases |rs| - n
  {
    hide Run, Arrivals;
    longer, done := run, s;
    if n < |rs| {
      assert rs[..n + 1][..n] == rs[..n];
      if rs[n].size <= max {
        longer, done := Then(max, run, s, Charge(n));
      }
      longer, done := ChargeAll(max, longer, done, rs, n + 1);
    }
  }

  /**
   Whatever the interleaving, the given requests never exceed the cap exactly if those that fit alone fit
   together: the lock is released between the test and the charge, so all of them may be admitted at once.
   */
  lemma CapHoldsExactlyIfAllFit(max: nat, requests: seq<Request>)
    ensures (forall run | Run(max, run).Ok? && Arrivals(run) <= requests :: Run(max, run).value.current <= max)
       <==> FittingTotal(max, requests) <= max
  {
    if FittingTotal(max, requests) <= max {
      forall run | Run(max, run).Ok? && Arrivals(run) <= requests ensures Run(max, run).value.current <= max {
        RunKeepsRequested(max, run);
        EveryRunKeepsInvariant(max, run);
        LoadIsBounded(max, Run(max, run).value.tasks, Arrivals(run));
        FittingGrows(max, Arrivals(run), requests);
      }
    } else {
      var run, s := AdmitAll(max, requests);
      run, s := ChargeAll(max, run, s, requests, 0);
      assert requests[..|requests|] == requests;
      assert Run(max, run).value.current > max;
    }
  }

  /** Two requests of the whole capacity are enough to exceed it. */
  lemma CapCanBeExceeded(max: nat)
    requires max > 0
    ensures exists run :: Run(max, run).Ok? && Run(max, run).value.current > max
  {
    var r := Request(max, 1, Unlimited);
    assert [r, r][..1] == [r] && [r][..0] == [];
    assert FittingTotal(max, [r]) == FittingTotal(max, []) + max;
    CapHoldsExactlyIfAllFit(max, [r, r]);
  }
}
