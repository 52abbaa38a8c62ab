/** Merging a client's requests with pushed ones into one stream of inference steps. */
module StepMerger {
  import opened Common

  /** A request; one without tensors ends the stream. */
  datatype Request = Request(hasTensors: bool, step: Option<nat>, body: nat)

  /** The first arrival of its step; requests without a step id always count. */
  predicate IsFirst(arrivals: seq<Request>, i: nat)
    requires i < |arrivals|
  {
    arrivals[i].step == None || forall j | 0 <= j < i :: arrivals[j].step != arrivals[i].step
  }

  /** First arrivals, in order of arrival. */
  function FirstArrivals(arrivals: seq<Request>): (r: seq<Request>) {
    if arrivals == [] then []
    else
      var n := |arrivals| - 1;
      FirstArrivals(arrivals[..n]) + if IsFirst(arrivals, n) then [arrivals[n]] else []
  }

  /** One more arrival is yielded after all the earlier ones, exactly if its step is new. */
  lemma OneMoreArrival(arrivals: seq<Request>, r: Request)
    ensures FirstArrivals(arrivals + [r])
         == FirstArrivals(arrivals)
            + if r.step == None || forall j | 0 <= j < |arrivals| :: arrivals[j].step != r.step then [r] else []
  {
    var all := arrivals + [r];
    assert all[..|all| - 1] == arrivals;
    assert IsFirst(all, |arrivals|) <==> r.step == None || forall j | 0 <= j < |arrivals| :: arrivals[j].step != r.step;
  }

  function CountOf(rs: seq<Request>, id: nat): nat {
    if rs == [] then 0 else CountOf(rs[..|rs| - 1], id) + if rs[|rs| - 1].step == Some(id) then 1 else 0
  }

  /** Every step id that arrived is yielded exactly once, so there is one response per distinct step. */
  lemma {:induction false} EachStepOnce(arrivals: seq<Request>, id: nat)
    ensures CountOf(FirstArrivals(arrivals), id)
         == if exists i :: 0 <= i < |arrivals| && arrivals[i].step == Some(id) then 1 else 0
  {
    if arrivals != [] {
      var n := |arrivals| - 1;
      EachStepOnce(arrivals[..n], id);
      var before := FirstArrivals(arrivals[..n]);
      assert (before + [arrivals[n]])[..|before|] == before;
      assert before + [] == before;
      if i :| 0 <= i < n && arrivals[i].step == Some(id) {
        assert arrivals[..n][i].step == Some(id);
      }
      if i :| 0 <= i < |arrivals[..n]| && arrivals[..n][i].step == Some(id) {
        assert arrivals[i].step == Some(id);
      }
    }
  }

  /** The yielded request of a step is the one that arrived first: nothing that came first is lost. */
  lemma {:induction false} FirstArrivalIsYielded(arrivals: seq<Request>, i: nat)
    requires i < |arrivals| && IsFirst(arrivals, i)
    ensures arrivals[i] in FirstArrivals(arrivals)
    decreases |arrivals|
  {
    var n := |arrivals| - 1;
    if i < n {
      FirstArrivalIsYielded(arrivals[..n], i);
    }
  }

  /** How many arrivals came from one source. */
  function Taken(fromClient: seq<bool>, client: bool): nat {
    if fromClient == [] then 0
    else Taken(fromClient[..|fromClient| - 1], client) + if fromClient[|fromClient| - 1] == client then 1 else 0
  }

  /**
   arrivals is an order-preserving merge of a beginning of the client's requests, after the first one,
   and a beginning of the pushes; fromClient tells the source of each.
   */
  ghost predicate IsMerge(arrivals: seq<Request>, fromClient: seq<bool>, requests: seq<Request>, pushes: seq<Request>) {
    && |arrivals| == |fromClient|
    && Taken(fromClient, true) <= |requests| && Taken(fromClient, false) <= |pushes|
    && forall i | 0 <= i < |arrivals| :: IsNextOf(arrivals[i], fromClient[..i], fromClient[i], requests, pushes)
  }

  /** r is the next request of the source, given where the earlier ones came from. */
  ghost predicate IsNextOf(r: Request, earlier: seq<bool>, client: bool, requests: seq<Request>, pushes: seq<Request>) {
    var source := if client then requests else pushes;
    Taken(earlier, client) < |source| && r == source[Taken(earlier, client)]
  }

  /** The source's next request is there when the k-th wait ends, given where the earlier ones came from. */
  predicate IsThere(ready: nat -> bool, k: nat, earlier: seq<bool>, client: bool, source: seq<Request>) {
    ready(k) && Taken(earlier, client) < |source|
  }

  lemma MergeGrows(
    arrivals: seq<Request>, fromClient: seq<bool>, requests: seq<Request>, pushes: seq<Request>, client: bool)
    requires IsMerge(arrivals, fromClient, requests, pushes)
    requires Taken(fromClient, client) < (if client then |requests| else |pushes|)
    ensures IsMerge(arrivals + [(if client then requests else pushes)[Taken(fromClient, client)]],
                    fromClient + [client], requests, pushes)
    ensures Taken(fromClient + [client], client) == Taken(fromClient, client) + 1
    ensures Taken(fromClient + [client], !client) == Taken(fromClient, !client)
  {
    var more := fromClient + [client];
    assert more[..|more| - 1] == fromClient;
    assert Taken(more, client) == Taken(fromClient, client) + 1 && Taken(more, !client) == Taken(fromClient, !client);
    var r := (if client then requests else pushes)[Taken(fromClient, client)];
    assert IsNextOf(r, fromClient, client, requests, pushes);
    hide Taken, IsNextOf;
    forall i | 0 <= i <= |fromClient| ensures IsNextOf((arrivals + [r])[i], more[..i], more[i], requests, pushes) {
      assert more[..i] == fromClient[..i];
    }
  }

  /** The processed step ids are those of the requests seen. */
  ghost predicate Knows(processed: set<nat>, seen: seq<Request>) {
    forall id: nat :: id in processed <==> exists i :: 0 <= i < |seen| && seen[i].step == Some(id)
  }

  /** One turn of the loop before waiting: yield the request unless its step was processed already. */
  method YieldIfNew(request: Request, processed: set<nat>, yielded: seq<Request>, ghost seen: seq<Request>)
    returns (processed': set<nat>, yielded': seq<Request>)
    requires Knows(processed, seen) && yielded == FirstArrivals(seen)
    ensures Knows(processed', seen + [request]) && yielded' == FirstArrivals(seen + [request])
  {
    OneMoreArrival(seen, request);
    processed', yielded' := processed, yielded;
    if request.step == None || request.step.value !in processed {
      yielded' := yielded + [request];
      if request.step != None {
        processed' := processed + {request.step.value};
      }
    }
    var handled := seen + [request];
    assert handled[|seen|] == request;
    assert forall i | 0 <= i < |seen| :: handled[i] == seen[i];
  }

  /**
   The merging loop. clientReady(k) and pushReady(k) tell whether a request of the client and a push are there
   when the k-th wait ends; if both are, the client's request is taken and the push stays pending. The loop
   ends with a request without tensors, or by time-out exactly when neither came.
   */
  method IterateInferenceSteps(
    first: Request, requests: seq<Request>, pushes: seq<Request>, clientReady: nat -> bool, pushReady: nat -> bool)
    returns (yielded: seq<Request>, timedOut: bool, ghost arrivals: seq<Request>, ghost fromClient: seq<bool>)
    ensures IsMerge(arrivals, fromClient, requests, pushes)
    ensures forall k | 0 <= k < |fromClient| ::
              && (fromClient[k] <==> IsThere(clientReady, k, fromClient[..k], true, requests))
              && (fromClient[k] || IsThere(pushReady, k, fromClient[..k], false, pushes))
    ensures timedOut ==> !IsThere(clientReady, |arrivals|, fromClient, true, requests)
                         && !IsThere(pushReady, |arrivals|, fromClient, false, pushes)
    ensures var all := [first] + arrivals;
            && (timedOut <==> all[|all| - 1].hasTensors)
            && (forall i | 0 <= i < |all| - 1 :: all[i].hasTensors)
            && yielded == FirstArrivals(if timedOut then all else all[..|all| - 1])
    ensures forall id: nat :: CountOf(yielded, id) <= 1
    ensures !first.hasTensors ==> yielded == [] && !timedOut
  {
    hide IsMerge, FirstArrivals, Taken, Knows, CountOf;
    var processed: set<nat>, request, nextRequest, nextPush, k := {}, first, 0, 0, 0;
    yielded, arrivals, fromClient, timedOut := [], [], [], false;
    ghost var seen: seq<Request> := [];
    NothingArrived(requests, pushes);
    while request.hasTensors
      invariant [first] + arrivals == seen + [request]
      invariant forall r | r in seen :: r.hasTensors
      invariant Knows(processed, seen) && yielded == FirstArrivals(seen)
      invariant IsMerge(arrivals, fromClient, requests, pushes)
      invariant !first.hasTensors ==> seen == []
      invariant k == |arrivals| == |fromClient|
      invariant forall i | 0 <= i < k ::
                  && (fromClient[i] <==> IsThere(clientReady, i, fromClient[..i], true, requests))
                  && (fromClient[i] || IsThere(pushReady, i, fromClient[..i], false, pushes))
      invariant nextRequest == Taken(fromClient, true) <= |requests|
      invariant nextPush == Taken(fromClient, false) <= |pushes|
      decreases |requests| + |pushes| - nextRequest - nextPush
    {
      processed, yielded := YieldIfNew(request, processed, yielded, seen);
      seen := seen + [request];
      ghost var earlier := fromClient;
      if clientReady(k) && nextRequest < |requests| {
        request := requests[nextRequest];
        MergeGrows(arrivals, fromClient, requests, pushes, true);
        nextRequest, fromClient := nextRequest + 1, fromClient + [true];
      } else if pushReady(k) && nextPush < |pushes| {
        request := pushes[nextPush];
        MergeGrows(arrivals, fromClient, requests, pushes, false);
        nextPush, fromClient := nextPush + 1, fromClient + [false];
      } else {
        timedOut := true;
        assert [first] + arrivals == seen;
        NoStepTwice(seen);
        return;
      }
      assert forall i | 0 <= i <= k :: fromClient[..i] == earlier[..i];
      arrivals, k := arrivals + [request], k + 1;
    }
    assert ([first] + arrivals)[..|arrivals|] == seen;
    NoStepTwice(seen);
  }

  lemma NoStepTwice(arrivals: seq<Request>)
    ensures forall id: nat :: CountOf(FirstArrivals(arrivals), id) <= 1
  {
    forall id: nat ensures CountOf(FirstArrivals(arrivals), id) <= 1 {
      EachStepOnce(arrivals, id);
    }
  }

  lemma NothingArrived(requests: seq<Request>, pushes: seq<Request>)
    ensures IsMerge([], [], requests, pushes) && FirstArrivals([]) == []
    ensures Taken([], true) == Taken([], false) == 0 && Knows({}, [])
  {
  }
}
