/**
 Handler processes that tell each other which of them owns a session. Each has a FIFO queue of events,
 a map from session ids to owners, and queues of pushed requests for its own sessions.
 */
module SessionEvents {
  import opened Common

  datatype Event = NewSession(id: nat, owner: nat) | EndSession(id: nat) | Push(id: nat, request: nat)

  /** One process: its event queue, its map of owners, and the push queues of its own sessions. */
  datatype Handler = Handler(events: seq<Event>, owners: map<nat, nat>, pushed: map<nat, seq<nat>>)

  /** What has become of a session id. */
  datatype Session = Session(owner: nat, live: bool)

  datatype State = State(handlers: seq<Handler>, sessions: map<nat, Session>)

  /** Open: a session starts at handler h. Close: it ends there. RpcPush: a push arrives at any handler h.
      Listen: handler h takes one event from its queue. Take: a session at h takes its oldest push. */
  datatype Action =
    | Open(h: nat, id: nat) | Close(h: nat, id: nat) | RpcPush(h: nat, id: nat, request: nat) | Listen(h: nat)
    | Take(h: nat, id: nat)

  function Start(n: nat): State {
    State(seq(n, _ => Handler([], map[], map[])), map[])
  }

  /** Session ids are used once. */
  predicate Enabled(s: State, a: Action) {
    && a.h < |s.handlers|
    && match a
       case Open(h, id) => id !in s.sessions
       case Close(h, id) => id in s.sessions && s.sessions[id] == Session(h, true)
       case RpcPush(_, _, _) => true
       case Listen(h) => s.handlers[h].events != []
       case Take(h, id) => id in s.handlers[h].pushed && s.handlers[h].pushed[id] != []
  }

  function Sent(x: Handler, e: Event): Handler {
    x.(events := x.events + [e])
  }

  /** Every handler but h gets the event. */
  function Broadcast(handlers: seq<Handler>, h: nat, own: Handler, e: Event): (r: seq<Handler>)
    ensures |r| == |handlers|
  {
    seq(|handlers|, i requires 0 <= i < |handlers| => if i == h then own else Sent(handlers[i], e))
  }

  function Delivered(x: Handler, id: nat, request: nat): Handler
    requires id in x.pushed
  {
    x.(pushed := x.pushed[id := x.pushed[id] + [request]])
  }

  /** Does looking up the local queue of a session that the map says is ours find it? */
  predicate LookupSucceeds(s: State, a: Action)
    requires Enabled(s, a)
  {
    a.RpcPush? ==>
      var x := s.handlers[a.h];
      a.id in x.owners && x.owners[a.id] == a.h ==> a.id in x.pushed
  }

  function Step(s: State, a: Action): State
    requires Enabled(s, a) && LookupSucceeds(s, a)
  {
    var x := s.handlers[a.h];
    match a
    case Open(h, id) =>
      State(Broadcast(s.handlers, h, x.(owners := x.owners[id := h], pushed := x.pushed[id := []]), NewSession(id, h)),
            s.sessions[id := Session(h, true)])
    case Close(h, id) =>
      State(Broadcast(s.handlers, h, x.(owners := x.owners - {id}, pushed := x.pushed - {id}), EndSession(id)),
            s.sessions[id := Session(h, false)])
    case RpcPush(h, id, request) =>
      if id !in x.owners then s
      else if x.owners[id] == h then s.(handlers := s.handlers[h := Delivered(x, id, request)])
      else if x.owners[id] < |s.handlers| then
        s.(handlers := s.handlers[x.owners[id] := Sent(s.handlers[x.owners[id]], Push(id, request))])
      else s
    case Listen(h) =>
      s.(handlers := s.handlers[h := Handled(x.(events := x.events[1..]), x.events[0])])
    case Take(h, id) =>
      s.(handlers := s.handlers[h := x.(pushed := x.pushed[id := x.pushed[id][1..]])])
  }

  function Handled(x: Handler, e: Event): Handler {
    match e
    case NewSession(id, owner) => x.(owners := x.owners[id := owner])
    case EndSession(id) => x.(owners := x.owners - {id})
    case Push(id, request) => if id in x.pushed then Delivered(x, id, request) else x
  }

  // ----- what every run keeps -----

  /** The news about one session that a handler has not read yet. */
  function News(events: seq<Event>, id: nat): (r: seq<Event>) {
    if events == [] then []
    else
      var rest := News(events[1..], id);
      if !events[0].Push? && events[0].id == id then [events[0]] + rest else rest
  }

  lemma {:induction false} NewsOfOneMore(events: seq<Event>, e: Event, id: nat)
    ensures News(events + [e], id) == News(events, id) + if !e.Push? && e.id == id then [e] else []
  {
    if events == [] {
      assert events + [e] == [e];
    } else {
      assert (events + [e])[1..] == events[1..] + [e];
      NewsOfOneMore(events[1..], e, id);
    }
  }

  /** Unread news and the map together always tell the session's story, in order and without gaps. */
  ghost predicate Told(sessions: map<nat, Session>, h: nat, x: Handler, id: nat) {
    var news := News(x.events, id);
    if id !in sessions then
      news == [] && id !in x.owners
    else
      var s := sessions[id];
      if s.owner == h then
        news == [] && if s.live then id in x.owners && x.owners[id] == h else id !in x.owners
      else if s.live then
        (news == [NewSession(id, s.owner)] && id !in x.owners)
        || (news == [] && id in x.owners && x.owners[id] == s.owner)
      else
        (news == [NewSession(id, s.owner), EndSession(id)] && id !in x.owners)
        || (news == [EndSession(id)] && id in x.owners && x.owners[id] == s.owner)
        || (news == [] && id !in x.owners)
  }

  /** Push queues exist exactly for the live sessions of this handler. */
  ghost predicate QueuesAreOwn(sessions: map<nat, Session>, h: nat, x: Handler) {
    forall id :: id in x.pushed <==> id in sessions && sessions[id] == Session(h, true)
  }

  /** Pushes travel only to the handler that owns the session. */
  ghost predicate PushesGoHome(sessions: map<nat, Session>, h: nat, x: Handler) {
    forall e | e in x.events && e.Push? :: e.id in sessions && sessions[e.id].owner == h
  }

  ghost predicate HandlerFine(s: State, h: nat)
    requires h < |s.handlers|
  {
    && (forall id :: Told(s.sessions, h, s.handlers[h], id))
    && QueuesAreOwn(s.sessions, h, s.handlers[h])
    && PushesGoHome(s.sessions, h, s.handlers[h])
  }

  ghost predicate Invariant(s: State) {
    && (forall h | 0 <= h < |s.handlers| :: HandlerFine(s, h))
    && forall id | id in s.sessions :: s.sessions[id].owner < |s.handlers|
  }

  lemma StartIsFine(n: nat)
    ensures Invariant(Start(n))
  {
  }

  /** The local queue lookup never misses. */
  lemma LookupNeverMisses(s: State, a: Action)
    requires Invariant(s) && Enabled(s, a)
    ensures LookupSucceeds(s, a)
  {
    if a.RpcPush? {
      assert HandlerFine(s, a.h) && Told(s.sessions, a.h, s.handlers[a.h], a.id);
    }
  }

  /** A handler maps a session to another one only while it is live there or its end is still on the way. */
  lemma MappedMeansLiveOrEnding(s: State, h: nat, id: nat)
    requires Invariant(s) && h < |s.handlers| && id in s.handlers[h].owners
    ensures id in s.sessions && s.handlers[h].owners[id] == s.sessions[id].owner
    ensures s.sessions[id].live || (EndSession(id) in s.handlers[h].events && s.sessions[id].owner != h)
  {
    assert HandlerFine(s, h) && Told(s.sessions, h, s.handlers[h], id);
    if !s.sessions[id].live {
      NewsIsInQueue(s.handlers[h].events, id, EndSession(id));
    }
  }

  lemma {:induction false} NewsIsInQueue(events: seq<Event>, id: nat, e: Event)
    requires e in News(events, id)
    ensures e in events
  {
    if events != [] && e in News(events[1..], id) {
      NewsIsInQueue(events[1..], id, e);
    }
  }

  /** A handler that hears about session changes of id from someone else. */
  lemma OtherHears(s: State, n: State, h: nat, e: Event)
    requires Invariant(s) && h < |s.handlers| == |n.handlers| && !e.Push?
    requires n.handlers[h] == Sent(s.handlers[h], e)
    requires if e.NewSession? then e.id !in s.sessions && e.owner != h
                                   && n.sessions == s.sessions[e.id := Session(e.owner, true)]
             else e.id in s.sessions && s.sessions[e.id].live && s.sessions[e.id].owner != h
                  && n.sessions == s.sessions[e.id := s.sessions[e.id].(live := false)]
    ensures HandlerFine(n, h)
  {
    var x := s.handlers[h];
    assert HandlerFine(s, h);
    forall id ensures Told(n.sessions, h, n.handlers[h], id) {
      NewsOfOneMore(x.events, e, id);
      assert Told(s.sessions, h, x, id);
    }
  }

  lemma OwnerOpens(s: State, h: nat, id: nat)
    requires Invariant(s) && Enabled(s, Open(h, id))
    ensures HandlerFine(Step(s, Open(h, id)), h)
  {
    var n := Step(s, Open(h, id));
    assert HandlerFine(s, h);
    forall i ensures Told(n.sessions, h, n.handlers[h], i) {
      assert Told(s.sessions, h, s.handlers[h], i);
    }
  }

  lemma OwnerCloses(s: State, h: nat, id: nat)
    requires Invariant(s) && Enabled(s, Close(h, id))
    ensures HandlerFine(Step(s, Close(h, id)), h)
  {
    var n := Step(s, Close(h, id));
    assert HandlerFine(s, h);
    forall i ensures Told(n.sessions, h, n.handlers[h], i) {
      assert Told(s.sessions, h, s.handlers[h], i);
    }
  }

  lemma ListenerReads(s: State, h: nat)
    requires Invariant(s) && Enabled(s, Listen(h))
    ensures HandlerFine(Step(s, Listen(h)), h)
  {
    var n, x := Step(s, Listen(h)), s.handlers[h];
    assert HandlerFine(s, h);
    assert x.events == [x.events[0]] + x.events[1..];
    forall id ensures Told(n.sessions, h, n.handlers[h], id) {
      assert Told(s.sessions, h, x, id);
      var news := News(x.events, id);
      if !x.events[0].Push? && x.events[0].id == id {
        assert news[0] == x.events[0] && News(x.events[1..], id) == news[1..];
      }
    }
  }

  lemma TakerTakes(s: State, h: nat, id: nat)
    requires Invariant(s) && Enabled(s, Take(h, id))
    ensures HandlerFine(Step(s, Take(h, id)), h)
  {
    var n := Step(s, Take(h, id));
    assert HandlerFine(s, h);
    forall i ensures Told(n.sessions, h, n.handlers[h], i) {
      assert Told(s.sessions, h, s.handlers[h], i);
    }
  }

  lemma PushForwarded(s: State, h: nat, id: nat, request: nat)
    requires Invariant(s) && Enabled(s, RpcPush(h, id, request)) && LookupSucceeds(s, RpcPush(h, id, request))
    ensures Invariant(Step(s, RpcPush(h, id, request)))
  {
    var n, x := Step(s, RpcPush(h, id, request)), s.handlers[h];
    assert HandlerFine(s, h);
    if id in x.owners {
      MappedMeansLiveOrEnding(s, h, id);
      var j := x.owners[id];
      forall k | 0 <= k < |n.handlers| ensures HandlerFine(n, k) {
        assert HandlerFine(s, k);
        if k == j {
          forall i ensures Told(n.sessions, k, n.handlers[k], i) {
            NewsOfOneMore(s.handlers[k].events, Push(id, request), i);
            assert Told(s.sessions, k, s.handlers[k], i);
          }
        }
      }
    }
  }

  /** Every step keeps the invariant. */
  lemma StepKeepsInvariant(s: State, a: Action)
    requires Invariant(s) && Enabled(s, a)
    ensures LookupSucceeds(s, a) && Invariant(Step(s, a))
  {
    LookupNeverMisses(s, a);
    var n := Step(s, a);
    if a.RpcPush? {
      PushForwarded(s, a.h, a.id, a.request);
    } else {
      forall k | 0 <= k < |n.handlers| ensures HandlerFine(n, k) {
        assert HandlerFine(s, k);
        match a
        case Open(h, id) =>
          if k == h { OwnerOpens(s, h, id); } else { OtherHears(s, n, k, NewSession(id, h)); }
        case Close(h, id) =>
          if k == h { OwnerCloses(s, h, id); } else { OtherHears(s, n, k, EndSession(id)); }
        case Listen(h) =>
          if k == h { ListenerReads(s, h); }
        case Take(h, id) =>
          if k == h { TakerTakes(s, h, id); }
      }
    }
  }

  /** The state after a list of steps; nothing if one was not possible or a lookup failed. */
  function Run(n: nat, actions: seq<Action>): Result<State> {
    if actions == [] then Ok(Start(n))
    else
      var before := Run(n, actions[..|actions| - 1]);
      var a := actions[|actions| - 1];
      if before.Ok? && Enabled(before.value, a) && LookupSucceeds(before.value, a) then Ok(Step(before.value, a))
      else Raised
  }

  /** In every interleaving of handlers the maps tell the truth and pushes go home. */
  lemma {:induction false} EveryRunKeepsInvariant(n: nat, actions: seq<Action>)
    requires Run(n, actions).Ok?
    ensures Invariant(Run(n, actions).value)
  {
    hide Step, Invariant, Enabled, LookupSucceeds;
    if actions == [] {
      StartIsFine(n);
    } else {
      EveryRunKeepsInvariant(n, actions[..|actions| - 1]);
      StepKeepsInvariant(Run(n, actions[..|actions| - 1]).value, actions[|actions| - 1]);
    }
  }

  /** The push arrives at the owner of its session, at once or as an event, and nowhere else. */
  ghost predicate ArrivesAtOwner(s: State, m: State, h: nat, id: nat, request: nat) {
    && id in s.sessions && |m.handlers| == |s.handlers| && m.sessions == s.sessions
    && var j := s.sessions[id].owner;
    && j < |s.handlers|
    && (forall k | 0 <= k < |s.handlers| && k != j :: m.handlers[k] == s.handlers[k])
    && var x := s.handlers[j];
       if j == h then id in x.pushed && m.handlers[j] == x.(pushed := x.pushed[id := x.pushed[id] + [request]])
       else m.handlers[j] == x.(events := x.events + [Push(id, request)])
  }

  /** In every run a push to a session that the handler knows arrives at its owner; any other is dropped. */
  lemma PushReachesOwnerOrIsDropped(n: nat, actions: seq<Action>, h: nat, id: nat, request: nat)
    requires Run(n, actions).Ok? && h < |Run(n, actions).value.handlers|
    ensures var s := Run(n, actions).value;
            && LookupSucceeds(s, RpcPush(h, id, request))
            && var m := Step(s, RpcPush(h, id, request));
               if id in s.handlers[h].owners then ArrivesAtOwner(s, m, h, id, request) else m == s
  {
    var s := Run(n, actions).value;
    EveryRunKeepsInvariant(n, actions);
    LookupNeverMisses(s, RpcPush(h, id, request));
    if id in s.handlers[h].owners {
      MappedMeansLiveOrEnding(s, h, id);
    }
  }

  // ----- what becomes of the pushes of one session -----

  predicate IsLive(s: State, id: nat) {
    && id in s.sessions && s.sessions[id].live && s.sessions[id].owner < |s.handlers|
    && id in s.handlers[s.sessions[id].owner].pushed
  }

  /** The pushes of a live session that were put into its queue and not taken yet. */
  function Queue(s: State, id: nat): seq<nat>
    requires IsLive(s, id)
  {
    s.handlers[s.sessions[id].owner].pushed[id]
  }

  /** A forwarded push that is read goes to the end of its queue if the session still lives, and nowhere else. */
  lemma ReadingAPush(s: State, h: nat, id: nat, request: nat)
    requires Invariant(s) && Enabled(s, Listen(h)) && s.handlers[h].events[0] == Push(id, request)
    ensures var m, x := Step(s, Listen(h)), s.handlers[h];
            && |m.handlers| == |s.handlers| && m.sessions == s.sessions
            && (forall k | 0 <= k < |s.handlers| && k != h :: m.handlers[k] == s.handlers[k])
            && (IsLive(s, id) ==> id in x.pushed)
            && m.handlers[h] == x.(events := x.events[1..],
                                   pushed := if IsLive(s, id) then x.pushed[id := x.pushed[id] + [request]]
                                             else x.pushed)
  {
    assert HandlerFine(s, h) && Push(id, request) in s.handlers[h].events;
  }

  /** The pushes of one session among some events. */
  function Pending(events: seq<Event>, id: nat): seq<nat> {
    if events == [] then []
    else
      var rest := Pending(events[1..], id);
      if events[0].Push? && events[0].id == id then [events[0].request] + rest else rest
  }

  /** The pushes of a live session that its owner has not read yet. */
  function OnTheWay(s: State, id: nat): seq<nat>
    requires IsLive(s, id)
  {
    Pending(s.handlers[s.sessions[id].owner].events, id)
  }

  lemma {:induction false} PendingOfOneMore(events: seq<Event>, e: Event, id: nat)
    ensures Pending(events + [e], id) == Pending(events, id) + if e.Push? && e.id == id then [e.request] else []
  {
    if events == [] {
      assert events + [e] == [e];
    } else {
      assert (events + [e])[1..] == events[1..] + [e];
      PendingOfOneMore(events[1..], e, id);
    }
  }

  lemma {:induction false} NothingPending(events: seq<Event>, id: nat)
    requires forall e | e in events && e.Push? :: e.id != id
    ensures Pending(events, id) == []
  {
    if events != [] {
      NothingPending(events[1..], id);
    }
  }

  /** A push of this session that the handler takes: it knows where the session is. */
  predicate Accepts(s: State, a: Action, id: nat) {
    a.RpcPush? && a.id == id && a.h < |s.handlers| && id in s.handlers[a.h].owners
  }

  /** A push taken by the owner itself. */
  predicate IsDirect(s: State, a: Action, id: nat) {
    Accepts(s, a, id) && s.handlers[a.h].owners[id] == a.h
  }

  /** The owner reads a forwarded push of this session. */
  predicate Reads(s: State, a: Action, id: nat) {
    && a.Listen? && a.h < |s.handlers| && s.handlers[a.h].events != [] && s.handlers[a.h].events[0].Push?
    && s.handlers[a.h].events[0].id == id && id in s.handlers[a.h].pushed
  }

  lemma LiveHasQueue(s: State, id: nat)
    requires Invariant(s)
    ensures IsLive(s, id) <==> id in s.sessions && s.sessions[id].live
  {
    if id in s.sessions && s.sessions[id].live {
      assert HandlerFine(s, s.sessions[id].owner);
    }
  }

  lemma OwnerIsKnown(s: State, h: nat, id: nat)
    requires Invariant(s) && IsLive(s, id) && h < |s.handlers|
    ensures id in s.handlers[h].owners ==> s.handlers[h].owners[id] == s.sessions[id].owner
    ensures id in s.handlers[h].pushed <==> h == s.sessions[id].owner
    ensures forall e | e in s.handlers[h].events && e.Push? && e.id == id :: h == s.sessions[id].owner
  {
    assert HandlerFine(s, h);
    if id in s.handlers[h].owners {
      MappedMeansLiveOrEnding(s, h, id);
    }
  }

  /**
   One step and the pushes of a live session: a direct push goes to the end of the queue and a forwarded one to
   the end of those on the way; the owner reads the first of these to the end of the queue; the session takes
   the first of the queue; nothing else touches them.
   */
  lemma StepMovesPushes(s: State, a: Action, id: nat)
    requires Invariant(s) && Enabled(s, a) && LookupSucceeds(s, a)
    requires IsLive(s, id) && IsLive(Step(s, a), id)
    ensures var n := Step(s, a); var q, w := Queue(s, id), OnTheWay(s, id);
            if IsDirect(s, a, id) then Queue(n, id) == q + [a.request] && OnTheWay(n, id) == w
            else if Accepts(s, a, id) then Queue(n, id) == q && OnTheWay(n, id) == w + [a.request]
            else if Reads(s, a, id) then w != [] && Queue(n, id) == q + [w[0]] && OnTheWay(n, id) == w[1..]
            else if a.Take? && a.id == id then q != [] && Queue(n, id) == q[1..] && OnTheWay(n, id) == w
            else Queue(n, id) == q && OnTheWay(n, id) == w
  {
    var j := s.sessions[id].owner;
    var x := s.handlers[j];
    OwnerIsKnown(s, a.h, id);
    match a {
      case Open(h, i) =>
        PendingOfOneMore(x.events, NewSession(i, h), id);
      case Close(h, i) =>
        PendingOfOneMore(x.events, EndSession(i), id);
      case RpcPush(h, i, request) =>
        PendingOfOneMore(x.events, Push(i, request), id);
      case Listen(h) =>
        if x.events != [] {
          assert Pending(x.events, id)
              == (if x.events[0].Push? && x.events[0].id == id then [x.events[0].request] else [])
                 + Pending(x.events[1..], id);
        }
      case Take(_, _) =>
    }
  }

  // ----- over whole runs -----

  /** The record of one session's pushes: in the order of acceptance, by way, and as they were put and taken. */
  datatype Ledger = Ledger(
    accepted: seq<nat>, direct: seq<nat>, forwarded: seq<nat>, wasDirect: seq<bool>, taken: seq<nat>)

  function Noted(s: State, a: Action, id: nat, l: Ledger): Ledger {
    if IsDirect(s, a, id) then
      l.(accepted := l.accepted + [a.request], direct := l.direct + [a.request], wasDirect := l.wasDirect + [true])
    else if Accepts(s, a, id) then
      l.(accepted := l.accepted + [a.request], forwarded := l.forwarded + [a.request])
    else if Reads(s, a, id) then
      l.(wasDirect := l.wasDirect + [false])
    else if a.Take? && a.id == id && IsLive(s, id) && Queue(s, id) != [] then
      l.(taken := l.taken + [Queue(s, id)[0]])
    else l
  }

  function LedgerOf(n: nat, actions: seq<Action>, id: nat): Ledger
    requires Run(n, actions).Ok?
  {
    if actions == [] then Ledger([], [], [], [], [])
    else
      var before := actions[..|actions| - 1];
      Noted(Run(n, before).value, actions[|actions| - 1], id, LedgerOf(n, before, id))
  }

  /** The items whose mark is b. */
  function Picked(xs: seq<nat>, marks: seq<bool>, b: bool): seq<nat>
    requires |xs| == |marks|
  {
    if xs == [] then []
    else
      var last := |xs| - 1;
      Picked(xs[..last], marks[..last], b) + if marks[last] == b then [xs[last]] else []
  }

  lemma PickedOneMore(xs: seq<nat>, marks: seq<bool>, x: nat, mark: bool, b: bool)
    requires |xs| == |marks|
    ensures Picked(xs + [x], marks + [mark], b) == Picked(xs, marks, b) + if mark == b then [x] else []
  {
    assert (xs + [x])[..|xs|] == xs && (marks + [mark])[..|xs|] == marks;
  }

  /**
   What was put into a queue, taken or not, is a merge of the direct pushes and of those forwarded ones that
   arrived, each kind in order; the forwarded ones on the way follow.
   */
  ghost predicate Balanced(
    taken: seq<nat>, queue: seq<nat>, wasDirect: seq<bool>, way: seq<nat>, direct: seq<nat>, forwarded: seq<nat>)
  {
    var put := taken + queue;
    && |put| == |wasDirect|
    && Picked(put, wasDirect, true) == direct
    && Picked(put, wasDirect, false) + way == forwarded
  }

  lemma DirectBalances(
    taken: seq<nat>, queue: seq<nat>, marks: seq<bool>, way: seq<nat>, direct: seq<nat>, forwarded: seq<nat>, r: nat)
    requires Balanced(taken, queue, marks, way, direct, forwarded)
    ensures Balanced(taken, queue + [r], marks + [true], way, direct + [r], forwarded)
  {
    PickedOneMore(taken + queue, marks, r, true, true);
    PickedOneMore(taken + queue, marks, r, true, false);
    assert taken + (queue + [r]) == taken + queue + [r];
  }

  lemma ForwardBalances(
    taken: seq<nat>, queue: seq<nat>, marks: seq<bool>, way: seq<nat>, direct: seq<nat>, forwarded: seq<nat>, r: nat)
    requires Balanced(taken, queue, marks, way, direct, forwarded)
    ensures Balanced(taken, queue, marks, way + [r], direct, forwarded + [r])
  {
  }

  lemma ReadBalances(
    taken: seq<nat>, queue: seq<nat>, marks: seq<bool>, way: seq<nat>, direct: seq<nat>, forwarded: seq<nat>)
    requires Balanced(taken, queue, marks, way, direct, forwarded) && way != []
    ensures Balanced(taken, queue + [way[0]], marks + [false], way[1..], direct, forwarded)
  {
    PickedOneMore(taken + queue, marks, way[0], false, true);
    PickedOneMore(taken + queue, marks, way[0], false, false);
    assert taken + (queue + [way[0]]) == taken + queue + [way[0]];
    assert way == [way[0]] + way[1..];
  }

  lemma TakeBalances(
    taken: seq<nat>, queue: seq<nat>, marks: seq<bool>, way: seq<nat>, direct: seq<nat>, forwarded: seq<nat>)
    requires Balanced(taken, queue, marks, way, direct, forwarded) && queue != []
    ensures Balanced(taken + [queue[0]], queue[1..], marks, way, direct, forwarded)
  {
    assert taken + [queue[0]] + queue[1..] == taken + queue;
  }

  /** The pushes of a session add up: before it exists there are none, and while it lives none is lost. */
  ghost predicate Accounted(s: State, id: nat, l: Ledger) {
    && multiset(l.accepted) == multiset(l.direct) + multiset(l.forwarded)
    && if id !in s.sessions then l == Ledger([], [], [], [], [])
       else if IsLive(s, id) then
         Balanced(l.taken, Queue(s, id), l.wasDirect, OnTheWay(s, id), l.direct, l.forwarded)
       else true
  }

  lemma AcceptedIsMarked(s: State, a: Action, id: nat, l: Ledger)
    requires multiset(l.accepted) == multiset(l.direct) + multiset(l.forwarded)
    ensures var m := Noted(s, a, id, l); multiset(m.accepted) == multiset(m.direct) + multiset(m.forwarded)
  {
    hide IsDirect, Accepts, Reads, Queue;
  }

  lemma LiveKeepsAccount(s: State, a: Action, id: nat, l: Ledger)
    requires Invariant(s) && Enabled(s, a) && LookupSucceeds(s, a) && IsLive(s, id) && IsLive(Step(s, a), id)
    requires Balanced(l.taken, Queue(s, id), l.wasDirect, OnTheWay(s, id), l.direct, l.forwarded)
    ensures var n, m := Step(s, a), Noted(s, a, id, l);
            Balanced(m.taken, Queue(n, id), m.wasDirect, OnTheWay(n, id), m.direct, m.forwarded)
  {
    StepMovesPushes(s, a, id);
    hide Step, Enabled, Invariant, LookupSucceeds, OnTheWay, Accepts, IsDirect, Reads, IsLive, Queue, Balanced;
    var q, w := Queue(s, id), OnTheWay(s, id);
    if IsDirect(s, a, id) {
      DirectBalances(l.taken, q, l.wasDirect, w, l.direct, l.forwarded, a.request);
    } else if Accepts(s, a, id) {
      ForwardBalances(l.taken, q, l.wasDirect, w, l.direct, l.forwarded, a.request);
    } else if Reads(s, a, id) {
      ReadBalances(l.taken, q, l.wasDirect, w, l.direct, l.forwarded);
    } else if a.Take? && a.id == id {
      TakeBalances(l.taken, q, l.wasDirect, w, l.direct, l.forwarded);
    }
  }

  lemma StepKeepsAccount(s: State, a: Action, id: nat, l: Ledger)
    requires Invariant(s) && Enabled(s, a) && LookupSucceeds(s, a) && Accounted(s, id, l)
    ensures Accounted(Step(s, a), id, Noted(s, a, id, l))
  {
    AcceptedIsMarked(s, a, id, l);
    if id !in s.sessions {
      NobodyKnows(s, a, id);
      if a.Open? && a.id == id {
        OpensEmpty(s, a.h, id);
      }
    } else if IsLive(Step(s, a), id) {
      StaysLive(s, a, id);
      LiveKeepsAccount(s, a, id, l);
      hide Step, Enabled, Invariant, Noted;
      KnownStaysKnown(s, a, id);
    }
  }

  lemma KnownStaysKnown(s: State, a: Action, id: nat)
    requires Enabled(s, a) && LookupSucceeds(s, a) && id in s.sessions
    ensures id in Step(s, a).sessions
  {
  }

  lemma NobodyKnows(s: State, a: Action, id: nat)
    requires Invariant(s) && id !in s.sessions && a.h < |s.handlers|
    ensures !Accepts(s, a, id) && !Reads(s, a, id) && !IsLive(s, id)
  {
    assert HandlerFine(s, a.h) && Told(s.sessions, a.h, s.handlers[a.h], id);
  }

  lemma OpensEmpty(s: State, h: nat, id: nat)
    requires Invariant(s) && Enabled(s, Open(h, id))
    ensures var n := Step(s, Open(h, id)); IsLive(n, id) && Queue(n, id) == [] && OnTheWay(n, id) == []
  {
    assert HandlerFine(s, h);
    NothingPending(s.handlers[h].events, id);
  }

  /** A known session that is live now was live before. */
  lemma StaysLive(s: State, a: Action, id: nat)
    requires Invariant(s) && Enabled(s, a) && LookupSucceeds(s, a) && id in s.sessions && IsLive(Step(s, a), id)
    ensures IsLive(s, id)
  {
    LiveHasQueue(s, id);
  }

  /** In every run no push that was accepted for a live session is lost or doubled, and each way keeps its order. */
  lemma {:induction false} PushesAreAccounted(n: nat, actions: seq<Action>, id: nat)
    requires Run(n, actions).Ok?
    ensures Accounted(Run(n, actions).value, id, LedgerOf(n, actions, id))
  {
    hide Step, Enabled, Accounted, Noted, LookupSucceeds;
    if actions == [] {
      NothingAccounted(n, id);
    } else {
      var before := actions[..|actions| - 1];
      PushesAreAccounted(n, before, id);
      EveryRunKeepsInvariant(n, before);
      StepKeepsAccount(Run(n, before).value, actions[|actions| - 1], id, LedgerOf(n, before, id));
    }
  }

  lemma NothingAccounted(n: nat, id: nat)
    ensures Accounted(Start(n), id, Ledger([], [], [], [], []))
  {
  }

  // ----- the order of acceptance -----

  /** A live session gets its pushes in the order in which they were accepted. */
  ghost predicate InOrder(s: State, id: nat, l: Ledger) {
    IsLive(s, id) ==> l.taken + Queue(s, id) + OnTheWay(s, id) == l.accepted
  }

  /** A direct push goes ahead of forwarded ones still on the way, and is not the same request as all of them. */
  ghost predicate Overtakes(s: State, a: Action, id: nat) {
    IsLive(s, id) && IsDirect(s, a, id) && [a.request] + OnTheWay(s, id) != OnTheWay(s, id) + [a.request]
  }

  /** A step spoils the order exactly if it overtakes. */
  lemma StepKeepsOrderExactly(s: State, a: Action, id: nat, l: Ledger)
    requires Invariant(s) && Enabled(s, a) && LookupSucceeds(s, a) && Accounted(s, id, l) && InOrder(s, id, l)
    ensures InOrder(Step(s, a), id, Noted(s, a, id, l)) <==> !Overtakes(s, a, id)
  {
    if IsLive(s, id) && IsLive(Step(s, a), id) {
      LiveKeepsOrder(s, a, id, l);
    } else if id !in s.sessions {
      NobodyKnows(s, a, id);
      if a.Open? && a.id == id {
        OpensEmpty(s, a.h, id);
      }
    } else {
      if IsLive(Step(s, a), id) {
        StaysLive(s, a, id);
      }
      StepKeepsInvariant(s, a);
      LiveHasQueue(s, id);
      LiveHasQueue(Step(s, a), id);
      EndsOnlyByClosing(s, a, id);
    }
  }

  lemma EndsOnlyByClosing(s: State, a: Action, id: nat)
    requires Enabled(s, a) && LookupSucceeds(s, a) && id in s.sessions
    ensures a.RpcPush? ==> Step(s, a).sessions == s.sessions
  {
  }

  lemma LiveKeepsOrder(s: State, a: Action, id: nat, l: Ledger)
    requires Invariant(s) && Enabled(s, a) && LookupSucceeds(s, a) && IsLive(s, id) && IsLive(Step(s, a), id)
    requires InOrder(s, id, l)
    ensures InOrder(Step(s, a), id, Noted(s, a, id, l)) <==> !Overtakes(s, a, id)
  {
    StepMovesPushes(s, a, id);
    hide Step, Enabled, Invariant, LookupSucceeds, OnTheWay, Accepts, IsDirect, Reads, IsLive, Queue;
    var q, w := Queue(s, id), OnTheWay(s, id);
    if IsDirect(s, a, id) {
      PutAhead(l.taken, q, w, a.request);
    } else {
      PutBehind(l.taken, q, w, if a.RpcPush? then a.request else 0);
    }
  }

  lemma PutBehind(taken: seq<nat>, q: seq<nat>, w: seq<nat>, r: nat)
    ensures taken + q + (w + [r]) == taken + q + w + [r]
    ensures w != [] ==> taken + (q + [w[0]]) + w[1..] == taken + q + w
    ensures q != [] ==> taken + [q[0]] + q[1..] + w == taken + q + w
  {
    assert w != [] ==> w == [w[0]] + w[1..];
    assert q != [] ==> q == [q[0]] + q[1..];
  }

  lemma PutAhead(taken: seq<nat>, q: seq<nat>, w: seq<nat>, r: nat)
    ensures taken + (q + [r]) + w == taken + q + w + [r] <==> [r] + w == w + [r]
  {
    var front := taken + q;
    var x, y := taken + (q + [r]) + w, front + w + [r];
    assert x == front + ([r] + w) && y == front + (w + [r]);
    assert x[|front|..] == [r] + w && y[|front|..] == w + [r];
  }

  /** After the first i steps the session's pushes are in order. */
  ghost predicate InOrderAfter(n: nat, actions: seq<Action>, id: nat, i: nat)
    requires i <= |actions|
  {
    Run(n, actions[..i]).Ok? ==> InOrder(Run(n, actions[..i]).value, id, LedgerOf(n, actions[..i], id))
  }

  /** Step i of a run overtakes. */
  ghost predicate OvertakesAt(n: nat, actions: seq<Action>, id: nat, i: nat)
    requires i < |actions|
  {
    Run(n, actions[..i]).Ok? && Overtakes(Run(n, actions[..i]).value, actions[i], id)
  }

  lemma BeginningIsSame(n: nat, actions: seq<Action>, id: nat, i: nat)
    requires i < |actions|
    ensures var before := actions[..|actions| - 1];
            && InOrderAfter(n, actions, id, i) == InOrderAfter(n, before, id, i)
            && (i < |before| ==> OvertakesAt(n, actions, id, i) == OvertakesAt(n, before, id, i))
  {
    var before := actions[..|actions| - 1];
    assert before[..i] == actions[..i];
  }

  lemma LastStep(n: nat, actions: seq<Action>, id: nat)
    requires Run(n, actions).Ok? && actions != []
    ensures var before, a := actions[..|actions| - 1], actions[|actions| - 1];
            && Run(n, before).Ok? && Enabled(Run(n, before).value, a) && LookupSucceeds(Run(n, before).value, a)
            && Run(n, actions).value == Step(Run(n, before).value, a)
            && LedgerOf(n, actions, id) == Noted(Run(n, before).value, a, id, LedgerOf(n, before, id))
  {
    hide Step, Enabled, LookupSucceeds, Noted;
  }

  /** The last step of a run in order spoils the order exactly if it overtakes. */
  lemma LastStepKeepsOrder(n: nat, actions: seq<Action>, id: nat)
    requires Run(n, actions).Ok? && actions != [] && InOrderAfter(n, actions, id, |actions| - 1)
    ensures InOrderAfter(n, actions, id, |actions|) <==> !OvertakesAt(n, actions, id, |actions| - 1)
  {
    var last := |actions| - 1;
    var before := actions[..last];
    LastStep(n, actions, id);
    EveryRunKeepsInvariant(n, before);
    PushesAreAccounted(n, before, id);
    assert actions[..|actions|] == actions;
    hide Step, Enabled, LookupSucceeds, InOrder, Overtakes, Noted, Run, LedgerOf, Invariant, Accounted;
    StepKeepsOrderExactly(Run(n, before).value, actions[last], id, LedgerOf(n, before, id));
  }

  /** The steps of a run before step i, all but the last ones left out, are those of the run. */
  lemma BeginningsAreSame(n: nat, actions: seq<Action>, id: nat)
    requires actions != []
    ensures var before := actions[..|actions| - 1];
            && (forall i: nat | i < |actions| :: InOrderAfter(n, actions, id, i) == InOrderAfter(n, before, id, i))
            && forall i: nat | i < |before| :: OvertakesAt(n, actions, id, i) == OvertakesAt(n, before, id, i)
  {
    var before := actions[..|actions| - 1];
    hide InOrderAfter, OvertakesAt;
    forall i: nat | i < |actions|
      ensures InOrderAfter(n, actions, id, i) == InOrderAfter(n, before, id, i)
      ensures i < |before| ==> OvertakesAt(n, actions, id, i) == OvertakesAt(n, before, id, i)
    {
      BeginningIsSame(n, actions, id, i);
    }
  }

  /** Throughout a run a session gets its pushes in the order of acceptance exactly if none overtakes. */
  lemma {:induction false} RunKeepsOrderExactly(n: nat, actions: seq<Action>, id: nat)
    requires Run(n, actions).Ok?
    ensures (forall i: nat | i <= |actions| :: InOrderAfter(n, actions, id, i))
       <==> (forall i: nat | i < |actions| :: !OvertakesAt(n, actions, id, i))
  {
    hide *;
    if actions == [] {
      NothingOutOfOrder(n, id);
    } else {
      LastStep(n, actions, id);
      RunKeepsOrderExactly(n, actions[..|actions| - 1], id);
      BeginningsAreSame(n, actions, id);
      if InOrderAfter(n, actions, id, |actions| - 1) {
        LastStepKeepsOrder(n, actions, id);
      }
    }
  }

  lemma NothingOutOfOrder(n: nat, id: nat)
    ensures InOrderAfter(n, [], id, 0)
  {
    assert Run(n, [][..0]) == Ok(Start(n));
    hide Step, Enabled, LookupSucceeds, Noted;
  }

  lemma OneMoreStep(n: nat, done: seq<Action>, a: Action)
    requires Run(n, done).Ok? && Enabled(Run(n, done).value, a) && LookupSucceeds(Run(n, done).value, a)
    ensures Run(n, done + [a]) == Ok(Step(Run(n, done).value, a))
  {
    hide Step, Enabled, LookupSucceeds;
    assert (done + [a])[..|done|] == done;
  }

  /** Two handlers, of which the first owns session 5. */
  function Two(events0: seq<Event>, queue: seq<nat>, events1: seq<Event>, known: map<nat, nat>): State {
    State([Handler(events0, map[5 := 0], map[5 := queue]), Handler(events1, known, map[])], map[5 := Session(0, true)])
  }

  lemma FirstSteps()
    ensures Enabled(Start(2), Open(0, 5)) && Step(Start(2), Open(0, 5)) == Two([], [], [NewSession(5, 0)], map[])
    ensures Enabled(Two([], [], [NewSession(5, 0)], map[]), Listen(1))
    ensures Step(Two([], [], [NewSession(5, 0)], map[]), Listen(1)) == Two([], [], [], map[5 := 0])
  {
    var first := Step(Start(2), Open(0, 5));
    assert [] + [NewSession(5, 0)] == [NewSession(5, 0)] && [NewSession(5, 0)][1..] == [];
    assert first.handlers[0] == Handler([], map[5 := 0], map[5 := []]);
    assert first.handlers[1] == Handler([NewSession(5, 0)], map[], map[]);
    assert first.handlers == Two([], [], [NewSession(5, 0)], map[]).handlers;
    var second := Step(Two([], [], [NewSession(5, 0)], map[]), Listen(1));
    assert second.handlers == Two([], [], [], map[5 := 0]).handlers;
  }

  lemma PushSteps()
    ensures Step(Two([], [], [], map[5 := 0]), RpcPush(1, 5, 1)) == Two([Push(5, 1)], [], [], map[5 := 0])
    ensures Step(Two([Push(5, 1)], [], [], map[5 := 0]), RpcPush(0, 5, 2)) == Two([Push(5, 1)], [2], [], map[5 := 0])
  {
    assert [] + [Push(5, 1)] == [Push(5, 1)] && [] + [2] == [2];
    var third := Step(Two([], [], [], map[5 := 0]), RpcPush(1, 5, 1));
    assert third.handlers == Two([Push(5, 1)], [], [], map[5 := 0]).handlers;
    var fourth := Step(Two([Push(5, 1)], [], [], map[5 := 0]), RpcPush(0, 5, 2));
    assert map[5 := []][5 := [2]] == map[5 := [2]];
    assert fourth.handlers == Two([Push(5, 1)], [2], [], map[5 := 0]).handlers;
  }

  /** Two pushes, the first through another handler: the owner has the second one first. */
  lemma PushesMayOvertake() returns (run: seq<Action>)
    ensures run == [Open(0, 5), Listen(1), RpcPush(1, 5, 1), RpcPush(0, 5, 2)]
    ensures Run(2, run).Ok? && IsLive(Run(2, run).value, 5)
    ensures Queue(Run(2, run).value, 5) == [2] && OnTheWay(Run(2, run).value, 5) == [1]
  {
    FirstSteps();
    PushSteps();
    assert Run(2, []) == Ok(Start(2));
    assert Pending([Push(5, 1)][1..], 5) == [];
    run := [];
    hide Run, Step, Start;
    OneMoreStep(2, run, Open(0, 5));
    run := run + [Open(0, 5)];
    OneMoreStep(2, run, Listen(1));
    run := run + [Listen(1)];
    OneMoreStep(2, run, RpcPush(1, 5, 1));
    run := run + [RpcPush(1, 5, 1)];
    OneMoreStep(2, run, RpcPush(0, 5, 2));
    run := run + [RpcPush(0, 5, 2)];
  }
}
