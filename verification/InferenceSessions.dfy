/** The client's inference session: a chain of server streams that is repaired while it is used. */
module InferenceSessions {
  import opened Common
  import opened Pipelines
  import opened ServerSessions

  /** Everything outside the client during one step: routing, connecting and the servers' replies. */
  datatype Environment = Environment(
    route: (nat, nat, nat) -> Result<seq<Span>>,
    connects: (nat, nat, nat) -> bool,
    reply: (nat, nat) -> Reply)
  {
    /** Routes, when there are any, tile the blocks asked for. */
    ghost predicate Valid() {
      forall attempt, a, b | a < b && route(attempt, a, b).Ok? :: Routes(route(attempt, a, b).value, a, b)
    }

    /** At this attempt there is a route for blocks b .. e - 1, and all its servers accept a stream. */
    ghost predicate Opens(attempt: nat, b: nat, e: nat) {
      && route(attempt, b, e).Ok?
      && forall i: nat | i < |route(attempt, b, e).value| :: connects(attempt, route(attempt, b, e).value[i].start, i)
    }

    /** spans are those of the route at this attempt, shortened to end at e. */
    ghost predicate Follows(spans: seq<Span>, attempt: nat, b: nat, e: nat) {
      route(attempt, b, e).Ok? && |route(attempt, b, e).value| > 0 && spans == Trimmed(route(attempt, b, e).value, e)
    }

    /** This attempt at block b goes through, wherever the stream to be replaced ends. */
    ghost predicate GoesThrough(attempt: nat, b: nat, depth: nat) {
      reply(attempt, b) == Answered && forall e: nat | b < e <= depth :: Opens(attempt, b, e)
    }

    /** Some attempt at block b goes through before the retries run out. */
    ghost predicate Passable(b: nat, from: nat, maxRetries: nat, depth: nat) {
      exists attempt: nat :: from <= attempt < maxRetries && GoesThrough(attempt, b, depth)
    }

    /** The attempts from .. n - 1 at block b do not go through. */
    ghost predicate Fails(b: nat, from: nat, n: nat, depth: nat) {
      forall attempt: nat | from <= attempt < n :: !GoesThrough(attempt, b, depth)
    }

    lemma NoneLeft(b: nat, from: nat, n: nat, depth: nat)
      ensures Fails(b, from, 0, depth)
      ensures Fails(b, from, n, depth) <==> !Passable(b, from, n, depth)
    {
      hide GoesThrough;
    }

    lemma OneMoreFails(b: nat, from: nat, n: nat, e: nat, depth: nat)
      requires Fails(b, from, n, depth) && b < e <= depth
      requires from <= n ==> !(Opens(n, b, e) && reply(n, b) == Answered)
      ensures Fails(b, from, n + 1, depth)
    {
      hide Opens;
    }

    lemma OneAnswers(b: nat, attempt: nat, maxRetries: nat)
      requires attempt < maxRetries && reply(attempt, b) == Answered
      ensures AnswersOnce(b, maxRetries)
    {
    }

    ghost predicate AnswersOnce(b: nat, maxRetries: nat) {
      exists attempt: nat :: attempt < maxRetries && reply(attempt, b) == Answered
    }

    /** Nothing fails. */
    ghost predicate Healthy() {
      && (forall attempt, a, b :: route(attempt, a, b).Ok?)
      && (forall attempt, b, i :: connects(attempt, b, i))
      && forall attempt, b :: reply(attempt, b) == Answered
    }

    lemma HealthyIsPassable(b: nat, from: nat, maxRetries: nat, depth: nat)
      requires Healthy() && from < maxRetries
      ensures Passable(b, from, maxRetries, depth)
    {
      assert GoesThrough(from, b, depth);
    }
  }

  function SpansOf(sessions: seq<ServerSession>): (r: seq<Span>)
    ensures |r| == |sessions|
  {
    seq(|sessions|, i requires 0 <= i < |sessions| => sessions[i].span)
  }

  class InferenceSession {
    const pipeline: Pipeline
    const maxLength: nat
    var sessions: seq<ServerSession>
    var position: nat
    /** Set by a step that raised. */
    ghost var raised: bool
    /** What the step that raised was to make of the logical sequence. */
    ghost var abandoned: seq<Row>
    /** The rows of the logical sequence so far. */
    ghost var log: seq<Row>

    constructor (pipeline: Pipeline, maxLength: nat)
      requires pipeline.Causal()
      ensures Valid() && log == [] && !raised && sessions == []
      ensures this.pipeline == pipeline && this.maxLength == maxLength
    {
      this.pipeline, this.maxLength := pipeline, maxLength;
      sessions, position, raised, log, abandoned := [], 0, false, [], [];
    }

    ghost function Spans(): (r: seq<Span>)
      reads this`sessions
      ensures |r| == |sessions|
    {
      SpansOf(sessions)
    }

    ghost function Streams(): set<ServerSession>
      reads this`sessions
    {
      set s | s in sessions
    }

    /** Distinct streams over this pipeline whose spans tile all blocks. */
    ghost predicate Chained()
      reads this`sessions, this`log
    {
      && pipeline.Causal()
      && (forall i, j | 0 <= i < j < |sessions| :: sessions[i] != sessions[j])
      && (forall i | 0 <= i < |sessions| ::
            sessions[i].pipeline == pipeline && sessions[i].maxLength == maxLength)
      && (sessions != [] ==> Tiles(Spans(), 0, pipeline.depth))
      && (sessions == [] && pipeline.depth > 0 ==> log == [])
    }

    /** In order, or left behind by a step that raised. */
    ghost predicate Valid()
      reads this, sessions
    {
      && Chained()
      && position == |log| && |abandoned| <= maxLength
      && if raised then log == [] ==> Agrees(abandoned) else Untouched(0)
    }

    /** No stream from k on has taken part in a step since they all agreed on the logical sequence. */
    ghost predicate Untouched(k: nat)
      reads this, sessions
    {
      forall i: nat | k <= i < |sessions| :: sessions[i].Synced(log)
    }

    /** At position 0, no stream remembers anything but target. */
    ghost predicate Agrees(target: seq<Row>)
      reads this, sessions
    {
      log == [] && forall i: nat | i < |sessions| :: sessions[i].Recoverable([], target)
    }

    /**
     At position 0 after a step that raised, the first stream remembers the rows of that step and will
     send them again: it has advanced, was closed, or replaced one that had.
     */
    ghost predicate Stale()
      reads this, sessions
    {
      raised && Overridden(0, false, abandoned)
    }

    ghost predicate Overridden(k: nat, failed: bool, target: seq<Row>)
      reads this, sessions
    {
      && k == 0 && log == [] && target != [] && sessions != [] && sessions[0].history == Some(target)
      && (failed || sessions[0].position != 0 || !sessions[0].stepped || sessions[0].closed)
    }

    /** What the logical sequence becomes if a step with these rows returns. */
    ghost function Target(inputs: seq<Row>): seq<Row>
      reads this, sessions
    {
      if raised && !Agrees(inputs) then abandoned else log + inputs
    }

    /**
     In the middle of a step towards target: the first k streams have taken the new rows. At position 0
     the others remember nothing else; past it they are untouched until one has failed.
     */
    ghost predicate Midway(k: nat, failed: bool, target: seq<Row>)
      reads this, sessions
    {
      && Chained()
      && position == |log| && log <= target && k <= |sessions|
      && (forall i: nat | i < k :: sessions[i].Synced(target))
      && (log == [] ==> forall i: nat | k <= i < |sessions| :: sessions[i].Recoverable([], target))
      && (log != [] && !failed ==> Untouched(k))
    }

    /** What stream k is given at block blockIdx: the rows that arrive there, unless it insists on others. */
    ghost predicate Feeds(k: nat, blockIdx: nat, failed: bool, inputs: seq<Row>, target: seq<Row>)
      reads this, sessions
    {
      inputs == Suffix(pipeline.Run(0, blockIdx, target), |log|) || Overridden(k, failed, target)
    }

    /**
     Rewinds the whole session; raises if some stream is not as far as the given position. After a step that
     raised this puts a session in order only from position 0; elsewhere streams stay as that step left them.
     */
    method Rewind(startFromPosition: nat) returns (ok: bool)
      requires Valid() && startFromPosition <= position
      modifies this, Streams()
      ensures Valid() && log == old(log)[..startFromPosition]
      ensures sessions == old(sessions) && raised == old(raised)
      ensures ok <==> forall i: nat | i < |sessions| :: startFromPosition <= old(sessions[i].position)
      ensures startFromPosition == 0 || !raised ==> ok
      ensures startFromPosition == 0 ==> forall target :: Agrees(target)
    {
      hide Tiles, Pipeline.Causal;
      position := startFromPosition;
      ok := RewindStreams(sessions, pipeline, startFromPosition, log);
      log := log[..startFromPosition];
      if raised {
        abandoned := [];
      }
    }

    /** Where stream k ends, or the pipeline if there are no streams yet. */
    ghost function EndOf(k: nat): nat
      reads this`sessions
    {
      if k < |sessions| then sessions[k].span.end else pipeline.depth
    }

    /** Closes stream k, if any, and puts streams along a new route in its place; the first inherits its history. */
    method UpdateSequence(k: nat, blockIdx: nat, attempt: nat, env: Environment, ghost target: seq<Row>)
      returns (ok: bool)
      requires Midway(k, true, target) && env.Valid() && blockIdx < pipeline.depth
      requires At(k, blockIdx)
      modifies this`sessions, Streams()
      ensures Midway(k, true, target) && log == old(log) && position == old(position) && At(k, blockIdx)
      ensures ok <==> env.Opens(attempt, blockIdx, old(EndOf(k)))
      ensures k <= |sessions| && forall i: nat | i < k :: sessions[i] == old(sessions)[i]
      ensures ok ==> k < |sessions| && sessions[k].position == 0 && !sessions[k].closed && !sessions[k].stepped
      ensures ok && old(sessions) == [] ==> env.Follows(Spans(), attempt, blockIdx, pipeline.depth)
      ensures log == [] && old(Untouched(k + 1)) ==> Untouched(k + 1)
      ensures old(Overridden(k, true, target)) ==> Overridden(k, true, target)
      ensures fresh(Streams() - old(Streams()))
      ensures !ok ==> sessions == old(sessions)
    {
      hide ServerSession.Synced, Tiles, Routes;
      var updateEnd := pipeline.depth;
      if k < |sessions| {
        updateEnd := sessions[k].span.end;
        sessions[k].closed := true;
        SpanIsNonempty(Spans(), k, 0, pipeline.depth);
      }
      var chain, spans := OpenAlongRoute(pipeline, maxLength, blockIdx, updateEnd, attempt, env);
      if chain.Raised? {
        return false;
      }
      UnusedIsSynced(chain.value, target);
      if k < |sessions| {
        chain.value[0].history := sessions[k].history;
      }
      Splice(k, chain.value, spans, target);
      ok := true;
    }

    /**
     One step over the whole pipeline. A step that returns gives the last rows of the pipeline on its
     target, which is the logical sequence with the new rows unless a raised step left a stale stream.
     Past position 0 it returns exactly if every stream answers at once; at position 0 it does if each
     block has an attempt that goes through, which no repair past position 0 can.
     */
    method Step(inputs: seq<Row>, env: Environment, maxRetries: nat) returns (r: Result<seq<Row>>, ghost stuck: nat)
      requires Valid() && env.Valid() && maxRetries >= 1
      requires raised ==> log == [] && (Agrees(inputs) || Stale())
      modifies this, Streams()
      ensures Valid()
      ensures fresh(Streams() - old(Streams()))
      ensures r.Ok? ==> !raised && log == old(Target(inputs)) && |log| == |old(log)| + |inputs|
                        && r.value == Suffix(pipeline.Run(0, pipeline.depth, log), |old(log)|)
                        && (pipeline.depth > 0 ==> Tiles(Spans(), 0, pipeline.depth))
      ensures r.Raised? ==> log == old(log)
      ensures old(position) + |inputs| > maxLength ==> r.Raised? && sessions == old(sessions) && raised == old(raised)
      ensures r.Raised? && old(position) + |inputs| <= maxLength ==>
                && raised && abandoned == old(Target(inputs)) && stuck < pipeline.depth
                && (stuck > 0 ==> sessions != [] && sessions[0].Synced(abandoned))
      ensures old(position) + |inputs| <= maxLength && old(log) != [] ==>
                (r.Ok? <==>
                 forall i: nat | i < |old(sessions)| :: env.reply(0, old(sessions)[i].span.start) == Answered)
      ensures r.Ok? && old(log) != [] ==> sessions == old(sessions)
      ensures old(position) + |inputs| <= maxLength && old(log) == [] && |inputs| == |old(Target(inputs))|
              && r.Raised? ==>
                !env.Passable(stuck, if old(raised) then 1 else 0, maxRetries, pipeline.depth)
      ensures old(log) == [] && r.Ok? ==>
                forall i: nat | i < |sessions| :: env.AnswersOnce(sessions[i].span.start, maxRetries)
      ensures maxRetries == 1 && old(sessions) == [] && pipeline.depth > 0 && r.Ok? ==>
                env.Follows(Spans(), 0, 0, pipeline.depth)
      ensures old(position) + |inputs| <= maxLength && !old(raised) && env.Healthy() ==> r.Ok?
    {
      hide ServerSession.Synced, ServerSession.Recoverable, Tiles, SpansOf;
      hide InferenceSession.Feeds, InferenceSession.Midway;
      stuck := 0;
      if position + |inputs| > maxLength {
        return Raised, stuck;
      }
      ghost var target := Target(inputs);
      StepBegins(inputs);
      r, stuck := PushAll(inputs, env, maxRetries, target);
      if r.Raised? {
        raised, abandoned := true, target;
      } else {
        Commit(|inputs|, target);
      }
      if env.Healthy() && !old(raised) && old(log) == [] {
        env.HealthyIsPassable(stuck, 0, maxRetries, pipeline.depth);
      }
    }

    /** After a step that raised, a stale first stream gives the right rows exactly for the rows it remembers. */
    lemma StaleSessionRepeats(inputs: seq<Row>)
      requires Valid() && Stale()
      ensures Target(inputs) == abandoned
      ensures Target(inputs) == log + inputs <==> inputs == abandoned
    {
      FirstBeginsAtZero(Spans(), pipeline.depth);
      assert Agrees(inputs) ==> sessions[0].Recoverable([], inputs);
    }

    /** A step may begin: the streams remember nothing but its target. */
    lemma StepBegins(inputs: seq<Row>)
      requires Valid() && (raised ==> log == [] && (Agrees(inputs) || Stale())) && |log| + |inputs| <= maxLength
      ensures Midway(0, false, Target(inputs)) && Feeds(0, 0, false, inputs, Target(inputs))
      ensures |Target(inputs)| <= maxLength
      ensures !raised ==> Untouched(0) && Target(inputs) == log + inputs
    {
      hide Tiles;
      assert inputs == Suffix(log + inputs, |log|);
      forall i: nat | i < |sessions| && log == [] && !raised ensures sessions[i].Recoverable([], Target(inputs)) {
        pipeline.RunIsCausal(0, sessions[i].span.start, [], 0);
      }
    }

    /** The position moves once every stream has taken the new rows. */
    method Commit(n: nat, ghost target: seq<Row>)
      requires Chained() && position + n == |target| <= maxLength && |abandoned| <= maxLength
      requires sessions == [] ==> pipeline.depth == 0
      requires forall i: nat | i < |sessions| :: sessions[i].Synced(target)
      modifies this`position, this`log, this`raised
      ensures Valid() && log == target && !raised
      ensures pipeline.depth > 0 ==> Tiles(Spans(), 0, pipeline.depth)
    {
      position, log, raised := position + n, target, false;
    }

    /** Every block in turn. */
    method PushAll(inputs: seq<Row>, env: Environment, maxRetries: nat, ghost target: seq<Row>)
      returns (r: Result<seq<Row>>, ghost stuck: nat)
      requires Midway(0, false, target) && Feeds(0, 0, false, inputs, target)
      requires env.Valid() && maxRetries >= 1 && |target| <= maxLength
      modifies this`sessions, Streams()
      ensures Chained() && log == old(log) && position == old(position)
      ensures fresh(Streams() - old(Streams()))
      ensures r.Ok? ==> r.value == Suffix(pipeline.Run(0, pipeline.depth, target), |log|)
                        && |log| + |inputs| == |target|
                        && (forall i: nat | i < |sessions| :: sessions[i].Synced(target))
                        && (sessions == [] ==> pipeline.depth == 0)
      ensures r.Raised? ==> stuck < pipeline.depth && (log == [] ==> Agrees(target))
                            && (stuck > 0 ==> sessions != [] && sessions[0].Synced(target))
      ensures log != [] ==>
                (r.Ok? <==>
                 forall i: nat | i < |old(sessions)| :: env.reply(0, old(sessions)[i].span.start) == Answered)
      ensures r.Ok? && log != [] ==> sessions == old(sessions)
      ensures log == [] && |inputs| == |target| && r.Raised? ==>
                !env.Passable(stuck, if old(Untouched(0)) then 0 else 1, maxRetries, pipeline.depth)
      ensures log == [] && r.Ok? ==>
                forall i: nat | i < |sessions| :: env.AnswersOnce(sessions[i].span.start, maxRetries)
      ensures maxRetries == 1 && old(sessions) == [] && pipeline.depth > 0 && r.Ok? ==>
                env.Follows(Spans(), 0, 0, pipeline.depth)
    {
      hide InferenceSession.WereAnswered, InferenceSession.Midway, InferenceSession.Feeds, InferenceSession.Untouched;
      hide InferenceSession.At, InferenceSession.Chained, InferenceSession.Agrees, InferenceSession.Pushing;
      hide Pipeline.Run;
      hide Tiles, Suffix, SpansOf, ServerSession.Synced;
      hide Environment.Passable, Environment.Follows, Environment.AnswersOnce, Environment.Valid;
      var k, blockIdx, current := 0, 0, inputs;
      ghost var from := if Untouched(0) then 0 else 1;
      stuck := 0;
      PushBegins(inputs, target, env, maxRetries, from);
      while blockIdx < pipeline.depth
        invariant position == |log| && log == old(log)
        invariant Pushing(k, blockIdx, current, |inputs|, target, env, maxRetries, from)
        invariant fresh(Streams() - old(Streams()))
        invariant log != [] ==> sessions == old(sessions)
        invariant maxRetries == 1 && old(sessions) == [] ==>
                    if blockIdx == 0 then sessions == []
                    else env.Follows(Spans(), 0, 0, pipeline.depth)
      {
        PushMayGoOn(k, blockIdx, current, |inputs|, target, env, maxRetries, from);
        ghost var before := sessions;
        var done := PassBlock(k, blockIdx, current, env, maxRetries, target, from);
        if done.Raised? {
          stuck := blockIdx;
          LeftBehind(k, target);
          return Raised, stuck;
        }
        NextStream(k, target);
        OneMoreAnswered(before, k, env, maxRetries);
        current, blockIdx, k := done.value, sessions[k].span.end, k + 1;
        PushGoesOn(k, blockIdx, current, |inputs|, target, env, maxRetries, from);
      }
      PushEnds(k, blockIdx, current, |inputs|, target, env, maxRetries, from);
      r := Ok(current);
    }

    /** The loop over the blocks: streams 0 .. k - 1 have taken the rows, and block blockIdx comes next. */
    ghost predicate Pushing(
      k: nat, blockIdx: nat, current: seq<Row>, n: nat, target: seq<Row>, env: Environment, maxRetries: nat, from: nat)
      reads this, sessions
    {
      && blockIdx <= pipeline.depth && from <= 1
      && Midway(k, false, target) && Feeds(k, blockIdx, false, current, target)
      && |current| == n && (blockIdx > 0 ==> k > 0)
      && (if blockIdx < pipeline.depth then At(k, blockIdx) else k == |sessions|)
      && (blockIdx > 0 || pipeline.depth == 0 ==> |log| + n == |target|)
      && WereAnswered(k, env, maxRetries)
      && (log == [] && from == 0 ==> Untouched(k))
    }

    lemma PushBegins(inputs: seq<Row>, target: seq<Row>, env: Environment, maxRetries: nat, from: nat)
      requires Midway(0, false, target) && Feeds(0, 0, false, inputs, target) && from == if Untouched(0) then 0 else 1
      ensures Pushing(0, 0, inputs, |inputs|, target, env, maxRetries, from)
      ensures position == |log|
    {
      BeginsAtZero(inputs, target);
    }

    lemma PushMayGoOn(
      k: nat, blockIdx: nat, current: seq<Row>, n: nat, target: seq<Row>, env: Environment, maxRetries: nat, from: nat)
      requires Pushing(k, blockIdx, current, n, target, env, maxRetries, from) && blockIdx < pipeline.depth
      ensures Midway(k, false, target) && Feeds(k, blockIdx, false, current, target) && At(k, blockIdx)
      ensures |current| == n && from <= 1 && (from == 0 && log == [] ==> Untouched(k)) && (blockIdx > 0 ==> k > 0)
      ensures k <= |sessions| && forall i: nat | i < k ::
                if log != [] then env.reply(0, sessions[i].span.start) == Answered
                else env.AnswersOnce(sessions[i].span.start, maxRetries)
      ensures log != [] ==> k < |sessions| && sessions[k].span.start == blockIdx
      ensures sessions == [] ==> blockIdx == 0
    {
    }

    lemma PushGoesOn(
      k: nat, blockIdx: nat, current: seq<Row>, n: nat, target: seq<Row>, env: Environment, maxRetries: nat, from: nat)
      requires 0 < k <= |sessions| && 0 < blockIdx <= pipeline.depth && from <= 1
      requires Midway(k, false, target) && current == Suffix(pipeline.Run(0, blockIdx, target), |log|)
      requires |current| == |target| - |log| && |log| + n == |target|
      requires if blockIdx < pipeline.depth then At(k, blockIdx) else k == |sessions|
      requires WereAnswered(k, env, maxRetries) && (log == [] && from == 0 ==> Untouched(k))
      ensures Pushing(k, blockIdx, current, n, target, env, maxRetries, from)
    {
    }

    lemma PushEnds(
      k: nat, blockIdx: nat, current: seq<Row>, n: nat, target: seq<Row>, env: Environment, maxRetries: nat, from: nat)
      requires Pushing(k, blockIdx, current, n, target, env, maxRetries, from) && blockIdx >= pipeline.depth
      ensures Chained() && forall i: nat | i < |sessions| :: sessions[i].Synced(target)
      ensures forall i: nat | i < |sessions| ::
                if log != [] then env.reply(0, sessions[i].span.start) == Answered
                else env.AnswersOnce(sessions[i].span.start, maxRetries)
      ensures current == Suffix(pipeline.Run(0, pipeline.depth, target), |log|) && |log| + n == |target|
      ensures (sessions == [] ==> pipeline.depth == 0) && (pipeline.depth > 0 ==> blockIdx > 0)
    {
      hide ServerSession.Synced, Environment.AnswersOnce;
      if sessions != [] {
        SpanIsFollowed(Spans(), 0, pipeline.depth);
      }
    }

    /** Each of the first k streams was answered: past position 0 at once, at position 0 by some attempt. */
    ghost predicate WereAnswered(k: nat, env: Environment, maxRetries: nat)
      reads this
    {
      && k <= |sessions|
      && forall i: nat | i < k ::
           if log != [] then env.reply(0, sessions[i].span.start) == Answered
           else env.AnswersOnce(sessions[i].span.start, maxRetries)
    }

    lemma BeginsAtZero(inputs: seq<Row>, target: seq<Row>)
      requires Midway(0, false, target) && Feeds(0, 0, false, inputs, target)
      ensures if pipeline.depth > 0 then At(0, 0) else sessions == [] && |log| + |inputs| == |target|
    {
      if sessions != [] {
        SpanIsFollowed(Spans(), 0, pipeline.depth);
      }
    }

    /** After stream k comes the next one, or the end of the pipeline. */
    lemma NextStream(k: nat, target: seq<Row>)
      requires Midway(k + 1, false, target) && k < |sessions|
      ensures sessions[k].span.start < sessions[k].span.end <= pipeline.depth
      ensures if sessions[k].span.end < pipeline.depth then At(k + 1, sessions[k].span.end) else k + 1 == |sessions|
      ensures |Suffix(pipeline.Run(0, sessions[k].span.end, target), |log|)| == |target| - |log|
    {
      SpanIsFollowed(Spans(), k, pipeline.depth);
      pipeline.RunIsCausal(0, sessions[k].span.end, target, |log|);
    }

    lemma OneMoreAnswered(before: seq<ServerSession>, k: nat, env: Environment, maxRetries: nat)
      requires k < |sessions| && k <= |before| && forall i: nat | i < k :: sessions[i] == before[i]
      requires forall i: nat | i < k ::
                 if log != [] then env.reply(0, before[i].span.start) == Answered
                 else env.AnswersOnce(before[i].span.start, maxRetries)
      requires if log != [] then env.reply(0, sessions[k].span.start) == Answered
               else env.AnswersOnce(sessions[k].span.start, maxRetries)
      ensures WereAnswered(k + 1, env, maxRetries)
    {
      hide Environment.AnswersOnce;
    }

    lemma StreamIsReady(k: nat, blockIdx: nat, from: nat, target: seq<Row>)
      requires Midway(k, false, target) && At(k, blockIdx) && (from == 0 && log == [] ==> Untouched(k))
      ensures Chained() && (from == 0 && log == [] ==> Ready(k) && Untouched(k + 1))
      ensures k <= |sessions| && (log != [] && pipeline.depth > 0 ==> sessions != [])
    {
    }

    lemma LeftBehind(k: nat, target: seq<Row>)
      requires Midway(k, true, target)
      ensures Chained() && (log == [] ==> Agrees(target))
      ensures k > 0 ==> sessions != [] && sessions[0].Synced(target)
    {
    }

    lemma EndsInside(k: nat, blockIdx: nat, failed: bool, target: seq<Row>)
      requires Midway(k, failed, target) && At(k, blockIdx) && blockIdx < pipeline.depth
      ensures blockIdx < EndOf(k) <= pipeline.depth
    {
      if k < |sessions| {
        SpanIsFollowed(Spans(), k, pipeline.depth);
      }
    }

    /** Where a step stands: about to use stream k, whose span begins at blockIdx. */
    ghost predicate At(k: nat, blockIdx: nat)
      reads this`sessions
    {
      if sessions == [] then k == 0 && blockIdx == 0 else k < |sessions| && sessions[k].span.start == blockIdx
    }

    /** Stream k would take a request from position 0. */
    ghost predicate Ready(k: nat)
      reads this, sessions
    {
      k < |sessions| ==> sessions[k].position == 0 && !sessions[k].closed
    }

    /** Retries stream k until it answers or the retries run out. */
    method PassBlock(k: nat, blockIdx: nat, inputs: seq<Row>, env: Environment, maxRetries: nat, ghost target: seq<Row>,
      ghost from: nat)
      returns (r: Result<seq<Row>>)
      requires env.Valid() && blockIdx < pipeline.depth && |target| <= maxLength && maxRetries >= 1
      requires Midway(k, false, target) && At(k, blockIdx) && Feeds(k, blockIdx, false, inputs, target)
      requires from <= 1 && (from == 0 && log == [] ==> Untouched(k))
      modifies this`sessions, Streams()
      ensures log == old(log) && position == old(position)
      ensures fresh(Streams() - old(Streams()))
      ensures r.Ok? ==> Midway(k + 1, false, target) && k < |sessions| && |log| + |inputs| == |target|
                        && sessions[k].span.start == blockIdx
                        && r.value == Suffix(pipeline.Run(0, sessions[k].span.end, target), |log|)
      ensures r.Raised? ==> Midway(k, true, target)
      ensures forall i: nat | i < k :: sessions[i] == old(sessions)[i]
      ensures log == [] && from == 0 ==> Untouched(k + 1)
      ensures log != [] ==> (r.Ok? <==> env.reply(0, blockIdx) == Answered)
      ensures r.Ok? && (log != [] || (maxRetries == 1 && old(sessions) != [])) ==> sessions == old(sessions)
      ensures log == [] && |inputs| == |target| && r.Raised? ==>
                !env.Passable(blockIdx, from, maxRetries, pipeline.depth)
      ensures log == [] && r.Ok? ==> env.AnswersOnce(blockIdx, maxRetries)
      ensures maxRetries == 1 && r.Ok? && old(sessions) == [] ==>
                env.Follows(Spans(), 0, blockIdx, pipeline.depth)
    {
      var attempt := 0;
      StreamIsReady(k, blockIdx, from, target);
      hide InferenceSession.Midway, InferenceSession.Feeds, InferenceSession.Untouched, InferenceSession.Chained;
      hide Tiles, Pipeline.Run, ServerSession.Synced, ServerSession.Recoverable, SpansOf;
      hide Environment.Fails, Environment.Opens, Environment.Passable, Environment.AnswersOnce, Environment.Follows;
      env.NoneLeft(blockIdx, from, maxRetries, pipeline.depth);
      while true
        invariant attempt < maxRetries
        invariant log == old(log) && position == old(position)
        invariant Midway(k, attempt >= 1, target) && At(k, blockIdx)
        invariant Feeds(k, blockIdx, attempt >= 1, inputs, target)
        invariant fresh(Streams() - old(Streams()))
        invariant attempt == 0 ==> sessions == old(sessions) && Streams() == old(Streams())
        invariant attempt == 0 && log == [] && from == 0 ==> Ready(k)
        invariant k <= |sessions| && forall i: nat | i < k :: sessions[i] == old(sessions)[i]
        invariant log == [] && from == 0 ==> Untouched(k + 1)
        invariant log != [] && attempt >= 1 ==> env.reply(0, blockIdx) != Answered
        invariant log == [] && |inputs| == |target| ==> env.Fails(blockIdx, from, attempt, pipeline.depth)
        decreases maxRetries - attempt
      {
        EndsInside(k, blockIdx, attempt >= 1, target);
        ghost var end := EndOf(k);
        r := Attempt(k, blockIdx, attempt, inputs, env, target);
        if r.Ok? {
          env.OneAnswers(blockIdx, attempt, maxRetries);
          return;
        }
        if log == [] && |inputs| == |target| {
          env.OneMoreFails(blockIdx, from, attempt, end, pipeline.depth);
        }
        if attempt + 1 == maxRetries {
          return Raised;
        }
        attempt := attempt + 1;
      }
    }

    /** One attempt to push the rows through stream k, repairing the chain first if an attempt has failed. */
    method Attempt(k: nat, blockIdx: nat, attempt: nat, inputs: seq<Row>, env: Environment, ghost target: seq<Row>)
      returns (r: Result<seq<Row>>)
      requires env.Valid() && blockIdx < pipeline.depth && |target| <= maxLength
      requires Midway(k, attempt >= 1, target) && At(k, blockIdx) && Feeds(k, blockIdx, attempt >= 1, inputs, target)
      modifies this`sessions, Streams()
      ensures log == old(log) && position == old(position)
      ensures fresh(Streams() - old(Streams()))
      ensures r.Ok? ==> Midway(k + 1, false, target) && k < |sessions| && |log| + |inputs| == |target|
                        && sessions[k].span.start == blockIdx
                        && r.value == Suffix(pipeline.Run(0, sessions[k].span.end, target), |log|)
      ensures r.Raised? ==> Midway(k, true, target) && At(k, blockIdx) && Feeds(k, blockIdx, true, inputs, target)
      ensures k <= |sessions| && forall i: nat | i < k :: sessions[i] == old(sessions)[i]
      ensures log == [] && old(Untouched(k + 1)) ==> Untouched(k + 1)
      ensures attempt == 0 && old(sessions) != [] ==> sessions == old(sessions)
      ensures log != [] ==> (r.Ok? <==> attempt == 0 && env.reply(0, blockIdx) == Answered)
      ensures log == [] && (attempt >= 1 || old(sessions) == []) ==>
                (r.Ok? <==> env.Opens(attempt, blockIdx, old(EndOf(k))) && env.reply(attempt, blockIdx) == Answered
                            && |inputs| == |target|)
      ensures log == [] && attempt == 0 && old(sessions) != [] ==>
                (r.Ok? <==> old(Ready(k)) && env.reply(0, blockIdx) == Answered && |inputs| == |target|)
      ensures r.Ok? && old(sessions) == [] ==>
                env.Follows(Spans(), attempt, blockIdx, pipeline.depth)
    {
      hide Tiles;
      pipeline.RunIsCausal(0, blockIdx, target, |log|);
      var repaired := sessions == [] || attempt >= 1;
      if repaired {
        var ok := UpdateSequence(k, blockIdx, attempt, env, target);
        if !ok {
          return Raised;
        }
      }
      var session := sessions[k];
      assert session in sessions;
      if session.position != position {
        return Raised;
      }
      r := PushThrough(k, repaired, inputs, env.reply(attempt, blockIdx), target);
    }

    /** The request itself: on success stream k joins those that have taken the new rows. */
    method PushThrough(k: nat, failed: bool, inputs: seq<Row>, reply: Reply, ghost target: seq<Row>)
      returns (r: Result<seq<Row>>)
      requires Midway(k, failed, target) && k < |sessions| && |target| <= maxLength && sessions[k].position == position
      requires failed ==> log == []
      requires Feeds(k, sessions[k].span.start, false, inputs, target)
      modifies sessions[k]
      ensures r.Ok? ==> Midway(k + 1, false, target) && |log| + |inputs| == |target|
                        && r.value == Suffix(pipeline.Run(0, sessions[k].span.end, target), |log|)
      ensures r.Raised? ==> Midway(k, true, target) && Feeds(k, sessions[k].span.start, true, inputs, target)
      ensures r.Ok? <==> !old(sessions[k].closed) && reply == Answered && |log| + |inputs| == |target|
      ensures log == [] && old(Untouched(k + 1)) ==> Untouched(k + 1)
    {
      hide Tiles;
      SpanIsNonempty(Spans(), k, 0, pipeline.depth);
      FirstBeginsAtZero(Spans(), pipeline.depth);
      r := sessions[k].Step(inputs, reply, log, target);
    }

    method Splice(k: nat, more: seq<ServerSession>, ghost spans: seq<Span>, ghost target: seq<Row>)
      requires Midway(k, true, target)
      requires if sessions == [] then k == 0 && Tiles(spans, 0, pipeline.depth)
               else k < |sessions| && Tiles(spans, sessions[k].span.start, sessions[k].span.end)
      requires more != [] && OpenedAlong(more, pipeline, maxLength, spans)
      requires log == [] ==> more[0].Recoverable([], target)
      requires log == [] ==> forall i: nat | 0 < i < |more| :: more[i].Synced([]) && more[i].Recoverable([], target)
      requires forall i, j | 0 <= i < |more| && 0 <= j < |sessions| :: more[i] != sessions[j]
      modifies this`sessions
      ensures Midway(k, true, target)
      ensures k < |sessions| && sessions[k] == more[0]
      ensures forall i: nat | i < k :: sessions[i] == old(sessions)[i]
      ensures old(sessions) == [] ==> Spans() == spans
      ensures log == [] && old(Untouched(k + 1)) ==> Untouched(k + 1)
      ensures Streams() <= old(Streams()) + set s | s in more
    {
      hide ServerSession.Synced, ServerSession.Recoverable, Tiles;
      if k < |sessions| {
        SpliceTiles(Spans(), k, spans, 0, pipeline.depth);
        hide SpansOf;
        SplicedStreams(sessions, k, more);
        SplicedSpans(sessions, k, more, spans);
        sessions := Spliced(sessions, k, more);
      } else {
        SpansOfOpened(more, pipeline, maxLength, spans);
        sessions := more;
      }
    }
  }

  function Spliced<T>(s: seq<T>, k: nat, more: seq<T>): seq<T>
    requires k < |s|
  {
    s[..k] + more + s[k + 1..]
  }

  /** Which stream comes where when more takes the place of stream k; none occurs twice. */
  lemma SplicedStreams(s: seq<ServerSession>, k: nat, more: seq<ServerSession>)
    requires k < |s| && more != []
    requires forall i, j | 0 <= i < j < |s| :: s[i] != s[j]
    requires forall i, j | 0 <= i < j < |more| :: more[i] != more[j]
    requires forall i, j | 0 <= i < |more| && 0 <= j < |s| :: more[i] != s[j]
    ensures var r := Spliced(s, k, more);
            && |r| == |s| + |more| - 1
            && (forall i: nat | i < |r| ::
                  r[i] == if i < k then s[i] else if i < k + |more| then more[i - k] else s[i - |more| + 1])
            && forall i, j | 0 <= i < j < |r| :: r[i] != r[j]
  {
  }

  lemma SplicedSpans(s: seq<ServerSession>, k: nat, more: seq<ServerSession>, spans: seq<Span>)
    requires k < |s| && |more| == |spans| && forall i | 0 <= i < |more| :: more[i].span == spans[i]
    ensures SpansOf(Spliced(s, k, more)) == SpansOf(s)[..k] + spans + SpansOf(s)[k + 1..]
  {
  }

  lemma SpansOfOpened(more: seq<ServerSession>, pipeline: Pipeline, maxLength: nat, spans: seq<Span>)
    requires OpenedAlong(more, pipeline, maxLength, spans)
    ensures SpansOf(more) == spans
  {
  }

  /** Rewinds the streams of a chain up to the first one that is not as far as the given position. */
  method RewindStreams(sessions: seq<ServerSession>, pipeline: Pipeline, startFromPosition: nat, ghost l: seq<Row>)
    returns (ok: bool)
    requires pipeline.Causal() && forall i, j | 0 <= i < j < |sessions| :: sessions[i] != sessions[j]
    requires forall i | 0 <= i < |sessions| :: sessions[i].pipeline == pipeline
    modifies sessions
    ensures ok <==> forall i: nat | i < |sessions| :: startFromPosition <= old(sessions[i].position)
    ensures ok ==> forall i | 0 <= i < |sessions| :: sessions[i].position == startFromPosition
    ensures startFromPosition == 0 ==> forall i | 0 <= i < |sessions| :: sessions[i].history == None
    ensures ok && startFromPosition <= |l| ==>
              forall i | 0 <= i < |sessions| && old(sessions[i].Synced(l)) :: sessions[i].Synced(l[..startFromPosition])
  {
    for i := 0 to |sessions|
      invariant forall j | i <= j < |sessions| ::
                  && sessions[j].position == old(sessions[j].position)
                  && sessions[j].Synced(l) == old(sessions[j].Synced(l))
      invariant forall j: nat | j < i :: startFromPosition <= old(sessions[j].position)
      invariant forall j | 0 <= j < i :: sessions[j].position == startFromPosition
      invariant startFromPosition == 0 ==> forall j | 0 <= j < i :: sessions[j].history == None
      invariant startFromPosition <= |l| ==>
                  forall j | 0 <= j < i && old(sessions[j].Synced(l)) :: sessions[j].Synced(l[..startFromPosition])
    {
      if startFromPosition > sessions[i].position {
        return false;
      }
      sessions[i].Rewind(startFromPosition, l);
    }
    ok := true;
  }

  /** Distinct streams of this pipeline along the given spans. */
  ghost predicate OpenedAlong(more: seq<ServerSession>, pipeline: Pipeline, maxLength: nat, spans: seq<Span>) {
    && |more| == |spans|
    && (forall i | 0 <= i < |more| ::
          more[i].span == spans[i] && more[i].pipeline == pipeline && more[i].maxLength == maxLength)
    && forall i, j | 0 <= i < j < |more| :: more[i] != more[j]
  }

  ghost predicate Unused(s: ServerSession)
    reads s
  {
    s.position == 0 && s.history == None && !s.stepped && !s.closed && s.cached == []
  }

  /** Opens one stream per span, or none at all. */
  method EnterServerSessions(pipeline: Pipeline, maxLength: nat, spans: seq<Span>, attempt: nat, env: Environment)
    returns (r: Result<seq<ServerSession>>)
    ensures r.Ok? ==> OpenedAlong(r.value, pipeline, maxLength, spans)
                      && forall i | 0 <= i < |spans| :: fresh(r.value[i]) && Unused(r.value[i])
    ensures r.Ok? <==> forall i: nat | i < |spans| :: env.connects(attempt, spans[i].start, i)
  {
    var chain: seq<ServerSession> := [];
    for i := 0 to |spans|
      invariant OpenedAlong(chain, pipeline, maxLength, spans[..i])
      invariant forall j | 0 <= j < i :: fresh(chain[j]) && Unused(chain[j])
      invariant forall j: nat | j < i :: env.connects(attempt, spans[j].start, j)
    {
      if !env.connects(attempt, spans[i].start, i) {
        return Raised;
      }
      var session := new ServerSession(pipeline, spans[i], maxLength);
      chain := chain + [session];
    }
    r := Ok(chain);
  }

  /** Asks for a route, trims it, and opens its streams. */
  method OpenAlongRoute(pipeline: Pipeline, maxLength: nat, blockIdx: nat, end: nat, attempt: nat, env: Environment)
    returns (r: Result<seq<ServerSession>>, ghost spans: seq<Span>)
    requires env.Valid() && blockIdx < end
    ensures r.Ok? ==> OpenedAlong(r.value, pipeline, maxLength, spans) && Tiles(spans, blockIdx, end)
                      && r.value != [] && r.value[0].span.start == blockIdx
                      && forall i | 0 <= i < |spans| :: fresh(r.value[i]) && Unused(r.value[i])
    ensures r.Ok? <==> env.Opens(attempt, blockIdx, end)
    ensures r.Ok? ==> env.Follows(spans, attempt, blockIdx, end)
  {
    var route := env.route(attempt, blockIdx, end);
    spans := [];
    if route.Raised? {
      return Raised, spans;
    }
    assert Routes(route.value, blockIdx, end);
    var trimmed := Trimmed(route.value, end);
    spans := trimmed;
    TrimmedTiles(route.value, blockIdx, end);
    assert forall i: nat | i < |trimmed| :: trimmed[i].start == route.value[i].start;
    r := EnterServerSessions(pipeline, maxLength, trimmed, attempt, env);
  }

  // ----- a step that raised, and the one after it -----

  /** One block after another, each on a stream of its own. */
  function OneBlockSpans(a: nat, b: nat): (r: seq<Span>)
    ensures a < b ==> Routes(r, a, b)
  {
    if a < b then seq(b - a, (i: nat) => Span(0, a + i, a + i + 1)) else []
  }

  function Reachable(reply: (nat, nat) -> Reply): Environment {
    Environment((attempt: nat, a: nat, b: nat) => Ok(OneBlockSpans(a, b)),
                (attempt: nat, b: nat, i: nat) => true, reply)
  }

  lemma EverythingOpens(reply: (nat, nat) -> Reply, attempt: nat, b: nat, depth: nat)
    ensures Reachable(reply).Valid()
    ensures reply(attempt, b) == Answered ==> Reachable(reply).GoesThrough(attempt, b, depth)
  {
  }

  lemma SecondBlockIsAlone(depth: nat, reply: (nat, nat) -> Reply)
    requires depth >= 2
    ensures forall spans: seq<Span> | Reachable(reply).Follows(spans, 0, 0, depth) ::
              |spans| >= 2 && spans[1].start == 1
  {
  }

  /**
   Step A passes its first block and raises at the second. Step B has other rows of the same number. Its
   first attempt fails the test of the position, the second replaces the first stream, which inherits what
   that remembers, and the rows that come back are those of step A.
   */
  method StaleRowsComeBack(session: InferenceSession, x: seq<Row>, y: seq<Row>) returns (rows: seq<Row>)
    requires session.Valid() && !session.raised && session.sessions == [] && session.log == []
    requires session.pipeline.depth >= 2 && 1 <= |x| == |y| <= session.maxLength
    modifies session, session.Streams()
    ensures rows == session.pipeline.Run(0, session.pipeline.depth, x)
  {
    hide Tiles, ServerSession.Synced;
    var depth := session.pipeline.depth;
    var firstOnly := (attempt: nat, b: nat) => if b == 0 then Answered else Lost;
    EverythingOpens(firstOnly, 0, 0, depth);
    var a, stuck := session.Step(x, Reachable(firstOnly), 1);
    SecondBlockIsAlone(depth, firstOnly);
    assert a.Raised? && stuck > 0;
    FirstIsStale(session, x);
    var always := (attempt: nat, b: nat) => Answered;
    session.StaleSessionRepeats(y);
    var b, again := session.Step(y, Reachable(always), 2);
    if b.Raised? {
      EverythingOpens(always, 1, again, depth);
    }
    rows := b.value;
  }

  /** Rewound to position 0, any session gives the right rows again, whatever a raised step left in it. */
  method RewindPutsInOrder(session: InferenceSession, y: seq<Row>) returns (rows: seq<Row>)
    requires session.Valid() && |y| <= session.maxLength
    modifies session, session.Streams()
    ensures rows == session.pipeline.Run(0, session.pipeline.depth, y)
  {
    hide Tiles, ServerSession.Synced;
    var always := (attempt: nat, b: nat) => Answered;
    var ok := session.Rewind(0);
    assert session.Agrees(y);
    EverythingOpens(always, 0, 0, session.pipeline.depth);
    var b, stuck := session.Step(y, Reachable(always), 2);
    if b.Raised? {
      EverythingOpens(always, 1, stuck, session.pipeline.depth);
      EverythingOpens(always, 0, stuck, session.pipeline.depth);
    }
    assert [] + y == y;
    rows := b.value;
  }

  lemma FirstIsStale(session: InferenceSession, x: seq<Row>)
    requires session.Valid() && session.raised && session.log == [] && session.abandoned == x != []
    requires session.sessions != [] && session.sessions[0].Synced(x)
    ensures session.Stale()
  {
    FirstBeginsAtZero(session.Spans(), session.pipeline.depth);
  }

  lemma SpanIsNonempty(spans: seq<Span>, k: nat, a: nat, b: nat)
    requires Tiles(spans, a, b) && k < |spans|
    ensures spans[k].start < spans[k].end
  {
  }

  lemma FirstBeginsAtZero(spans: seq<Span>, b: nat)
    requires Tiles(spans, 0, b)
    ensures spans != [] && spans[0].start == 0
  {
  }

  lemma SpanIsFollowed(spans: seq<Span>, k: nat, b: nat)
    requires Tiles(spans, 0, b) && k < |spans|
    ensures spans[k].start < spans[k].end <= b
    ensures if k + 1 < |spans| then spans[k].end == spans[k + 1].start && spans[k].end < b else spans[k].end == b
  {
    SpansOrdered(spans, k + 1, b);
  }

  lemma {:induction false} SpansOrdered(spans: seq<Span>, k: nat, b: nat)
    requires Tiles(spans, 0, b) && k <= |spans|
    ensures k < |spans| ==> spans[k].end <= b
    decreases |spans| - k
  {
    if k + 1 < |spans| {
      SpansOrdered(spans, k + 1, b);
      assert spans[k].end == spans[k + 1].start;
    }
  }

  lemma UnusedIsSynced(more: seq<ServerSession>, target: seq<Row>)
    requires forall i | 0 <= i < |more| :: Unused(more[i])
    ensures forall i | 0 <= i < |more| :: more[i].Synced([]) && more[i].Recoverable([], target)
  {
  }
}
