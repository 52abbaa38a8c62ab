/** One stream to one server: the client's side of it and the cache the server keeps for it. */
module ServerSessions {
  import opened Common
  import opened Pipelines

  /** What becomes of one request: lost before or after it reached the server, or answered. */
  datatype Reply = Answered | NeverSent | Lost

  class ServerSession {
    const pipeline: Pipeline
    const span: Span
    const maxLength: nat
    var position: nat
    var history: Option<seq<Row>>
    var stepped: bool
    var closed: bool
    // the server's side: rows it holds for this stream
    var cached: seq<Row>

    constructor (pipeline: Pipeline, span: Span, maxLength: nat)
      ensures this.pipeline == pipeline && this.span == span && this.maxLength == maxLength
      ensures position == 0 && history == None && !stepped && !closed && cached == []
    {
      this.pipeline, this.span, this.maxLength := pipeline, span, maxLength;
      position, history, stepped, closed, cached := 0, None, false, false, [];
    }

    /** The rows that reach this span when the logical sequence is l. */
    ghost function Arriving(l: seq<Row>): seq<Row> {
      pipeline.Run(0, span.start, l)
    }

    /** Client and server agree that l went through this span. */
    ghost predicate Synced(l: seq<Row>)
      reads this
    {
      && position == |l| && !closed
      && (history == Some(Arriving(l)) || (l == [] && history == None))
      && if stepped then |cached| >= |l| && cached[..|l|] == Arriving(l) else l == [] && cached == []
    }

    /** What a stream may remember while a step from position 0 towards target is under way. */
    ghost predicate Recoverable(l: seq<Row>, target: seq<Row>)
      reads this`history
    {
      l == [] ==> history == None || history == Some([]) || history == Some(Arriving(target))
    }

    /** A stream at position 0 that, unless closed, sends the rows it remembers instead of those it is given. */
    ghost predicate Insists(target: seq<Row>)
      reads this
    {
      position == 0 && (!stepped || closed) && Arriving(target) != [] && history == Some(Arriving(target))
    }

    /**
     The server's part of a step. Nothing refuses a start beyond the cached rows; what is answered and cached
     then depends on the kind of block and on leftovers, and may be anything.
     */
    method Serve(startFromPosition: nat, rows: seq<Row>, leftovers: Result<SpanAnswer>) returns (r: Result<seq<Row>>)
      modifies this`cached
      ensures var answer := if startFromPosition > |old(cached)| then leftovers
                            else Answer(pipeline, span, maxLength, old(cached), startFromPosition, rows);
              if answer.Ok? then r.Ok? && answer.value == SpanAnswer(cached, r.value)
              else r.Raised? && cached == old(cached)
    {
      var answer := leftovers;
      if startFromPosition <= |cached| {
        answer := Answer(pipeline, span, maxLength, cached, startFromPosition, rows);
      }
      if answer.Raised? {
        return Raised;
      }
      cached := answer.value.cached;
      r := Ok(answer.value.rows);
    }

    /** The position setter: forget everything after the given position. */
    method Rewind(startFromPosition: nat, ghost l: seq<Row>)
      requires pipeline.Causal() && startFromPosition <= position
      modifies this`position, this`history
      ensures position == startFromPosition
      ensures old(Synced(l)) ==> Synced(l[..startFromPosition])
      ensures startFromPosition == 0 ==> history == None
    {
      ghost var synced := Synced(l);
      position := startFromPosition;
      if history.Some? && |history.value| >= startFromPosition {
        history := if startFromPosition > 0 then Some(history.value[..startFromPosition]) else None;
      }
      if synced {
        pipeline.RunIsCausal(0, span.start, l, startFromPosition);
        assert stepped ==> cached[..startFromPosition] == Arriving(l)[..startFromPosition];
      }
    }

    /**
     One step: send the new rows, or everything if this stream has not been used yet. From position 0 the
     stream may be a used, closed or replaced one, and one that insists on other rows gets its way.
     */
    method Step(inputs: seq<Row>, reply: Reply, ghost l: seq<Row>, ghost target: seq<Row>) returns (r: Result<seq<Row>>)
      requires pipeline.Causal() && span.start <= span.end && l <= target
      requires Synced(l) || (l == [] && position == 0 && Recoverable(l, target))
      requires inputs == Suffix(Arriving(target), |l|) || (l == [] && Insists(target))
      modifies this
      ensures r.Ok? ==> Synced(target) && r.value == Suffix(pipeline.Run(0, span.end, target), |l|)
      ensures r.Ok? <==> !old(closed) && reply == Answered && |target| <= maxLength && |l| + |inputs| == |target|
      ensures r.Raised? ==> Recoverable(l, target) && position == old(position)
      ensures r.Raised? && old(Insists(target)) ==> history == old(history)
    {
      pipeline.RunIsCausal(0, span.start, target, |l|);
      assert l == target[..|l|];
      if closed {
        return Raised;
      }
      var n := |inputs|;
      ghost var insists, request := l == [] && Insists(target), Request(history, position, stepped, inputs);
      if !insists {
        assert Arriving(l) + inputs == Arriving(target);
        assert l == [] ==> Arriving(l) == [] && inputs == Arriving(target);
      }
      if history.None? {
        history := Some(inputs);
      } else if |history.value| == position {
        history := Some(history.value + inputs);
      }
      assert history == Some(Arriving(target));
      if |history.value| != position + n {
        return Raised;
      }
      var sent := if !stepped then history.value else inputs;
      assert request == Some(sent);
      assert !stepped || l == [] ==> sent == Arriving(target);
      if reply == NeverSent {
        return Raised;
      }
      stepped := true;
      // the position is among the cached rows here, so there are no leftovers to answer with
      r := Serve(position, sent, Raised);
      if r.Raised? || reply == Lost {
        return Raised;
      }
      assert cached == Arriving(target);
      pipeline.RunComposes(0, span.start, span.end, target);
      position := position + n;
    }
  }

  /** The rows a step sends, if its assertion about the input cache passes. */
  function Request(history: Option<seq<Row>>, position: nat, stepped: bool, inputs: seq<Row>): Option<seq<Row>> {
    var all := if history.None? then inputs
               else if |history.value| == position then history.value + inputs
               else history.value;
    if |all| != position + |inputs| then None else Some(if stepped then inputs else all)
  }

  /**
   An unused stream sends the rows it was given exactly when its history is empty or holds those very
   rows. A history left by a step that raised fails this: it is sent in place of the new rows if it
   has their length.
   */
  lemma UnusedStreamSendsItsInputs(history: Option<seq<Row>>, inputs: seq<Row>)
    ensures Request(history, 0, false, inputs) == Some(inputs)
       <==> history == None || history == Some([]) || history == Some(inputs)
    ensures history.Some? && |history.value| == |inputs| > 0 ==> Request(history, 0, false, inputs) == history
  {
    assert [] + inputs == inputs;
  }
}
