/** The client's chained forward and backward over servers that fail, with re-routing. */
module SequentialAutograd {
  import opened Common
  import opened GradientChains
  import opened Pipelines

  /** Routing and the servers' fate during one forward pass; the arguments are the attempt and the blocks. */
  datatype Weather = Weather(route: (nat, nat, nat) -> Result<seq<Span>>, answers: (nat, nat) -> bool) {
    ghost predicate Valid() {
      forall attempt, a, b | a < b && route(attempt, a, b).Ok? :: Routes(route(attempt, a, b).value, a, b)
    }

    /** At this attempt there is a route from block b, and its first server answers. */
    ghost predicate GoesThrough(attempt: nat, b: nat, end: nat) {
      route(attempt, b, end).Ok? && answers(attempt, b)
    }

    /** Some attempt at block b goes through before the retries run out. */
    ghost predicate Passable(b: nat, end: nat, maxRetries: nat) {
      exists attempt: nat :: attempt < maxRetries && GoesThrough(attempt, b, end)
    }

    ghost predicate AllPassable(a: nat, end: nat, maxRetries: nat) {
      forall b: nat | a <= b < end :: Passable(b, end, maxRetries)
    }

    ghost predicate AnswersOnce(b: nat, maxRetries: nat) {
      exists attempt: nat :: attempt < maxRetries && answers(attempt, b)
    }
  }

  datatype Passed = Passed(outputs: Tensor, inputs: seq<Tensor>, spans: seq<Span>)

  /** Spans back to back from a to b; none at all if a is b. */
  ghost predicate Covers(spans: seq<Span>, a: nat, b: nat) {
    if spans == [] then a == b else Tiles(spans, a, b)
  }

  /** Each span's input is what the chain computes up to it. */
  ghost predicate Recorded(c: Chain, x: Tensor, a: nat, inputs: seq<Tensor>, spans: seq<Span>) {
    && |inputs| == |spans|
    && forall i | 0 <= i < |spans| :: inputs[i] == c.Fwd(a, spans[i].start, x)
  }

  lemma CoversOneMore(spans: seq<Span>, a: nat, b: nat, span: Span)
    requires Covers(spans, a, b) && span.start == b < span.end
    ensures Tiles(spans + [span], a, span.end)
  {
  }

  lemma CoversOneFewer(spans: seq<Span>, a: nat, b: nat)
    requires Tiles(spans, a, b)
    ensures var last := spans[|spans| - 1];
            last.end == b && last.start < b && a <= last.start && Covers(spans[..|spans| - 1], a, last.start)
  {
    StartsAfter(spans, a, b, |spans| - 1);
  }

  lemma {:induction false} StartsAfter(spans: seq<Span>, a: nat, b: nat, k: nat)
    requires Tiles(spans, a, b) && k < |spans|
    ensures a <= spans[k].start
  {
    if k > 0 {
      StartsAfter(spans, a, b, k - 1);
      assert spans[k - 1].end == spans[k].start;
    }
  }

  lemma CoversRest(spans: seq<Span>, a: nat, b: nat)
    requires Tiles(spans, a, b)
    ensures spans[0].start == a < spans[0].end && Covers(spans[1..], spans[0].end, b)
  {
    if |spans| > 1 {
      assert spans[0].end == spans[1].start;
    }
  }

  lemma CoversJoins(x: seq<Span>, y: seq<Span>, a: nat, m: nat, b: nat)
    requires Covers(x, a, m) && Tiles(y, m, b)
    ensures Tiles(x + y, a, b)
  {
    forall i | 0 <= i < |x + y| - 1 ensures (x + y)[i].end == (x + y)[i + 1].start {
      if i + 1 < |x| {
      } else if i + 1 == |x| {
        assert (x + y)[i] == x[|x| - 1] && (x + y)[i + 1] == y[0];
      } else {
        assert (x + y)[i] == y[i - |x|] && (x + y)[i + 1] == y[i - |x| + 1];
      }
    }
  }

  /** The route for the remaining blocks: kept while nothing failed, asked for again after a failure. */
  method NextSpans(spans: seq<Span>, blockIdx: nat, end: nat, attempt: nat, w: Weather) returns (r: Result<seq<Span>>)
    requires w.Valid() && blockIdx < end
    requires attempt == 0 && spans != [] ==> Tiles(spans, blockIdx, end)
    ensures r.Ok? ==> Tiles(r.value, blockIdx, end)
    ensures r.Ok? <==> (attempt == 0 && spans != []) || w.route(attempt, blockIdx, end).Ok?
  {
    if spans != [] && attempt == 0 {
      return Ok(spans);
    }
    var route := w.route(attempt, blockIdx, end);
    if route.Raised? {
      return Raised;
    }
    assert Routes(route.value, blockIdx, end);
    TrimmedTiles(route.value, blockIdx, end);
    r := Ok(Trimmed(route.value, end));
  }

  /**
   Chained forward: the output, and the spans that did the work with their inputs. It raises only at a
   block that no attempt passes, and every span that did work was answered by some attempt.
   */
  method SequentialForward(c: Chain, x: Tensor, start: nat, end: nat, w: Weather, maxRetries: nat)
    returns (r: Result<Passed>)
    requires w.Valid() && start <= end && maxRetries >= 1
    ensures r.Ok? ==> r.value.outputs == c.Fwd(start, end, x)
                      && Covers(r.value.spans, start, end)
                      && Recorded(c, x, start, r.value.inputs, r.value.spans)
    ensures w.AllPassable(start, end, maxRetries) ==> r.Ok?
    ensures r.Ok? ==> forall i | 0 <= i < |r.value.spans| :: w.AnswersOnce(r.value.spans[i].start, maxRetries)
  {
    hide Weather.AnswersOnce;
    var sequences: seq<Span>, inputs, intermediate: seq<Tensor>, done: seq<Span> := [], x, [], [];
    var blockIdx := start;
    while blockIdx < end
      invariant start <= blockIdx <= end
      invariant inputs == c.Fwd(start, blockIdx, x)
      invariant sequences != [] ==> Tiles(sequences, blockIdx, end)
      invariant Covers(done, start, blockIdx)
      invariant Recorded(c, x, start, intermediate, done)
      invariant forall i | 0 <= i < |done| :: w.AnswersOnce(done[i].start, maxRetries)
    {
      var attempt := 0;
      while true
        invariant attempt < maxRetries
        invariant attempt == 0 && sequences != [] ==> Tiles(sequences, blockIdx, end)
        invariant forall t: nat | t < attempt :: !w.GoesThrough(t, blockIdx, end)
        decreases maxRetries - attempt
      {
        var next := NextSpans(sequences, blockIdx, end, attempt, w);
        if next.Ok? {
          var span := next.value[0];
          sequences := next.value[1..];
          CoversRest(next.value, blockIdx, end);
          if w.answers(attempt, span.start) {
            OneAnswers(w, span.start, attempt, maxRetries);
            var outputs := RunRpcForward(c, span.start, span.end, inputs);
            EndIsInside(sequences, span.end, end);
            c.FwdComposes(start, span.start, span.end, x);
            CoversOneMore(done, start, blockIdx, span);
            intermediate, done := intermediate + [inputs], done + [span];
            inputs, blockIdx := outputs, span.end;
            break;
          }
        }
        if attempt + 1 == maxRetries {
          assert !w.Passable(blockIdx, end, maxRetries);
          return Raised;
        }
        attempt := attempt + 1;
      }
    }
    r := Ok(Passed(inputs, intermediate, done));
  }

  lemma OneAnswers(w: Weather, b: nat, attempt: nat, maxRetries: nat)
    requires attempt < maxRetries && w.answers(attempt, b)
    ensures w.AnswersOnce(b, maxRetries)
  {
  }

  lemma EndIsInside(spans: seq<Span>, a: nat, b: nat)
    requires Covers(spans, a, b)
    ensures a <= b
  {
    if spans != [] {
      CoversOneFewer(spans, a, b);
    }
  }

  /** What a backward pass returns: the input gradient, prompt gradients if there are prompts, and, for
      the record, the blocks in the order in which they were differentiated. */
  datatype Gradients = Gradients(grad: Tensor, prompts: Option<seq<Tensor>>, order: seq<nat>)

  /** torch.cat of the list read backwards. */
  function JoinedBackwards(parts: seq<seq<Tensor>>): (r: seq<Tensor>) {
    if parts == [] then [] else parts[|parts| - 1] + JoinedBackwards(parts[..|parts| - 1])
  }

  /** Everything known about a backward pass that has worked its way down to block e. */
  ghost predicate Halfway(
    c: Chain, x: Tensor, a: nat, b: nat, g: Tensor, e: nat, grad: Tensor, parts: seq<seq<Tensor>>, order: seq<nat>)
  {
    && a <= e <= b
    && c.Grad(a, b, x, g) == c.Grad(a, e, x, grad)
    && c.PromptGrads(a, b, x, g) == c.PromptGrads(a, e, x, grad) + JoinedBackwards(parts)
    && order == Down(b, e)
    && (c.prompted ==> (parts == [] <==> e == b))
    && (!c.prompted ==> parts == [])
  }

  lemma JoinedGrows(front: seq<Tensor>, mine: seq<Tensor>, parts: seq<seq<Tensor>>)
    ensures front + JoinedBackwards(parts + [mine]) == (front + mine) + JoinedBackwards(parts)
    ensures mine == [] ==> (front + mine) + JoinedBackwards(parts) == front + JoinedBackwards(parts)
  {
    var more := parts + [mine];
    assert more[..|more| - 1] == parts;
    assert JoinedBackwards(more) == mine + JoinedBackwards(parts);
  }

  /** One span differentiated takes the pass from its end to its start. */
  lemma HalfwayStep(
    c: Chain, x: Tensor, a: nat, b: nat, g: Tensor, e: nat, grad: Tensor, parts: seq<seq<Tensor>>, order: seq<nat>,
    s: nat)
    requires Halfway(c, x, a, b, g, e, grad, parts, order) && a <= s < e
    ensures var inputs := c.Fwd(a, s, x);
            Halfway(c, x, a, b, g, s, c.Grad(s, e, inputs, grad),
                    if c.prompted then parts + [c.PromptGrads(s, e, inputs, grad)] else parts, order + Down(e, s))
  {
    var inputs := c.Fwd(a, s, x);
    c.GradSplits(a, s, e, x, grad);
    DownJoins(b, e, s);
    var front, mine := c.PromptGrads(a, s, x, c.Grad(s, e, inputs, grad)), c.PromptGrads(s, e, inputs, grad);
    assert !c.prompted ==> mine == [];
    hide Chain.Grad, Chain.PromptGrads, Chain.Fwd, Down, JoinedBackwards;
    JoinedGrows(front, mine, parts);
  }

  /** The stack of spans still to differentiate, from block a to block e, with their inputs. */
  ghost predicate Pending(c: Chain, x: Tensor, a: nat, e: nat, inputs: seq<Tensor>, spans: seq<Span>) {
    Covers(spans, a, e) && Recorded(c, x, a, inputs, spans)
  }

  /**
   Chained backward. A span that fails is run forward again along other servers, and its pieces take its
   place on the stack; backwardAnswers and the weather of the backup passes are arbitrary.
   */
  method SequentialBackward(
    c: Chain, x: Tensor, ghost start: nat, ghost end: nat, gradOutputs: Tensor,
    intermediateInputs: seq<Tensor>, forwardSequences: seq<Span>,
    backwardAnswers: (nat, nat) -> bool, backups: (nat, nat) -> Weather, maxRetries: nat)
    returns (r: Result<Gradients>)
    requires start <= end && maxRetries >= 1 && (forall n, b :: backups(n, b).Valid())
    requires Pending(c, x, start, end, intermediateInputs, forwardSequences)
    ensures r.Ok? ==> r.value.grad == c.Grad(start, end, x, gradOutputs)
    ensures r.Ok? ==> r.value.prompts == if c.prompted && start < end
                                         then Some(c.PromptGrads(start, end, x, gradOutputs)) else None
    ensures r.Ok? ==> r.value.order == Down(end, start)
    ensures (forall e: nat | start < e <= end :: Differentiable(backwardAnswers, backups, start, e, maxRetries)) ==>
              r.Ok?
    ensures r.Ok? && start < end ==> exists n: nat :: n < maxRetries && backwardAnswers(n, end)
  {
    hide Differentiable;
    var inputsStack, spansStack, grad := intermediateInputs, forwardSequences, gradOutputs;
    var parts: seq<seq<Tensor>>, order: seq<nat> := [], [];
    ghost var e: nat := end;
    EndIsInside(spansStack, start, end);
    while |spansStack| > 0 && |inputsStack| > 0
      invariant Pending(c, x, start, e, inputsStack, spansStack)
      invariant Halfway(c, x, start, end, gradOutputs, e, grad, parts, order)
      invariant e < end ==> exists n: nat :: n < maxRetries && backwardAnswers(n, end)
      decreases e
    {
      var last, rest, restInputs := Popped(c, x, start, e, inputsStack, spansStack);
      var done := BackwardSpan(c, x, start, e, grad, restInputs, rest, inputsStack[|inputsStack| - 1], last,
                               backwardAnswers, backups, maxRetries);
      if done.Raised? {
        return Raised;
      }
      var step := done.value;
      HalfwayStep(c, x, start, end, gradOutputs, e, grad, parts, order, step.from);
      grad, order := step.grad, order + step.order;
      parts := if c.prompted then parts + [step.prompts] else parts;
      inputsStack, spansStack, e := step.inputsStack, step.spansStack, step.from;
    }
    assert spansStack == [] && e == start && (c.prompted ==> (parts == [] <==> start == end));
    assert c.PromptGrads(start, start, x, grad) == [] && [] + JoinedBackwards(parts) == JoinedBackwards(parts);
    r := Ok(Gradients(grad, if parts != [] then Some(JoinedBackwards(parts)) else None, order));
  }

  /** forward_sequences.pop() and intermediate_inputs.pop(). */
  method Popped(c: Chain, x: Tensor, ghost a: nat, ghost e: nat, inputs: seq<Tensor>, spans: seq<Span>)
    returns (last: Span, rest: seq<Span>, restInputs: seq<Tensor>)
    requires Pending(c, x, a, e, inputs, spans) && spans != []
    ensures a <= last.start < last.end == e && inputs[|inputs| - 1] == c.Fwd(a, last.start, x)
    ensures Pending(c, x, a, last.start, restInputs, rest)
  {
    CoversOneFewer(spans, a, e);
    last, rest, restInputs := spans[|spans| - 1], spans[..|spans| - 1], inputs[..|inputs| - 1];
  }

  /** At this attempt the span that ends at block e is passed forward again, if need be, and differentiated. */
  ghost predicate BackwardGoesThrough(
    backwardAnswers: (nat, nat) -> bool, backups: (nat, nat) -> Weather, a: nat, e: nat, n: nat, maxRetries: nat)
  {
    backwardAnswers(n, e) && (n >= 1 ==> backups(n, e).AllPassable(a, e, maxRetries))
  }

  ghost predicate Differentiable(
    backwardAnswers: (nat, nat) -> bool, backups: (nat, nat) -> Weather, a: nat, e: nat, maxRetries: nat)
  {
    exists n: nat :: n < maxRetries && BackwardGoesThrough(backwardAnswers, backups, a, e, n, maxRetries)
  }

  /** One span, or its last piece after failures, has been differentiated. */
  datatype SpanDone = SpanDone(
    from: nat, grad: Tensor, prompts: seq<Tensor>, order: seq<nat>, inputsStack: seq<Tensor>, spansStack: seq<Span>)

  /** The retry loop for the span on top of the stack. */
  method BackwardSpan(
    c: Chain, x: Tensor, ghost a: nat, ghost e: nat, grad: Tensor,
    inputsBelow: seq<Tensor>, spansBelow: seq<Span>, topInputs: Tensor, top: Span,
    backwardAnswers: (nat, nat) -> bool, backups: (nat, nat) -> Weather, maxRetries: nat)
    returns (r: Result<SpanDone>)
    requires maxRetries >= 1 && (forall n, b :: backups(n, b).Valid())
    requires a <= top.start < top.end == e && topInputs == c.Fwd(a, top.start, x)
    requires Pending(c, x, a, top.start, inputsBelow, spansBelow)
    ensures r.Ok? ==> a <= r.value.from < e
                      && Pending(c, x, a, r.value.from, r.value.inputsStack, r.value.spansStack)
                      && r.value.grad == c.Grad(r.value.from, e, c.Fwd(a, r.value.from, x), grad)
                      && r.value.prompts == c.PromptGrads(r.value.from, e, c.Fwd(a, r.value.from, x), grad)
                      && r.value.order == Down(e, r.value.from)
    ensures Differentiable(backwardAnswers, backups, a, e, maxRetries) ==> r.Ok?
    ensures r.Ok? ==> exists n: nat :: n < maxRetries && backwardAnswers(n, e)
  {
    hide Pending, Weather.Passable;
    var inputsStack, spansStack, inputs, span, attempt := inputsBelow, spansBelow, topInputs, top, 0;
    while true
      invariant attempt < maxRetries
      invariant Pending(c, x, a, span.start, inputsStack, spansStack)
      invariant a <= span.start < span.end == e && inputs == c.Fwd(a, span.start, x)
      invariant forall n: nat | n < attempt :: !BackwardGoesThrough(backwardAnswers, backups, a, e, n, maxRetries)
      decreases maxRetries - attempt
    {
      var ready := true;
      if attempt >= 1 {
        var backup := SequentialForward(c, inputs, span.start, span.end, backups(attempt, span.end), maxRetries);
        ready := backup.Ok?;
        if ready {
          PushBackup(c, x, a, span, inputs, inputsStack, spansStack, backup.value);
          var allInputs, allSpans := inputsStack + backup.value.inputs, spansStack + backup.value.spans;
          inputs := allInputs[|allInputs| - 1];
          span, spansStack, inputsStack := Popped(c, x, a, e, allInputs, allSpans);
        }
      }
      if ready && backwardAnswers(attempt, span.end) {
        var spanGrad, spanPrompts, order := RunRpcBackward(c, span.start, span.end, inputs, grad);
        return Ok(SpanDone(span.start, spanGrad, spanPrompts, order, inputsStack, spansStack));
      }
      if attempt + 1 == maxRetries {
        return Raised;
      }
      attempt := attempt + 1;
    }
  }

  /** The pieces of a failed span, run forward again, take its place on the stack. */
  lemma PushBackup(
    c: Chain, x: Tensor, a: nat, span: Span, inputs: Tensor, inputsStack: seq<Tensor>, spansStack: seq<Span>, p: Passed)
    requires a <= span.start < span.end && inputs == c.Fwd(a, span.start, x)
    requires Pending(c, x, a, span.start, inputsStack, spansStack)
    requires Covers(p.spans, span.start, span.end) && Recorded(c, inputs, span.start, p.inputs, p.spans)
    ensures spansStack + p.spans != [] && |inputsStack + p.inputs| == |spansStack + p.spans|
    ensures Pending(c, x, a, span.end, inputsStack + p.inputs, spansStack + p.spans)
  {
    CoversJoins(spansStack, p.spans, a, span.start, span.end);
    forall i | 0 <= i < |p.spans| ensures p.inputs[i] == c.Fwd(a, p.spans[i].start, x) {
      StartsAfter(p.spans, span.start, span.end, i);
      c.FwdComposes(a, span.start, p.spans[i].start, x);
    }
  }
}
