/** Speculative greedy decoding over a session that is rewound after every verification. */
module SpeculativeDecoding {
  import opened Common
  import opened Pipelines
  import opened ServerSessions
  import opened InferenceSessions

  type Token = int

  /** The target model: embedding, remote blocks, and the argmax of the logits of a final row. */
  datatype Model = Model(pipeline: Pipeline, embed: Token -> Row, argmax: Row -> Token) {
    function Embedded(ids: seq<Token>): (rows: seq<Row>)
      ensures |rows| == |ids|
    {
      seq(|ids|, i requires 0 <= i < |ids| => embed(ids[i]))
    }

    /** The token that plain greedy decoding puts after ids. */
    ghost function Next(ids: seq<Token>): Token
      requires pipeline.Causal() && ids != []
    {
      pipeline.RunIsCausal(0, pipeline.depth, Embedded(ids), 0);
      argmax(pipeline.Run(0, pipeline.depth, Embedded(ids))[|ids| - 1])
    }

    /** The next token comes from the last row of the blocks run on the embedded ids, and from nothing else. */
    lemma NextReadsLastRow(ids: seq<Token>, rows: seq<Row>)
      requires pipeline.Causal() && ids != [] && |rows| == |ids|
      requires forall i | 0 <= i < |ids| :: rows[i] == embed(ids[i])
      ensures |pipeline.Run(0, pipeline.depth, rows)| == |ids|
      ensures Next(ids) == argmax(pipeline.Run(0, pipeline.depth, rows)[|ids| - 1])
    {
      assert rows == Embedded(ids);
      pipeline.RunIsCausal(0, pipeline.depth, rows, 0);
    }

    /** ids continues the prompt the way plain greedy decoding does. */
    ghost predicate Greedy(prompt: seq<Token>, ids: seq<Token>)
      requires pipeline.Causal() && prompt != []
    {
      prompt <= ids && forall j | |prompt| <= j < |ids| :: ids[j] == Next(ids[..j])
    }

    /** There is only one greedy continuation of each length, so decoding is lossless for any draft. */
    lemma {:induction false} GreedyIsUnique(prompt: seq<Token>, x: seq<Token>, y: seq<Token>)
      requires pipeline.Causal() && prompt != []
      requires Greedy(prompt, x) && Greedy(prompt, y) && |x| <= |y|
      ensures x == y[..|x|]
    {
      hide Pipeline.Causal, Model.Next;
      if |x| > |prompt| {
        var n := |x| - 1;
        assert forall j | |prompt| <= j < n :: x[..n][..j] == x[..j];
        GreedyIsUnique(prompt, x[..n], y);
        assert x == x[..n] + [Next(x[..n])] && y[..n + 1] == y[..n] + [y[n]];
      }
    }

    /** A row of a longer pass predicts the next token of the sequence that ends there. */
    lemma RowPredicts(ids: seq<Token>, n: nat)
      requires pipeline.Causal() && 0 < n <= |ids|
      ensures |pipeline.Run(0, pipeline.depth, Embedded(ids))| == |ids|
      ensures argmax(pipeline.Run(0, pipeline.depth, Embedded(ids))[n - 1]) == Next(ids[..n])
    {
      pipeline.RunIsCausal(0, pipeline.depth, Embedded(ids), n);
      pipeline.RunIsCausal(0, pipeline.depth, Embedded(ids[..n]), 0);
      assert Embedded(ids)[..n] == Embedded(ids[..n]);
    }
  }

  /** The number of leading draft tokens that agree with the target. */
  function Agreeing(predicted: seq<Token>, draft: seq<Token>): (n: nat)
    requires |predicted| == |draft|
    ensures n <= |draft| && forall i | 0 <= i < n :: predicted[i] == draft[i]
    ensures n < |draft| ==> predicted[n] != draft[n]
  {
    if draft == [] || predicted[0] != draft[0] then 0 else 1 + Agreeing(predicted[1..], draft[1..])
  }

  /** Those tokens; the target's own first token if there are none. */
  function Accepted(predicted: seq<Token>, draft: seq<Token>): (valid: seq<Token>)
    requires |predicted| == |draft| >= 1
    ensures 1 <= |valid| <= |draft|
    ensures forall i | 0 <= i < |valid| :: valid[i] == predicted[i]
    ensures valid <= draft || |valid| == 1
  {
    var n := Agreeing(predicted, draft);
    if n == 0 then [predicted[0]] else draft[..n]
  }

  method Accept(predicted: seq<Token>, draft: seq<Token>) returns (valid: seq<Token>)
    requires |predicted| == |draft| >= 1
    ensures valid == Accepted(predicted, draft)
  {
    var i := 0;
    valid := [];
    while i < |draft| && predicted[i] == draft[i]
      invariant 0 <= i <= |draft| && valid == draft[..i]
      invariant forall j | 0 <= j < i :: predicted[j] == draft[j]
    {
      valid := valid + [draft[i]];
      i := i + 1;
    }
    if valid == [] {
      valid := [predicted[0]];
    }
  }

  // ----- decoding as a function of what the session has seen -----

  /** The rows a session has seen once the draft is being verified; the first time nothing is set back. */
  function Seen(m: Model, log: seq<Row>, ids: seq<Token>, draft: seq<Token>, first: bool): (seen: seq<Row>)
    requires ids != [] && draft != [] && (!first ==> |ids| - 1 <= |log|)
    ensures |seen| >= |ids| - 1 + |draft|
  {
    var start := if first then 0 else |ids| - 1;
    (if first then log else log[..start]) + m.Embedded((ids + draft)[start..|ids| + |draft| - 1])
  }

  function Predicted(m: Model, rows: seq<Row>): (tokens: seq<Token>)
    ensures |tokens| == |rows|
  {
    seq(|rows|, i requires 0 <= i < |rows| => m.argmax(rows[i]))
  }

  ghost function AcceptedAfter(m: Model, seen: seq<Row>, draft: seq<Token>): (valid: seq<Token>)
    requires m.pipeline.Causal() && 1 <= |draft| <= |seen|
    ensures 1 <= |valid| <= |draft|
  {
    m.pipeline.RunIsCausal(0, m.pipeline.depth, seen, 0);
    Accepted(Predicted(m, Suffix(m.pipeline.Run(0, m.pipeline.depth, seen), |seen| - |draft|)), draft)
  }

  /**
   What the loop returns when nothing fails, from any session: draft is what the small model returns for at
   most k new tokens, stop the stopping criterion, which is asked after each accepted run.
   */
  ghost function Decode(
    m: Model, log: seq<Row>, ids: seq<Token>, first: bool, draft: (seq<Token>, nat) -> seq<Token>,
    stop: seq<Token> -> bool, size: int, maxLength: nat): Result<seq<Token>>
    requires m.pipeline.Causal() && ids != [] && (!first ==> |ids| - 1 <= |log|)
    decreases if |ids| <= maxLength then maxLength - |ids| else 0
  {
    var s := if size <= maxLength - |ids| then size else maxLength - |ids|;
    if s <= 0 || |draft(ids, s)| < s then Raised
    else
      var tokens := LastOf(draft(ids, s), s);
      var seen := Seen(m, log, ids, tokens, first);
      if |seen| > maxLength then Raised
      else
        var next := ids + AcceptedAfter(m, seen, tokens);
        if stop(next) then Ok(next) else Decode(m, seen, next, false, draft, stop, s, maxLength)
  }

  function LastOf(tokens: seq<Token>, n: nat): (r: seq<Token>)
    requires n <= |tokens|
    ensures |r| == n
  {
    tokens[|tokens| - n..]
  }

  /** The small model returns what it was given, or anything else, and then exactly the tokens asked for. */
  ghost predicate Appends(
    draft: (seq<Token>, nat) -> seq<Token>, before: (seq<Token>, nat) -> seq<Token>,
    proposed: (seq<Token>, nat) -> seq<Token>)
  {
    forall ids: seq<Token>, s: nat :: |proposed(ids, s)| == s && draft(ids, s) == before(ids, s) + proposed(ids, s)
  }

  /** Only the tokens that were asked for are judged, whatever is returned in front of them. */
  lemma {:induction false} OnlyNewTokensAreJudged(
    m: Model, log: seq<Row>, ids: seq<Token>, first: bool, draft: (seq<Token>, nat) -> seq<Token>,
    before: (seq<Token>, nat) -> seq<Token>, proposed: (seq<Token>, nat) -> seq<Token>,
    stop: seq<Token> -> bool, size: int, maxLength: nat)
    requires m.pipeline.Causal() && ids != [] && (!first ==> |ids| - 1 <= |log|) && Appends(draft, before, proposed)
    ensures Decode(m, log, ids, first, draft, stop, size, maxLength)
         == Decode(m, log, ids, first, proposed, stop, size, maxLength)
    decreases if |ids| <= maxLength then maxLength - |ids| else 0
  {
    hide Decode, AcceptedAfter, Seen, Pipeline.Causal;
    DecodeUnfolds(m, log, ids, first, draft, stop, size, maxLength);
    DecodeUnfolds(m, log, ids, first, proposed, stop, size, maxLength);
    var s := if size <= maxLength - |ids| then size else maxLength - |ids|;
    if s > 0 {
      assert draft(ids, s) == before(ids, s) + proposed(ids, s) && |proposed(ids, s)| == s;
      var tokens := LastOf(draft(ids, s), s);
      assert tokens == proposed(ids, s) == LastOf(proposed(ids, s), s);
      var seen := Seen(m, log, ids, tokens, first);
      if |seen| <= maxLength {
        var next := ids + AcceptedAfter(m, seen, tokens);
        OnlyNewTokensAreJudged(m, seen, next, false, draft, before, proposed, stop, s, maxLength);
      }
    }
  }

  // ----- the loop -----

  /** After the first draft the session is set back to the tokens before the last given one. */
  method RewindForDraft(session: InferenceSession, ids: seq<Token>, first: bool) returns (start: nat)
    requires session.Valid() && !session.raised && ids != [] && (!first ==> |ids| - 1 <= |session.log|)
    modifies session, session.Streams()
    ensures session.Valid() && !session.raised && session.Streams() == old(session.Streams())
    ensures start == if first then 0 else |ids| - 1
    ensures session.log == if first then old(session.log) else old(session.log)[..start]
  {
    hide Pipeline.Causal, InferenceSession.Chained, ServerSession.Synced;
    start := 0;
    if !first {
      start := |ids| - 1;
      StreamsAreInStep(session);
      var ok := session.Rewind(start);
    }
  }

  lemma StreamsAreInStep(session: InferenceSession)
    requires session.Valid() && !session.raised
    ensures session.position == |session.log|
    ensures forall i: nat | i < |session.sessions| :: session.sessions[i].position == |session.log|
  {
  }

  /** The target's forward pass: the rows go through a session in which no step has raised. */
  method Forward(session: InferenceSession, rows: seq<Row>, env: Environment, maxRetries: nat)
    returns (r: Result<seq<Row>>)
    requires session.Valid() && !session.raised && env.Valid() && maxRetries >= 1
    modifies session, session.Streams()
    ensures session.Valid() && fresh(session.Streams() - old(session.Streams()))
    ensures r.Ok? ==> !session.raised && session.log == old(session.log) + rows && |session.log| <= session.maxLength
    ensures r.Ok? ==>
              r.value == Suffix(session.pipeline.Run(0, session.pipeline.depth, session.log), |old(session.log)|)
    ensures env.Healthy() ==> (r.Ok? <==> |old(session.log)| + |rows| <= session.maxLength)
  {
    StreamsAreInStep(session);
    TargetIsLonger(session, rows);
    hide *;
    var done, stuck := session.Step(rows, env, maxRetries);
    r := done;
  }

  /** The rows of the last |draft| positions. */
  method RowsForDraft(
    m: Model, session: InferenceSession, ids: seq<Token>, draft: seq<Token>, first: bool,
    env: Environment, maxRetries: nat)
    returns (r: Result<seq<Row>>)
    requires m.pipeline.Causal() && session.pipeline == m.pipeline
    requires session.Valid() && !session.raised && env.Valid() && maxRetries >= 1
    requires ids != [] && draft != [] && (!first ==> |ids| - 1 <= |session.log|)
    modifies session, session.Streams()
    ensures session.Valid() && fresh(session.Streams() - old(session.Streams()))
    ensures r.Ok? ==> !session.raised && session.log == Seen(m, old(session.log), ids, draft, first)
    ensures r.Ok? ==> |session.log| <= session.maxLength && |r.value| == |draft|
                      && r.value == Suffix(m.pipeline.Run(0, m.pipeline.depth, session.log), |session.log| - |draft|)
    ensures env.Healthy() ==> (r.Ok? <==> |Seen(m, old(session.log), ids, draft, first)| <= session.maxLength)
  {
    hide Pipeline.Causal, Pipeline.Run, InferenceSession.Valid, Model.Embedded, Seen, Suffix;
    hide Environment.Valid, Environment.Healthy;
    var full := ids + draft;
    var start := RewindForDraft(session, ids, first);
    var forValidation := full[start..|full| - 1];
    SeenIs(m, old(session.log), ids, draft, first, start);
    ghost var position := |session.log|;
    var rows := Forward(session, m.Embedded(forValidation), env, maxRetries);
    if rows.Raised? {
      return Raised;
    }
    LastRows(m.pipeline, session.log, position, |draft|, rows.value);
    r := Ok(rows.value[|rows.value| - |draft|..]);
  }

  lemma LastRows(p: Pipeline, log: seq<Row>, position: nat, n: nat, rows: seq<Row>)
    requires p.Causal() && position + n <= |log| && rows == Suffix(p.Run(0, p.depth, log), position)
    ensures |rows| >= n && rows[|rows| - n..] == Suffix(p.Run(0, p.depth, log), |log| - n)
    ensures |Suffix(p.Run(0, p.depth, log), |log| - n)| == n
  {
    p.RunIsCausal(0, p.depth, log, 0);
  }

  lemma SeenIs(m: Model, log: seq<Row>, ids: seq<Token>, draft: seq<Token>, first: bool, start: nat)
    requires ids != [] && draft != [] && (!first ==> |ids| - 1 <= |log|) && start == if first then 0 else |ids| - 1
    ensures Seen(m, log, ids, draft, first)
         == (if first then log else log[..start]) + m.Embedded((ids + draft)[start..|ids + draft| - 1])
  {
  }

  lemma TargetIsLonger(session: InferenceSession, rows: seq<Row>)
    requires !session.raised
    ensures session.Target(rows) == session.log + rows
  {
  }

  /** One draft and its verification. */
  method Verify(
    m: Model, session: InferenceSession, ids: seq<Token>, draft: seq<Token>, first: bool,
    env: Environment, maxRetries: nat)
    returns (r: Result<seq<Token>>)
    requires m.pipeline.Causal() && session.pipeline == m.pipeline
    requires session.Valid() && !session.raised && env.Valid() && maxRetries >= 1
    requires ids != [] && draft != [] && (!first ==> |ids| - 1 <= |session.log|)
    modifies session, session.Streams()
    ensures session.Valid() && fresh(session.Streams() - old(session.Streams()))
    ensures r.Ok? ==> !session.raised && session.log == Seen(m, old(session.log), ids, draft, first)
                      && |session.log| <= session.maxLength && r.value == AcceptedAfter(m, session.log, draft)
    ensures env.Healthy() ==> (r.Ok? <==> |Seen(m, old(session.log), ids, draft, first)| <= session.maxLength)
  {
    hide Pipeline.Causal, InferenceSession.Valid, Seen;
    var rows := RowsForDraft(m, session, ids, draft, first, env, maxRetries);
    if rows.Raised? {
      return Raised;
    }
    var predicted := seq(|draft|, i requires 0 <= i < |draft| => m.argmax(rows.value[i]));
    m.pipeline.RunIsCausal(0, m.pipeline.depth, session.log, 0);
    assert predicted == Predicted(m, rows.value);
    var valid := Accept(predicted, draft);
    r := Ok(valid);
  }

  /**
   The decoding loop, on a new or a resumed session. If it returns, it returns what Decode says; and without
   failures it raises only where Decode does.
   */
  method Sample(
    m: Model, session: InferenceSession, prompt: seq<Token>, draft: (seq<Token>, nat) -> seq<Token>,
    stop: seq<Token> -> bool, iterationSize: nat, envs: nat -> Environment, maxRetries: nat)
    returns (r: Result<seq<Token>>)
    requires m.pipeline.Causal() && session.pipeline == m.pipeline && prompt != []
    requires session.Valid() && !session.raised && maxRetries >= 1
    requires forall i :: envs(i).Valid()
    modifies session, session.Streams()
    ensures session.Valid()
    ensures r.Ok? || (forall i :: envs(i).Healthy()) ==>
              r == Decode(m, old(session.log), prompt, true, draft, stop, iterationSize, session.maxLength)
    ensures r.Ok? || (forall i :: envs(i).Healthy()) ==>
              forall before: (seq<Token>, nat) -> seq<Token>, proposed: (seq<Token>, nat) -> seq<Token>
                | Appends(draft, before, proposed) ::
                r == Decode(m, old(session.log), prompt, true, proposed, stop, iterationSize, session.maxLength)
  {
    hide Pipeline.Causal, InferenceSession.Valid, Seen, AcceptedAfter, Decode, Appends;
    ghost var start := session.log;
    forall before: (seq<Token>, nat) -> seq<Token>, proposed: (seq<Token>, nat) -> seq<Token>
      | Appends(draft, before, proposed)
      ensures Decode(m, start, prompt, true, draft, stop, iterationSize, session.maxLength)
           == Decode(m, start, prompt, true, proposed, stop, iterationSize, session.maxLength)
    {
      OnlyNewTokensAreJudged(m, start, prompt, true, draft, before, proposed, stop, iterationSize, session.maxLength);
    }
    var inputIds, size, first, iteration := prompt, iterationSize as int, true, 0;
    while true
      invariant inputIds != [] && (!first ==> |inputIds| - 1 <= |session.log|)
      invariant session.Valid() && !session.raised && fresh(session.Streams() - old(session.Streams()))
      invariant Decode(m, start, prompt, true, draft, stop, iterationSize, session.maxLength)
             == Decode(m, session.log, inputIds, first, draft, stop, size, session.maxLength)
      decreases if |inputIds| <= session.maxLength then session.maxLength - |inputIds| else 0
    {
      DecodeUnfolds(m, session.log, inputIds, first, draft, stop, size, session.maxLength);
      var room := session.maxLength - |inputIds|;
      size := if size <= room then size else room;
      if size <= 0 {
        return Raised;
      }
      var drafted := draft(inputIds, size);
      if |drafted| < size {
        return Raised;
      }
      var tokens := LastOf(drafted, size);
      var valid := Verify(m, session, inputIds, tokens, first, envs(iteration), maxRetries);
      if valid.Raised? {
        return Raised;
      }
      inputIds, first, iteration := inputIds + valid.value, false, iteration + 1;
      if stop(inputIds) {
        return Ok(inputIds);
      }
    }
  }

  /** One turn of the loop. */
  lemma DecodeUnfolds(
    m: Model, log: seq<Row>, ids: seq<Token>, first: bool, draft: (seq<Token>, nat) -> seq<Token>,
    stop: seq<Token> -> bool, size: int, maxLength: nat)
    requires m.pipeline.Causal() && ids != [] && (!first ==> |ids| - 1 <= |log|)
    ensures var s := if size <= maxLength - |ids| then size else maxLength - |ids|;
            var result := Decode(m, log, ids, first, draft, stop, size, maxLength);
            if s <= 0 || |draft(ids, s)| < s then result == Raised
            else
              var tokens := LastOf(draft(ids, s), s);
              var seen := Seen(m, log, ids, tokens, first);
              if |seen| > maxLength then result == Raised
              else
                var next := ids + AcceptedAfter(m, seen, tokens);
                result == if stop(next) then Ok(next) else Decode(m, seen, next, false, draft, stop, s, maxLength)
  {
  }

  // ----- from position 0 the result is the target's own -----

  /** The rows from the last given token on predict the draft's positions. */
  lemma RowsPredictDraft(m: Model, ids: seq<Token>, draft: seq<Token>, i: nat)
    requires m.pipeline.Causal() && ids != [] && i < |draft|
    ensures var seen := m.Embedded((ids + draft)[..|ids| + |draft| - 1]);
            var all := m.pipeline.Run(0, m.pipeline.depth, seen);
            |all| == |seen| && Predicted(m, Suffix(all, |ids| - 1))[i] == m.Next((ids + draft)[..|ids| + i])
  {
    var seen := (ids + draft)[..|ids| + |draft| - 1];
    m.RowPredicts(seen, |ids| + i);
    assert seen[..|ids| + i] == (ids + draft)[..|ids| + i];
  }

  /** Tokens accepted from a verified draft continue ids greedily. */
  lemma AcceptedIsGreedy(m: Model, ids: seq<Token>, draft: seq<Token>, valid: seq<Token>)
    requires m.pipeline.Causal() && ids != [] && 1 <= |valid| <= |draft|
    requires valid <= draft || |valid| == 1
    requires forall i | 0 <= i < |valid| :: valid[i] == m.Next((ids + draft)[..|ids| + i])
    ensures forall i | 0 <= i < |valid| :: valid[i] == m.Next((ids + valid)[..|ids| + i])
    ensures (ids + valid)[..|ids| + |valid| - 1] <= (ids + draft)[..|ids| + |draft| - 1]
  {
    forall i | 0 <= i < |valid| ensures valid[i] == m.Next((ids + valid)[..|ids| + i]) {
      assert (ids + valid)[..|ids| + i] == (ids + draft)[..|ids| + i];
    }
    var n := |valid| - 1;
    assert (ids + valid)[..|ids| + n] == (ids + draft)[..|ids| + n];
  }

  lemma GreedyGrows(m: Model, prompt: seq<Token>, ids: seq<Token>, valid: seq<Token>)
    requires m.pipeline.Causal() && prompt != [] && m.Greedy(prompt, ids)
    requires forall i | 0 <= i < |valid| :: valid[i] == m.Next((ids + valid)[..|ids| + i])
    ensures m.Greedy(prompt, ids + valid)
  {
    forall j | |prompt| <= j < |ids + valid| ensures (ids + valid)[j] == m.Next((ids + valid)[..j]) {
      if j < |ids| {
        assert (ids + valid)[..j] == ids[..j];
      } else {
        assert (ids + valid)[j] == valid[j - |ids|];
      }
    }
  }

  /** The session has seen all tokens but the last one, and perhaps more. */
  ghost predicate InStep(m: Model, log: seq<Row>, ids: seq<Token>, first: bool) {
    ids != [] && if first then log == [] else m.Embedded(ids[..|ids| - 1]) <= log
  }

  lemma SeenInStep(m: Model, log: seq<Row>, ids: seq<Token>, draft: seq<Token>, first: bool)
    requires InStep(m, log, ids, first) && draft != []
    ensures !first ==> |ids| - 1 <= |log|
    ensures Seen(m, log, ids, draft, first) == m.Embedded((ids + draft)[..|ids| + |draft| - 1])
  {
  }

  /** One iteration keeps the tokens greedy and the session in step. */
  lemma AcceptedRunIsGreedy(
    m: Model, log: seq<Row>, prompt: seq<Token>, ids: seq<Token>, draft: seq<Token>, first: bool)
    requires m.pipeline.Causal() && prompt != [] && m.Greedy(prompt, ids) && InStep(m, log, ids, first) && draft != []
    requires !first ==> |ids| - 1 <= |log|
    ensures var seen := Seen(m, log, ids, draft, first); var next := ids + AcceptedAfter(m, seen, draft);
            m.Greedy(prompt, next) && InStep(m, seen, next, false)
  {
    hide *;
    SeenInStep(m, log, ids, draft, first);
    NonemptyInStep(m, log, ids, first);
    var valid := AcceptedAfter(m, Seen(m, log, ids, draft, first), draft);
    AcceptedRunAgrees(m, ids, draft);
    AcceptedIsGreedy(m, ids, draft, valid);
    GreedyGrows(m, prompt, ids, valid);
    AcceptedIsInStep(m, ids, draft, valid);
  }

  lemma NonemptyInStep(m: Model, log: seq<Row>, ids: seq<Token>, first: bool)
    requires InStep(m, log, ids, first)
    ensures ids != []
  {
  }

  lemma AcceptedIsInStep(m: Model, ids: seq<Token>, draft: seq<Token>, valid: seq<Token>)
    requires ids != [] && valid != [] && draft != []
    requires (ids + valid)[..|ids| + |valid| - 1] <= (ids + draft)[..|ids| + |draft| - 1]
    ensures InStep(m, m.Embedded((ids + draft)[..|ids| + |draft| - 1]), ids + valid, false)
  {
  }

  lemma AcceptedRunAgrees(m: Model, ids: seq<Token>, draft: seq<Token>)
    requires m.pipeline.Causal() && ids != [] && draft != []
    ensures var valid := AcceptedAfter(m, m.Embedded((ids + draft)[..|ids| + |draft| - 1]), draft);
            && (valid <= draft || |valid| == 1)
            && forall i | 0 <= i < |valid| :: valid[i] == m.Next((ids + draft)[..|ids| + i])
  {
    var valid := AcceptedAfter(m, m.Embedded((ids + draft)[..|ids| + |draft| - 1]), draft);
    hide Model.Next, Pipeline.Causal, Pipeline.Run;
    forall i | 0 <= i < |valid| ensures valid[i] == m.Next((ids + draft)[..|ids| + i]) {
      RowsPredictDraft(m, ids, draft, i);
    }
  }

  /** Whatever the draft, what is returned from position 0 is greedy, longer than the prompt, and within the maximum. */
  lemma {:induction false} DecodeIsGreedy(
    m: Model, log: seq<Row>, prompt: seq<Token>, ids: seq<Token>, first: bool, draft: (seq<Token>, nat) -> seq<Token>,
    stop: seq<Token> -> bool, size: int, maxLength: nat)
    requires m.pipeline.Causal() && prompt != [] && m.Greedy(prompt, ids) && InStep(m, log, ids, first)
    requires ids != [] && (!first ==> |ids| - 1 <= |log|)
    ensures var r := Decode(m, log, ids, first, draft, stop, size, maxLength);
            r.Ok? ==> m.Greedy(prompt, r.value) && |ids| < |r.value| <= maxLength && stop(r.value)
    decreases if |ids| <= maxLength then maxLength - |ids| else 0
  {
    hide Model.Greedy, InStep, Decode, AcceptedAfter, Seen;
    DecodeUnfolds(m, log, ids, first, draft, stop, size, maxLength);
    var s := if size <= maxLength - |ids| then size else maxLength - |ids|;
    if 0 < s <= |draft(ids, s)| {
      var tokens := LastOf(draft(ids, s), s);
      var seen := Seen(m, log, ids, tokens, first);
      AcceptedRunIsGreedy(m, log, prompt, ids, tokens, first);
      var next := ids + AcceptedAfter(m, seen, tokens);
      DecodeIsGreedy(m, seen, prompt, next, false, draft, stop, s, maxLength);
    }
  }

  // ----- from any other position it is not -----

  /** A pipeline that numbers the positions, and a model that answers with the number. */
  function Counting(): Model {
    Model(Pipeline(1, (i: nat, xs: seq<Row>) => seq(|xs|, (k: nat) => [k as real])),
          (token: Token) => [], (row: Row) => if row != [] then row[0].Floor else 0)
  }

  lemma CountingIsCausal()
    ensures Counting().pipeline.Causal()
  {
    var p := Counting().pipeline;
    forall i: nat, xs: seq<Row>, n: nat ensures p.LooksBack(i, xs, n) {
    }
  }

  /** A small model that always drafts the same token. */
  function Drafts(t: Token): (seq<Token>, nat) -> seq<Token> {
    (ids: seq<Token>, n: nat) => seq(n, (i: nat) => t)
  }

  function StopsAt(n: nat): seq<Token> -> bool {
    (ids: seq<Token>) => |ids| >= n
  }

  lemma CountingCounts(seen: seq<Row>)
    requires seen != []
    ensures Counting().pipeline.Causal()
    ensures var rows := Counting().pipeline.Run(0, 1, seen);
            |rows| == |seen| && Counting().argmax(rows[|seen| - 1]) == |seen| - 1
  {
    CountingIsCausal();
    assert Counting().pipeline.Run(0, 0, seen) == seen;
  }

  lemma CountingAnswersLength(seen: seq<Row>, t: Token)
    requires seen != []
    ensures Counting().pipeline.Causal() && AcceptedAfter(Counting(), seen, [t]) == [|seen| - 1]
  {
    CountingCounts(seen);
    var last := Suffix(Counting().pipeline.Run(0, 1, seen), |seen| - 1);
    hide Counting;
    assert last == [Counting().pipeline.Run(0, 1, seen)[|seen| - 1]];
    assert Predicted(Counting(), last) == [|seen| - 1];
  }

  lemma CountingNext()
    ensures Counting().pipeline.Causal() && Counting().Next([0]) == 0
  {
    CountingCounts(Counting().Embedded([0]));
  }

  /** One draft of one token is enough to end a run whose criterion is always met. */
  lemma OneTurn(m: Model, log: seq<Row>, t: Token, u: Token, maxLength: nat)
    requires m.pipeline.Causal() && maxLength >= |log| + 2
    requires AcceptedAfter(m, Seen(m, log, [0], [t], true), [t]) == [u]
    ensures Decode(m, log, [0], true, Drafts(t), StopsAt(0), 1, maxLength) == Ok([0, u])
  {
    assert |Seen(m, log, [0], [t], true)| == |log| + 1;
    assert |Drafts(t)([0], 1)| == 1 && LastOf(Drafts(t)([0], 1), 1) == [t];
    hide Decode, AcceptedAfter, Seen, Model.Embedded, LastOf, Drafts, Pipeline.Causal;
    DecodeUnfolds(m, log, [0], true, Drafts(t), StopsAt(0), 1, maxLength);
    assert [0] + [u] == [0, u];
  }

  /** On a session that has seen log, the counting model is made to answer |log| to the prompt [0]. */
  lemma ResumedDecodeIsWrong(log: seq<Row>)
    requires log != []
    ensures Counting().pipeline.Causal()
    ensures var r := Decode(Counting(), log, [0], true, Drafts(0), StopsAt(0), 1, |log| + 2);
            r == Ok([0, |log|]) && !Counting().Greedy([0], r.value)
  {
    hide *;
    OneRowMore(Counting(), log);
    CountingAnswersLength(Seen(Counting(), log, [0], [0], true), 0);
    OneTurn(Counting(), log, 0, |log|, |log| + 2);
    OtherIsNotGreedy(|log|);
  }

  lemma OneRowMore(m: Model, log: seq<Row>)
    ensures |Seen(m, log, [0], [0], true)| == |log| + 1
  {
  }

  lemma OtherIsNotGreedy(t: Token)
    requires t != 0
    ensures Counting().pipeline.Causal() && !Counting().Greedy([0], [0, t])
  {
    CountingNext();
    hide Counting, Model.Next, Pipeline.Causal;
    assert [0, t][..1] == [0];
  }

  /**
   A session gives the target's own tokens for every model, prompt and draft exactly if it is at position 0
   when decoding begins: the first iteration does not set it back.
   */
  lemma RightExactlyFromPositionZero(log: seq<Row>)
    ensures log == [] <==>
            forall m: Model, prompt: seq<Token>, draft: (seq<Token>, nat) -> seq<Token>, stop: seq<Token> -> bool,
                   size: int, maxLength: nat
              | m.pipeline.Causal() && prompt != [] && Decode(m, log, prompt, true, draft, stop, size, maxLength).Ok? ::
              m.Greedy(prompt, Decode(m, log, prompt, true, draft, stop, size, maxLength).value)
  {
    if log == [] {
      forall m: Model, prompt: seq<Token>, draft: (seq<Token>, nat) -> seq<Token>, stop: seq<Token> -> bool,
                   size: int, maxLength: nat
        | m.pipeline.Causal() && prompt != [] && Decode(m, log, prompt, true, draft, stop, size, maxLength).Ok?
        ensures m.Greedy(prompt, Decode(m, log, prompt, true, draft, stop, size, maxLength).value)
      {
        DecodeIsGreedy(m, log, prompt, prompt, true, draft, stop, size, maxLength);
      }
    } else {
      ResumedDecodeIsWrong(log);
    }
  }
}
