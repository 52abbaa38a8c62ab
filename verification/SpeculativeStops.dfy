/**
 Where speculative decoding stops: the stopping criterion is asked only after a whole accepted run, so what is
 returned, and whether anything is, may depend on the draft.
 */
module SpeculativeStops {
  import opened Common
  import opened Pipelines
  import opened SpeculativeDecoding

  /** Plain greedy decoding of at most n tokens, asking the criterion after each. */
  ghost function Plain(m: Model, ids: seq<Token>, stop: seq<Token> -> bool, n: nat): Result<seq<Token>>
    requires m.pipeline.Causal() && ids != []
    decreases n
  {
    if n == 0 then Raised
    else
      var next := ids + [m.Next(ids)];
      if stop(next) then Ok(next) else Plain(m, next, stop, n - 1)
  }

  /** Plain decoding stops at the first prefix of a greedy continuation that meets the criterion. */
  lemma {:induction false} PlainStopsFirst(m: Model, ids: seq<Token>, all: seq<Token>, stop: seq<Token> -> bool, n: nat)
    requires m.pipeline.Causal() && ids != [] && m.Greedy(ids, all) && |ids| < |all| && stop(all) && n >= |all| - |ids|
    ensures Plain(m, ids, stop, n).Ok?
    ensures Plain(m, ids, stop, n) == Ok(all) <==> forall j | |ids| < j < |all| :: !stop(all[..j])
    ensures |Plain(m, ids, stop, n).value| <= |all|
    decreases n
  {
    var next := ids + [m.Next(ids)];
    assert all[..|ids|] == ids && all[|ids|] == m.Next(ids);
    assert all[..|next|] == next;
    if |next| < |all| && !stop(next) {
      PlainStopsFirst(m, next, all, stop, n - 1);
    } else {
      assert |next| == |all| ==> next == all;
    }
  }

  /** Speculative decoding agrees with plain decoding exactly if no shorter greedy continuation would have stopped. */
  lemma DecodeIsPlainExactly(
    m: Model, prompt: seq<Token>, draft: (seq<Token>, nat) -> seq<Token>, stop: seq<Token> -> bool,
    size: int, maxLength: nat)
    requires m.pipeline.Causal() && prompt != []
    requires Decode(m, [], prompt, true, draft, stop, size, maxLength).Ok?
    ensures var ids := Decode(m, [], prompt, true, draft, stop, size, maxLength).value;
            && |prompt| < |ids| <= maxLength && m.Greedy(prompt, ids)
            && (Plain(m, prompt, stop, maxLength - |prompt|) == Ok(ids)
                <==> forall j | |prompt| < j < |ids| :: !stop(ids[..j]))
  {
    hide Decode;
    DecodeIsGreedy(m, [], prompt, prompt, true, draft, stop, size, maxLength);
    var ids := Decode(m, [], prompt, true, draft, stop, size, maxLength).value;
    PlainStopsFirst(m, prompt, ids, stop, maxLength - |prompt|);
  }

  /** A draft of one token at a time never runs past the criterion. */
  lemma {:induction false} OneAtATimeStopsFirst(
    m: Model, log: seq<Row>, ids: seq<Token>, first: bool, draft: (seq<Token>, nat) -> seq<Token>,
    stop: seq<Token> -> bool, size: int, maxLength: nat)
    requires m.pipeline.Causal() && ids != [] && (!first ==> |ids| - 1 <= |log|) && size <= 1
    ensures var r := Decode(m, log, ids, first, draft, stop, size, maxLength);
            r.Ok? ==> ids <= r.value && |ids| < |r.value| && forall j | |ids| < j < |r.value| :: !stop(r.value[..j])
    decreases if |ids| <= maxLength then maxLength - |ids| else 0
  {
    hide Decode, AcceptedAfter, Seen, Pipeline.Causal;
    DecodeUnfolds(m, log, ids, first, draft, stop, size, maxLength);
    var s := if size <= maxLength - |ids| then size else maxLength - |ids|;
    if 0 < s <= |draft(ids, s)| {
      var tokens := LastOf(draft(ids, s), s);
      var seen := Seen(m, log, ids, tokens, first);
      var next := ids + AcceptedAfter(m, seen, tokens);
      if |seen| <= maxLength && !stop(next) {
        OneAtATimeStopsFirst(m, seen, next, false, draft, stop, s, maxLength);
        var r := Decode(m, seen, next, false, draft, stop, s, maxLength);
        assert |next| == |ids| + 1 && (r.Ok? ==> r.value[..|next|] == next);
      }
    }
  }

  lemma OneAtATimeIsPlain(
    m: Model, prompt: seq<Token>, draft: (seq<Token>, nat) -> seq<Token>, stop: seq<Token> -> bool,
    size: int, maxLength: nat)
    requires m.pipeline.Causal() && prompt != [] && size <= 1
    ensures var r := Decode(m, [], prompt, true, draft, stop, size, maxLength);
            r.Ok? ==> |prompt| < maxLength && r == Plain(m, prompt, stop, maxLength - |prompt|)
  {
    hide *;
    if Decode(m, [], prompt, true, draft, stop, size, maxLength).Ok? {
      DecodeIsPlainExactly(m, prompt, draft, stop, size, maxLength);
      OneAtATimeStopsFirst(m, [], prompt, true, draft, stop, size, maxLength);
    }
  }

  /** A model that always says 7. */
  function Sevens(): Model {
    Model(Pipeline(0, (i: nat, xs: seq<Row>) => xs), (token: Token) => [], (row: Row) => 7)
  }

  lemma SevensAnswer(seen: seq<Row>, draft: seq<Token>)
    requires 1 <= |draft| <= |seen|
    ensures Sevens().pipeline.Causal()
    ensures AcceptedAfter(Sevens(), seen, draft) == Accepted(seq(|draft|, _ => 7), draft)
  {
    var m := Sevens();
    assert forall i: nat, xs: seq<Row>, n: nat :: m.pipeline.LooksBack(i, xs, n);
    assert Predicted(m, Suffix(m.pipeline.Run(0, 0, seen), |seen| - |draft|)) == seq(|draft|, _ => 7);
  }

  lemma SevensNext()
    ensures Sevens().pipeline.Causal() && Sevens().Next([1]) == 7
  {
    assert forall i: nat, xs: seq<Row>, n: nat :: Sevens().pipeline.LooksBack(i, xs, n);
  }

  lemma TwoDrafted(t: Token)
    ensures Sevens().pipeline.Causal()
    ensures Decode(Sevens(), [], [1], true, Drafts(t), StopsAt(2), 2, 10) == Ok([1] + if t == 7 then [7, 7] else [7])
  {
    var seen := Seen(Sevens(), [], [1], [t, t], true);
    SevensAnswer(seen, [t, t]);
    DecodeUnfolds(Sevens(), [], [1], true, Drafts(t), StopsAt(2), 2, 10);
    hide Decode, AcceptedAfter, Sevens;
    assert LastOf(Drafts(t)([1], 2), 2) == [t, t];
    assert seq(2, _ => 7) == [7, 7];
    assert [7, 7][1..] == [7] && [7][1..] == [] && [t, t][1..] == [t] && [t][1..] == [];
    assert Accepted([7, 7], [t, t]) == if t == 7 then [7, 7] else [7];
  }

  /** With a criterion met by two tokens, a draft of two sevens runs past it and a draft of two zeros does not. */
  lemma StopDependsOnDraft()
    ensures Sevens().pipeline.Causal()
    ensures Decode(Sevens(), [], [1], true, Drafts(7), StopsAt(2), 2, 10) == Ok([1, 7, 7])
    ensures Decode(Sevens(), [], [1], true, Drafts(0), StopsAt(2), 2, 10) == Ok([1, 7])
    ensures Plain(Sevens(), [1], StopsAt(2), 9) == Ok([1, 7])
  {
    TwoDrafted(7);
    TwoDrafted(0);
    SevensNext();
    hide Decode, Sevens;
    assert [1] + [7, 7] == [1, 7, 7] && [1] + [7] == [1, 7];
  }

  // ----- what is decided before decoding begins -----

  /** The greedy continuation of ids with n tokens in all. */
  ghost function Continued(m: Model, ids: seq<Token>, n: nat): (r: seq<Token>)
    requires m.pipeline.Causal() && ids != [] && |ids| <= n
    ensures |r| == n && ids <= r
    decreases n
  {
    if n == |ids| then ids
    else
      var shorter := Continued(m, ids, n - 1);
      shorter + [m.Next(shorter)]
  }

  lemma {:induction false} ContinuedIsPrefix(m: Model, ids: seq<Token>, i: nat, n: nat)
    requires m.pipeline.Causal() && ids != [] && |ids| <= i <= n
    ensures Continued(m, ids, n)[..i] == Continued(m, ids, i)
    decreases n
  {
    hide Model.Next, Pipeline.Causal;
    if i < n {
      ContinuedIsPrefix(m, ids, i, n - 1);
      assert Continued(m, ids, n)[..n - 1] == Continued(m, ids, n - 1);
      assert Continued(m, ids, n)[..i] == Continued(m, ids, n)[..n - 1][..i];
    }
  }

  /** Every greedy continuation is this one. */
  lemma ContinuedIsGreedy(m: Model, ids: seq<Token>, n: nat)
    requires m.pipeline.Causal() && ids != [] && |ids| <= n
    ensures m.Greedy(ids, Continued(m, ids, n))
    ensures forall x | m.Greedy(ids, x) && |x| == n :: x == Continued(m, ids, n)
  {
    var all := Continued(m, ids, n);
    hide Model.Next, Pipeline.Causal;
    forall j | |ids| <= j < |all| ensures all[j] == m.Next(all[..j]) {
      ContinuedIsPrefix(m, ids, j, n);
      ContinuedIsPrefix(m, ids, j + 1, n);
      assert all[j] == all[..j + 1][j];
    }
    forall x | m.Greedy(ids, x) && |x| == n ensures x == all {
      m.GreedyIsUnique(ids, x, all);
      assert all[..n] == all;
    }
  }

  /** The greedy continuation of n tokens in all meets the criterion. */
  ghost predicate Meets(m: Model, prompt: seq<Token>, stop: seq<Token> -> bool, n: nat)
    requires m.pipeline.Causal() && prompt != []
  {
    |prompt| < n && stop(Continued(m, prompt, n))
  }

  // ----- drafts that are right as long as one wants -----

  /** The i-th token drafted after a text of n tokens: the target's own up to a point, and another one from there on. */
  ghost function PlannedToken(m: Model, prompt: seq<Token>, right: nat, n: nat, i: nat): Token
    requires m.pipeline.Causal() && prompt != []
  {
    if n + i < |prompt| then 0 else Continued(m, prompt, n + i + 1)[n + i] + if i < right then 0 else 1
  }

  ghost predicate IsPlanned(m: Model, prompt: seq<Token>, right: nat, n: nat, draft: seq<Token>)
    requires m.pipeline.Causal() && prompt != []
  {
    forall j: nat | j < |draft| :: draft[j] == PlannedToken(m, prompt, right, n, j)
  }

  /** The draft that is right for plan(n) tokens after a text of n tokens. */
  ghost function Planned(m: Model, prompt: seq<Token>, plan: nat -> nat): (draft: (seq<Token>, nat) -> seq<Token>)
    requires m.pipeline.Causal() && prompt != []
    ensures forall ids: seq<Token>, s: nat :: |draft(ids, s)| == s
  {
    (ids: seq<Token>, s: nat) => seq(s, (i: nat) => PlannedToken(m, prompt, plan(|ids|), |ids|, i))
  }

  /** How many tokens are accepted of such a draft of s tokens. */
  function PlannedLength(right: nat, s: nat): (k: nat)
    requires s >= 1
    ensures 1 <= k <= s
  {
    if right == 0 then 1 else if right < s then right else s
  }

  /** What the target predicts along a draft. */
  ghost function Foreseen(m: Model, ids: seq<Token>, draft: seq<Token>): (r: seq<Token>)
    requires m.pipeline.Causal() && ids != []
    ensures |r| == |draft|
  {
    seq(|draft|, i requires 0 <= i < |draft| => m.Next((ids + draft)[..|ids| + i]))
  }

  lemma AcceptedIsForeseen(m: Model, log: seq<Row>, ids: seq<Token>, draft: seq<Token>, first: bool)
    requires m.pipeline.Causal() && InStep(m, log, ids, first) && ids != [] && draft != []
    requires !first ==> |ids| - 1 <= |log|
    ensures AcceptedAfter(m, Seen(m, log, ids, draft, first), draft) == Accepted(Foreseen(m, ids, draft), draft)
  {
    hide *;
    SeenInStep(m, log, ids, draft, first);
    ForeseenRows(m, ids, draft);
    var rows := RowsAfter(m, Seen(m, log, ids, draft, first), draft);
  }

  /** The target's rows along the draft. */
  lemma RowsAfter(m: Model, seen: seq<Row>, draft: seq<Token>) returns (rows: seq<Row>)
    requires m.pipeline.Causal() && 1 <= |draft| <= |seen|
    ensures rows == m.pipeline.Run(0, m.pipeline.depth, seen) && |rows| == |seen|
    ensures |Predicted(m, Suffix(rows, |seen| - |draft|))| == |draft|
    ensures AcceptedAfter(m, seen, draft) == Accepted(Predicted(m, Suffix(rows, |seen| - |draft|)), draft)
  {
    hide Accepted, Pipeline.Causal, Pipeline.Run;
    m.pipeline.RunIsCausal(0, m.pipeline.depth, seen, 0);
    rows := m.pipeline.Run(0, m.pipeline.depth, seen);
  }

  lemma ForeseenRows(m: Model, ids: seq<Token>, draft: seq<Token>)
    requires m.pipeline.Causal() && ids != [] && draft != []
    ensures var seen := m.Embedded((ids + draft)[..|ids| + |draft| - 1]);
            var rows := m.pipeline.Run(0, m.pipeline.depth, seen);
            && |seen| == |rows| == |ids| + |draft| - 1
            && Predicted(m, Suffix(rows, |ids| - 1)) == Foreseen(m, ids, draft)
  {
    hide Model.Next, Pipeline.Causal, Pipeline.Run, Predicted;
    var seen := m.Embedded((ids + draft)[..|ids| + |draft| - 1]);
    var rows := m.pipeline.Run(0, m.pipeline.depth, seen);
    RowsPredictDraft(m, ids, draft, 0);
    var predicted := Predicted(m, Suffix(rows, |ids| - 1));
    forall i | 0 <= i < |draft| ensures predicted[i] == Foreseen(m, ids, draft)[i] {
      RowsPredictDraft(m, ids, draft, i);
    }
  }

  lemma RightToken(m: Model, prompt: seq<Token>, n: nat, draft: seq<Token>, right: nat, i: nat, p: nat)
    requires m.pipeline.Causal() && prompt != [] && |prompt| <= n <= p < n + i && i <= right && i <= |draft|
    requires IsPlanned(m, prompt, right, n, draft)
    ensures draft[p - n] == Continued(m, prompt, n + i)[p]
  {
    ContinuedIsPrefix(m, prompt, p + 1, n + i);
    hide Continued, Pipeline.Causal;
    assert draft[p - n] == PlannedToken(m, prompt, right, n, p - n);
    assert Continued(m, prompt, n + i)[..p + 1][p] == Continued(m, prompt, n + i)[p];
  }

  /** The tokens that are right continue the text as the target would. */
  lemma RightTokens(m: Model, prompt: seq<Token>, n: nat, draft: seq<Token>, right: nat, i: nat)
    requires m.pipeline.Causal() && prompt != [] && |prompt| <= n && i <= right && i <= |draft|
    requires IsPlanned(m, prompt, right, n, draft)
    ensures (Continued(m, prompt, n) + draft)[..n + i] == Continued(m, prompt, n + i)
  {
    var ids, all := Continued(m, prompt, n), Continued(m, prompt, n + i);
    hide *;
    ContinuedIsPrefix(m, prompt, n, n + i);
    assert all == ids + all[n..];
    forall p | n <= p < n + i ensures draft[p - n] == all[p] {
      RightToken(m, prompt, n, draft, right, i, p);
    }
    assert draft[..i] == all[n..];
    TakeAfter(ids, draft, i);
  }

  lemma ForeseenToken(m: Model, prompt: seq<Token>, n: nat, draft: seq<Token>, right: nat, i: nat)
    requires m.pipeline.Causal() && prompt != [] && |prompt| <= n && i <= right && i < |draft|
    requires IsPlanned(m, prompt, right, n, draft)
    ensures Foreseen(m, Continued(m, prompt, n), draft)[i] == Continued(m, prompt, n + i + 1)[n + i]
    ensures Foreseen(m, Continued(m, prompt, n), draft)[i] == draft[i] <==> i < right
  {
    RightTokens(m, prompt, n, draft, right, i);
    hide Model.Next, Pipeline.Causal;
  }

  lemma PlannedAgreement(m: Model, prompt: seq<Token>, n: nat, draft: seq<Token>, right: nat)
    requires m.pipeline.Causal() && prompt != [] && |prompt| <= n && IsPlanned(m, prompt, right, n, draft)
    ensures Agreeing(Foreseen(m, Continued(m, prompt, n), draft), draft) == if right < |draft| then right else |draft|
  {
    hide Continued, Foreseen, Pipeline.Causal, IsPlanned;
    var r := Agreeing(Foreseen(m, Continued(m, prompt, n), draft), draft);
    if r < |draft| && r <= right {
      ForeseenToken(m, prompt, n, draft, right, r);
    }
    if right < |draft| {
      ForeseenToken(m, prompt, n, draft, right, right);
    }
  }

  /** Exactly the right tokens of a planned draft are accepted, or the target's own first one. */
  lemma PlannedRunIsAccepted(m: Model, prompt: seq<Token>, n: nat, draft: seq<Token>, right: nat)
    requires m.pipeline.Causal() && prompt != [] && |prompt| <= n && draft != []
    requires IsPlanned(m, prompt, right, n, draft)
    ensures Continued(m, prompt, n) + Accepted(Foreseen(m, Continued(m, prompt, n), draft), draft)
         == Continued(m, prompt, n + PlannedLength(right, |draft|))
  {
    hide *;
    var ids, k := Continued(m, prompt, n), if right < |draft| then right else |draft|;
    PlannedAgreement(m, prompt, n, draft, right);
    AcceptedBeginning(Foreseen(m, ids, draft), draft, right);
    if k == 0 {
      ForeseenToken(m, prompt, n, draft, right, 0);
      OneMoreToken(m, prompt, n);
    } else {
      RightTokens(m, prompt, n, draft, right, k);
      TakeAfter(ids, draft, k);
    }
  }

  lemma AcceptedBeginning(predicted: seq<Token>, draft: seq<Token>, right: nat)
    requires |predicted| == |draft| >= 1 && Agreeing(predicted, draft) == if right < |draft| then right else |draft|
    ensures Accepted(predicted, draft) == if right == 0 then [predicted[0]] else draft[..PlannedLength(right, |draft|)]
    ensures PlannedLength(right, |draft|) == if right == 0 then 1 else if right < |draft| then right else |draft|
  {
  }

  lemma TakeAfter(ids: seq<Token>, draft: seq<Token>, k: nat)
    requires k <= |draft|
    ensures (ids + draft)[..|ids| + k] == ids + draft[..k]
  {
  }

  lemma OneMoreToken(m: Model, prompt: seq<Token>, n: nat)
    requires m.pipeline.Causal() && prompt != [] && |prompt| <= n
    ensures Continued(m, prompt, n) + [Continued(m, prompt, n + 1)[n]] == Continued(m, prompt, n + 1)
  {
  }

  /** Decoding with a planned draft once the text has n tokens. */
  ghost function DecodePlanned(
    m: Model, log: seq<Row>, prompt: seq<Token>, n: nat, first: bool, plan: nat -> nat,
    stop: seq<Token> -> bool, size: int, maxLength: nat): Result<seq<Token>>
    requires m.pipeline.Causal() && prompt != [] && |prompt| <= n && (!first ==> n - 1 <= |log|)
  {
    Decode(m, log, Continued(m, prompt, n), first, Planned(m, prompt, plan), stop, size, maxLength)
  }

  /** Decoding has come to a text of n tokens. */
  ghost predicate At(m: Model, log: seq<Row>, prompt: seq<Token>, n: nat, first: bool)
    requires m.pipeline.Causal() && prompt != [] && |prompt| <= n
  {
    InStep(m, log, Continued(m, prompt, n), first) && (!first ==> n - 1 <= |log|)
  }

  function MinInt(x: int, y: int): int {
    if x < y then x else y
  }

  /** One turn of decoding with a planned draft, from position 0. */
  lemma PlannedTurn(
    m: Model, log: seq<Row>, prompt: seq<Token>, n: nat, first: bool, plan: nat -> nat,
    stop: seq<Token> -> bool, size: int, maxLength: nat)
    returns (seen: seq<Row>, next: nat)
    requires m.pipeline.Causal() && prompt != [] && |prompt| <= n < maxLength && size >= 1
    requires At(m, log, prompt, n, first) && (!first ==> n - 1 <= |log|)
    ensures next == n + PlannedLength(plan(n), MinInt(size, maxLength - n))
    ensures At(m, seen, prompt, next, false) && next - 1 <= |seen|
    ensures DecodePlanned(m, log, prompt, n, first, plan, stop, size, maxLength)
         == if stop(Continued(m, prompt, next)) then Ok(Continued(m, prompt, next))
            else DecodePlanned(m, seen, prompt, next, false, plan, stop, MinInt(size, maxLength - n), maxLength)
  {
    hide *;
    var s := if size <= maxLength - n then size else maxLength - n;
    SmallerIs(size, maxLength - n);
    var ids, draft := Continued(m, prompt, n), Planned(m, prompt, plan);
    var tokens := draft(ids, s);
    PlannedDraft(m, prompt, plan, n, s);
    InStepAt(m, log, prompt, n, first);
    DecodeUnfolds(m, log, ids, first, draft, stop, size, maxLength);
    seen, next := Seen(m, log, ids, tokens, first), n + PlannedLength(plan(n), s);
    ContinuedIsGreedy(m, prompt, n);
    AcceptedRunIsGreedy(m, log, prompt, ids, tokens, first);
    AcceptedIsForeseen(m, log, ids, tokens, first);
    PlannedRunIsAccepted(m, prompt, n, tokens, plan(n));
    SeenLength(m, log, ids, tokens, first);
    InStepAt(m, seen, prompt, next, false);
    DecodePlannedIs(m, log, prompt, n, first, plan, stop, size, maxLength);
    DecodePlannedIs(m, seen, prompt, next, false, plan, stop, s, maxLength);
  }

  lemma SmallerIs(x: int, y: int)
    ensures MinInt(x, y) == if x <= y then x else y
  {
  }

  lemma InStepAt(m: Model, log: seq<Row>, prompt: seq<Token>, n: nat, first: bool)
    requires m.pipeline.Causal() && prompt != [] && |prompt| <= n && (!first ==> n - 1 <= |log|)
    ensures At(m, log, prompt, n, first) <==> InStep(m, log, Continued(m, prompt, n), first)
  {
  }

  lemma DecodePlannedIs(
    m: Model, log: seq<Row>, prompt: seq<Token>, n: nat, first: bool, plan: nat -> nat,
    stop: seq<Token> -> bool, size: int, maxLength: nat)
    requires m.pipeline.Causal() && prompt != [] && |prompt| <= n && (!first ==> n - 1 <= |log|)
    ensures Decode(m, log, Continued(m, prompt, n), first, Planned(m, prompt, plan), stop, size, maxLength)
         == DecodePlanned(m, log, prompt, n, first, plan, stop, size, maxLength)
  {
    hide Decode, Continued, Planned;
  }

  lemma PlannedDraft(m: Model, prompt: seq<Token>, plan: nat -> nat, n: nat, s: nat)
    requires m.pipeline.Causal() && prompt != [] && |prompt| <= n
    ensures var tokens := Planned(m, prompt, plan)(Continued(m, prompt, n), s);
            && |tokens| == s && LastOf(tokens, s) == tokens
            && IsPlanned(m, prompt, plan(n), n, tokens)
  {
    hide PlannedToken, Continued;
  }

  lemma SeenLength(m: Model, log: seq<Row>, ids: seq<Token>, draft: seq<Token>, first: bool)
    requires InStep(m, log, ids, first) && ids != [] && draft != [] && (!first ==> |ids| - 1 <= |log|)
    ensures |Seen(m, log, ids, draft, first)| == |ids| + |draft| - 1
  {
    SeenInStep(m, log, ids, draft, first);
  }

  // ----- the same result for every draft -----

  ghost predicate MeetsTwice(m: Model, prompt: seq<Token>, stop: seq<Token> -> bool, maxLength: nat)
    requires m.pipeline.Causal() && prompt != []
  {
    exists i: nat, j: nat :: i < j <= maxLength && Meets(m, prompt, stop, i) && Meets(m, prompt, stop, j)
  }

  lemma {:induction false} FirstMeeting(m: Model, prompt: seq<Token>, stop: seq<Token> -> bool, low: nat, high: nat)
    returns (n: nat)
    requires m.pipeline.Causal() && prompt != [] && low < high && Meets(m, prompt, stop, high)
    ensures low < n <= high && Meets(m, prompt, stop, n)
    ensures forall j: nat | low < j < n :: !Meets(m, prompt, stop, j)
    decreases high
  {
    hide Meets, Pipeline.Causal;
    n := high;
    if j: nat :| low < j < high && Meets(m, prompt, stop, j) {
      n := FirstMeeting(m, prompt, stop, low, j);
    }
  }

  /** The plan that is wrong everywhere but for two right tokens just before a tokens are reached. */
  function SkipAt(a: nat): nat -> nat {
    (n: nat) => if n + 1 == a then 2 else 0
  }

  lemma SkipLength(a: nat, n: nat, s: nat)
    requires s >= 1 && (n + 1 == a ==> s >= 2)
    ensures PlannedLength(SkipAt(a)(n), s) == if n + 1 == a then 2 else 1
  {
  }

  lemma MeetsIs(m: Model, prompt: seq<Token>, stop: seq<Token> -> bool, n: nat)
    requires m.pipeline.Causal() && prompt != [] && |prompt| < n
    ensures Meets(m, prompt, stop, n) <==> stop(Continued(m, prompt, n))
  {
    hide Continued, Pipeline.Causal;
  }

  /** With this plan decoding runs past the first meeting length a and returns the second one, b. */
  lemma {:induction false} SecondMeetingIsReturned(
    m: Model, log: seq<Row>, prompt: seq<Token>, n: nat, first: bool, a: nat, b: nat,
    stop: seq<Token> -> bool, size: int, maxLength: nat)
    requires m.pipeline.Causal() && prompt != [] && |prompt| <= n < b <= maxLength && n != a < b
    requires At(m, log, prompt, n, first) && (!first ==> n - 1 <= |log|)
    requires size >= if n < a then 2 else 1
    requires Meets(m, prompt, stop, b) && forall j: nat | j < b && j != a :: !Meets(m, prompt, stop, j)
    ensures DecodePlanned(m, log, prompt, n, first, SkipAt(a), stop, size, maxLength) == Ok(Continued(m, prompt, b))
    decreases b - n
  {
    hide *;
    var seen, next := PlannedTurn(m, log, prompt, n, first, SkipAt(a), stop, size, maxLength);
    SmallerIs(size, maxLength - n);
    SkipLength(a, n, MinInt(size, maxLength - n));
    MeetsIs(m, prompt, stop, next);
    if next < b {
      SecondMeetingIsReturned(
        m, seen, prompt, next, false, a, b, stop, MinInt(size, maxLength - n), maxLength);
    }
  }

  /** Decoding that returns gives plain decoding's result, whatever the small model drafts. */
  ghost predicate PlainForEveryDraft(
    m: Model, prompt: seq<Token>, stop: seq<Token> -> bool, size: int, maxLength: nat)
    requires m.pipeline.Causal() && prompt != []
  {
    forall draft: (seq<Token>, nat) -> seq<Token> |
      Decode(m, [], prompt, true, draft, stop, size, maxLength).Ok? ::
      IsPlain(m, prompt, draft, stop, size, maxLength)
  }

  ghost predicate IsPlain(
    m: Model, prompt: seq<Token>, draft: (seq<Token>, nat) -> seq<Token>, stop: seq<Token> -> bool,
    size: int, maxLength: nat)
    requires m.pipeline.Causal() && prompt != []
  {
    && |prompt| < maxLength
    && Decode(m, [], prompt, true, draft, stop, size, maxLength) == Plain(m, prompt, stop, maxLength - |prompt|)
  }

  lemma MeetingOncePlain(
    m: Model, prompt: seq<Token>, draft: (seq<Token>, nat) -> seq<Token>, stop: seq<Token> -> bool,
    size: int, maxLength: nat)
    requires m.pipeline.Causal() && prompt != [] && (size <= 1 || !MeetsTwice(m, prompt, stop, maxLength))
    requires Decode(m, [], prompt, true, draft, stop, size, maxLength).Ok?
    ensures IsPlain(m, prompt, draft, stop, size, maxLength)
  {
    hide Decode, Plain, Pipeline.Causal, Model.Greedy, Continued;
    if size <= 1 {
      OneAtATimeIsPlain(m, prompt, draft, stop, size, maxLength);
    } else {
      DecodeIsPlainExactly(m, prompt, draft, stop, size, maxLength);
      StartsAt(m, prompt);
      StartsGreedy(m, prompt);
      DecodeIsGreedy(m, [], prompt, prompt, true, draft, stop, size, maxLength);
      var ids := Decode(m, [], prompt, true, draft, stop, size, maxLength).value;
      ContinuedIsGreedy(m, prompt, |ids|);
      forall j | |prompt| < j < |ids| ensures !stop(ids[..j]) {
        ContinuedIsPrefix(m, prompt, j, |ids|);
        assert Meets(m, prompt, stop, |ids|);
        assert !Meets(m, prompt, stop, j);
      }
    }
  }

  lemma MeetingTwiceIsNotPlain(
    m: Model, prompt: seq<Token>, stop: seq<Token> -> bool, size: int, maxLength: nat)
    returns (draft: (seq<Token>, nat) -> seq<Token>)
    requires m.pipeline.Causal() && prompt != [] && size >= 2 && MeetsTwice(m, prompt, stop, maxLength)
    ensures Decode(m, [], prompt, true, draft, stop, size, maxLength).Ok?
    ensures !IsPlain(m, prompt, draft, stop, size, maxLength)
  {
    hide Decode, DecodePlanned, Plain, Pipeline.Causal, Model.Greedy, Continued, Planned, SkipAt;
    var i: nat, j: nat :| i < j <= maxLength && Meets(m, prompt, stop, i) && Meets(m, prompt, stop, j);
    var a := FirstMeeting(m, prompt, stop, |prompt|, i);
    var b := FirstMeeting(m, prompt, stop, a, j);
    draft := Planned(m, prompt, SkipAt(a));
    StartsAt(m, prompt);
    SecondMeetingIsReturned(m, [], prompt, |prompt|, true, a, b, stop, size, maxLength);
    DecodePlannedIs(m, [], prompt, |prompt|, true, SkipAt(a), stop, size, maxLength);
    DecodeIsPlainExactly(m, prompt, draft, stop, size, maxLength);
    ContinuedIsPrefix(m, prompt, a, b);
  }

  lemma StartsGreedy(m: Model, prompt: seq<Token>)
    requires m.pipeline.Causal() && prompt != []
    ensures m.Greedy(prompt, prompt) && InStep(m, [], prompt, true)
  {
  }

  lemma StartsAt(m: Model, prompt: seq<Token>)
    requires m.pipeline.Causal() && prompt != []
    ensures Continued(m, prompt, |prompt|) == prompt && At(m, [], prompt, |prompt|, true)
  {
  }

  /**
   Before decoding begins it is decided whether the draft matters: every draft gives the result of plain
   decoding exactly if tokens are drafted one at a time or at most one greedy continuation of the prompt, up to
   the maximum length, meets the criterion.
   */
  lemma DraftDoesNotMatterExactly(
    m: Model, prompt: seq<Token>, stop: seq<Token> -> bool, size: int, maxLength: nat)
    requires m.pipeline.Causal() && prompt != []
    ensures PlainForEveryDraft(m, prompt, stop, size, maxLength) <==>
            size <= 1 || !MeetsTwice(m, prompt, stop, maxLength)
  {
    hide *;
    if size <= 1 || !MeetsTwice(m, prompt, stop, maxLength) {
      forall draft: (seq<Token>, nat) -> seq<Token> |
        Decode(m, [], prompt, true, draft, stop, size, maxLength).Ok?
        ensures IsPlain(m, prompt, draft, stop, size, maxLength)
      {
        MeetingOncePlain(m, prompt, draft, stop, size, maxLength);
      }
      EveryDraftIsPlain(m, prompt, stop, size, maxLength);
    } else {
      var draft := MeetingTwiceIsNotPlain(m, prompt, stop, size, maxLength);
      if PlainForEveryDraft(m, prompt, stop, size, maxLength) {
        PlainForThisDraft(m, prompt, draft, stop, size, maxLength);
      }
    }
  }

  lemma EveryDraftIsPlain(m: Model, prompt: seq<Token>, stop: seq<Token> -> bool, size: int, maxLength: nat)
    requires m.pipeline.Causal() && prompt != []
    requires forall draft: (seq<Token>, nat) -> seq<Token> |
               Decode(m, [], prompt, true, draft, stop, size, maxLength).Ok? ::
               IsPlain(m, prompt, draft, stop, size, maxLength)
    ensures PlainForEveryDraft(m, prompt, stop, size, maxLength)
  {
    hide Decode, IsPlain, Pipeline.Causal;
  }

  lemma PlainForThisDraft(
    m: Model, prompt: seq<Token>, draft: (seq<Token>, nat) -> seq<Token>, stop: seq<Token> -> bool,
    size: int, maxLength: nat)
    requires m.pipeline.Causal() && prompt != [] && PlainForEveryDraft(m, prompt, stop, size, maxLength)
    requires Decode(m, [], prompt, true, draft, stop, size, maxLength).Ok?
    ensures IsPlain(m, prompt, draft, stop, size, maxLength)
  {
    hide Decode, IsPlain, Pipeline.Causal;
  }

  // ----- when decoding returns at all -----

  ghost predicate LongEnough(draft: (seq<Token>, nat) -> seq<Token>) {
    forall ids: seq<Token>, s: nat :: |draft(ids, s)| >= s
  }

  /** From a on, size lengths in a row, or all up to the maximum, meet the criterion: no run can step over them. */
  ghost predicate MeetsInARow(
    m: Model, prompt: seq<Token>, stop: seq<Token> -> bool, size: int, maxLength: nat, a: nat)
    requires m.pipeline.Causal() && prompt != []
  {
    |prompt| < a <= maxLength && forall j: nat | a <= j < a + size && j <= maxLength :: Meets(m, prompt, stop, j)
  }

  lemma {:induction false} MustStop(
    m: Model, log: seq<Row>, prompt: seq<Token>, ids: seq<Token>, first: bool,
    draft: (seq<Token>, nat) -> seq<Token>, stop: seq<Token> -> bool, size: int, maxLength: nat, most: int, a: nat)
    requires m.pipeline.Causal() && prompt != [] && m.Greedy(prompt, ids) && InStep(m, log, ids, first)
    requires |prompt| <= |ids| < a && (!first ==> |ids| - 1 <= |log|) && ids != []
    requires LongEnough(draft) && 1 <= size <= most && MeetsInARow(m, prompt, stop, most, maxLength, a)
    ensures Decode(m, log, ids, first, draft, stop, size, maxLength).Ok?
    decreases a - |ids|
  {
    hide Model.Greedy, InStep, Decode, AcceptedAfter, Seen, Pipeline.Causal, Continued;
    DecodeUnfolds(m, log, ids, first, draft, stop, size, maxLength);
    var s := if size <= maxLength - |ids| then size else maxLength - |ids|;
    var tokens := LastOf(draft(ids, s), s);
    var seen := Seen(m, log, ids, tokens, first);
    SeenLength(m, log, ids, tokens, first);
    AcceptedRunIsGreedy(m, log, prompt, ids, tokens, first);
    var next := ids + AcceptedAfter(m, seen, tokens);
    if |next| < a {
      if !stop(next) {
        MustStop(m, seen, prompt, next, false, draft, stop, s, maxLength, most, a);
      }
    } else {
      ContinuedIsGreedy(m, prompt, |next|);
      assert Meets(m, prompt, stop, |next|);
    }
  }

  /** The plan that always goes on to a length that does not meet the criterion, if one is in reach. */
  ghost function Evading(
    m: Model, prompt: seq<Token>, stop: seq<Token> -> bool, size: int, maxLength: nat): nat -> nat
    requires m.pipeline.Causal() && prompt != []
  {
    (n: nat) => EvadingStep(m, prompt, stop, size, maxLength, n)
  }

  ghost function EvadingStep(
    m: Model, prompt: seq<Token>, stop: seq<Token> -> bool, size: int, maxLength: nat, n: nat): (k: nat)
    requires m.pipeline.Causal() && prompt != []
    ensures |prompt| <= n < maxLength && size >= 1 && !MeetsInARow(m, prompt, stop, size, maxLength, n + 1) ==>
              1 <= k <= size && n + k <= maxLength && !Meets(m, prompt, stop, n + k)
  {
    if j: nat :| n < j <= n + size && j <= maxLength && !Meets(m, prompt, stop, j) then j - n else 0
  }

  lemma EvadingIs(
    m: Model, prompt: seq<Token>, stop: seq<Token> -> bool, size: int, maxLength: nat, n: nat, s: int)
    requires m.pipeline.Causal() && prompt != [] && |prompt| <= n < maxLength && size >= 1
    requires s == if size <= maxLength - n then size else maxLength - n
    requires !MeetsInARow(m, prompt, stop, size, maxLength, n + 1)
    ensures var k := PlannedLength(Evading(m, prompt, stop, size, maxLength)(n), s);
            n + k <= maxLength && !Meets(m, prompt, stop, n + k)
  {
    hide Meets, MeetsInARow, EvadingStep, Pipeline.Causal;
    assert Evading(m, prompt, stop, size, maxLength)(n) == EvadingStep(m, prompt, stop, size, maxLength, n);
  }

  lemma {:induction false} PlanEvades(
    m: Model, log: seq<Row>, prompt: seq<Token>, n: nat, first: bool,
    stop: seq<Token> -> bool, size: int, maxLength: nat, most: int)
    requires m.pipeline.Causal() && prompt != [] && |prompt| <= n <= maxLength && most >= 1
    requires At(m, log, prompt, n, first) && (!first ==> n - 1 <= |log|)
    requires MinInt(size, maxLength - n) == MinInt(most, maxLength - n)
    requires forall a: nat :: !MeetsInARow(m, prompt, stop, most, maxLength, a)
    ensures DecodePlanned(m, log, prompt, n, first, Evading(m, prompt, stop, most, maxLength), stop, size, maxLength)
         == Raised
    decreases maxLength - n
  {
    hide *;
    var plan := Evading(m, prompt, stop, most, maxLength);
    SmallerIs(size, maxLength - n);
    SmallerIs(most, maxLength - n);
    if n == maxLength {
      NoRoomRaises(m, log, prompt, n, first, plan, stop, size, maxLength);
    } else {
      var seen, next := PlannedTurn(m, log, prompt, n, first, plan, stop, size, maxLength);
      EvadingIs(m, prompt, stop, most, maxLength, n, MinInt(size, maxLength - n));
      MeetsIs(m, prompt, stop, next);
      SmallerIs(MinInt(size, maxLength - n), maxLength - next);
      SmallerIs(most, maxLength - next);
      PlanEvades(m, seen, prompt, next, false, stop, MinInt(size, maxLength - n), maxLength, most);
    }
  }

  lemma NoRoomRaises(
    m: Model, log: seq<Row>, prompt: seq<Token>, n: nat, first: bool, plan: nat -> nat,
    stop: seq<Token> -> bool, size: int, maxLength: nat)
    requires m.pipeline.Causal() && prompt != [] && |prompt| <= n && (!first ==> n - 1 <= |log|)
    requires size <= 0 || maxLength <= n
    ensures DecodePlanned(m, log, prompt, n, first, plan, stop, size, maxLength) == Raised
  {
    hide *;
    DecodePlannedIs(m, log, prompt, n, first, plan, stop, size, maxLength);
    var ids, draft := Continued(m, prompt, n), Planned(m, prompt, plan);
    DecodeUnfolds(m, log, ids, first, draft, stop, size, maxLength);
  }

  ghost predicate ReturnsForEveryDraft(
    m: Model, prompt: seq<Token>, stop: seq<Token> -> bool, size: int, maxLength: nat)
    requires m.pipeline.Causal() && prompt != []
  {
    forall draft: (seq<Token>, nat) -> seq<Token> | LongEnough(draft) ::
      Decode(m, [], prompt, true, draft, stop, size, maxLength).Ok?
  }

  /**
   From position 0 decoding returns for every draft that is long enough exactly if some row of lengths meets the
   criterion that no accepted run can step over; a criterion met at the maximum length is such a row.
   */
  lemma DecodeReturnsExactly(m: Model, prompt: seq<Token>, stop: seq<Token> -> bool, size: int, maxLength: nat)
    requires m.pipeline.Causal() && prompt != []
    ensures ReturnsForEveryDraft(m, prompt, stop, size, maxLength) <==>
            size >= 1 && exists a: nat :: MeetsInARow(m, prompt, stop, size, maxLength, a)
    ensures |prompt| < maxLength && Meets(m, prompt, stop, maxLength) ==>
              MeetsInARow(m, prompt, stop, size, maxLength, maxLength)
  {
    hide Decode, DecodePlanned, Pipeline.Causal, Continued, Planned, Evading, Meets;
    StartsAt(m, prompt);
    if a: nat :| size >= 1 && MeetsInARow(m, prompt, stop, size, maxLength, a) {
      forall draft: (seq<Token>, nat) -> seq<Token> | LongEnough(draft)
        ensures Decode(m, [], prompt, true, draft, stop, size, maxLength).Ok?
      {
        MustStop(m, [], prompt, prompt, true, draft, stop, size, maxLength, size, a);
      }
    } else {
      var plan := Evading(m, prompt, stop, size, maxLength);
      if size <= 0 || maxLength <= |prompt| {
        NoRoomRaises(m, [], prompt, |prompt|, true, plan, stop, size, maxLength);
      } else {
        PlanEvades(m, [], prompt, |prompt|, true, stop, size, maxLength, size);
      }
      DecodePlannedIs(m, [], prompt, |prompt|, true, plan, stop, size, maxLength);
      assert LongEnough(Planned(m, prompt, plan));
    }
  }
}
