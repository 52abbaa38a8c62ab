/** Chains of transformer blocks and the spans of servers that run them. */
module Pipelines {
  import opened Common

  /** Blocks in order; each maps a whole sequence of rows to a sequence of rows. */
  datatype Pipeline = Pipeline(depth: nat, block: (nat, seq<Row>) -> seq<Row>) {
    /** Block i keeps the length of xs, and its first n rows only depend on the first n rows of xs. */
    ghost predicate LooksBack(i: nat, xs: seq<Row>, n: nat) {
      n <= |xs| ==> |block(i, xs)| == |xs| && block(i, xs)[..n] == block(i, xs[..n])
    }

    ghost predicate Causal() {
      forall i, xs, n :: LooksBack(i, xs, n)
    }

    /** Blocks first .. last - 1, one after another. */
    function Run(first: nat, last: nat, xs: seq<Row>): seq<Row>
      decreases last
    {
      if last <= first then xs else block(last - 1, Run(first, last - 1, xs))
    }

    /** However the sequences between the blocks are written down, the blocks in turn end in the last one. */
    lemma {:induction false} RunIsLastOf(first: nat, between: seq<seq<Row>>, n: nat)
      requires n < |between| && forall k | 0 <= k < |between| - 1 :: between[k + 1] == block(first + k, between[k])
      ensures Run(first, first + n, between[0]) == between[n]
    {
      if n > 0 {
        RunIsLastOf(first, between, n - 1);
        assert between[n - 1 + 1] == block(first + (n - 1), between[n - 1]);
      }
    }

    lemma {:induction false} RunIsCausal(first: nat, last: nat, xs: seq<Row>, n: nat)
      requires Causal() && n <= |xs|
      ensures |Run(first, last, xs)| == |xs|
      ensures Run(first, last, xs)[..n] == Run(first, last, xs[..n])
      decreases last
    {
      if last > first {
        RunIsCausal(first, last - 1, xs, n);
        assert LooksBack(last - 1, Run(first, last - 1, xs), n);
      }
    }

    lemma {:induction false} RunComposes(first: nat, mid: nat, last: nat, xs: seq<Row>)
      requires first <= mid <= last
      ensures Run(mid, last, Run(first, mid, xs)) == Run(first, last, xs)
      decreases last
    {
      if mid < last {
        RunComposes(first, mid, last - 1, xs);
      }
    }
  }

  /** Consecutive blocks served by one peer. */
  datatype Span = Span(peer: nat, start: nat, end: nat)

  /** Nonempty spans, back to back, from block a to block b. */
  ghost predicate Tiles(spans: seq<Span>, a: nat, b: nat) {
    && spans != []
    && spans[0].start == a && spans[|spans| - 1].end == b
    && (forall i | 0 <= i < |spans| :: spans[i].start < spans[i].end)
    && forall i | 0 <= i < |spans| - 1 :: spans[i].end == spans[i + 1].start
  }

  /** What a route has to satisfy: it tiles from a, and only its last span may reach past b. */
  ghost predicate Routes(spans: seq<Span>, a: nat, b: nat) {
    && spans != []
    && Tiles(spans, a, spans[|spans| - 1].end)
    && spans[|spans| - 1].start < b <= spans[|spans| - 1].end
  }

  /** The client shortens the last span of a route to the end it asked for. */
  function Trimmed(spans: seq<Span>, b: nat): (r: seq<Span>)
    requires spans != []
    ensures |r| == |spans|
  {
    var last := |spans| - 1;
    spans[last := spans[last].(end := if spans[last].end <= b then spans[last].end else b)]
  }

  lemma TrimmedTiles(spans: seq<Span>, a: nat, b: nat)
    requires Routes(spans, a, b)
    ensures Tiles(Trimmed(spans, b), a, b)
  {
  }

  /** Replacing one span of a tiling by a tiling of the same blocks gives a tiling. */
  lemma SpliceTiles(spans: seq<Span>, k: nat, more: seq<Span>, a: nat, b: nat)
    requires Tiles(spans, a, b) && k < |spans| && Tiles(more, spans[k].start, spans[k].end)
    ensures Tiles(spans[..k] + more + spans[k + 1..], a, b)
  {
    var r := spans[..k] + more + spans[k + 1..];
    forall i | 0 <= i < |r| - 1 ensures r[i].end == r[i + 1].start {
      if i + 1 < k {
      } else if i + 1 == k {
        assert r[i + 1] == more[0] && r[i] == spans[i] && spans[i].end == spans[i + 1].start;
      } else if i + 1 < k + |more| {
        assert r[i] == more[i - k] && r[i + 1] == more[i - k + 1];
      } else if i + 1 == k + |more| {
        assert r[i] == more[|more| - 1] && r[i + 1] == spans[k + 1];
      } else {
        assert r[i] == spans[i - |more| + 1] && r[i + 1] == spans[i - |more| + 2];
      }
    }
  }

  function Suffix(xs: seq<Row>, n: nat): seq<Row> {
    if n <= |xs| then xs[n..] else []
  }

  /** What a server holds for a stream after a step, and what it answers. */
  datatype SpanAnswer = SpanAnswer(cached: seq<Row>, rows: seq<Row>)

  /** A step of a span of blocks: continue from the given position and answer with the new rows. */
  function Answer(
    p: Pipeline, span: Span, maxLength: nat, cached: seq<Row>, start: nat, rows: seq<Row>): Result<SpanAnswer>
    requires start <= |cached|
  {
    if start + |rows| > maxLength then Raised
    else
      var now := cached[..start] + rows;
      Ok(SpanAnswer(now, Suffix(p.Run(span.start, span.end, now), start)))
  }
}
