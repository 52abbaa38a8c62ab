/** The server of a span of blocks: one session cache per block, and the prefix it has seen. */
module SpanServers {
  import opened Common
  import opened KvCaches
  import opened LinearMixer
  import opened Pipelines
  import opened SessionCaches

  datatype Layer = Linear(block: Block) | Full(attention: Attention) {
    ghost predicate Valid() {
      Linear? ==> block.mixer.Valid()
    }
  }

  /** What a block computes on a whole sequence with no cache. */
  function Stateless(layer: Layer, xs: seq<Row>): (r: seq<Row>)
    ensures |r| == |xs|
  {
    match layer
    case Linear(block) => StatelessPass(block, xs)
    case Full(attention) => AttentionRows(attention, [], xs)
  }

  function PipelineOf(layers: seq<Layer>): Pipeline {
    Pipeline(|layers|, (i: nat, xs: seq<Row>) => if i < |layers| then Stateless(layers[i], xs) else xs)
  }

  /** Every block, linear or full, only looks back. */
  lemma StatelessLooksBack(layer: Layer, xs: seq<Row>, n: nat)
    requires n <= |xs|
    ensures Stateless(layer, xs)[..n] == Stateless(layer, xs[..n])
  {
    hide BlockState, BlockRows, Blank;
    assert xs == xs[..n] + xs[n..];
    match layer {
      case Linear(block) =>
        BlockSplits(block, Blank(block.mixer), xs[..n], xs[n..]);
      case Full(attention) =>
        AttentionSplits(attention, [], xs[..n], xs[n..]);
    }
  }

  lemma BlocksAreCausal(layers: seq<Layer>)
    ensures PipelineOf(layers).Causal()
  {
    hide Stateless;
    var p := PipelineOf(layers);
    forall i: nat, xs: seq<Row>, n: nat ensures p.LooksBack(i, xs, n) {
      if i < |layers| && n <= |xs| {
        StatelessLooksBack(layers[i], xs, n);
      }
    }
  }

  // ----- one block -----

  datatype BlockCache = LinearCache(hybrid: HybridCache) | FullCache(kv: KvCache) {
    function Repr(): set<object> {
      match this
      case LinearCache(h) => {h, h.history}
      case FullCache(k) => {k, k.keys, k.values}
    }

    ghost predicate Valid(layer: Layer, maxLength: nat)
      reads Repr()
    {
      match this
      case LinearCache(h) => layer == Linear(h.block) && h.Valid() && h.history.Length == maxLength
      case FullCache(k) => layer == Full(k.block) && k.Valid() && k.keys.Length == maxLength
    }

    /** The rows that came to this block. */
    ghost function Log(): seq<Row>
      reads Repr()
    {
      match this
      case LinearCache(h) => h.log
      case FullCache(k) => k.log
    }
  }

  method NewCache(layer: Layer, maxLength: nat) returns (c: BlockCache)
    requires layer.Valid()
    ensures fresh(c.Repr()) && c.Valid(layer, maxLength) && c.Log() == []
  {
    match layer {
      case Linear(block) =>
        var h := new HybridCache(block, maxLength, [], []);
        c := LinearCache(h);
      case Full(attention) =>
        var k := new KvCache(attention, maxLength);
        c := FullCache(k);
    }
  }

  ghost predicate Fresh(c: BlockCache, layer: Layer, maxLength: nat)
    reads c.Repr()
  {
    c.Valid(layer, maxLength) && c.Log() == []
  }

  method NewCaches(layers: seq<Layer>, maxLength: nat) returns (made: seq<BlockCache>, ghost all: set<object>)
    requires forall l | l in layers :: l.Valid()
    ensures |made| == |layers|
    ensures fresh(all) && forall i: nat | i < |made| :: made[i].Repr() <= all && Fresh(made[i], layers[i], maxLength)
    ensures forall i: nat, j: nat | i < |made| && j < |made| && i != j :: made[i].Repr() !! made[j].Repr()
  {
    hide BlockCache.Valid;
    made, all := [], {};
    for i := 0 to |layers|
      invariant |made| == i
      invariant fresh(all)
      invariant forall j: nat | j < i :: made[j].Repr() <= all && Fresh(made[j], layers[j], maxLength)
      invariant forall j: nat, k: nat | j < i && k < i && j != k :: made[j].Repr() !! made[k].Repr()
    {
      var c := NewCache(layers[i], maxLength);
      made, all := made + [c], all + c.Repr();
    }
  }

  /** A step of one block on its cache; the faults say which forward passes raise. */
  method RunBlock(
    c: BlockCache, layer: Layer, maxLength: nat, hidden: seq<Row>, prefixLength: nat, chunkLength: nat,
    replayFaults: nat -> bool, faults: nat -> bool)
    returns (r: Result<seq<Row>>)
    requires c.Valid(layer, maxLength) && |hidden| >= 1 && chunkLength >= 1 && prefixLength + |hidden| <= maxLength
    modifies c.Repr()
    ensures r.Ok? ==> c.Valid(layer, maxLength) && |r.value| == |hidden|
    ensures r.Ok? && prefixLength <= |old(c.Log())| ==>
              && c.Log() == old(c.Log())[..prefixLength] + hidden
              && r.value == Stateless(layer, c.Log())[prefixLength..]
    ensures r.Ok? && prefixLength > |old(c.Log())| ==> c.Log() == old(c.Log())
    ensures prefixLength <= |old(c.Log())| && (forall k :: !faults(k) && !replayFaults(k)) ==> r.Ok?
  {
    match c {
      case LinearCache(h) =>
        r := h.InferenceWithCache(hidden, prefixLength, chunkLength, replayFaults, faults);
      case FullCache(k) =>
        r := k.InferenceWithCache(hidden, prefixLength, chunkLength, faults);
    }
  }

  // ----- the span -----

  /** The block has cached what the blocks from the start of the span make of the sequence l. */
  ghost predicate Holds(p: Pipeline, first: nat, last: nat, cached: seq<Row>, l: seq<Row>) {
    |l| <= |cached| && cached[..|l|] == p.Run(first, last, l)
  }

  /** A block that cached l and is given the new rows of the sequence now has cached that. */
  lemma BlockFollows(p: Pipeline, first: nat, last: nat, cached: seq<Row>, l: seq<Row>, start: nat, rows: seq<Row>)
    requires p.Causal() && Holds(p, first, last, cached, l) && start <= |l|
    ensures var now := l[..start] + rows;
            cached[..start] + Suffix(p.Run(first, last, now), start) == p.Run(first, last, now)
  {
    var now := l[..start] + rows;
    p.RunIsCausal(first, last, l, start);
    p.RunIsCausal(first, last, now, start);
    assert now[..start] == l[..start];
    assert cached[..start] == cached[..|l|][..start];
  }

  lemma FreshHoldsNothing(c: BlockCache, layers: seq<Layer>, first: nat, i: nat, maxLength: nat)
    requires first + i < |layers| && Fresh(c, layers[first + i], maxLength)
    ensures c.Valid(layers[first + i], maxLength) && Holds(PipelineOf(layers), first, first + i, c.Log(), [])
  {
    BlocksAreCausal(layers);
    PipelineOf(layers).RunIsCausal(first, first + i, [], 0);
  }

  class SpanServer {
    const layers: seq<Layer>
    const span: Span
    const maxLength: nat
    const caches: seq<BlockCache>
    var prefixLength: nat
    /** Set when a step raised, which ends the stream. */
    var broken: bool
    /** The rows that went through the span and are still cached. */
    ghost var log: seq<Row>
    ghost const footprint: set<object>

    /** The caches of different blocks have nothing in common. */
    ghost predicate Separate() {
      && |caches| == span.end - span.start && span.start <= span.end <= |layers| && this !in footprint
      && (forall i: nat | i < |caches| :: caches[i].Repr() <= footprint)
      && forall i: nat, j: nat | i < |caches| && j < |caches| && i != j :: caches[i].Repr() !! caches[j].Repr()
    }

    ghost predicate BlockValid(i: nat, l: seq<Row>)
      requires i < |caches| && span.start + i < |layers|
      reads caches[i].Repr()
    {
      && caches[i].Valid(layers[span.start + i], maxLength)
      && Holds(PipelineOf(layers), span.start, span.start + i, caches[i].Log(), l)
    }

    ghost predicate Valid()
      reads this, footprint
    {
      && Separate() && |log| <= maxLength
      && (!broken ==> forall i: nat | i < |caches| :: BlockValid(i, log))
    }

    constructor (layers: seq<Layer>, span: Span, maxLength: nat)
      requires span.start <= span.end <= |layers| && forall l | l in layers :: l.Valid()
      ensures Valid() && !broken && log == [] && prefixLength == 0 && fresh(footprint)
      ensures this.layers == layers && this.span == span && this.maxLength == maxLength
    {
      var made, all := NewCaches(layers[span.start..span.end], maxLength);
      this.layers, this.span, this.maxLength, caches, footprint := layers, span, maxLength, made, all;
      prefixLength, broken, log := 0, false, [];
      new;
      hide Fresh, Holds;
      forall i: nat | i < |caches| ensures BlockValid(i, log) {
        assert layers[span.start..span.end][i] == layers[span.start + i];
        FreshHoldsNothing(caches[i], layers, span.start, i, maxLength);
      }
    }

    /** The sequence that the blocks stand for after rows were fed at the prefix. */
    ghost function Fed(rows: seq<Row>): seq<Row>
      reads this
    {
      if prefixLength <= |log| then log[..prefixLength] + rows else log
    }

    lemma ShorterIsHeld(i: nat, l: seq<Row>, n: nat)
      requires i < |caches| && span.start + i < |layers| && BlockValid(i, l) && n <= |l|
      ensures BlockValid(i, l[..n])
    {
      BlocksAreCausal(layers);
      PipelineOf(layers).RunIsCausal(span.start, span.start + i, l, n);
      assert caches[i].Log()[..n] == caches[i].Log()[..|l|][..n];
    }

    /** Block i takes its turn. */
    method RunOne(i: nat, hidden: seq<Row>, ghost rows: seq<Row>, chunkLength: nat, replayFaults: nat -> bool,
      faults: nat -> bool)
      returns (r: Result<seq<Row>>)
      requires i < |caches| && span.start + i < |layers| && BlockValid(i, log)
      requires 1 <= |hidden| == |rows| && prefixLength + |rows| <= maxLength && chunkLength >= 1
      requires prefixLength <= |log| ==>
                 hidden == Suffix(PipelineOf(layers).Run(span.start, span.start + i, Fed(rows)), prefixLength)
      requires this !in caches[i].Repr()
      modifies caches[i].Repr()
      ensures r.Ok? ==> BlockValid(i, Fed(rows)) && |r.value| == |rows|
      ensures r.Ok? && prefixLength <= |log| ==>
                r.value == Suffix(PipelineOf(layers).Run(span.start, span.start + i + 1, Fed(rows)), prefixLength)
      ensures prefixLength <= |log| && (forall k :: !faults(k) && !replayFaults(k)) ==> r.Ok?
    {
      hide Stateless, BlockCache.Valid;
      ghost var p, l := PipelineOf(layers), log;
      ghost var before := caches[i].Log();
      BlocksAreCausal(layers);
      r := RunBlock(caches[i], layers[span.start + i], maxLength, hidden, prefixLength, chunkLength, replayFaults,
                    faults);
      if r.Ok? && prefixLength <= |l| {
        BlockFollows(p, span.start, span.start + i, before, l, prefixLength, rows);
        p.RunIsCausal(span.start, span.start + i, Fed(rows), prefixLength);
        assert p.block(span.start + i, caches[i].Log()) == Stateless(layers[span.start + i], caches[i].Log());
      } else if r.Ok? {
        assert caches[i].Log()[..|l|] == before[..|l|];
      }
    }

    /** The first n blocks have taken the rows and the others have not. */
    ghost predicate Halfway(n: nat, rows: seq<Row>, hidden: seq<Row>)
      reads this, footprint
    {
      && Separate() && n <= |caches| && |hidden| == |rows|
      && (forall j: nat | j < n :: BlockValid(j, Fed(rows)))
      && (forall j: nat | n <= j < |caches| :: BlockValid(j, log))
      && (prefixLength <= |log| ==>
            hidden == Suffix(PipelineOf(layers).Run(span.start, span.start + n, Fed(rows)), prefixLength))
    }

    lemma NobodyYet(rows: seq<Row>)
      requires Separate() && forall i: nat | i < |caches| :: BlockValid(i, log)
      ensures Halfway(0, rows, rows)
    {
    }

    method TakeTurn(i: nat, hidden: seq<Row>, ghost rows: seq<Row>, chunkLength: nat, replayFaults: nat -> bool,
      faults: nat -> bool)
      returns (r: Result<seq<Row>>)
      requires i < |caches| && Halfway(i, rows, hidden)
      requires rows != [] && prefixLength + |rows| <= maxLength && chunkLength >= 1
      modifies footprint
      ensures r.Ok? ==> Halfway(i + 1, rows, r.value)
      ensures prefixLength <= |log| && (forall k :: !faults(k) && !replayFaults(k)) ==> r.Ok?
    {
      hide BlockValid, Pipeline.Run, Suffix, PipelineOf;
      assert caches[i].Repr() <= footprint;
      ghost var now := Fed(rows);
      r := RunOne(i, hidden, rows, chunkLength, replayFaults, faults);
      assert Fed(rows) == now;
      if r.Ok? {
        forall j: nat | j < i ensures BlockValid(j, now) {
          assert caches[j].Repr() !! caches[i].Repr();
        }
        forall j: nat | i < j < |caches| ensures BlockValid(j, log) {
          assert caches[j].Repr() !! caches[i].Repr();
        }
      }
    }

    /** All blocks of the span in turn. */
    method RunBlocks(rows: seq<Row>, chunk: nat -> nat, replayFaults: (nat, nat) -> bool, faults: (nat, nat) -> bool)
      returns (r: Result<seq<Row>>)
      requires this !in footprint && Halfway(0, rows, rows)
      requires rows != [] && prefixLength + |rows| <= maxLength && forall i :: chunk(i) >= 1
      modifies footprint
      ensures r.Ok? ==> Halfway(|caches|, rows, r.value)
      ensures prefixLength <= |log| && (forall i, k :: !faults(i, k) && !replayFaults(i, k)) ==> r.Ok?
    {
      hide Halfway;
      var hidden := rows;
      for i := 0 to |caches|
        invariant Halfway(i, rows, hidden)
        invariant log == old(log) && prefixLength == old(prefixLength)
      {
        var done := TakeTurn(i, hidden, rows, chunk(i), (k: nat) => replayFaults(i, k), (k: nat) => faults(i, k));
        if done.Raised? {
          return Raised;
        }
        hidden := done.value;
      }
      r := Ok(hidden);
    }

    /**
     One request. Nothing compares the position it names with the prefix seen so far, but if those rows
     are still cached the answer is the one of the stateless blocks. A fault is a forward pass that raises.
     */
    method Infer(startFromPosition: Option<nat>, rows: seq<Row>, chunk: nat -> nat, replayFaults: (nat, nat) -> bool,
      faults: (nat, nat) -> bool)
      returns (r: Result<seq<Row>>)
      requires Valid() && forall i :: chunk(i) >= 1
      modifies this, footprint
      ensures Valid()
      ensures var start := if startFromPosition.Some? then startFromPosition.value else old(prefixLength);
              && (r.Ok? ==> prefixLength == start + |rows|)
              && (r.Ok? && start <= |old(log)| ==>
                    Answer(PipelineOf(layers), span, maxLength, old(log), start, rows) == Ok(SpanAnswer(log, r.value)))
              && (r.Ok? && start > |old(log)| ==> log == old(log))
              && ((forall i, k :: !faults(i, k) && !replayFaults(i, k)) && !old(broken) && start <= |old(log)| ==>
                    (r.Ok? <==> start + |rows| <= maxLength))
      ensures r.Raised? <==> broken
    {
      hide BlockValid, Pipeline.Run, PipelineOf;
      if broken {
        return Raised;
      }
      if startFromPosition.Some? {
        prefixLength := startFromPosition.value;
      }
      if prefixLength + |rows| > maxLength {
        broken := true;
        return Raised;
      }
      BlocksAreCausal(layers);
      ghost var now := Fed(rows);
      if rows == [] {
        r := Ok(rows);
        PipelineOf(layers).RunIsCausal(span.start, span.end, now, 0);
        assert prefixLength <= |log| ==> Suffix(PipelineOf(layers).Run(span.start, span.end, now), prefixLength) == [];
        forall i: nat | i < |caches| ensures BlockValid(i, now) {
          assert now == log[..|now|];
          ShorterIsHeld(i, log, |now|);
        }
      } else {
        NobodyYet(rows);
        r := RunBlocks(rows, chunk, replayFaults, faults);
        assert Fed(rows) == now;
      }
      if r.Raised? {
        broken := true;
      } else {
        assert forall i: nat | i < |caches| :: BlockValid(i, now);
        prefixLength, log := prefixLength + |rows|, now;
        forall i: nat | i < |caches| ensures BlockValid(i, log) {
          assert caches[i].Repr() <= footprint;
        }
      }
    }
  }
}
