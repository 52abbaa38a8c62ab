/** The rebalancing decision of a server: the search over placements as it runs, in place. */
module Rebalancing {
  import opened Common
  import opened Placements
  import opened SortedWindows
  import SpanTables

  class Span {
    var start: nat
    var end: int
    const throughput: real

    constructor (start: nat, end: int, throughput: real)
      ensures this.start == start && this.end == end && this.throughput == throughput
    {
      this.start, this.end, this.throughput := start, end, throughput;
    }

    /** Moves the span, keeping its length. */
    method MoveTo(newStart: nat)
      modifies this
      ensures start == newStart && end - start == old(end - start)
    {
      start, end := newStart, newStart + (end - start);
    }
  }

  /** The spans are those of swarm w, placed as in p. */
  ghost predicate Arranged(spans: seq<Span>, w: Swarm, p: seq<nat>)
    reads spans
  {
    && w.Valid() && IsPlacement(w, p) && |spans| == |p|
    && (forall i, j | 0 <= i < j < |spans| :: spans[i] != spans[j])
    && forall i | 0 <= i < |spans| ::
         && spans[i].start == p[i] && spans[i].end == p[i] + w.lengths[i]
         && spans[i].throughput == w.rates[i]
  }

  /** The array agrees with recomputation from the spans. */
  ghost predicate InSync(spans: seq<Span>, t: array<real>, w: Swarm, p: seq<nat>)
    reads spans, t
  {
    Arranged(spans, w, p) && t[..] == Loads(w, p)
  }

  /** Every span computed for a whole model lies inside it or is reversed with an empty slice. */
  lemma ComputedSpansArePlaced(modules: SpanTables.Announcements, peer: nat, minState: nat)
    ensures var e := SpanTables.EntryAfter(modules, peer, |modules|, 0, minState);
            e.Some? ==>
              && 0 <= e.value.start && e.value.end - e.value.start <= |modules|
              && IsPlace(|modules|, e.value.end - e.value.start, e.value.start)
  {
    var b := SpanTables.SpanIsNonemptyExactly(modules, peer, |modules|, 0, minState);
  }

  /** throughputs[start:end] += x */
  method AddOnSlice(t: array<real>, start: nat, end: int, x: real)
    modifies t
    ensures t[..] == Shifted(old(t[..]), start, SliceEnd(t.Length, end) - start, x)
  {
    var stop := SliceEnd(t.Length, end);
    forall b | start <= b < stop {
      t[b] := t[b] + x;
    }
  }

  /** The slice of a placed span holds exactly the blocks it serves. */
  lemma SliceOfPlace(t: seq<real>, length: int, start: nat, x: real)
    requires IsPlace(|t|, length, start)
    ensures Shifted(t, start, SliceEnd(|t|, start + length) - start, x) == Shifted(t, start, length, x)
  {
  }

  /** The same on the blocks of a span in its place. */
  method AddOnSpan(t: array<real>, span: Span, x: real)
    requires IsPlace(t.Length, span.end - span.start, span.start)
    modifies t
    ensures t[..] == Shifted(old(t[..]), span.start, span.end - span.start, x)
  {
    SliceOfPlace(t[..], span.end - span.start, span.start, x);
    AddOnSlice(t, span.start, span.end, x);
  }

  method ComputeThroughputs(spans: seq<Span>, blocks: nat, ghost w: Swarm, ghost p: seq<nat>) returns (t: array<real>)
    requires Arranged(spans, w, p) && w.blocks == blocks
    ensures fresh(t) && InSync(spans, t, w, p)
  {
    t := new real[blocks](_ => 0.0);
    for i := 0 to |spans|
      invariant forall b | 0 <= b < blocks :: t[b] == LoadOfFirst(w, p, i, b)
    {
      AddOnSpan(t, spans[i], spans[i].throughput);
      assert forall b | 0 <= b < blocks :: t[b] == t[..][b];
    }
  }

  /** One server's turn: take its share out, look for the best window, move there if it is another one. */
  method Reconsider(spans: seq<Span>, i: nat, t: array<real>, ghost w: Swarm, ghost p: seq<nat>) returns (moved: bool)
    requires i < |spans| && InSync(spans, t, w, p)
    modifies spans, t
    ensures InSync(spans, t, w, Move(w, p, i, BestResponse(w, p, i)))
    ensures moved <==> BestResponse(w, p, i) != p[i]
  {
    hide BestStart, Loads, Shifted, IsPlace;
    var span := spans[i];
    AddOnSpan(t, span, -(span.throughput * (1.0 + EPS)));
    ghost var base := t[..];
    assert base == Base(w, p, i);
    var newStart := BestStart(t[..], span.end - span.start);
    assert newStart == BestResponse(w, p, i);
    AddOnSpan(t, span, span.throughput * EPS);
    moved := span.start != newStart;
    if moved {
      span.MoveTo(newStart);
    }
    LoadsAfterMove(w, p, i, newStart);
    AddOnSpan(t, span, span.throughput);
    assert t[..] == Loads(w, Move(w, p, i, newStart));
  }

  ghost predicate IsOrder(order: seq<nat>, n: nat) {
    && |order| == n
    && (forall k | 0 <= k < n :: order[k] < n)
    && forall i: nat | i < n :: i in order
  }

  /** One pass of the search, in any order of the servers. */
  method RunPass(spans: seq<Span>, order: seq<nat>, t: array<real>, ghost w: Swarm, ghost p0: seq<nat>)
    returns (moved: bool, ghost p: seq<nat>)
    requires InSync(spans, t, w, p0) && IsOrder(order, |spans|)
    modifies spans, t
    ensures InSync(spans, t, w, p)
    ensures Progress(w, p0, p, order)
    ensures !moved || AllSettled(w, p0) ==> !moved && p == p0
  {
    hide Progress, Settled, BestResponse, Loads;
    moved, p := false, p0;
    NoVisitsYet(w, p0);
    for k := 0 to |order|
      invariant InSync(spans, t, w, p)
      invariant Progress(w, p0, p, order[..k])
      invariant !moved || AllSettled(w, p0) ==> !moved && p == p0
    {
      var i := order[k];
      var changed := Reconsider(spans, i, t, w, p);
      if AllSettled(w, p0) {
        SettledStays(w, p0, i);
      }
      VisitKeepsProgress(w, p0, p, order[..k], i);
      p := Move(w, p, i, BestResponse(w, p, i));
      moved := moved || changed;
      assert order[..k + 1] == order[..k] + [i];
    }
    assert order[..|order|] == order;
  }

  lemma NoVisitsYet(w: Swarm, p: seq<nat>)
    requires w.Valid() && IsPlacement(w, p)
    ensures Progress(w, p, p, [])
  {
  }

  lemma SettledStays(w: Swarm, p: seq<nat>, i: nat)
    requires w.Valid() && IsPlacement(w, p) && i < |p| && AllSettled(w, p)
    ensures BestResponse(w, p, i) == p[i]
  {
    assert Settled(w, p, i);
  }

  /** A pass that visits everyone either raises the throughputs or leaves everyone settled. */
  lemma PassEndsSettled(w: Swarm, p0: seq<nat>, p: seq<nat>, order: seq<nat>)
    requires w.Valid() && IsPlacement(w, p0) && IsPlacement(w, p) && IsOrder(order, |p|)
    requires Progress(w, p0, p, order)
    ensures Lower(Bag(w, p0), Bag(w, p)) || (AllSettled(w, p) && Bag(w, p) == Bag(w, p0))
    ensures p == p0 ==> AllSettled(w, p)
  {
    LowerIsIrreflexive(Bag(w, p));
  }

  /** The search: passes until one moves nothing. The measure proves that it stops for every swarm and shuffle. */
  method Search(spans: seq<Span>, shuffle: nat -> seq<nat>, t: array<real>, ghost w: Swarm, ghost p0: seq<nat>)
    returns (ghost p: seq<nat>)
    requires InSync(spans, t, w, p0)
    requires forall round :: IsOrder(shuffle(round), |spans|)
    modifies spans, t
    ensures InSync(spans, t, w, p)
    ensures AllSettled(w, p)
    ensures Progress(w, p0, p, [])
  {
    hide Progress, Settled, Lower, Bag, Loads;
    p := p0;
    var moved, round := true, 0;
    NoVisitsYet(w, p0);
    while moved
      invariant InSync(spans, t, w, p)
      invariant Progress(w, p0, p, [])
      invariant !moved ==> AllSettled(w, p)
      decreases Rank(w, p), if AllSettled(w, p) then 0 else 1, moved
    {
      ghost var before := p;
      var order := shuffle(round);
      moved, p := RunPass(spans, order, t, w, before);
      round := round + 1;
      PassEndsSettled(w, before, p, order);
      ProgressChains(w, p0, before, p, order);
      if Lower(Bag(w, before), Bag(w, p)) {
        RankDrops(w, before, p);
      }
    }
  }

  /** The condition under which the local server moves at all and the search is run. */
  ghost predicate LeavesItsPlace(w: Swarm, p: seq<nat>, local: nat)
    requires w.Valid() && IsPlacement(w, p) && local < |p| && w.blocks >= 1
  {
    && !(Least(Loads(w, p)) > EPS && Least(Base(w, p, local)) <= 0.0)
    && BestResponse(w, p, local) != p[local]
  }

  /** The load of block b from all servers but i. */
  ghost function LoadOfOthers(w: Swarm, p: seq<nat>, i: nat, b: int): real
    requires w.Valid() && IsPlacement(w, p) && i < |p|
  {
    LoadOfFirst(w.(rates := w.rates[i := 0.0]), p, |p|, b)
  }

  lemma {:induction false} OthersAndOwn(w: Swarm, p: seq<nat>, i: nat, k: nat, b: int)
    requires w.Valid() && IsPlacement(w, p) && i < |p| && k <= |p|
    ensures LoadOfFirst(w, p, k, b)
         == LoadOfFirst(w.(rates := w.rates[i := 0.0]), p, k, b)
            + if i < k && Serves(p[i], w.lengths[i], b) then w.rates[i] else 0.0
  {
    if k > 0 {
      OthersAndOwn(w, p, i, k - 1, b);
    }
  }

  /** Without its own share and a little more, a block has what the others give it, less that little. */
  lemma BaseIsOthers(w: Swarm, p: seq<nat>, i: nat, b: nat)
    requires w.Valid() && IsPlacement(w, p) && i < |p| && b < w.blocks
    ensures Base(w, p, i)[b]
         == LoadOfOthers(w, p, i, b) - if Serves(p[i], w.lengths[i], b) then w.rates[i] * EPS else 0.0
    ensures !Serves(p[i], w.lengths[i], b) ==> LoadOfOthers(w, p, i, b) == Loads(w, p)[b]
  {
    OthersAndOwn(w, p, i, |p|, b);
    assert w.rates[i] * (1.0 + EPS) == w.rates[i] + w.rates[i] * EPS;
  }

  /** The others give some block of this server hardly anything. */
  ghost predicate IsNeeded(w: Swarm, p: seq<nat>, i: nat)
    requires w.Valid() && IsPlacement(w, p) && i < |p|
  {
    exists b: nat :: Serves(p[i], w.lengths[i], b) && LoadOfOthers(w, p, i, b) <= w.rates[i] * EPS
  }

  lemma LeastBase(w: Swarm, p: seq<nat>, i: nat)
    requires w.Valid() && IsPlacement(w, p) && i < |p| && w.blocks >= 1 && Least(Loads(w, p)) > EPS
    ensures Least(Base(w, p, i)) <= 0.0 <==> IsNeeded(w, p, i)
  {
    forall b: nat | b < w.blocks
      ensures Base(w, p, i)[b] == LoadOfOthers(w, p, i, b)
                                  - if Serves(p[i], w.lengths[i], b) then w.rates[i] * EPS else 0.0
      ensures !Serves(p[i], w.lengths[i], b) ==> LoadOfOthers(w, p, i, b) == Loads(w, p)[b]
    {
      BaseIsOthers(w, p, i, b);
    }
    hide Loads, Base, LoadOfFirst, LoadOfOthers;
    if b: nat :| Serves(p[i], w.lengths[i], b) && LoadOfOthers(w, p, i, b) <= w.rates[i] * EPS {
      assert Least(Base(w, p, i)) <= Base(w, p, i)[b] <= 0.0;
    }
    if Least(Base(w, p, i)) <= 0.0 {
      var b: nat :| b < w.blocks && Base(w, p, i)[b] == Least(Base(w, p, i));
      assert Serves(p[i], w.lengths[i], b);
    }
  }

  /**
   The guard in terms of the other servers: in a connected swarm a server leaves only if they serve all its
   blocks without it, and in any other swarm nothing holds it.
   */
  lemma LeavesUnlessNeeded(w: Swarm, p: seq<nat>, i: nat)
    requires w.Valid() && IsPlacement(w, p) && i < |p| && w.blocks >= 1
    ensures LeavesItsPlace(w, p, i) <==>
            !(Least(Loads(w, p)) > EPS && IsNeeded(w, p, i)) && BestResponse(w, p, i) != p[i]
    ensures Least(Loads(w, p)) > EPS && !IsNeeded(w, p, i) ==>
              forall b: nat | b < w.blocks :: LoadOfOthers(w, p, i, b) > 0.0
  {
    if Least(Loads(w, p)) > EPS {
      LeastBase(w, p, i);
      forall b: nat | b < w.blocks && !IsNeeded(w, p, i) ensures LoadOfOthers(w, p, i, b) > 0.0 {
        BaseIsOthers(w, p, i, b);
        hide Loads, Base, LoadOfFirst, LoadOfOthers, BestResponse;
        assert Loads(w, p)[b] >= Least(Loads(w, p));
      }
    }
  }

  /** The local server's own move, unless it would cut the swarm or it is on its best place already. */
  method TryLocalMove(
    local: nat, spans: seq<Span>, t: array<real>, initialThroughput: real, ghost w: Swarm, ghost p: seq<nat>)
    returns (gone: bool)
    requires local < |spans| && InSync(spans, t, w, p) && w.blocks >= 1
    requires initialThroughput == Least(Loads(w, p))
    modifies spans, t
    ensures gone <==> LeavesItsPlace(w, p, local)
    ensures gone ==> InSync(spans, t, w, Move(w, p, local, BestResponse(w, p, local)))
    ensures !gone ==> Arranged(spans, w, p)
  {
    hide BestStart, Loads, Least, Shifted, IsPlace;
    var span := spans[local];
    AddOnSpan(t, span, -(span.throughput * (1.0 + EPS)));
    ghost var base := t[..];
    assert base == Base(w, p, local);
    if initialThroughput > EPS && Least(t[..]) <= 0.0 {
      return false;
    }
    var newStart := BestStart(t[..], span.end - span.start);
    assert newStart == BestResponse(w, p, local);
    if span.start == newStart {
      return false;
    }
    AddOnSpan(t, span, span.throughput * EPS);
    span.MoveTo(newStart);
    LoadsAfterMove(w, p, local, newStart);
    AddOnSpan(t, span, span.throughput);
    assert t[..] == Loads(w, Move(w, p, local, newStart));
    gone := true;
  }

  /**
   Should this server leave its blocks? The search is simulated on the spans it was given; the server must be
   among them, unless rebalancing is forced.
   */
  method ShouldChooseOtherBlocks(
    local: nat, spans: seq<Span>, blocks: nat, balanceQuality: real, shuffle: nat -> seq<nat>,
    ghost w: Swarm, ghost p0: seq<nat>)
    returns (r: Result<bool>, ghost p: seq<nat>)
    requires blocks == w.blocks >= 1 && Arranged(spans, w, p0)
    requires forall round :: IsOrder(shuffle(round), |spans|)
    modifies spans
    ensures Arranged(spans, w, p)
    ensures balanceQuality > 1.0 ==> r == Ok(true) && p == p0
    ensures r.Raised? <==> balanceQuality <= 1.0 && local >= |spans|
    ensures balanceQuality <= 1.0 && local < |spans|
            && ((Least(Loads(w, p0)) > EPS && IsNeeded(w, p0, local)) || BestResponse(w, p0, local) == p0[local]) ==>
              r == Ok(false) && p == p0
    ensures balanceQuality <= 1.0 && local < |spans|
            && (Least(Loads(w, p0)) > EPS ==> !IsNeeded(w, p0, local)) && BestResponse(w, p0, local) != p0[local] ==>
              && AllSettled(w, p)
              && Least(Loads(w, p0)) <= Least(Loads(w, p))
              && (r == Ok(true) <==> Least(Loads(w, p)) >= EPS
                                     && Least(Loads(w, p0)) / Least(Loads(w, p)) < balanceQuality - EPS)
    ensures balanceQuality <= 1.0 && Least(Loads(w, p0)) > EPS && r == Ok(true) ==>
              forall b: nat | b < blocks :: LoadOfOthers(w, p0, local, b) > 0.0
  {
    hide Settled, Progress, BestResponse, LeavesItsPlace, IsNeeded, Loads, Least, IsPlace, LoadOfOthers;
    p := p0;
    if balanceQuality > 1.0 {
      return Ok(true), p0;
    }
    var t := ComputeThroughputs(spans, blocks, w, p0);
    var initialThroughput := Least(t[..]);
    if local >= |spans| {
      return Raised, p0;
    }
    LeavesUnlessNeeded(w, p0, local);
    var gone := TryLocalMove(local, spans, t, initialThroughput, w, p0);
    if !gone {
      return Ok(false), p0;
    }
    ghost var first := Move(w, p0, local, BestResponse(w, p0, local));
    NoVisitsYet(w, p0);
    VisitKeepsProgress(w, p0, p0, [], local);
    p := Search(spans, shuffle, t, w, first);
    WeakerProgress(w, p0, first, [] + [local]);
    ProgressChains(w, p0, first, p, []);
    ProgressKeepsBottleneck(w, p0, p, []);
    var newThroughput := Least(t[..]);
    if newThroughput < initialThroughput || newThroughput < EPS {
      return Ok(false), p;
    }
    var actualQuality := initialThroughput / newThroughput;
    r := Ok(actualQuality < balanceQuality - EPS);
  }

  lemma WeakerProgress(w: Swarm, p0: seq<nat>, p: seq<nat>, visited: seq<nat>)
    requires w.Valid() && IsPlacement(w, p0) && IsPlacement(w, p) && Progress(w, p0, p, visited)
    ensures Progress(w, p0, p, [])
  {
  }
}
