/**
 Per-session block caches: the hybrid cache of a linear-attention block, which can rewind only by
 replaying its retained inputs, and the K/V cache of a full-attention block, which rewinds by slicing.
 */
module SessionCaches {
  import opened Common
  import opened GatedDelta
  import opened LinearMixer

  /** A linear-attention block: norm before the mixer; combine adds the residual and the row-wise MLP. */
  datatype Block = Block(mixer: Mixer, norm: Row -> Row, combine: (Row, Row) -> Row)

  function BlockState(b: Block, s: MixerState, xs: seq<Row>): (r: MixerState)
    requires s.Fits(b.mixer)
    ensures r.Fits(b.mixer)
  {
    PassState(b.mixer, s, Mapped(b.norm, xs))
  }

  function BlockRows(b: Block, s: MixerState, xs: seq<Row>): (r: seq<Row>)
    requires s.Fits(b.mixer)
    ensures |r| == |xs|
  {
    var mixed := PassRows(b.mixer, s, Mapped(b.norm, xs));
    seq(|xs|, t requires 0 <= t < |xs| => b.combine(mixed[t], xs[t]))
  }

  /** What the block computes on a whole sequence with no cache at all. */
  function StatelessPass(b: Block, xs: seq<Row>): (r: seq<Row>)
    ensures |r| == |xs|
  {
    BlockRows(b, Blank(b.mixer), xs)
  }

  function StateOf(b: Block, xs: seq<Row>): (r: MixerState)
    ensures r.Fits(b.mixer)
  {
    BlockState(b, Blank(b.mixer), xs)
  }

  lemma BlockSplits(b: Block, s: MixerState, xs: seq<Row>, ys: seq<Row>)
    requires s.Fits(b.mixer)
    ensures BlockState(b, s, xs + ys) == BlockState(b, BlockState(b, s, xs), ys)
    ensures BlockRows(b, s, xs + ys) == BlockRows(b, s, xs) + BlockRows(b, BlockState(b, s, xs), ys)
  {
    hide PassState, PassRows;
    assert Mapped(b.norm, xs + ys) == Mapped(b.norm, xs) + Mapped(b.norm, ys);
    PassSplits(b.mixer, s, Mapped(b.norm, xs), Mapped(b.norm, ys));
  }

  lemma NothingPassed(b: Block, s: MixerState)
    requires s.Fits(b.mixer)
    ensures BlockState(b, s, []) == s && BlockRows(b, s, []) == []
  {
    var none := Mapped(b.norm, []);
    assert LastWindow(b.mixer, s.conv, none) == s.conv;
    assert forall l: nat | l < b.mixer.lanes :: LaneState(b.mixer, s, none, l) == s.recurrent[l];
  }

  /** The row that is d places before position u of a fresh pass, normed and projected, or blank before the first. */
  function RowBefore(b: Block, xs: seq<Row>, u: nat, d: nat): Row
    requires u < |xs|
  {
    if d <= u then b.mixer.project(b.norm(xs[u - d])) else b.mixer.blank
  }

  /** Position u of one lane of a fresh pass. */
  function FreshToken(b: Block, xs: seq<Row>, l: nat, u: nat): Token
    requires u < |xs|
  {
    var w := b.mixer.window;
    b.mixer.lane(l, b.mixer.convolve(seq(w, j requires 0 <= j < w => RowBefore(b, xs, u, w - 1 - j))), b.norm(xs[u]))
  }

  /** All positions of one lane of a fresh pass. */
  function FreshTokens(b: Block, xs: seq<Row>, l: nat): (ts: seq<Token>)
    ensures |ts| == |xs|
  {
    seq(|xs|, u requires 0 <= u < |xs| => FreshToken(b, xs, l, u))
  }

  lemma FreshWindow(b: Block, xs: seq<Row>, u: nat)
    requires u < |xs|
    ensures var w := b.mixer.window;
            WindowAt(b.mixer, Blank(b.mixer).conv, Mapped(b.norm, xs), u)
            == seq(w, j requires 0 <= j < w => RowBefore(b, xs, u, w - 1 - j))
  {
    var m, conv, rows, w := b.mixer, Blank(b.mixer).conv, Mapped(b.norm, xs), b.mixer.window;
    var window, named := WindowAt(m, conv, rows, u), seq(w, j requires 0 <= j < w => RowBefore(b, xs, u, w - 1 - j));
    hide WindowAt;
    forall j: nat | j < w ensures window[j] == named[j] {
      WindowEntry(m, conv, rows, u, w - 1 - j);
    }
  }

  lemma FreshTokensAreSeen(b: Block, xs: seq<Row>, l: nat)
    ensures SeenTokens(b.mixer, Blank(b.mixer).conv, Mapped(b.norm, xs), l) == FreshTokens(b, xs, l)
  {
    var m, conv, rows := b.mixer, Blank(b.mixer).conv, Mapped(b.norm, xs);
    forall u: nat | u < |xs| ensures SeenTokens(m, conv, rows, l)[u] == FreshToken(b, xs, l, u) {
      FreshWindow(b, xs, u);
      hide WindowAt, RowBefore, Blank;
    }
    hide SeenTokens, FreshToken;
  }

  /** What the lanes read at position t of a fresh pass, from a state of zeros. */
  function FreshReadout(b: Block, xs: seq<Row>, t: nat): seq<real>
    requires t < |xs|
  {
    var m := b.mixer;
    seq(m.lanes, l requires 0 <= l < m.lanes =>
      OutputAt(m.kernel, seq(m.kernel.dim, _ => 0.0), FreshTokens(b, xs, l), t))
  }

  /** A row of the block with no cache, spelled out: each position over its own window, norm and residual around it. */
  lemma StatelessRow(b: Block, xs: seq<Row>, t: nat)
    requires t < |xs|
    ensures StatelessPass(b, xs)[t] == b.combine(b.mixer.finish(FreshReadout(b, xs, t), b.norm(xs[t])), xs[t])
  {
    var m, s, rows := b.mixer, Blank(b.mixer), Mapped(b.norm, xs);
    RowsSeeTheirWindows(m, s, rows, t);
    forall l: nat | l < m.lanes ensures SeenTokens(m, s.conv, rows, l) == FreshTokens(b, xs, l) {
      FreshTokensAreSeen(b, xs, l);
    }
    hide SeenTokens, FreshTokens, OutputAt, PassRows;
    assert forall l: nat | l < m.lanes :: s.recurrent[l] == seq(m.kernel.dim, _ => 0.0);
    hide Blank;
    assert SeenRow(m, s, rows, t) == m.finish(FreshReadout(b, xs, t), rows[t]) by {
      assert seq(m.lanes, l requires 0 <= l < m.lanes =>
                   OutputAt(m.kernel, s.recurrent[l], SeenTokens(m, s.conv, rows, l), t))
          == FreshReadout(b, xs, t);
    }
  }

  function Min(x: nat, y: nat): nat {
    if x <= y then x else y
  }

  class HybridCache {
    const block: Block
    const history: array<Row>
    var conv: seq<Row>
    var recurrent: seq<seq<real>>
    var position: nat
    ghost var log: seq<Row>

    /** The cache is the fold of the logical sequence; a fresh cache holds nothing that is read. */
    ghost predicate Valid()
      reads this, history
    {
      && block.mixer.Valid()
      && |log| == position <= history.Length
      && history[..position] == log
      && (position > 0 ==> MixerState(conv, recurrent) == StateOf(block, log))
    }

    constructor (block: Block, maxLength: nat, conv: seq<Row>, recurrent: seq<seq<real>>)
      requires block.mixer.Valid()
      ensures Valid() && log == [] && history.Length == maxLength && fresh(history) && this.block == block
    {
      this.block, this.conv, this.recurrent := block, conv, recurrent;
      history := new Row[maxLength](_ => []);
      position, log := 0, [];
    }

    /** Rebuilds the mixer state of a prefix from the retained inputs; the MLP is not recomputed. */
    method Replay(prefixLength: nat, chunkLength: nat, raises: nat -> bool) returns (r: Result<Option<MixerState>>)
      requires Valid() && prefixLength <= position && chunkLength >= 1
      ensures r.Ok? ==> (r.value.Some? ==> r.value.value.Fits(block.mixer))
                        && StateOr(block.mixer, r.value) == StateOf(block, log[..prefixLength])
      ensures r.Ok? && prefixLength > 0 ==> r.value.Some?
      ensures (forall k :: !raises(k)) ==> r.Ok?
    {
      hide BlockState, BlockRows, PassState, PassRows;
      var state: Option<MixerState> := None;
      var offset := 0;
      NothingPassed(block, Blank(block.mixer));
      while offset < prefixLength
        invariant 0 <= offset <= prefixLength
        invariant state.Some? ==> state.value.Fits(block.mixer)
        invariant offset > 0 ==> state.Some?
        invariant StateOr(block.mixer, state) == StateOf(block, log[..offset])
      {
        var end := Min(prefixLength, offset + chunkLength);
        var inputs := history[offset..end];
        if raises(offset) {
          return Raised;
        }
        var _, next := Forward(block.mixer, Mapped(block.norm, inputs), state);
        forall k | 0 <= k < |inputs| ensures inputs[k] == log[offset + k] {
          assert history[..position][offset + k] == history[offset + k];
        }
        assert inputs == log[offset..end] && log[..end] == log[..offset] + inputs;
        BlockSplits(block, Blank(block.mixer), log[..offset], inputs);
        StepIsBlockState(block, StateOr(block.mixer, state), inputs);
        state, offset := Some(next), end;
      }
      r := Ok(state);
    }

    /**
     One inference step: raises(k) tells whether the forward pass for offset k raises. The cache is
     committed only after all forward passes succeeded.
     */
    method InferenceWithCache(
      hidden: seq<Row>, prefixLength: nat, chunkLength: nat, replayRaises: nat -> bool, raises: nat -> bool)
      returns (r: Result<seq<Row>>)
      requires Valid() && |hidden| >= 1 && chunkLength >= 1 && prefixLength + |hidden| <= history.Length
      modifies this, history
      ensures Valid()
      ensures r.Ok? ==> prefixLength <= old(position)
                        && log == old(log[..prefixLength]) + hidden
                        && r.value == StatelessPass(block, log)[prefixLength..]
      ensures r.Raised? ==> log == old(log) && position == old(position) && conv == old(conv)
                            && recurrent == old(recurrent) && history[..] == old(history[..])
      ensures prefixLength <= old(position) && (forall k :: !raises(k) && !replayRaises(k)) ==> r.Ok?
    {
      hide BlockState, BlockRows, PassState, PassRows, StateOf;
      var state: Option<MixerState>;
      var kept := StateBefore(prefixLength, chunkLength, replayRaises);
      if kept.Raised? {
        return Raised;
      }
      state := kept.value;
      ghost var prefix := log[..prefixLength];
      ghost var start := StateOf(block, prefix);
      NothingPassed(block, start);
      var outputs: seq<Row>, offset := [], 0;
      while offset < |hidden|
        modifies {}
        invariant 0 <= offset <= |hidden|
        invariant state.Some? ==> state.value.Fits(block.mixer)
        invariant offset > 0 ==> state.Some?
        invariant StateOr(block.mixer, state) == BlockState(block, start, hidden[..offset])
        invariant outputs == BlockRows(block, start, hidden[..offset])
      {
        var end := Min(|hidden|, offset + chunkLength);
        var inputs := hidden[offset..end];
        if raises(offset) {
          return Raised;
        }
        var mixed, next := Forward(block.mixer, Mapped(block.norm, inputs), state);
        var out := seq(|inputs|, t requires 0 <= t < |inputs| => block.combine(mixed[t], inputs[t]));
        assert hidden[..end] == hidden[..offset] + inputs;
        BlockSplits(block, start, hidden[..offset], inputs);
        StepIsBlockState(block, StateOr(block.mixer, state), inputs);
        state, outputs, offset := Some(next), outputs + out, end;
      }
      assert hidden[..|hidden|] == hidden;
      WholeSequence(block, prefix, hidden);
      forall t | 0 <= t < |hidden| {
        history[prefixLength + t] := hidden[t];
      }
      conv, recurrent := state.value.conv, state.value.recurrent;
      position, log := prefixLength + |hidden|, prefix + hidden;
      assert history[..prefixLength] == prefix && history[prefixLength..position] == hidden;
      assert history[..position] == history[..prefixLength] + history[prefixLength..position];
      r := Ok(outputs);
    }

    /** The recurrent state to start from: none, the cached one, or a replayed one. */
    method StateBefore(prefixLength: nat, chunkLength: nat, raises: nat -> bool) returns (r: Result<Option<MixerState>>)
      requires Valid() && chunkLength >= 1
      ensures r.Ok? ==> prefixLength <= position
                        && (r.value.Some? ==> r.value.value.Fits(block.mixer))
                        && StateOr(block.mixer, r.value) == StateOf(block, log[..prefixLength])
      ensures prefixLength <= position && (forall k :: !raises(k)) ==> r.Ok?
    {
      hide BlockState, BlockRows, PassState, PassRows;
      if prefixLength == 0 {
        NothingPassed(block, Blank(block.mixer));
        assert log[..0] == [];
        return Ok(None);
      }
      if position == prefixLength {
        assert log[..prefixLength] == log;
        return Ok(Some(MixerState(conv, recurrent)));
      }
      if position < prefixLength {
        return Raised;
      }
      r := Replay(prefixLength, chunkLength, raises);
    }
  }

  lemma StepIsBlockState(b: Block, s: MixerState, xs: seq<Row>)
    requires s.Fits(b.mixer)
    ensures BlockState(b, s, xs) == PassState(b.mixer, s, Mapped(b.norm, xs))
    ensures BlockRows(b, s, xs) == seq(|xs|, t requires 0 <= t < |xs| =>
                                       b.combine(PassRows(b.mixer, s, Mapped(b.norm, xs))[t], xs[t]))
  {
  }

  lemma WholeSequence(b: Block, prefix: seq<Row>, hidden: seq<Row>)
    ensures StateOf(b, prefix + hidden) == BlockState(b, StateOf(b, prefix), hidden)
    ensures StatelessPass(b, prefix + hidden)[|prefix|..] == BlockRows(b, StateOf(b, prefix), hidden)
  {
    hide BlockState, BlockRows;
    BlockSplits(b, Blank(b.mixer), prefix, hidden);
  }
}
