/**
 The linear-attention mixer: a causal convolution over a sliding window feeding one gated delta
 rule per lane. The learned projections are parameters.
 */
module LinearMixer {
  import opened Common
  import opened GatedDelta
  import opened ChunkedDelta
  import opened RealSums

  /**
   project: the qkv projection of a row. convolve: one window of the causal convolution with its
   activation. lane: the token of one lane, from the convolved row and the input row. finish: the
   gated norm and the output projection, from all lanes' readouts and the input row.
   */
  datatype Mixer = Mixer(
    kernel: Kernel, window: nat, lanes: nat, blank: Row,
    project: Row -> Row, convolve: seq<Row> -> Row, lane: (nat, Row, Row) -> Token, finish: (seq<real>, Row) -> Row)
  {
    ghost predicate Valid() {
      IsExp(kernel.exp) && window >= 1
    }
  }

  /** What a session keeps of the past: the last inputs of the convolution and one state per lane. */
  datatype MixerState = MixerState(conv: seq<Row>, recurrent: seq<seq<real>>) {
    predicate Fits(m: Mixer) {
      && |conv| == m.window && |recurrent| == m.lanes
      && forall l | 0 <= l < m.lanes :: |recurrent[l]| == m.kernel.dim
    }
  }

  const CHUNK_SIZE := 64

  function Blank(m: Mixer): (s: MixerState)
    ensures s.Fits(m)
  {
    MixerState(seq(m.window, _ => m.blank), seq(m.lanes, _ => seq(m.kernel.dim, _ => 0.0)))
  }

  function StateOr(m: Mixer, past: Option<MixerState>): MixerState {
    if past.Some? then past.value else Blank(m)
  }

  function Mapped(f: Row -> Row, xs: seq<Row>): (r: seq<Row>)
    ensures |r| == |xs|
  {
    seq(|xs|, t requires 0 <= t < |xs| => f(xs[t]))
  }

  function MixedHistory(m: Mixer, conv: seq<Row>, xs: seq<Row>): (r: seq<Row>)
    ensures |r| == |conv| + |xs|
  {
    conv + Mapped(m.project, xs)
  }

  /** The token of a lane at position t: the window ends at that position. */
  function TokenOf(m: Mixer, conv: seq<Row>, xs: seq<Row>, l: nat, t: nat): Token
    requires |conv| == m.window && t < |xs|
  {
    m.lane(l, m.convolve(MixedHistory(m, conv, xs)[t + 1..t + 1 + m.window]), xs[t])
  }

  function LaneTokens(m: Mixer, conv: seq<Row>, xs: seq<Row>, l: nat): (ts: seq<Token>)
    requires |conv| == m.window
    ensures |ts| == |xs|
  {
    seq(|xs|, t requires 0 <= t < |xs| => TokenOf(m, conv, xs, l, t))
  }

  function LastWindow(m: Mixer, conv: seq<Row>, xs: seq<Row>): (r: seq<Row>)
    requires |conv| == m.window
    ensures |r| == m.window
  {
    MixedHistory(m, conv, xs)[|xs|..]
  }

  // ----- the meaning of a pass: every lane runs the token recurrence -----

  function PassState(m: Mixer, s: MixerState, xs: seq<Row>): (r: MixerState)
    requires s.Fits(m)
    ensures r.Fits(m)
  {
    MixerState(LastWindow(m, s.conv, xs), seq(m.lanes, l requires 0 <= l < m.lanes => LaneState(m, s, xs, l)))
  }

  function LaneState(m: Mixer, s: MixerState, xs: seq<Row>, l: nat): (r: seq<real>)
    requires s.Fits(m) && l < m.lanes
    ensures |r| == m.kernel.dim
  {
    StateWidth(m.kernel, s.recurrent[l], LaneTokens(m, s.conv, xs, l), |xs|);
    StateAfter(m.kernel, s.recurrent[l], LaneTokens(m, s.conv, xs, l))
  }

  function PassRow(m: Mixer, s: MixerState, xs: seq<Row>, t: nat): Row
    requires s.Fits(m) && t < |xs|
  {
    m.finish(Readout(m, s, xs, t), xs[t])
  }

  function PassRows(m: Mixer, s: MixerState, xs: seq<Row>): (r: seq<Row>)
    requires s.Fits(m)
    ensures |r| == |xs|
  {
    seq(|xs|, t requires 0 <= t < |xs| => PassRow(m, s, xs, t))
  }

  lemma TokensSplit(m: Mixer, conv: seq<Row>, xs: seq<Row>, ys: seq<Row>, l: nat)
    requires |conv| == m.window
    ensures LaneTokens(m, conv, xs + ys, l)
         == LaneTokens(m, conv, xs, l) + LaneTokens(m, LastWindow(m, conv, xs), ys, l)
    ensures LastWindow(m, conv, xs + ys) == LastWindow(m, LastWindow(m, conv, xs), ys)
  {
    var all, first := MixedHistory(m, conv, xs + ys), MixedHistory(m, conv, xs);
    var second := MixedHistory(m, LastWindow(m, conv, xs), ys);
    assert all == first + Mapped(m.project, ys);
    assert all[|xs|..] == second;
    forall t | 0 <= t < |xs + ys|
      ensures LaneTokens(m, conv, xs + ys, l)[t]
           == (LaneTokens(m, conv, xs, l) + LaneTokens(m, LastWindow(m, conv, xs), ys, l))[t]
    {
      if t < |xs| {
        assert all[t + 1..t + 1 + m.window] == first[t + 1..t + 1 + m.window];
      } else {
        var u := t - |xs|;
        assert all[t + 1..t + 1 + m.window] == second[u + 1..u + 1 + m.window];
      }
    }
  }

  /** The split law: a sequence may be fed in two passes, the second one starting from the state returned. */
  lemma PassSplits(m: Mixer, s: MixerState, xs: seq<Row>, ys: seq<Row>)
    requires s.Fits(m)
    ensures PassState(m, s, xs + ys) == PassState(m, PassState(m, s, xs), ys)
    ensures PassRows(m, s, xs + ys) == PassRows(m, s, xs) + PassRows(m, PassState(m, s, xs), ys)
  {
    var mid := PassState(m, s, xs);
    forall l: nat | l < m.lanes
      ensures LaneState(m, s, xs + ys, l) == LaneState(m, mid, ys, l)
    {
      TokensSplit(m, s.conv, xs, ys, l);
      RecurrenceSplits(m.kernel, s.recurrent[l], LaneTokens(m, s.conv, xs, l), LaneTokens(m, mid.conv, ys, l));
    }
    TokensSplit(m, s.conv, xs, ys, 0);
    forall t | 0 <= t < |xs + ys|
      ensures PassRow(m, s, xs + ys, t) == (PassRows(m, s, xs) + PassRows(m, mid, ys))[t]
    {
      RowSplits(m, s, xs, ys, t);
    }
  }

  function Readout(m: Mixer, s: MixerState, xs: seq<Row>, t: nat): seq<real>
    requires s.Fits(m) && t < |xs|
  {
    seq(m.lanes, l requires 0 <= l < m.lanes => OutputAt(m.kernel, s.recurrent[l], LaneTokens(m, s.conv, xs, l), t))
  }

  lemma LaneSplits(m: Mixer, s: MixerState, xs: seq<Row>, ys: seq<Row>, l: nat, t: nat)
    requires s.Fits(m) && t < |xs| + |ys| && l < m.lanes
    ensures Readout(m, s, xs + ys, t)[l]
         == if t < |xs| then Readout(m, s, xs, t)[l] else Readout(m, PassState(m, s, xs), ys, t - |xs|)[l]
  {
    hide OutputAt, TokenOf;
    var mid := PassState(m, s, xs);
    TokensSplit(m, s.conv, xs, ys, l);
    var first, second := LaneTokens(m, s.conv, xs, l), LaneTokens(m, mid.conv, ys, l);
    RecurrenceSplits(m.kernel, s.recurrent[l], first, second);
    assert Outputs(m.kernel, s.recurrent[l], first + second)[t]
        == (Outputs(m.kernel, s.recurrent[l], first) + Outputs(m.kernel, mid.recurrent[l], second))[t];
  }

  lemma RowSplits(m: Mixer, s: MixerState, xs: seq<Row>, ys: seq<Row>, t: nat)
    requires s.Fits(m) && t < |xs| + |ys|
    ensures PassRow(m, s, xs + ys, t)
         == if t < |xs| then PassRow(m, s, xs, t) else PassRow(m, PassState(m, s, xs), ys, t - |xs|)
  {
    hide OutputAt, PassState, LaneTokens;
    var mid := PassState(m, s, xs);
    forall l: nat | l < m.lanes
      ensures Readout(m, s, xs + ys, t)[l]
           == if t < |xs| then Readout(m, s, xs, t)[l] else Readout(m, mid, ys, t - |xs|)[l]
    {
      LaneSplits(m, s, xs, ys, l, t);
    }
    if t < |xs| {
      assert Readout(m, s, xs + ys, t) == Readout(m, s, xs, t);
    } else {
      assert Readout(m, s, xs + ys, t) == Readout(m, mid, ys, t - |xs|);
    }
  }

  // ----- which rows a position sees -----

  /** The projected row d places before position t: a row of this pass, or one kept from before it. */
  function PlacesBefore(m: Mixer, conv: seq<Row>, xs: seq<Row>, t: nat, d: nat): Row
    requires |conv| == m.window && t < |xs| && d < m.window
  {
    if d <= t then m.project(xs[t - d]) else conv[m.window - (d - t)]
  }

  /** What is convolved at position t: the rows up to its own, its own last. */
  function WindowAt(m: Mixer, conv: seq<Row>, xs: seq<Row>, t: nat): (r: seq<Row>)
    requires |conv| == m.window && t < |xs|
    ensures |r| == m.window
  {
    seq(m.window, j requires 0 <= j < m.window => PlacesBefore(m, conv, xs, t, m.window - 1 - j))
  }

  /** The tokens of a lane, each from its own window and its own row. */
  function SeenTokens(m: Mixer, conv: seq<Row>, xs: seq<Row>, l: nat): (ts: seq<Token>)
    requires |conv| == m.window
    ensures |ts| == |xs|
  {
    seq(|xs|, t requires 0 <= t < |xs| => m.lane(l, m.convolve(WindowAt(m, conv, xs, t)), xs[t]))
  }

  lemma WindowEntry(m: Mixer, conv: seq<Row>, xs: seq<Row>, t: nat, d: nat)
    requires |conv| == m.window && t < |xs| && d < m.window
    ensures WindowAt(m, conv, xs, t)[m.window - 1 - d]
         == if d <= t then m.project(xs[t - d]) else conv[m.window - (d - t)]
  {
    var j := m.window - 1 - d;
    assert WindowAt(m, conv, xs, t)[j] == PlacesBefore(m, conv, xs, t, m.window - 1 - j);
  }

  lemma HistoryEntry(m: Mixer, conv: seq<Row>, xs: seq<Row>, t: nat, d: nat)
    requires |conv| == m.window && t < |xs| && d < m.window
    ensures MixedHistory(m, conv, xs)[t + 1..t + 1 + m.window][m.window - 1 - d]
         == if d <= t then m.project(xs[t - d]) else conv[m.window - (d - t)]
  {
    var all, i := MixedHistory(m, conv, xs), t + m.window - d;
    assert all[t + 1..t + 1 + m.window][m.window - 1 - d] == all[i];
    if d <= t {
      assert all[i] == Mapped(m.project, xs)[t - d] == m.project(xs[t - d]);
    } else {
      assert all[i] == conv[i];
    }
  }

  lemma WindowIsSlice(m: Mixer, conv: seq<Row>, xs: seq<Row>, t: nat)
    requires |conv| == m.window && t < |xs|
    ensures MixedHistory(m, conv, xs)[t + 1..t + 1 + m.window] == WindowAt(m, conv, xs, t)
  {
    hide WindowAt, MixedHistory;
    var slice := MixedHistory(m, conv, xs)[t + 1..t + 1 + m.window];
    forall j | 0 <= j < m.window ensures slice[j] == WindowAt(m, conv, xs, t)[j] {
      WindowEntry(m, conv, xs, t, m.window - 1 - j);
      HistoryEntry(m, conv, xs, t, m.window - 1 - j);
    }
  }

  lemma TokensSeeTheirWindows(m: Mixer, conv: seq<Row>, xs: seq<Row>, l: nat)
    requires |conv| == m.window
    ensures LaneTokens(m, conv, xs, l) == SeenTokens(m, conv, xs, l)
    ensures xs != [] ==> LastWindow(m, conv, xs) == WindowAt(m, conv, xs, |xs| - 1)
  {
    forall t: nat | t < |xs|
      ensures MixedHistory(m, conv, xs)[t + 1..t + 1 + m.window] == WindowAt(m, conv, xs, t)
    {
      WindowIsSlice(m, conv, xs, t);
    }
    hide WindowAt, MixedHistory;
    assert |MixedHistory(m, conv, xs)| == |xs| + m.window;
  }

  /** Row t of a pass, from the windows of all positions up to it. */
  function SeenRow(m: Mixer, s: MixerState, xs: seq<Row>, t: nat): Row
    requires s.Fits(m) && t < |xs|
  {
    m.finish(seq(m.lanes, l requires 0 <= l < m.lanes =>
               OutputAt(m.kernel, s.recurrent[l], SeenTokens(m, s.conv, xs, l), t)), xs[t])
  }

  /** Every row of a pass is made from the row of its own position and the rows just before it. */
  lemma RowsSeeTheirWindows(m: Mixer, s: MixerState, xs: seq<Row>, t: nat)
    requires s.Fits(m) && t < |xs|
    ensures PassRows(m, s, xs)[t] == SeenRow(m, s, xs, t)
  {
    forall l: nat | l < m.lanes ensures LaneTokens(m, s.conv, xs, l) == SeenTokens(m, s.conv, xs, l) {
      TokensSeeTheirWindows(m, s.conv, xs, l);
    }
    hide LaneTokens, SeenTokens, OutputAt;
    assert Readout(m, s, xs, t)
        == seq(m.lanes, l requires 0 <= l < m.lanes =>
                 OutputAt(m.kernel, s.recurrent[l], SeenTokens(m, s.conv, xs, l), t));
  }

  lemma StateSeesItsWindow(m: Mixer, s: MixerState, xs: seq<Row>)
    requires s.Fits(m) && xs != []
    ensures PassState(m, s, xs).conv == WindowAt(m, s.conv, xs, |xs| - 1)
    ensures forall l: nat | l < m.lanes ::
              PassState(m, s, xs).recurrent[l] == StateAfter(m.kernel, s.recurrent[l], SeenTokens(m, s.conv, xs, l))
  {
    TokensSeeTheirWindows(m, s.conv, xs, 0);
    forall l: nat | l < m.lanes ensures LaneTokens(m, s.conv, xs, l) == SeenTokens(m, s.conv, xs, l) {
      TokensSeeTheirWindows(m, s.conv, xs, l);
    }
    hide LaneTokens, SeenTokens, StateAfter, WindowAt, LastWindow;
  }

  /** A mixer that shows the first entry of every row it convolves, whatever its state. */
  function Recorder(window: nat, blank: Row, project: Row -> Row, exp: real -> real): Mixer {
    Mixer(Kernel(1, 1.0, exp), window, window, blank, project,
          (rows: seq<Row>) => seq(|rows|, j requires 0 <= j < |rows| => Head(rows[j])),
          (l: nat, mixed: Row, x: Row) => Token([1.0], [1.0], At(mixed, l), 0.0, 1.0),
          (readouts: seq<real>, x: Row) => readouts)
  }

  function Head(row: Row): real {
    At(row, 0)
  }

  /** What one lane of the recorder reads is the value of its token. */
  lemma RecorderReadsValue(k: Kernel, s: seq<real>, ts: seq<Token>, t: nat)
    requires k.dim == 1 && k.scale == 1.0 && |s| == 1 && t < |ts|
    requires forall i | 0 <= i < |ts| :: ts[i] == Token([1.0], [1.0], ts[i].v, 0.0, 1.0)
    ensures OutputAt(k, s, ts, t) == ts[t].v
  {
    var before := StateAt(k, s, ts, t);
    assert StateAt(k, s, ts, t + 1) == Advance(k, before, ts[t]);
    var decayed := Decayed(k, before, ts[t]);
    assert Dot(1, decayed, [1.0]) == decayed[0];
    assert Advance(k, before, ts[t]) == [ts[t].v];
  }

  /**
   The recorder's output at position t is its own projected row last, the row d places back before it, and
   the kept window where the pass has no row that far back.
   */
  lemma RecorderShowsWindows(m: Mixer, s: MixerState, xs: seq<Row>, t: nat, d: nat)
    requires m == Recorder(m.window, m.blank, m.project, m.kernel.exp) && s.Fits(m) && t < |xs| && d < m.window
    ensures |PassRows(m, s, xs)[t]| == m.window
    ensures PassRows(m, s, xs)[t][m.window - 1 - d]
         == Head(if d <= t then m.project(xs[t - d]) else s.conv[m.window - (d - t)])
  {
    assert |s.conv| == m.window;
    hide *;
    RowsSeeTheirWindows(m, s, xs, t);
    RecorderReads(m, s, xs, t, m.window - 1 - d);
    WindowShows(m, s.conv, xs, t, d);
  }

  lemma RecorderReads(m: Mixer, s: MixerState, xs: seq<Row>, t: nat, l: nat)
    requires m == Recorder(m.window, m.blank, m.project, m.kernel.exp) && s.Fits(m) && t < |xs| && l < m.window
    ensures |SeenRow(m, s, xs, t)| == m.window && SeenRow(m, s, xs, t)[l] == SeenTokens(m, s.conv, xs, l)[t].v
  {
    var ts := SeenTokens(m, s.conv, xs, l);
    assert forall i | 0 <= i < |ts| :: ts[i] == Token([1.0], [1.0], ts[i].v, 0.0, 1.0);
    RecorderReadsValue(m.kernel, s.recurrent[l], ts, t);
    hide OutputAt, WindowAt, SeenTokens;
  }

  lemma WindowShows(m: Mixer, conv: seq<Row>, xs: seq<Row>, t: nat, d: nat)
    requires m == Recorder(m.window, m.blank, m.project, m.kernel.exp)
    requires |conv| == m.window && t < |xs| && d < m.window
    ensures SeenTokens(m, conv, xs, m.window - 1 - d)[t].v
         == Head(if d <= t then m.project(xs[t - d]) else conv[m.window - (d - t)])
  {
    var w, l := WindowAt(m, conv, xs, t), m.window - 1 - d;
    hide WindowAt, PlacesBefore;
    WindowEntry(m, conv, xs, t, d);
    assert m.convolve(w) == seq(|w|, j requires 0 <= j < |w| => Head(w[j]));
    assert At(m.convolve(w), l) == Head(w[l]);
  }

  // ----- the pass as it runs -----

  /** One forward pass of the mixer; a single row takes the recurrent rule, anything longer the blocked one. */
  method Forward(m: Mixer, xs: seq<Row>, past: Option<MixerState>) returns (out: seq<Row>, state: MixerState)
    requires m.Valid() && |xs| >= 1
    requires past.Some? ==> past.value.Fits(m)
    ensures out == PassRows(m, StateOr(m, past), xs)
    ensures state == PassState(m, StateOr(m, past), xs)
    ensures forall t | 0 <= t < |xs| :: out[t] == SeenRow(m, StateOr(m, past), xs, t)
    ensures state.conv == WindowAt(m, StateOr(m, past).conv, xs, |xs| - 1)
    ensures forall l: nat | l < m.lanes ::
              state.recurrent[l]
              == StateAfter(m.kernel, StateOr(m, past).recurrent[l], SeenTokens(m, StateOr(m, past).conv, xs, l))
  {
    hide OutputAt, StateAfter, SeenRow, WindowAt, SeenTokens;
    ghost var s := StateOr(m, past);
    var previous := if past.None? then seq(m.window, _ => m.blank) else past.value.conv;
    var mixedHistory := MixedHistory(m, previous, xs);
    var convState := mixedHistory[|mixedHistory| - m.window..];
    var readouts: seq<seq<real>>, recurrent: seq<seq<real>> := [], [];
    for l := 0 to m.lanes
      invariant |readouts| == |recurrent| == l
      invariant forall i | 0 <= i < l ::
                  readouts[i] == Outputs(m.kernel, s.recurrent[i], LaneTokens(m, s.conv, xs, i))
      invariant forall i | 0 <= i < l :: recurrent[i] == LaneState(m, s, xs, i)
    {
      var tokens := LaneTokens(m, previous, xs, l);
      var initial := if past.None? then None else Some(past.value.recurrent[l]);
      assert InitialState(m.kernel, initial) == s.recurrent[l];
      var rows, last;
      if |xs| == 1 {
        rows, last := RecurrentRule(m.kernel, tokens, initial);
      } else {
        rows, last := ChunkRule(m.kernel, tokens, CHUNK_SIZE, initial);
      }
      readouts, recurrent := readouts + [rows], recurrent + [last];
    }
    out := seq(|xs|, t requires 0 <= t < |xs| =>
      m.finish(seq(m.lanes, l requires 0 <= l < m.lanes => if t < |readouts[l]| then readouts[l][t] else 0.0), xs[t]));
    forall t | 0 <= t < |xs| ensures out[t] == PassRow(m, s, xs, t) {
      assert seq(m.lanes, l requires 0 <= l < m.lanes => if t < |readouts[l]| then readouts[l][t] else 0.0)
          == Readout(m, s, xs, t);
    }
    state := MixerState(convState, recurrent);
    StateSeesItsWindow(m, s, xs);
    forall t | 0 <= t < |xs| ensures out[t] == SeenRow(m, s, xs, t) {
      RowsSeeTheirWindows(m, s, xs, t);
    }
  }
}
