/**
 The two gated delta rules of the linear-attention block, for one lane: one batch row, one
 head and one value column. Lanes never mix inside the rules, so the state of a lane is the
 column of the recurrent matrix that belongs to it.
 */
module GatedDelta {
  import opened Common
  import opened RealSums

  /** One position of a lane: query and key (normalised), value entry, log decay, write strength. */
  datatype Token = Token(q: seq<real>, k: seq<real>, v: real, g: real, beta: real)

  /** What both rules share: the key width, the query scale and the exponential. */
  datatype Kernel = Kernel(dim: nat, scale: real, exp: real -> real)

  /** The two facts about the exponential that the rules rely on. */
  ghost predicate IsExp(exp: real -> real) {
    && exp(0.0) == 1.0
    && forall x, y :: TurnsAddIntoMul(exp, x, y)
  }

  ghost predicate TurnsAddIntoMul(exp: real -> real, x: real, y: real) {
    exp(x + y) == exp(x) * exp(y)
  }

  function InitialState(m: Kernel, initial: Option<seq<real>>): seq<real> {
    if initial.Some? then initial.value else seq(m.dim, _ => 0.0)
  }

  // ----- the token recurrence -----

  function Decayed(m: Kernel, s: seq<real>, t: Token): seq<real> {
    seq(m.dim, r => At(s, r) * m.exp(t.g))
  }

  function Correction(m: Kernel, s: seq<real>, t: Token): real {
    (t.v - Dot(m.dim, Decayed(m, s, t), t.k)) * t.beta
  }

  /** The rank-one write. */
  function Written(m: Kernel, decayed: seq<real>, t: Token, delta: real): seq<real> {
    seq(m.dim, r => At(decayed, r) + At(t.k, r) * delta)
  }

  function Advance(m: Kernel, s: seq<real>, t: Token): seq<real> {
    Written(m, Decayed(m, s, t), t, Correction(m, s, t))
  }

  function Read(m: Kernel, s: seq<real>, t: Token): real {
    Sum(m.dim, r => At(s, r) * (At(t.q, r) * m.scale))
  }

  /**
   The gated delta rule entry by entry: the state decays, what it then predicts along the key is compared with
   the value, and the difference is written along the key with the strength of the token.
   */
  lemma DeltaRule(m: Kernel, s: seq<real>, t: Token, r: nat)
    requires r < m.dim
    ensures |Advance(m, s, t)| == m.dim
    ensures Advance(m, s, t)[r]
         == m.exp(t.g) * At(s, r) + At(t.k, r) * (t.beta * (t.v - m.exp(t.g) * Dot(m.dim, s, t.k)))
  {
    DecayedPredicts(m, s, t);
    hide *;
    DeltaEntry(m, s, t, r);
  }

  lemma DecayedPredicts(m: Kernel, s: seq<real>, t: Token)
    ensures Dot(m.dim, Decayed(m, s, t), t.k) == m.exp(t.g) * Dot(m.dim, s, t.k)
  {
    SumOfScaled(m.dim, m.exp(t.g), i => At(s, i) * At(t.k, i), i => At(Decayed(m, s, t), i) * At(t.k, i));
  }

  lemma DeltaEntry(m: Kernel, s: seq<real>, t: Token, r: nat)
    requires r < m.dim
    ensures |Advance(m, s, t)| == m.dim
    ensures Advance(m, s, t)[r]
         == m.exp(t.g) * At(s, r) + At(t.k, r) * (t.beta * (t.v - Dot(m.dim, Decayed(m, s, t), t.k)))
  {
    hide Dot;
    assert At(Decayed(m, s, t), r) == m.exp(t.g) * At(s, r);
  }

  /** What is read is the query's product with the state, scaled. */
  lemma ReadIsScaled(m: Kernel, s: seq<real>, t: Token)
    ensures Read(m, s, t) == m.scale * Dot(m.dim, t.q, s)
  {
    SumOfScaled(m.dim, m.scale, r => At(t.q, r) * At(s, r), r => At(s, r) * (At(t.q, r) * m.scale));
  }

  /** The state after the first n positions. */
  function StateAt(m: Kernel, s: seq<real>, ts: seq<Token>, n: nat): seq<real>
    requires n <= |ts|
  {
    if n == 0 then s else Advance(m, StateAt(m, s, ts, n - 1), ts[n - 1])
  }

  function StateAfter(m: Kernel, s: seq<real>, ts: seq<Token>): seq<real> {
    StateAt(m, s, ts, |ts|)
  }

  function OutputAt(m: Kernel, s: seq<real>, ts: seq<Token>, i: nat): real
    requires i < |ts|
  {
    Read(m, StateAt(m, s, ts, i + 1), ts[i])
  }

  function Outputs(m: Kernel, s: seq<real>, ts: seq<Token>): (out: seq<real>)
    ensures |out| == |ts|
  {
    seq(|ts|, i requires 0 <= i < |ts| => OutputAt(m, s, ts, i))
  }

  lemma {:induction false} StateAtFront(m: Kernel, s: seq<real>, xs: seq<Token>, ys: seq<Token>, n: nat)
    requires n <= |xs|
    ensures StateAt(m, s, xs + ys, n) == StateAt(m, s, xs, n)
  {
    hide Advance;
    if n > 0 {
      StateAtFront(m, s, xs, ys, n - 1);
    }
  }

  lemma {:induction false} StateAtBack(m: Kernel, s: seq<real>, xs: seq<Token>, ys: seq<Token>, n: nat)
    requires n <= |ys|
    ensures StateAt(m, s, xs + ys, |xs| + n) == StateAt(m, StateAfter(m, s, xs), ys, n)
  {
    hide Advance;
    if n == 0 {
      StateAtFront(m, s, xs, ys, |xs|);
    } else {
      StateAtBack(m, s, xs, ys, n - 1);
      assert (xs + ys)[|xs| + n - 1] == ys[n - 1];
    }
  }

  /** The recurrence obeys the split law: a sequence may be cut anywhere. */
  lemma {:induction false} RecurrenceSplits(m: Kernel, s: seq<real>, xs: seq<Token>, ys: seq<Token>)
    ensures StateAfter(m, s, xs + ys) == StateAfter(m, StateAfter(m, s, xs), ys)
    ensures Outputs(m, s, xs + ys) == Outputs(m, s, xs) + Outputs(m, StateAfter(m, s, xs), ys)
  {
    hide Advance, Read;
    StateAtBack(m, s, xs, ys, |ys|);
    forall i | 0 <= i < |xs + ys|
      ensures OutputAt(m, s, xs + ys, i) == (Outputs(m, s, xs) + Outputs(m, StateAfter(m, s, xs), ys))[i]
    {
      if i < |xs| {
        StateAtFront(m, s, xs, ys, i + 1);
      } else {
        StateAtBack(m, s, xs, ys, i - |xs| + 1);
      }
    }
  }

  /** The rule used for a single token: one pass, one state update per position. */
  method RecurrentRule(m: Kernel, ts: seq<Token>, initial: Option<seq<real>>)
    returns (out: seq<real>, state: seq<real>)
    ensures out == Outputs(m, InitialState(m, initial), ts)
    ensures state == StateAfter(m, InitialState(m, initial), ts)
  {
    hide Written, Decayed, Read, Dot, InitialState;
    var coreAttnOut := new real[|ts|];
    var start := InitialState(m, initial);
    state := start;
    for i := 0 to |ts|
      invariant state == StateAt(m, start, ts, i)
      invariant forall j | 0 <= j < i :: coreAttnOut[j] == OutputAt(m, start, ts, j)
    {
      var t := ts[i];
      var decayed := Decayed(m, state, t);
      var kvMem := Dot(m.dim, decayed, t.k);
      var delta := (t.v - kvMem) * t.beta;
      assert delta == Correction(m, state, t);
      assert StateAt(m, start, ts, i + 1) == Advance(m, state, t);
      state := Written(m, decayed, t, delta);
      coreAttnOut[i] := Read(m, state, t);
    }
    out := coreAttnOut[..];
  }
}
