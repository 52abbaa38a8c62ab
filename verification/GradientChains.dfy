/** A chain of blocks with prompts, its gradient by the chain rule, and the server's part of computing it. */
module GradientChains {
  import opened Common

  type Tensor = seq<Row>

  /**
   addPrompt: the block's deep prompt added to its input. backward: the gradient of the block's input
   from its prompted input and the gradient of its output. cut: the rows of that gradient which belong
   to the prompt.
   */
  datatype Chain = Chain(
    depth: nat, prompted: bool,
    addPrompt: (nat, Tensor) -> Tensor, forward: (nat, Tensor) -> Tensor,
    backward: (nat, Tensor, Tensor) -> Tensor, cut: (nat, Tensor) -> Tensor)
  {
    function Prompted(i: nat, x: Tensor): Tensor {
      if prompted then addPrompt(i, x) else x
    }

    /** Blocks a .. b - 1. */
    function Fwd(a: nat, b: nat, x: Tensor): Tensor
      decreases b
    {
      if b <= a then x else forward(b - 1, Prompted(b - 1, Fwd(a, b - 1, x)))
    }

    /** The gradient that leaves block b - 1 towards block b - 2. */
    function Through(a: nat, b: nat, x: Tensor, g: Tensor): Tensor
      requires a < b
    {
      backward(b - 1, Prompted(b - 1, Fwd(a, b - 1, x)), g)
    }

    /** The chain rule from the last block down: gradient of the input of block a. */
    function Grad(a: nat, b: nat, x: Tensor, g: Tensor): Tensor
      decreases b
    {
      if b <= a then g else Grad(a, b - 1, x, Through(a, b, x, g))
    }

    /** Gradients of the prompts of blocks a .. b - 1, in block order. */
    function PromptGrads(a: nat, b: nat, x: Tensor, g: Tensor): (r: seq<Tensor>)
      ensures prompted ==> |r| == if a < b then b - a else 0
      ensures !prompted ==> r == []
      decreases b
    {
      if b <= a || !prompted then []
      else PromptGrads(a, b - 1, x, Through(a, b, x, g)) + [cut(b - 1, Through(a, b, x, g))]
    }

    /** One step of the chain rule: the gradient passes the last block, and its prompt gets its share. */
    lemma {:induction false} LastBlockFirst(a: nat, b: nat, x: Tensor, g: Tensor, later: seq<Tensor>)
      requires a < b
      ensures var next := Through(a, b, x, g);
              && Grad(a, b, x, g) == Grad(a, b - 1, x, next)
              && PromptGrads(a, b, x, g) + later
                 == PromptGrads(a, b - 1, x, next) + if prompted then [cut(b - 1, next)] + later else later
    {
      hide Fwd;
    }

    lemma {:induction false} FwdComposes(a: nat, m: nat, b: nat, x: Tensor)
      requires a <= m <= b
      ensures Fwd(m, b, Fwd(a, m, x)) == Fwd(a, b, x)
      decreases b
    {
      if m < b {
        FwdComposes(a, m, b - 1, x);
      }
    }

    /** s holds the prompted inputs of the blocks from a on. */
    ghost predicate Kept(s: seq<Tensor>, a: nat, x: Tensor) {
      forall j | 0 <= j < |s| :: s[j] == Prompted(a + j, Fwd(a, a + j, x))
    }

    lemma {:induction false} KeptGrows(s: seq<Tensor>, a: nat, x: Tensor)
      requires Kept(s, a, x)
      ensures Kept(s + [Prompted(a + |s|, Fwd(a, a + |s|, x))], a, x)
    {
      hide Fwd;
    }

    lemma {:induction false} KeptAt(s: seq<Tensor>, a: nat, x: Tensor, i: nat)
      requires Kept(s, a, x) && a <= i < a + |s|
      ensures s[i - a] == Prompted(i, Fwd(a, i, x))
    {
      hide Fwd;
      assert a + (i - a) == i;
    }

    /** Differentiating the end of the chain first and the rest from there is the chain rule of the whole. */
    lemma {:induction false} GradSplits(a: nat, m: nat, b: nat, x: Tensor, g: Tensor)
      requires a <= m <= b
      ensures Grad(a, b, x, g) == Grad(a, m, x, Grad(m, b, Fwd(a, m, x), g))
      ensures PromptGrads(a, b, x, g)
           == PromptGrads(a, m, x, Grad(m, b, Fwd(a, m, x), g)) + PromptGrads(m, b, Fwd(a, m, x), g)
      decreases b
    {
      if m < b {
        FwdComposes(a, m, b - 1, x);
        GradSplits(a, m, b - 1, x, Through(a, b, x, g));
      }
    }
  }

  // ----- what the gradients mean -----

  /**
   A first-order calculus for a chain: a pairing of gradients with directions, the tangent of a block at its
   prompted input, the tangent of adding a prompt in the direction of the input, and the direction that a
   change of a prompt gives its block's input. slot pairs gradients and directions of a prompt.
   */
  datatype Calculus = Calculus(
    pairing: (Tensor, Tensor) -> real, slot: (nat, Tensor, Tensor) -> real,
    tangent: (nat, Tensor, Tensor) -> Tensor, shifted: (nat, Tensor, Tensor) -> Tensor, placed: (nat, Tensor) -> Tensor)
  {
    /**
     backward is the adjoint of the tangent at the input it is given, adding a prompt leaves directions as
     they are, and cut is the adjoint of placing a change of the prompt.
     */
    ghost predicate Fits(c: Chain) {
      && (forall i, y, g, d :: IsAdjoint(c, i, y, g, d))
      && (forall i, x, g, d :: KeepsDirections(i, x, g, d))
      && (forall i, g, d :: IsCut(c, i, g, d))
    }

    ghost predicate IsAdjoint(c: Chain, i: nat, y: Tensor, g: Tensor, d: Tensor) {
      pairing(c.backward(i, y, g), d) == pairing(g, tangent(i, y, d))
    }

    ghost predicate KeepsDirections(i: nat, x: Tensor, g: Tensor, d: Tensor) {
      pairing(g, shifted(i, x, d)) == pairing(g, d)
    }

    ghost predicate IsCut(c: Chain, i: nat, g: Tensor, d: Tensor) {
      slot(i, c.cut(i, g), d) == pairing(g, placed(i, d))
    }

    /** One block at one input, with or without a prompt. */
    lemma AdjointOfBlock(c: Chain, i: nat, x: Tensor, y: Tensor, g: Tensor, way: Tensor)
      requires Fits(c)
      ensures pairing(c.backward(i, y, g), way)
           == pairing(g, tangent(i, y, if c.prompted then shifted(i, x, way) else way))
    {
      var d := if c.prompted then shifted(i, x, way) else way;
      assert IsAdjoint(c, i, y, g, d);
      assert KeepsDirections(i, x, c.backward(i, y, g), way);
    }

    lemma AdjointOfPrompt(c: Chain, i: nat, y: Tensor, g: Tensor, change: Tensor)
      requires Fits(c)
      ensures slot(i, c.cut(i, c.backward(i, y, g)), change) == pairing(g, tangent(i, y, placed(i, change)))
    {
      assert IsAdjoint(c, i, y, g, placed(i, change));
      assert IsCut(c, i, c.backward(i, y, g), change);
    }
  }

  /**
   The blocks from a on as they run: hidden[k] comes to block a + k, which gets fed[k], the same with the
   prompt added if there are prompts, and makes hidden[k + 1] of it.
   */
  ghost predicate IsTrace(c: Chain, a: nat, hidden: seq<Tensor>, fed: seq<Tensor>) {
    && |hidden| == |fed| + 1
    && (forall k | 0 <= k < |fed| :: fed[k] == if c.prompted then c.addPrompt(a + k, hidden[k]) else hidden[k])
    && forall k | 0 <= k < |fed| :: hidden[k + 1] == c.forward(a + k, fed[k])
  }

  /** Directions carried along the trace from hidden[from] on: ways[k] is the direction at hidden[from + k]. */
  ghost predicate IsCarried(
    c: Chain, m: Calculus, a: nat, hidden: seq<Tensor>, fed: seq<Tensor>, from: nat, ways: seq<Tensor>)
  {
    && |hidden| == |fed| + 1 && from + |ways| == |hidden| && ways != []
    && forall k | 0 <= k < |ways| - 1 :: ways[k + 1] == Carried(c, m, a, hidden, fed, from + k, ways[k])
  }

  /** One block further. */
  function Carried(
    c: Chain, m: Calculus, a: nat, hidden: seq<Tensor>, fed: seq<Tensor>, k: nat, way: Tensor): Tensor
    requires k < |fed| < |hidden|
  {
    m.tangent(a + k, fed[k], if c.prompted then m.shifted(a + k, hidden[k], way) else way)
  }

  /** However the hidden states are written down, the chain of blocks ends in the last one. */
  lemma {:induction false} TraceIsChain(c: Chain, a: nat, hidden: seq<Tensor>, fed: seq<Tensor>, n: nat)
    requires IsTrace(c, a, hidden, fed) && n <= |fed|
    ensures c.Fwd(a, a + n, hidden[0]) == hidden[n]
    ensures n < |fed| ==> c.Prompted(a + n, c.Fwd(a, a + n, hidden[0])) == fed[n]
  {
    if n > 0 {
      TraceIsChain(c, a, hidden, fed, n - 1);
      assert hidden[n - 1 + 1] == c.forward(a + (n - 1), fed[n - 1]);
    }
  }

  /** Every input has a trace. */
  lemma {:induction false} TraceExists(c: Chain, a: nat, n: nat, x: Tensor)
    returns (hidden: seq<Tensor>, fed: seq<Tensor>)
    ensures IsTrace(c, a, hidden, fed) && |fed| == n && hidden[0] == x
  {
    if n == 0 {
      hidden, fed := [x], [];
    } else {
      hidden, fed := TraceExists(c, a, n - 1, x);
      var last := hidden[n - 1];
      var input := if c.prompted then c.addPrompt(a + n - 1, last) else last;
      hidden, fed := hidden + [c.forward(a + n - 1, input)], fed + [input];
    }
  }

  /**
   The chain rule: the input gradient paired with a direction is the output gradient paired with that direction
   carried through the blocks, at the inputs the blocks are really fed.
   */
  lemma {:induction false} GradIsAdjoint(
    c: Chain, m: Calculus, a: nat, hidden: seq<Tensor>, fed: seq<Tensor>, from: nat, n: nat, g: Tensor,
    ways: seq<Tensor>)
    requires m.Fits(c) && IsTrace(c, a, hidden, fed) && IsCarried(c, m, a, hidden, fed, from, ways)
    requires from <= n <= |fed|
    ensures m.pairing(c.Grad(a + from, a + n, hidden[from], g), ways[0]) == m.pairing(g, ways[n - from])
    decreases n
  {
    if from < n {
      hide Calculus.Fits, IsTrace, Chain.Through, Carried;
      var k := n - 1;
      assert a + n - 1 == a + k && a + k + 1 == a + n;
      StepIsAdjoint(c, m, a, hidden, fed, from, k, g, ways[k - from]);
      GradIsAdjoint(c, m, a, hidden, fed, from, k, c.Through(a + from, a + n, hidden[from], g), ways);
      assert ways[k - from + 1] == Carried(c, m, a, hidden, fed, from + (k - from), ways[k - from]);
    }
  }

  lemma TraceFrom(c: Chain, a: nat, hidden: seq<Tensor>, fed: seq<Tensor>, from: nat)
    requires IsTrace(c, a, hidden, fed) && from <= |fed|
    ensures IsTrace(c, a + from, hidden[from..], fed[from..])
  {
  }

  lemma ThroughIs(c: Chain, a: nat, b: nat, x: Tensor, g: Tensor)
    requires a <= b
    ensures c.Through(a, b + 1, x, g) == c.backward(b, c.Prompted(b, c.Fwd(a, b, x)), g)
  {
  }

  lemma ThroughWhole(c: Chain, a: nat, hidden: seq<Tensor>, fed: seq<Tensor>, n: nat, g: Tensor)
    requires IsTrace(c, a, hidden, fed) && n < |fed| < |hidden|
    ensures c.Through(a, a + n + 1, hidden[0], g) == c.backward(a + n, fed[n], g)
  {
    hide *;
    TraceIsChain(c, a, hidden, fed, n);
    ThroughIs(c, a, a + n, hidden[0], g);
  }

  lemma ThroughTrace(c: Chain, a: nat, hidden: seq<Tensor>, fed: seq<Tensor>, from: nat, k: nat, g: Tensor)
    requires IsTrace(c, a, hidden, fed) && from <= k < |fed| < |hidden|
    ensures c.Through(a + from, a + k + 1, hidden[from], g) == c.backward(a + k, fed[k], g)
  {
    hide *;
    TraceFrom(c, a, hidden, fed, from);
    ThroughWhole(c, a + from, hidden[from..], fed[from..], k - from, g);
    assert a + from + (k - from) == a + k;
  }

  /** One block: its gradient is the adjoint of carrying a direction through it, prompt and all. */
  lemma StepIsAdjoint(
    c: Chain, m: Calculus, a: nat, hidden: seq<Tensor>, fed: seq<Tensor>, from: nat, k: nat, g: Tensor, way: Tensor)
    requires m.Fits(c) && IsTrace(c, a, hidden, fed) && from <= k < |fed| < |hidden|
    ensures m.pairing(c.Through(a + from, a + k + 1, hidden[from], g), way)
         == m.pairing(g, Carried(c, m, a, hidden, fed, k, way))
  {
    hide Calculus.Fits, IsTrace, Chain.Through;
    ThroughTrace(c, a, hidden, fed, from, k, g);
    m.AdjointOfBlock(c, a + k, hidden[k], fed[k], g, way);
  }

  lemma LastPromptGrad(c: Chain, a: nat, n: nat, i: nat, x: Tensor, g: Tensor)
    requires c.prompted && i < n
    ensures var next := c.Through(a, a + n, x, g);
            c.PromptGrads(a, a + n, x, g)[i]
            == if i == n - 1 then c.cut(a + i, next) else c.PromptGrads(a, a + (n - 1), x, next)[i]
  {
    hide Chain.Through;
    assert a + n - 1 == a + (n - 1);
  }

  /**
   The gradient of the prompt of block a + i, paired with a change of that prompt, is the output gradient paired
   with what the change makes of the output.
   */
  lemma {:induction false} PromptGradIsAdjoint(
    c: Chain, m: Calculus, a: nat, hidden: seq<Tensor>, fed: seq<Tensor>, i: nat, n: nat, g: Tensor,
    change: Tensor, ways: seq<Tensor>)
    requires m.Fits(c) && c.prompted && IsTrace(c, a, hidden, fed) && i < n <= |fed| < |hidden|
    requires IsCarried(c, m, a, hidden, fed, i + 1, ways)
    requires ways[0] == m.tangent(a + i, fed[i], m.placed(a + i, change))
    ensures m.slot(a + i, c.PromptGrads(a, a + n, hidden[0], g)[i], change) == m.pairing(g, ways[n - i - 1])
    decreases n
  {
    hide Calculus.Fits, IsTrace, Chain.Through, Chain.PromptGrads, Carried;
    var k := n - 1;
    ThroughTrace(c, a, hidden, fed, 0, k, g);
    LastPromptGrad(c, a, n, i, hidden[0], g);
    assert a + 0 == a && a + k + 1 == a + n;
    if i == k {
      m.AdjointOfPrompt(c, a + k, fed[k], g, change);
    } else {
      PromptGradIsAdjoint(c, m, a, hidden, fed, i, k, c.Through(a, a + n, hidden[0], g), change, ways);
      StepIsAdjoint(c, m, a, hidden, fed, 0, k, g, ways[k - i - 1]);
      assert ways[k - i - 1 + 1] == Carried(c, m, a, hidden, fed, i + 1 + (k - i - 1), ways[k - i - 1]);
      assert i + 1 + (k - i - 1) == k;
    }
  }

  /** b - 1, b - 2, ..., a */
  function Down(b: nat, a: nat): seq<nat>
    decreases b
  {
    if b <= a then [] else [b - 1] + Down(b - 1, a)
  }

  lemma {:induction false} DownJoins(b: nat, m: nat, a: nat)
    requires a <= m <= b
    ensures Down(b, m) + Down(m, a) == Down(b, a)
    decreases b
  {
    if m < b {
      DownJoins(b - 1, m, a);
    }
  }

  lemma {:induction false} DownExtends(b: nat, a: nat)
    requires a < b
    ensures Down(b, a + 1) + [a] == Down(b, a)
  {
    DownJoins(b, a + 1, a);
    assert Down(a + 1, a) == [a] + Down(a, a);
  }

  lemma {:induction false} DownCounts(b: nat, a: nat, k: nat)
    requires a + k < b
    ensures |Down(b, a)| == b - a && Down(b, a)[k] == b - 1 - k
    decreases b
  {
    if a < b - 1 {
      DownCounts(b - 1, a, if k > 0 then k - 1 else 0);
    }
  }

  /** The blocks counted down contain each block once. */
  lemma {:induction false} DownIsOnceEach(b: nat, a: nat)
    ensures forall i: nat :: multiset(Down(b, a))[i] == if a <= i < b then 1 else 0
    decreases b
  {
    if a < b {
      DownIsOnceEach(b - 1, a);
    }
  }

  /** The server's forward pass over blocks a .. b - 1. */
  method RunRpcForward(c: Chain, a: nat, b: nat, x: Tensor) returns (out: Tensor)
    requires a <= b
    ensures out == c.Fwd(a, b, x)
  {
    out := x;
    for i := a to b
      invariant out == c.Fwd(a, i, x)
    {
      if c.prompted {
        out := c.addPrompt(i, out);
      }
      out := c.forward(i, out);
    }
  }

  /** The forward chain run for its prompted inputs; it stops before the last block, whose output nobody needs. */
  method KeepInputs(c: Chain, a: nat, b: nat, x: Tensor) returns (interInputs: seq<Tensor>)
    requires a < b
    ensures |interInputs| == b - a && c.Kept(interInputs, a, x)
  {
    interInputs := [];
    var inputs := x;
    for i := a to b - 1
      invariant inputs == c.Fwd(a, i, x)
      invariant |interInputs| == i - a
      invariant c.Kept(interInputs, a, x)
    {
      hide Chain.Kept;
      c.KeptGrows(interInputs, a, x);
      if c.prompted {
        inputs := c.addPrompt(i, inputs);
      }
      interInputs := interInputs + [inputs];
      inputs := c.forward(i, inputs);
    }
    c.KeptGrows(interInputs, a, x);
    if c.prompted {
      inputs := c.addPrompt(b - 1, inputs);
    }
    interInputs := interInputs + [inputs];
  }

  /** One turn of the loop below: block i is differentiated at the input kept for it. */
  lemma BackwardTurn(c: Chain, a: nat, x: Tensor, kept: seq<Tensor>, i: nat, g: Tensor, later: seq<Tensor>)
    requires c.Kept(kept, a, x) && a <= i < a + |kept|
    ensures var next := c.backward(i, kept[i - a], g);
            && c.Grad(a, i + 1, x, g) == c.Grad(a, i, x, next)
            && c.PromptGrads(a, i + 1, x, g) + later
               == c.PromptGrads(a, i, x, next) + if c.prompted then [c.cut(i, next)] + later else later
  {
    hide *;
    c.LastBlockFirst(a, i + 1, x, g, later);
    c.KeptAt(kept, a, x, i);
    ThroughIs(c, a, i, x, g);
    assert i + 1 - 1 == i;
  }

  /**
   The server's backward pass: the kept inputs, then the blocks in reverse. The prompt gradients are collected
   in reverse and turned around.
   */
  method RunRpcBackward(c: Chain, a: nat, b: nat, x: Tensor, gradOutput: Tensor)
    returns (grad: Tensor, promptGrads: seq<Tensor>, order: seq<nat>)
    requires a < b
    ensures grad == c.Grad(a, b, x, gradOutput)
    ensures promptGrads == c.PromptGrads(a, b, x, gradOutput)
    ensures order == Down(b, a)
  {
    var interInputs := KeepInputs(c, a, b, x);
    var reversed: seq<Tensor> := [];
    grad, order := gradOutput, [];
    for i := b downto a
      invariant c.Grad(a, b, x, gradOutput) == c.Grad(a, i, x, grad)
      invariant c.PromptGrads(a, b, x, gradOutput) == c.PromptGrads(a, i, x, grad) + Reversed(reversed)
      invariant order == Down(b, i)
    {
      hide *;
      BackwardTurn(c, a, x, interInputs, i, grad, Reversed(reversed));
      grad := c.backward(i, interInputs[i - a], grad);
      if c.prompted {
        ReversedPush(reversed, c.cut(i, grad));
        reversed := reversed + [c.cut(i, grad)];
      }
      DownExtends(b, i);
      order := order + [i];
    }
    promptGrads := Reversed(reversed);
  }

  function Reversed(s: seq<Tensor>): (r: seq<Tensor>) {
    if s == [] then [] else [s[|s| - 1]] + Reversed(s[..|s| - 1])
  }

  lemma {:induction false} ReversedPush(s: seq<Tensor>, t: Tensor)
    ensures Reversed(s + [t]) == [t] + Reversed(s)
  {
    assert (s + [t])[..|s|] == s;
  }
}
