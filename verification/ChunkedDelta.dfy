/**
 The blocked form of the gated delta rule: inside a chunk the corrections of all positions are
 found at once from a unit lower-triangular system, and only whole chunks are chained.
 */
module ChunkedDelta {
  import opened Common
  import opened GatedDelta
  import opened RealSums
  import opened TriangularSolve

  function ZeroToken(m: Kernel): Token {
    Token(seq(m.dim, _ => 0.0), seq(m.dim, _ => 0.0), 0.0, 0.0, 0.0)
  }

  function TokenAt(c: seq<Token>, j: int): Token {
    if 0 <= j < |c| then c[j] else Token([], [], 0.0, 0.0, 0.0)
  }

  function Key(c: seq<Token>, j: int, r: int): real {
    At(TokenAt(c, j).k, r)
  }

  // ----- the tensors of one chunk -----

  /** Total log decay of the first i positions. */
  function LogDecay(c: seq<Token>, i: nat): real {
    if i == 0 then 0.0 else LogDecay(c, i - 1) + TokenAt(c, i - 1).g
  }

  /** Entry i of the running sum of g. */
  function CumG(c: seq<Token>, i: int): real {
    if i < 0 then 0.0 else LogDecay(c, i + 1)
  }

  function DecayMask(m: Kernel, c: seq<Token>, i: int, j: int): real {
    if j <= i then m.exp(CumG(c, i) - CumG(c, j)) else 0.0
  }

  /** k_beta. */
  function KeyBeta(c: seq<Token>, j: int, r: int): real {
    Key(c, j, r) * TokenAt(c, j).beta
  }

  function KeyRow(c: seq<Token>, i: int): int -> real {
    r => KeyBeta(c, i, r)
  }

  function QueryRow(m: Kernel, c: seq<Token>, i: int): int -> real {
    r => At(TokenAt(c, i).q, r) * m.scale
  }

  /** Entry (i, j) of a decayed product of a row with the transposed keys. */
  function Score(m: Kernel, c: seq<Token>, w: int -> real, i: int, j: int): real {
    Sum(m.dim, r => w(r) * Key(c, j, r)) * DecayMask(m, c, i, j)
  }

  /** attn before the row loop: masked on and above the diagonal. */
  function System(m: Kernel, c: seq<Token>, i: int, j: int): real {
    if 0 <= j < i then -Score(m, c, KeyRow(c, i), i, j) else 0.0
  }

  /** attn inside the chunk loop: masked above the diagonal. */
  function QueryScore(m: Kernel, c: seq<Token>, i: int, j: int): real {
    if j <= i then Score(m, c, QueryRow(m, c, i), i, j) else 0.0
  }

  /** Row j of k beta exp(g), whose product with T is k_cumdecay. */
  function DecayedKey(m: Kernel, c: seq<Token>, j: int, r: int): real {
    KeyBeta(c, j, r) * m.exp(CumG(c, j))
  }

  /** The part of a position's correction that only needs the state before the chunk. */
  function FromOutside(m: Kernel, s: seq<real>, c: seq<Token>, j: int): real {
    TokenAt(c, j).v * TokenAt(c, j).beta - Sum(m.dim, r => DecayedKey(m, c, j, r) * At(s, r))
  }

  // ----- the recurrence unrolled over a chunk -----

  function Delta(m: Kernel, s: seq<real>, c: seq<Token>, j: int): real {
    if 0 <= j < |c| then Correction(m, StateAt(m, s, c, j), c[j]) else 0.0
  }

  /** What position j < i contributes to component r of the state read at position i. */
  function Contribution(m: Kernel, s: seq<real>, c: seq<Token>, i: int, j: int, r: int): real {
    DecayMask(m, c, i, j) * (Key(c, j, r) * Delta(m, s, c, j))
  }

  lemma {:induction false} ExpStep(m: Kernel, x: real, y: real, g: real)
    requires IsExp(m.exp)
    ensures m.exp(x + g) == m.exp(g) * m.exp(x)
    ensures m.exp((x + g) - y) == m.exp(g) * m.exp(x - y)
  {
    assert TurnsAddIntoMul(m.exp, g, x);
    assert TurnsAddIntoMul(m.exp, g, x - y);
    assert g + (x - y) == (x + g) - y;
  }

  lemma {:induction false} Distribute(g: real, e: real, x: real, y: real)
    ensures (e * x + y) * g == (g * e) * x + g * y
  {
  }

  function Earlier(m: Kernel, s: seq<real>, c: seq<Token>, i: int, n: nat, r: int): real {
    Sum(n, j => Contribution(m, s, c, i, j, r))
  }

  lemma {:induction false} ContributionDecays(m: Kernel, s: seq<real>, c: seq<Token>, i: nat, j: nat, r: nat)
    requires IsExp(m.exp) && j < i < |c|
    ensures Contribution(m, s, c, i, j, r) == m.exp(c[i].g) * Contribution(m, s, c, i - 1, j, r)
  {
    hide Delta, Key, IsExp;
    ExpStep(m, CumG(c, i - 1), CumG(c, j), c[i].g);
  }

  lemma {:induction false} EarlierScales(m: Kernel, s: seq<real>, c: seq<Token>, i: nat, r: nat, a: real)
    requires 0 < i < |c|
    requires forall j | 0 <= j < i :: Contribution(m, s, c, i, j, r) == a * Contribution(m, s, c, i - 1, j, r)
    ensures Earlier(m, s, c, i, i, r) == a * Earlier(m, s, c, i - 1, i, r)
  {
    hide Contribution;
    SumOfScaled(i, a, j => Contribution(m, s, c, i - 1, j, r), j => Contribution(m, s, c, i, j, r));
  }

  /** One more position decays every earlier contribution by the same factor. */
  lemma {:induction false} EarlierDecays(m: Kernel, s: seq<real>, c: seq<Token>, i: nat, r: nat)
    requires IsExp(m.exp) && 0 < i < |c|
    ensures Earlier(m, s, c, i, i, r) == m.exp(c[i].g) * Earlier(m, s, c, i - 1, i, r)
  {
    hide *;
    forall j | 0 <= j < i
      ensures Contribution(m, s, c, i, j, r) == m.exp(c[i].g) * Contribution(m, s, c, i - 1, j, r)
    {
      ContributionDecays(m, s, c, i, j, r);
    }
    EarlierScales(m, s, c, i, r, m.exp(c[i].g));
  }

  lemma {:induction false} ExpOfCumG(m: Kernel, c: seq<Token>, i: nat)
    requires IsExp(m.exp) && i < |c|
    ensures m.exp(CumG(c, i)) == if i == 0 then m.exp(c[i].g) else m.exp(c[i].g) * m.exp(CumG(c, i - 1))
  {
    hide IsExp;
    if i == 0 {
      assert LogDecay(c, 1) == LogDecay(c, 0) + c[0].g;
    } else {
      ExpStep(m, CumG(c, i - 1), 0.0, c[i].g);
    }
  }

  lemma {:induction false} AdvanceAt(m: Kernel, s: seq<real>, c: seq<Token>, i: nat, r: nat)
    requires i < |c| && r < m.dim
    ensures At(StateAt(m, s, c, i + 1), r)
         == At(StateAt(m, s, c, i), r) * m.exp(c[i].g) + Key(c, i, r) * Delta(m, s, c, i)
  {
    hide Correction;
  }

  lemma {:induction false} LastContribution(m: Kernel, s: seq<real>, c: seq<Token>, i: nat, r: nat)
    requires IsExp(m.exp) && i < |c|
    ensures Earlier(m, s, c, i, i + 1, r) == Earlier(m, s, c, i, i, r) + Key(c, i, r) * Delta(m, s, c, i)
  {
    hide Delta, Key;
    assert CumG(c, i) - CumG(c, i) == 0.0;
  }

  lemma {:induction false} NothingEarlier(m: Kernel, s: seq<real>, c: seq<Token>, r: nat)
    ensures Earlier(m, s, c, 0, 0, r) == 0.0 && StateAt(m, s, c, 0) == s
  {
  }

  /** The state just before position i's write, in terms of the state before the chunk. */
  lemma {:induction false} DecayedClosedForm(m: Kernel, s: seq<real>, c: seq<Token>, i: nat, r: nat)
    requires IsExp(m.exp) && i < |c| && r < m.dim
    ensures At(StateAt(m, s, c, i), r) * m.exp(c[i].g)
         == m.exp(CumG(c, i)) * At(s, r) + Earlier(m, s, c, i, i, r)
    decreases i, 0
  {
    hide *;
    ExpOfCumG(m, c, i);
    if i == 0 {
      NothingEarlier(m, s, c, r);
    } else {
      ClosedForm(m, s, c, i - 1, r);
      EarlierDecays(m, s, c, i, r);
      Distribute(m.exp(c[i].g), m.exp(CumG(c, i - 1)), At(s, r), Earlier(m, s, c, i - 1, i, r));
    }
  }

  /** The state after position i, in terms of the state before the chunk. */
  lemma {:induction false} ClosedForm(m: Kernel, s: seq<real>, c: seq<Token>, i: nat, r: nat)
    requires IsExp(m.exp) && i < |c| && r < m.dim
    ensures At(StateAt(m, s, c, i + 1), r)
         == m.exp(CumG(c, i)) * At(s, r) + Earlier(m, s, c, i, i + 1, r)
    decreases i, 1
  {
    hide *;
    DecayedClosedForm(m, s, c, i, r);
    LastContribution(m, s, c, i, r);
    AdvanceAt(m, s, c, i, r);
  }

  // ----- the corrections solve the triangular system -----

  lemma {:induction false} Regroup(b: real, d: real, k: real, x: real)
    ensures b * (d * (k * x)) == (d * x) * (b * k)
  {
  }

  lemma {:induction false} WeightedColumn(m: Kernel, s: seq<real>, c: seq<Token>, w: int -> real, i: nat, j: nat)
    ensures Sum(m.dim, r => w(r) * Contribution(m, s, c, i, j, r)) == Score(m, c, w, i, j) * Delta(m, s, c, j)
  {
    hide Delta, Key, DecayMask;
    var f := r => w(r) * Key(c, j, r);
    var h := r => w(r) * Contribution(m, s, c, i, j, r);
    forall r | 0 <= r < m.dim ensures h(r) == (DecayMask(m, c, i, j) * Delta(m, s, c, j)) * f(r) {
      Regroup(w(r), DecayMask(m, c, i, j), Key(c, j, r), Delta(m, s, c, j));
    }
    SumOfScaled(m.dim, DecayMask(m, c, i, j) * Delta(m, s, c, j), f, h);
  }

  /** What a row w reads from the contributions of the first n positions. */
  lemma {:induction false} WeightedEarlier(
    m: Kernel, s: seq<real>, c: seq<Token>, w: int -> real, i: nat, n: nat)
    ensures Sum(m.dim, r => w(r) * Earlier(m, s, c, i, n, r))
         == Sum(n, j => Score(m, c, w, i, j) * Delta(m, s, c, j))
  {
    hide Contribution, Score, Delta, Sum;
    var grid: Matrix := (r, j) => w(r) * Contribution(m, s, c, i, j, r);
    forall r | 0 <= r < m.dim
      ensures w(r) * Earlier(m, s, c, i, n, r) == Sum(n, j => grid(r, j))
    {
      SumOfScaled(n, w(r), j => Contribution(m, s, c, i, j, r), j => grid(r, j));
    }
    SumCongruence(m.dim, r => w(r) * Earlier(m, s, c, i, n, r), r => Sum(n, j => grid(r, j)));
    SumSwap(m.dim, n, grid);
    forall j | 0 <= j < n
      ensures Sum(m.dim, r => grid(r, j)) == Score(m, c, w, i, j) * Delta(m, s, c, j)
    {
      WeightedColumn(m, s, c, w, i, j);
      SumCongruence(m.dim, r => grid(r, j), r => w(r) * Contribution(m, s, c, i, j, r));
    }
    SumCongruence(n, j => Sum(m.dim, r => grid(r, j)), j => Score(m, c, w, i, j) * Delta(m, s, c, j));
  }

  /** What a row w reads from a vector x that splits into a decayed old state and later contributions. */
  lemma {:induction false} WeightedState(
    m: Kernel, s: seq<real>, c: seq<Token>, w: int -> real, i: nat, n: nat, x: int -> real)
    requires forall r: nat | r < m.dim :: x(r) == m.exp(CumG(c, i)) * At(s, r) + Earlier(m, s, c, i, n, r)
    ensures Sum(m.dim, r => x(r) * w(r))
         == Sum(m.dim, r => (w(r) * m.exp(CumG(c, i))) * At(s, r))
            + Sum(n, j => Score(m, c, w, i, j) * Delta(m, s, c, j))
  {
    hide Earlier, Score, Delta, At, CumG;
    WeightedEarlier(m, s, c, w, i, n);
    var e := m.exp(CumG(c, i));
    forall r: nat | r < m.dim
      ensures x(r) * w(r) == (w(r) * e) * At(s, r) + w(r) * Earlier(m, s, c, i, n, r)
    {
      Spread(w(r), e, At(s, r), Earlier(m, s, c, i, n, r));
    }
    SumOfAdds(m.dim, r => (w(r) * m.exp(CumG(c, i))) * At(s, r), r => w(r) * Earlier(m, s, c, i, n, r),
              r => x(r) * w(r));
  }

  lemma {:induction false} Spread(w: real, e: real, x: real, y: real)
    ensures (e * x + y) * w == (w * e) * x + w * y
  {
  }

  lemma {:induction false} Rotate(x: real, k: real, b: real)
    ensures x * (k * b) == b * (x * k)
  {
  }

  lemma {:induction false} KeyRowReads(m: Kernel, c: seq<Token>, i: nat, decayed: seq<real>, x: int -> real)
    requires i < |c|
    requires forall r: nat | r < m.dim :: x(r) == At(decayed, r)
    ensures Sum(m.dim, r => x(r) * KeyRow(c, i)(r)) == c[i].beta * Dot(m.dim, decayed, c[i].k)
  {
    hide At;
    forall r: nat | r < m.dim
      ensures x(r) * KeyRow(c, i)(r) == c[i].beta * (At(decayed, r) * At(c[i].k, r))
    {
      Rotate(x(r), At(c[i].k, r), c[i].beta);
    }
    SumOfScaled(m.dim, c[i].beta, r => At(decayed, r) * At(c[i].k, r), r => x(r) * KeyRow(c, i)(r));
  }

  /** A position's correction is its value entry minus what its weighted key reads. */
  lemma {:induction false} CorrectionByKeyRow(m: Kernel, s: seq<real>, c: seq<Token>, i: nat, x: int -> real)
    requires i < |c|
    requires forall r: nat | r < m.dim :: x(r) == At(StateAt(m, s, c, i), r) * m.exp(c[i].g)
    ensures Delta(m, s, c, i) == c[i].v * c[i].beta - Sum(m.dim, r => x(r) * KeyRow(c, i)(r))
  {
    hide StateAt, KeyRow, Dot;
    KeyRowReads(m, c, i, Decayed(m, StateAt(m, s, c, i), c[i]), x);
  }

  function SystemOf(m: Kernel, c: seq<Token>): Matrix {
    (i, j) => System(m, c, i, j)
  }

  ghost function DeltaOf(m: Kernel, s: seq<real>, c: seq<Token>): int -> real {
    j => Delta(m, s, c, j)
  }

  lemma {:induction false} SystemRow(m: Kernel, s: seq<real>, c: seq<Token>, i: nat)
    requires i < |c|
    ensures Times(|c|, SystemOf(m, c), DeltaOf(m, s, c), i)
         == -Sum(i, j => Score(m, c, KeyRow(c, i), i, j) * Delta(m, s, c, j))
  {
    hide Score, Delta, KeyRow;
    var a, y := SystemOf(m, c), DeltaOf(m, s, c);
    forall j | i <= j < |c| ensures a(i, j) * y(j) == 0.0 {
      assert a(i, j) == 0.0;
    }
    SumStopsAt(i, |c|, j => a(i, j) * y(j));
    forall j | 0 <= j < i
      ensures a(i, j) * y(j) == -1.0 * (Score(m, c, KeyRow(c, i), i, j) * Delta(m, s, c, j))
    {
      assert a(i, j) == -Score(m, c, KeyRow(c, i), i, j);
    }
    SumOfScaled(i, -1.0, j => Score(m, c, KeyRow(c, i), i, j) * Delta(m, s, c, j), j => a(i, j) * y(j));
  }

  lemma {:induction false} OutsideByKeyRow(m: Kernel, s: seq<real>, c: seq<Token>, i: nat)
    requires i < |c|
    ensures FromOutside(m, s, c, i)
         == c[i].v * c[i].beta - Sum(m.dim, r => (KeyRow(c, i)(r) * m.exp(CumG(c, i))) * At(s, r))
  {
    hide At, CumG, KeyBeta;
    forall r | 0 <= r < m.dim
      ensures DecayedKey(m, c, i, r) * At(s, r) == (KeyRow(c, i)(r) * m.exp(CumG(c, i))) * At(s, r)
    {
    }
    SumCongruence(m.dim, r => DecayedKey(m, c, i, r) * At(s, r),
                  r => (KeyRow(c, i)(r) * m.exp(CumG(c, i))) * At(s, r));
  }

  ghost function DecayedStateOf(m: Kernel, s: seq<real>, c: seq<Token>, i: nat): int -> real
    requires i < |c|
  {
    r => At(StateAt(m, s, c, i), r) * m.exp(c[i].g)
  }

  lemma {:induction false} DecayedStateSplits(m: Kernel, s: seq<real>, c: seq<Token>, i: nat, r: nat)
    requires IsExp(m.exp) && i < |c| && r < m.dim
    ensures DecayedStateOf(m, s, c, i)(r) == m.exp(CumG(c, i)) * At(s, r) + Earlier(m, s, c, i, i, r)
    ensures DecayedStateOf(m, s, c, i)(r) == At(StateAt(m, s, c, i), r) * m.exp(c[i].g)
  {
    hide StateAt, CumG, Earlier, At, IsExp, Sum, LogDecay;
    DecayedClosedForm(m, s, c, i, r);
  }

  /** The corrections of a chunk solve y = x + A y, with x known from the state before the chunk. */
  lemma {:induction false} CorrectionsSolveSystem(m: Kernel, s: seq<real>, c: seq<Token>, i: nat)
    requires IsExp(m.exp) && i < |c|
    ensures Delta(m, s, c, i) == FromOutside(m, s, c, i) + Times(|c|, SystemOf(m, c), DeltaOf(m, s, c), i)
  {
    hide *;
    var x := DecayedStateOf(m, s, c, i);
    forall r: nat | r < m.dim
      ensures x(r) == m.exp(CumG(c, i)) * At(s, r) + Earlier(m, s, c, i, i, r)
      ensures x(r) == At(StateAt(m, s, c, i), r) * m.exp(c[i].g)
    {
      DecayedStateSplits(m, s, c, i, r);
    }
    CorrectionByKeyRow(m, s, c, i, x);
    WeightedState(m, s, c, KeyRow(c, i), i, i, x);
    SystemRow(m, s, c, i);
    OutsideByKeyRow(m, s, c, i);
  }

  // ----- one chunk: tensors prepared from its tokens, then applied to the incoming state -----

  function VBetaOf(c: seq<Token>): int -> real {
    j => TokenAt(c, j).v * TokenAt(c, j).beta
  }

  function DecayedKeyOf(m: Kernel, c: seq<Token>): Matrix {
    (j, r) => DecayedKey(m, c, j, r)
  }

  /** The product of T with the weighted values. */
  function ValueOf(m: Kernel, c: seq<Token>, t: Matrix, i: int): real {
    Times(|c|, t, VBetaOf(c), i)
  }

  function CumDecayOf(m: Kernel, c: seq<Token>, t: Matrix, i: int, r: int): real {
    Product(|c|, t, DecayedKeyOf(m, c), i, r)
  }

  /** v_new: the prepared value minus what the incoming state already holds. */
  function NewValue(m: Kernel, s: seq<real>, value: real, cumDecay: int -> real): real {
    value - Sum(m.dim, r => cumDecay(r) * At(s, r))
  }

  function HeldOf(m: Kernel, s: seq<real>, c: seq<Token>): int -> real {
    j => Sum(m.dim, r => DecayedKey(m, c, j, r) * At(s, r))
  }

  function OutsideOf(m: Kernel, s: seq<real>, c: seq<Token>): int -> real {
    j => FromOutside(m, s, c, j)
  }

  /** k_cumdecay applied to the state is T applied to what the decayed keys read from it. */
  lemma {:induction false} CumDecayReads(
    m: Kernel, s: seq<real>, c: seq<Token>, t: Matrix, cumDecay: int -> real, i: nat)
    requires forall r: nat | r < m.dim :: cumDecay(r) == CumDecayOf(m, c, t, i, r)
    ensures Sum(m.dim, r => cumDecay(r) * At(s, r)) == Times(|c|, t, HeldOf(m, s, c), i)
  {
    hide DecayedKey, At, Sum;
    var state := r => At(s, r);
    forall j: nat | j < |c| ensures HeldOf(m, s, c)(j) == Times(m.dim, DecayedKeyOf(m, c), state, j) {
      assert forall r :: DecayedKeyOf(m, c)(j, r) == DecayedKey(m, c, j, r);
      SumCongruence(m.dim, r => DecayedKey(m, c, j, r) * At(s, r), r => DecayedKeyOf(m, c)(j, r) * state(r));
    }
    TimesAssociates(|c|, m.dim, t, DecayedKeyOf(m, c), state, HeldOf(m, s, c), i);
    var product: Matrix := (p, j) => Product(|c|, t, DecayedKeyOf(m, c), p, j);
    forall r: nat | r < m.dim ensures cumDecay(r) * At(s, r) == product(i, r) * state(r) {
    }
    SumCongruence(m.dim, r => cumDecay(r) * At(s, r), r => product(i, r) * state(r));
  }

  /** T is linear, so the prepared tensors give T applied to the outside part. */
  lemma {:induction false} NewValueIsSolved(
    m: Kernel, s: seq<real>, c: seq<Token>, t: Matrix, cumDecay: int -> real, i: nat)
    requires forall r: nat | r < m.dim :: cumDecay(r) == CumDecayOf(m, c, t, i, r)
    ensures NewValue(m, s, ValueOf(m, c, t, i), cumDecay) == Times(|c|, t, OutsideOf(m, s, c), i)
  {
    hide DecayedKey, TokenAt, At, Sum, CumDecayOf;
    CumDecayReads(m, s, c, t, cumDecay, i);
    var outside, held := OutsideOf(m, s, c), HeldOf(m, s, c);
    forall j | 0 <= j < |c| ensures t(i, j) * VBetaOf(c)(j) == t(i, j) * outside(j) + t(i, j) * held(j) {
      assert outside(j) == VBetaOf(c)(j) - held(j);
    }
    SumOfAdds(|c|, j => t(i, j) * outside(j), j => t(i, j) * held(j), j => t(i, j) * VBetaOf(c)(j));
  }

  /** The heart of the blocked form: v_new holds exactly the corrections of the token recurrence. */
  lemma {:induction false} NewValueIsCorrection(
    m: Kernel, s: seq<real>, c: seq<Token>, cumDecay: int -> real, i: nat)
    requires IsExp(m.exp) && i < |c|
    requires forall r: nat | r < m.dim :: cumDecay(r) == CumDecayOf(m, c, SolverOf(SystemOf(m, c)), i, r)
    ensures NewValue(m, s, ValueOf(m, c, SolverOf(SystemOf(m, c)), i), cumDecay)
         == Correction(m, StateAt(m, s, c, i), c[i])
  {
    var t, x := SolverOf(SystemOf(m, c)), OutsideOf(m, s, c);
    var y := p => Times(|c|, t, x, p);
    NewValueIsSolved(m, s, c, t, cumDecay, i);
    assert Delta(m, s, c, i) == DeltaOf(m, s, c)(i) == Correction(m, StateAt(m, s, c, i), c[i]);
    hide *;
    SolvedIsUnique(m, s, c, y, i);
  }

  lemma {:induction false} SolvedIsUnique(m: Kernel, s: seq<real>, c: seq<Token>, y: int -> real, i: nat)
    requires IsExp(m.exp) && i < |c|
    requires forall p: nat | p < |c| :: y(p) == Times(|c|, SolverOf(SystemOf(m, c)), OutsideOf(m, s, c), p)
    ensures y(i) == DeltaOf(m, s, c)(i)
  {
    var a, x := SystemOf(m, c), OutsideOf(m, s, c);
    assert StrictlyLower(a);
    assert forall j: nat :: x(j) == FromOutside(m, s, c, j) && DeltaOf(m, s, c)(j) == Delta(m, s, c, j);
    hide *;
    forall p: nat | p < |c|
      ensures y(p) == x(p) + Times(|c|, a, y, p)
      ensures DeltaOf(m, s, c)(p) == x(p) + Times(|c|, a, DeltaOf(m, s, c), p)
    {
      SolverSolves(a, |c|, x, y, p);
      CorrectionsSolveSystem(m, s, c, p);
    }
    SolutionIsUnique(a, |c|, x, y, DeltaOf(m, s, c), i);
  }

  /** attn_inter + attn @ v_new. */
  function ChunkOutput(m: Kernel, s: seq<real>, c: seq<Token>, vNew: seq<real>, i: nat): real {
    Sum(m.dim, r => (QueryRow(m, c, i)(r) * m.exp(CumG(c, i))) * At(s, r))
    + Sum(|c|, j => QueryScore(m, c, i, j) * At(vNew, j))
  }

  /** The state handed to the next chunk. */
  function ChunkState(m: Kernel, s: seq<real>, c: seq<Token>, vNew: seq<real>): (r: seq<real>)
    ensures |r| == m.dim
  {
    seq(m.dim, r =>
      At(s, r) * m.exp(CumG(c, |c| - 1))
      + Sum(|c|, j => (Key(c, j, r) * m.exp(CumG(c, |c| - 1) - CumG(c, j))) * At(vNew, j)))
  }

  ghost predicate HoldsCorrections(m: Kernel, s: seq<real>, c: seq<Token>, vNew: seq<real>) {
    && |vNew| == |c|
    && forall j | 0 <= j < |c| :: vNew[j] == Delta(m, s, c, j)
  }

  lemma {:induction false} ScoresOnlyReachBack(m: Kernel, s: seq<real>, c: seq<Token>, vNew: seq<real>, i: nat)
    requires i < |c| && HoldsCorrections(m, s, c, vNew)
    ensures Sum(|c|, j => QueryScore(m, c, i, j) * At(vNew, j))
         == Sum(i + 1, j => Score(m, c, QueryRow(m, c, i), i, j) * Delta(m, s, c, j))
  {
    hide Score, Delta, QueryRow;
    var f := j => QueryScore(m, c, i, j) * At(vNew, j);
    forall j | i + 1 <= j < |c| ensures f(j) == 0.0 {
      assert QueryScore(m, c, i, j) == 0.0;
    }
    SumStopsAt(i + 1, |c|, f);
    SumCongruence(i + 1, f, j => Score(m, c, QueryRow(m, c, i), i, j) * Delta(m, s, c, j));
  }

  lemma {:induction false} QueryRowReads(m: Kernel, state: seq<real>, c: seq<Token>, i: nat, x: int -> real)
    requires i < |c|
    requires forall r: nat | r < m.dim :: x(r) == At(state, r)
    ensures Sum(m.dim, r => x(r) * QueryRow(m, c, i)(r)) == Read(m, state, c[i])
  {
    forall r: nat | r < m.dim
      ensures x(r) * QueryRow(m, c, i)(r) == At(state, r) * (At(c[i].q, r) * m.scale)
    {
      assert QueryRow(m, c, i)(r) == At(c[i].q, r) * m.scale;
    }
    SumCongruence(m.dim, r => x(r) * QueryRow(m, c, i)(r), r => At(state, r) * (At(c[i].q, r) * m.scale));
  }

  /** A chunk's output row is what the recurrence reads out at that position. */
  lemma {:induction false} ChunkOutputIsRecurrent(m: Kernel, s: seq<real>, c: seq<Token>, vNew: seq<real>, i: nat)
    requires IsExp(m.exp) && i < |c| && HoldsCorrections(m, s, c, vNew)
    ensures ChunkOutput(m, s, c, vNew, i) == OutputAt(m, s, c, i)
  {
    var state := StateAt(m, s, c, i + 1);
    assert OutputAt(m, s, c, i) == Read(m, state, c[i]) by {
      hide StateAt, Read;
    }
    assert ChunkOutput(m, s, c, vNew, i)
        == Sum(m.dim, r => (QueryRow(m, c, i)(r) * m.exp(CumG(c, i))) * At(s, r))
           + Sum(|c|, j => QueryScore(m, c, i, j) * At(vNew, j)) by {
      hide QueryRow, QueryScore, At, CumG;
    }
    hide *;
    var x := r => At(state, r);
    forall r: nat | r < m.dim
      ensures x(r) == m.exp(CumG(c, i)) * At(s, r) + Earlier(m, s, c, i, i + 1, r)
    {
      ClosedForm(m, s, c, i, r);
    }
    ScoresOnlyReachBack(m, s, c, vNew, i);
    WeightedState(m, s, c, QueryRow(m, c, i), i, i + 1, x);
    QueryRowReads(m, state, c, i, x);
  }

  lemma {:induction false} ChunkStateAt(m: Kernel, s: seq<real>, c: seq<Token>, vNew: seq<real>, i: nat, r: nat)
    requires i + 1 == |c| && r < m.dim && HoldsCorrections(m, s, c, vNew)
    ensures |ChunkState(m, s, c, vNew)| == m.dim
    ensures ChunkState(m, s, c, vNew)[r] == m.exp(CumG(c, i)) * At(s, r) + Earlier(m, s, c, i, i + 1, r)
  {
    hide Key, CumG, At, HoldsCorrections, Earlier, Sum;
    WrittenAcross(m, s, c, vNew, r);
  }

  lemma {:induction false} StateAtComponent(m: Kernel, s: seq<real>, c: seq<Token>, vNew: seq<real>, r: nat)
    requires IsExp(m.exp) && |c| > 0 && r < m.dim && HoldsCorrections(m, s, c, vNew)
    ensures ChunkState(m, s, c, vNew)[r] == At(StateAt(m, s, c, |c|), r)
  {
    hide *;
    var last := |c| - 1;
    ClosedForm(m, s, c, last, r);
    ChunkStateAt(m, s, c, vNew, last, r);
    assert last + 1 == |c|;
  }

  /** The state after a chunk is the recurrence's state. */
  lemma {:induction false} ChunkStateIsRecurrent(m: Kernel, s: seq<real>, c: seq<Token>, vNew: seq<real>)
    requires IsExp(m.exp) && |c| > 0 && HoldsCorrections(m, s, c, vNew)
    ensures ChunkState(m, s, c, vNew) == StateAfter(m, s, c)
  {
    assert |StateAt(m, s, c, |c|)| == m.dim by {
      hide Correction;
    }
    assert |ChunkState(m, s, c, vNew)| == m.dim by {
      hide At, Key, CumG;
    }
    hide StateAt, ChunkState, HoldsCorrections, IsExp;
    forall r: nat | r < m.dim
      ensures ChunkState(m, s, c, vNew)[r] == StateAt(m, s, c, |c|)[r]
    {
      StateAtComponent(m, s, c, vNew, r);
    }
  }

  lemma {:induction false} WrittenAcross(m: Kernel, s: seq<real>, c: seq<Token>, vNew: seq<real>, r: nat)
    requires |c| > 0 && HoldsCorrections(m, s, c, vNew)
    ensures Sum(|c|, j => (Key(c, j, r) * m.exp(CumG(c, |c| - 1) - CumG(c, j))) * At(vNew, j))
         == Earlier(m, s, c, |c| - 1, |c|, r)
  {
    hide Key, Delta, CumG;
    forall j | 0 <= j < |c|
      ensures (Key(c, j, r) * m.exp(CumG(c, |c| - 1) - CumG(c, j))) * At(vNew, j)
           == Contribution(m, s, c, |c| - 1, j, r)
    {
      Rotate(At(vNew, j), m.exp(CumG(c, |c| - 1) - CumG(c, j)), Key(c, j, r));
    }
    SumCongruence(|c|, j => (Key(c, j, r) * m.exp(CumG(c, |c| - 1) - CumG(c, j))) * At(vNew, j),
                  j => Contribution(m, s, c, |c| - 1, j, r));
  }

  // ----- padding -----

  lemma {:induction false} ZeroTokenKeepsState(m: Kernel, s: seq<real>)
    requires IsExp(m.exp) && |s| == m.dim
    ensures Advance(m, s, ZeroToken(m)) == s
  {
    hide Correction;
    var z := ZeroToken(m);
    forall r | 0 <= r < m.dim ensures Advance(m, s, z)[r] == s[r] {
      assert At(Decayed(m, s, z), r) == s[r] * 1.0;
      assert At(z.k, r) * Correction(m, s, z) == 0.0;
    }
  }

  function Padding(m: Kernel, n: nat): seq<Token> {
    seq(n, _ => ZeroToken(m))
  }

  /** Zero padding of the last chunk changes neither the state nor the outputs kept. */
  lemma {:induction false} PaddingIsInert(m: Kernel, s: seq<real>, ts: seq<Token>, n: nat)
    requires IsExp(m.exp) && |s| == m.dim
    ensures StateAfter(m, s, ts + Padding(m, n)) == StateAfter(m, s, ts)
    ensures Outputs(m, s, ts + Padding(m, n))[..|ts|] == Outputs(m, s, ts)
  {
    RecurrenceSplits(m, s, ts, Padding(m, n));
    hide Advance, Read;
    assert |StateAfter(m, s, ts)| == m.dim by {
      StateWidth(m, s, ts, |ts|);
    }
    PaddingKeepsState(m, StateAfter(m, s, ts), n, n);
  }

  lemma {:induction false} StateWidth(m: Kernel, s: seq<real>, ts: seq<Token>, n: nat)
    requires |s| == m.dim && n <= |ts|
    ensures |StateAt(m, s, ts, n)| == m.dim
  {
    hide Correction, Decayed;
  }

  lemma {:induction false} PaddingKeepsState(m: Kernel, s: seq<real>, n: nat, i: nat)
    requires IsExp(m.exp) && |s| == m.dim && i <= n
    ensures StateAt(m, s, Padding(m, n), i) == s
  {
    hide Advance, ZeroToken;
    if i > 0 {
      PaddingKeepsState(m, s, n, i - 1);
      ZeroTokenKeepsState(m, s);
    }
  }

  // ----- the blocked rule -----

  ghost predicate IsPrepared(m: Kernel, c: seq<Token>, value: seq<real>, cumDecay: seq<seq<real>>) {
    var t := SolverOf(SystemOf(m, c));
    && |value| == |cumDecay| == |c|
    && (forall i | 0 <= i < |c| :: value[i] == ValueOf(m, c, t, i))
    && (forall i | 0 <= i < |c| :: |cumDecay[i]| == m.dim)
    && (forall i, r | 0 <= i < |c| && 0 <= r < m.dim :: cumDecay[i][r] == CumDecayOf(m, c, t, i, r))
  }

  /** Value and k_cumdecay of one chunk: build the system, fold its rows, add the identity, multiply. */
  method PrepareChunk(m: Kernel, c: seq<Token>) returns (value: seq<real>, cumDecay: seq<seq<real>>)
    requires |c| >= 1
    ensures IsPrepared(m, c, value, cumDecay)
  {
    var n := |c|;
    var a := SystemOf(m, c);
    var attn := new real[n, n]((i, j) => a(i, j));
    SystemIsLower(m, c);
    FoldRows(attn, a);
    var rows: seq<seq<real>> := [];
    for i := 0 to n
      invariant |rows| == i
      invariant forall p | 0 <= p < i :: |rows[p]| == n
      invariant forall p, j | 0 <= p < i && 0 <= j < n :: rows[p][j] == SolverOf(a)(p, j)
    {
      rows := rows + [seq(n, j requires 0 <= j < n reads attn => attn[i, j] + if i == j then 1.0 else 0.0)];
    }
    var t: Matrix := (i, j) => if 0 <= i < |rows| then At(rows[i], j) else 0.0;
    value := seq(n, i => ValueOf(m, c, t, i));
    cumDecay := seq(n, i => seq(m.dim, r => CumDecayOf(m, c, t, i, r)));
    forall i | 0 <= i < n
      ensures value[i] == ValueOf(m, c, SolverOf(a), i)
      ensures forall r | 0 <= r < m.dim :: cumDecay[i][r] == CumDecayOf(m, c, SolverOf(a), i, r)
    {
      SameRowSameProducts(m, c, t, SolverOf(a), i);
    }
  }

  lemma {:induction false} SystemIsLower(m: Kernel, c: seq<Token>)
    ensures StrictlyLower(SystemOf(m, c))
  {
    hide Score;
  }

  lemma {:induction false} SameRowSameProducts(m: Kernel, c: seq<Token>, t: Matrix, u: Matrix, i: nat)
    requires forall j | 0 <= j < |c| :: t(i, j) == u(i, j)
    ensures ValueOf(m, c, t, i) == ValueOf(m, c, u, i)
    ensures forall r | 0 <= r < m.dim :: CumDecayOf(m, c, t, i, r) == CumDecayOf(m, c, u, i, r)
  {
    hide VBetaOf, DecayedKeyOf;
    SumCongruence(|c|, j => t(i, j) * VBetaOf(c)(j), j => u(i, j) * VBetaOf(c)(j));
    forall r | 0 <= r < m.dim ensures CumDecayOf(m, c, t, i, r) == CumDecayOf(m, c, u, i, r) {
      SumCongruence(|c|, j => t(i, j) * DecayedKeyOf(m, c)(j, r), j => u(i, j) * DecayedKeyOf(m, c)(j, r));
    }
  }

  /** One iteration of the chunk loop. */
  method ApplyChunk(m: Kernel, s: seq<real>, c: seq<Token>, value: seq<real>, cumDecay: seq<seq<real>>)
    returns (out: seq<real>, state: seq<real>)
    requires IsExp(m.exp) && |c| >= 1
    requires IsPrepared(m, c, value, cumDecay)
    ensures out == Outputs(m, s, c)
    ensures state == StateAfter(m, s, c)
  {
    hide IsExp, ValueOf, CumDecayOf, SystemOf, NewValue, ChunkOutput, ChunkState, Correction, StateAt, OutputAt;
    var n := |c|;
    var vNew := seq(n, i requires 0 <= i < n => NewValue(m, s, value[i], r => At(cumDecay[i], r)));
    forall i | 0 <= i < n ensures vNew[i] == Delta(m, s, c, i) {
      NewValueIsCorrection(m, s, c, r => At(cumDecay[i], r), i);
      assert Delta(m, s, c, i) == Correction(m, StateAt(m, s, c, i), c[i]);
    }
    out := seq(n, i requires 0 <= i < n => ChunkOutput(m, s, c, vNew, i));
    state := ChunkState(m, s, c, vNew);
    forall i | 0 <= i < n ensures out[i] == OutputAt(m, s, c, i) {
      ChunkOutputIsRecurrent(m, s, c, vNew, i);
    }
    ChunkStateIsRecurrent(m, s, c, vNew);
  }

  /** Reshaping into n rows of one chunk each. */
  function Chunks(ts: seq<Token>, size: nat, n: nat): (cs: seq<seq<Token>>)
    requires |ts| == n * size
    ensures |cs| == n && forall c | c in cs :: |c| == size
    ensures Joined(cs) == ts
  {
    if n == 0 then [] else
    assert |ts| - size == (n - 1) * size;
    var cs := Chunks(ts[..|ts| - size], size, n - 1);
    assert (cs + [ts[|ts| - size..]])[..|cs|] == cs;
    cs + [ts[|ts| - size..]]
  }

  function Joined(cs: seq<seq<Token>>): seq<Token> {
    if cs == [] then [] else Joined(cs[..|cs| - 1]) + cs[|cs| - 1]
  }

  lemma {:induction false} QuotientIsUnique(k: int, size: int, q: int, r: int)
    requires size >= 1 && k * size == q * size + r && 0 <= r < size
    ensures r == 0
  {
    assert (k - q) * size == r;
    MultipleIsFar(k - q, size);
  }

  lemma {:induction false} MultipleIsFar(d: int, size: int)
    requires size >= 1
    ensures d >= 1 ==> d * size >= size
    ensures d <= -1 ==> d * size <= -size
  {
  }

  function PadSize(n: nat, size: nat): nat
    requires size >= 1
  {
    (size - n % size) % size
  }

  /** Padding always completes the last chunk. */
  lemma {:induction false} PaddedToWholeChunks(n: nat, size: nat)
    requires size >= 1
    ensures (n + PadSize(n, size)) / size * size == n + PadSize(n, size)
  {
    Division(n, size);
    var gap := size - n % size;
    Division(gap, size);
    if n % size == 0 {
      QuotientIsUnique(1, size, gap / size, gap % size);
      WholeChunks(n + PadSize(n, size), size, n / size);
    } else {
      MultipleIsFar(gap / size, size);
      WholeChunks(n + PadSize(n, size), size, n / size + 1);
    }
  }

  lemma {:induction false} WholeChunks(total: nat, size: nat, k: nat)
    requires size >= 1 && total == k * size
    ensures total / size * size == total
  {
    Division(total, size);
    QuotientIsUnique(k, size, total / size, total % size);
  }

  lemma {:induction false} Division(n: nat, size: nat)
    requires size >= 1
    ensures n == n / size * size + n % size && 0 <= n % size < size
  {
  }

  lemma {:induction false} OneChunkMore(cs: seq<seq<Token>>, i: nat)
    requires i < |cs|
    ensures Joined(cs[..i + 1]) == Joined(cs[..i]) + cs[i]
  {
    assert cs[..i + 1][..i] == cs[..i];
  }

  /** The input in whole chunks, zero tokens filling up the last one. */
  function PaddedChunks(m: Kernel, ts: seq<Token>, size: nat): (cs: seq<seq<Token>>)
    requires size >= 1
    ensures forall c | c in cs :: |c| == size
    ensures Joined(cs) == ts + Padding(m, PadSize(|ts|, size))
  {
    var padSize := PadSize(|ts|, size);
    PaddedToWholeChunks(|ts|, size);
    Chunks(ts + Padding(m, padSize), size, (|ts| + padSize) / size)
  }

  /** The rule used for longer inputs: pad to whole chunks, prepare every chunk, then chain them. */
  method ChunkRule(m: Kernel, ts: seq<Token>, chunkSize: nat, initial: Option<seq<real>>)
    returns (out: seq<real>, state: seq<real>)
    requires IsExp(m.exp) && chunkSize >= 1
    requires initial.Some? ==> |initial.value| == m.dim
    ensures out == Outputs(m, InitialState(m, initial), ts)
    ensures state == StateAfter(m, InitialState(m, initial), ts)
  {
    hide IsExp, StateAt, StateAfter, Outputs, IsPrepared, PadSize, PaddedChunks, Padding, Joined;
    var padSize := PadSize(|ts|, chunkSize);
    var cs := PaddedChunks(m, ts, chunkSize);
    var values: seq<seq<real>>, cumDecays: seq<seq<seq<real>>> := [], [];
    for i := 0 to |cs|
      invariant |values| == |cumDecays| == i
      invariant forall p | 0 <= p < i :: IsPrepared(m, cs[p], values[p], cumDecays[p])
    {
      var value, cumDecay := PrepareChunk(m, cs[i]);
      values, cumDecays := values + [value], cumDecays + [cumDecay];
    }
    var start := InitialState(m, initial);
    var core: seq<real> := [];
    state := start;
    NothingYet(m, start);
    for i := 0 to |cs|
      invariant state == StateAfter(m, start, Joined(cs[..i]))
      invariant core == Outputs(m, start, Joined(cs[..i]))
    {
      var rows, next := ApplyChunk(m, state, cs[i], values[i], cumDecays[i]);
      RecurrenceSplits(m, start, Joined(cs[..i]), cs[i]);
      OneChunkMore(cs, i);
      core, state := core + rows, next;
    }
    assert cs[..|cs|] == cs;
    PaddingIsInert(m, start, ts, padSize);
    out := core[..|ts|];
  }

  lemma {:induction false} NothingYet(m: Kernel, s: seq<real>)
    ensures StateAfter(m, s, []) == s && Outputs(m, s, []) == [] && Joined([]) == []
  {
  }
}
