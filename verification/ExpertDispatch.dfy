/**
 Sparse expert dispatch: one pass per expert that was hit, scattering into the output, against the
 token-by-token weighted sum. Rows are seen through one output coordinate, so an expert is a function
 from a token to a real.
 */
module ExpertDispatch {
  import opened RealSums

  /** experts: index[t][j] and weights[t][j] are the j-th chosen expert of token t and its weight. */
  datatype Dispatch = Dispatch(experts: nat, topK: nat, index: seq<seq<nat>>, weights: seq<seq<real>>) {
    ghost predicate Valid() {
      && |index| == |weights|
      && (forall t | 0 <= t < |index| :: |index[t]| == |weights[t]| == topK)
      && forall t, j | 0 <= t < |index| && 0 <= j < topK :: index[t][j] < experts
    }

    /** Contribution of slot j of token t if its expert is below e. */
    ghost function Slot(expert: (nat, nat) -> real, t: nat, j: int, e: nat): real
      requires Valid() && t < |index|
    {
      if 0 <= j < topK && index[t][j] < e then expert(index[t][j], t) * weights[t][j] else 0.0
    }

    ghost function FromExpertsBelow(expert: (nat, nat) -> real, t: nat, e: nat): real
      requires Valid() && t < |index|
    {
      Sum(topK, j => Slot(expert, t, j, e))
    }

    /** The token-major meaning: every token's weighted sum over its chosen experts. */
    ghost function Combined(expert: (nat, nat) -> real, t: nat): real
      requires Valid() && t < |index|
    {
      Sum(topK, j => if 0 <= j < topK then expert(index[t][j], t) * weights[t][j] else 0.0)
    }

    /** What the slots before j of token t get from expert e alone. */
    ghost function FromExpert(expert: (nat, nat) -> real, t: nat, e: nat, j: nat): real
      requires Valid() && t < |index|
    {
      Sum(j, k => if 0 <= k < topK && index[t][k] == e then expert(e, t) * weights[t][k] else 0.0)
    }

    lemma OneMorePosition(expert: (nat, nat) -> real, t: nat, e: nat, j: nat)
      requires Valid() && t < |index| && j < topK
      ensures FromExpert(expert, t, e, j + 1)
           == FromExpert(expert, t, e, j) + if index[t][j] == e then expert(e, t) * weights[t][j] else 0.0
    {
    }

    predicate Hit(e: nat)
      requires Valid()
    {
      exists t: nat, j: nat | t < |index| && j < topK :: index[t][j] == e
    }

    lemma OneMoreExpert(expert: (nat, nat) -> real, t: nat, e: nat)
      requires Valid() && t < |index|
      ensures FromExpertsBelow(expert, t, e + 1) == FromExpertsBelow(expert, t, e) + FromExpert(expert, t, e, topK)
    {
      SumOfAdds(topK, j => Slot(expert, t, j, e),
                k => if 0 <= k < topK && index[t][k] == e then expert(e, t) * weights[t][k] else 0.0,
                j => Slot(expert, t, j, e + 1));
    }

    lemma MissedExpertGivesNothing(expert: (nat, nat) -> real, t: nat, e: nat)
      requires Valid() && t < |index| && !Hit(e)
      ensures FromExpert(expert, t, e, topK) == 0.0
    {
      SumIsZero(topK, k => if 0 <= k < topK && index[t][k] == e then expert(e, t) * weights[t][k] else 0.0);
    }

    lemma AllExperts(expert: (nat, nat) -> real, t: nat)
      requires Valid() && t < |index|
      ensures FromExpertsBelow(expert, t, experts) == Combined(expert, t)
      ensures FromExpertsBelow(expert, t, 0) == 0.0
    {
      SumCongruence(topK, j => Slot(expert, t, j, experts),
                    j => if 0 <= j < topK then expert(index[t][j], t) * weights[t][j] else 0.0);
      SumIsZero(topK, j => Slot(expert, t, j, 0));
    }
  }

  /** The mask of one expert, position-major as torch.where lists it, scattered into the output. */
  method ScatterExpert(d: Dispatch, expert: (nat, nat) -> real, e: nat, out: array<real>)
    requires d.Valid() && out.Length == |d.index|
    modifies out
    ensures forall t | 0 <= t < out.Length :: out[t] == old(out[t]) + d.FromExpert(expert, t, e, d.topK)
  {
    for j := 0 to d.topK
      invariant forall t | 0 <= t < out.Length :: out[t] == old(out[t]) + d.FromExpert(expert, t, e, j)
    {
      for t := 0 to out.Length
        invariant forall u | 0 <= u < t :: out[u] == old(out[u]) + d.FromExpert(expert, u, e, j + 1)
        invariant forall u | t <= u < out.Length :: out[u] == old(out[u]) + d.FromExpert(expert, u, e, j)
      {
        hide Dispatch.FromExpert;
        d.OneMorePosition(expert, t, e, j);
        if d.index[t][j] == e {
          out[t] := out[t] + expert(e, t) * d.weights[t][j];
        }
      }
    }
  }

  /** Expert-major dispatch gives every token its weighted sum, for every routing. */
  method DispatchExperts(d: Dispatch, expert: (nat, nat) -> real) returns (out: array<real>)
    requires d.Valid()
    ensures fresh(out) && out.Length == |d.index|
    ensures forall t | 0 <= t < out.Length :: out[t] == d.Combined(expert, t)
  {
    out := new real[|d.index|](_ => 0.0);
    forall t | 0 <= t < out.Length ensures d.FromExpertsBelow(expert, t, 0) == 0.0 {
      d.AllExperts(expert, t);
    }
    for e := 0 to d.experts
      invariant forall t | 0 <= t < out.Length :: out[t] == d.FromExpertsBelow(expert, t, e)
    {
      forall t | 0 <= t < out.Length
        ensures d.FromExpertsBelow(expert, t, e + 1)
             == d.FromExpertsBelow(expert, t, e) + d.FromExpert(expert, t, e, d.topK)
        ensures !d.Hit(e) ==> d.FromExpert(expert, t, e, d.topK) == 0.0
      {
        d.OneMoreExpert(expert, t, e);
        if !d.Hit(e) {
          d.MissedExpertGivesNothing(expert, t, e);
        }
      }
      if d.Hit(e) {
        ScatterExpert(d, expert, e, out);
      }
    }
    forall t | 0 <= t < out.Length ensures d.FromExpertsBelow(expert, t, d.experts) == d.Combined(expert, t) {
      d.AllExperts(expert, t);
    }
  }
}
