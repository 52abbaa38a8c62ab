/** Finite sums of reals, indexed by a function. Tensor contractions are written with them. */
module RealSums {

  function Sum(n: nat, f: int -> real): real {
    if n == 0 then 0.0 else Sum(n - 1, f) + f(n - 1)
  }

  /** Element r of a vector; a vector is zero outside its length. */
  function At(v: seq<real>, r: int): real {
    if 0 <= r < |v| then v[r] else 0.0
  }

  function Dot(d: nat, u: seq<real>, w: seq<real>): real {
    Sum(d, r => At(u, r) * At(w, r))
  }

  lemma SumCongruence(n: nat, f: int -> real, g: int -> real)
    requires forall i | 0 <= i < n :: f(i) == g(i)
    ensures Sum(n, f) == Sum(n, g)
  {
  }

  lemma SumIsZero(n: nat, f: int -> real)
    requires forall i | 0 <= i < n :: f(i) == 0.0
    ensures Sum(n, f) == 0.0
  {
  }

  lemma SumOfAdds(n: nat, f: int -> real, g: int -> real, h: int -> real)
    requires forall i | 0 <= i < n :: h(i) == f(i) + g(i)
    ensures Sum(n, h) == Sum(n, f) + Sum(n, g)
  {
  }

  lemma SumOfScaled(n: nat, c: real, f: int -> real, h: int -> real)
    requires forall i | 0 <= i < n :: h(i) == c * f(i)
    ensures Sum(n, h) == c * Sum(n, f)
  {
  }

  /** Terms at and beyond k vanish, so the sum stops at k. */
  lemma SumStopsAt(k: nat, n: nat, f: int -> real)
    requires k <= n
    requires forall i | k <= i < n :: f(i) == 0.0
    ensures Sum(n, f) == Sum(k, f)
    decreases n
  {
    if k < n {
      SumStopsAt(k, n - 1, f);
    }
  }

  function SumByRows(m: nat, n: nat, f: (int, int) -> real): real {
    Sum(m, i => Sum(n, j => f(i, j)))
  }

  function SumByColumns(m: nat, n: nat, f: (int, int) -> real): real {
    Sum(n, j => Sum(m, i => f(i, j)))
  }

  /** The order of two nested sums can be exchanged. */
  lemma {:induction false} SumSwap(m: nat, n: nat, f: (int, int) -> real)
    ensures SumByRows(m, n, f) == SumByColumns(m, n, f)
  {
    var all := j => Sum(m, i => f(i, j));
    if m == 0 {
      SumIsZero(n, all);
    } else {
      SumSwap(m - 1, n, f);
      var front := j => Sum(m - 1, i => f(i, j));
      var last := j => f(m - 1, j);
      forall j | 0 <= j < n ensures all(j) == front(j) + last(j) {
        var g := i => f(i, j);
        assert all(j) == Sum(m, g);
      }
      SumOfAdds(n, front, last, all);
    }
  }

  /** Exactly the k-th term of a sum is nonzero. */
  lemma SumOfOneTerm(n: nat, k: nat, f: int -> real)
    requires k < n
    requires forall i | 0 <= i < n && i != k :: f(i) == 0.0
    ensures Sum(n, f) == f(k)
  {
    SumStopsAt(k + 1, n, f);
    SumIsZero(k, f);
  }
}
