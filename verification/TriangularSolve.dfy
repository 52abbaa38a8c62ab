/**
 Solving (I - A) T = I for a strictly lower-triangular A by folding each row with the rows above.
 */
module TriangularSolve {
  import opened RealSums

  type Matrix = (int, int) -> real

  /** The row loop as a recursion: row i of the result is row i of A plus A's row times the rows above. */
  function Folded(a: Matrix, i: int, j: int): real
    decreases i
  {
    if 0 <= j < i then
      a(i, j) + Sum(i, p => if 0 <= p < i then a(i, p) * Folded(a, p, j) else 0.0)
    else
      0.0
  }

  /** The row loop's result plus the identity. */
  function Solver(a: Matrix, i: int, j: int): real {
    Folded(a, i, j) + if i == j then 1.0 else 0.0
  }

  ghost predicate StrictlyLower(a: Matrix) {
    forall i: int, j: int | i <= j :: a(i, j) == 0.0
  }

  function SolverOf(a: Matrix): Matrix {
    (i, j) => Solver(a, i, j)
  }

  function Times(n: nat, a: Matrix, x: int -> real, i: int): real {
    Sum(n, j => a(i, j) * x(j))
  }

  function Product(n: nat, a: Matrix, t: Matrix, i: int, j: int): real {
    Sum(n, p => a(i, p) * t(p, j))
  }

  function ColumnTerm(a: Matrix, i: int, j: int): int -> real {
    p => a(i, p) * Solver(a, p, j)
  }

  lemma {:induction false} AboveDiagonal(a: Matrix, i: nat, j: nat)
    requires i <= j
    ensures Sum(i, ColumnTerm(a, i, j)) == 0.0
  {
    forall p | 0 <= p < i ensures ColumnTerm(a, i, j)(p) == 0.0 {
      assert Solver(a, p, j) == 0.0;
    }
    SumIsZero(i, ColumnTerm(a, i, j));
  }

  lemma {:induction false} BelowDiagonal(a: Matrix, i: nat, j: nat)
    requires j < i
    ensures Sum(i, ColumnTerm(a, i, j)) == Folded(a, i, j)
  {
    var viaRows := p => if 0 <= p < i then a(i, p) * Folded(a, p, j) else 0.0;
    var direct := p => if p == j then a(i, j) else 0.0;
    forall p | 0 <= p < i ensures ColumnTerm(a, i, j)(p) == viaRows(p) + direct(p) {
      SolverEntryTimes(a, a(i, p), p, j);
    }
    assert Folded(a, i, j) == a(i, j) + Sum(i, viaRows);
    hide Folded, Solver, ColumnTerm;
    SumOfAdds(i, viaRows, direct, ColumnTerm(a, i, j));
    SumOfOneTerm(i, j, direct);
  }

  lemma {:induction false} SolverEntryTimes(a: Matrix, x: real, p: nat, j: nat)
    ensures x * Solver(a, p, j) == x * Folded(a, p, j) + if p == j then x else 0.0
  {
    hide Folded;
  }

  /** (I - A) T = I, entry by entry, where T is the row loop's result plus the identity. */
  lemma {:induction false} SolverInvertsEntry(a: Matrix, n: nat, i: nat, j: nat)
    requires StrictlyLower(a) && i < n && j < n
    ensures Solver(a, i, j) - Sum(n, p => a(i, p) * Solver(a, p, j)) == if i == j then 1.0 else 0.0
  {
    var full := ColumnTerm(a, i, j);
    forall p | i <= p < n ensures full(p) == 0.0 {
      assert a(i, p) == 0.0;
    }
    if i <= j {
      AboveDiagonal(a, i, j);
    } else {
      BelowDiagonal(a, i, j);
    }
    assert i <= j ==> Folded(a, i, j) == 0.0;
    hide StrictlyLower, Folded;
    SumStopsAt(i, n, full);
    SumCongruence(n, full, p => a(i, p) * Solver(a, p, j));
  }

  /** A (T x) = (A T) x: the two sums are exchanged. T has d columns. */
  lemma {:induction false} TimesAssociates(n: nat, d: nat, a: Matrix, t: Matrix, x: int -> real, y: int -> real, i: nat)
    requires forall p: nat | p < n :: y(p) == Times(d, t, x, p)
    ensures Times(n, a, y, i) == Times(d, (p, j) => Product(n, a, t, p, j), x, i)
  {
    var grid: Matrix := (p, j) => a(i, p) * (t(p, j) * x(j));
    RowsOfGrid(n, d, a, t, x, y, i, grid);
    SumSwap(n, d, grid);
    ColumnsOfGrid(n, d, a, t, x, i, grid);
  }

  lemma {:induction false} RowsOfGrid(
    n: nat, d: nat, a: Matrix, t: Matrix, x: int -> real, y: int -> real, i: nat, grid: Matrix)
    requires forall p: nat | p < n :: y(p) == Times(d, t, x, p)
    requires forall p, j :: grid(p, j) == a(i, p) * (t(p, j) * x(j))
    ensures Times(n, a, y, i) == SumByRows(n, d, grid)
  {
    forall p: nat | p < n ensures a(i, p) * y(p) == Sum(d, j => grid(p, j)) {
      ScaledRow(d, a(i, p), j => t(p, j) * x(j), j => grid(p, j));
    }
    SumCongruence(n, p => a(i, p) * y(p), p => Sum(d, j => grid(p, j)));
  }

  lemma {:induction false} ColumnsOfGrid(n: nat, d: nat, a: Matrix, t: Matrix, x: int -> real, i: nat, grid: Matrix)
    requires forall p, j :: grid(p, j) == a(i, p) * (t(p, j) * x(j))
    ensures SumByColumns(n, d, grid) == Times(d, (p, j) => Product(n, a, t, p, j), x, i)
  {
    var columns := j => Sum(n, p => grid(p, j));
    forall j: nat | j < d ensures columns(j) == Product(n, a, t, i, j) * x(j) {
      ScaledRow(n, x(j), p => a(i, p) * t(p, j), p => grid(p, j));
    }
    var at: Matrix := (p, j) => Product(n, a, t, p, j);
    SumCongruence(d, columns, j => at(i, j) * x(j));
  }

  lemma {:induction false} ScaledRow(n: nat, c: real, f: int -> real, h: int -> real)
    requires forall j: nat | j < n :: h(j) == c * f(j)
    ensures Sum(n, h) == c * Sum(n, f)
  {
    SumOfScaled(n, c, f, h);
  }

  /** Multiplying by T solves y = x + A y, for every right-hand side x. */
  lemma {:induction false} SolverSolves(a: Matrix, n: nat, x: int -> real, y: int -> real, i: nat)
    requires StrictlyLower(a) && i < n
    requires forall p: nat | p < n :: y(p) == Times(n, SolverOf(a), x, p)
    ensures y(i) == x(i) + Times(n, a, y, i)
  {
    var t := SolverOf(a);
    TimesAssociates(n, n, a, t, x, y, i);
    var at: Matrix := (p, j) => Product(n, a, t, p, j);
    forall j: nat | j < n ensures t(i, j) == at(i, j) + if i == j then 1.0 else 0.0 {
      SolverTimesEntry(a, n, t, i, j);
    }
    IdentityPlus(n, t, at, x, i);
  }

  lemma {:induction false} IdentityPlus(n: nat, t: Matrix, at: Matrix, x: int -> real, i: nat)
    requires i < n
    requires forall j: nat | j < n :: t(i, j) == at(i, j) + if i == j then 1.0 else 0.0
    ensures Times(n, t, x, i) == x(i) + Times(n, at, x, i)
  {
    var unit := j => if j == i then x(i) else 0.0;
    SumOfAdds(n, unit, j => at(i, j) * x(j), j => t(i, j) * x(j));
    SumOfOneTerm(n, i, unit);
  }

  lemma {:induction false} SolverTimesEntry(a: Matrix, n: nat, t: Matrix, i: nat, j: nat)
    requires StrictlyLower(a) && i < n && j < n
    requires forall u, q :: t(u, q) == Solver(a, u, q)
    ensures t(i, j) == Product(n, a, t, i, j) + if i == j then 1.0 else 0.0
  {
    hide StrictlyLower, Folded, Solver;
    SolverInvertsEntry(a, n, i, j);
    SumCongruence(n, p => a(i, p) * t(p, j), p => a(i, p) * Solver(a, p, j));
  }

  /** A strictly lower system has at most one solution. */
  lemma {:induction false} SolutionIsUnique(a: Matrix, n: nat, x: int -> real, y: int -> real, z: int -> real, i: nat)
    requires StrictlyLower(a) && i < n
    requires forall p: nat | p < n :: y(p) == x(p) + Times(n, a, y, p)
    requires forall p: nat | p < n :: z(p) == x(p) + Times(n, a, z, p)
    ensures y(i) == z(i)
    decreases i
  {
    forall j | 0 <= j < n ensures a(i, j) * y(j) == a(i, j) * z(j) {
      if j < i {
        SolutionIsUnique(a, n, x, y, z, j);
      }
    }
    SumCongruence(n, j => a(i, j) * y(j), j => a(i, j) * z(j));
    assert y(i) == x(i) + Times(n, a, y, i);
    assert z(i) == x(i) + Times(n, a, z, i);
  }

  function FoldEntry(i: nat, row: seq<real>, sub: seq<seq<real>>, j: nat): real
    requires |row| == |sub| == i && j < i
    requires forall p | 0 <= p < i :: |sub[p]| == i
  {
    row[j] + Sum(i, p => if 0 <= p < i then row[p] * sub[p][j] else 0.0)
  }

  lemma {:induction false} FoldEntryIsFolded(a: Matrix, i: nat, row: seq<real>, sub: seq<seq<real>>, j: nat)
    requires |row| == |sub| == i && j < i
    requires forall p | 0 <= p < i :: |sub[p]| == i && row[p] == a(i, p)
    requires forall p, c | 0 <= p < i && 0 <= c < i :: sub[p][c] == Folded(a, p, c)
    ensures FoldEntry(i, row, sub, j) == Folded(a, i, j)
  {
    SumCongruence(i, p => if 0 <= p < i then row[p] * sub[p][j] else 0.0,
                  p => if 0 <= p < i then a(i, p) * Folded(a, p, j) else 0.0);
  }

  /** One step of the row loop; row and sub are copies taken before row i is overwritten. */
  method FoldRow(attn: array2<real>, i: nat, ghost a: Matrix)
    requires i < attn.Length0 == attn.Length1
    requires forall p, j | 0 <= p < i && 0 <= j < attn.Length0 :: attn[p, j] == Folded(a, p, j)
    requires forall j | 0 <= j < attn.Length0 :: attn[i, j] == a(i, j)
    requires StrictlyLower(a)
    modifies attn
    ensures forall j | 0 <= j < attn.Length0 :: attn[i, j] == Folded(a, i, j)
    ensures forall p, j | 0 <= p < attn.Length0 && 0 <= j < attn.Length0 && p != i :: attn[p, j] == old(attn[p, j])
  {
    var row := seq(i, j requires 0 <= j < i reads attn => attn[i, j]);
    var sub := seq(i, p requires 0 <= p < i reads attn => seq(i, j requires 0 <= j < i reads attn => attn[p, j]));
    for j := 0 to i
      invariant forall p, c | 0 <= p < attn.Length0 && 0 <= c < attn.Length0 && (p != i || c >= j) ::
                  attn[p, c] == old(attn[p, c])
      invariant forall c | 0 <= c < j :: attn[i, c] == Folded(a, i, c)
    {
      attn[i, j] := FoldEntry(i, row, sub, j);
      FoldEntryIsFolded(a, i, row, sub, j);
    }
  }

  /** The in-place row loop. */
  method FoldRows(attn: array2<real>, ghost a: Matrix)
    requires 1 <= attn.Length0 == attn.Length1
    requires forall i, j | 0 <= i < attn.Length0 && 0 <= j < attn.Length0 :: attn[i, j] == a(i, j)
    requires StrictlyLower(a)
    modifies attn
    ensures forall i, j | 0 <= i < attn.Length0 && 0 <= j < attn.Length0 :: attn[i, j] == Folded(a, i, j)
  {
    for i := 1 to attn.Length0
      invariant forall p, j | 0 <= p < i && 0 <= j < attn.Length0 :: attn[p, j] == Folded(a, p, j)
      invariant forall p, j | i <= p < attn.Length0 && 0 <= j < attn.Length0 :: attn[p, j] == a(p, j)
    {
      FoldRow(attn, i, a);
    }
  }
}
