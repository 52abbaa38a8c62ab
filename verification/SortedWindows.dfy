/**
 Comparing sorted lists of reals the way Python compares lists, and the same order seen on
 multisets, where equal parts of both sides can be cancelled.
 */
module SortedWindows {

  predicate IsSorted(s: seq<real>) {
    forall i, j | 0 <= i < j < |s| :: s[i] <= s[j]
  }

  function Insert(x: real, s: seq<real>): (r: seq<real>)
    requires IsSorted(s)
    ensures IsSorted(r) && multiset(r) == multiset(s) + multiset{x}
  {
    if s == [] then
      [x]
    else if x <= s[0] then
      [x] + s
    else
      var rest := Insert(x, s[1..]);
      PrependLeast(s[0], rest, multiset(s[1..]) + multiset{x});
      assert s == [s[0]] + s[1..];
      [s[0]] + rest
  }

  lemma PrependLeast(least: real, rest: seq<real>, elements: multiset<real>)
    requires IsSorted(rest) && multiset(rest) == elements
    requires forall y | y in elements :: least <= y
    ensures IsSorted([least] + rest)
  {
    forall i | 0 <= i < |rest| ensures least <= rest[i] {
      assert rest[i] in multiset(rest);
    }
  }

  function SortedCopy(s: seq<real>): (r: seq<real>)
    ensures IsSorted(r) && multiset(r) == multiset(s) && |r| == |s|
  {
    if s == [] then
      []
    else
      assert s == s[..|s| - 1] + [s[|s| - 1]];
      var r := Insert(s[|s| - 1], SortedCopy(s[..|s| - 1]));
      assert |multiset(r)| == |r|;
      r
  }

  /** List comparison: the first difference decides, a proper prefix is smaller. */
  predicate LexLess(a: seq<real>, b: seq<real>) {
    if b == [] then false
    else if a == [] then true
    else a[0] < b[0] || (a[0] == b[0] && LexLess(a[1..], b[1..]))
  }

  /** x has more copies of some value than y, and as many of everything below it. */
  ghost predicate Lower(x: multiset<real>, y: multiset<real>) {
    exists v :: LowerAt(x, y, v)
  }

  ghost predicate LowerAt(x: multiset<real>, y: multiset<real>, v: real) {
    x[v] > y[v] && AgreeBelow(x, y, v)
  }

  ghost predicate AgreeBelow(x: multiset<real>, y: multiset<real>, v: real) {
    forall u | u < v :: x[u] == y[u]
  }

  lemma LowerIsIrreflexive(x: multiset<real>)
    ensures !Lower(x, x)
  {
  }

  lemma LowerIsTransitive(x: multiset<real>, y: multiset<real>, z: multiset<real>)
    requires Lower(x, y) && Lower(y, z)
    ensures Lower(x, z)
  {
    var u, v :| LowerAt(x, y, u) && LowerAt(y, z, v);
    var w := if u <= v then u else v;
    assert LowerAt(x, z, w);
  }

  /** A common part does not matter. */
  lemma LowerCancels(x: multiset<real>, y: multiset<real>, c: multiset<real>)
    ensures Lower(x + c, y + c) <==> Lower(x, y)
  {
    if Lower(x, y) {
      var v :| LowerAt(x, y, v);
      assert LowerAt(x + c, y + c, v);
    }
    if Lower(x + c, y + c) {
      var v :| LowerAt(x + c, y + c, v);
      forall u | u < v ensures x[u] == y[u] {
        assert (x + c)[u] == (y + c)[u];
      }
      assert LowerAt(x, y, v);
    }
  }

  /** On sorted lists of one length, list comparison is the multiset order. */
  lemma {:induction false} LexLessIsLower(a: seq<real>, b: seq<real>)
    requires IsSorted(a) && IsSorted(b) && |a| == |b|
    ensures LexLess(a, b) <==> Lower(multiset(a), multiset(b))
    decreases |a|
  {
    if a == [] {
    } else {
      var x, y := multiset(a[1..]), multiset(b[1..]);
      assert a == [a[0]] + a[1..] && b == [b[0]] + b[1..];
      assert multiset(a) == multiset{a[0]} + x && multiset(b) == multiset{b[0]} + y;
      if a[0] == b[0] {
        LexLessIsLower(a[1..], b[1..]);
        LowerCancels(x, y, multiset{a[0]});
        assert multiset(a) == x + multiset{a[0]} && multiset(b) == y + multiset{a[0]};
      } else if a[0] < b[0] {
        LeastFirst(a, b);
      } else {
        LeastFirst(b, a);
        LowerIsAsymmetric(multiset(b), multiset(a));
      }
    }
  }

  lemma LeastFirst(a: seq<real>, b: seq<real>)
    requires IsSorted(a) && IsSorted(b) && a != [] && b != [] && a[0] < b[0]
    ensures Lower(multiset(a), multiset(b))
  {
    assert a[0] in multiset(a);
    assert forall u | u in multiset(b) :: u in b && b[0] <= u;
    assert forall u | u in multiset(a) :: u in a && a[0] <= u;
    assert LowerAt(multiset(a), multiset(b), a[0]);
  }

  lemma LowerIsAsymmetric(x: multiset<real>, y: multiset<real>)
    requires Lower(x, y)
    ensures !Lower(y, x)
  {
    if Lower(y, x) {
      LowerIsTransitive(x, y, x);
      LowerIsIrreflexive(x);
    }
  }

  /** A multiset that is not below another has no element under the other's minimum. */
  lemma NotLowerKeepsMinimum(x: multiset<real>, y: multiset<real>, least: real)
    requires !Lower(x, y)
    requires forall u | u in y :: least <= u
    ensures forall u | u in x :: least <= u
  {
    if v :| v in x && v < least {
      var w := Minimum(x, v);
      assert LowerAt(x, y, w);
    }
  }

  lemma Minimum(x: multiset<real>, v: real) returns (w: real)
    requires v in x
    ensures w in x && w <= v && forall u | u in x :: w <= u
    decreases |x|
  {
    w := v;
    if u :| u in x && u < v {
      var rest := x[v := 0];
      assert rest <= x && |rest| < |x| by {
        assert x == rest + multiset{}[v := x[v]];
      }
      w := Minimum(rest, u);
      assert forall t | t in x && t != v :: t in rest;
    }
  }
}
