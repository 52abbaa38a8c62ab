/** Building routes: the inference graph and the fold of its paths, and random routes for throughput. */
module Routing {
  import opened Common
  import opened Pipelines

  datatype Node = Start | At(peer: nat, block: nat) | End

  type Edges = set<(Node, Node)>

  predicate Holds(s: Span, i: int) {
    s.start <= i < s.end
  }

  /** One span per peer. */
  ghost predicate OnePerPeer(spans: seq<Span>) {
    forall s, t | s in spans && t in spans && s.peer == t.peer :: s == t
  }

  /** index[i] lists exactly the spans that hold block i. */
  ghost predicate Indexed(spans: seq<Span>, index: seq<seq<Span>>) {
    forall i | 0 <= i < |index| :: forall s :: s in index[i] <==> s in spans && Holds(s, i)
  }

  /** The per-block index the router reads. */
  method SortSpans(spans: seq<Span>, blocks: nat) returns (index: seq<seq<Span>>)
    requires forall s | s in spans :: s.end <= blocks
    ensures |index| == blocks && Indexed(spans, index)
  {
    index := seq(blocks, _ => []);
    for k := 0 to |spans|
      invariant |index| == blocks && Indexed(spans[..k], index)
    {
      var span := spans[k];
      ghost var before := index;
      for i := span.start to if span.start <= span.end then span.end else span.start
        invariant |index| == blocks
        invariant forall j | 0 <= j < blocks ::
                    index[j] == if span.start <= j < i then before[j] + [span] else before[j]
      {
        index := index[i := index[i] + [span]];
      }
      assert spans[..k + 1] == spans[..k] + [span];
    }
    assert spans[..|spans|] == spans;
  }

  ghost predicate Covered(index: seq<seq<Span>>, a: nat, b: nat)
    requires b <= |index|
  {
    forall i | a <= i < b :: index[i] != []
  }

  // ----- the graph -----

  /** The edges there should be between blocks a and b. */
  ghost predicate IsEdge(spans: seq<Span>, a: nat, b: nat, x: Node, y: Node) {
    match (x, y)
    case (Start, At(p, i)) => i == a && exists s :: s in spans && s.peer == p && Holds(s, a)
    case (At(p, i), End) => i == b && exists s :: s in spans && s.peer == p && Holds(s, b - 1)
    case (At(p, i), At(q, j)) => Switches(spans, a, b, p, i, q, j) || Advances(spans, a, b, p, i, q, j)
    case _ => false
  }

  /** From the end of one server's span to another server at the same block. */
  ghost predicate Switches(spans: seq<Span>, a: nat, b: nat, p: nat, i: nat, q: nat, j: nat) {
    && i == j && a < i < b
    && (exists s :: s in spans && s.peer == p && Holds(s, i - 1) && s.end == i)
    && exists t :: t in spans && t.peer == q && Holds(t, i)
  }

  /** One block further on the same server. */
  ghost predicate Advances(spans: seq<Span>, a: nat, b: nat, p: nat, i: nat, q: nat, j: nat) {
    && p == q && j == i + 1 && a <= i < b
    && exists s :: s in spans && s.peer == p && Holds(s, i)
  }

  ghost predicate IsPath(spans: seq<Span>, a: nat, b: nat, path: seq<Node>) {
    && |path| >= 2 && path[0] == Start && path[|path| - 1] == End
    && forall k | 0 <= k < |path| - 1 :: IsEdge(spans, a, b, path[k], path[k + 1])
  }

  method StartEdges(index: seq<seq<Span>>, a: nat, ghost spans: seq<Span>) returns (edges: Edges)
    requires a < |index| && Indexed(spans, index)
    ensures forall x, y :: (x, y) in edges <==>
              x == Start && y.At? && y.block == a && exists s :: s in spans && s.peer == y.peer && Holds(s, a)
  {
    edges := {};
    for k := 0 to |index[a]|
      invariant forall x, y :: (x, y) in edges <==>
                  x == Start && y.At? && y.block == a && exists s :: s in index[a][..k] && s.peer == y.peer
    {
      edges := edges + {(Start, At(index[a][k].peer, a))};
      assert index[a][..k + 1] == index[a][..k] + [index[a][k]];
    }
    assert index[a][..|index[a]|] == index[a];
  }

  method EndEdges(index: seq<seq<Span>>, b: nat, ghost spans: seq<Span>) returns (edges: Edges)
    requires 0 < b <= |index| && Indexed(spans, index)
    ensures forall x, y :: (x, y) in edges <==>
              y == End && x.At? && x.block == b && exists s :: s in spans && s.peer == x.peer && Holds(s, b - 1)
  {
    edges := {};
    var last := index[b - 1];
    for k := 0 to |last|
      invariant forall x, y :: (x, y) in edges <==>
                  y == End && x.At? && x.block == b && exists s :: s in last[..k] && s.peer == x.peer
    {
      edges := edges + {(At(last[k].peer, b), End)};
      assert last[..k + 1] == last[..k] + [last[k]];
    }
    assert last[..|last|] == last;
  }

  /** Edges from one server whose span ends at block i to every server that holds block i. */
  method SwitchEdgesFrom(p: nat, i: nat, next: seq<Span>) returns (edges: Edges)
    ensures forall x, y :: (x, y) in edges <==>
              x == At(p, i) && y.At? && y.block == i && exists t :: t in next && t.peer == y.peer
  {
    edges := {};
    for k := 0 to |next|
      invariant forall x, y :: (x, y) in edges <==>
                  x == At(p, i) && y.At? && y.block == i && exists t :: t in next[..k] && t.peer == y.peer
    {
      edges := edges + {(At(p, i), At(next[k].peer, i))};
      assert next[..k + 1] == next[..k] + [next[k]];
    }
    assert next[..|next|] == next;
  }

  /** All edges between servers at block i; a server is left only at the end of its span. */
  method SwitchEdges(index: seq<seq<Span>>, i: nat, ghost spans: seq<Span>) returns (edges: Edges)
    requires 0 < i < |index| && Indexed(spans, index)
    ensures forall x, y :: (x, y) in edges <==>
              x.At? && y.At? && x.block == y.block == i
              && (exists s :: s in spans && s.peer == x.peer && Holds(s, i - 1) && s.end == i)
              && exists t :: t in spans && t.peer == y.peer && Holds(t, i)
  {
    edges := {};
    var current := index[i - 1];
    for k := 0 to |current|
      invariant forall x, y :: (x, y) in edges <==>
                  x.At? && y.At? && x.block == y.block == i
                  && (exists s :: s in current[..k] && s.peer == x.peer && s.end == i)
                  && exists t :: t in index[i] && t.peer == y.peer
    {
      assert current[..k + 1] == current[..k] + [current[k]];
      if current[k].end == i {
        var more := SwitchEdgesFrom(current[k].peer, i, index[i]);
        edges := edges + more;
      }
    }
    assert current[..|current|] == current;
  }

  /** Edges along one server's own blocks inside the range, each taking the time of one block. */
  method AdvanceEdges(span: Span, a: nat, b: nat, rps: Span -> Option<real>, defaultRps: real)
    returns (r: Result<Edges>)
    requires defaultRps != 0.0
    ensures r.Ok? <==> !Reaches(span, a, b) || rps(span) != Some(0.0)
    ensures r.Ok? ==> forall x, y :: (x, y) in r.value <==>
              x.At? && a <= x.block < b && x.peer == span.peer && Holds(span, x.block) && y == At(x.peer, x.block + 1)
  {
    var edges: Edges := {};
    var lo := if span.start < a then a else span.start;
    var hi := if span.end < b then span.end else b;
    var i := lo;
    while i < hi
      invariant lo <= i && (i <= hi || i == lo)
      invariant lo < i ==> rps(span) != Some(0.0)
      invariant forall x, y :: (x, y) in edges <==>
                  x.At? && lo <= x.block < i && x.peer == span.peer && y == At(x.peer, x.block + 1)
    {
      assert a <= i < b && Holds(span, i);
      var rate := if rps(span) == None then defaultRps else rps(span).value;
      if rate == 0.0 {
        return Raised;
      }
      edges := edges + {(At(span.peer, i), At(span.peer, i + 1))};
      i := i + 1;
    }
    r := Ok(edges);
  }

  /** No server that holds a block of the range announces an inference rate of zero; a missing rate does no harm. */
  ghost predicate Priced(spans: seq<Span>, a: nat, b: nat, rps: Span -> Option<real>) {
    forall s | s in spans && Reaches(s, a, b) :: rps(s) != Some(0.0)
  }

  predicate Reaches(s: Span, a: nat, b: nat) {
    exists i :: a <= i < b && Holds(s, i)
  }

  /**
   The graph for blocks a .. b - 1. There is none if some block is not served, nor if the time per block of
   some server in the range cannot be computed because its rate is zero, whether or not a path needs it.
   */
  method BuildInferenceGraph(
    spans: seq<Span>, index: seq<seq<Span>>, a: nat, b: nat, rps: Span -> Option<real>, defaultRps: real)
    returns (r: Result<Edges>)
    requires a < b <= |index| && Indexed(spans, index) && defaultRps != 0.0
    ensures r.Ok? <==> Covered(index, a, b) && Priced(spans, a, b, rps)
    ensures r.Ok? ==> forall x, y :: (x, y) in r.value <==> IsEdge(spans, a, b, x, y)
  {
    for i := a to b
      invariant Covered(index, a, i)
    {
      if index[i] == [] {
        return Raised;
      }
    }
    var starts := StartEdges(index, a, spans);
    var ends := EndEdges(index, b, spans);
    var switches: Edges := {};
    for i := a + 1 to b
      invariant forall x, y :: (x, y) in switches <==>
                  x.At? && y.At? && x.block < i && Switches(spans, a, b, x.peer, x.block, y.peer, y.block)
    {
      var more := SwitchEdges(index, i, spans);
      switches := switches + more;
    }
    var advances: Edges := {};
    for k := 0 to |spans|
      invariant forall x, y :: (x, y) in advances <==>
                  x.At? && y.At? && Advances(spans[..k], a, b, x.peer, x.block, y.peer, y.block)
      invariant Priced(spans[..k], a, b, rps)
    {
      assert spans[..k + 1] == spans[..k] + [spans[k]];
      var more := AdvanceEdges(spans[k], a, b, rps, defaultRps);
      if more.Raised? {
        assert spans[k] in spans;
        return Raised;
      }
      advances := advances + more.value;
    }
    assert spans[..|spans|] == spans;
    r := Ok(starts + ends + switches + advances);
  }

  /** A server with a rate of zero next to one that serves everything: the range is covered, yet there is no graph. */
  lemma IdleServerStopsRouting(rps: Span -> Option<real>)
    requires rps(Span(1, 0, 1)) == Some(0.0)
    ensures var spans := [Span(0, 0, 1), Span(1, 0, 1)];
            && Indexed(spans, [spans]) && Covered([spans], 0, 1) && !Priced(spans, 0, 1, rps)
            && (rps(Span(0, 0, 1)) != Some(0.0) ==>
                  Covered([spans[..1]], 0, 1) && Priced(spans[..1], 0, 1, rps))
  {
    var idle := Span(1, 0, 1);
    assert idle in [Span(0, 0, 1), idle] && Holds(idle, 0);
  }

  // ----- paths -----

  /** From a node of a server that has served the block before it, the end can be reached. */
  lemma {:induction false} PathFrom(spans: seq<Span>, index: seq<seq<Span>>, a: nat, b: nat, s: Span, i: nat)
    returns (path: seq<Node>)
    requires a < b <= |index| && Indexed(spans, index) && Covered(index, a, b)
    requires s in spans && a <= i <= b && s.start <= i <= s.end && (i == s.end || i == b ==> a < i && s.start < i)
    ensures |path| >= 2 && path[0] == At(s.peer, i) && path[|path| - 1] == End
    ensures forall k | 0 <= k < |path| - 1 :: IsEdge(spans, a, b, path[k], path[k + 1])
    decreases b - i, if i == s.end then 1 else 0
  {
    if i == b {
      assert Holds(s, b - 1);
      path := [At(s.peer, b), End];
    } else if i < s.end {
      assert Advances(spans, a, b, s.peer, i, s.peer, i + 1);
      var rest := PathFrom(spans, index, a, b, s, i + 1);
      path := [At(s.peer, i)] + rest;
    } else {
      var t := index[i][0];
      assert t in spans && Holds(t, i) && Holds(s, i - 1);
      assert Switches(spans, a, b, s.peer, i, t.peer, i);
      var rest := PathFrom(spans, index, a, b, t, i);
      path := [At(s.peer, i)] + rest;
    }
  }

  /** If every block is served, the graph has a path from start to end. */
  lemma PathExists(spans: seq<Span>, index: seq<seq<Span>>, a: nat, b: nat)
    requires a < b <= |index| && Indexed(spans, index) && Covered(index, a, b)
    ensures exists path :: IsPath(spans, a, b, path)
  {
    var s := index[a][0];
    assert s in spans && Holds(s, a);
    var rest := PathFrom(spans, index, a, b, s, a);
    assert IsPath(spans, a, b, [Start] + rest);
  }

  /** A span of a route lies inside its server's span and leaves it only at its end or at the range's end. */
  ghost predicate Respects(spans: seq<Span>, b: nat, r: Span) {
    exists s :: s in spans && s.peer == r.peer && s.start <= r.start && r.end <= s.end && (r.end == s.end || r.end == b)
  }

  /** The spans folded from the nodes read so far: finished ones, and one that is still growing. */
  ghost predicate Growing(spans: seq<Span>, a: nat, b: nat, route: seq<Span>, x: Node) {
    && x.At? && route != [] && route[0].start == a
    && route[|route| - 1].peer == x.peer && route[|route| - 1].end == x.block
    && route[|route| - 1].start <= x.block <= b && route[|route| - 1].start < b
    && (exists s :: s in spans && s.peer == x.peer && Holds(s, route[|route| - 1].start) && x.block <= s.end)
    && (forall k | 0 <= k < |route| - 1 :: route[k].start < route[k].end && Respects(spans, b, route[k]))
    && forall k | 0 <= k < |route| - 1 :: route[k].end == route[k + 1].start && route[k].peer != route[k + 1].peer
  }

  ghost predicate GoodRoute(spans: seq<Span>, a: nat, b: nat, route: seq<Span>) {
    && Tiles(route, a, b)
    && (forall k | 0 <= k < |route| :: Respects(spans, b, route[k]))
    && forall k | 0 <= k < |route| - 1 :: route[k].peer != route[k + 1].peer
  }

  /** One more node on the path. */
  function Folded(route: seq<Span>, p: nat, i: nat): seq<Span> {
    var last := |route| - 1;
    if route == [] || route[last].peer != p then route + [Span(p, i, i)] else route[last := route[last].(end := i)]
  }

  lemma FoldedGrows(spans: seq<Span>, a: nat, b: nat, route: seq<Span>, x: Node, y: Node)
    requires OnePerPeer(spans) && Growing(spans, a, b, route, x) && y.At? && IsEdge(spans, a, b, x, y)
    ensures Growing(spans, a, b, Folded(route, y.peer, y.block), y)
  {
    var last := route[|route| - 1];
    var s :| s in spans && s.peer == x.peer && Holds(s, last.start) && x.block <= s.end;
    if Advances(spans, a, b, x.peer, x.block, y.peer, y.block) {
      hide Respects, IsEdge;
    } else {
      hide Advances, IsEdge;
      var u :| u in spans && u.peer == x.peer && Holds(u, x.block - 1) && u.end == x.block;
      assert u == s;
      assert Respects(spans, b, last);
    }
  }

  lemma GrownIsGood(spans: seq<Span>, a: nat, b: nat, route: seq<Span>, x: Node)
    requires a < b && Growing(spans, a, b, route, x) && IsEdge(spans, a, b, x, End)
    ensures GoodRoute(spans, a, b, route)
  {
    assert Respects(spans, b, route[|route| - 1]);
  }

  /** Folding a path into spans, and dropping empty ones. */
  method MakeSequenceWithMinLatency(path: seq<Node>, a: nat, b: nat, ghost spans: seq<Span>) returns (route: seq<Span>)
    requires a < b && OnePerPeer(spans) && IsPath(spans, a, b, path)
    ensures GoodRoute(spans, a, b, route) && Routes(route, a, b)
  {
    route := [];
    assert IsEdge(spans, a, b, path[0], path[1]);
    for k := 1 to |path| - 1
      invariant k == 1 ==> route == []
      invariant k > 1 ==> Growing(spans, a, b, route, path[k - 1])
    {
      assert IsEdge(spans, a, b, path[k - 1], path[k]) && IsEdge(spans, a, b, path[k], path[k + 1]);
      if k > 1 {
        FoldedGrows(spans, a, b, route, path[k - 1], path[k]);
      }
      route := Folded(route, path[k].peer, path[k].block);
    }
    var last := |path| - 2;
    assert IsEdge(spans, a, b, path[last], path[last + 1]);
    GrownIsGood(spans, a, b, route, path[last]);
    var kept := NonEmpty(route);
    NothingRemoved(route);
    route := kept;
  }

  function NonEmpty(route: seq<Span>): (r: seq<Span>)
    ensures forall k | 0 <= k < |r| :: r[k].start < r[k].end
  {
    if route == [] then []
    else NonEmpty(route[..|route| - 1])
         + if route[|route| - 1].end > route[|route| - 1].start then [route[|route| - 1]] else []
  }

  /** The filter for empty spans has nothing to do. */
  lemma {:induction false} NothingRemoved(route: seq<Span>)
    requires forall k | 0 <= k < |route| :: route[k].start < route[k].end
    ensures NonEmpty(route) == route
  {
    if route != [] {
      NothingRemoved(route[..|route| - 1]);
    }
  }

  ghost predicate RunsToItsEnd(spans: seq<Span>, r: Span) {
    exists s :: s in spans && s.peer == r.peer && s.start <= r.start && r.end == s.end
  }

  /** Random routes: any server of the current block, until the end is reached or a block has no server. */
  method MakeSequenceWithMaxThroughput(
    index: seq<seq<Span>>, a: nat, b: nat, choose: nat -> nat, ghost spans: seq<Span>)
    returns (r: Result<seq<Span>>)
    requires a < b <= |index| && Indexed(spans, index)
    ensures r.Ok? ==> Routes(r.value, a, b)
                      && forall k | 0 <= k < |r.value| :: RunsToItsEnd(spans, r.value[k])
    ensures Covered(index, a, b) ==> r.Ok?
  {
    var route: seq<Span>, current := [], a;
    while current < b
      invariant a <= current
      invariant route == [] ==> current == a
      invariant route != [] ==> Tiles(route, a, current) && route[|route| - 1].start < b
      invariant forall k | 0 <= k < |route| :: RunsToItsEnd(spans, route[k])
      decreases b - current
    {
      var candidates := index[current];
      if candidates == [] {
        return Raised;
      }
      var chosen := candidates[choose(current) % |candidates|];
      assert chosen in spans && Holds(chosen, current);
      route := route + [chosen.(start := current)];
      current := chosen.end;
    }
    r := Ok(route);
  }
}
