/** Exactly when `unwrapSSAValue` strips a phi: independent of its recursion, in terms of the routes along
    phi edges. */
module PhiRoutes {
  import opened Types
  import opened Resolver

  ghost predicate IsPhi(g: ValueGraph, v: Value) {
    v < |g| && g[v].Phi?
  }

  /** Where following the edges with these numbers leads from `v`; only phis have edges. */
  ghost function Arrive(g: ValueGraph, v: Value, route: seq<nat>): (r: Option<Value>)
    requires WellFormed(g) && v < |g|
    ensures r.Some? ==> r.value < |g|
    decreases |route|
  {
    if route == [] then Some(v)
    else if g[v].Phi? && route[0] < |g[v].edges| then Arrive(g, g[v].edges[route[0]], route[1..])
    else None
  }

  ghost predicate Reaches(g: ValueGraph, v: Value, w: Value)
    requires WellFormed(g) && v < |g|
  {
    exists route :: Arrive(g, v, route) == Some(w)
  }

  /** Every value reached from `v` that is no phi is `x`, and no phi reached is without edges. */
  ghost predicate AllLeavesAre(g: ValueGraph, v: Value, x: Value)
    requires WellFormed(g) && v < |g|
  {
    forall w: Value :: w < |g| && Reaches(g, v, w) ==> if g[w].Phi? then g[w].edges != [] else w == x
  }

  /** No phi is reached from `v` along two routes; in particular no phi reaches itself. */
  ghost predicate PhisReachedOnce(g: ValueGraph, v: Value)
    requires WellFormed(g) && v < |g|
  {
    forall a, b, w: Value :: IsPhi(g, w) && Arrive(g, v, a) == Some(w) && Arrive(g, v, b) == Some(w) ==> a == b
  }

  ghost predicate Uniform(g: ValueGraph, v: Value, x: Value)
    requires WellFormed(g) && v < |g|
  {
    AllLeavesAre(g, v, x) && PhisReachedOnce(g, v)
  }

  ghost predicate Avoids(g: ValueGraph, v: Value, visited: set<Value>)
    requires WellFormed(g) && v < |g|
  {
    forall w: Value :: IsPhi(g, w) && Reaches(g, v, w) ==> w !in visited
  }

  /** No phi is reached both from `v` and from `w`. */
  ghost predicate Apart(g: ValueGraph, v: Value, w: Value)
    requires WellFormed(g) && v < |g| && w < |g|
  {
    forall u: Value :: IsPhi(g, u) && Reaches(g, v, u) ==> !Reaches(g, w, u)
  }

  /** `seen` is `visited` and the phis reached from `v`. */
  ghost predicate AddsReached(g: ValueGraph, v: Value, visited: set<Value>, seen: set<Value>)
    requires WellFormed(g) && v < |g|
  {
    forall w: Value :: w in seen <==> w in visited || (IsPhi(g, w) && Reaches(g, v, w))
  }

  ghost predicate EdgesIn(g: ValueGraph, edges: seq<Value>) {
    forall i :: 0 <= i < |edges| ==> edges[i] < |g|
  }

  /** The edges are uniform one by one and share no phi. */
  ghost predicate UniformEdges(g: ValueGraph, edges: seq<Value>, x: Value)
    requires WellFormed(g) && EdgesIn(g, edges)
  {
    && (forall i :: 0 <= i < |edges| ==> Uniform(g, edges[i], x))
    && (forall i, j :: 0 <= i < j < |edges| ==> Apart(g, edges[i], edges[j]))
  }

  ghost predicate EdgesAvoid(g: ValueGraph, edges: seq<Value>, visited: set<Value>)
    requires WellFormed(g) && EdgesIn(g, edges)
  {
    forall i :: 0 <= i < |edges| ==> Avoids(g, edges[i], visited)
  }

  lemma {:induction false} ReachesItself(g: ValueGraph, v: Value)
    requires WellFormed(g) && v < |g|
    ensures Reaches(g, v, v)
  {
    assert Arrive(g, v, []) == Some(v);
  }

  lemma {:induction false} LeafReachesItself(g: ValueGraph, v: Value)
    requires WellFormed(g) && v < |g| && !g[v].Phi?
    ensures forall w: Value :: Reaches(g, v, w) <==> w == v
  {
    ReachesItself(g, v);
  }

  lemma {:induction false} ArriveVia(g: ValueGraph, v: Value, i: nat, route: seq<nat>)
    requires WellFormed(g) && v < |g| && g[v].Phi? && i < |g[v].edges|
    ensures Arrive(g, v, [i] + route) == Arrive(g, g[v].edges[i], route)
  {
    assert ([i] + route)[1..] == route;
  }

  lemma {:induction false} ReachesVia(g: ValueGraph, v: Value, i: nat, w: Value)
    requires WellFormed(g) && v < |g| && g[v].Phi? && i < |g[v].edges| && Reaches(g, g[v].edges[i], w)
    ensures Reaches(g, v, w)
  {
    var route :| Arrive(g, g[v].edges[i], route) == Some(w);
    ArriveVia(g, v, i, route);
  }

  /** A phi reaches itself and whatever one of its edges reaches. */
  lemma {:induction false} ReachesStep(g: ValueGraph, v: Value, w: Value)
    requires WellFormed(g) && v < |g| && Reaches(g, v, w) && w != v
    ensures g[v].Phi? && exists i :: 0 <= i < |g[v].edges| && Reaches(g, g[v].edges[i], w)
  {
    var route :| Arrive(g, v, route) == Some(w);
    assert Arrive(g, g[v].edges[route[0]], route[1..]) == Some(w);
  }

  lemma {:induction false} LeavesOfPhi(g: ValueGraph, v: Value, x: Value)
    requires WellFormed(g) && v < |g| && g[v].Phi?
    ensures AllLeavesAre(g, v, x) <==>
      g[v].edges != [] && forall i :: 0 <= i < |g[v].edges| ==> AllLeavesAre(g, g[v].edges[i], x)
  {
    var edges := g[v].edges;
    ReachesItself(g, v);
    if AllLeavesAre(g, v, x) {
      forall i, w: Value | 0 <= i < |edges| && w < |g| && Reaches(g, edges[i], w)
        ensures Reaches(g, v, w)
      {
        ReachesVia(g, v, i, w);
      }
    }
    if edges != [] && forall i :: 0 <= i < |edges| ==> AllLeavesAre(g, edges[i], x) {
      forall w: Value | w < |g| && Reaches(g, v, w) ensures if g[w].Phi? then g[w].edges != [] else w == x {
        if w != v { ReachesStep(g, v, w); }
      }
    }
  }

  /** Below a phi every phi is reached once exactly if that holds below each edge, no two edges lead to one
      phi, and no edge leads back. */
  ghost predicate BranchesOnce(g: ValueGraph, v: Value)
    requires WellFormed(g) && v < |g| && g[v].Phi?
  {
    var edges := g[v].edges;
    && (forall i :: 0 <= i < |edges| ==> PhisReachedOnce(g, edges[i]) && !Reaches(g, edges[i], v))
    && (forall i, j :: 0 <= i < j < |edges| ==> Apart(g, edges[i], edges[j]))
  }

  lemma {:induction false} OnceBelowPhi(g: ValueGraph, v: Value)
    requires WellFormed(g) && v < |g| && g[v].Phi? && PhisReachedOnce(g, v)
    ensures BranchesOnce(g, v)
  {
    var edges := g[v].edges;
    forall i | 0 <= i < |edges| ensures PhisReachedOnce(g, edges[i]) && !Reaches(g, edges[i], v) {
      forall a, b, w: Value | IsPhi(g, w) && Arrive(g, edges[i], a) == Some(w) && Arrive(g, edges[i], b) == Some(w)
        ensures a == b
      {
        ArriveVia(g, v, i, a);
        ArriveVia(g, v, i, b);
        assert ([i] + a)[1..] == a && ([i] + b)[1..] == b;
      }
      forall a ensures Arrive(g, edges[i], a) != Some(v) {
        ArriveVia(g, v, i, a);
        assert Arrive(g, v, []) == Some(v) && [i] + a != [];
      }
    }
    forall i, j | 0 <= i < j < |edges| ensures Apart(g, edges[i], edges[j]) {
      forall u: Value, a, b | IsPhi(g, u) && Arrive(g, edges[i], a) == Some(u)
        ensures Arrive(g, edges[j], b) != Some(u)
      {
        ArriveVia(g, v, i, a);
        ArriveVia(g, v, j, b);
        assert ([i] + a)[0] != ([j] + b)[0];
      }
    }
  }

  lemma {:induction false} OnceFromBranches(g: ValueGraph, v: Value)
    requires WellFormed(g) && v < |g| && g[v].Phi? && BranchesOnce(g, v)
    ensures PhisReachedOnce(g, v)
  {
    var edges := g[v].edges;
    forall a, b, w: Value | IsPhi(g, w) && Arrive(g, v, a) == Some(w) && Arrive(g, v, b) == Some(w) ensures a == b {
      if a != [] { assert Arrive(g, edges[a[0]], a[1..]) == Some(w); assert Reaches(g, edges[a[0]], w); }
      if b != [] { assert Arrive(g, edges[b[0]], b[1..]) == Some(w); assert Reaches(g, edges[b[0]], w); }
      if a != [] && b != [] {
        assert a[0] == b[0];
        assert a == [a[0]] + a[1..] && b == [b[0]] + b[1..];
      }
    }
  }

  /** Uniformity of a phi, one level down. */
  lemma {:induction false} UniformPhi(g: ValueGraph, v: Value, x: Value, visited: set<Value>)
    requires WellFormed(g) && v < |g| && g[v].Phi?
    ensures Uniform(g, v, x) && Avoids(g, v, visited) <==>
      && v !in visited && g[v].edges != [] && UniformEdges(g, g[v].edges, x) && EdgesAvoid(g, g[v].edges, visited + {v})
  {
    var edges := g[v].edges;
    LeavesOfPhi(g, v, x);
    ReachesItself(g, v);
    if Uniform(g, v, x) && Avoids(g, v, visited) {
      OnceBelowPhi(g, v);
      forall i, w: Value | 0 <= i < |edges| && w < |g| && Reaches(g, edges[i], w)
        ensures Reaches(g, v, w)
      {
        ReachesVia(g, v, i, w);
      }
    }
    if v !in visited && edges != [] && UniformEdges(g, edges, x) && EdgesAvoid(g, edges, visited + {v}) {
      OnceFromBranches(g, v);
      forall w: Value | IsPhi(g, w) && Reaches(g, v, w) ensures w !in visited {
        if w != v { ReachesStep(g, v, w); }
      }
    }
  }

  /** A result that is a phi has been visited. */
  lemma {:induction false} PhiResultIsVisited(g: ValueGraph, v: Value, visited: set<Value>)
    requires WellFormed(g) && v < |g|
    ensures var (r, seen) := Unwrap(g, v, visited); g[r].Phi? ==> r in seen
    decreases Unvisited(g, visited)
  {
    if g[v].Phi? {
      var (resolved, seen) := Resolve(g, v, visited);
      if resolved.Some? {
        VisitShrinks(g, visited, v);
        UnvisitedShrinks(g, visited + {v}, seen);
        PhiResultIsVisited(g, resolved.value, seen);
      }
    }
  }

  /** The values one after the other agree on `x`. */
  lemma {:induction false} EdgesResolveIff(g: ValueGraph, edges: seq<Value>, unique: Option<Value>,
                                           visited: set<Value>, x: Value)
    requires WellFormed(g) && EdgesIn(g, edges) && x < |g| && !g[x].Phi? && (unique.Some? ==> unique.value < |g|)
    ensures var r := ResolveEdges(g, edges, unique, visited);
      && (r.0 == Some(x) <==> (if edges == [] then unique == Some(x) else unique == None || unique == Some(x))
                              && UniformEdges(g, edges, x) && EdgesAvoid(g, edges, visited))
      && (r.0 == Some(x) ==> forall w: Value :: w in r.1 <==> w in visited || ReachedFrom(g, edges, w))
    decreases Unvisited(g, visited), 2 + |edges|
  {
    if edges != [] {
      var (edge, seen) := Unwrap(g, edges[0], visited);
      UnvisitedShrinks(g, visited, seen);
      UnwrapIff(g, edges[0], visited, x);
      EdgesResolveIff(g, edges[1..], Some(edge), seen, x);
      if edge == x { EdgesStep(g, edges, visited, seen, x); }
    }
  }

  ghost predicate ReachedFrom(g: ValueGraph, edges: seq<Value>, w: Value)
    requires WellFormed(g) && EdgesIn(g, edges)
  {
    IsPhi(g, w) && exists i :: 0 <= i < |edges| && Reaches(g, edges[i], w)
  }

  lemma {:induction false} EdgesStep(g: ValueGraph, edges: seq<Value>, visited: set<Value>, seen: set<Value>, x: Value)
    requires WellFormed(g) && EdgesIn(g, edges) && edges != [] && x < |g|
    requires Uniform(g, edges[0], x) && Avoids(g, edges[0], visited) && AddsReached(g, edges[0], visited, seen)
    ensures UniformEdges(g, edges, x) && EdgesAvoid(g, edges, visited)
      <==> UniformEdges(g, edges[1..], x) && EdgesAvoid(g, edges[1..], seen)
    ensures forall w: Value :: w in visited || ReachedFrom(g, edges, w) <==> w in seen || ReachedFrom(g, edges[1..], w)
  {
    var rest := edges[1..];
    assert forall i :: 0 <= i < |rest| ==> rest[i] == edges[i + 1];
    assert forall i :: 0 < i < |edges| ==> edges[i] == rest[i - 1];
    forall w: Value ensures w in visited || ReachedFrom(g, edges, w) <==> w in seen || ReachedFrom(g, rest, w) {
      if ReachedFrom(g, edges, w) {
        var i :| 0 <= i < |edges| && Reaches(g, edges[i], w);
        if i > 0 { assert Reaches(g, rest[i - 1], w); }
      }
      if ReachedFrom(g, rest, w) {
        var i :| 0 <= i < |rest| && Reaches(g, rest[i], w);
        assert Reaches(g, edges[i + 1], w);
      }
    }
    if UniformEdges(g, edges, x) && EdgesAvoid(g, edges, visited) {
      forall i | 0 <= i < |rest| ensures Avoids(g, rest[i], seen) { assert Apart(g, edges[0], edges[i + 1]); }
    }
    if UniformEdges(g, rest, x) && EdgesAvoid(g, rest, seen) {
      forall i, j | 0 <= i < j < |edges| ensures Apart(g, edges[i], edges[j]) {
        assert Avoids(g, rest[j - 1], seen);
        if i > 0 { assert Apart(g, rest[i - 1], rest[j - 1]); }
      }
      forall i | 0 <= i < |edges| ensures Avoids(g, edges[i], visited) {
        if i > 0 { assert Avoids(g, rest[i - 1], seen); }
      }
    }
  }

  /** From any visited set: the result is the non-phi `x` exactly if all leaves are `x` and every phi is
      reached once and was not visited before; then exactly the phis reached have been visited in addition. */
  lemma {:induction false} UnwrapIff(g: ValueGraph, v: Value, visited: set<Value>, x: Value)
    requires WellFormed(g) && v < |g| && x < |g| && !g[x].Phi?
    ensures Unwrap(g, v, visited).0 == x <==> Uniform(g, v, x) && Avoids(g, v, visited)
    ensures Unwrap(g, v, visited).0 == x ==> AddsReached(g, v, visited, Unwrap(g, v, visited).1)
    decreases Unvisited(g, visited), 1
  {
    ReachesItself(g, v);
    if !g[v].Phi? {
      LeafReachesItself(g, v);
    } else {
      PhiUnwrapsIffEdges(g, v, visited, x);
      UniformPhi(g, v, x, visited);
      if v !in visited {
        VisitShrinks(g, visited, v);
        EdgesResolveIff(g, g[v].edges, None, visited + {v}, x);
        forall w: Value ensures ReachedFrom(g, g[v].edges, w) || w == v <==> IsPhi(g, w) && Reaches(g, v, w) {
          if ReachedFrom(g, g[v].edges, w) {
            var i :| 0 <= i < |g[v].edges| && Reaches(g, g[v].edges[i], w);
            ReachesVia(g, v, i, w);
          }
          if w != v && Reaches(g, v, w) { ReachesStep(g, v, w); }
        }
      }
    }
  }

  /** A phi is unwrapped to a non-phi exactly if its edges resolve to it; the loop then stops. */
  lemma {:induction false} PhiUnwrapsIffEdges(g: ValueGraph, v: Value, visited: set<Value>, x: Value)
    requires WellFormed(g) && v < |g| && g[v].Phi? && x < |g| && !g[x].Phi?
    ensures Unwrap(g, v, visited).0 == x <==> Resolve(g, v, visited).0 == Some(x)
    ensures Unwrap(g, v, visited).0 == x ==> Unwrap(g, v, visited).1 == Resolve(g, v, visited).1
  {
    var (resolved, seen) := Resolve(g, v, visited);
    if resolved.Some? && g[resolved.value].Phi? {
      VisitShrinks(g, visited, v);
      ResolvedPhiIsVisited(g, g[v].edges, None, visited + {v});
      assert Resolve(g, resolved.value, seen).0.None?;
    }
  }

  lemma {:induction false} ResolvedPhiIsVisited(g: ValueGraph, edges: seq<Value>, unique: Option<Value>,
                                                visited: set<Value>)
    requires WellFormed(g) && EdgesIn(g, edges) && (unique.Some? ==> unique.value < |g|)
    requires unique.Some? && g[unique.value].Phi? ==> unique.value in visited
    ensures var (r, seen) := ResolveEdges(g, edges, unique, visited); r.Some? && g[r.value].Phi? ==> r.value in seen
    decreases |edges|
  {
    if edges != [] {
      var (edge, seen) := Unwrap(g, edges[0], visited);
      PhiResultIsVisited(g, edges[0], visited);
      ResolvedPhiIsVisited(g, edges[1..], Some(edge), seen);
    }
  }

  /** A value is unwrapped to `x`, which is no phi, if and only if everything below it that is no phi is `x`
      and every phi below it has edges and is reached along one route only. */
  lemma {:induction false} UnwrappedIff(g: ValueGraph, v: Value, x: Value)
    requires WellFormed(g) && v < |g| && x < |g| && !g[x].Phi?
    ensures Unwrap(g, v, {}).0 == x <==> AllLeavesAre(g, v, x) && PhisReachedOnce(g, v)
  {
    UnwrapIff(g, v, {}, x);
  }

  /** A phi whose edges are all the same non-phi value is unwrapped to it. */
  lemma {:induction false} UniformPhiIsUnwrapped(g: ValueGraph, phi: Value, x: Value)
    requires WellFormed(g) && phi < |g| && x < |g| && g[phi].Phi? && !g[x].Phi?
    requires g[phi].edges != [] && forall i :: 0 <= i < |g[phi].edges| ==> g[phi].edges[i] == x
    ensures Unwrap(g, phi, {}).0 == x
  {
    LeafReachesItself(g, x);
    LeavesOfPhi(g, phi, x);
    OnceFromBranches(g, phi);
    UnwrappedIff(g, phi, x);
  }

  /** Whatever a phi is merged with, if it is reached along two routes it is not unwrapped. */
  lemma {:induction false} ReachedTwiceIsNotUnwrapped(g: ValueGraph, v: Value, a: seq<nat>, b: seq<nat>, phi: Value)
    requires WellFormed(g) && v < |g| && phi < |g| && g[phi].Phi? && a != b
    requires Arrive(g, v, a) == Some(phi) && Arrive(g, v, b) == Some(phi)
    ensures g[Unwrap(g, v, {}).0].Phi?
  {
    var r := Unwrap(g, v, {}).0;
    if !g[r].Phi? { UnwrappedIff(g, v, r); }
  }

  /** Value 2 merges value 1 with itself, and value 1 merges only value 0, yet value 2 stays a phi. */
  lemma {:induction false} SharedPhiIsNotUnwrapped()
    ensures var g := [Plain, Phi([0]), Phi([1, 1])];
      WellFormed(g) && AllLeavesAre(g, 2, 0) && g[Unwrap(g, 2, {}).0].Phi? && Unwrap(g, 1, {}).0 == 0
  {
    var g: ValueGraph := [Plain, Phi([0]), Phi([1, 1])];
    LeafReachesItself(g, 0);
    UniformPhiIsUnwrapped(g, 1, 0);
    LeavesOfPhi(g, 1, 0);
    LeavesOfPhi(g, 2, 0);
    assert Arrive(g, 1, []) == Some(1);
    ArriveVia(g, 2, 0, []);
    ArriveVia(g, 2, 1, []);
    assert [0] + [] != [1] + [];
    ReachedTwiceIsNotUnwrapped(g, 2, [0] + [], [1] + [], 1);
  }

  /** The phi of a loop that never changes its variable merges value 0 with itself, and stays a phi. */
  lemma {:induction false} LoopPhiIsNotUnwrapped()
    ensures var g := [Plain, Phi([0, 1])]; WellFormed(g) && AllLeavesAre(g, 1, 0) && g[Unwrap(g, 1, {}).0].Phi?
  {
    var g: ValueGraph := [Plain, Phi([0, 1])];
    LoopLeaves(g);
    assert Arrive(g, 1, []) == Some(1);
    ArriveVia(g, 1, 1, []);
    ReachedTwiceIsNotUnwrapped(g, 1, [], [1] + [], 1);
  }

  lemma {:induction false} LoopLeaves(g: ValueGraph)
    requires g == [Plain, Phi([0, 1])]
    ensures AllLeavesAre(g, 1, 0)
  {
    forall w: Value | w < |g| && Reaches(g, 1, w) ensures if g[w].Phi? then g[w].edges != [] else w == 0 {}
  }
}
