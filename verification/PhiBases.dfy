/** Whether a value and the value it unwraps to have the same canonical base (resolver.go:51-72). */
module PhiBases {
  import opened Types
  import opened Resolver
  import opened PhiRoutes

  // ----- A phi that is not unwrapped is never unwrapped to a non-phi later

  lemma {:induction false} ArriveOn(g: ValueGraph, v: Value, a: seq<nat>, b: seq<nat>)
    requires WellFormed(g) && v < |g| && Arrive(g, v, a).Some?
    ensures Arrive(g, v, a + b) == Arrive(g, Arrive(g, v, a).value, b)
    decreases |a|
  {
    if a == [] {
      assert a + b == b;
    } else {
      ArriveOn(g, g[v].edges[a[0]], a[1..], b);
      assert (a + b)[1..] == a[1..] + b;
    }
  }

  lemma {:induction false} ReachesOn(g: ValueGraph, u: Value, v: Value, w: Value)
    requires WellFormed(g) && u < |g| && v < |g| && Reaches(g, u, v) && Reaches(g, v, w)
    ensures Reaches(g, u, w)
  {
    var a :| Arrive(g, u, a) == Some(v);
    var b :| Arrive(g, v, b) == Some(w);
    ArriveOn(g, u, a, b);
  }

  lemma {:induction false} UniformBelow(g: ValueGraph, u: Value, v: Value, x: Value, visited: set<Value>)
    requires WellFormed(g) && u < |g| && v < |g| && Reaches(g, u, v) && Uniform(g, u, x) && Avoids(g, u, visited)
    ensures Uniform(g, v, x) && Avoids(g, v, visited)
  {
    forall w: Value | w < |g| && Reaches(g, v, w) ensures Reaches(g, u, w) { ReachesOn(g, u, v, w); }
    var r :| Arrive(g, u, r) == Some(v);
    forall a, b, w: Value | IsPhi(g, w) && Arrive(g, v, a) == Some(w) && Arrive(g, v, b) == Some(w) ensures a == b {
      ArriveOn(g, u, r, a);
      ArriveOn(g, u, r, b);
      assert (r + a)[|r|..] == a && (r + b)[|r|..] == b;
    }
  }

  /** Edges that agree agree on what the first of them unwraps to. */
  lemma {:induction false} FirstEdgeDecides(g: ValueGraph, edges: seq<Value>, unique: Option<Value>,
                                            visited: set<Value>)
    requires WellFormed(g) && EdgesIn(g, edges) && (unique.Some? ==> unique.value < |g|)
    ensures var r := ResolveEdges(g, edges, unique, visited).0;
      r.Some? ==> if unique.Some? then r == unique else edges != [] && r.value == Unwrap(g, edges[0], visited).0
    decreases |edges|
  {
    if edges != [] {
      var (edge, seen) := Unwrap(g, edges[0], visited);
      FirstEdgeDecides(g, edges[1..], Some(edge), seen);
    }
  }

  /** An unvisited phi is itself, or what its first edge unwraps to. */
  lemma {:induction false} UnwrapsLikeFirstEdge(g: ValueGraph, v: Value, visited: set<Value>)
    requires WellFormed(g) && v < |g| && g[v].Phi? && v !in visited
    ensures var r := Unwrap(g, v, visited).0;
      r == v || (g[v].edges != [] && r == Unwrap(g, g[v].edges[0], visited + {v}).0)
  {
    var (resolved, seen) := Resolve(g, v, visited);
    FirstEdgeDecides(g, g[v].edges, None, visited + {v});
    if resolved.Some? && g[resolved.value].Phi? {
      ResolvedPhiIsVisited(g, g[v].edges, None, visited + {v});
      assert Resolve(g, resolved.value, seen).0.None?;
    }
  }

  /** While nothing below a uniform phi has been visited, nothing is unwrapped to that phi. */
  lemma {:induction false} NothingStopsAtUniform(g: ValueGraph, u: Value, x: Value, v: Value, visited: set<Value>)
    requires WellFormed(g) && u < |g| && v < |g| && x < |g| && g[u].Phi? && !g[x].Phi?
    requires Uniform(g, u, x) && Avoids(g, u, visited)
    ensures Unwrap(g, v, visited).0 != u
    decreases Unvisited(g, visited)
  {
    ReachesItself(g, u);
    if g[v].Phi? && v !in visited {
      if Reaches(g, u, v) {
        UniformBelow(g, u, v, x, visited);
        UnwrapIff(g, v, visited, x);
      } else {
        UnwrapsLikeFirstEdge(g, v, visited);
        VisitShrinks(g, visited, v);
        if g[v].edges != [] { NothingStopsAtUniform(g, u, x, g[v].edges[0], visited + {v}); }
      }
    }
  }

  /** What unwrapping leaves a phi stays a phi when it is unwrapped again, though maybe another one. */
  lemma {:induction false} PhiStaysPhi(g: ValueGraph, v: Value, u: Value)
    requires WellFormed(g) && v < |g| && u == Unwrap(g, v, {}).0 && g[u].Phi?
    ensures g[Unwrap(g, u, {}).0].Phi?
  {
    var x := Unwrap(g, u, {}).0;
    if !g[x].Phi? {
      UnwrapIff(g, u, {}, x);
      NothingStopsAtUniform(g, u, x, v, {});
    }
  }

  // ----- Bases

  /** The base is decided by what the value unwraps to: that phi, or where its loads lead. */
  lemma {:induction false} BaseOfPhi(g: ValueGraph, v: Value, x: Value)
    requires WellFormed(g) && v < |g| && IsBase(g, v, x) && g[Unwrap(g, v, {}).0].Phi?
    ensures x == Unwrap(g, v, {}).0
  {
    var t :| Trail(g, v, t, x) && StopsAt(g, t, x);
    assert |t| > 1 ==> Hop(g, t[0], t[1]);
  }

  /** A value that unwraps to `u` has the base of `u` if and only if unwrapping `u` once more changes nothing; in
      particular whenever `u` is no phi. */
  lemma {:induction false} BasesAgreeIff(g: ValueGraph, v: Value, u: Value, x: Value, y: Value)
    requires WellFormed(g) && v < |g| && u == Unwrap(g, v, {}).0 && IsBase(g, v, x) && IsBase(g, u, y)
    ensures x == y <==> Unwrap(g, u, {}).0 == u
    ensures !g[u].Phi? ==> x == y
  {
    if g[u].Phi? {
      PhiStaysPhi(g, v, u);
      BaseOfPhi(g, v, x);
      BaseOfPhi(g, u, y);
    } else {
      assert Unwrap(g, u, {}).0 == u;
      var t :| Trail(g, v, t, x) && StopsAt(g, t, x);
      assert Trail(g, u, t, x);
      BaseIsUnique(g, u, x, y);
    }
  }

  // ----- Where they do not agree

  /** Five phis over one value: 2 unwraps to 3, and 3 to 1. */
  function Tangle(): ValueGraph {
    [Plain, Phi([5, 0]), Phi([3]), Phi([1, 4]), Phi([1]), Phi([2, 2, 4])]
  }

  lemma {:induction false} VisitedStays(g: ValueGraph, v: Value, visited: set<Value>)
    requires WellFormed(g) && v < |g| && g[v].Phi? && v in visited
    ensures Unwrap(g, v, visited) == (v, visited)
  {
  }

  lemma {:induction false} OneEdge(g: ValueGraph, v: Value, a: Value, visited: set<Value>)
    requires WellFormed(g) && v < |g| && g[v] == Phi([a]) && v !in visited
    ensures a < |g| && Unwrap(g, v, visited) == Unwrap(g, a, visited + {v})
  {
    var edges := g[v].edges;
    assert a == edges[0] && edges[1..] == [];
    var (r, seen) := Unwrap(g, a, visited + {v});
    PhiResultIsVisited(g, a, visited + {v});
    assert ResolveEdges(g, edges, None, visited + {v}) == ResolveEdges(g, edges[1..], Some(r), seen);
    assert ResolveEdges(g, edges[1..], Some(r), seen) == (Some(r), seen);
    assert Resolve(g, v, visited) == (Some(r), seen);
    assert Unwrap(g, r, seen) == (r, seen);
  }

  /** The edges after `a` are looked at only if they agree with it. */
  lemma {:induction false} EdgesDiffer(g: ValueGraph, v: Value, a: Value, b: Value, visited: set<Value>)
    requires WellFormed(g) && v < |g| && a < |g| && b < |g| && v !in visited
    requires g[v].Phi? && |g[v].edges| > 1 && g[v].edges[0] == a && g[v].edges[1] == b
    requires var (r, seen) := Unwrap(g, a, visited + {v}); Unwrap(g, b, seen).0 != r
    ensures Unwrap(g, v, visited) == (v, Unwrap(g, b, Unwrap(g, a, visited + {v}).1).1)
  {
    var edges := g[v].edges;
    assert edges[0] == a && edges[1..][0] == b;
    var (r, seen) := Unwrap(g, a, visited + {v});
    var rest := ResolveEdges(g, edges[1..], Some(r), seen);
    assert rest == (None, Unwrap(g, b, seen).1);
    assert ResolveEdges(g, edges, None, visited + {v}) == rest;
    assert Resolve(g, v, visited) == rest;
  }

  lemma {:induction false} FiveFromTwo(g: ValueGraph)
    requires g == Tangle()
    ensures WellFormed(g) && Unwrap(g, 5, {2, 3, 1}) == (5, {2, 3, 1, 5, 4})
  {
    var most: set<Value> := {2, 3, 1, 5};
    var all: set<Value> := {2, 3, 1, 5, 4};
    var edges := g[5].edges;
    VisitedStays(g, 2, most);
    assert most + {4} == all;
    OneEdge(g, 4, 1, most);
    VisitedStays(g, 1, all);
    assert edges[0] == 2 && edges[1..][0] == 2 && edges[1..][1..][0] == 4;
    assert ResolveEdges(g, edges[1..][1..], Some(2), most) == (None, all);
    assert ResolveEdges(g, edges[1..], Some(2), most) == (None, all);
    assert {2, 3, 1} + {5} == most;
    assert Resolve(g, 5, {2, 3, 1}) == (None, all);
  }

  /** From 2: phi 4 is visited below 5, so that 3 finds it visited and stops. */
  lemma {:induction false} TangleFromTwo(g: ValueGraph)
    requires g == Tangle()
    ensures WellFormed(g) && Unwrap(g, 2, {}).0 == 3
  {
    FiveFromTwo(g);
    assert {2, 3} + {1} == {2, 3, 1};
    EdgesDiffer(g, 1, 5, 0, {2, 3});
    VisitedStays(g, 4, {2, 3, 1, 5, 4});
    assert {2} + {3} == {2, 3};
    EdgesDiffer(g, 3, 1, 4, {2});
    assert {} + {2} == {2};
    OneEdge(g, 2, 3, {});
  }

  lemma {:induction false} OneFromThree(g: ValueGraph)
    requires g == Tangle()
    ensures WellFormed(g) && Unwrap(g, 1, {3}) == (1, {3, 1, 5, 2})
  {
    var most: set<Value> := {3, 1, 5, 2};
    assert {3, 1, 5} + {2} == most;
    OneEdge(g, 2, 3, {3, 1, 5});
    VisitedStays(g, 3, most);
    VisitedStays(g, 2, most);
    assert {3, 1} + {5} == {3, 1, 5};
    EdgesDiffer(g, 5, 2, 2, {3, 1});
    assert {3} + {1} == {3, 1};
    EdgesDiffer(g, 1, 5, 0, {3});
  }

  /** From 3: phi 4 is not visited before 3 comes to it, and both edges of 3 lead to 1. */
  lemma {:induction false} TangleFromThree(g: ValueGraph)
    requires g == Tangle()
    ensures WellFormed(g) && Unwrap(g, 3, {}).0 == 1
  {
    var most: set<Value> := {3, 1, 5, 2};
    var all: set<Value> := {3, 1, 5, 2, 4};
    OneFromThree(g);
    assert most + {4} == all;
    OneEdge(g, 4, 1, most);
    VisitedStays(g, 1, all);
    var edges := g[3].edges;
    assert edges[0] == 1 && edges[1..][0] == 4;
    assert ResolveEdges(g, edges[1..][1..], Some(1), all) == (Some(1), all);
    assert ResolveEdges(g, edges[1..], Some(1), most) == (Some(1), all);
    assert {} + {3} == {3};
    assert Resolve(g, 3, {}) == (Some(1), all);
  }

  /** So the base of 2 is 3, and the base of 3, which unwrapping has shown to be the same value, is 1. */
  lemma {:induction false} BasesCanDiffer()
    ensures var g := Tangle();
      WellFormed(g) && Unwrap(g, 2, {}).0 == 3 && Canonical(g, 2) == 3 && Canonical(g, 3) == 1
  {
    TangleFromTwo(Tangle());
    TangleFromThree(Tangle());
  }
}
