/** Resolving a lock's base value through phi nodes and loads (resolver.go). */
module Resolver {
  import opened Types
  import opened Sets

  datatype Node = Phi(edges: seq<Value>) | Load(cell: Value) | Plain

  /** The values of a function; phi edges may form cycles. */
  type ValueGraph = seq<Node>

  ghost predicate WellFormed(g: ValueGraph) {
    forall v :: 0 <= v < |g| ==>
      match g[v]
      case Phi(edges) => forall i :: 0 <= i < |edges| ==> edges[i] < |g|
      case Load(cell) => cell < |g|
      case Plain => true
  }

  ghost function Unvisited(g: ValueGraph, visited: set<Value>): set<Value> {
    set v | v in Range(|g|) && v !in visited
  }

  lemma {:induction false} VisitShrinks(g: ValueGraph, visited: set<Value>, v: Value)
    requires v < |g| && v !in visited
    ensures Unvisited(g, visited + {v}) < Unvisited(g, visited)
  {
    assert v in Unvisited(g, visited);
  }

  lemma {:induction false} UnvisitedShrinks(g: ValueGraph, a: set<Value>, b: set<Value>)
    requires a <= b
    ensures Unvisited(g, b) <= Unvisited(g, a)
  {
  }

  // ----- Phi unwrapping

  /** The unwrapped value and the phis visited on the way. */
  ghost function Unwrap(g: ValueGraph, v: Value, visited: set<Value>): (r: (Value, set<Value>))
    requires WellFormed(g) && v < |g|
    ensures r.0 < |g| && visited <= r.1
    decreases Unvisited(g, visited), 1
  {
    if !g[v].Phi? then (v, visited) else
    var (resolved, seen) := Resolve(g, v, visited);
    match resolved
    case None => (v, seen)
    case Some(u) =>
      VisitShrinks(g, visited, v);
      UnvisitedShrinks(g, visited + {v}, seen);
      Unwrap(g, u, seen)
  }

  /** The value all edges of an unvisited phi agree on, if there is one. */
  ghost function Resolve(g: ValueGraph, phi: Value, visited: set<Value>): (r: (Option<Value>, set<Value>))
    requires WellFormed(g) && phi < |g| && g[phi].Phi?
    ensures visited <= r.1 && phi in r.1
    ensures r.0.Some? ==> r.0.value < |g| && phi !in visited
    decreases Unvisited(g, visited), 0
  {
    if phi in visited then (None, visited) else
    VisitShrinks(g, visited, phi);
    ResolveEdges(g, g[phi].edges, None, visited + {phi})
  }

  ghost function ResolveEdges(g: ValueGraph, edges: seq<Value>, unique: Option<Value>, visited: set<Value>)
    : (r: (Option<Value>, set<Value>))
    requires WellFormed(g) && (forall i :: 0 <= i < |edges| ==> edges[i] < |g|) && (unique.Some? ==> unique.value < |g|)
    ensures visited <= r.1 && (r.0.Some? ==> r.0.value < |g|)
    decreases Unvisited(g, visited), 2 + |edges|
  {
    if edges == [] then (unique, visited) else
    var (edge, seen) := Unwrap(g, edges[0], visited);
    UnvisitedShrinks(g, visited, seen);
    if unique.Some? && unique.value != edge then (None, seen)
    else ResolveEdges(g, edges[1..], Some(edge), seen)
  }

  method UnwrapVisited(g: ValueGraph, v: Value, visited: set<Value>) returns (r: Value, seen: set<Value>)
    requires WellFormed(g) && v < |g|
    ensures (r, seen) == Unwrap(g, v, visited)
    decreases Unvisited(g, visited), 1
  {
    r, seen := v, visited;
    while g[r].Phi?
      invariant r < |g| && visited <= seen && Unwrap(g, r, seen) == Unwrap(g, v, visited)
      decreases Unvisited(g, seen)
    {
      ghost var before := seen;
      UnvisitedShrinks(g, visited, seen);
      var resolved;
      resolved, seen := ResolvePhiIfUniform(g, r, seen);
      if resolved.None? { return; }
      VisitShrinks(g, before, r);
      UnvisitedShrinks(g, before + {r}, seen);
      r := resolved.value;
    }
  }

  method ResolvePhiIfUniform(g: ValueGraph, phi: Value, visited: set<Value>)
    returns (r: Option<Value>, seen: set<Value>)
    requires WellFormed(g) && phi < |g| && g[phi].Phi?
    ensures (r, seen) == Resolve(g, phi, visited)
    decreases Unvisited(g, visited), 0
  {
    if phi in visited { return None, visited; }
    VisitShrinks(g, visited, phi);
    r, seen := None, visited + {phi};
    var edges := g[phi].edges;
    var i := 0;
    while i < |edges|
      invariant 0 <= i <= |edges| && visited + {phi} <= seen && (r.Some? ==> r.value < |g|)
      invariant ResolveEdges(g, edges[i..], r, seen) == Resolve(g, phi, visited)
    {
      assert edges[i..][0] == edges[i] && edges[i..][1..] == edges[i + 1..];
      UnvisitedShrinks(g, visited + {phi}, seen);
      var edge;
      edge, seen := UnwrapVisited(g, edges[i], seen);
      if r.Some? && r.value != edge { return None, seen; }
      r := Some(edge);
      i := i + 1;
    }
  }

  method UnwrapSSAValue(g: ValueGraph, v: Value) returns (r: Value)
    requires WellFormed(g) && v < |g|
    ensures r == Unwrap(g, v, {}).0
  {
    var seen;
    r, seen := UnwrapVisited(g, v, {});
  }

  /** A run-time valuation: each phi has the value of one of its edges. */
  ghost predicate PhiValuation(g: ValueGraph, val: seq<int>) {
    && |val| == |g|
    && forall v :: 0 <= v < |g| && g[v].Phi? && |g[v].edges| > 0 ==>
         exists i :: 0 <= i < |g[v].edges| && g[v].edges[i] < |g| && val[g[v].edges[i]] == val[v]
  }

  /** Unwrapping never changes the value, on any phi graph and from any visited set. */
  lemma {:induction false} UnwrapPreservesValue(g: ValueGraph, v: Value, visited: set<Value>, val: seq<int>)
    requires WellFormed(g) && v < |g| && PhiValuation(g, val)
    ensures val[Unwrap(g, v, visited).0] == val[v]
    decreases Unvisited(g, visited), 1
  {
    if g[v].Phi? {
      var (resolved, seen) := Resolve(g, v, visited);
      if resolved.Some? {
        ResolvePreservesValue(g, v, visited, val);
        VisitShrinks(g, visited, v);
        UnvisitedShrinks(g, visited + {v}, seen);
        UnwrapPreservesValue(g, resolved.value, seen, val);
      }
    }
  }

  lemma {:induction false} ResolvePreservesValue(g: ValueGraph, phi: Value, visited: set<Value>, val: seq<int>)
    requires WellFormed(g) && phi < |g| && g[phi].Phi? && PhiValuation(g, val) && Resolve(g, phi, visited).0.Some?
    ensures val[Resolve(g, phi, visited).0.value] == val[phi]
    decreases Unvisited(g, visited), 0
  {
    VisitShrinks(g, visited, phi);
    EdgesAgreeOnValue(g, g[phi].edges, None, visited + {phi}, val);
    assert g[phi].edges != [];
  }

  /** If all edges unwrap to one value then every edge has that value. */
  lemma {:induction false} EdgesAgreeOnValue(g: ValueGraph, edges: seq<Value>, unique: Option<Value>,
                                             visited: set<Value>, val: seq<int>)
    requires WellFormed(g) && (forall i :: 0 <= i < |edges| ==> edges[i] < |g|) && (unique.Some? ==> unique.value < |g|)
    requires PhiValuation(g, val) && ResolveEdges(g, edges, unique, visited).0.Some?
    ensures var r := ResolveEdges(g, edges, unique, visited).0.value;
      (forall i :: 0 <= i < |edges| ==> val[edges[i]] == val[r]) && (unique.Some? ==> unique.value == r)
    decreases Unvisited(g, visited), 2 + |edges|
  {
    if edges != [] {
      var (edge, seen) := Unwrap(g, edges[0], visited);
      UnvisitedShrinks(g, visited, seen);
      UnwrapPreservesValue(g, edges[0], visited, val);
      EdgesAgreeOnValue(g, edges[1..], Some(edge), seen, val);
    }
  }

  // ----- Canonical bases

  /** Follows loads to the cell they read, unwrapping phis, until a value repeats. */
  ghost function Follow(g: ValueGraph, v: Value, seen: set<Value>): (r: Value)
    requires WellFormed(g) && v < |g|
    ensures r < |g|
    decreases Unvisited(g, seen)
  {
    if v in seen || !g[v].Load? then v else
    VisitShrinks(g, seen, v);
    Follow(g, Next(g, v), seen + {v})
  }

  ghost function Next(g: ValueGraph, v: Value): (r: Value)
    requires WellFormed(g) && v < |g| && g[v].Load?
    ensures r < |g|
  {
    Unwrap(g, g[v].cell, {}).0
  }

  ghost function Canonical(g: ValueGraph, v: Value): (r: Value)
    requires WellFormed(g) && v < |g|
    ensures r < |g|
  {
    Follow(g, Unwrap(g, v, {}).0, {})
  }

  /** From the load `a` to its cell, unwrapped. */
  ghost predicate Hop(g: ValueGraph, a: Value, b: Value)
    requires WellFormed(g)
  {
    a < |g| && b < |g| && g[a].Load? && b == Unwrap(g, g[a].cell, {}).0
  }

  /** The values gone through: `v` unwrapped, then from each load its cell unwrapped, to `r`. */
  ghost predicate Trail(g: ValueGraph, v: Value, trail: seq<Value>, r: Value)
    requires WellFormed(g) && v < |g|
  {
    && |trail| > 0 && trail[0] == Unwrap(g, v, {}).0 && trail[|trail| - 1] == r < |g|
    && forall i :: 0 < i < |trail| ==> Hop(g, trail[i - 1], trail[i])
  }

  /** No value is gone through twice, except that `r` may be the first repetition; it is a load only then. */
  ghost predicate StopsAt(g: ValueGraph, trail: seq<Value>, r: Value) {
    && |trail| > 0 && r < |g| && (forall i, j :: 0 <= i < j < |trail| - 1 ==> trail[i] != trail[j])
    && (g[r].Load? <==> r in trail[..|trail| - 1])
  }

  /** Loads are followed to their cells, phis unwrapped, until no load is left or a value repeats. */
  ghost predicate IsBase(g: ValueGraph, v: Value, r: Value)
    requires WellFormed(g) && v < |g|
  {
    exists trail :: Trail(g, v, trail, r) && StopsAt(g, trail, r)
  }

  /** The trail so far, and the loads seen on it. */
  ghost predicate Underway(g: ValueGraph, v: Value, trail: seq<Value>, r: Value, seen: set<Value>)
    requires WellFormed(g) && v < |g|
  {
    && Trail(g, v, trail, r)
    && (forall x :: x in seen <==> x in trail[..|trail| - 1])
    && (forall i, j :: 0 <= i < j < |trail| - 1 ==> trail[i] != trail[j])
  }

  lemma {:induction false} OneHopMore(g: ValueGraph, v: Value, trail: seq<Value>, r: Value, seen: set<Value>, n: Value)
    requires WellFormed(g) && v < |g| && Underway(g, v, trail, r, seen) && r !in seen && Hop(g, r, n)
    ensures Underway(g, v, trail + [n], n, seen + {r})
  {
    var more := trail + [n];
    assert more[..|more| - 1] == trail == trail[..|trail| - 1] + [r];
    forall i | 0 < i < |more| ensures Hop(g, more[i - 1], more[i]) {
      if i < |trail| { assert more[i - 1] == trail[i - 1] && more[i] == trail[i]; }
    }
    forall i, j | 0 <= i < j < |more| - 1 ensures more[i] != more[j] {
      if j == |trail| - 1 { assert trail[i] in trail[..|trail| - 1]; }
    }
  }

  lemma {:induction false} Arrived(g: ValueGraph, v: Value, trail: seq<Value>, r: Value, seen: set<Value>)
    requires WellFormed(g) && v < |g| && Underway(g, v, trail, r, seen) && (r in seen || !g[r].Load?)
    ensures IsBase(g, v, r)
  {
    if r in seen {
      var i :| 0 <= i < |trail| - 1 && trail[i] == r;
      assert Hop(g, trail[i + 1 - 1], trail[i + 1]);
    }
    assert StopsAt(g, trail, r);
  }

  method CanonicalizeBase(g: ValueGraph, v: Value) returns (r: Value)
    requires WellFormed(g) && v < |g|
    ensures r == Canonical(g, v) && IsBase(g, v, r)
    ensures g[v].Plain? ==> r == v
  {
    r := UnwrapSSAValue(g, v);
    var seen: set<Value> := {};
    ghost var trail := [r];
    while r !in seen && g[r].Load?
      invariant r < |g| && Follow(g, r, seen) == Canonical(g, v)
      invariant Underway(g, v, trail, r, seen)
      invariant g[v].Plain? ==> r == v
      decreases Unvisited(g, seen)
    {
      VisitShrinks(g, seen, r);
      var next := UnwrapSSAValue(g, g[r].cell);
      OneHopMore(g, v, trail, r, seen, next);
      trail, seen, r := trail + [next], seen + {r}, next;
    }
    Arrived(g, v, trail, r, seen);
  }

  lemma {:induction false} TrailsAgree(g: ValueGraph, v: Value, s: seq<Value>, x: Value, t: seq<Value>, y: Value,
                                       n: nat)
    requires WellFormed(g) && v < |g| && Trail(g, v, s, x) && Trail(g, v, t, y) && n < |s| && n < |t|
    ensures s[n] == t[n]
  {
    if n > 0 {
      TrailsAgree(g, v, s, x, t, y, n - 1);
      assert Hop(g, s[n - 1], s[n]) && Hop(g, t[n - 1], t[n]);
    }
  }

  lemma {:induction false} StopsTogether(g: ValueGraph, v: Value, s: seq<Value>, x: Value, t: seq<Value>, y: Value)
    requires WellFormed(g) && v < |g| && Trail(g, v, s, x) && StopsAt(g, s, x) && Trail(g, v, t, y) && StopsAt(g, t, y)
    ensures |t| <= |s|
  {
    if |s| < |t| {
      var n := |s| - 1;
      TrailsAgree(g, v, s, x, t, y, n);
      assert Hop(g, t[n + 1 - 1], t[n + 1]);
      var i :| 0 <= i < n && s[i] == x;
      TrailsAgree(g, v, s, x, t, y, i);
    }
  }

  /** Every value has one base. */
  lemma {:induction false} BaseIsUnique(g: ValueGraph, v: Value, x: Value, y: Value)
    requires WellFormed(g) && v < |g| && IsBase(g, v, x) && IsBase(g, v, y)
    ensures x == y
  {
    var s :| Trail(g, v, s, x) && StopsAt(g, s, x);
    var t :| Trail(g, v, t, y) && StopsAt(g, t, y);
    StopsTogether(g, v, s, x, t, y);
    StopsTogether(g, v, t, y, s, x);
    TrailsAgree(g, v, s, x, t, y, |s| - 1);
  }

  /** Following loads from `v` ends, after `n` steps, at `x`, which is no load. */
  ghost predicate Ends(g: ValueGraph, v: Value, n: nat, x: Value)
    requires WellFormed(g) && v < |g|
    decreases n
  {
    if g[v].Load? then n > 0 && Ends(g, Next(g, v), n - 1, x) else n == 0 && v == x
  }

  lemma {:induction false} EndIsUnique(g: ValueGraph, v: Value, m: nat, x: Value, n: nat, y: Value)
    requires WellFormed(g) && v < |g| && Ends(g, v, m, x) && Ends(g, v, n, y)
    ensures m == n && x == y
    decreases m
  {
    if g[v].Load? { EndIsUnique(g, Next(g, v), m - 1, x, n - 1, y); }
  }

  /** A chain that ends is followed to its end, unless it runs into a value already seen. */
  lemma {:induction false} FollowReachesEnd(g: ValueGraph, v: Value, n: nat, x: Value, seen: set<Value>)
    requires WellFormed(g) && v < |g| && Ends(g, v, n, x)
    requires forall s :: s in seen && s < |g| && g[s].Load? ==> forall m: nat :: m <= n ==> !Ends(g, s, m, x)
    ensures Follow(g, v, seen) == x
    decreases n
  {
    if g[v].Load? {
      VisitShrinks(g, seen, v);
      forall s | s in seen + {v} && s < |g| && g[s].Load? ensures forall m: nat :: m <= n - 1 ==> !Ends(g, s, m, x) {
        if s == v {
          forall m: nat | m <= n - 1 ensures !Ends(g, v, m, x) {
            if Ends(g, v, m, x) { EndIsUnique(g, v, m, x, n, x); }
          }
        }
      }
      FollowReachesEnd(g, Next(g, v), n - 1, x, seen + {v});
    }
  }

  /** Two loads from one cell have the same canonical base, if following the cell ends. */
  lemma {:induction false} LoadsFromOneCellAgree(g: ValueGraph, a: Value, b: Value, n: nat, x: Value)
    requires WellFormed(g) && a < |g| && b < |g| && g[a].Load? && g[b] == g[a] && Ends(g, a, n, x)
    ensures Canonical(g, a) == Canonical(g, b) == x
  {
    assert Ends(g, b, n, x);
    FollowReachesEnd(g, a, n, x, {});
    FollowReachesEnd(g, b, n, x, {});
  }
}
