/** Lock requirements, transitive acquisitions and lock-order edges across calls (interprocedural.go). */
module Interprocedural {
  import opened Types
  import opened Reach
  import opened FixedPoint
  import opened Digraph
  import LockOrder

  /** `isPrePublicationConstructorCall`, a property of the call site. */
  type PrePublication = CallSite -> bool

  /** The call passes the requirement for `k` on to its caller. */
  predicate PassesOn(prePub: PrePublication, s: CallSite, k: Key) {
    k !in s.held && !prePub(s)
  }

  /** Requirement hops for `k`, from callee to caller. */
  function NeedHops(sites: seq<CallSite>, prePub: PrePublication, k: Key): Relation {
    set s | s in sites && PassesOn(prePub, s, k) :: (s.callee, s.caller)
  }

  /** Call hops, from callee to caller. */
  function CallHops(sites: seq<CallSite>): Relation {
    set s | s in sites :: (s.callee, s.caller)
  }

  function NeedSpread(sites: seq<CallSite>, prePub: PrePublication): Spread {
    k => NeedHops(sites, prePub, k)
  }

  function CallSpread(sites: seq<CallSite>): Spread {
    _ => CallHops(sites)
  }

  function Functions(sites: seq<CallSite>, start: Table): set<Fn> {
    start.Keys + set s | s in sites :: s.caller
  }

  const MAX_ITERATIONS := 1000

  datatype Requirement = Requirement(fn: Fn, key: Key)

  /** The facts grow from `before` to `after`, and `changed` tells whether they did. */
  ghost predicate Grew(before: Table, after: Table, changed: bool) {
    && (forall k :: Having(before, k) <= Having(after, k))
    && (!changed ==> forall k :: Having(after, k) == Having(before, k))
    && (changed ==> exists k, f :: f in Having(after, k) && f !in Having(before, k))
  }

  ghost predicate AddKeeps(spread: Spread, start: Table, before: Table, t: Table, changed: bool) {
    Sound(spread, start, t) && Grew(before, t, changed)
  }

  /** Adding a fact that follows by one hop keeps the table sound. */
  lemma {:induction false} AddOne(spread: Spread, start: Table, before: Table, t: Table, changed: bool, from: Fn, f: Fn,
                                  k: Key)
    requires AddKeeps(spread, start, before, t, changed)
    requires k in At(t, from) && (from, f) in spread(k) && k !in At(t, f)
    ensures AddKeeps(spread, start, before, Add(t, f, k), true)
  {
    var u := Add(t, f, k);
    forall j, g | g in Having(u, j) ensures Reachable(spread(j), Having(start, j), g) {
      HavingAfterAdd(t, f, k, j);
      if g !in Having(t, j) {
        assert from in Having(t, k);
        StepIsReachable(spread(k), Having(start, k), from, f);
      }
    }
    forall j ensures Having(before, j) <= Having(u, j) { HavingAfterAdd(t, f, k, j); }
    HavingAfterAdd(t, f, k, k);
    assert f in Having(u, k) && f !in Having(before, k);
  }

  class Propagation {
    const sites: seq<CallSite>
    const prePub: PrePublication
    var needs: Table     // per function: locks its callers must hold
    var acquired: Table  // per function: locks it or a callee acquires

    constructor (sites: seq<CallSite>, prePub: PrePublication, needs: Table, acquired: Table)
      ensures this.sites == sites && this.prePub == prePub && this.needs == needs && this.acquired == acquired
    {
      this.sites, this.prePub, this.needs, this.acquired := sites, prePub, needs, acquired;
    }

    /** Passes the requirement of `callee` for `k` to each caller that neither holds the lock nor is
        still constructing the object. */
    method PassToCallers(callee: Fn, k: Key, wasChanged: bool, ghost start: Table, ghost before: Table)
      returns (changed: bool)
      requires k in At(needs, callee)
      requires AddKeeps(NeedSpread(sites, prePub), start, before, needs, wasChanged)
      modifies this`needs
      ensures AddKeeps(NeedSpread(sites, prePub), start, before, needs, changed)
      ensures forall j :: old(Having(needs, j)) <= Having(needs, j)
      ensures forall s :: s in sites && s.callee == callee && PassesOn(prePub, s, k) ==> s.caller in Having(needs, k)
    {
      changed := wasChanged;
      var i := 0;
      while i < |sites|
        invariant 0 <= i <= |sites| && k in At(needs, callee)
        invariant AddKeeps(NeedSpread(sites, prePub), start, before, needs, changed)
        invariant forall j :: old(Having(needs, j)) <= Having(needs, j)
        invariant forall n :: 0 <= n < i && sites[n].callee == callee && PassesOn(prePub, sites[n], k) ==>
          sites[n].caller in Having(needs, k)
      {
        var s := sites[i];
        if s.callee == callee && k !in s.held && !prePub(s) && k !in At(needs, s.caller) {
          assert s in sites && (callee, s.caller) in NeedHops(sites, prePub, k);
          AddOne(NeedSpread(sites, prePub), start, before, needs, changed, callee, s.caller, k);
          forall j
            ensures Having(needs, j) <= Having(Add(needs, s.caller, k), j)
          {
            HavingAfterAdd(needs, s.caller, k, j);
          }
          HavingAfterAdd(needs, s.caller, k, k);
          needs := Add(needs, s.caller, k);
          changed := true;
        }
        i := i + 1;
      }
    }

    /** One sweep over all functions and their requirements.  Map iteration visits the entries present at
        its start in any order; entries inserted on the way may or may not be visited. */
    method SweepNeeds(ghost start: Table) returns (changed: bool)
      requires Sound(NeedSpread(sites, prePub), start, needs)
      modifies this`needs
      ensures Sound(NeedSpread(sites, prePub), start, needs)
      ensures Swept(NeedSpread(sites, prePub), old(needs), needs, changed)
    {
      ghost var before := needs;
      var present := set f, k | f in needs && k in needs[f] :: Requirement(f, k);
      var todo: set<Requirement> :| present <= todo;
      changed := false;
      while todo != {}
        invariant AddKeeps(NeedSpread(sites, prePub), start, before, needs, changed)
        invariant forall f, k :: f in Having(before, k) && Requirement(f, k) !in todo ==>
          forall s :: s in sites && s.callee == f && PassesOn(prePub, s, k) ==> s.caller in Having(needs, k)
        decreases todo
      {
        var r :| r in todo;
        if r.key in At(needs, r.fn) { changed := PassToCallers(r.fn, r.key, changed, start, before); }
        todo := todo - {r};
      }
    }

    /** Requirement propagation.  Whatever the visiting order, the requirements never exceed the reachable
        ones; if the loop stops by itself they are exactly those; and with at most as many functions as
        sweeps allowed it does. */
    method PropagateNeeds() returns (converged: bool)
      modifies this`needs
      ensures Sound(NeedSpread(sites, prePub), old(needs), needs)
      ensures converged ==> Exact(NeedSpread(sites, prePub), old(needs), needs)
      ensures |Functions(sites, old(needs))| <= 1000 ==> converged
    {
      ghost var spread, start := NeedSpread(sites, prePub), needs;
      ghost var fns := Functions(sites, start);
      NeedsInside(sites, prePub, start);
      ProgressStart(spread, start, fns);
      var changed, i := true, 0;
      while changed && i < MAX_ITERATIONS
        invariant 0 <= i <= MAX_ITERATIONS && Progress(spread, start, fns, needs, i, changed)
      {
        ghost var before, was := needs, changed;
        changed := SweepNeeds(start);
        ProgressStep(spread, start, fns, before, needs, i, was, changed);
        i := i + 1;
      }
      if !changed { StableIsExact(spread, start, needs, i); }
      return !changed;
    }

    /** One sweep over the call sites in order: the caller takes over all acquisitions of the callee. */
    method SweepAcquired(ghost start: Table) returns (changed: bool)
      requires Sound(CallSpread(sites), start, acquired)
      modifies this`acquired
      ensures Sound(CallSpread(sites), start, acquired)
      ensures Swept(CallSpread(sites), old(acquired), acquired, changed)
    {
      ghost var before := acquired;
      changed := false;
      var i := 0;
      while i < |sites|
        invariant 0 <= i <= |sites|
        invariant AddKeeps(CallSpread(sites), start, before, acquired, changed)
        invariant forall n, k :: 0 <= n < i && sites[n].callee in Having(before, k) ==>
          sites[n].caller in Having(acquired, k)
      {
        changed := TakeOver(sites[i], changed, start, before);
        i := i + 1;
      }
      forall k, a, b | (a, b) in CallHops(sites) && a in Having(before, k) ensures b in Having(acquired, k) {
        var n :| 0 <= n < |sites| && (a, b) == (sites[n].callee, sites[n].caller);
      }
    }

    method TakeOver(s: CallSite, wasChanged: bool, ghost start: Table, ghost before: Table) returns (changed: bool)
      requires s in sites && AddKeeps(CallSpread(sites), start, before, acquired, wasChanged)
      modifies this`acquired
      ensures AddKeeps(CallSpread(sites), start, before, acquired, changed)
      ensures forall k :: old(Having(acquired, k)) <= Having(acquired, k)
      ensures forall k :: k in old(At(acquired, s.callee)) ==> s.caller in Having(acquired, k)
    {
      changed := wasChanged;
      var todo := At(acquired, s.callee);
      while todo != {}
        invariant todo <= At(acquired, s.callee)
        invariant AddKeeps(CallSpread(sites), start, before, acquired, changed)
        invariant forall k :: old(Having(acquired, k)) <= Having(acquired, k)
        invariant forall k :: k in old(At(acquired, s.callee)) && k !in todo ==> s.caller in Having(acquired, k)
        decreases todo
      {
        var k :| k in todo;
        if k !in At(acquired, s.caller) {
          AddOne(CallSpread(sites), start, before, acquired, changed, s.callee, s.caller, k);
          forall j
            ensures Having(acquired, j) <= Having(Add(acquired, s.caller, k), j)
          {
            HavingAfterAdd(acquired, s.caller, k, j);
          }
          HavingAfterAdd(acquired, s.caller, k, k);
          acquired := Add(acquired, s.caller, k);
          changed := true;
        }
        todo := todo - {k};
      }
    }

    /** Propagation of acquisitions, with the same guarantees. */
    method PropagateAcquired() returns (converged: bool)
      modifies this`acquired
      ensures Sound(CallSpread(sites), old(acquired), acquired)
      ensures converged ==> Exact(CallSpread(sites), old(acquired), acquired)
      ensures |Functions(sites, old(acquired))| <= 1000 ==> converged
    {
      ghost var spread, start := CallSpread(sites), acquired;
      ghost var fns := Functions(sites, start);
      CallsInside(sites, start);
      ProgressStart(spread, start, fns);
      var changed, i := true, 0;
      while changed && i < MAX_ITERATIONS
        invariant 0 <= i <= MAX_ITERATIONS && Progress(spread, start, fns, acquired, i, changed)
      {
        ghost var before, was := acquired, changed;
        changed := SweepAcquired(start);
        ProgressStep(spread, start, fns, before, acquired, i, was, changed);
        i := i + 1;
      }
      if !changed { StableIsExact(spread, start, acquired, i); }
      return !changed;
    }

    /** Adds an edge from every lock held at a call to every other lock the callee may acquire. */
    method CollectOrderEdges(graph: LockOrder.LockOrderGraph)
      requires LockOrder.Filed(graph.edges) && LockOrder.Deduplicated(graph.edges)
      modifies graph
      ensures LockOrder.Filed(graph.edges) && LockOrder.Deduplicated(graph.edges)
      ensures old(LockOrder.EdgeSet(graph.edges)) <= LockOrder.EdgeSet(graph.edges)
      ensures forall s, h, a :: s in sites && OrdersAcross(acquired, s, h, a) ==>
        HasEdge(LockOrder.EdgeSet(graph.edges), h, a)
      ensures Crossing(sites, acquired, old(LockOrder.EdgeSet(graph.edges)), LockOrder.EdgeSet(graph.edges))
    {
      var i := 0;
      while i < |sites|
        invariant 0 <= i <= |sites|
        invariant LockOrder.Filed(graph.edges) && LockOrder.Deduplicated(graph.edges)
        invariant old(LockOrder.EdgeSet(graph.edges)) <= LockOrder.EdgeSet(graph.edges)
        invariant forall n, h, a :: 0 <= n < i && OrdersAcross(acquired, sites[n], h, a) ==>
          HasEdge(LockOrder.EdgeSet(graph.edges), h, a)
        invariant Crossing(sites, acquired, old(LockOrder.EdgeSet(graph.edges)), LockOrder.EdgeSet(graph.edges))
      {
        ghost var before := LockOrder.EdgeSet(graph.edges);
        assert sites[i] in sites;
        EdgesOfSite(graph, sites[i]);
        MoreCrossEdges(sites, acquired, sites[i], old(LockOrder.EdgeSet(graph.edges)), before,
                       LockOrder.EdgeSet(graph.edges));
        assert forall h, a :: HasEdge(before, h, a) ==> HasEdge(LockOrder.EdgeSet(graph.edges), h, a);
        i := i + 1;
      }
    }

    method EdgesOfSite(graph: LockOrder.LockOrderGraph, s: CallSite)
      requires LockOrder.Filed(graph.edges) && LockOrder.Deduplicated(graph.edges)
      modifies graph
      ensures LockOrder.Filed(graph.edges) && LockOrder.Deduplicated(graph.edges)
      ensures old(LockOrder.EdgeSet(graph.edges)) <= LockOrder.EdgeSet(graph.edges)
      ensures forall h, a :: OrdersAcross(acquired, s, h, a) ==> HasEdge(LockOrder.EdgeSet(graph.edges), h, a)
      ensures forall e :: e in LockOrder.EdgeSet(graph.edges) - old(LockOrder.EdgeSet(graph.edges)) ==>
        CrossEdge(acquired, s, e)
    {
      var todo := set h, a | h in s.held && a in At(acquired, s.callee) :: (h, a);
      while todo != {}
        invariant forall h, a :: (h, a) in todo ==> h in s.held && a in At(acquired, s.callee)
        invariant LockOrder.Filed(graph.edges) && LockOrder.Deduplicated(graph.edges)
        invariant old(LockOrder.EdgeSet(graph.edges)) <= LockOrder.EdgeSet(graph.edges)
        invariant forall h, a :: OrdersAcross(acquired, s, h, a) && (h, a) !in todo ==>
          HasEdge(LockOrder.EdgeSet(graph.edges), h, a)
        invariant forall e :: e in LockOrder.EdgeSet(graph.edges) - old(LockOrder.EdgeSet(graph.edges)) ==>
          CrossEdge(acquired, s, e)
        decreases todo
      {
        var pair :| pair in todo;
        var (h, a) := pair;
        if h != a { graph.AddEdge(LockOrderEdge(h, a, s.pos, s.caller)); }
        todo := todo - {(h, a)};
      }
    }
  }

  /** The call holds `h` and its callee may acquire the different lock `a`. */
  predicate OrdersAcross(acquired: Table, s: CallSite, h: Key, a: Key) {
    h in s.held && a in At(acquired, s.callee) && h != a
  }

  /** The edge that the call gives rise to. */
  predicate CrossEdge(acquired: Table, s: CallSite, e: LockOrderEdge) {
    OrdersAcross(acquired, s, e.from, e.to) && e.pos == s.pos && e.fn == s.caller
  }

  /** Every new edge comes from one of the calls. */
  ghost predicate Crossing(sites: seq<CallSite>, acquired: Table, before: Edges, edges: Edges) {
    forall e :: e in edges && e !in before ==> exists s :: s in sites && CrossEdge(acquired, s, e)
  }

  lemma {:induction false} MoreCrossEdges(sites: seq<CallSite>, acquired: Table, s: CallSite, before: Edges,
                                          mid: Edges, edges: Edges)
    requires Crossing(sites, acquired, before, mid) && s in sites
    requires forall e :: e in edges - mid ==> CrossEdge(acquired, s, e)
    ensures Crossing(sites, acquired, before, edges)
  {
    forall e | e in edges && e !in before ensures exists c :: c in sites && CrossEdge(acquired, c, e) {
      if e !in mid { assert e in edges - mid; }
    }
  }

  ghost predicate HasEdge(edges: Edges, from: Key, to: Key) {
    exists e :: e in edges && e.from == from && e.to == to
  }

  lemma {:induction false} NeedsInside(sites: seq<CallSite>, prePub: PrePublication, start: Table)
    ensures AllInside(NeedSpread(sites, prePub), start, Functions(sites, start))
  {
  }

  lemma {:induction false} CallsInside(sites: seq<CallSite>, start: Table)
    ensures AllInside(CallSpread(sites), start, Functions(sites, start))
  {
  }
}
