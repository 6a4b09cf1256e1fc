/** Which functions run in a concurrent context (concurrency.go). */
module Concurrency {
  import opened Types
  import opened Reach
  import opened CallChains

  /** Call hops from caller to callee. */
  function ForwardHops(sites: seq<CallSite>): Relation {
    set s | s in sites :: (s.caller, s.callee)
  }

  function Callees(forward: map<Fn, seq<Fn>>, f: Fn): seq<Fn> {
    if f in forward then forward[f] else []
  }

  lemma {:induction false} HopsAfter(sites: seq<CallSite>, i: nat)
    requires i < |sites|
    ensures ForwardHops(sites[..i + 1]) == ForwardHops(sites[..i]) + {(sites[i].caller, sites[i].callee)}
  {
    assert sites[..i + 1] == sites[..i] + [sites[i]];
    assert sites[i] in sites[..i + 1];
  }

  method BuildForwardCallGraph(sites: seq<CallSite>) returns (forward: map<Fn, seq<Fn>>)
    ensures forall f: Fn, g: Fn :: g in Callees(forward, f) <==> (f, g) in ForwardHops(sites)
  {
    forward := map[];
    var i := 0;
    while i < |sites|
      invariant 0 <= i <= |sites|
      invariant forall f: Fn, g: Fn :: g in Callees(forward, f) <==> (f, g) in ForwardHops(sites[..i])
    {
      HopsAfter(sites, i);
      var s := sites[i];
      forward := forward[s.caller := Callees(forward, s.caller) + [s.callee]];
      i := i + 1;
    }
    assert sites[..i] == sites;
  }

  ghost predicate NoDuplicates(q: seq<Fn>) {
    forall i, j :: 0 <= i < j < |q| ==> q[i] != q[j]
  }

  /** The marked functions are exactly those in the queue, none twice, and all are reachable. */
  ghost predicate Marked(rel: Relation, entrypoints: set<Fn>, reachable: set<Fn>, queue: seq<Fn>) {
    && NoDuplicates(queue)
    && (forall f :: f in reachable <==> f in queue)
    && (forall f :: f in reachable ==> Reachable(rel, entrypoints, f))
  }

  method Enqueue(entrypoints: set<Fn>, ghost rel: Relation) returns (reachable: set<Fn>, queue: seq<Fn>)
    ensures Marked(rel, entrypoints, reachable, queue) && reachable == entrypoints
  {
    reachable, queue := {}, [];
    var todo := entrypoints;
    while todo != {}
      invariant todo <= entrypoints && reachable == entrypoints - todo
      invariant Marked(rel, entrypoints, reachable, queue)
      decreases todo
    {
      var f :| f in todo;
      StartIsReachable(rel, entrypoints, f);
      reachable, queue, todo := reachable + {f}, queue + [f], todo - {f};
    }
  }

  /** Marks and enqueues the callees of one function that are not marked yet. */
  method Expand(callees: seq<Fn>, fn: Fn, reachable: set<Fn>, queue: seq<Fn>, ghost rel: Relation,
                ghost entrypoints: set<Fn>)
    returns (reachable': set<Fn>, queue': seq<Fn>)
    requires Marked(rel, entrypoints, reachable, queue) && fn in reachable
    requires forall g :: g in callees ==> (fn, g) in rel
    ensures Marked(rel, entrypoints, reachable', queue') && reachable <= reachable' && queue <= queue'
    ensures forall g :: g in reachable' <==> g in reachable || g in callees
    ensures reachable' == reachable ==> queue' == queue
  {
    reachable', queue' := reachable, queue;
    var i := 0;
    while i < |callees|
      invariant 0 <= i <= |callees|
      invariant Marked(rel, entrypoints, reachable', queue') && queue <= queue' && reachable <= reachable'
      invariant reachable' == reachable ==> queue' == queue
      invariant forall g :: g in reachable' <==> g in reachable || g in callees[..i]
    {
      var callee := callees[i];
      if callee !in reachable' {
        StepIsReachable(rel, entrypoints, fn, callee);
        reachable', queue' := reachable' + {callee}, queue' + [callee];
      }
      assert callees[..i + 1] == callees[..i] + [callee];
      i := i + 1;
    }
  }

  /** The callees of everything before `head` are marked. */
  ghost predicate Expanded(rel: Relation, reachable: set<Fn>, queue: seq<Fn>, head: nat)
    requires head <= |queue|
  {
    forall i, g :: 0 <= i < head && (queue[i], g) in rel ==> g in reachable
  }

  lemma {:induction false} ExpandedStep(rel: Relation, before: set<Fn>, q: seq<Fn>, head: nat, after: set<Fn>,
                                        r: seq<Fn>)
    requires head < |q| && q <= r && before <= after && Expanded(rel, before, q, head)
    requires forall g :: (q[head], g) in rel ==> g in after
    ensures Expanded(rel, after, r, head + 1)
  {
    forall i, g | 0 <= i < head + 1 && (r[i], g) in rel ensures g in after {
      assert r[i] == q[i];
    }
  }

  lemma {:induction false} LessLeft(all: set<Fn>, before: set<Fn>, after: set<Fn>)
    requires before <= after <= all
    ensures after == before || all - after < all - before
  {
    if after != before {
      var f :| f in after && f !in before;
      assert f in all - before && f !in all - after;
    }
  }

  /** Breadth-first search: marks exactly the functions reachable from the entrypoints and enqueues
      each of them once. */
  method Search(entrypoints: set<Fn>, sites: seq<CallSite>) returns (reachable: set<Fn>, queue: seq<Fn>)
    ensures forall f :: f in reachable <==> Reachable(ForwardHops(sites), entrypoints, f)
    ensures NoDuplicates(queue) && forall f :: f in queue <==> f in reachable
  {
    ghost var rel := ForwardHops(sites);
    ghost var all := entrypoints + set e | e in rel :: e.1;
    var forward := BuildForwardCallGraph(sites);
    reachable, queue := Enqueue(entrypoints, rel);
    var head := 0;
    while head < |queue|
      invariant 0 <= head <= |queue| && entrypoints <= reachable <= all
      invariant Marked(rel, entrypoints, reachable, queue) && Expanded(rel, reachable, queue, head)
      decreases all - reachable, |queue| - head
    {
      var fn := queue[head];
      ghost var marked, before := reachable, queue;
      reachable, queue := Expand(Callees(forward, fn), fn, reachable, queue, rel, entrypoints);
      ExpandedStep(rel, marked, before, head, reachable, queue);
      LessLeft(all, marked, reachable);
      head := head + 1;
    }
    AllExpandedIsClosed(rel, entrypoints, reachable, queue);
    ClosedIsReachable(rel, entrypoints, reachable);
  }

  lemma {:induction false} AllExpandedIsClosed(rel: Relation, entrypoints: set<Fn>, reachable: set<Fn>, queue: seq<Fn>)
    requires Marked(rel, entrypoints, reachable, queue) && Expanded(rel, reachable, queue, |queue|)
    ensures Reach.Closed(rel, reachable)
  {
    forall a, b | (a, b) in rel && a in reachable ensures b in reachable {
      var i :| 0 <= i < |queue| && queue[i] == a;
    }
  }

  /** The concurrent functions; `None` stands for all of them. */
  method ComputeConcurrentContext(entrypoints: set<Fn>, sites: seq<CallSite>) returns (concurrent: Option<set<Fn>>)
    ensures forall f :: IsConcurrent(concurrent, f) <==>
      entrypoints == {} || CalledFrom(sites, AnyCall(), entrypoints, f)
  {
    if entrypoints == {} { return None; }
    var reachable, queue := Search(entrypoints, sites);
    forall f ensures f in reachable <==> CalledFrom(sites, AnyCall(), entrypoints, f) {
      assert ForwardHops(sites) == DownHops(sites);
      ReachableIffCalled(sites, AnyCall(), entrypoints, f);
    }
    return Some(reachable);
  }

  predicate IsConcurrent(concurrent: Option<set<Fn>>, f: Fn) {
    concurrent.None? || f in concurrent.value
  }
}
