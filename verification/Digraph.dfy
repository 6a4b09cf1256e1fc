/** Lock-order edges as a set, the cycles they form, and the rankings that exclude cycles. */
module Digraph {
  import opened Types

  type Edges = set<LockOrderEdge>
  type Cycle = seq<LockOrderEdge>

  /** A closed chain of edges in acquisition order, visiting no lock twice. */
  ghost predicate IsCycle(edges: Edges, c: Cycle) {
    && |c| > 0
    && (forall i :: 0 <= i < |c| ==> c[i] in edges)
    && (forall i, j :: 0 <= i < |c| && j == i + 1 && j < |c| ==> c[i].to == c[j].from)
    && c[|c| - 1].to == c[0].from
    && (forall i, j :: 0 <= i < j < |c| ==> c[i].from != c[j].from)
  }

  /** Two locks that follow each other, whatever the function. */
  datatype Pair = Pair(from: Key, to: Key)

  function Pairs(c: Cycle): (p: seq<Pair>)
    ensures |p| == |c| && forall i :: 0 <= i < |c| ==> p[i] == Pair(c[i].from, c[i].to)
  {
    seq(|c|, i requires 0 <= i < |c| => Pair(c[i].from, c[i].to))
  }

  /** Every edge goes strictly up. */
  ghost predicate Ranks(edges: Edges, rank: map<Key, nat>) {
    forall e :: e in edges ==> e.from in rank && e.to in rank && rank[e.from] < rank[e.to]
  }

  /** Along a chain of edges that all go up, the rank goes up. */
  lemma {:induction false} ChainClimbs(edges: Edges, rank: map<Key, nat>, c: Cycle, n: nat)
    requires Ranks(edges, rank) && 0 < n <= |c|
    requires forall i :: 0 <= i < |c| ==> c[i] in edges
    requires forall i, j :: 0 <= i < |c| && j == i + 1 && j < |c| ==> c[i].to == c[j].from
    ensures rank[c[0].from] < rank[c[n - 1].to]
  {
    if n > 1 {
      ChainClimbs(edges, rank, c, n - 1);
      assert c[n - 2].to == c[n - 1].from;
    }
  }

  lemma {:induction false} RankedHasNoCycle(edges: Edges, rank: map<Key, nat>, c: Cycle)
    requires Ranks(edges, rank)
    ensures !IsCycle(edges, c)
  {
    if IsCycle(edges, c) { ChainClimbs(edges, rank, c, |c|); }
  }

  // ----- Circular wait

  /** A blocked thread: it holds `holds` and waits for `wants`. */
  datatype Wait = Wait(holds: Key, wants: Key)

  ghost predicate CircularWait(ws: seq<Wait>) {
    && |ws| > 0
    && (forall i, j :: 0 <= i < |ws| && j == i + 1 && j < |ws| ==> ws[i].wants == ws[j].holds)
    && ws[|ws| - 1].wants == ws[0].holds
  }

  lemma {:induction false} WaitsClimb(ws: seq<Wait>, rank: map<Key, nat>, n: nat)
    requires 0 < n <= |ws|
    requires forall i :: 0 <= i < |ws| ==>
      ws[i].holds in rank && ws[i].wants in rank && rank[ws[i].holds] < rank[ws[i].wants]
    requires forall i, j :: 0 <= i < |ws| && j == i + 1 && j < |ws| ==> ws[i].wants == ws[j].holds
    ensures rank[ws[0].holds] < rank[ws[n - 1].wants]
  {
    if n > 1 {
      WaitsClimb(ws, rank, n - 1);
      assert ws[n - 2].wants == ws[n - 1].holds;
    }
  }

  /** Threads that only ever wait for a lock ranked above one they hold cannot wait in a circle. */
  lemma {:induction false} RankExcludesCircularWait(ws: seq<Wait>, rank: map<Key, nat>)
    requires forall i :: 0 <= i < |ws| ==>
      ws[i].holds in rank && ws[i].wants in rank && rank[ws[i].holds] < rank[ws[i].wants]
    ensures !CircularWait(ws)
  {
    if CircularWait(ws) { WaitsClimb(ws, rank, |ws|); }
  }
}
