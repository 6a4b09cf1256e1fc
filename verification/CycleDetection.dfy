/** `detectCycles` as a whole: search, then deduplication (lockorder.go:45-110). */
module CycleDetection {
  import opened Types
  import opened Digraph
  import opened LockOrder
  import opened CycleDedup
  import opened Rotations

  lemma {:induction false} CycleIsSimple(g: Graph, c: Cycle)
    requires Filed(g) && IsCycle(EdgeSet(g), c)
    ensures Simple(NodeSet(g), c)
  {
    forall i | 0 <= i < |c| ensures c[i].from in NodeSet(g) && c[i].to in NodeSet(g) {
      EdgeSetByNode(g, c[i]);
    }
  }

  lemma {:induction false} DedupIsEmptyIff(cycles: seq<Cycle>, keys: seq<string>)
    requires |cycles| == |keys|
    ensures Dedup(cycles, keys) == [] <==> cycles == []
    ensures forall c :: c in Dedup(cycles, keys) ==> c in cycles
  {
    DedupReadsKept(cycles, keys);
    if |cycles| > 0 { KeptIffNew(keys, 0); }
  }

  lemma {:induction false} DedupIsNoLonger(cycles: seq<Cycle>, keys: seq<string>)
    requires |cycles| == |keys|
    ensures |Dedup(cycles, keys)| <= |cycles|
  {
    if |cycles| > 0 { DedupIsNoLonger(cycles[..|cycles| - 1], keys[..|keys| - 1]); }
  }

  /** Some pair of locks follows each other both in `c` and in a cycle of `result`. */
  ghost predicate SharesAPair(result: seq<Cycle>, c: Cycle) {
    exists i, n :: 0 <= i < |c| && 0 <= n < |result| && Pair(c[i].from, c[i].to) in Pairs(result[n])
  }

  /** The representative of a found cycle has the pair of its closing edge. */
  lemma {:induction false} CloserIsReported(name: Naming, nodes: set<Key>, cycles: seq<Cycle>, c: Cycle)
    requires Unambiguous(name, nodes) && forall j :: 0 <= j < |cycles| ==> Simple(nodes, cycles[j])
    requires Cut(cycles, c)
    ensures SharesAPair(Dedup(cycles, AllKeys(name, cycles)), c)
  {
    var result := Dedup(cycles, AllKeys(name, cycles));
    var i :| 0 <= i < |c| && Closes(cycles, c[i]);
    var j :| 0 <= j < |cycles| && ClosedBy(cycles[j], c[i]);
    var n := EveryCycleIsRepresented(name, nodes, cycles, j);
    CloserIsKept(result[n], cycles[j], c[i]);
  }

  lemma {:induction false} CloserIsKept(kept: Cycle, found: Cycle, e: LockOrderEdge)
    requires IsRotation(Pairs(kept), Pairs(found)) && ClosedBy(found, e)
    ensures Pair(e.from, e.to) in Pairs(kept)
  {
    RotationHasSameElements(Pairs(kept), Pairs(found));
    assert Pairs(found)[|found| - 1] == Pair(e.from, e.to);
  }

  /** Over unambiguous names the representatives differ and share a pair of locks with every cycle. */
  lemma {:induction false} RepresentativesCover(graph: Graph, name: Naming, cycles: seq<Cycle>)
    requires Filed(graph) && Unambiguous(name, NodeSet(graph)) && CyclesGenuine(EdgeSet(graph), cycles)
    requires forall c :: IsCycle(EdgeSet(graph), c) ==> Cut(cycles, c)
    ensures var result := Dedup(cycles, AllKeys(name, cycles));
      && (forall m, n :: 0 <= m < n < |result| ==> !IsRotation(Pairs(result[m]), Pairs(result[n])))
      && (forall c :: IsCycle(EdgeSet(graph), c) ==> SharesAPair(result, c))
  {
    forall i | 0 <= i < |cycles| ensures Simple(NodeSet(graph), cycles[i]) { CycleIsSimple(graph, cycles[i]); }
    OneRepresentativePerRotationClass(name, NodeSet(graph), cycles);
    forall c | IsCycle(EdgeSet(graph), c) ensures SharesAPair(Dedup(cycles, AllKeys(name, cycles)), c) {
      CloserIsReported(name, NodeSet(graph), cycles, c);
    }
  }

  // ----- Which cycles are reported

  /** Deduplication over unambiguous names does not lose a found cycle. */
  lemma {:induction false} FoundIsReported(name: Naming, nodes: set<Key>, cycles: seq<Cycle>, c: Cycle)
    requires Unambiguous(name, nodes) && forall j :: 0 <= j < |cycles| ==> Simple(nodes, cycles[j])
    requires Reported(cycles, c)
    ensures Reported(Dedup(cycles, AllKeys(name, cycles)), c)
  {
    var j :| 0 <= j < |cycles| && IsRotation(Pairs(cycles[j]), Pairs(c));
    var n := EveryCycleIsRepresented(name, nodes, cycles, j);
    RotationIsTransitive(Pairs(Dedup(cycles, AllKeys(name, cycles))[n]), Pairs(cycles[j]), Pairs(c));
  }

  lemma {:induction false} DisjointCyclesAreReported(graph: Graph, name: Naming, cycles: seq<Cycle>, c: Cycle)
    requires Filed(graph) && Unambiguous(name, NodeSet(graph)) && CyclesGenuine(EdgeSet(graph), cycles)
    requires PairDisjoint(EdgeSet(graph)) && IsCycle(EdgeSet(graph), c) && Cut(cycles, c)
    ensures Reported(Dedup(cycles, AllKeys(name, cycles)), c)
  {
    forall i | 0 <= i < |cycles| ensures Simple(NodeSet(graph), cycles[i]) { CycleIsSimple(graph, cycles[i]); }
    CutIsFound(EdgeSet(graph), cycles, c);
    FoundIsReported(name, NodeSet(graph), cycles, c);
  }

  /** Of two different cycles that enter the first lock from the same lock at most one is reported. */
  ghost predicate OneReportedInto(result: seq<Cycle>, y: Key) {
    forall c, d, p :: HaveAPair(c, d, p) && p.to == y && Reported(result, c) && Reported(result, d) ==>
      IsRotation(Pairs(c), Pairs(d))
  }

  lemma {:induction false} OneWayMeansOneReported(cycles: seq<Cycle>, result: seq<Cycle>, y: Key)
    requires OneWayInto(cycles, y) && forall c :: c in result ==> c in cycles
    ensures OneReportedInto(result, y)
  {
    forall c, d, p | HaveAPair(c, d, p) && p.to == y && Reported(result, c) && Reported(result, d)
      ensures IsRotation(Pairs(c), Pairs(d))
    {
      var m :| 0 <= m < |result| && IsRotation(Pairs(result[m]), Pairs(c));
      var n :| 0 <= n < |result| && IsRotation(Pairs(result[n]), Pairs(d));
      RotationHasSameElements(Pairs(result[m]), Pairs(c));
      RotationHasSameElements(Pairs(result[n]), Pairs(d));
      assert result[m] in cycles && result[n] in cycles;
      RotationIsSymmetric(Pairs(result[m]), Pairs(c));
      RotationIsTransitive(Pairs(c), Pairs(result[m]), Pairs(d));
    }
  }

  /** What a list of found cycles says about all cycles is said by their representatives too. */
  lemma {:induction false} RepresentativesReport(graph: Graph, name: Naming, cycles: seq<Cycle>)
    requires Filed(graph) && CyclesGenuine(EdgeSet(graph), cycles)
    requires forall c :: IsCycle(EdgeSet(graph), c) ==> Cut(cycles, c)
    requires forall y :: NamedFirst(name, NodeSet(graph), y) ==> OneWayInto(cycles, y)
    ensures var result := Dedup(cycles, AllKeys(name, cycles));
      && (Unambiguous(name, NodeSet(graph)) ==>
            && (forall m, n :: 0 <= m < n < |result| ==> !IsRotation(Pairs(result[m]), Pairs(result[n])))
            && (forall c :: IsCycle(EdgeSet(graph), c) ==> SharesAPair(result, c)))
      && (Unambiguous(name, NodeSet(graph)) && PairDisjoint(EdgeSet(graph)) ==>
            forall c :: IsCycle(EdgeSet(graph), c) ==> Reported(result, c))
      && (forall y :: NamedFirst(name, NodeSet(graph), y) ==> OneReportedInto(result, y))
  {
    var result := Dedup(cycles, AllKeys(name, cycles));
    DedupIsEmptyIff(cycles, AllKeys(name, cycles));
    if Unambiguous(name, NodeSet(graph)) { RepresentativesCover(graph, name, cycles); }
    if Unambiguous(name, NodeSet(graph)) && PairDisjoint(EdgeSet(graph)) {
      forall c | IsCycle(EdgeSet(graph), c) ensures Reported(result, c) {
        DisjointCyclesAreReported(graph, name, cycles, c);
      }
    }
    forall y | NamedFirst(name, NodeSet(graph), y) ensures OneReportedInto(result, y) {
      OneWayMeansOneReported(cycles, result, y);
    }
  }

  /** Reports only genuine simple cycles; reports nothing exactly when the edges can be ranked, which is
      exactly when there is no cycle; at most one cycle per edge; and over unambiguous names reports no cycle
      twice, shares with every cycle of the graph a pair of locks, and reports all cycles if no two of them have
      a pair of locks in common.  Of the cycles that enter the first lock from one lock only one is reported. */
  method DetectCycles(graph: Graph, name: Naming) returns (result: seq<Cycle>)
    requires Filed(graph)
    ensures forall c :: c in result ==> IsCycle(EdgeSet(graph), c)
    ensures result == [] <==> !exists c :: IsCycle(EdgeSet(graph), c)
    ensures result == [] <==> exists rank :: Ranks(EdgeSet(graph), rank)
    ensures Deduplicated(graph) ==> |result| <= |EdgeSet(graph)|
    ensures Unambiguous(name, NodeSet(graph)) ==>
      forall m, n :: 0 <= m < n < |result| ==> !IsRotation(Pairs(result[m]), Pairs(result[n]))
    ensures Unambiguous(name, NodeSet(graph)) ==> forall c :: IsCycle(EdgeSet(graph), c) ==> SharesAPair(result, c)
    ensures Unambiguous(name, NodeSet(graph)) && PairDisjoint(EdgeSet(graph)) ==>
      forall c :: IsCycle(EdgeSet(graph), c) ==> Reported(result, c)
    ensures forall y :: NamedFirst(name, NodeSet(graph), y) ==> OneReportedInto(result, y)
  {
    var cycles := FindCycles(graph, name);
    result := DeduplicateCycles(name, cycles);
    DedupIsEmptyIff(cycles, AllKeys(name, cycles));
    DedupIsNoLonger(cycles, AllKeys(name, cycles));
    RepresentativesReport(graph, name, cycles);
  }
}
