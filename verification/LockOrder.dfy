/** The lock-order graph and its depth-first cycle search (lockorder.go). */
module LockOrder {
  import opened Types
  import opened Digraph
  import opened Sets
  import opened Strings
  import opened Rotations

  type Graph = map<Key, seq<LockOrderEdge>>

  ghost predicate Filed(g: Graph) {
    forall k, i :: k in g && 0 <= i < |g[k]| ==> g[k][i].from == k
  }

  ghost function EdgeSet(g: Graph): Edges {
    set k, i | k in g && 0 <= i < |g[k]| :: g[k][i]
  }

  ghost function NodeSet(g: Graph): set<Key> {
    g.Keys + set e | e in EdgeSet(g) :: e.to
  }

  /** No two edges share source, target and function. */
  ghost predicate Deduplicated(g: Graph) {
    forall k, i, j :: k in g && 0 <= i < j < |g[k]| ==> g[k][i].to != g[k][j].to || g[k][i].fn != g[k][j].fn
  }

  datatype Color = Gray | Black

  // ----- Extracting a cycle

  ghost predicate Link(edges: Edges, parent: map<Key, LockOrderEdge>, from: Key, to: Key) {
    to in parent && parent[to] in edges && parent[to].from == from && parent[to].to == to
  }

  /** `stack` is a chain of distinct nodes linked by parent edges. */
  ghost predicate Linked(edges: Edges, parent: map<Key, LockOrderEdge>, stack: seq<Key>) {
    |stack| > 0 ==>
      var rest, top := stack[..|stack| - 1], stack[|stack| - 1];
      Linked(edges, parent, rest) && top !in rest && (|rest| > 0 ==> Link(edges, parent, rest[|rest| - 1], top))
  }

  ghost predicate BackEdge(edges: Edges, parent: map<Key, LockOrderEdge>, stack: seq<Key>, e: LockOrderEdge) {
    Linked(edges, parent, stack) && |stack| > 0 && stack[|stack| - 1] == e.from && e.to in stack && e in edges
  }

  ghost function Elements(stack: seq<Key>): set<Key> {
    set k | k in stack
  }

  /** All edges of `c` but the closing one are the parent edges of their targets, which are among `seen`. */
  ghost predicate Traced(parent: map<Key, LockOrderEdge>, seen: set<Key>, c: Cycle) {
    forall i :: 0 <= i < |c| - 1 ==> c[i].to in seen && c[i].to in parent && parent[c[i].to] == c[i]
  }

  lemma {:induction false} LinkAt(edges: Edges, parent: map<Key, LockOrderEdge>, stack: seq<Key>, j: nat)
    requires Linked(edges, parent, stack) && 0 < j < |stack|
    ensures Link(edges, parent, stack[j - 1], stack[j])
  {
    if j < |stack| - 1 { LinkAt(edges, parent, stack[..|stack| - 1], j); }
  }

  lemma {:induction false} LinkedIsDistinct(edges: Edges, parent: map<Key, LockOrderEdge>, stack: seq<Key>)
    requires Linked(edges, parent, stack)
    ensures forall i, j :: 0 <= i < j < |stack| ==> stack[i] != stack[j]
  {
    if |stack| > 0 {
      var rest := stack[..|stack| - 1];
      LinkedIsDistinct(edges, parent, rest);
      assert forall i :: 0 <= i < |rest| ==> rest[i] == stack[i];
    }
  }

  lemma {:induction false} LinkedFrame(edges: Edges, parent: map<Key, LockOrderEdge>, stack: seq<Key>, e: LockOrderEdge)
    requires Linked(edges, parent, stack) && e.to !in stack
    ensures Linked(edges, parent[e.to := e], stack)
  {
    if |stack| > 0 { LinkedFrame(edges, parent, stack[..|stack| - 1], e); }
  }

  method Reverse(s: Cycle) returns (r: Cycle)
    ensures |r| == |s| && forall n :: 0 <= n < |s| ==> r[n] == s[|s| - 1 - n]
  {
    r := s;
    var i, j := 0, |s| - 1;
    while i < j
      invariant 0 <= i && j == |s| - 1 - i && i <= j + 1 && |r| == |s|
      invariant forall n :: 0 <= n < i ==> r[n] == s[|s| - 1 - n]
      invariant forall n :: j < n < |s| ==> r[n] == s[|s| - 1 - n]
      invariant forall n :: i <= n <= j ==> r[n] == s[n]
    {
      r := r[i := r[j]][j := r[i]];
      i, j := i + 1, j - 1;
    }
  }

  /** Follows parent edges from the source of the back edge to its target.  For a back edge of the
      depth-first search neither of the two early exits is taken, and the result is a genuine simple
      cycle that ends in the back edge; for any parent map the loop ends. */
  method ExtractCycle(parent: map<Key, LockOrderEdge>, backEdge: LockOrderEdge, ghost edges: Edges,
                      ghost stack: seq<Key>)
    returns (r: Option<Cycle>)
    ensures BackEdge(edges, parent, stack, backEdge) ==>
      && r.Some? && IsCycle(edges, r.value) && r.value[|r.value| - 1] == backEdge
      && Traced(parent, Elements(stack), r.value)
  {
    ghost var good := BackEdge(edges, parent, stack, backEdge);
    ghost var n := |stack|;
    ghost var i := n - 1;
    if good { LinkedIsDistinct(edges, parent, stack); }
    var cycle := [backEdge];
    var current := backEdge.from;
    var visited: set<Key> := {};
    while current != backEdge.to
      invariant visited <= parent.Keys && |cycle| > 0
      invariant good ==> 0 <= i < n && current == stack[i] && |cycle| == n - i && cycle[0] == backEdge
      invariant good ==>
        (forall k :: k in visited ==> exists m :: i < m < n && stack[m] == k) && backEdge.to in stack[..i + 1]
      invariant good ==> forall q :: i < q < n ==> stack[q] in parent && cycle[n - q] == parent[stack[q]]
      decreases parent.Keys - visited
    {
      if current in visited { return None; }
      visited := visited + {current};
      if good {
        assert i > 0;
        LinkAt(edges, parent, stack, i);
      }
      if current !in parent { return None; }
      cycle := cycle + [parent[current]];
      current := parent[current].from;
      i := i - 1;
    }
    var reversed := Reverse(cycle);
    if good { ExtractedIsCycle(edges, parent, stack, backEdge, i, reversed); }
    return Some(reversed);
  }

  lemma {:induction false} ExtractedIsCycle(edges: Edges, parent: map<Key, LockOrderEdge>, stack: seq<Key>,
                                            e: LockOrderEdge, i: nat, c: Cycle)
    requires BackEdge(edges, parent, stack, e) && i < |stack| && stack[i] == e.to && |c| == |stack| - i
    requires c[|c| - 1] == e && forall q :: i < q < |stack| ==> stack[q] in parent && c[q - 1 - i] == parent[stack[q]]
    ensures IsCycle(edges, c) && Traced(parent, Elements(stack), c)
  {
    var nodes := stack[i..];
    forall m | 0 <= m < |c|
      ensures c[m] in edges && c[m].from == nodes[m] && (m < |c| - 1 ==> c[m].to == nodes[m + 1])
      ensures m < |c| - 1 ==> c[m].to in parent && parent[c[m].to] == c[m]
    {
      if m < |c| - 1 {
        var q := i + 1 + m;
        LinkAt(edges, parent, stack, q);
        assert c[q - 1 - i] == parent[stack[q]];
      }
    }
    LinkedIsDistinct(edges, parent, stack);
    ChainOfNodesIsCycle(edges, nodes, c);
    assert forall m :: 0 <= m < |c| - 1 ==> c[m].to == nodes[m + 1] && nodes[m + 1] in stack;
  }

  lemma {:induction false} ChainOfNodesIsCycle(edges: Edges, nodes: seq<Key>, c: Cycle)
    requires |nodes| == |c| > 0
    requires forall i, j :: 0 <= i < j < |nodes| ==> nodes[i] != nodes[j]
    requires forall m :: 0 <= m < |c| ==>
      c[m] in edges && c[m].from == nodes[m] && (m < |c| - 1 ==> c[m].to == nodes[m + 1])
    requires c[|c| - 1].to == nodes[0]
    ensures IsCycle(edges, c)
  {
  }

  // ----- Depth-first search

  /** The variables the recursive closure shares; `rank` numbers nodes in the order they are finished. */
  datatype Search = Search(
    color: map<Key, Color>, parent: map<Key, LockOrderEdge>, cycles: seq<Cycle>, rank: map<Key, nat>, clock: nat)

  ghost predicate ClosedBy(c: Cycle, e: LockOrderEdge) {
    |c| > 0 && c[|c| - 1] == e
  }

  /** `e` is the closing edge of one of the cycles. */
  ghost predicate Closes(cycles: seq<Cycle>, e: LockOrderEdge) {
    exists i :: 0 <= i < |cycles| && ClosedBy(cycles[i], e)
  }

  /** No edge closes two of the cycles. */
  ghost predicate ClosedOnce(cycles: seq<Cycle>) {
    forall i, j, e :: 0 <= i < j < |cycles| && ClosedBy(cycles[i], e) ==> !ClosedBy(cycles[j], e)
  }

  lemma {:induction false} OneMoreClosed(cycles: seq<Cycle>, c: Cycle)
    requires ClosedOnce(cycles) && |c| > 0 && !Closes(cycles, c[|c| - 1])
    ensures ClosedOnce(cycles + [c])
  {
  }

  /** There are at most as many cycles as edges. */
  lemma {:induction false} OneCyclePerEdge(edges: Edges, cycles: seq<Cycle>)
    requires CyclesGenuine(edges, cycles) && ClosedOnce(cycles)
    ensures |cycles| <= |edges|
  {
    var closers := set i | 0 <= i < |cycles| :: cycles[i][|cycles[i]| - 1];
    ClosersSize(cycles, |cycles|);
    assert closers == Closers(cycles, |cycles|);
    SubsetIsNoLarger(closers, edges);
  }

  ghost function Closers(cycles: seq<Cycle>, n: nat): set<LockOrderEdge>
    requires n <= |cycles| && forall i :: 0 <= i < |cycles| ==> |cycles[i]| > 0
  {
    set i | 0 <= i < n :: cycles[i][|cycles[i]| - 1]
  }

  lemma {:induction false} ClosersSize(cycles: seq<Cycle>, n: nat)
    requires n <= |cycles| && ClosedOnce(cycles) && forall i :: 0 <= i < |cycles| ==> |cycles[i]| > 0
    ensures |Closers(cycles, n)| == n
  {
    if n > 0 {
      ClosersSize(cycles, n - 1);
      var e := cycles[n - 1][|cycles[n - 1]| - 1];
      assert ClosedBy(cycles[n - 1], e);
      assert forall i :: 0 <= i < n - 1 ==> ClosedBy(cycles[i], cycles[i][|cycles[i]| - 1]);
      assert Closers(cycles, n) == Closers(cycles, n - 1) + {e} && e !in Closers(cycles, n - 1);
    }
  }

  ghost predicate CyclesGenuine(edges: Edges, cycles: seq<Cycle>) {
    forall i :: 0 <= i < |cycles| ==> IsCycle(edges, cycles[i])
  }

  ghost predicate CyclesTraced(s: Search) {
    forall i :: 0 <= i < |s.cycles| ==> Traced(s.parent, s.color.Keys, s.cycles[i])
  }

  /** Finished nodes lead only to nodes finished earlier, except over edges that close a found cycle. */
  ghost predicate Descends(edges: Edges, cycles: seq<Cycle>, rank: map<Key, nat>) {
    forall e :: e in edges && e.from in rank && !Closes(cycles, e) ==> e.to in rank && rank[e.to] < rank[e.from]
  }

  ghost function Unclosing(edges: Edges, cycles: seq<Cycle>): Edges {
    set e | e in edges && !Closes(cycles, e)
  }

  ghost predicate ClosersSeen(s: Search) {
    forall e :: Closes(s.cycles, e) ==> e.from in s.color
  }

  /** `stack` is the current depth-first path: exactly the gray nodes. */
  ghost predicate OnPath(edges: Edges, s: Search, stack: seq<Key>) {
    Linked(edges, s.parent, stack) && forall k :: k in stack <==> k in s.color && s.color[k] == Gray
  }

  ghost predicate Finished(edges: Edges, s: Search) {
    && (forall k :: k in s.rank <==> k in s.color && s.color[k] == Black)
    && (forall k :: k in s.rank ==> s.rank[k] < s.clock)
    && Descends(edges, s.cycles, s.rank)
  }

  ghost predicate Inv(edges: Edges, s: Search, stack: seq<Key>) {
    && OnPath(edges, s, stack) && Finished(edges, s) && CyclesGenuine(edges, s.cycles) && ClosersSeen(s)
    && CyclesTraced(s)
  }

  /** `k` has the same parent edge, or still none. */
  ghost predicate SameParent(now: Search, before: Search, k: Key) {
    (k in now.parent <==> k in before.parent) && (k in now.parent ==> now.parent[k] == before.parent[k])
  }

  /** Finished nodes stay finished, found cycles stay found, and nodes seen keep their parents. */
  ghost predicate Later(now: Search, before: Search) {
    && before.color.Keys <= now.color.Keys && before.rank.Keys <= now.rank.Keys
    && before.cycles <= now.cycles
    && forall k {:trigger SameParent(now, before, k)} :: k in before.color ==> SameParent(now, before, k)
  }

  lemma {:induction false} LaterIsTransitive(now: Search, mid: Search, before: Search)
    requires Later(now, mid) && Later(mid, before)
    ensures Later(now, before)
  {
    forall k | k in before.color ensures SameParent(now, before, k) {
      assert SameParent(now, mid, k) && SameParent(mid, before, k);
    }
  }

  /** New cycles are closed by an edge out of `top` or out of a node that was white. */
  ghost predicate ClosedBelow(now: Search, before: Search, top: Key) {
    forall e :: Closes(now.cycles, e) ==> Closes(before.cycles, e) || e.from == top || e.from !in before.color
  }

  lemma {:induction false} LaterOverall(now: Search, followed: Search, gray: Search, before: Search, node: Key)
    requires now == Blacken(followed, node)
    requires Later(followed, gray) && ClosedBelow(followed, gray, node)
    requires gray == before.(color := before.color[node := Gray])
    ensures Later(now, before) && ClosedBelow(now, before, node) && SameParent(now, before, node)
  {
    assert forall k :: k in before.color || k == node ==> SameParent(followed, gray, k);
  }

  /** The first `i` edges out of the gray node `top` have been followed since `start`. */
  ghost predicate LookedAt(now: Search, start: Search, ordered: seq<LockOrderEdge>, i: nat, top: Key)
    requires i <= |ordered|
  {
    && Later(now, start) && ClosedBelow(now, start, top)
    && (forall j :: 0 <= j < i ==> Closes(now.cycles, ordered[j]) || ordered[j].to in now.rank)
    && (forall e :: Closes(now.cycles, e) && e.from == top ==> e in ordered[..i])
  }

  lemma {:induction false} LookedAtOneMore(now: Search, before: Search, start: Search, ordered: seq<LockOrderEdge>,
                                           i: nat, top: Key)
    requires i < |ordered| && LookedAt(before, start, ordered, i, top) && Later(now, before) && top in before.color
    requires ordered[i].from == top && (Closes(now.cycles, ordered[i]) || ordered[i].to in now.rank)
    requires forall d :: Closes(now.cycles, d) ==>
      Closes(before.cycles, d) || d == ordered[i] || d.from !in before.color
    ensures LookedAt(now, start, ordered, i + 1, top)
  {
    ClosesStays(now.cycles, before.cycles);
    LaterIsTransitive(now, before, start);
    assert ordered[..i + 1] == ordered[..i] + [ordered[i]];
  }

  lemma {:induction false} ClosesMore(cycles: seq<Cycle>, c: Cycle)
    requires |c| > 0
    ensures forall e :: Closes(cycles + [c], e) <==> Closes(cycles, e) || e == c[|c| - 1]
  {
    forall e | Closes(cycles, e) ensures Closes(cycles + [c], e) {
      var i :| 0 <= i < |cycles| && ClosedBy(cycles[i], e);
      assert (cycles + [c])[i] == cycles[i];
    }
    assert ClosedBy((cycles + [c])[|cycles|], c[|c| - 1]);
  }

  lemma {:induction false} ClosesStays(now: seq<Cycle>, before: seq<Cycle>)
    requires before <= now
    ensures forall e :: Closes(before, e) ==> Closes(now, e)
  {
    forall e | Closes(before, e) ensures Closes(now, e) {
      var i :| 0 <= i < |before| && ClosedBy(before[i], e);
      assert now[i] == before[i];
    }
  }

  /** `node` is white and, unless it is a root, was reached from the top of the stack. */
  ghost predicate Entered(edges: Edges, s: Search, stack: seq<Key>, node: Key) {
    && node !in s.color
    && (|stack| > 0 ==> Link(edges, s.parent, stack[|stack| - 1], node))
  }

  lemma {:induction false} Push(edges: Edges, s: Search, stack: seq<Key>, node: Key)
    requires Inv(edges, s, stack) && Entered(edges, s, stack, node)
    ensures Inv(edges, s.(color := s.color[node := Gray]), stack + [node])
  {
    var t := s.(color := s.color[node := Gray]);
    PushPath(edges, s, stack, node);
    assert Finished(edges, t) && ClosersSeen(t);
  }

  lemma {:induction false} PushPath(edges: Edges, s: Search, stack: seq<Key>, node: Key)
    requires OnPath(edges, s, stack) && Entered(edges, s, stack, node)
    ensures OnPath(edges, s.(color := s.color[node := Gray]), stack + [node])
  {
    assert (stack + [node])[..|stack|] == stack;
  }

  /** A white target gets the edge that led to it as parent; the stack is not affected. */
  lemma {:induction false} SetParent(edges: Edges, s: Search, stack: seq<Key>, e: LockOrderEdge)
    requires Inv(edges, s, stack) && e in edges && |stack| > 0 && e.from == stack[|stack| - 1] && e.to !in s.color
    ensures var t := s.(parent := s.parent[e.to := e]); Inv(edges, t, stack) && Entered(edges, t, stack, e.to)
  {
    LinkedFrame(edges, s.parent, stack, e);
  }

  lemma {:induction false} PopPath(edges: Edges, s: Search, stack: seq<Key>, node: Key, t: Search)
    requires OnPath(edges, s, stack + [node]) && t.parent == s.parent && t.color == s.color[node := Black]
    ensures OnPath(edges, t, stack)
  {
    assert (stack + [node])[..|stack|] == stack;
    assert node !in stack;
    forall k ensures k in stack <==> k in t.color && t.color[k] == Gray {
      assert k in stack + [node] <==> k in stack || k == node;
    }
  }

  /** Finishing the top of the stack once all its edges have been looked at. */
  lemma {:induction false} Pop(edges: Edges, s: Search, stack: seq<Key>, node: Key)
    requires Inv(edges, s, stack + [node])
    requires forall e :: e in edges && e.from == node ==> Closes(s.cycles, e) || e.to in s.rank
    ensures Inv(edges, Blacken(s, node), stack)
  {
    PopPath(edges, s, stack, node, Blacken(s, node));
    assert node in stack + [node] && node !in s.rank;
    BlackenFinishes(edges, s, node);
  }

  ghost function Blacken(s: Search, node: Key): Search {
    s.(color := s.color[node := Black], rank := s.rank[node := s.clock], clock := s.clock + 1)
  }

  lemma {:induction false} BlackenFinishes(edges: Edges, s: Search, node: Key)
    requires Finished(edges, s) && node !in s.rank
    requires forall e :: e in edges && e.from == node ==> Closes(s.cycles, e) || e.to in s.rank
    ensures Finished(edges, Blacken(s, node))
  {
  }

  lemma {:induction false} EdgeSetByNode(g: Graph, e: LockOrderEdge)
    requires Filed(g)
    ensures e in EdgeSet(g) <==> e.from in g && e in g[e.from]
  {
    if e in EdgeSet(g) {
      var k, i :| k in g && 0 <= i < |g[k]| && g[k][i] == e;
    }
  }

  lemma {:induction false} PermutationIsDistinct(s: seq<LockOrderEdge>, t: seq<LockOrderEdge>)
    requires multiset(s) == multiset(t) && forall i, j :: 0 <= i < j < |s| ==> s[i] != s[j]
    ensures forall i, j :: 0 <= i < j < |t| ==> t[i] != t[j]
  {
    forall e ensures multiset(s)[e] <= 1 { DistinctHasOneOfEach(s, e); }
    forall i, j | 0 <= i < j < |t| ensures t[i] != t[j] {
      assert t == t[..j] + [t[j]] + t[j + 1..];
      assert t[i] in t[..j];
      assert multiset(t)[t[i]] <= 1;
    }
  }

  lemma {:induction false} DistinctHasOneOfEach(s: seq<LockOrderEdge>, e: LockOrderEdge)
    requires forall i, j :: 0 <= i < j < |s| ==> s[i] != s[j]
    ensures multiset(s)[e] <= 1
  {
    if |s| > 0 {
      var n := |s| - 1;
      DistinctHasOneOfEach(s[..n], e);
      assert s == s[..n] + [s[n]];
      if s[n] == e { assert e !in s[..n]; }
    }
  }

  /** No key of the set has a smaller name. */
  predicate LeastNamed(name: Naming, keys: set<Key>, k: Key) {
    k in keys && forall l :: l in keys ==> !Less(name(l), name(k))
  }

  lemma {:induction false} LeastNamedExists(name: Naming, keys: set<Key>)
    requires keys != {}
    ensures exists k :: LeastNamed(name, keys, k)
  {
    var k :| k in keys;
    LessIsIrreflexive(name(k));
    var rest := keys - {k};
    if rest == {} {
      assert keys == {k};
      assert LeastNamed(name, keys, k);
    } else {
      LeastNamedExists(name, rest);
      var m :| LeastNamed(name, rest, m);
      if Less(name(m), name(k)) {
        if Less(name(k), name(m)) { LessIsTransitive(name(k), name(m), name(k)); }
        assert LeastNamed(name, keys, m);
      } else {
        forall l | l in rest ensures !Less(name(l), name(k)) { NotLessIsTransitive(name(k), name(m), name(l)); }
        assert LeastNamed(name, keys, k);
      }
    }
  }

  method TakeLeast(name: Naming, todo: multiset<LockOrderEdge>) returns (e: LockOrderEdge)
    requires |todo| > 0
    ensures e in todo && forall d :: d in todo ==> !Less(name(d.to), name(e.to))
  {
    ghost var any :| any in todo;
    var targets := set d | d in todo :: d.to;
    assert any.to in targets;
    LeastNamedExists(name, targets);
    var k :| k in targets && LeastNamed(name, targets, k);
    e :| e in todo && e.to == k;
  }

  ghost predicate SortedByTarget(name: Naming, ordered: seq<LockOrderEdge>) {
    forall i, j :: 0 <= i < j < |ordered| ==> !Less(name(ordered[j].to), name(ordered[i].to))
  }

  /** No edge still to come belongs before one in the list. */
  ghost predicate NoneBefore(name: Naming, ordered: seq<LockOrderEdge>, todo: multiset<LockOrderEdge>) {
    forall i, e :: 0 <= i < |ordered| && e in todo ==> !Less(name(e.to), name(ordered[i].to))
  }

  lemma {:induction false} AppendLeast(name: Naming, ordered: seq<LockOrderEdge>, todo: multiset<LockOrderEdge>,
                                       e: LockOrderEdge)
    requires SortedByTarget(name, ordered) && NoneBefore(name, ordered, todo) && e in todo
    requires forall d :: d in todo ==> !Less(name(d.to), name(e.to))
    ensures SortedByTarget(name, ordered + [e]) && NoneBefore(name, ordered + [e], todo - multiset{e})
  {
    assert forall d :: d in todo - multiset{e} ==> d in todo;
  }

  /** The edges sorted by the names of their targets, ties broken in any way. */
  method SortByTarget(name: Naming, unordered: seq<LockOrderEdge>) returns (ordered: seq<LockOrderEdge>)
    ensures multiset(ordered) == multiset(unordered) && SortedByTarget(name, ordered)
  {
    var todo := multiset(unordered);
    ordered := [];
    while |todo| > 0
      invariant multiset(ordered) + todo == multiset(unordered)
      invariant SortedByTarget(name, ordered) && NoneBefore(name, ordered, todo)
      decreases |todo|
    {
      var e := TakeLeast(name, todo);
      AppendLeast(name, ordered, todo, e);
      todo := todo - multiset{e};
      ordered := ordered + [e];
    }
  }

  /** `y` is the node that the search starts from. */
  ghost predicate NamedFirst(name: Naming, nodes: set<Key>, y: Key) {
    y in nodes && forall k :: k in nodes && k != y ==> Less(name(y), name(k))
  }

  class LockOrderGraph {
    var edges: Graph

    constructor ()
      ensures edges == map[]
    {
      edges := map[];
    }

    /** Adds an edge unless one with the same source, target and function is there already. */
    method AddEdge(edge: LockOrderEdge)
      requires Filed(edges) && Deduplicated(edges)
      modifies this
      ensures Filed(edges) && Deduplicated(edges)
      ensures EdgeSet(edges) == old(EdgeSet(edges)) || EdgeSet(edges) == old(EdgeSet(edges)) + {edge}
      ensures exists e :: e in EdgeSet(edges) && e.from == edge.from && e.to == edge.to && e.fn == edge.fn
    {
      var existing := if edge.from in edges then edges[edge.from] else [];
      var i := 0;
      while i < |existing|
        invariant 0 <= i <= |existing|
        invariant forall j :: 0 <= j < i ==> existing[j].to != edge.to || existing[j].fn != edge.fn
      {
        if existing[i].to == edge.to && existing[i].fn == edge.fn {
          assert existing[i] in EdgeSet(edges);
          return;
        }
        i := i + 1;
      }
      AppendIsInsert(edges, edge, existing);
      edges := edges[edge.from := existing + [edge]];
    }
  }

  lemma {:induction false} AppendIsInsert(g: Graph, edge: LockOrderEdge, existing: seq<LockOrderEdge>)
    requires Filed(g) && existing == if edge.from in g then g[edge.from] else []
    ensures Filed(g[edge.from := existing + [edge]])
    ensures EdgeSet(g[edge.from := existing + [edge]]) == EdgeSet(g) + {edge}
  {
    var h := g[edge.from := existing + [edge]];
    assert h[edge.from][|existing|] == edge;
    forall e | e in EdgeSet(g) ensures e in EdgeSet(h) {
      var k, i :| k in g && 0 <= i < |g[k]| && g[k][i] == e;
      assert h[k][i] == e;
    }
    forall e | e in EdgeSet(h) ensures e in EdgeSet(g) + {edge} {
      var k, i :| k in h && 0 <= i < |h[k]| && h[k][i] == e;
      if k != edge.from || i < |existing| { assert g[k][i] == e; }
    }
  }

  /** The search of `detectCycles` and the variables its recursive closure shares. */
  class CycleSearch {
    const graph: Graph
    const name: Naming
    ghost const edges: Edges
    var color: map<Key, Color>  // absent: white
    var parent: map<Key, LockOrderEdge>
    var cycles: seq<Cycle>
    ghost var rank: map<Key, nat>
    ghost var clock: nat

    constructor (graph: Graph, name: Naming)
      ensures this.graph == graph && this.name == name && edges == EdgeSet(graph)
      ensures View() == Search(map[], map[], [], map[], 0)
    {
      this.graph, this.name, edges := graph, name, EdgeSet(graph);
      color, parent, cycles, rank, clock := map[], map[], [], map[], 0;
    }

    ghost function View(): Search
      reads this
    {
      Search(color, parent, cycles, rank, clock)
    }

    ghost predicate Ready(stack: seq<Key>)
      reads this
    {
      && Filed(graph) && edges == EdgeSet(graph) && Inv(edges, View(), stack)
      && (Deduplicated(graph) ==> ClosedOnce(cycles))
    }

    /** Visits a white node: looks at its edges in sorted order and finishes the node. */
    method Visit(node: Key, ghost stack: seq<Key>)
      requires Ready(stack) && node in NodeSet(graph) && Entered(edges, View(), stack, node)
      modifies this
      ensures Ready(stack) && Later(View(), old(View())) && node in rank && ClosedBelow(View(), old(View()), node)
      ensures SameParent(View(), old(View()), node)
      decreases NodeSet(graph) - color.Keys, 0
    {
      Enter(node, stack);
      ghost var gray := View();
      FollowEdges(node, stack + [node]);
      ghost var followed := View();
      Finish(node, stack);
      LaterOverall(View(), followed, gray, old(View()), node);
    }

    method Enter(node: Key, ghost stack: seq<Key>)
      requires Ready(stack) && Entered(edges, View(), stack, node)
      modifies this`color
      ensures Ready(stack + [node]) && View() == old(View()).(color := old(color)[node := Gray])
      ensures forall e :: Closes(cycles, e) ==> e.from != node
    {
      ghost var gray := View().(color := color[node := Gray]);
      Push(edges, View(), stack, node);
      color := color[node := Gray];
      assert View() == gray;
    }

    /** The edges out of `node` by the names of their targets.  Names may tie and the sort is not stable, so
        ties are broken in any way. */
    method SortedEdges(node: Key) returns (ordered: seq<LockOrderEdge>)
      requires Filed(graph) && edges == EdgeSet(graph)
      ensures forall e :: e in edges && e.from == node <==> e in ordered
      ensures Deduplicated(graph) ==> forall i, j :: 0 <= i < j < |ordered| ==> ordered[i] != ordered[j]
      ensures SortedByTarget(name, ordered)
    {
      var unordered := if node in graph then graph[node] else [];
      ordered := SortByTarget(name, unordered);
      if Deduplicated(graph) { PermutationIsDistinct(unordered, ordered); }
      forall e ensures e in edges && e.from == node <==> e in ordered {
        EdgeSetByNode(graph, e);
        assert e in ordered <==> e in multiset(ordered);
        assert e in unordered <==> e in multiset(unordered);
        if e in unordered { var i :| 0 <= i < |unordered| && unordered[i] == e; assert graph[node][i] == e; }
      }
    }

    /** Looks at the edges out of the top of the stack in sorted order. */
    method FollowEdges(node: Key, ghost stack: seq<Key>)
      requires Ready(stack) && |stack| > 0 && node == stack[|stack| - 1]
      requires forall e :: Closes(cycles, e) ==> e.from != node
      modifies this
      ensures Ready(stack) && Later(View(), old(View())) && ClosedBelow(View(), old(View()), node)
      ensures forall e :: e in edges && e.from == node ==> Closes(cycles, e) || e.to in rank
      decreases NodeSet(graph) - color.Keys, 4
    {
      var ordered := SortedEdges(node);
      FollowAll(node, ordered, stack);
    }

    method FollowAll(node: Key, ordered: seq<LockOrderEdge>, ghost stack: seq<Key>)
      requires Ready(stack) && |stack| > 0 && node == stack[|stack| - 1]
      requires forall e :: e in edges && e.from == node <==> e in ordered
      requires Deduplicated(graph) ==> forall i, j :: 0 <= i < j < |ordered| ==> ordered[i] != ordered[j]
      requires forall e :: Closes(cycles, e) ==> e.from != node
      modifies this
      ensures Ready(stack) && Later(View(), old(View())) && ClosedBelow(View(), old(View()), node)
      ensures forall e :: e in edges && e.from == node ==> Closes(cycles, e) || e.to in rank
      decreases NodeSet(graph) - color.Keys, 3
    {
      var i := 0;
      while i < |ordered|
        invariant 0 <= i <= |ordered|
        invariant Ready(stack) && LookedAt(View(), old(View()), ordered, i, node)
      {
        assert ordered[i] in ordered;
        ghost var before := View();
        Follow(ordered[i], stack);
        LookedAtOneMore(View(), before, old(View()), ordered, i, node);
        i := i + 1;
      }
    }

    /** Looks at one edge out of the top of the stack: a white target is visited, a gray one closes a cycle. */
    method Follow(e: LockOrderEdge, ghost stack: seq<Key>)
      requires Ready(stack) && e in edges && |stack| > 0 && e.from == stack[|stack| - 1]
      requires Deduplicated(graph) ==> !Closes(cycles, e)
      modifies this
      ensures Ready(stack) && Later(View(), old(View()))
      ensures Closes(cycles, e) || e.to in rank
      ensures forall d :: Closes(cycles, d) ==> old(Closes(cycles, d)) || d == e || d.from !in old(color)
      decreases NodeSet(graph) - color.Keys, 2
    {
      if e.to !in color {
        Descend(e, stack);
      } else if color[e.to] == Gray {
        CloseCycle(e, stack);
      }
    }

    /** The target is white: the edge becomes its parent edge and it is visited. */
    method Descend(e: LockOrderEdge, ghost stack: seq<Key>)
      requires Ready(stack) && e in edges && |stack| > 0 && e.from == stack[|stack| - 1] && e.to !in color
      modifies this
      ensures Ready(stack) && Later(View(), old(View())) && e.to in rank
      ensures forall d :: Closes(cycles, d) ==> old(Closes(cycles, d)) || d.from !in old(color)
      decreases NodeSet(graph) - color.Keys, 1
    {
      SetParent(edges, View(), stack, e);
      ghost var linked := View().(parent := parent[e.to := e]);
      parent := parent[e.to := e];
      assert View() == linked && Later(linked, old(View()));
      Visit(e.to, stack);
      LaterIsTransitive(View(), linked, old(View()));
    }

    /** The target is gray: the edge closes a cycle. */
    method CloseCycle(e: LockOrderEdge, ghost stack: seq<Key>)
      requires Ready(stack) && e in edges && |stack| > 0 && e.from == stack[|stack| - 1] && e.to in stack
      requires Deduplicated(graph) ==> !Closes(cycles, e)
      modifies this`cycles
      ensures Ready(stack) && old(cycles) <= cycles
      ensures forall d :: Closes(cycles, d) <==> old(Closes(cycles, d)) || d == e
    {
      var cycle := ExtractCycle(parent, e, edges, stack);
      if cycle.Some? {
        ClosesMore(cycles, cycle.value);
        if Deduplicated(graph) { OneMoreClosed(cycles, cycle.value); }
        cycles := cycles + [cycle.value];
      }
    }

    method Finish(node: Key, ghost stack: seq<Key>)
      requires Ready(stack + [node])
      requires forall e :: e in edges && e.from == node ==> Closes(cycles, e) || e.to in rank
      modifies this`color, this`rank, this`clock
      ensures Ready(stack) && node in rank && View() == Blacken(old(View()), node)
    {
      ghost var t := Blacken(View(), node);
      Pop(edges, View(), stack, node);
      color := color[node := Black];
      rank, clock := t.rank, t.clock;
      assert View() == t;
    }

    /** The node that is named first has been seen, and has no parent; or nothing has been seen yet. */
    ghost predicate RootFirst(todo: set<Key>)
      reads this
    {
      forall y :: NamedFirst(name, NodeSet(graph), y) ==>
        y !in parent && (y in color || (y in todo && color == map[]))
    }

    method VisitIfWhite(node: Key, ghost todo: set<Key>)
      requires Ready([]) && node in todo && todo <= NodeSet(graph) && LeastNamed(name, todo, node) && RootFirst(todo)
      modifies this
      ensures Ready([]) && Later(View(), old(View())) && node in rank && RootFirst(todo - {node})
    {
      if node !in color { Visit(node, []); }
      forall y | NamedFirst(name, NodeSet(graph), y)
        ensures y !in parent && (y in color || (y in todo - {node} && color == map[]))
      {
        assert SameParent(View(), old(View()), y);
      }
    }

    /** Visits every node that is still white, in the order of names; nodes named alike come in any order. */
    method VisitAll()
      requires Ready([]) && color == map[] && parent == map[]
      modifies this
      ensures Ready([]) && forall e :: e in edges ==> e.from in rank && e.to in rank
      ensures forall y :: NamedFirst(name, NodeSet(graph), y) ==> y !in parent
    {
      var todo := graph.Keys + set k, i | k in graph && 0 <= i < |graph[k]| :: graph[k][i].to;
      assert todo == NodeSet(graph);
      while todo != {}
        invariant Ready([]) && todo <= NodeSet(graph) && RootFirst(todo)
        invariant forall k :: k in NodeSet(graph) && k !in todo ==> k in rank
        decreases todo
      {
        LeastNamedExists(name, todo);
        var node :| node in todo && LeastNamed(name, todo, node);
        VisitIfWhite(node, todo);
        todo := todo - {node};
      }
      forall e | e in edges ensures e.from in rank && e.to in rank { EdgeSetByNode(graph, e); }
    }
  }

  // ----- What the search says about all cycles

  /** Every edge that leads down the finishing order leads up the reversed one. */
  lemma {:induction false} ReversedFinishOrderRanks(edges: Edges, cycles: seq<Cycle>, rank: map<Key, nat>, clock: nat)
    requires Descends(edges, cycles, rank) && (forall k :: k in rank ==> rank[k] < clock)
    requires forall e :: e in edges ==> e.from in rank && e.to in rank
    ensures Ranks(Unclosing(edges, cycles), map k | k in rank :: clock - rank[k])
  {
  }

  /** `c` contains the closing edge of one of the cycles. */
  ghost predicate Cut(cycles: seq<Cycle>, c: Cycle) {
    exists i :: 0 <= i < |c| && Closes(cycles, c[i])
  }

  /** Without the closing edges of the found cycles there is no cycle left. */
  lemma {:induction false} EveryCycleIsCut(edges: Edges, cycles: seq<Cycle>, rank: map<Key, nat>, c: Cycle)
    requires Ranks(Unclosing(edges, cycles), rank) && IsCycle(edges, c)
    ensures Cut(cycles, c)
  {
    var rest := Unclosing(edges, cycles);
    RankedHasNoCycle(rest, rank, c);
    assert (forall i :: 0 <= i < |c| ==> !Closes(cycles, c[i])) ==> IsCycle(rest, c);
  }

  /** The cycle is among the reported ones, up to where it starts. */
  ghost predicate Reported(result: seq<Cycle>, c: Cycle) {
    exists n :: 0 <= n < |result| && IsRotation(Pairs(result[n]), Pairs(c))
  }

  ghost predicate HaveAPair(c: Cycle, d: Cycle, p: Pair) {
    p in Pairs(c) && p in Pairs(d)
  }

  /** No two different cycles have a pair of locks in common. */
  ghost predicate PairDisjoint(edges: Edges) {
    forall c, d, p :: IsCycle(edges, c) && IsCycle(edges, d) && HaveAPair(c, d, p) ==> IsRotation(Pairs(c), Pairs(d))
  }

  /** If no two different cycles have a pair in common, a cut cycle is one of the found ones. */
  lemma {:induction false} CutIsFound(edges: Edges, cycles: seq<Cycle>, c: Cycle)
    requires PairDisjoint(edges) && CyclesGenuine(edges, cycles) && IsCycle(edges, c) && Cut(cycles, c)
    ensures Reported(cycles, c)
  {
    var i :| 0 <= i < |c| && Closes(cycles, c[i]);
    var j :| 0 <= j < |cycles| && ClosedBy(cycles[j], c[i]);
    var p := Pair(c[i].from, c[i].to);
    assert Pairs(c)[i] == p && Pairs(cycles[j])[|cycles[j]| - 1] == p;
    assert HaveAPair(cycles[j], c, p);
  }

  /** Two cycles that go back over parent edges to a node without parent do so over the same edges. */
  lemma {:induction false} SameWayBack(parent: map<Key, LockOrderEdge>, seen: set<Key>, c: Cycle, i: nat, d: Cycle,
                                       j: nat)
    requires Traced(parent, seen, c) && Traced(parent, seen, d) && i < |c| && j < |d| && c[i].from == d[j].from
    requires forall m, n :: 0 <= m < |c| && n == m + 1 && n < |c| ==> c[m].to == c[n].from
    requires forall m, n :: 0 <= m < |d| && n == m + 1 && n < |d| ==> d[m].to == d[n].from
    requires c[0].from !in parent && d[0].from !in parent
    ensures i == j && c[..i] == d[..i]
  {
    if i > 0 { assert c[i - 1].to == c[i].from; }
    if j > 0 { assert d[j - 1].to == d[j].from; }
    if i > 0 && j > 0 {
      SameWayBack(parent, seen, c, i - 1, d, j - 1);
      assert c[..i] == c[..i - 1] + [c[i - 1]] && d[..j] == d[..j - 1] + [d[j - 1]];
    }
  }

  /** A found cycle through a node without parent is closed by the edge into it. */
  lemma {:induction false} RootIsClosedInto(edges: Edges, parent: map<Key, LockOrderEdge>, seen: set<Key>, c: Cycle,
                                            p: Pair)
    requires IsCycle(edges, c) && Traced(parent, seen, c) && p in Pairs(c) && p.to !in parent
    ensures c[|c| - 1].from == p.from && c[0].from == p.to
  {
    var i :| 0 <= i < |c| && Pairs(c)[i] == p;
    assert c[i].to == p.to;
  }

  /** Cycles that enter `y` from the same lock visit the same locks in the same order. */
  ghost predicate OneWayInto(cycles: seq<Cycle>, y: Key) {
    forall c, d, p: Pair :: c in cycles && d in cycles && p.to == y && p in Pairs(c) && p in Pairs(d) ==>
      Pairs(c) == Pairs(d)
  }

  lemma {:induction false} OneCyclePerPairIntoRoot(edges: Edges, s: Search, y: Key)
    requires CyclesGenuine(edges, s.cycles) && CyclesTraced(s) && y !in s.parent
    ensures OneWayInto(s.cycles, y)
  {
    forall c, d, p: Pair | c in s.cycles && d in s.cycles && p.to == y && p in Pairs(c) && p in Pairs(d)
      ensures Pairs(c) == Pairs(d)
    {
      RootIsClosedInto(edges, s.parent, s.color.Keys, c, p);
      RootIsClosedInto(edges, s.parent, s.color.Keys, d, p);
      SameWayBack(s.parent, s.color.Keys, c, |c| - 1, d, |d| - 1);
      assert forall i :: 0 <= i < |c| - 1 ==> c[i] == c[..|c| - 1][i] && d[i] == d[..|c| - 1][i];
    }
  }

  /** What a finished search says about all cycles. */
  lemma {:induction false} SearchIsConclusive(edges: Edges, s: Search)
    requires Finished(edges, s) && CyclesGenuine(edges, s.cycles)
    requires forall e :: e in edges ==> e.from in s.rank && e.to in s.rank
    ensures forall c :: IsCycle(edges, c) ==> Cut(s.cycles, c)
    ensures s.cycles == [] ==> exists rank :: Ranks(edges, rank)
    ensures PairDisjoint(edges) ==> forall c :: IsCycle(edges, c) ==> Reported(s.cycles, c)
  {
    var rank := map k | k in s.rank :: s.clock - s.rank[k];
    ReversedFinishOrderRanks(edges, s.cycles, s.rank, s.clock);
    forall c | IsCycle(edges, c)
      ensures Cut(s.cycles, c)
      ensures PairDisjoint(edges) ==> Reported(s.cycles, c)
    {
      EveryCycleIsCut(edges, s.cycles, rank, c);
      if PairDisjoint(edges) { CutIsFound(edges, s.cycles, c); }
    }
    if s.cycles == [] { assert edges == Unclosing(edges, s.cycles); }
  }

  /** Finding nothing means that there is no cycle, which means that the edges can be ranked. */
  lemma {:induction false} EmptyMeansRanked(edges: Edges, cycles: seq<Cycle>)
    requires CyclesGenuine(edges, cycles) && forall c :: IsCycle(edges, c) ==> Cut(cycles, c)
    requires cycles == [] ==> exists rank :: Ranks(edges, rank)
    ensures cycles != [] <==> exists c :: IsCycle(edges, c)
    ensures cycles == [] <==> exists rank :: Ranks(edges, rank)
  {
    if cycles != [] { assert IsCycle(edges, cycles[0]); }
    forall rank, c | Ranks(edges, rank) ensures !IsCycle(edges, c) { RankedHasNoCycle(edges, rank, c); }
  }

  /** The depth-first search finds only genuine simple cycles; every cycle of the graph contains the closing
      edge of a found one; hence it finds one if there is any, and otherwise leaves a ranking under which
      every edge goes strictly up.  No edge closes two found cycles.  All cycles are found if no two different
      ones have a pair of locks in common; found cycles that enter the first node from the same lock are alike. */
  method FindCycles(graph: Graph, name: Naming) returns (cycles: seq<Cycle>)
    requires Filed(graph)
    ensures CyclesGenuine(EdgeSet(graph), cycles)
    ensures forall c :: IsCycle(EdgeSet(graph), c) ==> Cut(cycles, c)
    ensures cycles != [] <==> exists c :: IsCycle(EdgeSet(graph), c)
    ensures cycles == [] <==> exists rank :: Ranks(EdgeSet(graph), rank)
    ensures Deduplicated(graph) ==> ClosedOnce(cycles) && |cycles| <= |EdgeSet(graph)|
    ensures PairDisjoint(EdgeSet(graph)) ==> forall c :: IsCycle(EdgeSet(graph), c) ==> Reported(cycles, c)
    ensures forall y :: NamedFirst(name, NodeSet(graph), y) ==> OneWayInto(cycles, y)
  {
    var search := new CycleSearch(graph, name);
    search.VisitAll();
    cycles := search.cycles;
    ghost var edges := EdgeSet(graph);
    SearchIsConclusive(edges, search.View());
    EmptyMeansRanked(edges, cycles);
    if Deduplicated(graph) { OneCyclePerEdge(edges, cycles); }
    forall y | NamedFirst(name, NodeSet(graph), y) ensures OneWayInto(cycles, y) {
      OneCyclePerPairIntoRoot(edges, search.View(), y);
    }
  }
}
