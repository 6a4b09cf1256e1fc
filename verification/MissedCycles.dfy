/** When `detectCycles` does not find all cycles.  It reports at most one cycle per edge, so it misses some
    whenever there are more cycles than edges, whatever the order.  And it can miss some as soon as two
    different cycles have a pair of locks in common: it does if the search starts where the pair leads to. */
module MissedCycles {
  import opened Types
  import opened Sets
  import opened Strings
  import opened Digraph
  import opened LockOrder
  import opened CycleDedup
  import opened CycleDetection
  import opened Rotations

  // ----- More cycles than edges

  ghost predicate PairwiseDifferent(family: seq<Cycle>) {
    forall i, j :: 0 <= i < j < |family| ==> !IsRotation(Pairs(family[i]), Pairs(family[j]))
  }

  lemma {:induction false} InjectionFits(m: map<nat, nat>, n: nat)
    requires forall x :: x in m ==> m[x] < n
    requires forall x, y :: x in m && y in m && m[x] == m[y] ==> x == y
    ensures |m.Keys| <= n
  {
    if m != map[] {
      var x :| x in m;
      assert n > 0;
      var rest := map y | y in m && y != x :: if m[y] == n - 1 then m[x] else m[y];
      assert rest.Keys == m.Keys - {x};
      InjectionFits(rest, n - 1);
    }
  }

  /** Where a reported cycle is in the result. */
  ghost function Place(result: seq<Cycle>, c: Cycle): (n: nat)
    requires Reported(result, c)
    ensures n < |result| && IsRotation(Pairs(result[n]), Pairs(c))
  {
    var n: nat :| n < |result| && IsRotation(Pairs(result[n]), Pairs(c));
    n
  }

  lemma {:induction false} SamePlace(r: Cycle, c: Cycle, d: Cycle)
    requires IsRotation(Pairs(r), Pairs(c)) && IsRotation(Pairs(r), Pairs(d))
    ensures IsRotation(Pairs(c), Pairs(d))
  {
    RotationIsSymmetric(Pairs(r), Pairs(c));
    RotationIsTransitive(Pairs(c), Pairs(r), Pairs(d));
  }

  lemma {:induction false} ReportedAllFits(result: seq<Cycle>, family: seq<Cycle>)
    requires PairwiseDifferent(family) && forall i :: 0 <= i < |family| ==> Reported(result, family[i])
    ensures |family| <= |result|
  {
    var all := Range(|family|);
    var at := map i | i in all :: Place(result, family[i]);
    forall i, j | i in at && j in at && at[i] == at[j] ensures i == j {
      SamePlace(result[at[i]], family[i], family[j]);
      SamePlace(result[at[i]], family[j], family[i]);
    }
    assert at.Keys == all;
    InjectionFits(at, |result|);
  }

  /** A list that is shorter than a family of different cycles does not report all of them. */
  lemma {:induction false} ShortListMissesOne(result: seq<Cycle>, family: seq<Cycle>)
    requires PairwiseDifferent(family) && |result| < |family|
    ensures exists i :: 0 <= i < |family| && !Reported(result, family[i])
  {
    if forall i :: 0 <= i < |family| ==> Reported(result, family[i]) { ReportedAllFits(result, family); }
  }

  /** Whatever the names and the order, on a graph with more different cycles than edges some cycle is not
      reported. */
  method MissesACycle(graph: Graph, name: Naming, ghost family: seq<Cycle>) returns (result: seq<Cycle>)
    requires Filed(graph) && Deduplicated(graph) && CyclesGenuine(EdgeSet(graph), family)
    requires PairwiseDifferent(family) && |EdgeSet(graph)| < |family|
    ensures exists c :: IsCycle(EdgeSet(graph), c) && !Reported(result, c)
  {
    result := DetectCycles(graph, name);
    ShortListMissesOne(result, family);
  }

  // ----- Two cycles with a pair in common

  /** Distinct names without separators under which `y` comes first. */
  function StartingAt(y: Key): Naming {
    k => if k == y then "a" else "b" + Tally(k.structType) + ['c'] + Tally(k.fieldIndex)
  }

  function Tally(n: nat): (s: string)
    ensures |s| == n && forall c :: c in s ==> c == 'd'
  {
    seq(n, _ => 'd')
  }

  lemma {:induction false} StartingAtSeparates(y: Key, k: Key, l: Key)
    requires StartingAt(y)(k) == StartingAt(y)(l)
    ensures k == l
  {
    var s, t := StartingAt(y)(k), StartingAt(y)(l);
    assert k != y ==> s[0] == 'b';
    assert l != y ==> t[0] == 'b';
    if k != y && l != y {
      UniqueSplit("b" + Tally(k.structType), Tally(k.fieldIndex), "b" + Tally(l.structType), Tally(l.fieldIndex), 'c');
      assert |"b" + Tally(k.structType)| == |"b" + Tally(l.structType)|;
      assert |Tally(k.fieldIndex)| == |Tally(l.fieldIndex)|;
    }
  }

  lemma {:induction false} StartingAtIsUnambiguous(y: Key, nodes: set<Key>)
    requires y in nodes
    ensures Unambiguous(StartingAt(y), nodes) && NamedFirst(StartingAt(y), nodes, y)
  {
    forall k, l | k in nodes && l in nodes && StartingAt(y)(k) == StartingAt(y)(l) ensures k == l {
      StartingAtSeparates(y, k, l);
    }
    forall k | k in nodes && k != y ensures Less(StartingAt(y)(y), StartingAt(y)(k)) {
      assert StartingAt(y)(k)[0] == 'b';
    }
  }

  /** If two different cycles of a graph have a pair of locks in common, names exist under which one of them is
      not reported.  With `DetectCycles`: all cycles are reported under all unambiguous names if and only if
      no two different cycles have a pair of locks in common. */
  method MissesOneOfTwo(graph: Graph, ghost c: Cycle, ghost d: Cycle, p: Pair)
    returns (name: Naming, result: seq<Cycle>)
    requires Filed(graph) && IsCycle(EdgeSet(graph), c) && IsCycle(EdgeSet(graph), d)
    requires HaveAPair(c, d, p) && !IsRotation(Pairs(c), Pairs(d))
    ensures Unambiguous(name, NodeSet(graph)) && !(Reported(result, c) && Reported(result, d))
  {
    CycleIsSimple(graph, c);
    StartingAtIsUnambiguous(p.to, NodeSet(graph));
    name := StartingAt(p.to);
    result := DetectCycles(graph, name);
  }

  // ----- A graph with more cycles than edges

  /** Two hubs; `WIDTH` locks lead from the first to the second, and `WIDTH` others back. */
  const WIDTH: nat := 5
  const SOURCE := Key(0, 0)
  const TARGET := Key(0, 1)

  function Out(i: nat): Key { Key(1, i) }
  function Back(j: nat): Key { Key(2, j) }
  function Nest(from: Key, to: Key): LockOrderEdge { LockOrderEdge(from, to, 0, 0) }

  function Leaving(k: Key): seq<LockOrderEdge> {
    if k == SOURCE then seq(WIDTH, i requires i >= 0 => Nest(SOURCE, Out(i)))
    else if k == TARGET then seq(WIDTH, j requires j >= 0 => Nest(TARGET, Back(j)))
    else if k.structType == 1 then [Nest(k, TARGET)]
    else [Nest(k, SOURCE)]
  }

  function Nodes(): set<Key> {
    {SOURCE, TARGET} + (set i: nat | i < WIDTH :: Out(i)) + (set j: nat | j < WIDTH :: Back(j))
  }

  function Hubs(): Graph {
    map k | k in Nodes() :: Leaving(k)
  }

  lemma {:induction false} HubsAreWellBuilt()
    ensures Filed(Hubs()) && Deduplicated(Hubs())
  {
  }

  /** The image of the numbers below `n`. */
  ghost function Image(n: nat, f: nat -> LockOrderEdge): set<LockOrderEdge> {
    set i: nat | i < n :: f(i)
  }

  lemma {:induction false} ImageSize(n: nat, f: nat -> LockOrderEdge)
    ensures |Image(n, f)| <= n
  {
    if n > 0 {
      ImageSize(n - 1, f);
      assert Image(n, f) == Image(n - 1, f) + {f(n - 1)};
    }
  }

  function ToOut(): nat -> LockOrderEdge { (i: nat) => Nest(SOURCE, Out(i)) }
  function FromOut(): nat -> LockOrderEdge { (i: nat) => Nest(Out(i), TARGET) }
  function ToBack(): nat -> LockOrderEdge { (j: nat) => Nest(TARGET, Back(j)) }
  function FromBack(): nat -> LockOrderEdge { (j: nat) => Nest(Back(j), SOURCE) }

  lemma {:induction false} EdgeIsOnASide(e: LockOrderEdge)
    requires e in EdgeSet(Hubs())
    ensures e in Image(WIDTH, ToOut()) || e in Image(WIDTH, FromOut()) || e in Image(WIDTH, ToBack())
      || e in Image(WIDTH, FromBack())
  {
    var k, i: nat :| k in Hubs() && i < |Hubs()[k]| && Hubs()[k][i] == e;
    if k == SOURCE {
      assert ToOut()(i) == e;
    } else if k == TARGET {
      assert ToBack()(i) == e;
    } else if k.structType == 1 {
      assert FromOut()(k.fieldIndex) == e;
    } else {
      assert FromBack()(k.fieldIndex) == e;
    }
  }

  lemma {:induction false} HubsHaveFewEdges()
    ensures |EdgeSet(Hubs())| <= 4 * WIDTH
  {
    ImageSize(WIDTH, ToOut());
    ImageSize(WIDTH, FromOut());
    ImageSize(WIDTH, ToBack());
    ImageSize(WIDTH, FromBack());
    var sides := Image(WIDTH, ToOut()) + Image(WIDTH, FromOut()) + Image(WIDTH, ToBack()) + Image(WIDTH, FromBack());
    forall e | e in EdgeSet(Hubs()) ensures e in sides { EdgeIsOnASide(e); }
    SubsetIsNoLarger(EdgeSet(Hubs()), sides);
  }

  /** Out through lock `x / WIDTH` and back through lock `x % WIDTH`. */
  function Round(x: nat): Cycle {
    var i, j := x / WIDTH, x % WIDTH;
    [Nest(SOURCE, Out(i)), Nest(Out(i), TARGET), Nest(TARGET, Back(j)), Nest(Back(j), SOURCE)]
  }

  lemma {:induction false} RoundIsCycle(x: nat)
    requires x < WIDTH * WIDTH
    ensures IsCycle(EdgeSet(Hubs()), Round(x))
  {
    var g, i, j := Hubs(), x / WIDTH, x % WIDTH;
    assert i < WIDTH && j < WIDTH;
    assert g[SOURCE][i] == Nest(SOURCE, Out(i)) && g[TARGET][j] == Nest(TARGET, Back(j));
    assert Out(i) in g && g[Out(i)][0] == Nest(Out(i), TARGET);
    assert Back(j) in g && g[Back(j)][0] == Nest(Back(j), SOURCE);
  }

  lemma {:induction false} SharedRound(x: nat, y: nat)
    requires forall p :: p in Pairs(Round(x)) ==> p in Pairs(Round(y))
    ensures x == y
  {
    var xs, ys := Pairs(Round(x)), Pairs(Round(y));
    assert xs[0] in ys && xs[2] in ys;
    assert forall n :: 0 <= n < 4 ==> ys[n] == Pair(Round(y)[n].from, Round(y)[n].to);
    assert x / WIDTH == y / WIDTH && x % WIDTH == y % WIDTH;
  }

  /** All ways around the two hubs. */
  function Rounds(): (cs: seq<Cycle>)
    ensures |cs| == WIDTH * WIDTH && forall x :: 0 <= x < WIDTH * WIDTH ==> cs[x] == Round(x)
  {
    seq(WIDTH * WIDTH, x requires x >= 0 => Round(x))
  }

  /** Between two hubs there are 25 different cycles over 20 edges. */
  lemma {:induction false} HubsHaveMoreCyclesThanEdges()
    ensures Filed(Hubs()) && Deduplicated(Hubs()) && CyclesGenuine(EdgeSet(Hubs()), Rounds())
    ensures PairwiseDifferent(Rounds()) && |EdgeSet(Hubs())| < |Rounds()|
  {
    HubsAreWellBuilt();
    HubsHaveFewEdges();
    forall x | 0 <= x < |Rounds()| ensures IsCycle(EdgeSet(Hubs()), Rounds()[x]) { RoundIsCycle(x); }
    forall x, y | 0 <= x < y < |Rounds()| ensures !IsRotation(Pairs(Rounds()[x]), Pairs(Rounds()[y])) {
      if IsRotation(Pairs(Round(x)), Pairs(Round(y))) {
        RotationHasSameElements(Pairs(Round(x)), Pairs(Round(y)));
        SharedRound(x, y);
      }
    }
  }
}
