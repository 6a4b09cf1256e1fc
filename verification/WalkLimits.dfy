/** Why the exactness theorems of the walk carry their conditions: one function each that breaks them. */
module WalkLimits {
  import opened Types
  import opened LockStates
  import opened Cfgs
  import opened PathText
  import opened Records
  import opened WalkInvariant
  import opened WalkSpec
  import opened WalkTheorems
  import opened LeakFiling

  const K := LockRef(0, 0)
  const M := LockRef(0, 1)

  function Analysed(cfg: Cfg): Func { Func(0, cfg, map[], {}, {}) }

  lemma {:induction false} FirstVisit(f: Func, t: Tables, b: BlockId, from: Option<BlockId>, s: State)
    requires WellFormed(f.cfg) && Bounded(f.cfg, t.entry) && b < |f.cfg| && Within(Universe(f.cfg), s) && b !in t.entry
    ensures var r := Run(f, t, b, s);
      && Bounded(f.cfg, r.entry) && Within(Universe(f.cfg), Exec(f.cfg[b].instrs, s))
      && WalkBlock(f, t, b, from, s) == WalkSuccs(f, r, b, Exec(f.cfg[b].instrs, s), 0)
  {
    VisitShrinks(f.cfg, t.entry, b, s);
    BlockWithin(f.cfg, b, s);
  }

  lemma {:induction false} OneSuccessor(f: Func, t: Tables, b: BlockId, out: State)
    requires WellFormed(f.cfg) && Bounded(f.cfg, t.entry) && b < |f.cfg| && Within(Universe(f.cfg), out)
    requires |f.cfg[b].succs| == 1
    ensures WalkSuccs(f, t, b, out, 0) == WalkBlock(f, t, f.cfg[b].succs[0], Some(b), out)
  {
  }

  lemma {:induction false} NextSuccessor(f: Func, t: Tables, b: BlockId, out: State, i: nat)
    requires WellFormed(f.cfg) && Bounded(f.cfg, t.entry) && b < |f.cfg| && Within(Universe(f.cfg), out)
    requires i < |f.cfg[b].succs|
    ensures WalkSuccs(f, t, b, out, i) == WalkSuccs(f, WalkBlock(f, t, f.cfg[b].succs[i], Some(b), out), b, out, i + 1)
  {
  }

  // ----- Several ways into one block

  /** Block 0 does nothing and branches to `ways`, each of which leads to the last block `j`. */
  ghost predicate Fans(cfg: Cfg, ways: seq<BlockId>, j: BlockId) {
    && 0 < j < |cfg| && cfg[0] == Block([], ways) && cfg[j].succs == []
    && (forall i :: 0 <= i < |ways| ==> 0 < ways[i] < |cfg| && ways[i] != j && cfg[ways[i]].succs == [j])
    && (forall i, k :: 0 <= i < k < |ways| ==> ways[i] != ways[k])
  }

  /** What a block is stored with after one more arrival. */
  function Merged(prev: Option<State>, s: State): State {
    match prev
    case None => s
    case Some(e) => if SameKeys(s, e) || SameKeys(Meet(e, s), e) then e else Meet(e, s)
  }

  ghost function Stored(entry: Entries, j: BlockId): Option<State> {
    if j in entry then Some(entry[j]) else None
  }

  lemma {:induction false} OneWay(f: Func, t: Tables, way: BlockId, j: BlockId, s: State)
    requires WellFormed(f.cfg) && Bounded(f.cfg, t.entry) && Within(Universe(f.cfg), s)
    requires way < |f.cfg| && j < |f.cfg| && way != j && way !in t.entry && f.cfg[way].succs == [j]
    requires f.cfg[j].succs == []
    ensures var u := WalkBlock(f, t, way, Some(0), s);
      && u.entry.Keys == t.entry.Keys + {way, j}
      && u.entry[j] == Merged(Stored(t.entry, j), Exec(f.cfg[way].instrs, s))
  {
    var v, out := Run(f, t, way, s), Exec(f.cfg[way].instrs, s);
    FirstVisit(f, t, way, Some(0), s);
    OneSuccessor(f, v, way, out);
    if !Stops(v.entry, j, out) { Unfold(f, v, j, Some(way), out); }
  }

  /** The arrivals at `j` through the ways from the `i`-th on, in order. */
  function MergedFrom(cfg: Cfg, ways: seq<BlockId>, i: nat, prev: Option<State>): Option<State>
    requires i <= |ways| && forall k :: 0 <= k < |ways| ==> ways[k] < |cfg|
    decreases |ways| - i
  {
    if i == |ways| then prev else MergedFrom(cfg, ways, i + 1, Some(Merged(prev, Exec(cfg[ways[i]].instrs, EMPTY))))
  }

  lemma {:induction false} NextWay(f: Func, t: Tables, ways: seq<BlockId>, j: BlockId, i: nat) returns (u: Tables)
    requires WellFormed(f.cfg) && Fans(f.cfg, ways, j) && i < |ways|
    requires Bounded(f.cfg, t.entry) && Within(Universe(f.cfg), EMPTY)
    requires forall k :: i <= k < |ways| ==> ways[k] !in t.entry
    ensures Bounded(f.cfg, u.entry) && (forall k :: i < k < |ways| ==> ways[k] !in u.entry)
    ensures WalkSuccs(f, t, 0, EMPTY, i) == WalkSuccs(f, u, 0, EMPTY, i + 1)
    ensures Stored(u.entry, j) == Some(Merged(Stored(t.entry, j), Exec(f.cfg[ways[i]].instrs, EMPTY)))
  {
    u := WalkBlock(f, t, ways[i], Some(0), EMPTY);
    NextSuccessor(f, t, 0, EMPTY, i);
    OneWay(f, t, ways[i], j, EMPTY);
  }

  lemma {:induction false} AllWays(f: Func, t: Tables, ways: seq<BlockId>, j: BlockId, i: nat)
    requires WellFormed(f.cfg) && Fans(f.cfg, ways, j) && i <= |ways|
    requires Bounded(f.cfg, t.entry) && Within(Universe(f.cfg), EMPTY)
    requires forall k :: i <= k < |ways| ==> ways[k] !in t.entry
    ensures Stored(WalkSuccs(f, t, 0, EMPTY, i).entry, j) == MergedFrom(f.cfg, ways, i, Stored(t.entry, j))
    decreases |ways| - i
  {
    if i < |ways| {
      var u := NextWay(f, t, ways, j, i);
      AllWays(f, u, ways, j, i + 1);
    }
  }

  lemma {:induction false} FanIsMerged(f: Func, leaks: Leaks, ways: seq<BlockId>, j: BlockId)
    requires WellFormed(f.cfg) && Fans(f.cfg, ways, j)
    ensures Stored(WalkFunction(f, leaks).entry, j) == MergedFrom(f.cfg, ways, 0, None)
  {
    FirstVisit(f, Start(leaks), 0, None, EMPTY);
    AllWays(f, Run(f, Start(leaks), 0, EMPTY), ways, j, 0);
  }

  // ----- Locks in two modes

  /** Three ways into block 4, visited in the order `ways`: K exclusively, K shared, and K exclusively with M. */
  function Merge(ways: seq<BlockId>): Cfg {
    [Block([], ways),
     Block([Acquire(K, true, 1)], [4]),
     Block([Acquire(K, false, 3)], [4]),
     Block([Acquire(K, true, 1), Acquire(M, true, 2)], [4]),
     Block([], [])]
  }

  const KX := State(map[K := HeldLock(true, 1)], {})
  const KM := State(map[K := HeldLock(true, 1), M := HeldLock(true, 2)], {})
  const KS := State(map[K := HeldLock(false, 3)], {})

  function Arriving(way: BlockId): State {
    if way == 1 then KX else if way == 2 then KS else KM
  }

  lemma {:induction false} MergeBodies(ways: seq<BlockId>)
    ensures forall way :: 1 <= way <= 3 ==> Exec(Merge(ways)[way].instrs, EMPTY) == Arriving(way)
  {
    ExecOne(Acquire(K, true, 1), EMPTY);
    ExecOne(Acquire(K, false, 3), EMPTY);
    ExecTwo(Acquire(K, true, 1), Acquire(M, true, 2), EMPTY);
  }

  lemma {:induction false} MergeResult(leaks: Leaks, x: BlockId, y: BlockId, z: BlockId)
    requires 1 <= x <= 3 && 1 <= y <= 3 && 1 <= z <= 3 && x != y && y != z && x != z
    ensures WellFormed(Merge([x, y, z]))
    ensures var two := Merged(Some(Arriving(x)), Arriving(y));
      Stored(WalkFunction(Analysed(Merge([x, y, z])), leaks).entry, 4) == Some(Merged(Some(two), Arriving(z)))
  {
    var ways := [x, y, z];
    var cfg := Merge(ways);
    FanIsMerged(Analysed(cfg), leaks, ways, 4);
    MergeBodies(ways);
    var two := Merged(Some(Arriving(x)), Arriving(y));
    var three := Some(Merged(Some(two), Arriving(z)));
    assert MergedFrom(cfg, ways, 3, three) == three;
    assert MergedFrom(cfg, ways, 2, Some(two)) == three;
    assert MergedFrom(cfg, ways, 1, Some(Arriving(x))) == three;
  }

  lemma {:induction false} KeptOrLost()
    ensures Merged(Some(Merged(Some(KX), KS)), KM) == KX
    ensures Merged(Some(Merged(Some(KM), KS)), KX) == EMPTY
  {
    assert SameKeys(KS, KX) && SameKeys(Meet(KX, KM), KX);
    assert Meet(KM, KS) == EMPTY && M in KM.held && !SameKeys(EMPTY, KM) && !SameKeys(KS, KM);
    assert SameKeys(Meet(EMPTY, KX), EMPTY);
  }

  lemma {:induction false} MergePaths(ways: seq<BlockId>)
    requires ways == [3, 2, 1]
    ensures WellFormed(Merge(ways)) && AlwaysHeld(Merge(ways), 4, K) && !ModeConsistent(Merge(ways), K)
  {
    var cfg := Merge(ways);
    MergeBodies(ways);
    assert cfg[0].succs[1] == 2 && cfg[0].succs[2] == 1 && cfg[1].succs[0] == 4 && cfg[2].succs[0] == 4;
    assert Valid(cfg, Entry) && StateAt(cfg, Entry) == EMPTY && Exec(cfg[0].instrs, EMPTY) == EMPTY;
    forall way | way == 1 || way == 2
      ensures Reaches(cfg, Via(Via(Entry, way), 4), 4) && StateAt(cfg, Via(Via(Entry, way), 4)) == Arriving(way)
    {
      assert Valid(cfg, Via(Entry, way)) && StateAt(cfg, Via(Entry, way)) == EMPTY;
    }
    forall p | Reaches(cfg, p, 4) ensures K in StateAt(cfg, p).held {
      var b := End(p.prefix);
      assert Valid(cfg, p.prefix) && 1 <= b <= 3;
      ExecIsGenKill(cfg[b].instrs, StateAt(cfg, p.prefix), K);
      assert cfg[3].instrs[..1] == [Acquire(K, true, 1)];
    }
  }

  /** A lock held on every path can be missing from the entry when its modes differ. */
  lemma {:induction false} MixedModesLoseALock(leaks: Leaks)
    ensures var cfg := Merge([3, 2, 1]);
      && WellFormed(cfg) && AlwaysHeld(cfg, 4, K) && !ModeConsistent(cfg, K)
      && Stored(WalkFunction(Analysed(cfg), leaks).entry, 4) == Some(EMPTY)
  {
    MergePaths([3, 2, 1]);
    MergeResult(leaks, 3, 2, 1);
    KeptOrLost();
  }

  lemma {:induction false} SameArrivals(ways: seq<BlockId>, other: seq<BlockId>)
    requires forall x :: x in ways <==> x in other
    ensures SameUpToSuccessorOrder(Merge(ways), Merge(other))
  {
    var c, d := Merge(ways), Merge(other);
    forall b | 0 <= b < 5 ensures c[b].instrs == d[b].instrs && forall x :: x in c[b].succs <==> x in d[b].succs {
      if b > 0 { assert c[b] == d[b]; }
    }
  }

  /** For a lock entered in two modes the result depends on the order of the successors: the same three
      arrivals keep K in one order and lose it in another. */
  lemma {:induction false} VisitingOrderDecidesMixedModes(leaks: Leaks)
    ensures var c, d := Merge([1, 2, 3]), Merge([3, 2, 1]);
      && SameUpToSuccessorOrder(c, d) && WellFormed(c) && WellFormed(d)
      && Stored(WalkFunction(Analysed(c), leaks).entry, 4) == Some(KX)
      && Stored(WalkFunction(Analysed(d), leaks).entry, 4) == Some(EMPTY)
  {
    SameArrivals([1, 2, 3], [3, 2, 1]);
    MergeResult(leaks, 1, 2, 3);
    MergeResult(leaks, 3, 2, 1);
    KeptOrLost();
  }

  // ----- One leak table for all returns

  /** Two returns at one position, as implicit returns without a source position are; only the first leaks. */
  const SHARED: Cfg := [
    Block([], [1, 2]),
    Block([Acquire(K, true, 1), Return(7)], []),
    Block([Return(7)], [])]

  /** With a shared return position a return executed later erases a genuine leak candidate. */
  lemma {:induction false} SharedPositionLosesALeak()
    ensures var f := Analysed(SHARED);
      && WellFormedProgram([f]) && !DistinctReturns(SHARED) && ReturnIn([f], 0, 1, 1, 7) && LeaksOnPaths(f, 1, 1, K)
      && !ExactAt([f], 0, 1, 1, 7)
  {
    var f := Analysed(SHARED);
    assert IsReturn(SHARED, 1, 1, 7) && IsReturn(SHARED, 2, 0, 7);
    SharedPath();
    SharedTable(f);
    assert !Files({}, f.id, 7, K);
  }

  /** The second return is executed last. */
  lemma {:induction false} SharedTable(f: Func)
    requires f == Analysed(SHARED)
    ensures WellFormedProgram([f]) && Candidates(LeakTable([f]), 7) == {}
  {
    var r0 := Run(f, Start(map[]), 0, EMPTY);
    FirstVisit(f, Start(map[]), 0, None, EMPTY);
    var r1 := SharedBranch(f, r0, 1);
    var r2 := SharedBranch(f, r1, 2);
    NextSuccessor(f, r0, 0, EMPTY, 0);
    NextSuccessor(f, r1, 0, EMPTY, 1);
    var i := LastReturnDecides(f, SHARED[2].instrs, EMPTY, r1.leaks, 7);
    assert SHARED[2].instrs[..0] == [] && LeaksAt(f, 7, EMPTY) == {};
    assert [f][..0] == [] && LeakTable([f]) == LeaksAfterWalk(f, map[]);
  }

  lemma {:induction false} SharedBranch(f: Func, t: Tables, b: BlockId) returns (r: Tables)
    requires f == Analysed(SHARED) && 1 <= b <= 2 && b !in t.entry && Bounded(f.cfg, t.entry)
    requires Within(Universe(f.cfg), EMPTY)
    ensures r == Run(f, t, b, EMPTY) && Bounded(f.cfg, r.entry) && WalkBlock(f, t, b, Some(0), EMPTY) == r
  {
    r := Run(f, t, b, EMPTY);
    FirstVisit(f, t, b, Some(0), EMPTY);
  }

  lemma {:induction false} SharedPath()
    ensures ReturnsAt(Analysed(SHARED), 1, 1, 7) && LeaksOnPaths(Analysed(SHARED), 1, 1, K)
  {
    assert SHARED[0].succs[0] == 1 && SHARED[1].instrs[..1] == [Acquire(K, true, 1)];
    assert Valid(SHARED, Entry) && Reaches(SHARED, Via(Entry, 1), 1);
    forall p | Reaches(SHARED, p, 1) ensures HeldAfter(TextBefore(SHARED, p, 1), K) {
      assert TakenAt(TextBefore(SHARED, p, 1), K, |TextTo(SHARED, p)|);
    }
    assert TextTo(SHARED, Entry) == [] && TextTo(SHARED, Via(Entry, 1)) == SHARED[0].instrs;
    assert TextBefore(SHARED, Via(Entry, 1), 1) == [Acquire(K, true, 1)];
    assert !Defers(TextBefore(SHARED, Via(Entry, 1), 1), K);
  }

  /** Two functions with one return each, at the position 0 that implicit returns have; the first one leaks. */
  const LEAKING := Func(0, [Block([Acquire(K, true, 1), Return(0)], [])], map[], {}, {})
  const CLEAN := Func(1, [Block([Return(0)], [])], map[], {}, {})

  lemma {:induction false} StraightLinePaths(cfg: Cfg, p: Path)
    requires |cfg| == 1 && cfg[0].succs == [] && Valid(cfg, p)
    ensures p == Entry
  {
  }

  lemma {:induction false} OneReturnIsDistinct(cfg: Cfg, i: nat, pos: Pos)
    requires |cfg| == 1 && IsReturn(cfg, 0, i, pos)
    requires forall j :: 0 <= j < |cfg[0].instrs| && cfg[0].instrs[j].Return? ==> j == i
    ensures DistinctReturns(cfg)
  {
  }

  /** After its own walk the candidates of the first function are right. */
  lemma {:induction false} LeakingAlone()
    ensures WellFormedProgram([LEAKING]) && ReturnIn([LEAKING], 0, 0, 1, 0) && ExactAt([LEAKING], 0, 0, 1, 0)
  {
    LeakingPaths();
    assert SoleReturn([LEAKING], 0, 0, 1, 0);
    forall ref
      ensures Files(Candidates(LeakTable([LEAKING]), 0), LEAKING.id, 0, ref) <==> LeaksOnPaths(LEAKING, 0, 1, ref)
    {
      assert ModeConsistent(LEAKING.cfg, ref) by {
        forall p | Valid(LEAKING.cfg, p) ensures p == Entry { StraightLinePaths(LEAKING.cfg, p); }
      }
      LeakTableIsPathExact([LEAKING], 0, 0, 1, 0, ref);
    }
  }

  /** The walk of a second function that holds nothing erases them, although the returns of each function have
      distinct positions. */
  lemma {:induction false} LaterFunctionLosesALeak()
    ensures WellFormedProgram([LEAKING, CLEAN]) && DistinctFunctions([LEAKING, CLEAN])
    ensures DistinctReturns(LEAKING.cfg) && DistinctReturns(CLEAN.cfg)
    ensures ReturnIn([LEAKING], 0, 0, 1, 0) && ExactAt([LEAKING], 0, 0, 1, 0)
    ensures ReturnIn([LEAKING, CLEAN], 0, 0, 1, 0) && LeaksOnPaths(LEAKING, 0, 1, K)
    ensures !ExactAt([LEAKING, CLEAN], 0, 0, 1, 0)
  {
    LeakingPaths();
    LeakingAlone();
    OneReturnIsDistinct(LEAKING.cfg, 1, 0);
    OneReturnIsDistinct(CLEAN.cfg, 0, 0);
    LeakIsErased([LEAKING, CLEAN]);
  }

  lemma {:induction false} LeakIsErased(both: seq<Func>)
    requires both == [LEAKING, CLEAN] && ReturnsAt(LEAKING, 0, 1, 0) && LeaksOnPaths(LEAKING, 0, 1, K)
    ensures WellFormedProgram(both) && ReturnIn(both, 0, 0, 1, 0) && !ExactAt(both, 0, 0, 1, 0)
  {
    var found := Candidates(LeakTable(both), 0);
    assert Reaches(CLEAN.cfg, Entry, 0);
    assert ReturnIn(both, 1, 0, 0, 0);
    LastFunctionDecides(both, 0);
    var n: nat, b, i :| DescribedBy(both, 0, found, n, b, i);
    assert n == 1;
    assert !Files(found, LEAKING.id, 0, K);
  }

  lemma {:induction false} LeakingPaths()
    ensures ReturnsAt(LEAKING, 0, 1, 0) && LeaksOnPaths(LEAKING, 0, 1, K)
  {
    var cfg := LEAKING.cfg;
    assert Reaches(cfg, Entry, 0) && TextBefore(cfg, Entry, 1) == [Acquire(K, true, 1)];
    assert TakenAt(TextBefore(cfg, Entry, 1), K, 0) && !Defers(TextBefore(cfg, Entry, 1), K);
    forall p | Reaches(cfg, p, 0) ensures p == Entry { StraightLinePaths(cfg, p); }
  }
}
