/** What the walk as coded does on functions outside the conditions under which it is right. */
module LiteralLimits {
  import opened Types
  import opened LockStates
  import opened Cfgs
  import opened LiteralWalk
  import WalkTheorems

  const K := LockRef(0, 0)
  const L := LockRef(0, 1)
  const M := LockRef(0, 2)

  function Holding(k: LockRef, pos: Pos): State { State(map[k := HeldLock(true, pos)], {}) }

  /** Block 3 and 4 form a loop that swaps K for L and back; it is entered holding K and M, and holding K. */
  const SWAP: Cfg := [
    Block([Acquire(K, true, 1)], [1, 2]),
    Block([Acquire(M, true, 2)], [3]),
    Block([], [3]),
    Block([Release(K, true, 3), Acquire(L, true, 4)], [4]),
    Block([Release(L, true, 5), Acquire(K, true, 6)], [3])]

  /** An arrival lacking a stored lock takes the re-walk branch. */
  lemma {:induction false} Rewalks(cfg: Cfg, fuel: nat, t: Outcome, b: BlockId, from: Option<BlockId>, s: State,
                                   k: LockRef)
    requires WellFormed(cfg) && b < |cfg| && fuel > 0 && b in t.entry
    requires k in t.entry[b].stored.held && k !in s.held
    ensures WalkBlock(cfg, fuel, t, b, from, s)
      == WalkSuccs(cfg, fuel - 1, Again(cfg, t, b, from, s), b, Exec(cfg[b].instrs, Meet(t.entry[b].stored, s)), 0)
  {
    assert k !in Meet(t.entry[b].stored, s).held;
  }

  lemma {:induction false} VisitsFirst(cfg: Cfg, fuel: nat, t: Outcome, b: BlockId, from: Option<BlockId>, s: State)
    requires WellFormed(cfg) && b < |cfg| && fuel > 0 && b !in t.entry
    ensures WalkBlock(cfg, fuel, t, b, from, s)
      == WalkSuccs(cfg, fuel - 1, First(t, b, s), b, Exec(cfg[b].instrs, s), 0)
  {
  }

  lemma {:induction false} HasOneSuccessor(cfg: Cfg, fuel: nat, t: Outcome, b: BlockId, out: State)
    requires WellFormed(cfg) && b < |cfg| && |cfg[b].succs| == 1
    ensures WalkSuccs(cfg, fuel, t, b, out, 0) == WalkBlock(cfg, fuel, t, cfg[b].succs[0], Some(b), out)
  {
  }

  lemma {:induction false} SwapBodies()
    ensures Exec(SWAP[3].instrs, EMPTY) == Holding(L, 4)
    ensures Exec(SWAP[4].instrs, EMPTY) == Holding(K, 6)
  {
    ExecTwo(Release(K, true, 3), Acquire(L, true, 4), EMPTY);
    ExecTwo(Release(L, true, 5), Acquire(K, true, 6), EMPTY);
  }

  /** The repeating situation: both stored "entries" are exit states, and every arrival disagrees with them. */
  lemma {:induction false} SwapRepeats(fuel: nat, t: Outcome)
    requires 3 in t.entry && t.entry[3].stored == Holding(L, 4)
    requires 4 in t.entry && t.entry[4].stored == Holding(K, 6)
    ensures WalkBlock(SWAP, fuel, t, 3, Some(4), Holding(K, 6)).None?
  {
    if fuel > 0 {
      SwapBodies();
      assert Meet(Holding(L, 4), Holding(K, 6)) == EMPTY && Meet(Holding(K, 6), Holding(L, 4)) == EMPTY;
      var u := Again(SWAP, t, 3, Some(4), Holding(K, 6));
      Rewalks(SWAP, fuel, t, 3, Some(4), Holding(K, 6), L);
      HasOneSuccessor(SWAP, fuel - 1, u, 3, Holding(L, 4));
      if fuel > 1 {
        var v := Again(SWAP, u, 4, Some(3), Holding(L, 4));
        Rewalks(SWAP, fuel - 1, u, 4, Some(3), Holding(L, 4), K);
        HasOneSuccessor(SWAP, fuel - 2, v, 4, Holding(K, 6));
        SwapRepeats(fuel - 2, v);
      }
    }
  }

  const KM := State(map[K := HeldLock(true, 1), M := HeldLock(true, 2)], {})
  const ML := State(map[M := HeldLock(true, 2), L := HeldLock(true, 4)], {})
  const MK := State(map[M := HeldLock(true, 2), K := HeldLock(true, 6)], {})

  lemma {:induction false} SwapFirstRound()
    ensures Exec(SWAP[1].instrs, Holding(K, 1)) == KM
    ensures Exec(SWAP[3].instrs, KM) == ML
    ensures Exec(SWAP[4].instrs, ML) == MK
  {
    ExecOne(Acquire(M, true, 2), Holding(K, 1));
    ExecTwo(Release(K, true, 3), Acquire(L, true, 4), KM);
    ExecTwo(Release(L, true, 5), Acquire(K, true, 6), ML);
  }

  /** The loop entered for the first time, with K and M. */
  lemma {:induction false} SwapLoop(fuel: nat, t: Outcome, from: Option<BlockId>) returns (u: Outcome)
    requires fuel > 3 && 3 !in t.entry && 4 !in t.entry
    ensures WalkBlock(SWAP, fuel, t, 3, from, KM) == Some(u) && u.entry == t.entry[3 := Cell(KM, KM)][4 := Cell(ML, ML)]
  {
    SwapFirstRound();
    var t3 := First(t, 3, KM);
    u := First(t3, 4, ML);
    VisitsFirst(SWAP, fuel, t, 3, from, KM);
    HasOneSuccessor(SWAP, fuel - 1, t3, 3, ML);
    VisitsFirst(SWAP, fuel - 1, t3, 4, Some(3), ML);
    HasOneSuccessor(SWAP, fuel - 2, u, 4, MK);
    assert SameKeys(MK, KM);
  }

  /** The left branch of `SWAP` goes once around the loop and settles. */
  lemma {:induction false} SwapLeft(fuel: nat, t: Outcome) returns (u: Outcome)
    requires fuel > 4 && t.entry.Keys == {0}
    ensures WalkBlock(SWAP, fuel, t, 1, Some(0), Holding(K, 1)) == Some(u) && u.entry.Keys == {0, 1, 3, 4}
    ensures u.entry[3].stored == KM && u.entry[4].stored == ML
  {
    SwapFirstRound();
    var t1 := First(t, 1, Holding(K, 1));
    VisitsFirst(SWAP, fuel, t, 1, Some(0), Holding(K, 1));
    HasOneSuccessor(SWAP, fuel - 1, t1, 1, KM);
    u := SwapLoop(fuel - 1, t1, Some(1));
  }

  /** The right branch re-walks both loop blocks and never comes back. */
  lemma {:induction false} SwapRight(fuel: nat, t: Outcome)
    requires fuel > 4 && t.entry.Keys == {0, 1, 3, 4}
    requires t.entry[3].stored == KM && t.entry[4].stored == ML
    ensures WalkBlock(SWAP, fuel, t, 2, Some(0), Holding(K, 1)).None?
  {
    ExecTwo(Release(K, true, 3), Acquire(L, true, 4), Holding(K, 1));
    ExecTwo(Release(L, true, 5), Acquire(K, true, 6), Holding(L, 4));
    assert Meet(KM, Holding(K, 1)) == Holding(K, 1) && Meet(ML, Holding(L, 4)) == Holding(L, 4);
    assert Exec(SWAP[3].instrs, Holding(K, 1)) == Holding(L, 4);
    assert Exec(SWAP[4].instrs, Holding(L, 4)) == Holding(K, 6);
    var t2 := First(t, 2, Holding(K, 1));
    VisitsFirst(SWAP, fuel, t, 2, Some(0), Holding(K, 1));
    HasOneSuccessor(SWAP, fuel - 1, t2, 2, Holding(K, 1));
    var u := Again(SWAP, t2, 3, Some(2), Holding(K, 1));
    Rewalks(SWAP, fuel - 1, t2, 3, Some(2), Holding(K, 1), M);
    HasOneSuccessor(SWAP, fuel - 2, u, 3, Holding(L, 4));
    var v := Again(SWAP, u, 4, Some(3), Holding(L, 4));
    Rewalks(SWAP, fuel - 2, u, 4, Some(3), Holding(L, 4), M);
    HasOneSuccessor(SWAP, fuel - 3, v, 4, Holding(K, 6));
    SwapRepeats(fuel - 3, v);
  }

  lemma {:induction false} SwapDiverges(fuel: nat)
    requires fuel > 5
    ensures WellFormed(SWAP) && WalkFunction(SWAP, fuel).None?
  {
    ExecOne(Acquire(K, true, 1), EMPTY);
    assert Exec(SWAP[0].instrs, EMPTY) == Holding(K, 1);
    VisitsFirst(SWAP, fuel, START, 0, None, EMPTY);
    var u := SwapLeft(fuel - 1, First(START, 0, EMPTY));
    SwapRight(fuel - 1, u);
    assert WalkSuccs(SWAP, fuel - 1, u, 0, Holding(K, 1), 1).None?;
  }

  /** On `SWAP` the coded walk recurses without end: no depth is enough. */
  lemma {:induction false} CodedWalkDiverges(fuel: nat)
    ensures WellFormed(SWAP) && WalkFunction(SWAP, fuel).None?
  {
    if WalkFunction(SWAP, fuel).Some? {
      SwapDiverges(fuel + 6);
      FuelMonotone(SWAP, fuel, fuel + 6, START, 0, None, EMPTY);
    }
  }

  // ----- A function without loop, in two orders

  /** Block 0 branches to 1, which holds K, and to 2, which holds L, in the order `ways`; 1 goes on with and
      without M.  Three arrivals at block 5: holding K and M, holding K, holding L. */
  function Fork(ways: seq<BlockId>): Cfg {
    [Block([], ways),
     Block([Acquire(K, true, 1)], [3, 4]),
     Block([Acquire(L, true, 2)], [5]),
     Block([Acquire(M, true, 3)], [5]),
     Block([], [5]),
     Block([Call(0, 4), Release(K, true, 5), Acquire(L, true, 6)], [])]
  }

  const KM3 := State(map[K := HeldLock(true, 1), M := HeldLock(true, 3)], {})

  /** What the proofs need to know about `Fork`. */
  ghost predicate Forks(cfg: Cfg) {
    && |cfg| == 6 && WellFormed(cfg)
    && cfg[0].instrs == [] && cfg[1].succs == [3, 4] && cfg[2].succs == [5] && cfg[3].succs == [5]
    && cfg[4] == Block([], [5]) && cfg[5].succs == []
    && Exec(cfg[1].instrs, EMPTY) == Holding(K, 1) && Exec(cfg[2].instrs, EMPTY) == Holding(L, 2)
    && Exec(cfg[3].instrs, Holding(K, 1)) == KM3
    && Exec(cfg[5].instrs, Holding(K, 1)) == Holding(L, 6) && Exec(cfg[5].instrs, EMPTY) == Holding(L, 6)
  }

  lemma {:induction false} ForkForks(ways: seq<BlockId>)
    requires forall i :: 0 <= i < |ways| ==> ways[i] < 6
    ensures Forks(Fork(ways))
  {
    ExecOne(Acquire(K, true, 1), EMPTY);
    ExecOne(Acquire(L, true, 2), EMPTY);
    ExecOne(Acquire(M, true, 3), Holding(K, 1));
    ForkTail(ways, Holding(K, 1));
    ForkTail(ways, EMPTY);
  }

  lemma {:induction false} ForkTail(ways: seq<BlockId>, s: State)
    requires s == Holding(K, 1) || s == EMPTY
    ensures Exec(Fork(ways)[5].instrs, s) == Holding(L, 6)
  {
    var body := Fork(ways)[5].instrs;
    assert body[..2] == [Call(0, 4), Release(K, true, 5)];
    ExecTwo(Call(0, 4), Release(K, true, 5), s);
  }

  /** Block 5 is visited by way of `b`, which is new, with the exit state `out` of `b`. */
  lemma {:induction false} OnTheWay(cfg: Cfg, fuel: nat, t: Outcome, b: BlockId, from: Option<BlockId>, s: State,
                                    out: State)
    requires Forks(cfg) && 2 <= b <= 4 && b !in t.entry && fuel > 0 && Exec(cfg[b].instrs, s) == out
    ensures WalkBlock(cfg, fuel, t, b, from, s) == WalkBlock(cfg, fuel - 1, First(t, b, s), 5, Some(b), out)
  {
    VisitsFirst(cfg, fuel, t, b, from, s);
    HasOneSuccessor(cfg, fuel - 1, First(t, b, s), b, out);
  }

  /** What block 5 is stored with and last ran from. */
  ghost predicate Joins(u: Outcome, t: Outcome, b: BlockId, c: Cell) {
    u.entry.Keys == t.entry.Keys + {b, 5} && u.entry[5] == c
  }

  /** Block 5 first runs. */
  lemma {:induction false} JoinFirst(cfg: Cfg, t: Outcome, b: BlockId, from: Option<BlockId>, s: State, out: State,
                                     fuel: nat)
    returns (u: Outcome)
    requires Forks(cfg) && 2 <= b <= 4 && b !in t.entry && 5 !in t.entry && Exec(cfg[b].instrs, s) == out && fuel > 1
    ensures WalkBlock(cfg, fuel, t, b, from, s) == Some(u) && Joins(u, t, b, Cell(out, out))
  {
    OnTheWay(cfg, fuel, t, b, from, s, out);
    u := First(First(t, b, s), 5, out);
    VisitsFirst(cfg, fuel - 1, First(t, b, s), 5, Some(b), out);
  }

  /** Block 5 runs again and its exit state is stored. */
  lemma {:induction false} JoinAgain(cfg: Cfg, t: Outcome, b: BlockId, from: Option<BlockId>, s: State, out: State,
                                     k: LockRef, fuel: nat)
    returns (u: Outcome)
    requires Forks(cfg) && 2 <= b <= 4 && b !in t.entry && 5 in t.entry && Exec(cfg[b].instrs, s) == out && fuel > 1
    requires k in t.entry[5].stored.held && k !in out.held
    ensures var m := Meet(t.entry[5].stored, out);
      WalkBlock(cfg, fuel, t, b, from, s) == Some(u) && Joins(u, t, b, Cell(Exec(cfg[5].instrs, m), m))
  {
    OnTheWay(cfg, fuel, t, b, from, s, out);
    u := Again(cfg, First(t, b, s), 5, Some(b), out);
    Rewalks(cfg, fuel - 1, First(t, b, s), 5, Some(b), out, k);
  }

  /** The two arrivals by way of block 1. */
  lemma {:induction false} TwoArrivals(cfg: Cfg, t: Outcome, u: Outcome, v: Outcome)
    requires Forks(cfg) && 1 !in t.entry
    requires WalkBlock(cfg, 3, First(t, 1, EMPTY), 3, Some(1), Holding(K, 1)) == Some(u)
    requires WalkBlock(cfg, 3, u, 4, Some(1), Holding(K, 1)) == Some(v)
    ensures WalkBlock(cfg, 4, t, 1, Some(0), EMPTY) == Some(v)
  {
    VisitsFirst(cfg, 4, t, 1, Some(0), EMPTY);
    assert WalkSuccs(cfg, 3, u, 1, Holding(K, 1), 1) == Some(v);
  }

  lemma {:induction false} TwoBranches(cfg: Cfg, x: BlockId, y: BlockId, u: Outcome, v: Outcome)
    requires Forks(cfg) && x < 6 && y < 6 && cfg[0].succs == [x, y]
    requires WalkBlock(cfg, 4, First(START, 0, EMPTY), x, Some(0), EMPTY) == Some(u)
    requires WalkBlock(cfg, 4, u, y, Some(0), EMPTY) == Some(v)
    ensures WalkFunction(cfg, 5) == Some(v)
  {
    VisitsFirst(cfg, 5, START, 0, None, EMPTY);
    assert WalkSuccs(cfg, 4, u, 0, EMPTY, 1) == Some(v);
  }

  /** K first: the third arrival, holding L, is taken for the stored exit state. */
  lemma {:induction false} ForkLeftFirst(cfg: Cfg) returns (r: Outcome)
    requires Forks(cfg) && cfg[0].succs == [1, 2]
    ensures WalkFunction(cfg, 5) == Some(r) && 5 in r.entry && r.entry[5] == Cell(Holding(L, 6), Holding(K, 1))
  {
    var t := First(START, 0, EMPTY);
    var t1 := First(t, 1, EMPTY);
    var u := JoinFirst(cfg, t1, 3, Some(1), Holding(K, 1), KM3, 3);
    assert Meet(KM3, Holding(K, 1)) == Holding(K, 1);
    var v := JoinAgain(cfg, u, 4, Some(1), Holding(K, 1), Holding(K, 1), M, 3);
    TwoArrivals(cfg, t, u, v);
    r := First(v, 2, EMPTY);
    OnTheWay(cfg, 4, v, 2, Some(0), EMPTY, Holding(L, 2));
    assert WalkBlock(cfg, 3, r, 5, Some(2), Holding(L, 2)) == Some(r);
    TwoBranches(cfg, 1, 2, v, r);
  }

  /** L first: every later arrival lacks L and is merged to nothing. */
  lemma {:induction false} ForkRightFirst(cfg: Cfg) returns (r: Outcome)
    requires Forks(cfg) && cfg[0].succs == [2, 1]
    ensures WalkFunction(cfg, 5) == Some(r) && 5 in r.entry && r.entry[5].ran == EMPTY
  {
    var t := First(START, 0, EMPTY);
    var u := JoinFirst(cfg, t, 2, Some(0), EMPTY, Holding(L, 2), 4);
    assert Meet(Holding(L, 2), KM3) == EMPTY && Meet(Holding(L, 6), Holding(K, 1)) == EMPTY;
    var u1 := First(u, 1, EMPTY);
    var v := JoinAgain(cfg, u1, 3, Some(1), Holding(K, 1), KM3, L, 3);
    r := JoinAgain(cfg, v, 4, Some(1), Holding(K, 1), Holding(K, 1), L, 3);
    TwoArrivals(cfg, u, v, r);
    TwoBranches(cfg, 2, 1, u, r);
  }

  lemma {:induction false} ForkPaths(cfg: Cfg)
    requires Forks(cfg) && 1 in cfg[0].succs && 2 in cfg[0].succs
    ensures !AlwaysHeld(cfg, 5, K) && !AlwaysHeld(cfg, 5, L)
  {
    var two, four := Via(Via(Entry, 2), 5), Via(Via(Via(Entry, 1), 4), 5);
    assert cfg[1].succs[1] == 4 && cfg[2].succs[0] == 5 && cfg[4].succs[0] == 5;
    assert Valid(cfg, Entry) && StateAt(cfg, Entry) == EMPTY && Exec(cfg[0].instrs, EMPTY) == EMPTY;
    assert Reaches(cfg, Via(Entry, 2), 2) && StateAt(cfg, Via(Entry, 2)) == EMPTY;
    assert Reaches(cfg, two, 5) && StateAt(cfg, two) == Holding(L, 2);
    assert Reaches(cfg, Via(Entry, 1), 1) && StateAt(cfg, Via(Entry, 1)) == EMPTY;
    assert Reaches(cfg, Via(Via(Entry, 1), 4), 4) && StateAt(cfg, Via(Via(Entry, 1), 4)) == Holding(K, 1);
    assert Reaches(cfg, four, 5) && StateAt(cfg, four) == Holding(K, 1);
  }

  /** On `Fork`, which has no loop, the coded walk finishes with block 5 last run from a state holding K,
      and stored as holding L, although one path arrives without K and another without L. */
  lemma {:induction false} CodedWalkIsUnsound()
    ensures WellFormed(Fork([1, 2]))
    ensures var r := WalkFunction(Fork([1, 2]), 5);
      && r.Some? && 5 in r.value.entry
      && K in r.value.entry[5].ran.held && !AlwaysHeld(Fork([1, 2]), 5, K)
      && L in r.value.entry[5].stored.held && !AlwaysHeld(Fork([1, 2]), 5, L)
  {
    ForkForks([1, 2]);
    ForkPaths(Fork([1, 2]));
    var r := ForkLeftFirst(Fork([1, 2]));
  }

  /** Whether the coded walk is right can depend on the order of the successors alone: with the two branches
      of `Fork` exchanged block 5 is last run from the meet over all paths, which is empty. */
  lemma {:induction false} SuccessorOrderDecidesCodedWalk()
    ensures WalkTheorems.SameUpToSuccessorOrder(Fork([1, 2]), Fork([2, 1])) && WellFormed(Fork([1, 2]))
    ensures WellFormed(Fork([2, 1]))
    ensures var r := WalkFunction(Fork([1, 2]), 5);
      r.Some? && 5 in r.value.entry && K in r.value.entry[5].ran.held && !AlwaysHeld(Fork([1, 2]), 5, K)
    ensures var r := WalkFunction(Fork([2, 1]), 5);
      r.Some? && 5 in r.value.entry && r.value.entry[5].ran == EMPTY
  {
    CodedWalkIsUnsound();
    ForkForks([2, 1]);
    var r := ForkRightFirst(Fork([2, 1]));
    SameForks([1, 2], [2, 1]);
  }

  lemma {:induction false} SameForks(ways: seq<BlockId>, other: seq<BlockId>)
    requires forall x :: x in ways <==> x in other
    ensures WalkTheorems.SameUpToSuccessorOrder(Fork(ways), Fork(other))
  {
    var c, d := Fork(ways), Fork(other);
    forall b | 0 <= b < 6 ensures c[b].instrs == d[b].instrs && forall x :: x in c[b].succs <==> x in d[b].succs {
      if b > 0 { assert c[b] == d[b]; }
    }
  }
}
