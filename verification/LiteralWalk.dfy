/** The walk exactly as coded: on a re-walk the stored entry state and the state the instructions mutate
    are one object, so after the block has run the "entry" is in fact its exit state (ssawalk.go:57-65). */
module LiteralWalk {
  import opened Types
  import opened Sets
  import opened LockStates
  import opened Cfgs

  // ----- Heap level: what the shared reference does to the stored entry

  class Context {
    var entryStates: map<BlockId, LockState>

    constructor ()
      ensures entryStates == map[]
    {
      entryStates := map[];
    }

    /** The re-walk branch: store the merged object, then run the instructions on that same object. */
    method Rewalk(cfg: Cfg, b: BlockId, ls: LockState)
      requires b < |cfg| && b in entryStates
      modifies this
      ensures b in entryStates && fresh(entryStates[b])
      ensures entryStates[b].View() == Exec(cfg[b].instrs, Meet(old(entryStates[b].View()), old(ls.View())))
    {
      var merged := entryStates[b].Intersect(ls);
      entryStates := entryStates[b := merged];
      ghost var m := merged.View();
      var i := 0;
      while i < |cfg[b].instrs|
        invariant 0 <= i <= |cfg[b].instrs|
        invariant entryStates == old(entryStates)[b := merged]
        invariant merged.View() == Exec(cfg[b].instrs[..i], m)
      {
        assert cfg[b].instrs[..i + 1][..i] == cfg[b].instrs[..i];
        match cfg[b].instrs[i] {
          case Acquire(ref, exclusive, pos) => merged.Lock(ref, exclusive, pos);
          case Release(ref, _, _) => merged.Unlock(ref);
          case DeferRelease(ref, _, _) => merged.DeferUnlock(ref);
          case _ =>
        }
        i := i + 1;
      }
      assert cfg[b].instrs[..i] == cfg[b].instrs;
    }
  }

  // ----- The whole walk, with that store

  /** `stored` is what later arrivals are compared with, `ran` the state the block last ran from. */
  datatype Cell = Cell(stored: State, ran: State)

  /** What happened: an arrival differed from the stored entry, or a block was executed. */
  datatype Event =
    | Differed(block: BlockId, from: Option<BlockId>, stored: State, arriving: State)
    | Executed(block: BlockId, start: State)

  /** `disagreed`: some arrival failed the first comparison with the stored entry. */
  datatype Outcome = Outcome(entry: map<BlockId, Cell>, disagreed: bool, trace: seq<Event>)

  const START := Outcome(map[], false, [])

  /** The first visit stores a copy of the arriving state. */
  function First(t: Outcome, b: BlockId, s: State): Outcome {
    Outcome(t.entry[b := Cell(s, s)], t.disagreed, t.trace + [Executed(b, s)])
  }

  /** An arrival that differs from the stored entry but brings nothing new. */
  function Converged(t: Outcome, b: BlockId, from: Option<BlockId>, s: State): Outcome
    requires b in t.entry
  {
    Outcome(t.entry, true, t.trace + [Differed(b, from, t.entry[b].stored, s)])
  }

  /** A re-walk stores the object that the block then runs on, and so ends up with its exit state. */
  function Again(cfg: Cfg, t: Outcome, b: BlockId, from: Option<BlockId>, s: State): Outcome
    requires b < |cfg| && b in t.entry
  {
    var m := Meet(t.entry[b].stored, s);
    Outcome(t.entry[b := Cell(Exec(cfg[b].instrs, m), m)], true,
            t.trace + [Differed(b, from, t.entry[b].stored, s)] + [Executed(b, m)])
  }

  /** The call tree of the code, cut off at depth `fuel`: `None` means the depth was not enough. */
  function WalkBlock(cfg: Cfg, fuel: nat, t: Outcome, b: BlockId, from: Option<BlockId>, s: State): Option<Outcome>
    requires WellFormed(cfg) && b < |cfg|
    decreases fuel, 0
  {
    if fuel == 0 then None
    else if b !in t.entry then WalkSuccs(cfg, fuel - 1, First(t, b, s), b, Exec(cfg[b].instrs, s), 0)
    else if SameKeys(s, t.entry[b].stored) then Some(t)
    else
      var m := Meet(t.entry[b].stored, s);
      if SameKeys(m, t.entry[b].stored) then Some(Converged(t, b, from, s))
      else WalkSuccs(cfg, fuel - 1, Again(cfg, t, b, from, s), b, Exec(cfg[b].instrs, m), 0)
  }

  function WalkSuccs(cfg: Cfg, fuel: nat, t: Outcome, b: BlockId, out: State, i: nat): Option<Outcome>
    requires WellFormed(cfg) && b < |cfg| && i <= |cfg[b].succs|
    decreases fuel, |cfg[b].succs| - i
  {
    if i == |cfg[b].succs| then Some(t) else
    match WalkBlock(cfg, fuel, t, cfg[b].succs[i], Some(b), out)
    case None => None
    case Some(u) => WalkSuccs(cfg, fuel, u, b, out, i + 1)
  }

  function WalkFunction(cfg: Cfg, fuel: nat): Option<Outcome>
    requires WellFormed(cfg) && |cfg| > 0
  {
    WalkBlock(cfg, fuel, START, 0, None, EMPTY)
  }

  /** More depth never changes a finished walk. */
  lemma {:induction false} FuelMonotone(cfg: Cfg, fuel: nat, more: nat, t: Outcome, b: BlockId, from: Option<BlockId>,
                                        s: State)
    requires WellFormed(cfg) && b < |cfg| && fuel <= more && WalkBlock(cfg, fuel, t, b, from, s).Some?
    ensures WalkBlock(cfg, more, t, b, from, s) == WalkBlock(cfg, fuel, t, b, from, s)
    decreases fuel, 0
  {
    if b !in t.entry {
      SuccsFuelMonotone(cfg, fuel - 1, more - 1, First(t, b, s), b, Exec(cfg[b].instrs, s), 0);
    } else {
      var m := Meet(t.entry[b].stored, s);
      var out := Exec(cfg[b].instrs, m);
      if !SameKeys(s, t.entry[b].stored) && !SameKeys(m, t.entry[b].stored) {
        SuccsFuelMonotone(cfg, fuel - 1, more - 1, Again(cfg, t, b, from, s), b, out, 0);
      }
    }
  }

  lemma {:induction false} SuccsFuelMonotone(cfg: Cfg, fuel: nat, more: nat, t: Outcome, b: BlockId, out: State, i: nat)
    requires WellFormed(cfg) && b < |cfg| && i <= |cfg[b].succs| && fuel <= more
    requires WalkSuccs(cfg, fuel, t, b, out, i).Some?
    ensures WalkSuccs(cfg, more, t, b, out, i) == WalkSuccs(cfg, fuel, t, b, out, i)
    decreases fuel, |cfg[b].succs| - i
  {
    if i < |cfg[b].succs| {
      FuelMonotone(cfg, fuel, more, t, cfg[b].succs[i], Some(b), out);
      SuccsFuelMonotone(cfg, fuel, more, WalkBlock(cfg, fuel, t, cfg[b].succs[i], Some(b), out).value, b, out, i + 1);
    }
  }

  // ----- When the coded walk is right

  /** All paths to a block agree on the held locks and the pending unlocks. */
  ghost predicate PathIndependent(cfg: Cfg) {
    forall p, q, b :: Reaches(cfg, p, b) && Reaches(cfg, q, b) ==> SameKeys(StateAt(cfg, p), StateAt(cfg, q))
  }

  /** `s` has the keys of some path to `b`. */
  ghost predicate Matches(cfg: Cfg, b: BlockId, s: State) {
    exists p :: Reaches(cfg, p, b) && SameKeys(s, StateAt(cfg, p))
  }

  ghost predicate Agreeing(cfg: Cfg, t: Outcome) {
    && !t.disagreed
    && forall b :: b in t.entry ==>
      b < |cfg| && t.entry[b].stored == t.entry[b].ran && Matches(cfg, b, t.entry[b].stored)
  }

  lemma {:induction false} MatchesAlongEdge(cfg: Cfg, b: BlockId, c: BlockId, s: State)
    requires WellFormed(cfg) && Matches(cfg, b, s) && c in cfg[b].succs
    ensures Matches(cfg, c, Exec(cfg[b].instrs, s))
  {
    var p :| Reaches(cfg, p, b) && SameKeys(s, StateAt(cfg, p));
    ExecKeepsSameKeys(cfg[b].instrs, s, StateAt(cfg, p));
    assert Reaches(cfg, Via(p, c), c);
  }

  lemma {:induction false} VisitedFits(cfg: Cfg, t: Outcome)
    requires Agreeing(cfg, t)
    ensures |t.entry| <= |cfg|
  {
    assert t.entry.Keys <= Range(|cfg|);
    SubsetIsNoLarger(t.entry.Keys, Range(|cfg|));
  }

  lemma {:induction false} MatchesAgree(cfg: Cfg, b: BlockId, s: State, t: State)
    requires PathIndependent(cfg) && Matches(cfg, b, s) && Matches(cfg, b, t)
    ensures SameKeys(s, t)
  {
  }

  lemma {:induction false} SizeAfterStore(entry: map<BlockId, Cell>, b: BlockId, c: Cell)
    requires b !in entry
    ensures |entry[b := c]| == |entry| + 1
  {
    assert entry[b := c].Keys == entry.Keys + {b};
  }

  lemma {:induction false} AgreeingStore(cfg: Cfg, t: Outcome, b: BlockId, s: State)
    requires Agreeing(cfg, t) && b < |cfg| && b !in t.entry && Matches(cfg, b, s)
    ensures var u := First(t, b, s); Agreeing(cfg, u) && |u.entry| == |t.entry| + 1 <= |cfg|
  {
    var u := First(t, b, s);
    SizeAfterStore(t.entry, b, Cell(s, s));
    VisitedFits(cfg, u);
  }

  /** With path-independent states each block runs once, and depth |cfg| + 1 is enough. */
  lemma {:induction false} AgreeingWalk(cfg: Cfg, fuel: nat, t: Outcome, b: BlockId, from: Option<BlockId>, s: State)
    requires WellFormed(cfg) && PathIndependent(cfg) && b < |cfg|
    requires Agreeing(cfg, t) && Matches(cfg, b, s) && fuel + |t.entry| > |cfg|
    ensures var r := WalkBlock(cfg, fuel, t, b, from, s);
      r.Some? && Agreeing(cfg, r.value) && |r.value.entry| >= |t.entry|
    decreases fuel, 0
  {
    VisitedFits(cfg, t);
    if b !in t.entry {
      var u := First(t, b, s);
      AgreeingStore(cfg, t, b, s);
      AgreeingSuccs(cfg, fuel - 1, u, b, s, 0);
    } else {
      MatchesAgree(cfg, b, s, t.entry[b].stored);
    }
  }

  lemma {:induction false} AgreeingSuccs(cfg: Cfg, fuel: nat, t: Outcome, b: BlockId, s: State, i: nat)
    requires WellFormed(cfg) && PathIndependent(cfg) && b < |cfg| && i <= |cfg[b].succs|
    requires Agreeing(cfg, t) && Matches(cfg, b, s) && fuel + |t.entry| > |cfg|
    ensures var r := WalkSuccs(cfg, fuel, t, b, Exec(cfg[b].instrs, s), i);
      r.Some? && Agreeing(cfg, r.value) && |r.value.entry| >= |t.entry|
    decreases fuel, |cfg[b].succs| - i
  {
    if i < |cfg[b].succs| {
      var c, out := cfg[b].succs[i], Exec(cfg[b].instrs, s);
      MatchesAlongEdge(cfg, b, c, s);
      AgreeingWalk(cfg, fuel, t, c, Some(b), out);
      AgreeingSuccs(cfg, fuel, WalkBlock(cfg, fuel, t, c, Some(b), out).value, b, s, i + 1);
    }
  }

  /** Every successor of `b` is stored with exactly the keys `b` delivers. */
  ghost predicate Exactly(cfg: Cfg, t: Outcome, b: BlockId) {
    && b < |cfg| && b in t.entry
    && forall c :: c in cfg[b].succs ==>
      c in t.entry && SameKeys(t.entry[c].stored, Exec(cfg[b].instrs, t.entry[b].stored))
  }

  ghost predicate Extends(now: Outcome, before: Outcome) {
    forall b :: b in before.entry ==> b in now.entry && now.entry[b] == before.entry[b]
  }

  /** A walk in which no arrival disagreed leaves every finished block exact. */
  lemma {:induction false} QuietWalk(cfg: Cfg, fuel: nat, t: Outcome, b: BlockId, from: Option<BlockId>, s: State,
                                     pending: set<BlockId>)
    requires WellFormed(cfg) && b < |cfg|
    requires WalkBlock(cfg, fuel, t, b, from, s).Some? && !WalkBlock(cfg, fuel, t, b, from, s).value.disagreed
    requires forall c :: c in t.entry && c !in pending ==> Exactly(cfg, t, c)
    ensures var r := WalkBlock(cfg, fuel, t, b, from, s).value;
      && !t.disagreed && Extends(r, t) && b in r.entry && SameKeys(r.entry[b].stored, s)
      && forall c :: c in r.entry && c !in pending ==> Exactly(cfg, r, c)
    decreases fuel, 0
  {
    if b !in t.entry {
      var u := First(t, b, s);
      forall c | c in u.entry && c !in pending + {b} ensures Exactly(cfg, u, c) { assert Exactly(cfg, t, c); }
      QuietSuccs(cfg, fuel - 1, u, b, Exec(cfg[b].instrs, s), 0, pending + {b});
    } else if !SameKeys(s, t.entry[b].stored) {
      var m := Meet(t.entry[b].stored, s);
      var out := Exec(cfg[b].instrs, m);
      if !SameKeys(m, t.entry[b].stored) {
        DisagreementStays(cfg, fuel - 1, Again(cfg, t, b, from, s), b, out, 0);
      }
      assert false;
    }
  }

  lemma {:induction false} QuietSuccs(cfg: Cfg, fuel: nat, t: Outcome, b: BlockId, out: State, i: nat,
                                      pending: set<BlockId>)
    requires WellFormed(cfg) && b < |cfg| && i <= |cfg[b].succs|
    requires WalkSuccs(cfg, fuel, t, b, out, i).Some? && !WalkSuccs(cfg, fuel, t, b, out, i).value.disagreed
    requires forall c :: c in t.entry && c !in pending ==> Exactly(cfg, t, c)
    ensures var r := WalkSuccs(cfg, fuel, t, b, out, i).value;
      && !t.disagreed && Extends(r, t)
      && (forall c :: c in r.entry && c !in pending ==> Exactly(cfg, r, c))
      && forall j :: i <= j < |cfg[b].succs| ==>
        cfg[b].succs[j] in r.entry && SameKeys(r.entry[cfg[b].succs[j]].stored, out)
    decreases fuel, |cfg[b].succs| - i
  {
    if i < |cfg[b].succs| {
      var u := WalkBlock(cfg, fuel, t, cfg[b].succs[i], Some(b), out).value;
      if u.disagreed { DisagreementStays(cfg, fuel, u, b, out, i + 1); }
      QuietWalk(cfg, fuel, t, cfg[b].succs[i], Some(b), out, pending);
      QuietSuccs(cfg, fuel, u, b, out, i + 1, pending);
    }
  }

  lemma {:induction false} DisagreementStays(cfg: Cfg, fuel: nat, t: Outcome, b: BlockId, out: State, i: nat)
    requires WellFormed(cfg) && b < |cfg| && i <= |cfg[b].succs| && t.disagreed
    ensures WalkSuccs(cfg, fuel, t, b, out, i).Some? ==> WalkSuccs(cfg, fuel, t, b, out, i).value.disagreed
    decreases fuel, |cfg[b].succs| - i
  {
    if i < |cfg[b].succs| {
      var c := cfg[b].succs[i];
      if fuel > 0 {
        if c !in t.entry {
          DisagreementStays(cfg, fuel - 1, First(t, c, out), c, Exec(cfg[c].instrs, out), 0);
        } else {
          var m := Meet(t.entry[c].stored, out);
          var next := Exec(cfg[c].instrs, m);
          DisagreementStays(cfg, fuel - 1, Again(cfg, t, c, Some(b), out), c, next, 0);
        }
        var u := WalkBlock(cfg, fuel, t, c, Some(b), out);
        if u.Some? { DisagreementStays(cfg, fuel, u.value, b, out, i + 1); }
      }
    }
  }

  lemma {:induction false} ExactOnPaths(cfg: Cfg, t: Outcome, p: Path)
    requires Valid(cfg, p) && 0 in t.entry && SameKeys(t.entry[0].stored, EMPTY)
    requires forall b :: b in t.entry ==> Exactly(cfg, t, b)
    ensures End(p) in t.entry && SameKeys(t.entry[End(p)].stored, StateAt(cfg, p))
  {
    match p
    case Entry =>
    case Via(q, c) =>
      ExactOnPaths(cfg, t, q);
      assert Exactly(cfg, t, End(q));
      ExecKeepsSameKeys(cfg[End(q)].instrs, t.entry[End(q)].stored, StateAt(cfg, q));
  }

  ghost predicate Quiet(cfg: Cfg, fuel: nat)
    requires WellFormed(cfg) && |cfg| > 0
  {
    var r := WalkFunction(cfg, fuel); r.Some? && !r.value.disagreed
  }

  /** The coded walk never leaves its first comparison exactly on path-independent functions; there it
      finishes, and what it stored and ran from are the locks of every path. */
  lemma {:induction false} CodedWalkIsSafeIff(cfg: Cfg)
    requires WellFormed(cfg) && |cfg| > 0
    ensures (exists fuel :: Quiet(cfg, fuel)) <==> PathIndependent(cfg)
    ensures PathIndependent(cfg) ==> Quiet(cfg, |cfg| + 1)
    ensures PathIndependent(cfg) ==> forall p :: Valid(cfg, p) ==>
      var e := WalkFunction(cfg, |cfg| + 1).value.entry;
      End(p) in e && e[End(p)].stored == e[End(p)].ran && SameKeys(e[End(p)].ran, StateAt(cfg, p))
  {
    if PathIndependent(cfg) {
      assert Reaches(cfg, Entry, 0) && SameKeys(EMPTY, StateAt(cfg, Entry));
      AgreeingWalk(cfg, |cfg| + 1, START, 0, None, EMPTY);
      assert Quiet(cfg, |cfg| + 1);
      QuietIsExact(cfg, |cfg| + 1);
    }
    if exists fuel :: Quiet(cfg, fuel) {
      var fuel :| Quiet(cfg, fuel);
      QuietIsExact(cfg, fuel);
    }
  }

  lemma {:induction false} QuietIsExact(cfg: Cfg, fuel: nat)
    requires WellFormed(cfg) && |cfg| > 0 && Quiet(cfg, fuel)
    ensures PathIndependent(cfg)
    ensures forall p :: Valid(cfg, p) ==> var e := WalkFunction(cfg, fuel).value.entry;
      End(p) in e && SameKeys(e[End(p)].stored, StateAt(cfg, p))
  {
    QuietWalk(cfg, fuel, START, 0, None, EMPTY, {});
    var r := WalkFunction(cfg, fuel).value;
    forall p | Valid(cfg, p) ensures End(p) in r.entry && SameKeys(r.entry[End(p)].stored, StateAt(cfg, p)) {
      ExactOnPaths(cfg, r, p);
    }
  }
}
