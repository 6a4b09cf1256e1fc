/** What the lock-leak table says about paths once every function of the package has been walked.  The table
    is one map for the whole pass, keyed by position alone (golintmu.go:107-109). */
module LeakFiling {
  import opened Types
  import opened LockStates
  import opened Cfgs
  import opened PathText
  import opened Records
  import opened WalkInvariant
  import opened WalkSpec
  import opened WalkTheorems

  // ----- One walk

  /** The candidates at `pos` are those of one visited return there, from its current entry state; or there is
      no such return and nothing has changed since `before`. */
  ghost predicate Decided(f: Func, t: Tables, before: Leaks, pos: Pos) {
    || (exists b, i :: DecidedAt(f, t, pos, b, i))
    || (&& Candidates(t.leaks, pos) == Candidates(before, pos)
        && forall b, i :: b in t.entry ==> !IsReturn(f.cfg, b, i, pos))
  }

  ghost predicate DecidedAt(f: Func, t: Tables, pos: Pos, b: BlockId, i: nat) {
    && b in t.entry && IsReturn(f.cfg, b, i, pos)
    && Candidates(t.leaks, pos) == LeaksAt(f, pos, Exec(f.cfg[b].instrs[..i], t.entry[b]))
  }

  lemma {:induction false} RunDecides(f: Func, t: Tables, before: Leaks, b: BlockId, m: State, pos: Pos)
    requires b < |f.cfg| && Decided(f, t, before, pos)
    ensures Decided(f, Run(f, t, b, m), before, pos)
  {
    var body := f.cfg[b].instrs;
    var r := Run(f, t, b, m);
    var i := LastReturnDecides(f, body, m, t.leaks, pos);
    if Return(pos) in body {
      assert DecidedAt(f, r, pos, b, i);
    } else if exists c, i :: DecidedAt(f, t, pos, c, i) {
      var c, j :| DecidedAt(f, t, pos, c, j);
      assert DecidedAt(f, r, pos, c, j);
    }
  }

  lemma {:induction false} WalkDecides(f: Func, t: Tables, before: Leaks, b: BlockId, from: Option<BlockId>, s: State,
                                       pos: Pos)
    requires WellFormed(f.cfg) && Bounded(f.cfg, t.entry) && b < |f.cfg| && Within(Universe(f.cfg), s)
    requires Decided(f, t, before, pos)
    ensures Decided(f, WalkBlock(f, t, b, from, s), before, pos)
    decreases Potential(f.cfg, t.entry), 0
  {
    var n := Note(f, t, b, from, s);
    assert Decided(f, n, before, pos) by {
      if exists c, i :: DecidedAt(f, t, pos, c, i) {
        var c, i :| DecidedAt(f, t, pos, c, i);
        assert DecidedAt(f, n, pos, c, i);
      }
    }
    if !Stops(t.entry, b, s) {
      var m := NewEntry(t.entry, b, s);
      VisitShrinks(f.cfg, t.entry, b, s);
      BlockWithin(f.cfg, b, m);
      RunDecides(f, n, before, b, m, pos);
      SuccsDecide(f, Run(f, n, b, m), before, b, m, 0, pos);
    }
  }

  lemma {:induction false} SuccsDecide(f: Func, t: Tables, before: Leaks, b: BlockId, m: State, i: nat, pos: Pos)
    requires WellFormed(f.cfg) && Bounded(f.cfg, t.entry) && b < |f.cfg| && i <= |f.cfg[b].succs|
    requires Within(Universe(f.cfg), Exec(f.cfg[b].instrs, m)) && Decided(f, t, before, pos)
    ensures Decided(f, WalkSuccs(f, t, b, Exec(f.cfg[b].instrs, m), i), before, pos)
    decreases Potential(f.cfg, t.entry), |f.cfg[b].succs| - i
  {
    if i < |f.cfg[b].succs| {
      var out := Exec(f.cfg[b].instrs, m);
      WalkDecides(f, t, before, f.cfg[b].succs[i], Some(b), out, pos);
      SuccsDecide(f, WalkBlock(f, t, f.cfg[b].succs[i], Some(b), out), before, b, m, i + 1, pos);
    }
  }

  // ----- In terms of paths

  ghost predicate ReturnsAt(f: Func, b: BlockId, i: nat, pos: Pos) {
    IsReturn(f.cfg, b, i, pos) && Reachable(f.cfg, b)
  }

  ghost predicate HasReturn(f: Func, pos: Pos) {
    exists b, i :: ReturnsAt(f, b, i, pos)
  }

  /** Every path to the return holds the lock there, and at least one of them passes no deferred unlock of it. */
  ghost predicate LeaksOnPaths(f: Func, b: BlockId, i: nat, ref: LockRef)
    requires b < |f.cfg| && i < |f.cfg[b].instrs|
  {
    && (forall p :: Reaches(f.cfg, p, b) ==> HeldAfter(TextBefore(f.cfg, p, i), ref))
    && exists p :: Reaches(f.cfg, p, b) && !Defers(TextBefore(f.cfg, p, i), ref)
  }

  /** On some path to the return the lock is held since the acquisition at `at`. */
  ghost predicate HeldSince(f: Func, b: BlockId, i: nat, ref: LockRef, at: Pos)
    requires b < |f.cfg| && i < |f.cfg[b].instrs|
  {
    exists p, j: nat :: Reaches(f.cfg, p, b) && TakenAt(TextBefore(f.cfg, p, i), ref, j)
                   && TextBefore(f.cfg, p, i)[j].pos == at
  }

  ghost predicate Files(found: set<LeakCandidate>, fn: Fn, pos: Pos, ref: LockRef) {
    exists c :: c in found && c.fn == fn && c.pos == pos && c.ref == ref
  }

  /** `found` are the leaks of this return on its paths: no others, and all that have no mode clash. */
  ghost predicate Describes(found: set<LeakCandidate>, f: Func, b: BlockId, i: nat, pos: Pos)
    requires b < |f.cfg| && i < |f.cfg[b].instrs|
  {
    && (forall c :: c in found ==>
          c.fn == f.id && c.pos == pos && LeaksOnPaths(f, b, i, c.ref) && HeldSince(f, b, i, c.ref, c.acquirePos))
    && (forall ref :: ModeConsistent(f.cfg, ref) && LeaksOnPaths(f, b, i, ref) ==> Files(found, f.id, pos, ref))
  }

  lemma {:induction false} FinalStateDescribes(f: Func, leaks: Leaks, b: BlockId, i: nat, pos: Pos)
    requires WellFormed(f.cfg) && ReturnsAt(f, b, i, pos)
    ensures Describes(LeaksAt(f, pos, FinalBefore(f, leaks, b, i)), f, b, i, pos)
  {
    var s := FinalBefore(f, leaks, b, i);
    forall ref | ref in s.held && ref !in s.deferred
      ensures LeaksOnPaths(f, b, i, ref) && HeldSince(f, b, i, ref, s.held[ref].pos)
    {
      FinalStateIsMeet(f, leaks, b, i, ref);
      FinalStateIsWitnessed(f, leaks, b, i);
      var p :| Reaches(f.cfg, p, b) && Witnessed(s, StateBefore(f.cfg, p, i));
      PointReadsText(f.cfg, p, i, ref);
      var j: nat :| TakenAt(TextBefore(f.cfg, p, i), ref, j);
      assert TextBefore(f.cfg, p, i)[j].pos == s.held[ref].pos;
    }
    forall ref | ModeConsistent(f.cfg, ref) && LeaksOnPaths(f, b, i, ref)
      ensures Files(LeaksAt(f, pos, s), f.id, pos, ref)
    {
      FinalStateIsMeet(f, leaks, b, i, ref);
      assert LeakCandidate(f.id, pos, ref, s.held[ref].pos) in LeaksAt(f, pos, s);
    }
  }

  /** The table after walking one function; a function without a body is left alone. */
  ghost function LeaksAfterWalk(f: Func, leaks: Leaks): Leaks
    requires WellFormed(f.cfg)
  {
    if |f.cfg| == 0 then leaks else WalkFunction(f, leaks).leaks
  }

  /** After the walk of a function with a return at `pos` one of these returns is described; otherwise the
      candidates are what they were. */
  lemma {:induction false} WalkFiles(f: Func, leaks: Leaks, pos: Pos)
    requires WellFormed(f.cfg)
    ensures var found := Candidates(LeaksAfterWalk(f, leaks), pos);
      if HasReturn(f, pos) then exists b, i :: ReturnsAt(f, b, i, pos) && Describes(found, f, b, i, pos)
      else found == Candidates(leaks, pos)
  {
    if |f.cfg| > 0 {
      var t := WalkFunction(f, leaks);
      WalkDecides(f, Start(leaks), leaks, 0, None, EMPTY, pos);
      forall b: BlockId ensures b in t.entry <==> Reachable(f.cfg, b) {
        EntryIsMeetOverAllPaths(f, leaks, b, LockRef(0, 0));
      }
      if exists b, i :: DecidedAt(f, t, pos, b, i) {
        var b, i :| DecidedAt(f, t, pos, b, i);
        assert ReturnsAt(f, b, i, pos);
        FinalStateDescribes(f, leaks, b, i, pos);
      }
    }
  }

  // ----- The whole pass

  /** The table after all functions have been walked, starting from an empty one. */
  ghost function LeakTable(funcs: seq<Func>): Leaks
    requires WellFormedProgram(funcs)
  {
    if |funcs| == 0 then map[] else
    assert WellFormedProgram(funcs[..|funcs| - 1]);
    LeaksAfterWalk(funcs[|funcs| - 1], LeakTable(funcs[..|funcs| - 1]))
  }

  lemma {:induction false} LeakTableStep(funcs: seq<Func>, n: nat)
    requires WellFormedProgram(funcs) && n < |funcs|
    ensures LeakTable(funcs[..n + 1]) == LeaksAfterWalk(funcs[n], LeakTable(funcs[..n]))
  {
    assert funcs[..n + 1][..n] == funcs[..n];
  }

  /** A reachable return at `pos` in function `n`. */
  ghost predicate ReturnIn(funcs: seq<Func>, n: nat, b: BlockId, i: nat, pos: Pos) {
    n < |funcs| && ReturnsAt(funcs[n], b, i, pos)
  }

  /** No function walked after function `n` returns at `pos`. */
  ghost predicate LastAt(funcs: seq<Func>, n: nat, pos: Pos) {
    forall m: nat, b, i :: ReturnIn(funcs, m, b, i, pos) ==> m <= n
  }

  /** `found` describes one return at `pos` in the last function that has one; nothing if there is none. */
  ghost predicate FiledBy(funcs: seq<Func>, pos: Pos, found: set<LeakCandidate>) {
    || (exists n, b, i :: DescribedBy(funcs, pos, found, n, b, i))
    || (found == {} && forall n: nat, b, i :: !ReturnIn(funcs, n, b, i, pos))
  }

  /** The candidates at a position describe one return there, in the last function that has one. */
  lemma {:induction false} LastFunctionDecides(funcs: seq<Func>, pos: Pos)
    requires WellFormedProgram(funcs)
    ensures FiledBy(funcs, pos, Candidates(LeakTable(funcs), pos))
  {
    if |funcs| > 0 {
      var n := |funcs| - 1;
      LastFunctionDecides(funcs[..n], pos);
      WalkFiles(funcs[n], LeakTable(funcs[..n]), pos);
      if HasReturn(funcs[n], pos) {
        DecidedLast(funcs, pos, Candidates(LeakTable(funcs), pos));
      } else {
        DecidedEarlier(funcs, pos, Candidates(LeakTable(funcs), pos));
      }
    }
  }

  lemma {:induction false} DecidedLast(funcs: seq<Func>, pos: Pos, found: set<LeakCandidate>)
    requires |funcs| > 0
    requires var f := funcs[|funcs| - 1]; exists b, i :: ReturnsAt(f, b, i, pos) && Describes(found, f, b, i, pos)
    ensures FiledBy(funcs, pos, found)
  {
    var n := |funcs| - 1;
    var b, i :| ReturnsAt(funcs[n], b, i, pos) && Describes(found, funcs[n], b, i, pos);
    assert DescribedBy(funcs, pos, found, n, b, i);
  }

  /** A function without a return at the position changes nothing about who decides. */
  lemma {:induction false} DecidedEarlier(funcs: seq<Func>, pos: Pos, found: set<LeakCandidate>)
    requires |funcs| > 0 && !HasReturn(funcs[|funcs| - 1], pos) && FiledBy(funcs[..|funcs| - 1], pos, found)
    ensures FiledBy(funcs, pos, found)
  {
    var init := funcs[..|funcs| - 1];
    forall m: nat, b, i ensures ReturnIn(funcs, m, b, i, pos) <==> ReturnIn(init, m, b, i, pos) {
      assert m == |init| ==> !ReturnsAt(funcs[m], b, i, pos);
    }
    if exists m, b, i :: DescribedBy(init, pos, found, m, b, i) {
      var m, b, i :| DescribedBy(init, pos, found, m, b, i);
      assert DescribedBy(funcs, pos, found, m, b, i);
    }
  }

  ghost predicate DescribedBy(funcs: seq<Func>, pos: Pos, found: set<LeakCandidate>, n: nat, b: BlockId, i: nat) {
    ReturnIn(funcs, n, b, i, pos) && LastAt(funcs, n, pos) && Describes(found, funcs[n], b, i, pos)
  }

  ghost predicate DistinctFunctions(funcs: seq<Func>) {
    forall m, n :: 0 <= m < n < |funcs| ==> funcs[m].id != funcs[n].id
  }

  ghost predicate AllConsistent(funcs: seq<Func>) {
    forall n, ref :: 0 <= n < |funcs| ==> ModeConsistent(funcs[n].cfg, ref)
  }

  /** The final table is right about this return: it has exactly the leaks of its paths. */
  ghost predicate ExactAt(funcs: seq<Func>, n: nat, b: BlockId, i: nat, pos: Pos)
    requires WellFormedProgram(funcs) && ReturnIn(funcs, n, b, i, pos)
  {
    forall ref :: Files(Candidates(LeakTable(funcs), pos), funcs[n].id, pos, ref) <==> LeaksOnPaths(funcs[n], b, i, ref)
  }

  /** `pos` is a return of this function, block and index, and of no other of the program. */
  ghost predicate SoleReturn(funcs: seq<Func>, n: nat, b: BlockId, i: nat, pos: Pos) {
    && ReturnIn(funcs, n, b, i, pos)
    && forall m: nat, c, j :: ReturnIn(funcs, m, c, j, pos) ==> m == n && c == b && j == i
  }

  /** A lock is a candidate of a return that shares its position with no other exactly when every path to the
      return holds it and some path has no pending unlock for it, after all re-walks and all functions. */
  lemma {:induction false} LeakTableIsPathExact(funcs: seq<Func>, n: nat, b: BlockId, i: nat, pos: Pos, ref: LockRef)
    requires WellFormedProgram(funcs) && SoleReturn(funcs, n, b, i, pos) && ModeConsistent(funcs[n].cfg, ref)
    ensures Files(Candidates(LeakTable(funcs), pos), funcs[n].id, pos, ref) <==> LeaksOnPaths(funcs[n], b, i, ref)
  {
    LastFunctionDecides(funcs, pos);
  }

  /** If a return leaks a lock then no function walked later returns at the same position, and every return of
      its own function there leaks the lock too. */
  ghost predicate NoLeakIsOverwritten(funcs: seq<Func>, pos: Pos) {
    forall n: nat, b, i, m: nat, c, j :: ReturnIn(funcs, n, b, i, pos) && ReturnIn(funcs, m, c, j, pos) ==>
      forall ref :: Survives(funcs, n, b, i, m, c, j, ref)
  }

  ghost predicate Survives(funcs: seq<Func>, n: nat, b: BlockId, i: nat, m: nat, c: BlockId, j: nat, ref: LockRef)
    requires n < |funcs| && b < |funcs[n].cfg| && i < |funcs[n].cfg[b].instrs|
    requires m < |funcs| && c < |funcs[m].cfg| && j < |funcs[m].cfg[c].instrs|
  {
    LeaksOnPaths(funcs[n], b, i, ref) ==> m <= n && (m == n ==> LeaksOnPaths(funcs[m], c, j, ref))
  }

  /** What the table files is a leak of the return that decided, in its function. */
  lemma {:induction false} FiledByDecider(funcs: seq<Func>, pos: Pos, n0: nat, b0: BlockId, i0: nat, n: nat,
                                          ref: LockRef)
    requires WellFormedProgram(funcs) && DistinctFunctions(funcs) && n < |funcs|
    requires var found := Candidates(LeakTable(funcs), pos);
      DescribedBy(funcs, pos, found, n0, b0, i0) && Files(found, funcs[n].id, pos, ref)
    ensures n == n0 && LeaksOnPaths(funcs[n0], b0, i0, ref)
  {
  }

  lemma {:induction false} DeciderFiles(funcs: seq<Func>, pos: Pos, n0: nat, b0: BlockId, i0: nat, ref: LockRef)
    requires WellFormedProgram(funcs) && DescribedBy(funcs, pos, Candidates(LeakTable(funcs), pos), n0, b0, i0)
    requires ModeConsistent(funcs[n0].cfg, ref) && LeaksOnPaths(funcs[n0], b0, i0, ref)
    ensures Files(Candidates(LeakTable(funcs), pos), funcs[n0].id, pos, ref)
  {
  }

  lemma {:induction false} ExactMeansNotOverwritten(funcs: seq<Func>, pos: Pos, n: nat, b: BlockId, i: nat, m: nat,
                                                    c: BlockId, j: nat, ref: LockRef)
    requires WellFormedProgram(funcs) && DistinctFunctions(funcs)
    requires ReturnIn(funcs, n, b, i, pos) && ReturnIn(funcs, m, c, j, pos)
    requires ExactAt(funcs, n, b, i, pos) && ExactAt(funcs, m, c, j, pos)
    ensures Survives(funcs, n, b, i, m, c, j, ref)
  {
    LastFunctionDecides(funcs, pos);
    var n0: nat, b0: nat, i0: nat :| DescribedBy(funcs, pos, Candidates(LeakTable(funcs), pos), n0, b0, i0);
    if LeaksOnPaths(funcs[n], b, i, ref) { FiledByDecider(funcs, pos, n0, b0, i0, n, ref); }
  }

  lemma {:induction false} NotOverwrittenMeansExact(funcs: seq<Func>, pos: Pos, n: nat, b: BlockId, i: nat,
                                                    ref: LockRef)
    requires WellFormedProgram(funcs) && DistinctFunctions(funcs) && ReturnIn(funcs, n, b, i, pos)
    requires ModeConsistent(funcs[n].cfg, ref) && NoLeakIsOverwritten(funcs, pos)
    ensures Files(Candidates(LeakTable(funcs), pos), funcs[n].id, pos, ref) <==> LeaksOnPaths(funcs[n], b, i, ref)
  {
    LastFunctionDecides(funcs, pos);
    var found := Candidates(LeakTable(funcs), pos);
    var n0: nat, b0: nat, i0: nat :| DescribedBy(funcs, pos, found, n0, b0, i0);
    assert Survives(funcs, n, b, i, n0, b0, i0, ref) && Survives(funcs, n0, b0, i0, n, b, i, ref);
    if Files(found, funcs[n].id, pos, ref) { FiledByDecider(funcs, pos, n0, b0, i0, n, ref); }
    if LeaksOnPaths(funcs[n], b, i, ref) { DeciderFiles(funcs, pos, n0, b0, i0, ref); }
  }

  /** The final table is right about every return at a position if and only if no leak there is overwritten. */
  lemma {:induction false} PositionIsExactIffNotOverwritten(funcs: seq<Func>, pos: Pos)
    requires WellFormedProgram(funcs) && DistinctFunctions(funcs) && AllConsistent(funcs)
    ensures (forall n: nat, b, i :: ReturnIn(funcs, n, b, i, pos) ==> ExactAt(funcs, n, b, i, pos))
      <==> NoLeakIsOverwritten(funcs, pos)
  {
    if forall n: nat, b, i :: ReturnIn(funcs, n, b, i, pos) ==> ExactAt(funcs, n, b, i, pos) {
      forall n: nat, b, i, m: nat, c, j, ref | ReturnIn(funcs, n, b, i, pos) && ReturnIn(funcs, m, c, j, pos)
        ensures Survives(funcs, n, b, i, m, c, j, ref)
      {
        ExactMeansNotOverwritten(funcs, pos, n, b, i, m, c, j, ref);
      }
    }
    if NoLeakIsOverwritten(funcs, pos) {
      forall n: nat, b, i, ref | ReturnIn(funcs, n, b, i, pos)
        ensures Files(Candidates(LeakTable(funcs), pos), funcs[n].id, pos, ref) <==> LeaksOnPaths(funcs[n], b, i, ref)
      {
        assert ModeConsistent(funcs[n].cfg, ref);
        NotOverwrittenMeansExact(funcs, pos, n, b, i, ref);
      }
    }
  }
}
