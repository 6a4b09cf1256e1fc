/** Acquire helpers (C13) and lock leaks (C5) in terms of paths, after the whole pass. */
module AcquireHelpers {
  import opened Types
  import opened Cfgs
  import opened Records
  import opened WalkTheorems
  import opened FixedPoint
  import opened LeakFiling
  import opened ReturnsHolding

  /** Some lock with key `k` is held on every path to the return and not always pending to be unlocked. */
  ghost predicate LeaksKey(f: Func, k: Key, b: BlockId, i: nat)
    requires b < |f.cfg| && i < |f.cfg[b].instrs|
  {
    exists ref :: KeyOf(f.typing, ref) == Some(k) && LeaksOnPaths(f, b, i, ref)
  }

  /** The return is reachable, no function walked later returns at its position, and it leaks the lock. */
  ghost predicate LeaksVisibly(funcs: seq<Func>, n: nat, k: Key, b: BlockId, i: nat, pos: Pos)
    requires n < |funcs| && IsReturn(funcs[n].cfg, b, i, pos)
  {
    Reachable(funcs[n].cfg, b) && LastAt(funcs, n, pos) && LeaksKey(funcs[n], k, b, i)
  }

  /** Function `n` has a return, and each of its returns has a position of its own and visibly leaks the lock. */
  ghost predicate ReturnsWithLock(funcs: seq<Func>, n: nat, k: Key)
    requires n < |funcs|
  {
    var f := funcs[n];
    && DistinctReturns(f.cfg) && (exists b, i, pos :: IsReturn(f.cfg, b, i, pos))
    && forall b, i, pos :: IsReturn(f.cfg, b, i, pos) ==> LeaksVisibly(funcs, n, k, b, i, pos)
  }

  /** The types of each function's values are on record. */
  ghost predicate Typed(typings: Typings, funcs: seq<Func>) {
    forall n :: 0 <= n < |funcs| ==> funcs[n].id in typings && typings[funcs[n].id] == funcs[n].typing
  }

  ghost predicate KeyConsistent(f: Func, k: Key) {
    forall ref :: KeyOf(f.typing, ref) == Some(k) ==> ModeConsistent(f.cfg, ref)
  }

  /** Candidates are filed under their own position, and those of a function at its own returns. */
  lemma {:induction false} TableIsOwned(funcs: seq<Func>)
    requires WellFormedProgram(funcs) && DistinctFunctions(funcs)
    ensures FiledByPosition(LeakTable(funcs))
    ensures forall n :: 0 <= n < |funcs| ==> AtOwnReturns(LeakTable(funcs), funcs[n].id, funcs[n].cfg)
  {
    var table := LeakTable(funcs);
    forall pos: Pos, c | c in Candidates(table, pos)
      ensures c.pos == pos
      ensures forall n :: 0 <= n < |funcs| && c.fn == funcs[n].id ==> pos in AllPositions(funcs[n].cfg)
    {
      LastFunctionDecides(funcs, pos);
      var m: nat, b: nat, i: nat :| DescribedBy(funcs, pos, Candidates(table, pos), m, b, i);
      assert funcs[m].cfg[b].instrs[i].pos in AllPositions(funcs[m].cfg);
    }
  }

  /** A lock is a candidate of a return exactly when the return is reachable, nothing later overwrites it, and
      the lock leaks there; one direction needs no condition on modes. */
  lemma {:induction false} HeldAtReturnIff(typings: Typings, funcs: seq<Func>, n: nat, k: Key, b: BlockId, i: nat,
                                           pos: Pos)
    requires Typed(typings, funcs)
    requires WellFormedProgram(funcs) && DistinctFunctions(funcs) && n < |funcs|
    requires DistinctReturns(funcs[n].cfg) && IsReturn(funcs[n].cfg, b, i, pos)
    ensures var f := funcs[n]; var held := HeldAtReturn(typings, LeakTable(funcs), FnKey(f.id, k), pos);
      && (held ==> LeaksVisibly(funcs, n, k, b, i, pos))
      && (KeyConsistent(f, k) && LeaksVisibly(funcs, n, k, b, i, pos) ==> held)
  {
    var f, found := funcs[n], Candidates(LeakTable(funcs), pos);
    LastFunctionDecides(funcs, pos);
    if Reachable(f.cfg, b) { assert ReturnIn(funcs, n, b, i, pos); }
    if exists m, c, j :: DescribedBy(funcs, pos, found, m, c, j) {
      var m: nat, c, j :| DescribedBy(funcs, pos, found, m, c, j);
      assert m == n ==> c == b && j == i;
      if Reachable(f.cfg, b) && LastAt(funcs, n, pos) {
        assert m == n;
        forall ref | KeyOf(f.typing, ref) == Some(k) && LeaksOnPaths(f, b, i, ref) && ModeConsistent(f.cfg, ref)
          ensures HeldAtReturn(typings, LeakTable(funcs), FnKey(f.id, k), pos)
        {
          assert Files(found, f.id, pos, ref);
        }
      }
    }
  }

  lemma {:induction false} PositionsOfReturns(cfg: Cfg, pos: Pos)
    ensures pos in AllPositions(cfg) <==> exists b, i :: IsReturn(cfg, b, i, pos)
  {
    forall b: nat, i: nat | IsReturn(cfg, b, i, pos) ensures pos in AllPositions(cfg) {
      assert cfg[b].instrs[i].pos in AllPositions(cfg);
    }
    if pos in AllPositions(cfg) {
      var b: nat, i: nat :| b < |cfg| && i < |cfg[b].instrs| && cfg[b].instrs[i].Return? && cfg[b].instrs[i].pos == pos;
      assert IsReturn(cfg, b, i, pos);
    }
  }

  lemma {:induction false} HelperReturnsWithLock(typings: Typings, funcs: seq<Func>, n: nat, k: Key)
    requires Typed(typings, funcs)
    requires WellFormedProgram(funcs) && DistinctFunctions(funcs) && n < |funcs| && DistinctReturns(funcs[n].cfg)
    requires AllReturnsHold(typings, LeakTable(funcs), funcs[n].cfg, FnKey(funcs[n].id, k))
    ensures ReturnsWithLock(funcs, n, k)
  {
    var cfg := funcs[n].cfg;
    forall b, i, pos | IsReturn(cfg, b, i, pos) ensures LeaksVisibly(funcs, n, k, b, i, pos) {
      PositionsOfReturns(cfg, pos);
      HeldAtReturnIff(typings, funcs, n, k, b, i, pos);
    }
    var p :| p in AllPositions(cfg);
    PositionsOfReturns(cfg, p);
  }

  lemma {:induction false} ReturningWithLockIsHelper(typings: Typings, funcs: seq<Func>, n: nat, k: Key)
    requires Typed(typings, funcs)
    requires WellFormedProgram(funcs) && DistinctFunctions(funcs) && n < |funcs|
    requires KeyConsistent(funcs[n], k)
    requires ReturnsWithLock(funcs, n, k)
    ensures AllReturnsHold(typings, LeakTable(funcs), funcs[n].cfg, FnKey(funcs[n].id, k))
  {
    var cfg := funcs[n].cfg;
    forall pos | pos in AllPositions(cfg) ensures HeldAtReturn(typings, LeakTable(funcs), FnKey(funcs[n].id, k), pos) {
      PositionsOfReturns(cfg, pos);
      var b, i :| IsReturn(cfg, b, i, pos);
      HeldAtReturnIff(typings, funcs, n, k, b, i, pos);
    }
    var b, i, p :| IsReturn(cfg, b, i, p);
    PositionsOfReturns(cfg, p);
  }

  /** The returns of a function all hold the lock, by the table, exactly when they do so on all paths. */
  lemma {:induction false} AcquireHelperIff(typings: Typings, funcs: seq<Func>, n: nat, k: Key)
    requires Typed(typings, funcs)
    requires WellFormedProgram(funcs) && DistinctFunctions(funcs) && n < |funcs|
    ensures var f := funcs[n];
      var holding := DistinctReturns(f.cfg) && AllReturnsHold(typings, LeakTable(funcs), f.cfg, FnKey(f.id, k));
      && (holding ==> ReturnsWithLock(funcs, n, k))
      && (KeyConsistent(f, k) && ReturnsWithLock(funcs, n, k) ==> holding)
  {
    var f := funcs[n];
    if DistinctReturns(f.cfg) && AllReturnsHold(typings, LeakTable(funcs), f.cfg, FnKey(f.id, k)) {
      HelperReturnsWithLock(typings, funcs, n, k);
    }
    if KeyConsistent(f, k) && ReturnsWithLock(funcs, n, k) {
      ReturningWithLockIsHelper(typings, funcs, n, k);
    }
  }

  /** One of the three reasons not to report a leak of function `f`. */
  predicate Excused(f: Func, needs: Table, typos: set<(Fn, LockRef)>, holding: set<FnKey>, ref: LockRef) {
    || (f.id, ref) in typos
    || match KeyOf(f.typing, ref)
       case None => false
       case Some(k) => k in At(needs, f.id) || FnKey(f.id, k) in holding
  }

  /** The lock leaks on the paths to a return of function `n` at the position of the candidate, and is held there
      since the acquisition the candidate names. */
  ghost predicate LeaksIn(funcs: seq<Func>, n: nat, c: LeakCandidate) {
    exists b, i ::
      && ReturnIn(funcs, n, b, i, c.pos) && funcs[n].id == c.fn
      && LeaksOnPaths(funcs[n], b, i, c.ref) && HeldSince(funcs[n], b, i, c.ref, c.acquirePos)
  }

  lemma {:induction false} CandidateLeaks(funcs: seq<Func>, c: LeakCandidate) returns (n: nat)
    requires WellFormedProgram(funcs) && c in Candidates(LeakTable(funcs), c.pos)
    ensures n < |funcs| && funcs[n].id == c.fn && LeaksIn(funcs, n, c)
  {
    LastFunctionDecides(funcs, c.pos);
    var m: nat, b: nat, i: nat :| DescribedBy(funcs, c.pos, Candidates(LeakTable(funcs), c.pos), m, b, i);
    n := m;
    assert ReturnIn(funcs, n, b, i, c.pos);
  }

  /** The leak phases on the table of all walks.  Acquire helpers are exactly the functions that return with
      the lock on all paths.  Every reported leak is one on all paths to a return at its position; every leak
      on paths to a return that shares its position with no other is reported unless it is excused. */
  method AnalyzeLeaks(funcs: seq<Func>, leaks: Leaks, needs: Table, typos: set<(Fn, LockRef)>)
    returns (holding: set<FnKey>, reported: set<LeakCandidate>)
    requires WellFormedProgram(funcs) && DistinctFunctions(funcs) && leaks == LeakTable(funcs)
    ensures forall n, k :: 0 <= n < |funcs| && FnKey(funcs[n].id, k) in holding ==> ReturnsWithLock(funcs, n, k)
    ensures forall n, k :: 0 <= n < |funcs| && KeyConsistent(funcs[n], k) ==>
      (FnKey(funcs[n].id, k) in holding <==> ReturnsWithLock(funcs, n, k))
    ensures forall c :: c in reported ==>
      exists n: nat :: n < |funcs| && LeaksIn(funcs, n, c) && !Excused(funcs[n], needs, typos, holding, c.ref)
    ensures forall n: nat, b: BlockId, i: nat, pos: Pos, ref ::
      SoleReturn(funcs, n, b, i, pos) && ModeConsistent(funcs[n].cfg, ref) ==>
        (Files(reported, funcs[n].id, pos, ref) <==>
           LeaksOnPaths(funcs[n], b, i, ref) && !Excused(funcs[n], needs, typos, holding, ref))
  {
    TableIsOwned(funcs);
    var cfgs, typings := ById(funcs);
    holding := ComputeReturnsHolding(typings, leaks, cfgs);
    forall n, k | 0 <= n < |funcs|
      ensures FnKey(funcs[n].id, k) in holding ==> ReturnsWithLock(funcs, n, k)
      ensures KeyConsistent(funcs[n], k) && ReturnsWithLock(funcs, n, k) ==> FnKey(funcs[n].id, k) in holding
    {
      AcquireHelperIff(typings, funcs, n, k);
    }
    reported := ReportLeaks(typings, leaks, needs, typos, holding);
    forall c | c in reported
      ensures exists n: nat ::
        n < |funcs| && LeaksIn(funcs, n, c) && !Excused(funcs[n], needs, typos, holding, c.ref)
    {
      var n := CandidateLeaks(funcs, c);
      assert !Excused(funcs[n], needs, typos, holding, c.ref);
    }
    forall n: nat, b: BlockId, i: nat, pos: Pos, ref
      | SoleReturn(funcs, n, b, i, pos) && ModeConsistent(funcs[n].cfg, ref)
      ensures Files(reported, funcs[n].id, pos, ref) <==>
        LeaksOnPaths(funcs[n], b, i, ref) && !Excused(funcs[n], needs, typos, holding, ref)
    {
      LeakTableIsPathExact(funcs, n, b, i, pos, ref);
    }
  }

  method ById(funcs: seq<Func>) returns (cfgs: map<Fn, Cfg>, typings: Typings)
    requires DistinctFunctions(funcs)
    ensures Typed(typings, funcs)
    ensures forall n :: 0 <= n < |funcs| ==> funcs[n].id in cfgs && cfgs[funcs[n].id] == funcs[n].cfg
  {
    cfgs, typings := map[], map[];
    var n := 0;
    while n < |funcs|
      invariant 0 <= n <= |funcs|
      invariant forall m :: 0 <= m < n ==> funcs[m].id in cfgs && cfgs[funcs[m].id] == funcs[m].cfg
      invariant forall m :: 0 <= m < n ==> funcs[m].id in typings && typings[funcs[m].id] == funcs[m].typing
    {
      cfgs, typings := cfgs[funcs[n].id := funcs[n].cfg], typings[funcs[n].id := funcs[n].typing];
      n := n + 1;
    }
  }
}
