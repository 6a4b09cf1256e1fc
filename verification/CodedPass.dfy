/** What the theorems about the snapshot walk say about the pass as coded, if all its functions are harmless. */
module CodedPass {
  import opened Types
  import LockStates
  import opened Cfgs
  import opened Records
  import opened WalkSpec
  import opened Traces
  import opened LeakFiling
  import opened LiteralAgreement
  import opened FixedPoint
  import opened Digraph
  import opened Interprocedural
  import WalkTheorems
  import DeadlockFreedom
  import L = LiteralWalk

  ghost predicate HarmlessProgram(funcs: seq<Func>) {
    forall n :: 0 <= n < |funcs| ==> Harmless(funcs[n].cfg)
  }

  // ----- The pass as coded

  /** The coded walk of a function ends. */
  ghost predicate Ends(cfg: Cfg)
    requires Cfgs.WellFormed(cfg) && |cfg| > 0
  {
    exists fuel :: L.WalkFunction(cfg, fuel).Some?
  }

  /** How it ends; more depth makes no difference. */
  ghost function CodedOutcome(cfg: Cfg): L.Outcome
    requires Cfgs.WellFormed(cfg) && |cfg| > 0 && Ends(cfg)
  {
    var fuel :| L.WalkFunction(cfg, fuel).Some?;
    L.WalkFunction(cfg, fuel).value
  }

  lemma {:induction false} OutcomeIsUnique(cfg: Cfg, fuel: nat, u: L.Outcome)
    requires Cfgs.WellFormed(cfg) && |cfg| > 0 && L.WalkFunction(cfg, fuel) == Some(u)
    ensures Ends(cfg) && CodedOutcome(cfg) == u
  {
    forall more: nat | L.WalkFunction(cfg, more).Some? ensures L.WalkFunction(cfg, more) == Some(u) {
      if fuel <= more {
        L.FuelMonotone(cfg, fuel, more, L.START, 0, None, LockStates.EMPTY);
      } else {
        L.FuelMonotone(cfg, more, fuel, L.START, 0, None, LockStates.EMPTY);
      }
    }
  }

  /** The tables the coded walk of `f` leaves, given the leak table it starts with. */
  ghost function CodedTables(f: Func, leaks: Leaks): Tables
    requires Cfgs.WellFormed(f.cfg) && |f.cfg| > 0 && Ends(f.cfg)
  {
    Replay(f, CodedOutcome(f.cfg).trace, WalkTheorems.Start(leaks))
  }

  ghost predicate AllEnd(funcs: seq<Func>)
    requires WellFormedProgram(funcs)
  {
    forall n :: 0 <= n < |funcs| && |funcs[n].cfg| > 0 ==> Ends(funcs[n].cfg)
  }

  ghost function CodedLeakTable(funcs: seq<Func>): Leaks
    requires WellFormedProgram(funcs) && AllEnd(funcs)
  {
    if |funcs| == 0 then map[] else
    var n := |funcs| - 1;
    assert WellFormedProgram(funcs[..n]) && AllEnd(funcs[..n]);
    var before := CodedLeakTable(funcs[..n]);
    if |funcs[n].cfg| == 0 then before else CodedTables(funcs[n], before).leaks
  }

  // ----- Its records, leak candidates and lock order

  /** The coded walk of a harmless function ends and leaves the records of the snapshot walk: every report,
      call site, lock-order edge and lock fact, and the same leak candidates. */
  lemma {:induction false} CodedRecordsAgree(f: Func, leaks': Leaks, leaks: Leaks)
    requires Cfgs.WellFormed(f.cfg) && |f.cfg| > 0 && Harmless(f.cfg) && SameLeaks(leaks', leaks)
    ensures Ends(f.cfg) && SameRecords(CodedTables(f, leaks'), WalkTheorems.WalkFunction(f, leaks))
  {
    var fuel, u := CodedWalkAgreesIfHarmless(f, leaks', leaks);
    OutcomeIsUnique(f.cfg, fuel, u);
  }

  lemma {:induction false} HarmlessProgramEnds(funcs: seq<Func>)
    requires WellFormedProgram(funcs) && HarmlessProgram(funcs)
    ensures AllEnd(funcs)
  {
    forall n | 0 <= n < |funcs| && |funcs[n].cfg| > 0 ensures Ends(funcs[n].cfg) {
      CodedRecordsAgree(funcs[n], map[], map[]);
    }
  }

  /** After the whole pass the leak table has the same candidates. */
  lemma {:induction false} CodedLeakTableAgrees(funcs: seq<Func>)
    requires WellFormedProgram(funcs) && HarmlessProgram(funcs)
    ensures AllEnd(funcs) && SameLeaks(CodedLeakTable(funcs), LeakTable(funcs))
  {
    HarmlessProgramEnds(funcs);
    if |funcs| > 0 {
      var n := |funcs| - 1;
      CodedLeakTableAgrees(funcs[..n]);
      if |funcs[n].cfg| > 0 { CodedRecordsAgree(funcs[n], CodedLeakTable(funcs[..n]), LeakTable(funcs[..n])); }
    }
  }

  /** So in the pass as coded a lock is a candidate of a return that shares its position with no other exactly
      when it is held on every path to the return and not pending to be unlocked on one. */
  lemma {:induction false} CodedLeakTableIsPathExact(funcs: seq<Func>, n: nat, b: BlockId, i: nat, pos: Pos,
                                                     ref: LockRef)
    requires WellFormedProgram(funcs) && HarmlessProgram(funcs) && SoleReturn(funcs, n, b, i, pos)
    ensures AllEnd(funcs)
    ensures Files(Candidates(CodedLeakTable(funcs), pos), funcs[n].id, pos, ref) <==> LeaksOnPaths(funcs[n], b, i, ref)
  {
    CodedLeakTableAgrees(funcs);
    assert ModeConsistent(funcs[n].cfg, ref);
    LeakTableIsPathExact(funcs, n, b, i, pos, ref);
  }

  /** The records of the coded walks have reached call sites, acquisitions and graph. */
  ghost predicate CodedCollected(f: Func, sites: seq<CallSite>, direct: Table, edges: Edges)
    requires Cfgs.WellFormed(f.cfg) && (|f.cfg| > 0 ==> Ends(f.cfg))
  {
    |f.cfg| > 0 ==> exists leaks :: DeadlockFreedom.Absorbed(CodedTables(f, leaks).log, sites, direct, edges)
  }

  lemma {:induction false} CodedIsCollected(f: Func, sites: seq<CallSite>, direct: Table, edges: Edges)
    requires Cfgs.WellFormed(f.cfg) && Harmless(f.cfg) && (|f.cfg| > 0 ==> Ends(f.cfg))
    requires CodedCollected(f, sites, direct, edges)
    ensures DeadlockFreedom.Collected(f, sites, direct, edges)
  {
    if |f.cfg| > 0 {
      var leaks :| DeadlockFreedom.Absorbed(CodedTables(f, leaks).log, sites, direct, edges);
      CodedRecordsAgree(f, leaks, leaks);
    }
  }

  /** And a ranking of the lock-order graph that the coded walks and the later phases build certifies the
      absence of circular waits. */
  lemma {:induction false} CodedCertificate(funcs: seq<Func>, sites: seq<CallSite>, direct: Table, before: Edges,
                                            acquired: Table, edges: Edges, rank: map<Key, nat>)
    requires WellFormedProgram(funcs) && HarmlessProgram(funcs) && AllEnd(funcs)
    requires forall n :: 0 <= n < |funcs| ==> CodedCollected(funcs[n], sites, direct, before)
    requires Exact(CallSpread(sites), direct, acquired) && before <= edges
    requires forall s, h, a :: s in sites && OrdersAcross(acquired, s, h, a) ==> HasEdge(edges, h, a)
    requires Ranks(edges, rank)
    ensures DeadlockFreedom.Certificate(funcs, rank)
  {
    forall n | 0 <= n < |funcs| ensures DeadlockFreedom.Collected(funcs[n], sites, direct, before) {
      CodedIsCollected(funcs[n], sites, direct, before);
    }
    forall from, to | DeadlockFreedom.MayWait(funcs, from, to)
      ensures from in rank && to in rank && rank[from] < rank[to]
    {
      DeadlockFreedom.WaitIsAnEdge(funcs, sites, direct, before, acquired, edges, from, to);
    }
  }
}
