/** From the walk of every function to the absence of circular waits: the lock-order phases of `run`
    (golintmu.go:149-169) in sequence. */
module DeadlockFreedom {
  import opened Types
  import opened LockStates
  import opened Cfgs
  import opened PathText
  import opened Records
  import opened WalkTheorems
  import opened RecordTheorems
  import Walk
  import opened Reach
  import opened FixedPoint
  import opened Digraph
  import opened Interprocedural
  import LockOrder
  import CycleDetection
  import opened LeakFiling
  import opened CallChains

  // ----- What the program does, stated on its paths

  /** At point (b, i) of `f` lock `h` is held on every path; in one mode at each block. */
  ghost predicate SurelyHeld(f: Func, b: BlockId, i: nat, h: LockRef) {
    Point(f.cfg, b, i) && ModeConsistent(f.cfg, h) && AlwaysHeldAt(f.cfg, b, i, h)
  }

  /** `f` acquires a lock with key `to` while surely holding another one with key `from`. */
  ghost predicate NestsIn(f: Func, from: Key, to: Key, b: BlockId, i: nat, h: LockRef) {
    && SurelyHeld(f, b, i, h) && KeyOf(f.typing, h) == Some(from)
    && f.cfg[b].instrs[i].Acquire? && f.cfg[b].instrs[i].ref != h && KeyOf(f.typing, f.cfg[b].instrs[i].ref) == Some(to)
  }

  /** `f` calls `callee` while surely holding a lock that the call site records as `from`. */
  ghost predicate CallsHolding(f: Func, from: Key, callee: Fn, b: BlockId, i: nat, h: LockRef) {
    && SurelyHeld(f, b, i, h) && NormalizedKeyOf(f.typing, h) == Some(from)
    && f.cfg[b].instrs[i].Call? && f.cfg[b].instrs[i].callee == callee
  }

  ghost predicate AcquiresAt(f: Func, k: Key, b: BlockId, i: nat) {
    Point(f.cfg, b, i) && f.cfg[b].instrs[i].Acquire? && KeyOf(f.typing, f.cfg[b].instrs[i].ref) == Some(k)
  }

  ghost predicate CallsAt(f: Func, callee: Fn, b: BlockId, i: nat) {
    Point(f.cfg, b, i) && f.cfg[b].instrs[i].Call? && f.cfg[b].instrs[i].callee == callee
  }

  /** Function `a` contains a reachable acquisition of `k`. */
  ghost predicate Acquiring(funcs: seq<Func>, a: Fn, k: Key) {
    exists f, b: BlockId, i: nat :: f in funcs && f.id == a && AcquiresAt(f, k, b, i)
  }

  /** Function `a` contains a reachable call of `c`. */
  ghost predicate Calling(funcs: seq<Func>, a: Fn, c: Fn) {
    exists f, b: BlockId, i: nat :: f in funcs && f.id == a && CallsAt(f, c, b, i)
  }

  /** `path` is a chain of calls, as far as the analyser records them (see `Instr.Call`), that starts at `g`. */
  ghost predicate CallPath(funcs: seq<Func>, g: Fn, path: seq<Fn>)
    decreases |path|
  {
    && |path| > 0 && path[0] == g
    && (|path| > 1 ==> Calling(funcs, g, path[1]) && CallPath(funcs, path[1], path[1..]))
  }

  /** A call of `g` may come to acquire `k`, directly or through further calls. */
  ghost predicate MayAcquire(funcs: seq<Func>, g: Fn, k: Key) {
    exists path :: CallPath(funcs, g, path) && Acquiring(funcs, path[|path| - 1], k)
  }

  /** A thread may wait for `to` while surely holding `from`, in one function or across calls. */
  ghost predicate MayWait(funcs: seq<Func>, from: Key, to: Key) {
    || (exists f, b: BlockId, i: nat, h :: f in funcs && NestsIn(f, from, to, b, i, h))
    || (from != to && exists f, g, b: BlockId, i: nat, h ::
          f in funcs && CallsHolding(f, from, g, b, i, h) && MayAcquire(funcs, g, to))
  }

  // ----- What an edge of the graph stands for

  /** On some path `f` acquires a lock with key `e.to`, at `e.pos`, while holding another one with key `e.from`. */
  ghost predicate NestsOnAPath(f: Func, e: LockOrderEdge) {
    exists p, i: nat, h :: Valid(f.cfg, p) && NestsAlong(f, e, p, i, h)
  }

  ghost predicate NestsAlong(f: Func, e: LockOrderEdge, p: Path, i: nat, h: LockRef)
    requires Valid(f.cfg, p)
  {
    && i < |f.cfg[End(p)].instrs| && HeldAfter(TextBefore(f.cfg, p, i), h) && KeyOf(f.typing, h) == Some(e.from)
    && var instr := f.cfg[End(p)].instrs[i];
       && instr.Acquire? && instr.ref != h && KeyOf(f.typing, instr.ref) == Some(e.to)
       && e.pos == instr.pos && e.fn == f.id
  }

  /** A chain of calls leads from `g` to a function that acquires `k` or is imported as doing so. */
  ghost predicate MayComeToAcquire(funcs: seq<Func>, imported: Table, g: Fn, k: Key) {
    exists path :: CallPath(funcs, g, path)
      && (Acquiring(funcs, path[|path| - 1], k) || path[|path| - 1] in Having(imported, k))
  }

  /** On some path `f` calls at `e.pos` a function that may come to acquire `e.to`, while holding a lock whose
      key is `e.from`. */
  ghost predicate CallsOnAPath(funcs: seq<Func>, imported: Table, f: Func, e: LockOrderEdge) {
    exists p, i: nat, h :: Valid(f.cfg, p) && CallsAlong(funcs, imported, f, e, p, i, h)
  }

  ghost predicate CallsAlong(funcs: seq<Func>, imported: Table, f: Func, e: LockOrderEdge, p: Path, i: nat, h: LockRef)
    requires Valid(f.cfg, p)
  {
    && i < |f.cfg[End(p)].instrs| && HeldAfter(TextBefore(f.cfg, p, i), h)
    && NormalizedKeyOf(f.typing, h) == Some(e.from)
    && var instr := f.cfg[End(p)].instrs[i];
       && instr.Call? && MayComeToAcquire(funcs, imported, instr.callee, e.to)
       && e.pos == instr.pos && e.fn == f.id
  }

  /** The edge stands for an acquisition under a held lock in the program, directly or through calls to a
      different lock. */
  ghost predicate StandsForAWait(funcs: seq<Func>, imported: Table, e: LockOrderEdge) {
    || (exists f :: f in funcs && NestsOnAPath(f, e))
    || (e.from != e.to && exists f :: f in funcs && CallsOnAPath(funcs, imported, f, e))
  }

  // ----- What the phases collect

  /** Everything in the log has reached the call sites, the acquisitions and the graph. */
  ghost predicate Absorbed(log: set<Record>, sites: seq<CallSite>, direct: Table, edges: Edges) {
    && (forall s :: Site(s) in log ==> s in sites)
    && (forall f, k :: Acquires(f, k) in log ==> f in Having(direct, k))
    && (forall e :: Ordered(e) in log ==> HasEdge(edges, e.from, e.to))
  }

  ghost predicate Collected(f: Func, sites: seq<CallSite>, direct: Table, edges: Edges)
    requires Cfgs.WellFormed(f.cfg)
  {
    |f.cfg| > 0 ==> exists leaks :: Absorbed(WalkFunction(f, leaks).log, sites, direct, edges)
  }

  ghost predicate Grown(sites: seq<CallSite>, direct: Table, edges: Edges, sites': seq<CallSite>, direct': Table,
                        edges': Edges) {
    && (forall s :: s in sites ==> s in sites')
    && (forall k :: Having(direct, k) <= Having(direct', k))
    && edges <= edges'
  }

  /** Whatever is new came from the log. */
  ghost predicate OnlyFrom(log: set<Record>, sites: seq<CallSite>, direct: Table, edges: Edges, sites': seq<CallSite>,
                           direct': Table, edges': Edges) {
    && (forall s :: s in sites' ==> s in sites || Site(s) in log)
    && (forall k, g :: g in Having(direct', k) ==> g in Having(direct, k) || Acquires(g, k) in log)
    && (forall e :: e in edges' ==> e in edges || Ordered(e) in log)
  }

  /** Every call site is a reachable call, every acquisition fact is imported or a reachable acquisition, and
      every edge is a nesting on a path. */
  ghost predicate Justified(funcs: seq<Func>, imported: Table, sites: seq<CallSite>, direct: Table, edges: Edges) {
    && (forall s :: s in sites ==> exists f, b, i :: f in funcs && SiteOf(f, b, i, s))
    && (forall k, g :: g in Having(direct, k) ==> g in Having(imported, k) || Acquiring(funcs, g, k))
    && (forall e :: e in edges ==> exists f :: f in funcs && NestsOnAPath(f, e))
  }

  lemma {:induction false} EdgeIsJustified(f: Func, leaks: Leaks, e: LockOrderEdge)
    requires Cfgs.WellFormed(f.cfg) && |f.cfg| > 0 && Ordered(e) in WalkFunction(f, leaks).log
    ensures NestsOnAPath(f, e)
  {
    var p, i, h := OrderEdgeHasAPath(f, leaks, e);
    PointReadsText(f.cfg, p, i, h);
    assert NestsAlong(f, e, p, i, h);
  }

  lemma {:induction false} FactIsJustified(funcs: seq<Func>, f: Func, leaks: Leaks, g: Fn, k: Key)
    requires Cfgs.WellFormed(f.cfg) && |f.cfg| > 0 && f in funcs && Acquires(g, k) in WalkFunction(f, leaks).log
    ensures Acquiring(funcs, g, k)
  {
    FactsAreExact(f, leaks, Acquires(g, k));
    var b: BlockId, i: nat :| Point(f.cfg, b, i) && Unconditional(f, f.cfg[b].instrs[i], Acquires(g, k));
    assert AcquiresAt(f, k, b, i);
  }

  lemma {:induction false} AcquiringInMore(funcs: seq<Func>, more: seq<Func>, g: Fn, k: Key)
    requires (forall f :: f in funcs ==> f in more) && Acquiring(funcs, g, k)
    ensures Acquiring(more, g, k)
  {
  }

  /** One more function has been walked. */
  lemma {:induction false} JustifiedStep(funcs: seq<Func>, n: nat, leaks: Leaks, imported: Table,
                                         sites: seq<CallSite>, direct: Table, edges: Edges, sites': seq<CallSite>,
                                         direct': Table, edges': Edges)
    requires n < |funcs| && Cfgs.WellFormed(funcs[n].cfg) && Justified(funcs[..n], imported, sites, direct, edges)
    requires OnlyFrom(LogOf(funcs[n], leaks), sites, direct, edges, sites', direct', edges')
    ensures Justified(funcs[..n + 1], imported, sites', direct', edges')
  {
    var all, f := funcs[..n + 1], funcs[n];
    assert all == funcs[..n] + [f];
    forall s | s in sites' ensures exists g, b, i :: g in all && SiteOf(g, b, i, s) {
      if s !in sites { var b, i := SiteIsACall(f, leaks, s); }
    }
    forall k, g | g in Having(direct', k) ensures g in Having(imported, k) || Acquiring(all, g, k) {
      if g !in Having(direct, k) {
        FactIsJustified(all, f, leaks, g, k);
      } else if g !in Having(imported, k) {
        AcquiringInMore(funcs[..n], all, g, k);
      }
    }
    forall e | e in edges' ensures exists g :: g in all && NestsOnAPath(g, e) {
      if e !in edges { EdgeIsJustified(f, leaks, e); }
    }
  }

  /** What the walk of `f` logs; nothing if it has no body. */
  ghost function LogOf(f: Func, leaks: Leaks): set<Record>
    requires Cfgs.WellFormed(f.cfg)
  {
    if |f.cfg| == 0 then {} else WalkFunction(f, leaks).log
  }

  // ----- Every edge stands for a wait

  lemma {:induction false} SiteIsCalling(funcs: seq<Func>, imported: Table, sites: seq<CallSite>, direct: Table,
                                         edges: Edges, s: CallSite)
    requires Justified(funcs, imported, sites, direct, edges) && s in sites
    ensures Calling(funcs, s.caller, s.callee)
  {
    var f, b: BlockId, i: nat :| f in funcs && SiteOf(f, b, i, s);
    assert CallsAt(f, s.callee, b, i);
  }

  lemma {:induction false} ChainIsCallPath(funcs: seq<Func>, imported: Table, sites: seq<CallSite>, direct: Table,
                                           edges: Edges, ok: SiteTest, g: Fn, ss: seq<CallSite>, to: Fn)
    returns (path: seq<Fn>)
    requires Justified(funcs, imported, sites, direct, edges) && Chain(sites, ok, g, ss, to)
    ensures CallPath(funcs, g, path) && path[|path| - 1] == to
    decreases |ss|
  {
    path := [g];
    if |ss| > 0 {
      SiteIsCalling(funcs, imported, sites, direct, edges, ss[0]);
      var rest := ChainIsCallPath(funcs, imported, sites, direct, edges, ok, ss[0].callee, ss[1..], to);
      path := [g] + rest;
      assert path[1..] == rest;
    }
  }

  /** Transitive acquisitions have a call path to an acquisition, even if the propagation was cut off. */
  lemma {:induction false} AcquiredHasACallPath(funcs: seq<Func>, imported: Table, sites: seq<CallSite>, direct: Table,
                                                edges: Edges, acquired: Table, g: Fn, k: Key)
    requires Justified(funcs, imported, sites, direct, edges) && Sound(CallSpread(sites), direct, acquired)
    requires k in At(acquired, g)
    ensures MayComeToAcquire(funcs, imported, g, k)
  {
    var any := AnyCall();
    assert g in Having(acquired, k) && CallHops(sites) == Hops(sites, any);
    ReachableIffChain(sites, any, Having(direct, k), g);
    var ss: seq<CallSite>, to: Fn :| Chain(sites, any, g, ss, to) && to in Having(direct, k);
    var path := ChainIsCallPath(funcs, imported, sites, direct, edges, any, g, ss, to);
  }

  lemma {:induction false} CrossEdgeStandsForAWait(funcs: seq<Func>, imported: Table, sites: seq<CallSite>,
                                                   direct: Table, edges: Edges, acquired: Table, s: CallSite,
                                                   e: LockOrderEdge)
    requires Justified(funcs, imported, sites, direct, edges) && Sound(CallSpread(sites), direct, acquired)
    requires s in sites && OrdersAcross(acquired, s, e.from, e.to) && e.pos == s.pos && e.fn == s.caller
    ensures StandsForAWait(funcs, imported, e)
  {
    AcquiredHasACallPath(funcs, imported, sites, direct, edges, acquired, s.callee, e.to);
    var f, b: BlockId, i: nat :| f in funcs && SiteOf(f, b, i, s);
    var p :| Reaches(f.cfg, p, b) && HoldsKeys(f, TextBefore(f.cfg, p, i), s.held);
    var h :| NormalizedKeyOf(f.typing, h) == Some(e.from) && HeldAfter(TextBefore(f.cfg, p, i), h);
    assert CallsAlong(funcs, imported, f, e, p, i, h);
  }

  lemma {:induction false} AcquisitionIsCollected(f: Func, sites: seq<CallSite>, direct: Table, edges: Edges, k: Key,
                                                  b: BlockId, i: nat)
    requires Cfgs.WellFormed(f.cfg) && Collected(f, sites, direct, edges) && AcquiresAt(f, k, b, i)
    ensures f.id in Having(direct, k)
  {
    var leaks :| Absorbed(WalkFunction(f, leaks).log, sites, direct, edges);
    FinalStateIsLogged(f, leaks, b, i);
    var s := FinalBefore(f, leaks, b, i);
    AcquireIsEmitted(f, f.cfg[b].instrs[i], s, k);
  }

  lemma {:induction false} AcquireIsEmitted(f: Func, instr: Instr, s: State, k: Key)
    requires instr.Acquire? && KeyOf(f.typing, instr.ref) == Some(k)
    ensures Acquires(f.id, k) in Emit(f, instr, s)
  {
    assert k in KeysOf(f, instr.ref);
  }

  lemma {:induction false} CallIsCollected(f: Func, sites: seq<CallSite>, direct: Table, edges: Edges, b: BlockId,
                                           i: nat)
    returns (site: CallSite)
    requires Cfgs.WellFormed(f.cfg) && Collected(f, sites, direct, edges) && Point(f.cfg, b, i)
    requires f.cfg[b].instrs[i].Call?
    ensures site in sites && site.caller == f.id && site.callee == f.cfg[b].instrs[i].callee
    ensures forall h :: SurelyHeld(f, b, i, h) && NormalizedKeyOf(f.typing, h).Some? ==>
      NormalizedKeyOf(f.typing, h).value in site.held
  {
    var leaks :| Absorbed(WalkFunction(f, leaks).log, sites, direct, edges);
    site := CallSiteIsCovered(f, leaks, b, i);
  }

  lemma {:induction false} NestingIsCollected(f: Func, sites: seq<CallSite>, direct: Table, edges: Edges, from: Key,
                                              to: Key, b: BlockId, i: nat, h: LockRef)
    requires Cfgs.WellFormed(f.cfg) && Collected(f, sites, direct, edges) && NestsIn(f, from, to, b, i, h)
    ensures HasEdge(edges, from, to)
  {
    var leaks :| Absorbed(WalkFunction(f, leaks).log, sites, direct, edges);
    CertainOrderIsRecorded(f, leaks, b, i, h);
  }

  /** All functions have been collected. */
  ghost predicate AllCollected(funcs: seq<Func>, sites: seq<CallSite>, direct: Table, edges: Edges) {
    forall n :: 0 <= n < |funcs| ==> Cfgs.WellFormed(funcs[n].cfg) && Collected(funcs[n], sites, direct, edges)
  }

  lemma {:induction false} CollectedMember(funcs: seq<Func>, sites: seq<CallSite>, direct: Table, edges: Edges, f: Func)
    requires AllCollected(funcs, sites, direct, edges) && f in funcs
    ensures Cfgs.WellFormed(f.cfg) && Collected(f, sites, direct, edges)
  {
  }

  lemma {:induction false} AcquiringIsPropagated(funcs: seq<Func>, sites: seq<CallSite>, direct: Table, edges: Edges,
                                                 acquired: Table, a: Fn, k: Key)
    requires AllCollected(funcs, sites, direct, edges) && Exact(CallSpread(sites), direct, acquired)
    requires Acquiring(funcs, a, k)
    ensures k in At(acquired, a)
  {
    var f, b: BlockId, i: nat :| f in funcs && f.id == a && AcquiresAt(f, k, b, i);
    CollectedMember(funcs, sites, direct, edges, f);
    AcquisitionIsCollected(f, sites, direct, edges, k, b, i);
    StartIsReachable(CallHops(sites), Having(direct, k), a);
    assert a in Having(acquired, k);
  }

  lemma {:induction false} CallingIsCollected(funcs: seq<Func>, sites: seq<CallSite>, direct: Table, edges: Edges,
                                              a: Fn, c: Fn)
    requires AllCollected(funcs, sites, direct, edges) && Calling(funcs, a, c)
    ensures (c, a) in CallHops(sites)
  {
    var f, b: BlockId, i: nat :| f in funcs && f.id == a && CallsAt(f, c, b, i);
    CollectedMember(funcs, sites, direct, edges, f);
    var site := CallIsCollected(f, sites, direct, edges, b, i);
  }

  /** `path` read as hops from callee to caller. */
  ghost predicate HopPath(rel: Relation, path: seq<Fn>) {
    |path| > 0 && (|path| > 1 ==> (path[1], path[0]) in rel && HopPath(rel, path[1..]))
  }

  lemma {:induction false} CallPathIsHopPath(funcs: seq<Func>, sites: seq<CallSite>, direct: Table, edges: Edges,
                                             g: Fn, path: seq<Fn>)
    requires AllCollected(funcs, sites, direct, edges) && CallPath(funcs, g, path)
    ensures HopPath(CallHops(sites), path)
    decreases |path|
  {
    if |path| > 1 {
      CallingIsCollected(funcs, sites, direct, edges, g, path[1]);
      CallPathIsHopPath(funcs, sites, direct, edges, path[1], path[1..]);
    }
  }

  lemma {:induction false} HopPathStaysInside(rel: Relation, s: set<Fn>, path: seq<Fn>)
    requires HopPath(rel, path) && Reach.Closed(rel, s) && path[|path| - 1] in s
    ensures path[0] in s
  {
    if |path| > 1 { HopPathStaysInside(rel, s, path[1..]); }
  }

  lemma {:induction false} ExactIsClosed(spread: Spread, start: Table, t: Table, k: Key)
    requires Exact(spread, start, t)
    ensures Reach.Closed(spread(k), Having(t, k))
  {
    forall a, b | (a, b) in spread(k) && a in Having(t, k) ensures b in Having(t, k) {
      StepIsReachable(spread(k), Having(start, k), a, b);
    }
  }

  /** Whatever a call may acquire is among the transitive acquisitions of the callee. */
  lemma {:induction false} MayAcquireIsPropagated(funcs: seq<Func>, sites: seq<CallSite>, direct: Table, edges: Edges,
                                                  acquired: Table, g: Fn, k: Key)
    requires AllCollected(funcs, sites, direct, edges) && Exact(CallSpread(sites), direct, acquired)
    requires MayAcquire(funcs, g, k)
    ensures k in At(acquired, g)
  {
    var path :| CallPath(funcs, g, path) && Acquiring(funcs, path[|path| - 1], k);
    AcquiringIsPropagated(funcs, sites, direct, edges, acquired, path[|path| - 1], k);
    CallPathIsHopPath(funcs, sites, direct, edges, g, path);
    ExactIsClosed(CallSpread(sites), direct, acquired, k);
    HopPathStaysInside(CallHops(sites), Having(acquired, k), path);
  }

  /** Every possible wait is an edge of the complete lock-order graph. */
  lemma {:induction false} WaitIsAnEdge(funcs: seq<Func>, sites: seq<CallSite>, direct: Table, before: Edges,
                                        acquired: Table, edges: Edges, from: Key, to: Key)
    requires AllCollected(funcs, sites, direct, before) && Exact(CallSpread(sites), direct, acquired) && before <= edges
    requires forall s, h, a :: s in sites && OrdersAcross(acquired, s, h, a) ==> HasEdge(edges, h, a)
    requires MayWait(funcs, from, to)
    ensures HasEdge(edges, from, to)
  {
    if exists f, b: BlockId, i: nat, h :: f in funcs && NestsIn(f, from, to, b, i, h) {
      var f, b: BlockId, i: nat, h :| f in funcs && NestsIn(f, from, to, b, i, h);
      CollectedMember(funcs, sites, direct, before, f);
      NestingIsCollected(f, sites, direct, before, from, to, b, i, h);
    } else {
      var f, g, b: BlockId, i: nat, h :| f in funcs && CallsHolding(f, from, g, b, i, h) && MayAcquire(funcs, g, to);
      MayAcquireIsPropagated(funcs, sites, direct, before, acquired, g, to);
      CollectedMember(funcs, sites, direct, before, f);
      var site := CallIsCollected(f, sites, direct, before, b, i);
      assert OrdersAcross(acquired, site, from, to);
    }
  }

  /** Every possible wait goes strictly up. */
  ghost predicate Certificate(funcs: seq<Func>, rank: map<Key, nat>) {
    forall from, to :: MayWait(funcs, from, to) ==> from in rank && to in rank && rank[from] < rank[to]
  }

  /** Threads each of which may be waiting as described cannot wait for each other in a circle. */
  lemma {:induction false} CertificateExcludesDeadlock(funcs: seq<Func>, rank: map<Key, nat>, ws: seq<Wait>)
    requires Certificate(funcs, rank) && forall i :: 0 <= i < |ws| ==> MayWait(funcs, ws[i].holds, ws[i].wants)
    ensures !CircularWait(ws)
  {
    RankExcludesCircularWait(ws, rank);
  }

  /** A ranking of the complete graph is climbed by every possible wait. */
  lemma {:induction false} RankingCertifies(funcs: seq<Func>, sites: seq<CallSite>, direct: Table, before: Edges,
                                            acquired: Table, edges: Edges, rank: map<Key, nat>)
    requires AllCollected(funcs, sites, direct, before) && Exact(CallSpread(sites), direct, acquired) && before <= edges
    requires forall s, h, a :: s in sites && OrdersAcross(acquired, s, h, a) ==> HasEdge(edges, h, a)
    requires Ranks(edges, rank)
    ensures Certificate(funcs, rank)
  {
    forall from, to | MayWait(funcs, from, to) ensures from in rank && to in rank && rank[from] < rank[to] {
      WaitIsAnEdge(funcs, sites, direct, before, acquired, edges, from, to);
    }
  }

  /** Every edge of the complete graph stands for a wait. */
  lemma {:induction false} EdgesStandForWaits(funcs: seq<Func>, imported: Table, sites: seq<CallSite>, direct: Table,
                                              before: Edges, acquired: Table, edges: Edges)
    requires Justified(funcs, imported, sites, direct, before) && Sound(CallSpread(sites), direct, acquired)
    requires Crossing(sites, acquired, before, edges)
    ensures forall e :: e in edges ==> StandsForAWait(funcs, imported, e)
  {
    forall e | e in edges ensures StandsForAWait(funcs, imported, e) {
      if e !in before {
        var s :| s in sites && CrossEdge(acquired, s, e);
        CrossEdgeStandsForAWait(funcs, imported, sites, direct, before, acquired, s, e);
      }
    }
  }

  // ----- The phases

  lemma {:induction false} AbsorbedGrows(log: set<Record>, sites: seq<CallSite>, direct: Table, edges: Edges,
                                         sites': seq<CallSite>, direct': Table, edges': Edges)
    requires Absorbed(log, sites, direct, edges) && Grown(sites, direct, edges, sites', direct', edges')
    ensures Absorbed(log, sites', direct', edges')
  {
    forall e | Ordered(e) in log ensures HasEdge(edges', e.from, e.to) { assert HasEdge(edges, e.from, e.to); }
  }

  lemma {:induction false} AllCollectedGrows(funcs: seq<Func>, sites: seq<CallSite>, direct: Table, edges: Edges,
                                             sites': seq<CallSite>, direct': Table, edges': Edges)
    requires AllCollected(funcs, sites, direct, edges) && Grown(sites, direct, edges, sites', direct', edges')
    ensures AllCollected(funcs, sites', direct', edges')
  {
    forall n | 0 <= n < |funcs| && |funcs[n].cfg| > 0 ensures Collected(funcs[n], sites', direct', edges') {
      assert Collected(funcs[n], sites, direct, edges);
      var leaks :| Absorbed(WalkFunction(funcs[n], leaks).log, sites, direct, edges);
      AbsorbedGrows(WalkFunction(funcs[n], leaks).log, sites, direct, edges, sites', direct', edges');
    }
  }

  lemma {:induction false} AllCollectedStep(funcs: seq<Func>, n: nat, sites: seq<CallSite>, direct: Table, edges: Edges)
    requires n < |funcs| && AllCollected(funcs[..n], sites, direct, edges)
    requires Cfgs.WellFormed(funcs[n].cfg) && Collected(funcs[n], sites, direct, edges)
    ensures AllCollected(funcs[..n + 1], sites, direct, edges)
  {
    forall m | 0 <= m < n ensures Cfgs.WellFormed(funcs[m].cfg) && Collected(funcs[m], sites, direct, edges) {
      assert funcs[..n][m] == funcs[m];
    }
  }

  /** The call sites, direct acquisitions and lock-order edges gathered while walking. */
  class Collector {
    var sites: seq<CallSite>
    var direct: Table
    const graph: LockOrder.LockOrderGraph

    constructor (imported: Table)
      ensures sites == [] && direct == imported && fresh(graph) && graph.edges == map[]
    {
      sites, direct := [], imported;
      graph := new LockOrder.LockOrderGraph();
    }

    ghost predicate Valid()
      reads this, graph
    {
      LockOrder.Filed(graph.edges) && LockOrder.Deduplicated(graph.edges)
    }

    method AbsorbRecord(r: Record)
      requires Valid()
      modifies this, graph
      ensures Valid() && Absorbed({r}, sites, direct, LockOrder.EdgeSet(graph.edges))
      ensures Grown(old(sites), old(direct), old(LockOrder.EdgeSet(graph.edges)),
                    sites, direct, LockOrder.EdgeSet(graph.edges))
      ensures OnlyFrom({r}, old(sites), old(direct), old(LockOrder.EdgeSet(graph.edges)),
                       sites, direct, LockOrder.EdgeSet(graph.edges))
    {
      match r {
        case Site(s) => sites := sites + [s];
        case Acquires(f, k) =>
          forall j
            ensures Having(Add(direct, f, k), j) == if j == k then Having(direct, j) + {f} else Having(direct, j)
          {
            HavingAfterAdd(direct, f, k, j);
          }
          direct := Add(direct, f, k);
        case Ordered(e) => graph.AddEdge(e);
        case _ =>
      }
    }

    method AbsorbLog(log: set<Record>)
      requires Valid()
      modifies this, graph
      ensures Valid() && Absorbed(log, sites, direct, LockOrder.EdgeSet(graph.edges))
      ensures Grown(old(sites), old(direct), old(LockOrder.EdgeSet(graph.edges)),
                    sites, direct, LockOrder.EdgeSet(graph.edges))
      ensures OnlyFrom(log, old(sites), old(direct), old(LockOrder.EdgeSet(graph.edges)),
                       sites, direct, LockOrder.EdgeSet(graph.edges))
    {
      var todo := log;
      while todo != {}
        invariant todo <= log && Valid()
        invariant Absorbed(log - todo, sites, direct, LockOrder.EdgeSet(graph.edges))
        invariant Grown(old(sites), old(direct), old(LockOrder.EdgeSet(graph.edges)),
                        sites, direct, LockOrder.EdgeSet(graph.edges))
        invariant OnlyFrom(log, old(sites), old(direct), old(LockOrder.EdgeSet(graph.edges)),
                           sites, direct, LockOrder.EdgeSet(graph.edges))
        decreases todo
      {
        var r :| r in todo;
        ghost var s, d, e := sites, direct, LockOrder.EdgeSet(graph.edges);
        AbsorbRecord(r);
        AbsorbedGrows(log - todo, s, d, e, sites, direct, LockOrder.EdgeSet(graph.edges));
        todo := todo - {r};
        assert log - todo == (log - (todo + {r})) + {r};
      }
      assert log - todo == log;
    }

    method CollectFunction(f: Func, leaks: Leaks) returns (leaks': Leaks)
      requires Valid() && Cfgs.WellFormed(f.cfg)
      modifies this, graph
      ensures Valid() && Collected(f, sites, direct, LockOrder.EdgeSet(graph.edges))
      ensures leaks' == LeaksAfterWalk(f, leaks)
      ensures Grown(old(sites), old(direct), old(LockOrder.EdgeSet(graph.edges)),
                    sites, direct, LockOrder.EdgeSet(graph.edges))
      ensures OnlyFrom(LogOf(f, leaks), old(sites), old(direct), old(LockOrder.EdgeSet(graph.edges)),
                       sites, direct, LockOrder.EdgeSet(graph.edges))
    {
      var walker := new Walk.Walker(f, leaks);
      walker.WalkFunction();
      AbsorbLog(walker.log);
      leaks' := walker.leaks;
    }

    /** `collectObservations`: walks the functions one after the other, with one leak table for all.  Everything
        they record is collected, and nothing else. */
    method CollectAll(funcs: seq<Func>) returns (leaks: Leaks)
      requires Valid() && WellFormedProgram(funcs) && sites == [] && graph.edges == map[]
      modifies this, graph
      ensures Valid() && AllCollected(funcs, sites, direct, LockOrder.EdgeSet(graph.edges)) && leaks == LeakTable(funcs)
      ensures Justified(funcs, old(direct), sites, direct, LockOrder.EdgeSet(graph.edges))
    {
      leaks := map[];
      var n := 0;
      while n < |funcs|
        invariant 0 <= n <= |funcs| && Valid()
        invariant AllCollected(funcs[..n], sites, direct, LockOrder.EdgeSet(graph.edges))
        invariant Justified(funcs[..n], old(direct), sites, direct, LockOrder.EdgeSet(graph.edges))
        invariant leaks == LeakTable(funcs[..n])
      {
        ghost var s, d, e, l := sites, direct, LockOrder.EdgeSet(graph.edges), leaks;
        leaks := CollectFunction(funcs[n], leaks);
        AllCollectedGrows(funcs[..n], s, d, e, sites, direct, LockOrder.EdgeSet(graph.edges));
        JustifiedStep(funcs, n, l, old(direct), s, d, e, sites, direct, LockOrder.EdgeSet(graph.edges));
        LeakTableStep(funcs, n);
        AllCollectedStep(funcs, n, sites, direct, LockOrder.EdgeSet(graph.edges));
        n := n + 1;
      }
      assert funcs[..n] == funcs;
    }
  }

  /** The walks and the lock-order analysis.  Every edge of a reported cycle stands for an acquisition under a held
      lock on some path of the program, directly or through recorded calls.  If it reports no cycle, and the
      propagation of acquisitions was not cut off (it never is with up to 1000 functions), then no circle can be
      formed of waits in the sense of `MayWait`: for a lock taken while another is held on every path to that
      point, in one mode at each block. Waits while holding a lock on some paths only are not covered, nor are
      acquisitions below a call that leaves no call site: one without arguments, a dynamic one or a deferred
      one. */
  method AnalyzeLockOrder(funcs: seq<Func>, imported: Table, prePub: PrePublication, name: Naming)
    returns (cycles: seq<Cycle>, complete: bool, sites: seq<CallSite>, direct: Table, leaks: Leaks)
    requires WellFormedProgram(funcs)
    ensures cycles == [] && complete ==> exists rank :: Certificate(funcs, rank)
    ensures cycles == [] && complete ==>
      forall ws: seq<Wait> :: (forall i :: 0 <= i < |ws| ==> MayWait(funcs, ws[i].holds, ws[i].wants)) ==>
        !CircularWait(ws)
    ensures |Functions(sites, direct)| <= 1000 ==> complete
    ensures leaks == LeakTable(funcs)
    ensures forall c, j :: c in cycles && 0 <= j < |c| ==> StandsForAWait(funcs, imported, c[j])
  {
    var collector := new Collector(imported);
    leaks := collector.CollectAll(funcs);
    sites, direct := collector.sites, collector.direct;
    ghost var before := LockOrder.EdgeSet(collector.graph.edges);
    var propagation := new Propagation(sites, prePub, map[], direct);
    complete := propagation.PropagateAcquired();
    propagation.CollectOrderEdges(collector.graph);
    ghost var edges := LockOrder.EdgeSet(collector.graph.edges);
    EdgesStandForWaits(funcs, imported, sites, direct, before, propagation.acquired, edges);
    cycles := CycleDetection.DetectCycles(collector.graph.edges, name);
    if cycles == [] && complete {
      ghost var rank :| Ranks(edges, rank);
      RankingCertifies(funcs, sites, direct, before, propagation.acquired, edges, rank);
      forall ws: seq<Wait> | forall i :: 0 <= i < |ws| ==> MayWait(funcs, ws[i].holds, ws[i].wants)
        ensures !CircularWait(ws)
      {
        CertificateExcludesDeadlock(funcs, rank, ws);
      }
    }
  }
}
