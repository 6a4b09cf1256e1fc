/** The phases that check field accesses, one after the other: guards, requirements, propagation, concurrency
    and the two checks (golintmu.go:155-183). */
module AccessAnalysis {
  import opened Types
  import opened Sets
  import opened Reach
  import opened FixedPoint
  import opened Interprocedural
  import opened Concurrency
  import opened Observations
  import opened CallChains
  import opened Inference
  import opened AccessSpec
  import opened Reporting

  // ----- Guards

  lemma {:induction false} KeptOneMore(f: Facts, key: FieldKey, obs: seq<Observation>, i: nat, kept: seq<Observation>,
                                       idx: seq<nat>)
    requires i < |obs| && KeptAt(f, key, obs[..i], kept, idx)
    ensures if f.isConstructor(obs[i].fn, key.structType)
            then KeptAt(f, key, obs[..i + 1], kept, idx)
            else KeptAt(f, key, obs[..i + 1], kept + [obs[i]], idx + [i])
  {
    assert forall j :: 0 <= j < i ==> obs[..i][j] == obs[..i + 1][j] == obs[j];
    assert forall n :: 0 <= n < |idx| ==> idx[n] < |obs[..i]|;
    assert i !in idx;
  }

  method FilterConstructors(f: Facts, key: FieldKey, obs: seq<Observation>) returns (kept: seq<Observation>)
    ensures OutsideConstructors(f, key, obs, kept)
  {
    kept := [];
    ghost var idx: seq<nat> := [];
    var i := 0;
    while i < |obs|
      invariant 0 <= i <= |obs| && KeptAt(f, key, obs[..i], kept, idx)
    {
      KeptOneMore(f, key, obs, i, kept, idx);
      if !f.isConstructor(obs[i].fn, key.structType) {
        kept := kept + [obs[i]];
        idx := idx + [i];
      }
      i := i + 1;
    }
    assert obs[..i] == obs;
  }

  method IsImmutableField(obs: seq<Observation>) returns (immutable: bool)
    ensures immutable <==> forall o :: o in obs ==> o.isRead
  {
    var i := 0;
    while i < |obs|
      invariant 0 <= i <= |obs| && forall j :: 0 <= j < i ==> obs[j].isRead
    {
      if !obs[i].isRead { return false; }
      i := i + 1;
    }
    return true;
  }

  method InferGuard(f: Facts, key: FieldKey, guards: Guards) returns (out: Guards)
    requires key in f.observations && GuardAt(guards, key) == GuardAt(f.guards, key)
    ensures GuardDecided(f, key, GuardAt(out, key))
    ensures forall other :: other != key ==> GuardAt(out, other) == GuardAt(guards, other)
  {
    out := guards;
    if !f.isLocal(key.structType) { return; }
    var kept := FilterConstructors(f, key, f.observations[key]);
    var guard := GuardShown(f, key, kept);
    if guard.Some? { out := guards[key := guard.value]; }
    GuardIsDecided(f, key, kept, if guard.Some? then guard else GuardAt(f.guards, key));
  }

  lemma {:induction false} GuardIsDecided(f: Facts, key: FieldKey, kept: seq<Observation>, guard: Option<Guard>)
    requires key in f.observations && f.isLocal(key.structType)
    requires OutsideConstructors(f, key, f.observations[key], kept) && GuardFrom(f, key, kept, guard)
    ensures GuardDecided(f, key, guard)
  {
  }

  /** The guard that accesses outside constructors show; none for a field that is only read. */
  method GuardShown(f: Facts, key: FieldKey, kept: seq<Observation>) returns (guard: Option<Guard>)
    ensures GuardFrom(f, key, kept, if guard.Some? then guard else GuardAt(f.guards, key))
  {
    guard := None;
    var immutable := IsImmutableField(kept);
    if |kept| == 0 || immutable { return; }
    guard := InferFieldGuard(key.fieldIndex, kept);
    GuardIsShown(key.fieldIndex, kept, guard);
  }

  lemma {:induction false} BestIsElected(self: nat, obs: seq<Observation>, writesOnly: bool, best: Option<nat>)
    requires IsBest(self, obs, writesOnly, best)
    ensures Voted(self, obs, writesOnly) <==> best.Some?
    ensures best.Some? ==> Elected(self, obs, writesOnly, best.value)
  {
  }

  lemma {:induction false} GuardIsShown(self: nat, obs: seq<Observation>, guard: Option<Guard>)
    requires IsGuard(self, obs, guard)
    ensures Shows(self, obs, guard)
  {
    if IsBest(self, obs, true, None) {
      BestIsElected(self, obs, true, None);
      BestIsElected(self, obs, false, if guard.Some? then Some(guard.value.mutexFieldIndex) else None);
    } else {
      BestIsElected(self, obs, true, Some(guard.value.mutexFieldIndex));
    }
  }

  /** `inferGuards`: the fields in any order. */
  method InferGuards(f: Facts) returns (guards: Guards)
    ensures forall key :: GuardDecided(f, key, GuardAt(guards, key))
  {
    guards := f.guards;
    var todo := f.observations.Keys;
    while todo != {}
      invariant todo <= f.observations.Keys
      invariant forall key :: key in f.observations && key !in todo ==> GuardDecided(f, key, GuardAt(guards, key))
      invariant forall key :: key in todo || key !in f.observations ==> GuardAt(guards, key) == GuardAt(f.guards, key)
      decreases todo
    {
      var key :| key in todo;
      guards := InferGuard(f, key, guards);
      todo := todo - {key};
    }
  }

  // ----- What the phases look at is what the specification speaks of

  /** The record the reporting phases work on. */
  ghost predicate Models(f: Facts, guards: Guards, a: Analysis) {
    && a == Analysis(guards, f.observations, f.isConstructor, f.sites, f.prePub, a.concurrent)
    && forall g :: IsConcurrent(a.concurrent, g) <==> Concurrent(f, g)
  }

  lemma {:induction false} BareIsUnguarded(f: Facts, guards: Guards, a: Analysis, key: FieldKey, o: Observation)
    requires Models(f, guards, a)
    ensures Bare(f, guards, key, o) <==> Unguarded(a, key, o)
  {
  }

  lemma {:induction false} RootIsRoot(f: Facts, guards: Guards, a: Analysis, g: Fn)
    requires Models(f, guards, a)
    ensures IsRoot(f, g) <==> Root(a, g)
  {
    if HasCallers(a.sites, g) {
      var i :| 0 <= i < |a.sites| && a.sites[i].callee == g;
      assert a.sites[i] in f.sites;
    }
  }

  lemma {:induction false} OpenIsUnsatisfied(f: Facts, guards: Guards, a: Analysis, k: Key, from: Fn,
                                             ss: seq<CallSite>, to: Fn)
    requires Models(f, guards, a)
    ensures Chain(f.sites, Open(f, k), from, ss, to) <==> Chain(a.sites, Unsatisfied(a, k), from, ss, to)
  {
    ChainBySameTest(f.sites, Open(f, k), Unsatisfied(a, k), from, ss, to);
  }

  lemma {:induction false} NeedsAlike(f: Facts, guards: Guards, a: Analysis, g: Fn, k: Key)
    requires Models(f, guards, a)
    ensures NeedsItself(f, guards, g, k) <==> g in Having(f.needs, k) + AccessFunctions(a, k)
  {
    forall key, o ensures Bare(f, guards, key, o) <==> Unguarded(a, key, o) { BareIsUnguarded(f, guards, a, key, o); }
    if g in AccessFunctions(a, k) {
      var key, o :| key in a.guards && o in ObservationsOf(a, key) && Violates(a, key, o) && GuardOf(a, key) == k
        && o.fn == g;
      assert Bare(f, guards, key, o);
    }
    forall key, o | Bare(f, guards, key, o) && Mutex(guards, key) == k && o.fn == g ensures g in AccessFunctions(a, k) {
      assert Unguarded(a, key, o) && GuardOf(a, key) == k;
    }
  }

  lemma {:induction false} LeadsAlike(f: Facts, guards: Guards, a: Analysis, from: Fn, k: Key)
    requires Models(f, guards, a)
    ensures LeadsToNeed(f, guards, from, k) <==>
      LeadsTo(a.sites, Unsatisfied(a, k), from, Having(f.needs, k) + AccessFunctions(a, k))
  {
    forall ss, to
      ensures Chain(f.sites, Open(f, k), from, ss, to) <==> Chain(a.sites, Unsatisfied(a, k), from, ss, to)
    {
      OpenIsUnsatisfied(f, guards, a, k, from, ss, to);
    }
    forall to ensures NeedsItself(f, guards, to, k) <==> to in Having(f.needs, k) + AccessFunctions(a, k) {
      NeedsAlike(f, guards, a, to, k);
    }
  }

  lemma {:induction false} AcquiresAlike(f: Facts, from: Fn, k: Key)
    ensures LeadsToAcquisition(f, from, k) <==> LeadsTo(f.sites, AnyCall(), from, Having(f.acquires, k))
  {
    assert forall to :: to in Having(f.acquires, k) <==> to in f.acquires && k in f.acquires[to];
  }

  // ----- The reports, one kind at a time

  /** What both checks report, on propagated facts. */
  ghost predicate Checked(a: Analysis, needs: Table, acquired: Table, reports: set<Report>) {
    && (forall key, o :: UnguardedAccess(key, o) in reports <==> AccessReported(a, needs, key, o))
    && (forall key, o :: WriteUnderSharedLock(key, o) in reports <==> SharedWriteReported(a, key, o))
    && (forall s, k :: MissingLock(s, k) in reports <==> MissingReported(a, needs, s, k))
    && (forall s, k :: DoubleLockAtCall(s, k) in reports <==> DoubleReported(a, acquired, s, k))
  }

  method Check(a: Analysis, needs: Table, acquired: Table) returns (reports: set<Report>)
    ensures Checked(a, needs, acquired, reports)
  {
    var direct := CheckViolations(a, needs);
    var across := CheckInterproceduralViolations(a, needs, acquired);
    reports := direct + across;
  }

  /** The facts have been propagated to the end. */
  ghost predicate Settled(f: Facts, guards: Guards, a: Analysis, start: Table, needs: Table, acquired: Table) {
    && Models(f, guards, a) && Propagated(a, f.needs, start, needs)
    && Exact(CallSpread(a.sites), f.acquires, acquired)
  }

  lemma {:induction false} AccessReports(f: Facts, guards: Guards, a: Analysis, start: Table, needs: Table,
                                         acquired: Table, key: FieldKey, o: Observation)
    requires Settled(f, guards, a, start, needs, acquired)
    ensures AccessReported(a, needs, key, o) <==> Bare(f, guards, key, o) && IsRoot(f, o.fn)
    ensures SharedWriteReported(a, key, o) <==>
      Accesses(f, guards, key, o) && !o.isRead && Concurrent(f, o.fn) && SharedFirst(o, guards[key].mutexFieldIndex)
  {
    AccessIsReportedAtRoots(a, f.needs, start, needs, key, o);
    BareIsUnguarded(f, guards, a, key, o);
    RootIsRoot(f, guards, a, o.fn);
  }

  lemma {:induction false} CallReports(f: Facts, guards: Guards, a: Analysis, start: Table, needs: Table,
                                       acquired: Table, s: CallSite, k: Key)
    requires Settled(f, guards, a, start, needs, acquired)
    ensures MissingReported(a, needs, s, k) <==>
      s in f.sites && IsRoot(f, s.caller) && k !in s.held && !f.prePub(s) && LeadsToNeed(f, guards, s.callee, k)
    ensures DoubleReported(a, acquired, s, k) <==>
      s in f.sites && Concurrent(f, s.caller) && k in s.held && LeadsToAcquisition(f, s.callee, k)
  {
    MissingLockIsReportedAtRoots(a, f.needs, start, needs, s, k);
    RootIsRoot(f, guards, a, s.caller);
    LeadsAlike(f, guards, a, s.callee, k);
    DoubleLockIsReportedExactly(a, f.acquires, acquired, s, k);
    AcquiresAlike(f, s.callee, k);
  }

  lemma {:induction false} AccountsAlike(f: Facts, guards: Guards, a: Analysis, needs: Table, acquired: Table,
                                         reports: set<Report>, key: FieldKey, o: Observation)
    requires Models(f, guards, a) && Checked(a, needs, acquired, reports) && key in guards
    ensures AccountedFor(f, guards, reports, key, o) <==> Accounted(a, needs, key, o)
  {
    var k := Mutex(guards, key);
    forall s: CallSite, ss: seq<CallSite>
      ensures Chain(f.sites, Open(f, k), s.callee, ss, o.fn) <==> Chain(a.sites, Unsatisfied(a, k), s.callee, ss, o.fn)
    {
      OpenIsUnsatisfied(f, guards, a, k, s.callee, ss, o.fn);
    }
    assert k == GuardOf(a, key);
    if AccountedFor(f, guards, reports, key, o) && UnguardedAccess(key, o) !in reports {
      var s: CallSite, ss: seq<CallSite> :|
        MissingLock(s, k) in reports && Chain(f.sites, Open(f, k), s.callee, ss, o.fn);
      assert MissingReported(a, needs, s, k) && Chain(a.sites, Unsatisfied(a, k), s.callee, ss, o.fn);
    }
    if Accounted(a, needs, key, o) && !AccessReported(a, needs, key, o) {
      var s: CallSite, ss: seq<CallSite> :|
        MissingReported(a, needs, s, k) && Chain(a.sites, Unsatisfied(a, k), s.callee, ss, o.fn);
      assert MissingLock(s, k) in reports && Chain(f.sites, Open(f, k), s.callee, ss, o.fn);
    }
  }

  lemma {:induction false} RootsAlike(f: Facts, guards: Guards, a: Analysis, k: Key, g: Fn)
    requires Models(f, guards, a)
    ensures RootLeadsTo(f, k, g) <==> RootAbove(a, k, g)
  {
    forall from: Fn, ss: seq<CallSite>
      ensures Chain(f.sites, Open(f, k), from, ss, g) <==> Chain(a.sites, Unsatisfied(a, k), from, ss, g)
    {
      OpenIsUnsatisfied(f, guards, a, k, from, ss, g);
    }
    forall root: Fn ensures IsRoot(f, root) <==> Root(a, root) { RootIsRoot(f, guards, a, root); }
  }

  lemma {:induction false} ReportsAreExact(f: Facts, guards: Guards, a: Analysis, start: Table, needs: Table,
                                           acquired: Table, reports: set<Report>)
    requires Settled(f, guards, a, start, needs, acquired) && Checked(a, needs, acquired, reports)
    ensures ReportsExactly(f, guards, reports)
  {
    forall key, o
      ensures AccessReported(a, needs, key, o) <==> Bare(f, guards, key, o) && IsRoot(f, o.fn)
      ensures SharedWriteReported(a, key, o) <==>
        Accesses(f, guards, key, o) && !o.isRead && Concurrent(f, o.fn) && SharedFirst(o, guards[key].mutexFieldIndex)
    {
      AccessReports(f, guards, a, start, needs, acquired, key, o);
    }
    forall s, k
      ensures MissingReported(a, needs, s, k) <==>
        s in f.sites && IsRoot(f, s.caller) && k !in s.held && !f.prePub(s) && LeadsToNeed(f, guards, s.callee, k)
      ensures DoubleReported(a, acquired, s, k) <==>
        s in f.sites && Concurrent(f, s.caller) && k in s.held && LeadsToAcquisition(f, s.callee, k)
    {
      CallReports(f, guards, a, start, needs, acquired, s, k);
    }
    forall key, o | Bare(f, guards, key, o)
      ensures AccountedFor(f, guards, reports, key, o) <==> RootLeadsTo(f, Mutex(guards, key), o.fn)
    {
      BareIsUnguarded(f, guards, a, key, o);
      AccessIsAccountedForIffRootAbove(a, f.needs, start, needs, key, o);
      AccountsAlike(f, guards, a, needs, acquired, reports, key, o);
      RootsAlike(f, guards, a, Mutex(guards, key), o.fn);
    }
  }

  // ----- All phases

  ghost function Accessors(f: Facts, guards: Guards): set<Fn> {
    set key, o | key in f.observations && o in f.observations[key] && Bare(f, guards, key, o) :: o.fn
  }

  /** There are no more functions than sweeps allowed, 1000. */
  ghost predicate Small(f: Facts, guards: Guards) {
    && |Functions(f.sites, f.needs) + Accessors(f, guards)| <= 1000
    && |Functions(f.sites, f.acquires)| <= 1000
  }

  /** From observations to reports.  If neither propagation was cut off (none is with up to 1000 functions), an
      unguarded access is reported exactly at a root, a missing lock exactly at the first hop of an open chain
      from a root, and so an access is accounted for exactly when such a chain leads to it; double locks are
      exactly the calls holding what a reachable function acquires. */
  method AnalyzeAccesses(f: Facts) returns (guards: Guards, reports: set<Report>, complete: bool)
    ensures forall key :: GuardDecided(f, key, GuardAt(guards, key))
    ensures complete ==> ReportsExactly(f, guards, reports)
    ensures Small(f, guards) ==> complete
  {
    guards := InferGuards(f);
    var concurrent := ComputeConcurrentContext(f.entrypoints, f.sites);
    var a := Analysis(guards, f.observations, f.isConstructor, f.sites, f.prePub, concurrent);
    var start := DeriveInitialRequirements(a, f.needs);
    FewFunctions(f, guards, a, start);
    var propagation := new Propagation(f.sites, f.prePub, start, f.acquires);
    var needsDone := propagation.PropagateNeeds();
    var acquiredDone := propagation.PropagateAcquired();
    complete := needsDone && acquiredDone;
    reports := Check(a, propagation.needs, propagation.acquired);
    if complete { ReportsAreExact(f, guards, a, start, propagation.needs, propagation.acquired, reports); }
  }

  lemma {:induction false} FewFunctions(f: Facts, guards: Guards, a: Analysis, start: Table)
    requires Models(f, guards, a) && start.Keys <= f.needs.Keys + Accessing(a)
    ensures Small(f, guards) ==> |Functions(f.sites, start)| <= 1000
  {
    var all := Functions(f.sites, f.needs) + Accessors(f, guards);
    forall g | g in Functions(f.sites, start) ensures g in all {
      if g in Accessing(a) {
        var key, o :| key in a.guards && o in ObservationsOf(a, key) && Violates(a, key, o) && o.fn == g;
        BareIsUnguarded(f, guards, a, key, o);
      }
    }
    SubsetIsNoLarger(Functions(f.sites, start), all);
  }
}
