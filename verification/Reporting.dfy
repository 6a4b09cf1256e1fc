/** Requirements derived from unguarded accesses, and where violations are reported
    (interprocedural.go:104-137, reporter.go:15-74 and 500-535). */
module Reporting {
  import opened Types
  import opened Reach
  import opened FixedPoint
  import opened Interprocedural
  import opened Concurrency
  import opened Observations
  import opened CallChains
  import opened AccessSpec

  /** What the reporting phases read. */
  datatype Analysis = Analysis(
    guards: map<FieldKey, Guard>, observations: map<FieldKey, seq<Observation>>, isConstructor: ConstructorLike,
    sites: seq<CallSite>, prePub: PrePublication, concurrent: Option<set<Fn>>)

  function ObservationsOf(a: Analysis, key: FieldKey): seq<Observation> {
    if key in a.observations then a.observations[key] else []
  }

  /** The mutex that guards field `key`. */
  function GuardOf(a: Analysis, key: FieldKey): Key
    requires key in a.guards
  {
    Key(key.structType, a.guards[key].mutexFieldIndex)
  }

  /** A non-constructor access that does not hold the guard. */
  predicate Violates(a: Analysis, key: FieldKey, o: Observation)
    requires key in a.guards
  {
    !a.isConstructor(o.fn, key.structType) && !HoldsField(o, a.guards[key].mutexFieldIndex)
  }

  predicate Unguarded(a: Analysis, key: FieldKey, o: Observation) {
    key in a.guards && o in ObservationsOf(a, key) && Violates(a, key, o)
  }

  /** The functions that access a field guarded by `k` without it. */
  ghost function AccessFunctions(a: Analysis, k: Key): set<Fn> {
    set key, o | key in a.guards && o in ObservationsOf(a, key) && Violates(a, key, o) && GuardOf(a, key) == k :: o.fn
  }

  /** The functions that access any guarded field without its guard. */
  ghost function Accessing(a: Analysis): set<Fn> {
    set key, o | key in a.guards && o in ObservationsOf(a, key) && Violates(a, key, o) :: o.fn
  }

  // ----- Initial requirements

  method Holds(o: Observation, index: nat) returns (held: bool, exclusive: bool)
    ensures held <==> HoldsField(o, index)
    ensures held ==> exists i :: 0 <= i < |o.held| && o.held[i] == HeldField(index, exclusive)
                                 && forall j :: 0 <= j < i ==> o.held[j].fieldIndex != index
  {
    var i := 0;
    while i < |o.held|
      invariant 0 <= i <= |o.held|
      invariant forall j :: 0 <= j < i ==> o.held[j].fieldIndex != index
    {
      if o.held[i].fieldIndex == index { return true, o.held[i].exclusive; }
      i := i + 1;
    }
    return false, false;
  }

  /** Functions among the first `n` observations of `key` that need its guard. */
  ghost function Needing(a: Analysis, key: FieldKey, n: nat, k: Key): set<Fn>
    requires key in a.guards && n <= |ObservationsOf(a, key)|
  {
    set i | 0 <= i < n && Violates(a, key, ObservationsOf(a, key)[i]) && GuardOf(a, key) == k ::
      ObservationsOf(a, key)[i].fn
  }

  ghost function NeedingAny(a: Analysis, keys: set<FieldKey>, k: Key): set<Fn>
    requires keys <= a.guards.Keys
  {
    set key, i | key in keys && 0 <= i < |ObservationsOf(a, key)| && Violates(a, key, ObservationsOf(a, key)[i])
                 && GuardOf(a, key) == k :: ObservationsOf(a, key)[i].fn
  }

  lemma {:induction false} NeedingStep(a: Analysis, key: FieldKey, i: nat, k: Key)
    requires key in a.guards && i < |ObservationsOf(a, key)|
    ensures var o := ObservationsOf(a, key)[i];
      Needing(a, key, i + 1, k)
        == Needing(a, key, i, k) + if Violates(a, key, o) && GuardOf(a, key) == k then {o.fn} else {}
  {
  }

  lemma {:induction false} ViolationIsAccess(a: Analysis, key: FieldKey, i: nat)
    requires key in a.guards && i < |ObservationsOf(a, key)| && Violates(a, key, ObservationsOf(a, key)[i])
    ensures ObservationsOf(a, key)[i].fn in Accessing(a)
  {
  }

  method DeriveForField(a: Analysis, key: FieldKey, needs: Table) returns (out: Table)
    requires key in a.guards
    ensures forall k :: Having(out, k) == Having(needs, k) + Needing(a, key, |ObservationsOf(a, key)|, k)
    ensures out.Keys <= needs.Keys + Accessing(a)
  {
    var obs := ObservationsOf(a, key);
    out := needs;
    var i := 0;
    while i < |obs|
      invariant 0 <= i <= |obs| && out.Keys <= needs.Keys + Accessing(a)
      invariant forall k :: Having(out, k) == Having(needs, k) + Needing(a, key, i, k)
    {
      ghost var before := out;
      if !a.isConstructor(obs[i].fn, key.structType) {
        var held, exclusive := Holds(obs[i], a.guards[key].mutexFieldIndex);
        if !held {
          ViolationIsAccess(a, key, i);
          out := Add(out, obs[i].fn, GuardOf(a, key));
        }
      }
      forall k ensures Having(out, k) == Having(needs, k) + Needing(a, key, i + 1, k) {
        HavingAfterAdd(before, obs[i].fn, GuardOf(a, key), k);
        NeedingStep(a, key, i, k);
      }
      i := i + 1;
    }
  }

  /** The requirements before propagation: imported ones and one for every unguarded access. */
  method DeriveInitialRequirements(a: Analysis, imported: Table) returns (needs: Table)
    ensures forall k :: Having(needs, k) == Having(imported, k) + AccessFunctions(a, k)
    ensures needs.Keys <= imported.Keys + Accessing(a)
  {
    needs := imported;
    var todo := a.guards.Keys;
    while todo != {}
      invariant todo <= a.guards.Keys && needs.Keys <= imported.Keys + Accessing(a)
      invariant forall k :: Having(needs, k) == Having(imported, k) + NeedingAny(a, a.guards.Keys - todo, k)
      decreases todo
    {
      var key :| key in todo;
      needs := DeriveForField(a, key, needs);
      forall k ensures NeedingAny(a, a.guards.Keys - (todo - {key}), k)
        == NeedingAny(a, a.guards.Keys - todo, k) + Needing(a, key, |ObservationsOf(a, key)|, k) {}
      todo := todo - {key};
    }
    forall k ensures NeedingAny(a, a.guards.Keys, k) == AccessFunctions(a, k) { AllNeeding(a, k); }
  }

  lemma {:induction false} AllNeeding(a: Analysis, k: Key)
    ensures NeedingAny(a, a.guards.Keys, k) == AccessFunctions(a, k)
  {
    forall f | f in AccessFunctions(a, k) ensures f in NeedingAny(a, a.guards.Keys, k) {
      var key, o :| key in a.guards && o in ObservationsOf(a, key) && Violates(a, key, o) && GuardOf(a, key) == k
        && o.fn == f;
      var i :| 0 <= i < |ObservationsOf(a, key)| && ObservationsOf(a, key)[i] == o;
    }
  }

  // ----- The checks

  predicate HasCallers(sites: seq<CallSite>, f: Fn) {
    exists i :: 0 <= i < |sites| && sites[i].callee == f
  }

  method FindCaller(sites: seq<CallSite>, f: Fn) returns (found: bool)
    ensures found <==> HasCallers(sites, f)
  {
    var i := 0;
    while i < |sites|
      invariant 0 <= i <= |sites| && forall j :: 0 <= j < i ==> sites[j].callee != f
    {
      if sites[i].callee == f { return true; }
      i := i + 1;
    }
    return false;
  }

  /** The violation is left to the call sites of `f`. */
  predicate Suppressed(a: Analysis, needs: Table, f: Fn, k: Key) {
    k in At(needs, f) && HasCallers(a.sites, f)
  }

  method ShouldSuppress(a: Analysis, needs: Table, f: Fn, k: Key) returns (suppress: bool)
    ensures suppress <==> Suppressed(a, needs, f, k)
    ensures suppress <==> f in needs && k in needs[f] && exists i :: 0 <= i < |a.sites| && a.sites[i].callee == f
  {
    if k !in At(needs, f) { return false; }
    suppress := FindCaller(a.sites, f);
  }

  predicate AccessReported(a: Analysis, needs: Table, key: FieldKey, o: Observation) {
    Unguarded(a, key, o) && IsConcurrent(a.concurrent, o.fn) && !Suppressed(a, needs, o.fn, GuardOf(a, key))
  }

  /** A write under the guard, which is (first) held shared. */
  ghost predicate SharedWriteReported(a: Analysis, key: FieldKey, o: Observation) {
    && key in a.guards && o in ObservationsOf(a, key) && !a.isConstructor(o.fn, key.structType)
    && !o.isRead && IsConcurrent(a.concurrent, o.fn)
    && exists i :: 0 <= i < |o.held| && o.held[i] == HeldField(a.guards[key].mutexFieldIndex, false)
                   && forall j :: 0 <= j < i ==> o.held[j].fieldIndex != a.guards[key].mutexFieldIndex
  }

  predicate MissingReported(a: Analysis, needs: Table, s: CallSite, k: Key) {
    && s in a.sites && IsConcurrent(a.concurrent, s.caller)
    && k in At(needs, s.callee) && PassesOn(a.prePub, s, k) && !Suppressed(a, needs, s.caller, k)
  }

  predicate DoubleReported(a: Analysis, acquired: Table, s: CallSite, k: Key) {
    s in a.sites && IsConcurrent(a.concurrent, s.caller) && k in At(acquired, s.callee) && k in s.held
  }

  /** What is reported about one observation of a guarded field. */
  ghost predicate ReportedFor(a: Analysis, needs: Table, key: FieldKey, o: Observation, r: Report) {
    || (r == UnguardedAccess(key, o) && AccessReported(a, needs, key, o))
    || (r == WriteUnderSharedLock(key, o) && SharedWriteReported(a, key, o))
  }

  method CheckObservation(a: Analysis, needs: Table, key: FieldKey, o: Observation) returns (found: set<Report>)
    requires key in a.guards && o in ObservationsOf(a, key)
    ensures forall r :: r in found <==> ReportedFor(a, needs, key, o, r)
  {
    if a.isConstructor(o.fn, key.structType) { return {}; }
    var held, exclusive := Holds(o, a.guards[key].mutexFieldIndex);
    if held && !o.isRead && !exclusive {
      return if IsConcurrent(a.concurrent, o.fn) then {WriteUnderSharedLock(key, o)} else {};
    }
    if held || !IsConcurrent(a.concurrent, o.fn) { return {}; }
    var suppress := ShouldSuppress(a, needs, o.fn, GuardOf(a, key));
    return if suppress then {} else {UnguardedAccess(key, o)};
  }

  method CheckField(a: Analysis, needs: Table, key: FieldKey) returns (found: set<Report>)
    requires key in a.guards
    ensures forall r :: r in found <==> exists o :: o in ObservationsOf(a, key) && ReportedFor(a, needs, key, o, r)
  {
    var obs := ObservationsOf(a, key);
    found := {};
    var i := 0;
    while i < |obs|
      invariant 0 <= i <= |obs|
      invariant forall r :: r in found <==> exists j :: 0 <= j < i && ReportedFor(a, needs, key, obs[j], r)
    {
      var more := CheckObservation(a, needs, key, obs[i]);
      found := found + more;
      i := i + 1;
    }
  }

  /** `checkViolations`. */
  method CheckViolations(a: Analysis, needs: Table) returns (found: set<Report>)
    ensures forall key, o :: UnguardedAccess(key, o) in found <==> AccessReported(a, needs, key, o)
    ensures forall key, o :: WriteUnderSharedLock(key, o) in found <==> SharedWriteReported(a, key, o)
    ensures forall r :: r in found ==> r.UnguardedAccess? || r.WriteUnderSharedLock?
  {
    found := {};
    var todo := a.guards.Keys;
    while todo != {}
      invariant todo <= a.guards.Keys
      invariant forall r :: r in found <==>
        exists key, o ::
          key in a.guards && key !in todo && o in ObservationsOf(a, key) && ReportedFor(a, needs, key, o, r)
      decreases todo
    {
      var key :| key in todo;
      var more := CheckField(a, needs, key);
      found := found + more;
      todo := todo - {key};
    }
  }

  method CheckSite(a: Analysis, needs: Table, acquired: Table, s: CallSite) returns (found: set<Report>)
    requires s in a.sites
    ensures forall r :: r in found <==>
      || (exists k :: r == MissingLock(s, k) && MissingReported(a, needs, s, k))
      || (exists k :: r == DoubleLockAtCall(s, k) && DoubleReported(a, acquired, s, k))
  {
    found := {};
    if !IsConcurrent(a.concurrent, s.caller) { return; }
    var todo := At(needs, s.callee);
    while todo != {}
      invariant todo <= At(needs, s.callee)
      invariant forall r :: r in found <==>
        exists k :: k !in todo && r == MissingLock(s, k) && MissingReported(a, needs, s, k)
      decreases todo
    {
      var k :| k in todo;
      if k !in s.held {
        var suppress := ShouldSuppress(a, needs, s.caller, k);
        if !suppress && !a.prePub(s) { found := found + {MissingLock(s, k)}; }
      }
      todo := todo - {k};
    }
    ghost var missing := found;
    todo := At(acquired, s.callee);
    while todo != {}
      invariant todo <= At(acquired, s.callee)
      invariant forall r :: r in found <==>
        r in missing || exists k :: k !in todo && r == DoubleLockAtCall(s, k) && DoubleReported(a, acquired, s, k)
      decreases todo
    {
      var k :| k in todo;
      if k in s.held { found := found + {DoubleLockAtCall(s, k)}; }
      todo := todo - {k};
    }
  }

  /** `checkInterproceduralViolations`. */
  method CheckInterproceduralViolations(a: Analysis, needs: Table, acquired: Table) returns (found: set<Report>)
    ensures forall s, k :: MissingLock(s, k) in found <==> MissingReported(a, needs, s, k)
    ensures forall s, k :: DoubleLockAtCall(s, k) in found <==> DoubleReported(a, acquired, s, k)
    ensures forall r :: r in found ==> r.MissingLock? || r.DoubleLockAtCall?
  {
    found := {};
    var i := 0;
    while i < |a.sites|
      invariant 0 <= i <= |a.sites|
      invariant forall s, k :: MissingLock(s, k) in found <==> s in a.sites[..i] && MissingReported(a, needs, s, k)
      invariant forall s, k :: DoubleLockAtCall(s, k) in found <==>
        s in a.sites[..i] && DoubleReported(a, acquired, s, k)
      invariant forall r :: r in found ==> r.MissingLock? || r.DoubleLockAtCall?
    {
      var more := CheckSite(a, needs, acquired, a.sites[i]);
      found := found + more;
      assert a.sites[..i + 1] == a.sites[..i] + [a.sites[i]];
      i := i + 1;
    }
  }

  // ----- Violations are reported at the root of the call chain

  /** The hop does not satisfy the requirement for `k`. */
  function Unsatisfied(a: Analysis, k: Key): SiteTest {
    s => PassesOn(a.prePub, s, k)
  }

  /** `start` holds the imported requirements and those of unguarded accesses; `needs` is its fixed point. */
  ghost predicate Propagated(a: Analysis, imported: Table, start: Table, needs: Table) {
    && (forall k :: Having(start, k) == Having(imported, k) + AccessFunctions(a, k))
    && Exact(NeedSpread(a.sites, a.prePub), start, needs)
  }

  /** A function that no recorded call reaches, running concurrently. */
  ghost predicate Root(a: Analysis, f: Fn) {
    IsConcurrent(a.concurrent, f) && !HasCallers(a.sites, f)
  }

  lemma {:induction false} NeedsIffChain(a: Analysis, imported: Table, start: Table, needs: Table, f: Fn, k: Key)
    requires Propagated(a, imported, start, needs)
    ensures k in At(needs, f) <==> LeadsTo(a.sites, Unsatisfied(a, k), f, Having(start, k))
  {
    assert NeedHops(a.sites, a.prePub, k) == Hops(a.sites, Unsatisfied(a, k));
    assert k in At(needs, f) <==> f in Having(needs, k);
    ReachableIffChain(a.sites, Unsatisfied(a, k), Having(start, k), f);
  }

  lemma {:induction false} CallerInheritsNeed(a: Analysis, imported: Table, start: Table, needs: Table, s: CallSite,
                                              k: Key)
    requires Propagated(a, imported, start, needs) && s in a.sites && PassesOn(a.prePub, s, k)
    requires k in At(needs, s.callee)
    ensures k in At(needs, s.caller)
  {
    var hops := NeedHops(a.sites, a.prePub, k);
    assert (s.callee, s.caller) in hops && s.callee in Having(needs, k);
    StepIsReachable(hops, Having(start, k), s.callee, s.caller);
    assert s.caller in Having(needs, k);
  }

  /** A missing lock is reported at a call exactly when the caller is a root and an unsatisfied chain leads
      from the callee down to an unguarded access or an imported requirement. */
  lemma {:induction false} MissingLockIsReportedAtRoots(a: Analysis, imported: Table, start: Table, needs: Table,
                                                        s: CallSite, k: Key)
    requires Propagated(a, imported, start, needs)
    ensures MissingReported(a, needs, s, k) <==>
      s in a.sites && Root(a, s.caller) && PassesOn(a.prePub, s, k)
      && LeadsTo(a.sites, Unsatisfied(a, k), s.callee, Having(imported, k) + AccessFunctions(a, k))
  {
    NeedsIffChain(a, imported, start, needs, s.callee, k);
    if s in a.sites && PassesOn(a.prePub, s, k) && k in At(needs, s.callee) {
      CallerInheritsNeed(a, imported, start, needs, s, k);
    }
  }

  /** An unguarded access is reported where it happens exactly when its function is a root. */
  lemma {:induction false} AccessIsReportedAtRoots(a: Analysis, imported: Table, start: Table, needs: Table,
                                                   key: FieldKey, o: Observation)
    requires Propagated(a, imported, start, needs)
    ensures AccessReported(a, needs, key, o) <==> Unguarded(a, key, o) && Root(a, o.fn)
  {
    if Unguarded(a, key, o) {
      var k := GuardOf(a, key);
      assert o.fn in AccessFunctions(a, k);
      StartIsReachable(NeedHops(a.sites, a.prePub, k), Having(start, k), o.fn);
      assert o.fn in Having(needs, k);
    }
  }

  /** The access itself is reported, or a call from which an unsatisfied chain leads to it. */
  ghost predicate Accounted(a: Analysis, needs: Table, key: FieldKey, o: Observation)
    requires key in a.guards
  {
    var k := GuardOf(a, key);
    AccessReported(a, needs, key, o)
    || exists s, ss :: MissingReported(a, needs, s, k) && Chain(a.sites, Unsatisfied(a, k), s.callee, ss, o.fn)
  }

  ghost predicate RootAbove(a: Analysis, k: Key, f: Fn) {
    exists root, ss :: Root(a, root) && Chain(a.sites, Unsatisfied(a, k), root, ss, f)
  }

  /** An unguarded access is accounted for exactly when some chain of unsatisfied calls leads to it from a
      concurrent function without callers; the report is at the first hop of the chain. */
  lemma {:induction false} AccessIsAccountedForIffRootAbove(a: Analysis, imported: Table, start: Table, needs: Table,
                                                            key: FieldKey, o: Observation)
    requires Propagated(a, imported, start, needs) && Unguarded(a, key, o)
    ensures Accounted(a, needs, key, o) <==> RootAbove(a, GuardOf(a, key), o.fn)
  {
    var k := GuardOf(a, key);
    AccessIsReportedAtRoots(a, imported, start, needs, key, o);
    if AccessReported(a, needs, key, o) {
      assert Chain(a.sites, Unsatisfied(a, k), o.fn, [], o.fn);
    } else if Accounted(a, needs, key, o) {
      var s, ss :| MissingReported(a, needs, s, k) && Chain(a.sites, Unsatisfied(a, k), s.callee, ss, o.fn);
      MissingLockIsReportedAtRoots(a, imported, start, needs, s, k);
      assert ([s] + ss)[1..] == ss;
      assert Chain(a.sites, Unsatisfied(a, k), s.caller, [s] + ss, o.fn);
    }
    if RootAbove(a, k, o.fn) {
      var root: Fn, ss: seq<CallSite> :| Root(a, root) && Chain(a.sites, Unsatisfied(a, k), root, ss, o.fn);
      FirstHopIsReported(a, imported, start, needs, key, o, root, ss);
      if ss != [] { assert Chain(a.sites, Unsatisfied(a, k), ss[0].callee, ss[1..], o.fn); }
    }
  }

  lemma {:induction false} FirstHopIsReported(a: Analysis, imported: Table, start: Table, needs: Table, key: FieldKey,
                                              o: Observation, root: Fn, ss: seq<CallSite>)
    requires Propagated(a, imported, start, needs) && Unguarded(a, key, o)
    requires Root(a, root) && Chain(a.sites, Unsatisfied(a, GuardOf(a, key)), root, ss, o.fn)
    ensures if ss == [] then AccessReported(a, needs, key, o) else MissingReported(a, needs, ss[0], GuardOf(a, key))
  {
    var k := GuardOf(a, key);
    if ss == [] {
      AccessIsReportedAtRoots(a, imported, start, needs, key, o);
    } else {
      assert o.fn in AccessFunctions(a, k);
      assert Chain(a.sites, Unsatisfied(a, k), ss[0].callee, ss[1..], o.fn);
      assert LeadsTo(a.sites, Unsatisfied(a, k), ss[0].callee, Having(imported, k) + AccessFunctions(a, k));
      MissingLockIsReportedAtRoots(a, imported, start, needs, ss[0], k);
    }
  }

  /** For a concurrent caller a double lock is reported exactly when the caller holds a lock that some
      function reachable from the callee acquires. */
  lemma {:induction false} DoubleLockIsReportedExactly(a: Analysis, direct: Table, acquired: Table, s: CallSite, k: Key)
    requires Exact(CallSpread(a.sites), direct, acquired)
    ensures DoubleReported(a, acquired, s, k) <==>
      s in a.sites && IsConcurrent(a.concurrent, s.caller) && k in s.held
      && LeadsTo(a.sites, AnyCall(), s.callee, Having(direct, k))
  {
    assert CallHops(a.sites) == Hops(a.sites, AnyCall());
    assert k in At(acquired, s.callee) <==> s.callee in Having(acquired, k);
    ReachableIffChain(a.sites, AnyCall(), Having(direct, k), s.callee);
  }

  // ----- Accesses without a root above them

  /** One unguarded write, in function 0, to a field that lock (0, 0) guards. */
  function OneAccess(sites: seq<CallSite>, concurrent: Option<set<Fn>>): Analysis {
    Analysis(map[FieldKey(0, 1) := Guard(0, true)], map[FieldKey(0, 1) := [Observation([], false, 0, 5)]],
             (_, _) => false, sites, _ => false, concurrent)
  }

  /** A function whose only caller is itself is never a root, so its access is not reported anywhere. */
  lemma {:induction false} RecursionHidesAnAccess(imported: Table, start: Table, needs: Table)
    requires Propagated(OneAccess([CallSite(0, 0, 1, {})], None), imported, start, needs)
    ensures var a := OneAccess([CallSite(0, 0, 1, {})], None); var o := Observation([], false, 0, 5);
      Unguarded(a, FieldKey(0, 1), o) && IsConcurrent(a.concurrent, o.fn) && !Accounted(a, needs, FieldKey(0, 1), o)
  {
    var a, o := OneAccess([CallSite(0, 0, 1, {})], None), Observation([], false, 0, 5);
    assert ObservationsOf(a, FieldKey(0, 1)) == [o];
    assert a.sites[0].callee == 0;
    AccessIsAccountedForIffRootAbove(a, imported, start, needs, FieldKey(0, 1), o);
  }

  /** A goroutine that is also called, without the lock, from code that is not concurrent: the access is
      left to the caller, and the caller is skipped. */
  lemma {:induction false} NonConcurrentCallerHidesAnAccess(imported: Table, start: Table, needs: Table)
    requires Propagated(OneAccess([CallSite(1, 0, 1, {})], Some({0})), imported, start, needs)
    ensures var a := OneAccess([CallSite(1, 0, 1, {})], Some({0})); var o := Observation([], false, 0, 5);
      Unguarded(a, FieldKey(0, 1), o) && IsConcurrent(a.concurrent, o.fn) && !Accounted(a, needs, FieldKey(0, 1), o)
  {
    var a, o := OneAccess([CallSite(1, 0, 1, {})], Some({0})), Observation([], false, 0, 5);
    assert ObservationsOf(a, FieldKey(0, 1)) == [o];
    assert a.sites[0].callee == 0;
    AccessIsAccountedForIffRootAbove(a, imported, start, needs, FieldKey(0, 1), o);
  }
}
