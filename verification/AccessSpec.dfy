/** What the access-checking phases are to report, in terms of the facts they start from alone: observations, call
    sites and imported facts. */
module AccessSpec {
  import opened Types
  import opened Observations
  import opened FixedPoint
  import opened CallChains
  import opened Inference

  datatype Report =
    | UnguardedAccess(key: FieldKey, obs: Observation)
    | WriteUnderSharedLock(key: FieldKey, obs: Observation)
    | MissingLock(site: CallSite, mutex: Key)
    | DoubleLockAtCall(site: CallSite, mutex: Key)

  /** What the walks and the imported facts deliver. */
  datatype Facts = Facts(
    observations: map<FieldKey, seq<Observation>>, isLocal: StructType -> bool, isConstructor: ConstructorLike,
    sites: seq<CallSite>, prePub: CallSite -> bool, entrypoints: set<Fn>,
    guards: map<FieldKey, Guard>, needs: Table, acquires: Table)

  // ----- Guards

  type Guards = map<FieldKey, Guard>

  function GuardAt(guards: Guards, key: FieldKey): Option<Guard> {
    if key in guards then Some(guards[key]) else None
  }

  /** `kept` are the observations outside constructors, each as often as it occurs and in their order: `idx` are
      their positions. */
  ghost predicate KeptAt(f: Facts, key: FieldKey, obs: seq<Observation>, kept: seq<Observation>, idx: seq<nat>) {
    && |idx| == |kept| && (forall m, n :: 0 <= m < n < |idx| ==> idx[m] < idx[n])
    && (forall n :: 0 <= n < |idx| ==> idx[n] < |obs| && kept[n] == obs[idx[n]])
    && (forall i :: 0 <= i < |obs| ==> (i in idx <==> !f.isConstructor(obs[i].fn, key.structType)))
  }

  ghost predicate OutsideConstructors(f: Facts, key: FieldKey, obs: seq<Observation>, kept: seq<Observation>) {
    exists idx :: KeptAt(f, key, obs, kept, idx)
  }

  /** Mutex `m` has most votes among the accesses, or among the writes only; the smallest such index. */
  ghost predicate Elected(self: nat, obs: seq<Observation>, writesOnly: bool, m: nat) {
    && Ballots(self, obs, writesOnly, m) != {}
    && (forall j: nat :: |Ballots(self, obs, writesOnly, j)| <= |Ballots(self, obs, writesOnly, m)|)
    && (forall j: nat :: j < m ==> |Ballots(self, obs, writesOnly, j)| < |Ballots(self, obs, writesOnly, m)|)
  }

  /** Some access, or some write, holds a mutex other than the field itself. */
  ghost predicate Voted(self: nat, obs: seq<Observation>, writesOnly: bool) {
    exists j: nat :: Ballots(self, obs, writesOnly, j) != {}
  }

  /** The writes elect the guard, and then it is needed exclusively; without their votes all accesses do. */
  ghost predicate Shows(self: nat, obs: seq<Observation>, guard: Option<Guard>) {
    if Voted(self, obs, true) then
      guard.Some? && Elected(self, obs, true, guard.value.mutexFieldIndex) && guard.value.needsExclusive
    else if Voted(self, obs, false) then
      guard.Some? && Elected(self, obs, false, guard.value.mutexFieldIndex) && !guard.value.needsExclusive
    else guard.None?
  }

  /** A field written outside constructors gets the guard its accesses there show, if any. */
  ghost predicate GuardFrom(f: Facts, key: FieldKey, kept: seq<Observation>, guard: Option<Guard>) {
    if exists o :: o in kept && !o.isRead
    then exists g :: Shows(key.fieldIndex, kept, g) && guard == if g.Some? then g else GuardAt(f.guards, key)
    else guard == GuardAt(f.guards, key)
  }

  /** Only fields of local types are looked at; every other field keeps the imported guard. */
  ghost predicate GuardDecided(f: Facts, key: FieldKey, guard: Option<Guard>) {
    if key in f.observations && f.isLocal(key.structType)
    then exists kept :: OutsideConstructors(f, key, f.observations[key], kept) && GuardFrom(f, key, kept, guard)
    else guard == GuardAt(f.guards, key)
  }

  // ----- Reports

  /** The mutex that guards the field. */
  function Mutex(guards: Guards, key: FieldKey): Key
    requires key in guards
  {
    Key(key.structType, guards[key].mutexFieldIndex)
  }

  /** An observed access of a guarded field, outside constructors. */
  ghost predicate Accesses(f: Facts, guards: Guards, key: FieldKey, o: Observation) {
    && key in guards && key in f.observations && o in f.observations[key]
    && !f.isConstructor(o.fn, key.structType)
  }

  /** It does not hold the guard. */
  ghost predicate Bare(f: Facts, guards: Guards, key: FieldKey, o: Observation) {
    && Accesses(f, guards, key, o)
    && forall i :: 0 <= i < |o.held| ==> o.held[i].fieldIndex != guards[key].mutexFieldIndex
  }

  /** It holds the guard, whose first entry is shared. */
  ghost predicate SharedFirst(o: Observation, index: nat) {
    exists i ::
      && 0 <= i < |o.held| && o.held[i] == HeldField(index, false)
      && forall j :: 0 <= j < i ==> o.held[j].fieldIndex != index
  }

  /** The call neither holds `k` nor happens before publication. */
  function Open(f: Facts, k: Key): SiteTest {
    (s: CallSite) => k !in s.held && !f.prePub(s)
  }

  /** There are no entrypoints, or calls lead from one of them to `g`. */
  ghost predicate Concurrent(f: Facts, g: Fn) {
    f.entrypoints == {} || CalledFrom(f.sites, AnyCall(), f.entrypoints, g)
  }

  /** A concurrent function that no recorded call calls. */
  ghost predicate IsRoot(f: Facts, g: Fn) {
    Concurrent(f, g) && forall s :: s in f.sites ==> s.callee != g
  }

  /** `g` needs `k` by itself: imported, or because it has a bare access to a field that `k` guards. */
  ghost predicate NeedsItself(f: Facts, guards: Guards, g: Fn, k: Key) {
    || (g in f.needs && k in f.needs[g])
    || exists key, o :: Bare(f, guards, key, o) && Mutex(guards, key) == k && o.fn == g
  }

  ghost predicate LeadsToNeed(f: Facts, guards: Guards, from: Fn, k: Key) {
    exists ss: seq<CallSite>, to: Fn :: Chain(f.sites, Open(f, k), from, ss, to) && NeedsItself(f, guards, to, k)
  }

  ghost predicate LeadsToAcquisition(f: Facts, from: Fn, k: Key) {
    exists ss: seq<CallSite>, to: Fn ::
      Chain(f.sites, AnyCall(), from, ss, to) && to in f.acquires && k in f.acquires[to]
  }

  /** The access is reported, or a missing lock at a call from which an open chain leads to it. */
  ghost predicate AccountedFor(f: Facts, guards: Guards, reports: set<Report>, key: FieldKey, o: Observation)
    requires key in guards
  {
    var k := Mutex(guards, key);
    || UnguardedAccess(key, o) in reports
    || exists s: CallSite, ss: seq<CallSite> ::
         MissingLock(s, k) in reports && Chain(f.sites, Open(f, k), s.callee, ss, o.fn)
  }

  ghost predicate RootLeadsTo(f: Facts, k: Key, g: Fn) {
    exists root: Fn, ss: seq<CallSite> :: IsRoot(f, root) && Chain(f.sites, Open(f, k), root, ss, g)
  }

  /** The four kinds of report, and which accesses they account for. */
  ghost predicate ReportsExactly(f: Facts, guards: Guards, reports: set<Report>) {
    && (forall key, o :: UnguardedAccess(key, o) in reports <==> Bare(f, guards, key, o) && IsRoot(f, o.fn))
    && (forall key, o :: WriteUnderSharedLock(key, o) in reports <==>
          Accesses(f, guards, key, o) && !o.isRead && Concurrent(f, o.fn)
          && SharedFirst(o, guards[key].mutexFieldIndex))
    && (forall s, k :: MissingLock(s, k) in reports <==>
          s in f.sites && IsRoot(f, s.caller) && k !in s.held && !f.prePub(s) && LeadsToNeed(f, guards, s.callee, k))
    && (forall s, k :: DoubleLockAtCall(s, k) in reports <==>
          s in f.sites && Concurrent(f, s.caller) && k in s.held && LeadsToAcquisition(f, s.callee, k))
    && (forall key, o :: Bare(f, guards, key, o) ==>
          (AccountedFor(f, guards, reports, key, o) <==> RootLeadsTo(f, Mutex(guards, key), o.fn)))
  }
}
