/** Chaotic iteration with a sweep limit: what a table of facts per function contains after each sweep. */
module FixedPoint {
  import opened Types
  import opened Reach

  /** A set of lock keys per function; absent functions have none. */
  type Table = map<Fn, set<Key>>

  /** How a fact about a key spreads from function to function. */
  type Spread = Key -> Relation

  function At(t: Table, f: Fn): set<Key> {
    if f in t then t[f] else {}
  }

  function Having(t: Table, k: Key): set<Fn> {
    set f | f in t && k in t[f]
  }

  function Add(t: Table, f: Fn, k: Key): Table {
    t[f := At(t, f) + {k}]
  }

  lemma {:induction false} HavingAfterAdd(t: Table, f: Fn, k: Key, j: Key)
    ensures Having(Add(t, f, k), j) == if j == k then Having(t, j) + {f} else Having(t, j)
  {
  }

  /** Everything in `t` is reachable from what was in `start`. */
  ghost predicate Sound(spread: Spread, start: Table, t: Table) {
    forall k, f :: f in Having(t, k) ==> Reachable(spread(k), Having(start, k), f)
  }

  /** `t` contains everything reachable in at most `n` hops. */
  ghost predicate Covers(spread: Spread, start: Table, t: Table, n: nat) {
    forall k :: Within(spread(k), Having(start, k), n) <= Having(t, k)
  }

  ghost predicate Stable(spread: Spread, t: Table) {
    forall k :: Reach.Closed(spread(k), Having(t, k))
  }

  /** `t` contains exactly what is reachable from `start`. */
  ghost predicate Exact(spread: Spread, start: Table, t: Table) {
    forall k, f :: f in Having(t, k) <==> Reachable(spread(k), Having(start, k), f)
  }

  /** One sweep: every fact present at the start has been pushed over every hop. */
  ghost predicate Swept(spread: Spread, before: Table, after: Table, changed: bool) {
    && (forall k :: Having(before, k) <= Having(after, k))
    && (forall k, a, b :: (a, b) in spread(k) && a in Having(before, k) ==> b in Having(after, k))
    && (!changed ==> forall k :: Having(after, k) == Having(before, k))
    && (changed ==> exists k, f :: f in Having(after, k) && f !in Having(before, k))
  }

  ghost predicate AllInside(spread: Spread, start: Table, fns: set<Fn>) {
    forall k :: Inside(spread(k), Having(start, k), fns)
  }

  /** What holds after `i` sweeps. */
  ghost predicate Progress(spread: Spread, start: Table, fns: set<Fn>, t: Table, i: nat, changed: bool) {
    && Sound(spread, start, t) && Covers(spread, start, t, i)
    && (!changed ==> Stable(spread, t))
    && (changed && i > 0 ==> i < |fns|)
  }

  lemma {:induction false} ProgressStart(spread: Spread, start: Table, fns: set<Fn>)
    ensures Progress(spread, start, fns, start, 0, true)
  {
    forall k, f | f in Having(start, k) ensures Reachable(spread(k), Having(start, k), f) {
      StartIsReachable(spread(k), Having(start, k), f);
    }
  }

  lemma {:induction false} SweepCovers(spread: Spread, start: Table, before: Table, after: Table, i: nat, changed: bool)
    requires Covers(spread, start, before, i) && Swept(spread, before, after, changed)
    ensures Covers(spread, start, after, i + 1)
  {
    forall k, f | f in Within(spread(k), Having(start, k), i + 1) ensures f in Having(after, k) {
      var prev := Within(spread(k), Having(start, k), i);
      if f !in prev {
        var e :| e in spread(k) && e.0 in prev && e.1 == f;
        assert (e.0, f) in spread(k);
      }
    }
  }

  lemma {:induction false} UnchangedIsStable(spread: Spread, before: Table, after: Table)
    requires Swept(spread, before, after, false)
    ensures Stable(spread, after)
  {
  }

  /** A sweep that still changed something was needed: there are more functions than sweeps. */
  lemma {:induction false} ChangeMeansMoreFunctions(spread: Spread, start: Table, fns: set<Fn>, before: Table,
                                                    after: Table, i: nat)
    requires Covers(spread, start, before, i) && Swept(spread, before, after, true)
    requires Sound(spread, start, after) && AllInside(spread, start, fns)
    ensures i + 1 < |fns|
  {
    var k, f :| f in Having(after, k) && f !in Having(before, k);
    assert f !in Within(spread(k), Having(start, k), i);
    if |fns| <= i + 1 { FewStepsSuffice(spread(k), Having(start, k), fns, i, f); }
  }

  lemma {:induction false} ProgressStep(spread: Spread, start: Table, fns: set<Fn>, before: Table, after: Table, i: nat,
                                        was: bool, changed: bool)
    requires Progress(spread, start, fns, before, i, was) && AllInside(spread, start, fns)
    requires Swept(spread, before, after, changed) && Sound(spread, start, after)
    ensures Progress(spread, start, fns, after, i + 1, changed)
  {
    SweepCovers(spread, start, before, after, i, changed);
    if changed {
      ChangeMeansMoreFunctions(spread, start, fns, before, after, i);
    } else {
      UnchangedIsStable(spread, before, after);
    }
  }

  /** A stable, sound table that contains the start is exact. */
  lemma {:induction false} StableIsExact(spread: Spread, start: Table, t: Table, i: nat)
    requires Sound(spread, start, t) && Covers(spread, start, t, i) && Stable(spread, t)
    ensures Exact(spread, start, t)
  {
    forall k, f ensures f in Having(t, k) <==> Reachable(spread(k), Having(start, k), f) {
      WithinGrows(spread(k), Having(start, k), 0, i);
      ClosedIsReachable(spread(k), Having(start, k), Having(t, k));
    }
  }
}
