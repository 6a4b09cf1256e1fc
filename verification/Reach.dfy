/** Reachability in a finite relation on functions: by chains, by levels, and by closed sets. */
module Reach {
  import opened Types
  import opened Sets

  /** `(a, b)` in the relation means that `b` follows from `a`. */
  type Relation = set<(Fn, Fn)>

  /** A chain of steps that starts in `init`. */
  ghost predicate IsChain(rel: Relation, init: set<Fn>, chain: seq<Fn>) {
    && |chain| > 0 && chain[0] in init
    && forall i, j :: 0 <= i < |chain| && j == i + 1 && j < |chain| ==> (chain[i], chain[j]) in rel
  }

  /** Reachable in any number of steps: the reference definition. */
  ghost predicate Reachable(rel: Relation, init: set<Fn>, x: Fn) {
    exists chain :: IsChain(rel, init, chain) && chain[|chain| - 1] == x
  }

  ghost predicate Closed(rel: Relation, s: set<Fn>) {
    forall a, b :: (a, b) in rel && a in s ==> b in s
  }

  ghost function Next(rel: Relation, s: set<Fn>): set<Fn> {
    s + set e | e in rel && e.0 in s :: e.1
  }

  /** Reachable in at most `n` steps. */
  ghost function Within(rel: Relation, init: set<Fn>, n: nat): set<Fn> {
    if n == 0 then init else Next(rel, Within(rel, init, n - 1))
  }

  lemma {:induction false} WithinHasChain(rel: Relation, init: set<Fn>, n: nat, x: Fn) returns (chain: seq<Fn>)
    requires x in Within(rel, init, n)
    ensures IsChain(rel, init, chain) && chain[|chain| - 1] == x && |chain| <= n + 1
  {
    if x in init {
      chain := [x];
    } else if n > 0 && x in Within(rel, init, n - 1) {
      chain := WithinHasChain(rel, init, n - 1, x);
    } else {
      var e :| e in rel && e.0 in Within(rel, init, n - 1) && e.1 == x;
      var prefix := WithinHasChain(rel, init, n - 1, e.0);
      chain := ExtendChain(rel, init, prefix, x);
    }
  }

  lemma {:induction false} ExtendChain(rel: Relation, init: set<Fn>, prefix: seq<Fn>, x: Fn) returns (chain: seq<Fn>)
    requires IsChain(rel, init, prefix) && (prefix[|prefix| - 1], x) in rel
    ensures chain == prefix + [x] && IsChain(rel, init, chain)
  {
    chain := prefix + [x];
    forall i, j | 0 <= i < |chain| && j == i + 1 && j < |chain| ensures (chain[i], chain[j]) in rel {
      if j < |prefix| { assert (prefix[i], prefix[j]) in rel; }
    }
  }

  lemma {:induction false} ChainIsWithin(rel: Relation, init: set<Fn>, chain: seq<Fn>)
    requires IsChain(rel, init, chain)
    ensures chain[|chain| - 1] in Within(rel, init, |chain| - 1)
  {
    if |chain| > 1 {
      var n := |chain| - 1;
      var prefix := chain[..n];
      assert forall i :: 0 <= i < n ==> prefix[i] == chain[i];
      ChainIsWithin(rel, init, prefix);
      assert (chain[n - 1], chain[n]) in rel;
    }
  }

  lemma {:induction false} ReachableAtSomeLevel(rel: Relation, init: set<Fn>, x: Fn) returns (m: nat)
    requires Reachable(rel, init, x)
    ensures x in Within(rel, init, m)
  {
    var chain :| IsChain(rel, init, chain) && chain[|chain| - 1] == x;
    ChainIsWithin(rel, init, chain);
    m := |chain| - 1;
  }

  /** A closed set that contains the start contains everything reachable. */
  lemma {:induction false} ClosedContainsWithin(rel: Relation, init: set<Fn>, s: set<Fn>, n: nat)
    requires init <= s && Closed(rel, s)
    ensures Within(rel, init, n) <= s
  {
    if n > 0 { ClosedContainsWithin(rel, init, s, n - 1); }
  }

  /** A closed set that contains the start and nothing unreachable is the reachable set. */
  lemma {:induction false} ClosedIsReachable(rel: Relation, init: set<Fn>, s: set<Fn>)
    requires init <= s && Closed(rel, s) && forall x :: x in s ==> Reachable(rel, init, x)
    ensures forall x :: x in s <==> Reachable(rel, init, x)
  {
    forall x | Reachable(rel, init, x) ensures x in s {
      var m := ReachableAtSomeLevel(rel, init, x);
      ClosedContainsWithin(rel, init, s, m);
    }
  }

  lemma {:induction false} StepIsReachable(rel: Relation, init: set<Fn>, a: Fn, b: Fn)
    requires Reachable(rel, init, a) && (a, b) in rel
    ensures Reachable(rel, init, b)
  {
    var prefix :| IsChain(rel, init, prefix) && prefix[|prefix| - 1] == a;
    var chain := ExtendChain(rel, init, prefix, b);
    assert chain[|chain| - 1] == b;
  }

  lemma {:induction false} StartIsReachable(rel: Relation, init: set<Fn>, x: Fn)
    requires x in init
    ensures Reachable(rel, init, x)
  {
    assert IsChain(rel, init, [x]) && [x][0] == x;
  }

  // ----- How many steps are enough

  lemma {:induction false} WithinGrows(rel: Relation, init: set<Fn>, m: nat, n: nat)
    requires m <= n
    ensures Within(rel, init, m) <= Within(rel, init, n)
    decreases n
  {
    if m < n { WithinGrows(rel, init, m, n - 1); }
  }

  lemma {:induction false} StableForever(rel: Relation, init: set<Fn>, m: nat, n: nat)
    requires m <= n && Within(rel, init, m + 1) == Within(rel, init, m)
    ensures Within(rel, init, n) == Within(rel, init, m)
    decreases n
  {
    if m < n {
      StableForever(rel, init, m, n - 1);
      assert Within(rel, init, n) == Next(rel, Within(rel, init, m)) == Within(rel, init, m + 1);
    }
  }

  ghost predicate Inside(rel: Relation, init: set<Fn>, nodes: set<Fn>) {
    init <= nodes && forall e :: e in rel ==> e.1 in nodes
  }

  lemma {:induction false} StrictlyLarger(a: set<Fn>, b: set<Fn>)
    requires a <= b && a != b
    ensures |a| < |b|
  {
    SubsetIsNoLarger(a, b);
    if |a| == |b| { SubsetOfSameSize(a, b); }
  }

  lemma {:induction false} NextOfEmpty(rel: Relation)
    ensures Next(rel, {}) == {}
  {
  }

  /** Each level adds an element until nothing changes any more. */
  lemma {:induction false} LevelsGrowOrStop(rel: Relation, init: set<Fn>, n: nat)
    ensures Within(rel, init, n + 1) == Within(rel, init, n) || |Within(rel, init, n + 1)| >= n + 2
  {
    var now := Within(rel, init, n);
    var next := Next(rel, now);
    assert Within(rel, init, n + 1) == next;
    if next != now {
      StrictlyLarger(now, next);
      if n == 0 {
        NextOfEmpty(rel);
      } else {
        LevelsGrowOrStop(rel, init, n - 1);
      }
    }
  }

  lemma {:induction false} WithinInside(rel: Relation, init: set<Fn>, nodes: set<Fn>, n: nat)
    requires Inside(rel, init, nodes)
    ensures Within(rel, init, n) <= nodes
  {
    if n > 0 { WithinInside(rel, init, nodes, n - 1); }
  }

  lemma {:induction false} StableAt(rel: Relation, init: set<Fn>, nodes: set<Fn>, n: nat)
    requires Inside(rel, init, nodes) && |nodes| <= n + 1
    ensures Within(rel, init, n + 1) == Within(rel, init, n)
  {
    LevelsGrowOrStop(rel, init, n);
    WithinInside(rel, init, nodes, n + 1);
    SubsetIsNoLarger(Within(rel, init, n + 1), nodes);
  }

  /** On `k` nodes everything reachable is reachable in fewer than `k` steps. */
  lemma {:induction false} FewStepsSuffice(rel: Relation, init: set<Fn>, nodes: set<Fn>, n: nat, x: Fn)
    requires Inside(rel, init, nodes) && |nodes| <= n + 1 && Reachable(rel, init, x)
    ensures x in Within(rel, init, n)
  {
    var m := ReachableAtSomeLevel(rel, init, x);
    if m <= n {
      WithinGrows(rel, init, m, n);
    } else {
      StableAt(rel, init, nodes, n);
      StableForever(rel, init, n, m);
    }
  }
}
