/** Guard inference for one field (inference.go:99-162). */
module Inference {
  import opened Types
  import opened Observations

  /** How often mutex field `index` occurs in a list of held fields. */
  function Occurrences(held: seq<HeldField>, index: nat): nat {
    if |held| == 0 then 0
    else Occurrences(held[..|held| - 1], index) + if held[|held| - 1].fieldIndex == index then 1 else 0
  }

  /** The votes of one observation for `index`; the field itself and, if asked, reads do not vote. */
  function Votes(self: nat, o: Observation, writesOnly: bool, index: nat): nat {
    if (writesOnly && o.isRead) || index == self then 0 else Occurrences(o.held, index)
  }

  function Count(self: nat, obs: seq<Observation>, writesOnly: bool, index: nat): nat {
    if |obs| == 0 then 0
    else Count(self, obs[..|obs| - 1], writesOnly, index) + Votes(self, obs[|obs| - 1], writesOnly, index)
  }

  /** The votes for `index`, one by one: held entry `n` of observation `i`.  Reads do not vote if only writes are
      asked, and a mutex does not guard itself. */
  ghost function Ballots(self: nat, obs: seq<Observation>, writesOnly: bool, index: nat): set<(nat, nat)> {
    set i: nat, n: nat | i < |obs| && n < |obs[i].held| && obs[i].held[n].fieldIndex == index && index != self
                         && (writesOnly ==> !obs[i].isRead) :: (i, n)
  }

  /** `best` has the most votes, and the smallest index among those with as many; nothing if there are none. */
  ghost predicate IsBest(self: nat, obs: seq<Observation>, writesOnly: bool, best: Option<nat>) {
    match best
    case None => forall j: nat :: Ballots(self, obs, writesOnly, j) == {}
    case Some(b) =>
      && Ballots(self, obs, writesOnly, b) != {}
      && forall j: nat ::
           var mine, other := |Ballots(self, obs, writesOnly, b)|, |Ballots(self, obs, writesOnly, j)|;
           other < mine || (other == mine && b <= j)
  }

  lemma {:induction false} BestIsUnique(self: nat, obs: seq<Observation>, writesOnly: bool, x: Option<nat>,
                                        y: Option<nat>)
    requires IsBest(self, obs, writesOnly, x) && IsBest(self, obs, writesOnly, y)
    ensures x == y
  {
    if x.Some? && y.Some? {
      assert |Ballots(self, obs, writesOnly, x.value)| == |Ballots(self, obs, writesOnly, y.value)|;
    }
  }

  // ----- Counting ballots

  /** The ballots for `index` among the first `m` held entries of observation `i`. */
  ghost function Row(i: nat, held: seq<HeldField>, index: nat, m: nat): set<(nat, nat)>
    requires m <= |held|
  {
    set n: nat | n < m && held[n].fieldIndex == index :: (i, n)
  }

  lemma {:induction false} RowSize(i: nat, held: seq<HeldField>, index: nat, m: nat)
    requires m <= |held|
    ensures |Row(i, held, index, m)| == Occurrences(held[..m], index)
  {
    if m > 0 {
      RowSize(i, held, index, m - 1);
      assert held[..m][..m - 1] == held[..m - 1];
      if held[m - 1].fieldIndex == index {
        assert Row(i, held, index, m) == Row(i, held, index, m - 1) + {(i, m - 1)};
      } else {
        assert Row(i, held, index, m) == Row(i, held, index, m - 1);
      }
    }
  }

  lemma {:induction false} BallotsStep(self: nat, obs: seq<Observation>, writesOnly: bool, index: nat)
    requires |obs| > 0
    ensures var n := |obs| - 1;
      var row := if (writesOnly && obs[n].isRead) || index == self then {}
                 else Row(n, obs[n].held, index, |obs[n].held|);
      Ballots(self, obs, writesOnly, index) == Ballots(self, obs[..n], writesOnly, index) + row
      && Ballots(self, obs[..n], writesOnly, index) !! row
  {
    var n := |obs| - 1;
    var init := obs[..n];
    assert forall i :: 0 <= i < n ==> init[i] == obs[i];
  }

  /** The count is the number of ballots: every held entry has one vote. */
  lemma {:induction false} CountIsBallots(self: nat, obs: seq<Observation>, writesOnly: bool, index: nat)
    ensures Count(self, obs, writesOnly, index) == |Ballots(self, obs, writesOnly, index)|
  {
    if |obs| > 0 {
      var n := |obs| - 1;
      CountIsBallots(self, obs[..n], writesOnly, index);
      BallotsStep(self, obs, writesOnly, index);
      RowSize(n, obs[n].held, index, |obs[n].held|);
      assert obs[n].held[..|obs[n].held|] == obs[n].held;
    }
  }

  // ----- The algorithm

  function CountIn(counts: map<nat, nat>, index: nat): nat {
    if index in counts then counts[index] else 0
  }

  method CountHeld(self: nat, held: seq<HeldField>, counts: map<nat, nat>) returns (out: map<nat, nat>)
    requires forall j :: j in counts ==> counts[j] > 0
    ensures forall j :: j in out ==> out[j] > 0
    ensures forall j: nat :: CountIn(out, j) == CountIn(counts, j) + if j == self then 0 else Occurrences(held, j)
  {
    out := counts;
    var i := 0;
    while i < |held|
      invariant 0 <= i <= |held| && forall j :: j in out ==> out[j] > 0
      invariant forall j: nat ::
        CountIn(out, j) == CountIn(counts, j) + if j == self then 0 else Occurrences(held[..i], j)
    {
      assert held[..i + 1][..i] == held[..i];
      var index := held[i].fieldIndex;
      if index != self { out := out[index := CountIn(out, index) + 1]; }
      i := i + 1;
    }
    assert held[..i] == held;
  }

  method CountObservations(self: nat, obs: seq<Observation>, writesOnly: bool) returns (counts: map<nat, nat>)
    ensures forall j :: j in counts ==> counts[j] > 0
    ensures forall j: nat :: CountIn(counts, j) == Count(self, obs, writesOnly, j)
  {
    counts := map[];
    var i := 0;
    while i < |obs|
      invariant 0 <= i <= |obs| && forall j :: j in counts ==> counts[j] > 0
      invariant forall j: nat :: CountIn(counts, j) == Count(self, obs[..i], writesOnly, j)
    {
      assert obs[..i + 1][..i] == obs[..i];
      if !(writesOnly && obs[i].isRead) { counts := CountHeld(self, obs[i].held, counts); }
      i := i + 1;
    }
    assert obs[..i] == obs;
  }

  /** The most frequent mutex, whatever the order in which the counts are visited. */
  method PickMostFrequentMutex(self: nat, obs: seq<Observation>, writesOnly: bool) returns (best: Option<nat>)
    ensures IsBest(self, obs, writesOnly, best)
  {
    var counts := CountObservations(self, obs, writesOnly);
    best := None;
    var bestCount := 0;
    var todo := counts.Keys;
    while todo != {}
      invariant todo <= counts.Keys
      invariant best.None? ==> bestCount == 0 && todo == counts.Keys
      invariant best.Some? ==> best.value in counts && counts[best.value] == bestCount
      invariant best.Some? ==>
        forall j :: j in counts && j !in todo ==> counts[j] < bestCount || (counts[j] == bestCount && best.value <= j)
      decreases todo
    {
      var index :| index in todo;
      var count := counts[index];
      if count > bestCount || (count == bestCount && (best.None? || index < best.value)) {
        best, bestCount := Some(index), count;
      }
      todo := todo - {index};
    }
    forall j: nat ensures |Ballots(self, obs, writesOnly, j)| == CountIn(counts, j) {
      CountIsBallots(self, obs, writesOnly, j);
    }
  }

  /** The guard: the most frequent mutex among writes, or among all accesses if no write held one;
      exclusive access is needed exactly when the writes decided. */
  method InferFieldGuard(self: nat, obs: seq<Observation>) returns (guard: Option<Guard>)
    ensures IsGuard(self, obs, guard)
  {
    var best := PickMostFrequentMutex(self, obs, true);
    ghost var byWrites := best;
    if best.None? { best := PickMostFrequentMutex(self, obs, false); }
    if best.None? { return None; }
    var needsExclusive := false;
    var i := 0;
    while i < |obs| && !needsExclusive
      invariant 0 <= i <= |obs|
      invariant needsExclusive <==> exists j :: 0 <= j < i && !obs[j].isRead && HoldsField(obs[j], best.value)
    {
      if !obs[i].isRead {
        var k := 0;
        while k < |obs[i].held| && !needsExclusive
          invariant 0 <= k <= |obs[i].held|
          invariant needsExclusive <==> exists n :: 0 <= n < k && obs[i].held[n].fieldIndex == best.value
        {
          if obs[i].held[k].fieldIndex == best.value { needsExclusive := true; }
          k := k + 1;
        }
      }
      i := i + 1;
    }
    WritesDecide(self, obs, best.value);
    CountIsBallots(self, obs, true, best.value);
    CountIsBallots(self, obs, false, best.value);
    CountIsBallots(self, obs, true, self);
    CountIsBallots(self, obs, false, self);
    return Some(Guard(best.value, needsExclusive));
  }

  ghost predicate IsGuard(self: nat, obs: seq<Observation>, guard: Option<Guard>) {
    if IsBest(self, obs, true, None) then
      match guard
      case None => IsBest(self, obs, false, None)
      case Some(g) => IsBest(self, obs, false, Some(g.mutexFieldIndex)) && !g.needsExclusive
    else
      guard.Some? && IsBest(self, obs, true, Some(guard.value.mutexFieldIndex)) && guard.value.needsExclusive
  }

  lemma {:induction false} OccursIffHeld(held: seq<HeldField>, index: nat)
    ensures Occurrences(held, index) > 0 <==> exists i :: 0 <= i < |held| && held[i].fieldIndex == index
  {
    if |held| > 0 {
      var init := held[..|held| - 1];
      OccursIffHeld(init, index);
      if exists i :: 0 <= i < |init| && init[i].fieldIndex == index {
        var i :| 0 <= i < |init| && init[i].fieldIndex == index;
        assert held[i].fieldIndex == index;
      }
      if exists i :: 0 <= i < |held| && held[i].fieldIndex == index {
        var i :| 0 <= i < |held| && held[i].fieldIndex == index;
        assert i < |init| ==> init[i].fieldIndex == index;
      }
    }
  }

  /** A mutex other than the field itself has write votes exactly when some write held it. */
  lemma {:induction false} WritesDecide(self: nat, obs: seq<Observation>, index: nat)
    ensures index != self ==>
      (Count(self, obs, true, index) > 0 <==> exists j :: 0 <= j < |obs| && !obs[j].isRead && HoldsField(obs[j], index))
    ensures Count(self, obs, true, self) == 0 && Count(self, obs, false, self) == 0
  {
    if |obs| > 0 {
      var init, last := obs[..|obs| - 1], obs[|obs| - 1];
      WritesDecide(self, init, index);
      OccursIffHeld(last.held, index);
      if exists j :: 0 <= j < |init| && !init[j].isRead && HoldsField(init[j], index) {
        var j :| 0 <= j < |init| && !init[j].isRead && HoldsField(init[j], index);
        assert obs[j] == init[j];
      }
      if exists j :: 0 <= j < |obs| && !obs[j].isRead && HoldsField(obs[j], index) {
        var j :| 0 <= j < |obs| && !obs[j].isRead && HoldsField(obs[j], index);
        assert j < |init| ==> init[j] == obs[j];
      }
    }
  }

  // ----- Independence of order

  lemma {:induction false} CountSplit(self: nat, a: seq<Observation>, b: seq<Observation>, writesOnly: bool, index: nat)
    ensures Count(self, a + b, writesOnly, index)
      == Count(self, a, writesOnly, index) + Count(self, b, writesOnly, index)
  {
    if |b| == 0 {
      assert a + b == a;
    } else {
      CountSplit(self, a, b[..|b| - 1], writesOnly, index);
      assert (a + b)[..|a + b| - 1] == a + b[..|b| - 1];
    }
  }

  lemma {:induction false} RemoveOne<T>(init: seq<T>, x: T, front: seq<T>, back: seq<T>)
    requires multiset(init + [x]) == multiset(front + [x] + back)
    ensures multiset(init) == multiset(front + back)
  {
    assert multiset(init) == multiset(init + [x]) - multiset{x};
    assert multiset(front + back) == multiset(front + [x] + back) - multiset{x};
  }

  lemma {:induction false} SplitAtElement<T>(s: seq<T>, x: T) returns (front: seq<T>, back: seq<T>)
    requires x in multiset(s)
    ensures s == front + [x] + back
  {
    var i :| 0 <= i < |s| && s[i] == x;
    front, back := s[..i], s[i + 1..];
  }

  /** Reordering the observations changes no count. */
  lemma {:induction false} CountIgnoresOrder(self: nat, a: seq<Observation>, b: seq<Observation>, writesOnly: bool,
                                             index: nat)
    requires multiset(a) == multiset(b)
    ensures Count(self, a, writesOnly, index) == Count(self, b, writesOnly, index)
  {
    if |a| == 0 {
      assert |multiset(b)| == 0;
    } else {
      var init, last := a[..|a| - 1], a[|a| - 1];
      assert a == init + [last] && last in multiset(a);
      var front, back := SplitAtElement(b, last);
      RemoveOne(init, last, front, back);
      CountIgnoresOrder(self, init, front + back, writesOnly, index);
      CountSplit(self, front, back, writesOnly, index);
      CountSplit(self, front + [last], back, writesOnly, index);
      CountSplit(self, front, [last], writesOnly, index);
      assert [last][..0] == [];
    }
  }

  lemma {:induction false} OccurrencesSplit(a: seq<HeldField>, b: seq<HeldField>, index: nat)
    ensures Occurrences(a + b, index) == Occurrences(a, index) + Occurrences(b, index)
  {
    if |b| == 0 {
      assert a + b == a;
    } else {
      OccurrencesSplit(a, b[..|b| - 1], index);
      assert (a + b)[..|a + b| - 1] == a + b[..|b| - 1];
    }
  }

  lemma {:induction false} OccurrencesIgnoreOrder(a: seq<HeldField>, b: seq<HeldField>, index: nat)
    requires multiset(a) == multiset(b)
    ensures Occurrences(a, index) == Occurrences(b, index)
  {
    if |a| == 0 {
      assert |multiset(b)| == 0;
    } else {
      var init, last := a[..|a| - 1], a[|a| - 1];
      assert a == init + [last] && last in multiset(a);
      var front, back := SplitAtElement(b, last);
      RemoveOne(init, last, front, back);
      OccurrencesIgnoreOrder(init, front + back, index);
      OccurrencesSplit(front, back, index);
      OccurrencesSplit(front + [last], back, index);
      OccurrencesSplit(front, [last], index);
      assert [last][..0] == [];
    }
  }

  /** The same accesses, each with its held mutexes listed in some other order. */
  ghost predicate SameUpToHeldOrder(a: seq<Observation>, b: seq<Observation>) {
    |a| == |b| && forall i :: 0 <= i < |a| ==> a[i].isRead == b[i].isRead && multiset(a[i].held) == multiset(b[i].held)
  }

  lemma {:induction false} CountIgnoresHeldOrder(self: nat, a: seq<Observation>, b: seq<Observation>,
                                                 writesOnly: bool, index: nat)
    requires SameUpToHeldOrder(a, b)
    ensures Count(self, a, writesOnly, index) == Count(self, b, writesOnly, index)
  {
    if |a| > 0 {
      CountIgnoresHeldOrder(self, a[..|a| - 1], b[..|b| - 1], writesOnly, index);
      OccurrencesIgnoreOrder(a[|a| - 1].held, b[|b| - 1].held, index);
    }
  }

  lemma {:induction false} EqualCountsGiveEqualGuards(self: nat, a: seq<Observation>, b: seq<Observation>,
                                                      x: Option<Guard>, y: Option<Guard>)
    requires forall writesOnly, j: nat :: Count(self, a, writesOnly, j) == Count(self, b, writesOnly, j)
    requires IsGuard(self, a, x) && IsGuard(self, b, y)
    ensures x == y
  {
    forall writesOnly, j: nat
      ensures |Ballots(self, a, writesOnly, j)| == |Ballots(self, b, writesOnly, j)|
    {
      CountIsBallots(self, a, writesOnly, j);
      CountIsBallots(self, b, writesOnly, j);
    }
    var writes := IsBest(self, a, true, None);
    assert writes <==> IsBest(self, b, true, None);
    if x.Some? && y.Some? {
      BestIsUnique(self, a, !writes, Some(x.value.mutexFieldIndex), Some(y.value.mutexFieldIndex));
    }
  }

  /** The inferred guard depends on which observations there are and on what each of them held, but neither
      on the order of the observations nor on the order in which their held mutexes are listed. */
  lemma {:induction false} GuardIgnoresOrder(self: nat, a: seq<Observation>, b: seq<Observation>, c: seq<Observation>,
                                             x: Option<Guard>, y: Option<Guard>)
    requires multiset(a) == multiset(b) && SameUpToHeldOrder(b, c) && IsGuard(self, a, x) && IsGuard(self, c, y)
    ensures x == y
  {
    forall writesOnly, j: nat ensures Count(self, a, writesOnly, j) == Count(self, c, writesOnly, j) {
      CountIgnoresOrder(self, a, b, writesOnly, j);
      CountIgnoresHeldOrder(self, b, c, writesOnly, j);
    }
    EqualCountsGiveEqualGuards(self, a, c, x, y);
  }
}
