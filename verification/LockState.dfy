/** The lock state threaded through a function body (lockstate.go). */
module LockStates {
  import opened Types
  import opened Sets

  datatype HeldLock = HeldLock(exclusive: bool, pos: Pos)

  /** The abstract value of a lock state. */
  datatype State = State(held: map<LockRef, HeldLock>, deferred: set<LockRef>)

  const EMPTY := State(map[], {})

  /** The state kept at a merge point: locks held on both sides in the same mode. */
  function Meet(a: State, b: State): State {
    State(a.held - (set k | k in a.held && (k !in b.held || a.held[k].exclusive != b.held[k].exclusive)),
          a.deferred * b.deferred)
  }

  /** Agreement on which locks are held and which unlocks are pending; modes are not compared. */
  predicate SameKeys(a: State, b: State) {
    a.held.Keys == b.held.Keys && a.deferred == b.deferred
  }

  /** `a` claims no lock and no pending unlock that `b` does not have. */
  predicate Below(a: State, b: State) {
    a.held.Keys <= b.held.Keys && a.deferred <= b.deferred
  }

  /** `Below`, and in the same modes. */
  ghost predicate Covered(a: State, b: State) {
    && Below(a, b)
    && forall k :: k in a.held ==> a.held[k].exclusive == b.held[k].exclusive
  }

  /** `Below`, and held since the same acquisition in the same mode. */
  ghost predicate Witnessed(a: State, b: State) {
    && Below(a, b)
    && forall k :: k in a.held ==> a.held[k] == b.held[k]
  }

  /** The same locks in the same modes and the same pending unlocks; positions of acquisitions may differ. */
  ghost predicate SameLocks(a: State, b: State) {
    SameKeys(a, b) && forall k :: k in a.held ==> a.held[k].exclusive == b.held[k].exclusive
  }

  /** A merge never adds a claim, in either argument, and keeps the modes both sides agree on. */
  lemma {:induction false} MeetIsLowerBound(a: State, b: State)
    ensures Covered(Meet(a, b), a) && Covered(Meet(a, b), b)
  {
  }

  /** A merge keeps the entries of its first argument. */
  lemma {:induction false} MeetIsWitnessed(a: State, b: State)
    ensures Witnessed(Meet(a, b), a)
  {
  }

  class LockState {
    var held: map<LockRef, HeldLock>
    var deferred: set<LockRef>

    ghost function View(): State
      reads this
    {
      State(held, deferred)
    }

    constructor ()
      ensures View() == EMPTY
    {
      held := map[];
      deferred := {};
    }

    constructor Restore(s: State)
      ensures View() == s
    {
      held := s.held;
      deferred := s.deferred;
    }

    method Snapshot() returns (s: State)
      ensures s == View()
    {
      s := State(held, deferred);
    }

    method Lock(ref: LockRef, exclusive: bool, pos: Pos)
      modifies this
      ensures held == old(held)[ref := HeldLock(exclusive, pos)] && deferred == old(deferred)
    {
      held := held[ref := HeldLock(exclusive, pos)];
    }

    method Unlock(ref: LockRef)
      modifies this
      ensures held == old(held) - {ref} && deferred == old(deferred)
    {
      held := held - {ref};
    }

    method DeferUnlock(ref: LockRef)
      modifies this
      ensures held == old(held) && deferred == old(deferred) + {ref}
    {
      deferred := deferred + {ref};
    }

    /** A copy that shares nothing with the original. */
    method Fork() returns (copy: LockState)
      ensures fresh(copy) && copy.View() == View()
    {
      copy := new LockState();
      var todo := held.Keys;
      while todo != {}
        invariant todo <= held.Keys && copy.deferred == {}
        invariant copy.held.Keys == held.Keys - todo
        invariant forall k :: k in copy.held ==> copy.held[k] == held[k]
        decreases todo
      {
        var k :| k in todo;
        copy.held := copy.held[k := held[k]];
        todo := todo - {k};
      }
      var rest := deferred;
      while rest != {}
        invariant rest <= deferred && copy.held == held
        invariant copy.deferred == deferred - rest
        decreases rest
      {
        var k :| k in rest;
        copy.deferred := copy.deferred + {k};
        rest := rest - {k};
      }
    }

    /** Compares sizes first and then one inclusion, for held locks and for pending unlocks. */
    method EqualHeld(other: LockState) returns (equal: bool)
      ensures equal <==> SameKeys(View(), other.View())
    {
      if |held| != |other.held| { return false; }
      var todo := held.Keys;
      while todo != {}
        invariant todo <= held.Keys
        invariant held.Keys - todo <= other.held.Keys
        decreases todo
      {
        var k :| k in todo;
        if k !in other.held { return false; }
        todo := todo - {k};
      }
      SubsetOfSameSize(held.Keys, other.held.Keys);
      if |deferred| != |other.deferred| { return false; }
      var rest := deferred;
      while rest != {}
        invariant rest <= deferred
        invariant deferred - rest <= other.deferred
        decreases rest
      {
        var k :| k in rest;
        if k !in other.deferred { return false; }
        rest := rest - {k};
      }
      SubsetOfSameSize(deferred, other.deferred);
      return true;
    }

    /** A new state with the locks held in both, in agreeing modes. */
    method Intersect(other: LockState) returns (result: LockState)
      ensures fresh(result) && result.View() == Meet(View(), other.View())
    {
      result := new LockState();
      ghost var meet := Meet(View(), other.View());
      var todo := held.Keys;
      while todo != {}
        invariant todo <= held.Keys && result.deferred == {}
        invariant result.held.Keys == meet.held.Keys - todo
        invariant forall k :: k in result.held ==> result.held[k] == held[k]
        decreases todo
      {
        var k :| k in todo;
        if k in other.held && held[k].exclusive == other.held[k].exclusive {
          result.held := result.held[k := held[k]];
        }
        todo := todo - {k};
      }
      var rest := deferred;
      while rest != {}
        invariant rest <= deferred && result.held == meet.held
        invariant result.deferred == (deferred - rest) * other.deferred
        decreases rest
      {
        var k :| k in rest;
        if k in other.deferred { result.deferred := result.deferred + {k}; }
        rest := rest - {k};
      }
    }

    /** The locks held on one side only; the order of the two lists plays no role here. */
    method Diff(other: LockState) returns (onlySelf: set<LockRef>, onlyOther: set<LockRef>)
      ensures onlySelf == held.Keys - other.held.Keys
      ensures onlyOther == other.held.Keys - held.Keys
    {
      onlySelf, onlyOther := {}, {};
      var todo := held.Keys;
      while todo != {}
        invariant todo <= held.Keys
        invariant onlySelf == held.Keys - todo - other.held.Keys
        decreases todo
      {
        var k :| k in todo;
        if k !in other.held { onlySelf := onlySelf + {k}; }
        todo := todo - {k};
      }
      todo := other.held.Keys;
      while todo != {}
        invariant todo <= other.held.Keys
        invariant onlyOther == other.held.Keys - todo - held.Keys
        decreases todo
      {
        var k :| k in todo;
        if k !in held { onlyOther := onlyOther + {k}; }
        todo := todo - {k};
      }
    }
  }
}
