/** The recursive lock-state walk over a control-flow graph (ssawalk.go), proved against WalkSpec.

    Entry states are stored as snapshots.  The code stores a snapshot on the first visit of a block
    but the live merged state on a re-walk; module LiteralWalk is about that difference. */
module Walk {
  import opened Types
  import opened LockStates
  import opened Cfgs
  import opened Records
  import opened WalkInvariant
  import WalkSpec
  import opened WalkTheorems

  class Walker {
    const f: Func
    var entry: Entries
    var exits: Entries
    var log: set<Record>
    var leaks: Leaks
    var reported: set<BlockId>
    ghost var walks: map<BlockId, nat>

    constructor (f: Func, leaks: Leaks)
      ensures this.f == f && View() == Start(leaks)
    {
      this.f, this.leaks := f, leaks;
      entry, exits, log, reported, walks := map[], map[], {}, {}, map[];
    }

    ghost function View(): WalkSpec.Tables
      reads this
    {
      WalkSpec.Tables(entry, exits, log, leaks, reported, walks)
    }

    /** Executes one instruction: updates the lock state in place and writes the records. */
    method ProcessInstruction(instr: Instr, ls: LockState)
      modifies this`log, this`leaks, ls
      ensures ls.View() == Step(instr, old(ls.View()))
      ensures log == old(log) + Emit(f, instr, old(ls.View()))
      ensures leaks == LeaksStep(f, instr, old(ls.View()), old(leaks))
    {
      match instr
      case Acquire(ref, exclusive, pos) => CheckAndRecordAcquire(ref, exclusive, pos, ls);
      case Release(ref, exclusive, pos) =>
        if ref in ls.held {
          CheckUnlockMode(ref, exclusive, pos, ls);
        } else {
          log := log + {UnlockOfUnlocked(pos, ref)};
        }
        ls.Unlock(ref);
        log := log + (set k | k in KeysOf(f, ref) :: Releases(f.id, k));
      case DeferRelease(ref, exclusive, pos) =>
        CheckUnlockMode(ref, exclusive, pos, ls);
        ls.DeferUnlock(ref);
        log := log + (set k | k in KeysOf(f, ref) :: Releases(f.id, k));
      case DeferAcquire(ref, pos) =>
        log := log + Named(f, DeferredLockTypo(pos, ref));
      case Return(pos) => CheckReturnWithHeldLocks(pos, ls);
      case Call(callee, pos) => RecordCallSite(callee, pos, ls);
      case Other =>
    }

    method CheckAndRecordAcquire(ref: LockRef, exclusive: bool, pos: Pos, ls: LockState)
      modifies this`log, ls
      ensures ls.View() == Step(Acquire(ref, exclusive, pos), old(ls.View()))
      ensures log == old(log) + Emit(f, Acquire(ref, exclusive, pos), old(ls.View()))
    {
      if ref in ls.held {
        var existing := ls.held[ref];
        if exclusive && existing.exclusive {
          log := log + Named(f, DoubleLock(pos, ref));
        } else if !exclusive && !existing.exclusive {
          log := log + Named(f, RecursiveRLock(pos, ref));
        } else if exclusive && !existing.exclusive {
          log := log + Named(f, LockUpgrade(pos, ref));
        } else {
          log := log + Named(f, DoubleLock(pos, ref));
        }
      }
      RecordOrderEdges(ref, pos, ls);
      log := log + (set k | k in KeysOf(f, ref) :: Acquires(f.id, k));
      ls.Lock(ref, exclusive, pos);
    }

    /** One edge from each other held lock that has a key. */
    method RecordOrderEdges(ref: LockRef, pos: Pos, ls: LockState)
      modifies this`log
      ensures log == old(log) + OrderEdges(f, ref, pos, ls.View())
    {
      match KeyOf(f.typing, ref)
      case None =>
      case Some(acquired) =>
        var edges: set<Record> := {};
        var todo := ls.held.Keys;
        while todo != {}
          invariant todo <= ls.held.Keys
          invariant forall r :: r in edges <==> exists h ::
            h in ls.held && h !in todo && h != ref && KeyOf(f.typing, h).Some?
            && r == Ordered(LockOrderEdge(KeyOf(f.typing, h).value, acquired, pos, f.id))
          decreases todo
        {
          var h :| h in todo;
          if h != ref && KeyOf(f.typing, h).Some? {
            edges := edges + {Ordered(LockOrderEdge(KeyOf(f.typing, h).value, acquired, pos, f.id))};
          }
          todo := todo - {h};
        }
        assert KeysOf(f, ref) == {acquired};
        assert forall r :: r in edges <==> r in OrderEdges(f, ref, pos, ls.View());
        log := log + edges;
    }

    method CheckUnlockMode(ref: LockRef, exclusive: bool, pos: Pos, ls: LockState)
      modifies this`log
      ensures log == old(log) + MismatchReport(f, ref, exclusive, pos, ls.View())
    {
      if ref in ls.held {
        if ls.held[ref].exclusive && !exclusive {
          log := log + Named(f, MismatchedUnlock(pos, ref));
        } else if !ls.held[ref].exclusive && exclusive {
          log := log + Named(f, MismatchedUnlock(pos, ref));
        }
      }
    }

    /** Replaces the candidates of this return by those of the current state. */
    method CheckReturnWithHeldLocks(pos: Pos, ls: LockState)
      modifies this`leaks
      ensures leaks == PutLeaks(old(leaks), pos, LeaksAt(f, pos, ls.View()))
    {
      leaks := leaks - {pos};
      var found: set<LeakCandidate> := {};
      var todo := ls.held.Keys;
      while todo != {}
        invariant todo <= ls.held.Keys
        invariant forall c :: c in found <==> exists ref ::
          ref in ls.held && ref !in todo && ref !in ls.deferred && c == LeakCandidate(f.id, pos, ref, ls.held[ref].pos)
        decreases todo
      {
        var ref :| ref in todo;
        if ref !in ls.deferred {
          found := found + {LeakCandidate(f.id, pos, ref, ls.held[ref].pos)};
        }
        todo := todo - {ref};
      }
      assert found == LeaksAt(f, pos, ls.View());
      if found != {} { leaks := leaks[pos := found]; }
    }

    method RecordCallSite(callee: Fn, pos: Pos, ls: LockState)
      modifies this`log
      ensures log == old(log) + {Site(CallSite(f.id, callee, pos, NormalizedHeld(f, ls.View())))}
    {
      var normalized: set<Key> := {};
      var todo := ls.held.Keys;
      while todo != {}
        invariant todo <= ls.held.Keys
        invariant forall k :: k in normalized <==> exists ref ::
          ref in ls.held && ref !in todo && NormalizedKeyOf(f.typing, ref) == Some(k)
        decreases todo
      {
        var ref :| ref in todo;
        match NormalizedKeyOf(f.typing, ref) {
          case Some(k) => normalized := normalized + {k};
          case None =>
        }
        todo := todo - {ref};
      }
      assert normalized == NormalizedHeld(f, ls.View());
      log := log + {Site(CallSite(f.id, callee, pos, normalized))};
    }

    /** Compares an arriving state with the recorded entry of `b` and decides whether the block has to
        be executed; if so, `cur` is the state to execute it from. */
    method Arrive(b: BlockId, from: Option<BlockId>, ls: LockState) returns (proceed: bool, cur: LockState)
      requires b < |f.cfg|
      modifies this`entry, this`log, this`reported
      ensures cur == ls || fresh(cur)
      ensures proceed == !WalkSpec.Stops(old(entry), b, ls.View())
      ensures !proceed ==> View() == WalkSpec.Note(f, old(View()), b, from, ls.View())
      ensures proceed ==>
        var m := WalkSpec.NewEntry(old(entry), b, ls.View());
        var n := WalkSpec.Note(f, old(View()), b, from, ls.View());
        cur.View() == m && View() == n.(entry := n.entry[b := m])
    {
      if b in entry {
        var prevEntry := new LockState.Restore(entry[b]);
        var same := ls.EqualHeld(prevEntry);
        if same { return false, ls; }
        var merged := prevEntry.Intersect(ls);
        if b !in reported && from.Some? && b in f.mergePoints && (from.value, b) !in f.backEdges {
          var onlyPrev, onlyNew := prevEntry.Diff(ls);
          log := log + (set k | k in onlyPrev + onlyNew && KeyOf(f.typing, k).Some? :: InconsistentLock(b, k));
          reported := reported + {b};
        }
        var converged := merged.EqualHeld(prevEntry);
        if converged { return false, ls; }
        var snapshot := merged.Snapshot();
        entry := entry[b := snapshot];
        return true, merged;
      } else {
        var snapshot := ls.Snapshot();
        entry := entry[b := snapshot];
        return true, ls;
      }
    }

    /** Executes the instructions of `b` in place on `cur` and stores the exit state. */
    method RunBlock(b: BlockId, cur: LockState)
      requires b < |f.cfg| && b in entry && entry[b] == cur.View()
      modifies this`log, this`leaks, this`exits, this`walks, cur
      ensures cur.View() == Exec(f.cfg[b].instrs, entry[b])
      ensures View() == WalkSpec.Run(f, old(View()), b, entry[b])
    {
      var body := f.cfg[b].instrs;
      var i := 0;
      while i < |body|
        invariant 0 <= i <= |body|
        invariant cur.View() == Exec(body[..i], entry[b])
        invariant log == old(log) + EmitAll(f, body[..i], entry[b])
        invariant leaks == LeaksAfter(f, body[..i], entry[b], old(leaks))
        invariant exits == old(exits) && walks == old(walks)
      {
        EmitAllStep(f, body, entry[b], i);
        LeaksAfterStep(f, body, entry[b], old(leaks), i);
        assert body[..i + 1][..i] == body[..i];
        ProcessInstruction(body[i], cur);
        i := i + 1;
      }
      assert body[..i] == body;
      var exit := cur.Snapshot();
      exits := exits[b := exit];
      walks := walks[b := (if b in walks then walks[b] else 0) + 1];
      assert entry == entry[b := entry[b]];
    }

    method WalkBlock(b: BlockId, from: Option<BlockId>, ls: LockState)
      requires WellFormed(f.cfg) && WalkSpec.Bounded(f.cfg, entry) && b < |f.cfg| && Within(Universe(f.cfg), ls.View())
      modifies this, ls
      ensures View() == WalkSpec.WalkBlock(f, old(View()), b, from, old(ls.View()))
      decreases Potential(f.cfg, entry), 0
    {
      ghost var t, s := View(), ls.View();
      var proceed, cur := Arrive(b, from, ls);
      if proceed {
        WalkSpec.Unfold(f, t, b, from, s);
        WalkSpec.VisitShrinks(f.cfg, t.entry, b, s);
        RunBlock(b, cur);
        WalkSuccs(b, cur);
      }
    }

    /** Visits every successor with its own copy of the exit state. */
    method WalkSuccs(b: BlockId, cur: LockState)
      requires WellFormed(f.cfg) && WalkSpec.Bounded(f.cfg, entry) && b < |f.cfg| && Within(Universe(f.cfg), cur.View())
      modifies this
      ensures View() == WalkSpec.WalkSuccs(f, old(View()), b, cur.View(), 0)
      decreases Potential(f.cfg, entry), 1
    {
      ghost var out := cur.View();
      var i := 0;
      while i < |f.cfg[b].succs|
        invariant 0 <= i <= |f.cfg[b].succs|
        invariant WalkSpec.Bounded(f.cfg, entry) && Potential(f.cfg, entry) <= old(Potential(f.cfg, entry))
        invariant WalkSpec.WalkSuccs(f, View(), b, out, i) == WalkSpec.WalkSuccs(f, old(View()), b, out, 0)
      {
        var fork := cur.Fork();
        WalkBlock(f.cfg[b].succs[i], Some(b), fork);
        i := i + 1;
      }
    }

    /** Walks the whole function; a function without a body is left alone. */
    method WalkFunction()
      requires WellFormed(f.cfg) && View() == Start(leaks)
      modifies this
      ensures |f.cfg| == 0 ==> View() == old(View())
      ensures |f.cfg| > 0 ==> View() == WalkTheorems.WalkFunction(f, old(leaks))
      ensures forall b: BlockId, k: LockRef :: b in entry && ModeConsistent(f.cfg, k) ==>
        (k in entry[b].held <==> AlwaysHeld(f.cfg, b, k))
    {
      if |f.cfg| == 0 { return; }
      var ls := new LockState();
      WalkBlock(0, None, ls);
      forall b: BlockId, k: LockRef | b in entry && ModeConsistent(f.cfg, k)
        ensures k in entry[b].held <==> AlwaysHeld(f.cfg, b, k)
      {
        EntryIsMeetOverAllPaths(f, old(leaks), b, k);
      }
    }
  }
}
