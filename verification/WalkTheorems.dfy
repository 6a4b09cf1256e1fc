/** What a finished walk tells about all paths of the function. */
module WalkTheorems {
  import opened Types
  import opened LockStates
  import opened Cfgs
  import opened PathText
  import opened Records
  import opened WalkInvariant
  import opened WalkSpec

  function Start(leaks: Leaks): Tables {
    Tables(map[], map[], {}, leaks, {}, map[])
  }

  /** The tables after walking the whole function. */
  ghost function WalkFunction(f: Func, leaks: Leaks): Tables
    requires WellFormed(f.cfg) && |f.cfg| > 0
  {
    WalkBlock(f, Start(leaks), 0, None, EMPTY)
  }

  lemma {:induction false} WalkFunctionInvariants(f: Func, leaks: Leaks)
    requires WellFormed(f.cfg) && |f.cfg| > 0
    ensures var r := WalkFunction(f, leaks);
      Local(f, r) && ClosedOutside(f.cfg, r.entry, {}) && 0 in r.entry && Below(r.entry[0], EMPTY)
  {
    WalkedStart(f.cfg);
    WalkCloses(f, Start(leaks), 0, None, EMPTY, {});
    WalkKeepsLocal(f, Start(leaks), 0, None, EMPTY);
  }

  /** Soundness on every path, for every lock and every mode mix. */
  lemma {:induction false} EntryIsSound(f: Func, leaks: Leaks, p: Path)
    requires WellFormed(f.cfg) && |f.cfg| > 0 && Valid(f.cfg, p)
    ensures var r := WalkFunction(f, leaks); End(p) in r.entry && Below(r.entry[End(p)], StateAt(f.cfg, p))
  {
    WalkFunctionInvariants(f, leaks);
    ClosedTableIsSound(f.cfg, WalkFunction(f, leaks).entry, p);
  }

  /** The recorded entry is the meet over all paths: unconditionally for pending unlocks, and for every
      lock that no block is entered with in two modes. */
  lemma {:induction false} EntryIsMeetOverAllPaths(f: Func, leaks: Leaks, b: BlockId, k: LockRef)
    requires WellFormed(f.cfg) && |f.cfg| > 0
    ensures var entry := WalkFunction(f, leaks).entry;
      && (b in entry <==> Reachable(f.cfg, b))
      && (b in entry ==>
           && (k in entry[b].held ==> AlwaysHeld(f.cfg, b, k))
           && (ModeConsistent(f.cfg, k) ==> (k in entry[b].held <==> AlwaysHeld(f.cfg, b, k)))
           && (k in entry[b].deferred <==> AlwaysDeferred(f.cfg, b, k)))
  {
    WalkFunctionInvariants(f, leaks);
    var entry := WalkFunction(f, leaks).entry;
    forall p | Reaches(f.cfg, p, b) ensures b in entry && Below(entry[b], StateAt(f.cfg, p)) {
      EntryIsSound(f, leaks, p);
    }
    assert b in entry ==> Walked(f.cfg, b, entry[b]);
  }

  /** The same on the text of the paths: an unlock is pending at entry exactly if every path passes a deferred
      unlock, a lock is held only if every path takes it and does not release it later, and its entry is that of
      the acquisition taken last on one of them. */
  lemma {:induction false} EntryReadsText(f: Func, leaks: Leaks, b: BlockId, k: LockRef)
    requires WellFormed(f.cfg) && |f.cfg| > 0 && Reachable(f.cfg, b)
    ensures b in WalkFunction(f, leaks).entry
    ensures var s := WalkFunction(f, leaks).entry[b];
      && (k in s.deferred <==> forall p :: Reaches(f.cfg, p, b) ==> Defers(TextTo(f.cfg, p), k))
      && (k in s.held ==> forall p :: Reaches(f.cfg, p, b) ==> HeldAfter(TextTo(f.cfg, p), k))
      && (ModeConsistent(f.cfg, k) && (forall p :: Reaches(f.cfg, p, b) ==> HeldAfter(TextTo(f.cfg, p), k)) ==>
            k in s.held)
      && (k in s.held ==>
            exists p, j: nat ::
              && Reaches(f.cfg, p, b) && TakenAt(TextTo(f.cfg, p), k, j)
              && s.held[k] == HeldLock(TextTo(f.cfg, p)[j].exclusive, TextTo(f.cfg, p)[j].pos))
  {
    EntryIsMeetOverAllPaths(f, leaks, b, k);
    forall p | Reaches(f.cfg, p, b)
      ensures k in StateAt(f.cfg, p).held <==> HeldAfter(TextTo(f.cfg, p), k)
      ensures k in StateAt(f.cfg, p).deferred <==> Defers(TextTo(f.cfg, p), k)
    {
      StateReadsText(f.cfg, p, k);
    }
    if k in WalkFunction(f, leaks).entry[b].held {
      WalkFunctionInvariants(f, leaks);
      var p :| Reaches(f.cfg, p, b) && Witnessed(WalkFunction(f, leaks).entry[b], StateAt(f.cfg, p));
      StateReadsText(f.cfg, p, k);
      var j: nat :| TakenAt(TextTo(f.cfg, p), k, j);
    }
  }

  /** Exactly the reachable blocks have an exit state: what the block makes of its entry state. */
  lemma {:induction false} ExitsAreCurrent(f: Func, leaks: Leaks, b: BlockId)
    requires WellFormed(f.cfg) && |f.cfg| > 0 && Reachable(f.cfg, b)
    ensures var t := WalkFunction(f, leaks);
      b in t.entry && b in t.exits && b < |f.cfg| && t.exits[b] == Exec(f.cfg[b].instrs, t.entry[b])
  {
    WalkFunctionInvariants(f, leaks);
    EntryIsMeetOverAllPaths(f, leaks, b, LockRef(0, 0));
  }

  /** No block is executed more than 1 + 2 * (number of locks) times. */
  lemma {:induction false} WorkIsBounded(f: Func, leaks: Leaks, b: BlockId)
    requires WellFormed(f.cfg) && |f.cfg| > 0
    ensures var walks := WalkFunction(f, leaks).walks;
      (b in walks <==> Reachable(f.cfg, b)) && (b in walks ==> walks[b] <= 1 + 2 * |Universe(f.cfg)|)
  {
    WalkFunctionInvariants(f, leaks);
    EntryIsMeetOverAllPaths(f, leaks, b, LockRef(0, 0));
  }

  // ----- Independence of the successor order

  ghost predicate SameUpToSuccessorOrder(c: Cfg, d: Cfg) {
    && |c| == |d|
    && forall b :: 0 <= b < |c| ==> c[b].instrs == d[b].instrs && (forall x :: x in c[b].succs <==> x in d[b].succs)
  }

  lemma {:induction false} SamePaths(c: Cfg, d: Cfg, p: Path)
    requires SameUpToSuccessorOrder(c, d)
    ensures Valid(c, p) <==> Valid(d, p)
    ensures Valid(c, p) ==> StateAt(c, p) == StateAt(d, p)
  {
    if p.Via? { SamePaths(c, d, p.prefix); }
  }

  /** Reordering the successor lists changes neither the visited blocks nor what is recorded at entry. */
  lemma {:induction false} SuccessorOrderIsIrrelevant(f: Func, g: Func, leaks: Leaks, b: BlockId, k: LockRef)
    requires WellFormed(f.cfg) && WellFormed(g.cfg) && |f.cfg| > 0 && SameUpToSuccessorOrder(f.cfg, g.cfg)
    ensures var x := WalkFunction(f, leaks).entry; var y := WalkFunction(g, leaks).entry;
      && (b in x <==> b in y)
      && (b in x ==> (k in x[b].deferred <==> k in y[b].deferred)
                     && (ModeConsistent(f.cfg, k) ==> (k in x[b].held <==> k in y[b].held)))
  {
    forall p
      ensures (Valid(f.cfg, p) <==> Valid(g.cfg, p)) && (Valid(f.cfg, p) ==> StateAt(f.cfg, p) == StateAt(g.cfg, p))
    {
      SamePaths(f.cfg, g.cfg, p);
    }
    forall p, b ensures Reaches(f.cfg, p, b) <==> Reaches(g.cfg, p, b) {}
    EntryIsMeetOverAllPaths(f, leaks, b, k);
    EntryIsMeetOverAllPaths(g, leaks, b, k);
    assert AlwaysHeld(f.cfg, b, k) <==> AlwaysHeld(g.cfg, b, k);
    assert AlwaysDeferred(f.cfg, b, k) <==> AlwaysDeferred(g.cfg, b, k);
    assert ModeConsistent(f.cfg, k) <==> ModeConsistent(g.cfg, k);
  }

  // ----- Program points inside a block

  ghost predicate Point(cfg: Cfg, b: BlockId, i: nat) {
    b < |cfg| && i < |cfg[b].instrs| && Reachable(cfg, b)
  }

  /** A summary of the block entry yields a summary of every point inside the block. */
  lemma {:induction false} SummaryInside(cfg: Cfg, b: BlockId, i: nat, m: State, k: LockRef)
    requires b < |cfg| && i < |cfg[b].instrs| && Walked(cfg, b, m)
    ensures var s := Exec(cfg[b].instrs[..i], m);
      && (exists p :: Reaches(cfg, p, b) && Witnessed(s, StateBefore(cfg, p, i)))
      && (ModeConsistent(cfg, k) && AlwaysHeldAt(cfg, b, i, k) ==> k in s.held)
      && (AlwaysDeferredAt(cfg, b, i, k) ==> k in s.deferred)
  {
    var body := cfg[b].instrs[..i];
    var p :| Reaches(cfg, p, b) && Witnessed(m, StateAt(cfg, p));
    ExecKeepsWitnessed(body, m, StateAt(cfg, p));
    assert Witnessed(Exec(body, m), StateBefore(cfg, p, i));
    ExecIsGenKill(body, m, k);
    ExecDeferred(body, m, k);
    AlwaysAtReadsState(cfg, b, i, k);
    if AlwaysHeldAt(cfg, b, i, k) {
      forall q | Reaches(cfg, q, b)
        ensures EffectOn(body, k).Gen? || (EffectOn(body, k).Pass? && k in StateAt(cfg, q).held)
      {
        ExecIsGenKill(body, StateAt(cfg, q), k);
        assert k in StateBefore(cfg, q, i).held;
      }
      assert EffectOn(body, k).Gen? || EffectOn(body, k).Pass?;
    }
    if AlwaysDeferredAt(cfg, b, i, k) {
      forall q | Reaches(cfg, q, b) ensures Defers(body, k) || k in StateAt(cfg, q).deferred {
        ExecDeferred(body, StateAt(cfg, q), k);
        assert k in StateBefore(cfg, q, i).deferred;
      }
    }
  }

  ghost function FinalBefore(f: Func, leaks: Leaks, b: BlockId, i: nat): State
    requires WellFormed(f.cfg) && Point(f.cfg, b, i)
  {
    EntryIsMeetOverAllPaths(f, leaks, b, LockRef(0, 0));
    Exec(f.cfg[b].instrs[..i], WalkFunction(f, leaks).entry[b])
  }

  /** The final state at a point is the meet over all paths to that point. */
  lemma {:induction false} FinalStateIsMeet(f: Func, leaks: Leaks, b: BlockId, i: nat, k: LockRef)
    requires WellFormed(f.cfg) && Point(f.cfg, b, i)
    ensures var s := FinalBefore(f, leaks, b, i);
      && (k in s.held ==> AlwaysHeldAt(f.cfg, b, i, k))
      && (ModeConsistent(f.cfg, k) ==> (k in s.held <==> AlwaysHeldAt(f.cfg, b, i, k)))
      && (k in s.deferred <==> AlwaysDeferredAt(f.cfg, b, i, k))
  {
    WalkFunctionInvariants(f, leaks);
    EntryIsMeetOverAllPaths(f, leaks, b, k);
    var m := WalkFunction(f, leaks).entry[b];
    SummaryInside(f.cfg, b, i, m, k);
    AlwaysAtReadsState(f.cfg, b, i, k);
    forall p | Reaches(f.cfg, p, b) ensures Below(FinalBefore(f, leaks, b, i), StateBefore(f.cfg, p, i)) {
      EntryIsSound(f, leaks, p);
      ExecKeepsBelow(f.cfg[b].instrs[..i], m, StateAt(f.cfg, p));
    }
  }

  /** The final state at a point is held in full on one path, since the same acquisitions. */
  lemma {:induction false} FinalStateIsWitnessed(f: Func, leaks: Leaks, b: BlockId, i: nat)
    requires WellFormed(f.cfg) && Point(f.cfg, b, i)
    ensures exists p :: Reaches(f.cfg, p, b) && Witnessed(FinalBefore(f, leaks, b, i), StateBefore(f.cfg, p, i))
  {
    WalkFunctionInvariants(f, leaks);
    EntryIsMeetOverAllPaths(f, leaks, b, LockRef(0, 0));
    SummaryInside(f.cfg, b, i, WalkFunction(f, leaks).entry[b], LockRef(0, 0));
  }

  /** Whatever an instruction records in its final state is in the log. */
  lemma {:induction false} FinalStateIsLogged(f: Func, leaks: Leaks, b: BlockId, i: nat)
    requires WellFormed(f.cfg) && Point(f.cfg, b, i)
    ensures Emit(f, f.cfg[b].instrs[i], FinalBefore(f, leaks, b, i)) <= WalkFunction(f, leaks).log
  {
    WalkFunctionInvariants(f, leaks);
    EntryIsMeetOverAllPaths(f, leaks, b, LockRef(0, 0));
    var t := WalkFunction(f, leaks);
    assert Recorded(f, b, t.entry[b], t.exits, t.log);
    EmitAllCovers(f, f.cfg[b].instrs, t.entry[b], i);
  }

  /** Whatever is in the log was recorded at a point, in a state that is held in full, mode by mode, on one
      path, and lacks a mode-consistent lock only if some path lacks it. */
  ghost predicate LoggedAt(f: Func, r: Record, b: BlockId, i: nat, s: State) {
    && Point(f.cfg, b, i) && r in Emit(f, f.cfg[b].instrs[i], s)
    && (exists p :: Reaches(f.cfg, p, b) && Witnessed(s, StateBefore(f.cfg, p, i)))
    && (forall k :: ModeConsistent(f.cfg, k) && AlwaysHeldAt(f.cfg, b, i, k) ==> k in s.held)
  }

  lemma {:induction false} LogIsGenuine(f: Func, leaks: Leaks, r: Record) returns (b: BlockId, i: nat, s: State)
    requires WellFormed(f.cfg) && |f.cfg| > 0 && r in WalkFunction(f, leaks).log && !r.InconsistentLock?
    ensures LoggedAt(f, r, b, i, s)
  {
    WalkFunctionInvariants(f, leaks);
    assert Genuine(f, r);
    var m;
    b, i, m :| EmittedFrom(f, r, b, i, m);
    s := Exec(f.cfg[b].instrs[..i], m);
    SummaryInside(f.cfg, b, i, m, LockRef(0, 0));
    forall k | ModeConsistent(f.cfg, k) && AlwaysHeldAt(f.cfg, b, i, k) ensures k in s.held {
      SummaryInside(f.cfg, b, i, m, k);
    }
  }

  // ----- Consequences for the individual records

  lemma {:induction false} DoubleLockOrigin(f: Func, instr: Instr, s: State, r: Record)
    requires r in Emit(f, instr, s) && (r.DoubleLock? || r.RecursiveRLock? || r.LockUpgrade?)
    ensures instr.Acquire? && instr.ref == r.ref && instr.pos == r.pos && r.ref in s.held
    ensures KeyOf(f.typing, r.ref).Some?
    ensures s.held[r.ref].exclusive == r.DoubleLock?
    ensures (r.RecursiveRLock? ==> !instr.exclusive) && (r.LockUpgrade? ==> instr.exclusive)
  {
  }

  /** Every double-lock, recursive-RLock or upgrade report has a path that arrives at the acquisition
      with the lock held, exclusively or shared as the report says. */
  lemma {:induction false} DoubleLockHasAPath(f: Func, leaks: Leaks, r: Record) returns (p: Path, i: nat)
    requires WellFormed(f.cfg) && |f.cfg| > 0 && r in WalkFunction(f, leaks).log
    requires r.DoubleLock? || r.RecursiveRLock? || r.LockUpgrade?
    ensures Valid(f.cfg, p) && i < |f.cfg[End(p)].instrs|
    ensures var instr := f.cfg[End(p)].instrs[i]; var held := StateBefore(f.cfg, p, i).held;
      && instr.Acquire? && instr.ref == r.ref && instr.pos == r.pos && r.ref in held
      && held[r.ref].exclusive == r.DoubleLock? && KeyOf(f.typing, r.ref).Some?
      && (r.RecursiveRLock? ==> !instr.exclusive) && (r.LockUpgrade? ==> instr.exclusive)
  {
    var b, s;
    b, i, s := LogIsGenuine(f, leaks, r);
    DoubleLockOrigin(f, f.cfg[b].instrs[i], s, r);
    p :| Reaches(f.cfg, p, b) && Witnessed(s, StateBefore(f.cfg, p, i));
  }

  /** Conversely, acquiring a lock that every path already holds is always reported. */
  lemma {:induction false} CertainDoubleLockIsReported(f: Func, leaks: Leaks, b: BlockId, i: nat)
    requires WellFormed(f.cfg) && Point(f.cfg, b, i) && f.cfg[b].instrs[i].Acquire?
    requires var ref := f.cfg[b].instrs[i].ref;
      KeyOf(f.typing, ref).Some? && ModeConsistent(f.cfg, ref) && AlwaysHeldAt(f.cfg, b, i, ref)
    ensures var instr := f.cfg[b].instrs[i]; var log := WalkFunction(f, leaks).log;
      DoubleLock(instr.pos, instr.ref) in log || RecursiveRLock(instr.pos, instr.ref) in log
        || LockUpgrade(instr.pos, instr.ref) in log
  {
    FinalStateIsMeet(f, leaks, b, i, f.cfg[b].instrs[i].ref);
    FinalStateIsLogged(f, leaks, b, i);
  }

  ghost predicate UnlocksUnheld(f: Func, pos: Pos, ref: LockRef, b: BlockId, i: nat) {
    && Point(f.cfg, b, i) && f.cfg[b].instrs[i].Release? && f.cfg[b].instrs[i].pos == pos
    && f.cfg[b].instrs[i].ref == ref
    && !AlwaysHeldAt(f.cfg, b, i, ref)
  }

  lemma {:induction false} UnlockOfUnlockedHasAPath(f: Func, leaks: Leaks, pos: Pos, ref: LockRef)
    returns (b: BlockId, i: nat)
    requires WellFormed(f.cfg) && |f.cfg| > 0 && ModeConsistent(f.cfg, ref)
    requires UnlockOfUnlocked(pos, ref) in WalkFunction(f, leaks).log
    ensures UnlocksUnheld(f, pos, ref, b, i)
  {
    var s;
    b, i, s := LogIsGenuine(f, leaks, UnlockOfUnlocked(pos, ref));
    UnlockOfUnlockedOrigin(f, f.cfg[b].instrs[i], s, pos, ref);
  }

  lemma {:induction false} UnlockOfUnlockedOrigin(f: Func, instr: Instr, s: State, pos: Pos, ref: LockRef)
    ensures UnlockOfUnlocked(pos, ref) in Emit(f, instr, s) <==>
      instr.Release? && instr.pos == pos && instr.ref == ref && ref !in s.held
  {
  }

  /** An unlock-of-unlocked candidate exists exactly when some path reaches the unlock without the lock. */
  lemma {:induction false} UnlockOfUnlockedIsExact(f: Func, leaks: Leaks, pos: Pos, ref: LockRef)
    requires WellFormed(f.cfg) && |f.cfg| > 0 && ModeConsistent(f.cfg, ref)
    ensures UnlockOfUnlocked(pos, ref) in WalkFunction(f, leaks).log <==>
      exists b: BlockId, i: nat :: UnlocksUnheld(f, pos, ref, b, i)
  {
    if UnlockOfUnlocked(pos, ref) in WalkFunction(f, leaks).log {
      var b, i := UnlockOfUnlockedHasAPath(f, leaks, pos, ref);
    }
    forall b: BlockId, i: nat | UnlocksUnheld(f, pos, ref, b, i)
      ensures UnlockOfUnlocked(pos, ref) in WalkFunction(f, leaks).log
    {
      FinalStateIsMeet(f, leaks, b, i, ref);
      FinalStateIsLogged(f, leaks, b, i);
      UnlockOfUnlockedOrigin(f, f.cfg[b].instrs[i], FinalBefore(f, leaks, b, i), pos, ref);
    }
  }

  /** Every call in a reachable block is recorded with its must-hold locks at least once. */
  lemma {:induction false} CallSiteIsCovered(f: Func, leaks: Leaks, b: BlockId, i: nat) returns (site: CallSite)
    requires WellFormed(f.cfg) && Point(f.cfg, b, i) && f.cfg[b].instrs[i].Call?
    ensures Site(site) in WalkFunction(f, leaks).log
    ensures site.caller == f.id && site.callee == f.cfg[b].instrs[i].callee && site.pos == f.cfg[b].instrs[i].pos
    ensures forall key :: key in site.held ==>
      exists ref :: NormalizedKeyOf(f.typing, ref) == Some(key) && AlwaysHeldAt(f.cfg, b, i, ref)
    ensures forall ref ::
      ModeConsistent(f.cfg, ref) && AlwaysHeldAt(f.cfg, b, i, ref) && NormalizedKeyOf(f.typing, ref).Some?
      ==> NormalizedKeyOf(f.typing, ref).value in site.held
  {
    var s := FinalBefore(f, leaks, b, i);
    site := CallSite(f.id, f.cfg[b].instrs[i].callee, f.cfg[b].instrs[i].pos, NormalizedHeld(f, s));
    FinalStateIsLogged(f, leaks, b, i);
    forall key | key in site.held
      ensures exists ref :: NormalizedKeyOf(f.typing, ref) == Some(key) && AlwaysHeldAt(f.cfg, b, i, ref)
    {
      var ref :| ref in s.held && NormalizedKeyOf(f.typing, ref) == Some(key);
      FinalStateIsMeet(f, leaks, b, i, ref);
    }
    forall ref | ModeConsistent(f.cfg, ref) && AlwaysHeldAt(f.cfg, b, i, ref) && NormalizedKeyOf(f.typing, ref).Some?
      ensures NormalizedKeyOf(f.typing, ref).value in site.held
    {
      FinalStateIsMeet(f, leaks, b, i, ref);
      assert ref in s.held;
    }
  }

  /** Acquiring a lock while another one is held on every path leaves a lock-order edge. */
  lemma {:induction false} CertainOrderIsRecorded(f: Func, leaks: Leaks, b: BlockId, i: nat, h: LockRef)
    requires WellFormed(f.cfg) && Point(f.cfg, b, i) && f.cfg[b].instrs[i].Acquire? && h != f.cfg[b].instrs[i].ref
    requires ModeConsistent(f.cfg, h) && AlwaysHeldAt(f.cfg, b, i, h)
    requires KeyOf(f.typing, h).Some? && KeyOf(f.typing, f.cfg[b].instrs[i].ref).Some?
    ensures var instr := f.cfg[b].instrs[i];
      Ordered(LockOrderEdge(KeyOf(f.typing, h).value, KeyOf(f.typing, instr.ref).value, instr.pos, f.id))
        in WalkFunction(f, leaks).log
  {
    FinalStateIsMeet(f, leaks, b, i, h);
    FinalStateIsLogged(f, leaks, b, i);
    var instr := f.cfg[b].instrs[i];
    assert KeyOf(f.typing, instr.ref).value in KeysOf(f, instr.ref);
    assert Ordered(LockOrderEdge(KeyOf(f.typing, h).value, KeyOf(f.typing, instr.ref).value, instr.pos, f.id))
      in OrderEdges(f, instr.ref, instr.pos, FinalBefore(f, leaks, b, i));
  }

  /** Every lock-order edge has a path that holds the first lock while acquiring the second. */
  lemma {:induction false} OrderEdgeHasAPath(f: Func, leaks: Leaks, e: LockOrderEdge)
    returns (p: Path, i: nat, h: LockRef)
    requires WellFormed(f.cfg) && |f.cfg| > 0 && Ordered(e) in WalkFunction(f, leaks).log
    ensures Valid(f.cfg, p) && i < |f.cfg[End(p)].instrs|
    ensures var instr := f.cfg[End(p)].instrs[i];
      && instr.Acquire? && h != instr.ref && h in StateBefore(f.cfg, p, i).held
      && e.pos == instr.pos && e.fn == f.id
      && KeyOf(f.typing, h) == Some(e.from) && KeyOf(f.typing, instr.ref) == Some(e.to)
  {
    var b, s;
    b, i, s := LogIsGenuine(f, leaks, Ordered(e));
    p :| Reaches(f.cfg, p, b) && Witnessed(s, StateBefore(f.cfg, p, i));
    h := OrderEdgeOrigin(f, f.cfg[b].instrs[i], s, e);
  }

  /** An inconsistent-lock report on a mode-consistent lock has a path with and a path without it. */
  lemma {:induction false} InconsistencyIsGenuine(f: Func, leaks: Leaks, b: BlockId, ref: LockRef)
    returns (p: Path, q: Path)
    requires WellFormed(f.cfg) && |f.cfg| > 0 && InconsistentLock(b, ref) in WalkFunction(f, leaks).log
    requires ModeConsistent(f.cfg, ref)
    ensures Reaches(f.cfg, p, b) && Reaches(f.cfg, q, b)
    ensures ref in StateAt(f.cfg, p).held && ref !in StateAt(f.cfg, q).held
  {
    WalkFunctionInvariants(f, leaks);
    assert Genuine(f, InconsistentLock(b, ref));
    p, q :| SplitAt(f.cfg, b, ref, p, q);
  }
}
