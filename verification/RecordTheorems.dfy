/** What the remaining records of a finished walk say about paths: mismatched unlocks, deferred-lock typos, lock
    facts and call sites.  (Double locks, unlocks of unlocked locks and lock order are in WalkTheorems.) */
module RecordTheorems {
  import opened Types
  import opened LockStates
  import opened Cfgs
  import opened PathText
  import opened Records
  import opened WalkTheorems

  // ----- Unlocks in the wrong mode

  /** The instruction releases `ref`, at once or deferred. */
  ghost predicate Releasing(instr: Instr, pos: Pos, ref: LockRef) {
    (instr.Release? || instr.DeferRelease?) && instr.pos == pos && instr.ref == ref
  }

  lemma {:induction false} MismatchOrigin(f: Func, instr: Instr, s: State, pos: Pos, ref: LockRef)
    ensures MismatchedUnlock(pos, ref) in Emit(f, instr, s) <==>
      Releasing(instr, pos, ref) && KeyOf(f.typing, ref).Some?
      && ref in s.held && s.held[ref].exclusive != instr.exclusive
  {
  }

  /** Every report of a mismatched unlock has a path that arrives at the unlock, or deferred unlock, with the
      lock taken in the other mode. */
  lemma {:induction false} MismatchHasAPath(f: Func, leaks: Leaks, pos: Pos, ref: LockRef)
    returns (p: Path, i: nat, j: nat)
    requires WellFormed(f.cfg) && |f.cfg| > 0 && MismatchedUnlock(pos, ref) in WalkFunction(f, leaks).log
    ensures Valid(f.cfg, p) && i < |f.cfg[End(p)].instrs| && KeyOf(f.typing, ref).Some?
    ensures var instr, text := f.cfg[End(p)].instrs[i], TextBefore(f.cfg, p, i);
      Releasing(instr, pos, ref) && TakenAt(text, ref, j) && text[j].exclusive != instr.exclusive
  {
    var b, s;
    b, i, s := LogIsGenuine(f, leaks, MismatchedUnlock(pos, ref));
    MismatchOrigin(f, f.cfg[b].instrs[i], s, pos, ref);
    p :| Reaches(f.cfg, p, b) && Witnessed(s, StateBefore(f.cfg, p, i));
    PointReadsText(f.cfg, p, i, ref);
    j :| TakenAt(TextBefore(f.cfg, p, i), ref, j);
  }

  /** Conversely, an unlock or deferred unlock that every path reaches with the lock held in the other mode is
      reported. */
  lemma {:induction false} CertainMismatchIsReported(f: Func, leaks: Leaks, b: BlockId, i: nat, pos: Pos, ref: LockRef)
    requires WellFormed(f.cfg) && Point(f.cfg, b, i)
    requires Releasing(f.cfg[b].instrs[i], pos, ref) && KeyOf(f.typing, ref).Some?
    requires ModeConsistent(f.cfg, ref)
    requires forall p :: Reaches(f.cfg, p, b) ==>
      exists j: nat :: TakenAt(TextBefore(f.cfg, p, i), ref, j)
                       && TextBefore(f.cfg, p, i)[j].exclusive != f.cfg[b].instrs[i].exclusive
    ensures MismatchedUnlock(pos, ref) in WalkFunction(f, leaks).log
  {
    assert AlwaysHeldAt(f.cfg, b, i, ref);
    var s := FinalBefore(f, leaks, b, i);
    FinalStateIsMeet(f, leaks, b, i, ref);
    FinalStateIsWitnessed(f, leaks, b, i);
    FinalStateIsLogged(f, leaks, b, i);
    var p :| Reaches(f.cfg, p, b) && Witnessed(s, StateBefore(f.cfg, p, i));
    PointReadsText(f.cfg, p, i, ref);
    MismatchOrigin(f, f.cfg[b].instrs[i], s, pos, ref);
  }

  // ----- Records that do not depend on the lock state

  /** `r` is recorded by every execution of `instr`. */
  ghost predicate Unconditional(f: Func, instr: Instr, r: Record) {
    match r
    case DeferredLockTypo(pos, ref) => instr == DeferAcquire(ref, pos) && KeyOf(f.typing, ref).Some?
    case Acquires(fn, k) => fn == f.id && instr.Acquire? && KeyOf(f.typing, instr.ref) == Some(k)
    case Releases(fn, k) =>
      fn == f.id && (instr.Release? || instr.DeferRelease?) && KeyOf(f.typing, instr.ref) == Some(k)
    case _ => false
  }

  lemma {:induction false} UnconditionalOrigin(f: Func, instr: Instr, s: State, r: Record)
    requires r.DeferredLockTypo? || r.Acquires? || r.Releases?
    ensures r in Emit(f, instr, s) <==> Unconditional(f, instr, r)
  {
  }

  ghost predicate HasPoint(f: Func, r: Record) {
    exists b: BlockId, i: nat :: Point(f.cfg, b, i) && Unconditional(f, f.cfg[b].instrs[i], r)
  }

  /** A deferred-lock typo, an acquisition fact or a release fact is recorded exactly if the function has such an
      instruction in a reachable block. */
  lemma {:induction false} FactsAreExact(f: Func, leaks: Leaks, r: Record)
    requires WellFormed(f.cfg) && |f.cfg| > 0 && (r.DeferredLockTypo? || r.Acquires? || r.Releases?)
    ensures r in WalkFunction(f, leaks).log <==> HasPoint(f, r)
  {
    if r in WalkFunction(f, leaks).log {
      var b, i, s := LogIsGenuine(f, leaks, r);
      UnconditionalOrigin(f, f.cfg[b].instrs[i], s, r);
    }
    forall b: BlockId, i: nat | Point(f.cfg, b, i) && Unconditional(f, f.cfg[b].instrs[i], r)
      ensures r in WalkFunction(f, leaks).log
    {
      FinalStateIsLogged(f, leaks, b, i);
      UnconditionalOrigin(f, f.cfg[b].instrs[i], FinalBefore(f, leaks, b, i), r);
    }
  }

  // ----- Call sites

  /** The site is a call at (b, i) of `f`: it lists only keys of locks held on one path to the call, and all keys
      of locks held on every path that have one pointer layer and no mode clash. */
  ghost predicate SiteOf(f: Func, b: BlockId, i: nat, site: CallSite) {
    && Point(f.cfg, b, i) && f.cfg[b].instrs[i] == Call(site.callee, site.pos) && site.caller == f.id
    && (exists p :: Reaches(f.cfg, p, b) && HoldsKeys(f, TextBefore(f.cfg, p, i), site.held))
    && (forall ref, key ::
          ModeConsistent(f.cfg, ref) && AlwaysHeldAt(f.cfg, b, i, ref) && NormalizedKeyOf(f.typing, ref) == Some(key)
          ==> key in site.held)
  }

  ghost predicate HoldsKeys(f: Func, text: seq<Instr>, keys: set<Key>) {
    forall key :: key in keys ==> exists ref :: NormalizedKeyOf(f.typing, ref) == Some(key) && HeldAfter(text, ref)
  }

  /** Every recorded call site is a reachable call of the function, with locks held at it. */
  lemma {:induction false} SiteIsACall(f: Func, leaks: Leaks, site: CallSite) returns (b: BlockId, i: nat)
    requires WellFormed(f.cfg) && |f.cfg| > 0 && Site(site) in WalkFunction(f, leaks).log
    ensures SiteOf(f, b, i, site)
  {
    var s;
    b, i, s := LogIsGenuine(f, leaks, Site(site));
    SiteOrigin(f, f.cfg[b].instrs[i], s, site);
    var p :| Reaches(f.cfg, p, b) && Witnessed(s, StateBefore(f.cfg, p, i));
    forall key | key in site.held
      ensures exists ref ::
        NormalizedKeyOf(f.typing, ref) == Some(key) && HeldAfter(TextBefore(f.cfg, p, i), ref)
    {
      var ref :| ref in s.held && NormalizedKeyOf(f.typing, ref) == Some(key);
      PointReadsText(f.cfg, p, i, ref);
    }
    forall ref, key
      | ModeConsistent(f.cfg, ref) && AlwaysHeldAt(f.cfg, b, i, ref) && NormalizedKeyOf(f.typing, ref) == Some(key)
      ensures key in site.held
    {
      assert ref in s.held;
    }
  }

  lemma {:induction false} SiteOrigin(f: Func, instr: Instr, s: State, site: CallSite)
    requires Site(site) in Emit(f, instr, s)
    ensures instr == Call(site.callee, site.pos) && site.caller == f.id
    ensures forall key ::
      key in site.held <==> exists ref :: ref in s.held && NormalizedKeyOf(f.typing, ref) == Some(key)
  {
  }
}
