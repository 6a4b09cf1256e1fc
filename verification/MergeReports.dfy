/** When an inconsistent lock state at a merge point must be reported (ssawalk.go:49-53).  That a report is genuine
    is `WalkTheorems.InconsistencyIsGenuine`. */
module MergeReports {
  import opened Types
  import opened LockStates
  import opened Cfgs
  import opened PathText
  import opened Records
  import opened WalkInvariant
  import opened WalkSpec
  import opened WalkTheorems

  /** A merge point that no back edge enters. */
  ghost predicate Watched(f: Func, b: BlockId) {
    b in f.mergePoints && forall c :: (c, b) !in f.backEdges
  }

  /** Every watched successor of `b` that has not been reported is entered with the locks that `b` delivers. */
  ghost predicate Quiet(f: Func, t: Tables, b: BlockId) {
    && b < |f.cfg| && b in t.entry
    && forall c :: c in f.cfg[b].succs && Watched(f, c) && c !in t.reported ==>
         c in t.entry && SameKeys(t.entry[c], Exec(f.cfg[b].instrs, t.entry[b]))
  }

  ghost predicate QuietOutside(f: Func, t: Tables, pending: set<BlockId>) {
    forall b :: b in t.entry && b !in pending ==> Quiet(f, t, b)
  }

  /** Reports stay, and the entry of a watched block changes only with a report. */
  ghost predicate Marks(f: Func, now: Tables, before: Tables) {
    && before.reported <= now.reported
    && forall c :: c in before.entry ==>
         c in now.entry && (Watched(f, c) && c !in now.reported ==> now.entry[c] == before.entry[c])
  }

  /** And a block whose entry changed is quiet again. */
  ghost predicate Progresses(f: Func, now: Tables, before: Tables) {
    && Marks(f, now, before)
    && forall b :: b in before.entry ==> b in now.entry && (now.entry[b] == before.entry[b] || Quiet(f, now, b))
  }

  lemma {:induction false} StaysQuiet(f: Func, now: Tables, before: Tables, b: BlockId)
    requires Quiet(f, before, b) && Marks(f, now, before) && b in now.entry && now.entry[b] == before.entry[b]
    ensures Quiet(f, now, b)
  {
  }

  lemma {:induction false} ProgressesCompose(f: Func, c: Tables, b: Tables, a: Tables)
    requires Progresses(f, c, b) && Progresses(f, b, a)
    ensures Progresses(f, c, a)
  {
    forall x | x in a.entry ensures c.entry[x] == a.entry[x] || Quiet(f, c, x) {
      if b.entry[x] != a.entry[x] && c.entry[x] == b.entry[x] { StaysQuiet(f, c, b, x); }
    }
  }

  /** The first `i` successors of `b` have been delivered `Exec(b, m)`. */
  ghost predicate QuietSoFar(f: Func, t: Tables, b: BlockId, m: State, i: nat)
    requires b < |f.cfg| && i <= |f.cfg[b].succs|
  {
    forall j :: 0 <= j < i && Watched(f, f.cfg[b].succs[j]) && f.cfg[b].succs[j] !in t.reported ==>
      f.cfg[b].succs[j] in t.entry && SameKeys(t.entry[f.cfg[b].succs[j]], Exec(f.cfg[b].instrs, m))
  }

  /** An arrival that differs from the entry of a watched block has it reported. */
  lemma {:induction false} DifferenceIsNoted(f: Func, t: Tables, b: BlockId, from: Option<BlockId>, s: State)
    requires Watched(f, b) && b in t.entry && from.Some? && !SameKeys(s, t.entry[b])
    ensures b in Note(f, t, b, from, s).reported
  {
    assert (from.value, b) !in f.backEdges;
  }

  /** Comparing, and storing and running a block, marks what it has to. */
  lemma {:induction false} EnteringMarks(f: Func, t: Tables, b: BlockId, from: Option<BlockId>, s: State)
    requires b < |f.cfg| && (b in t.entry ==> from.Some?)
    ensures var n := Note(f, t, b, from, s); Progresses(f, n, t)
    ensures !Stops(t.entry, b, s) ==> Marks(f, Run(f, Note(f, t, b, from, s), b, NewEntry(t.entry, b, s)), t)
    ensures b in t.entry && Watched(f, b) && b !in Note(f, t, b, from, s).reported ==> SameKeys(s, t.entry[b])
  {
    if b in t.entry && Watched(f, b) && !SameKeys(s, t.entry[b]) { DifferenceIsNoted(f, t, b, from, s); }
  }

  lemma {:induction false} EnteringKeepsQuiet(f: Func, now: Tables, t: Tables, b: BlockId, pending: set<BlockId>)
    requires QuietOutside(f, t, pending) && Marks(f, now, t) && now.entry.Keys == t.entry.Keys + {b}
    requires forall c :: c in t.entry && c != b ==> now.entry[c] == t.entry[c]
    ensures QuietOutside(f, now, pending + {b})
  {
    forall c | c in now.entry && c !in pending + {b} ensures Quiet(f, now, c) { StaysQuiet(f, now, t, c); }
  }

  lemma {:induction false} NotingKeepsQuiet(f: Func, now: Tables, t: Tables, pending: set<BlockId>)
    requires QuietOutside(f, t, pending) && Marks(f, now, t) && now.entry == t.entry
    ensures QuietOutside(f, now, pending)
  {
    forall c | c in now.entry && c !in pending ensures Quiet(f, now, c) { StaysQuiet(f, now, t, c); }
  }

  lemma {:induction false} LeaveQuiet(f: Func, now: Tables, u: Tables, t: Tables, b: BlockId, s: State,
                                      pending: set<BlockId>)
    requires Progresses(f, now, u) && Marks(f, u, t) && QuietOutside(f, now, pending + {b}) && Quiet(f, now, b)
    requires u.entry.Keys == t.entry.Keys + {b} && forall c :: c in t.entry && c != b ==> u.entry[c] == t.entry[c]
    requires if b in t.entry then Watched(f, b) ==> b in u.reported else u.entry[b] == s
    ensures Progresses(f, now, t) && QuietOutside(f, now, pending)
    ensures Watched(f, b) && b !in now.reported ==> b in now.entry && SameKeys(now.entry[b], s)
  {
    forall c | c in t.entry ensures now.entry[c] == t.entry[c] || Quiet(f, now, c) {
      if c != b { assert u.entry[c] == t.entry[c]; }
    }
  }

  lemma {:induction false} WalkIsQuiet(f: Func, t: Tables, b: BlockId, from: Option<BlockId>, s: State,
                                       pending: set<BlockId>)
    requires WellFormed(f.cfg) && Bounded(f.cfg, t.entry) && b < |f.cfg| && Within(Universe(f.cfg), s)
    requires QuietOutside(f, t, pending) && (b in t.entry ==> from.Some?)
    ensures var r := WalkBlock(f, t, b, from, s);
      && Progresses(f, r, t) && QuietOutside(f, r, pending)
      && (Watched(f, b) && b !in r.reported ==> b in r.entry && SameKeys(r.entry[b], s))
    decreases Potential(f.cfg, t.entry), 1
  {
    if Stops(t.entry, b, s) {
      EnteringMarks(f, t, b, from, s);
      NotingKeepsQuiet(f, Note(f, t, b, from, s), t, pending);
    } else {
      var u, m := Enter(f, t, b, from, s);
      EnteredIsQuiet(f, t, u, b, m, s, pending);
    }
  }

  /** The successors of a block that has been entered. */
  lemma {:induction false} EnteredIsQuiet(f: Func, t: Tables, u: Tables, b: BlockId, m: State, s: State,
                                          pending: set<BlockId>)
    requires WellFormed(f.cfg) && b < |f.cfg| && QuietOutside(f, t, pending)
    requires u.entry == t.entry[b := m] && Marks(f, u, t) && Bounded(f.cfg, u.entry)
    requires if b in t.entry then Watched(f, b) ==> b in u.reported else m == s
    requires Within(Universe(f.cfg), Exec(f.cfg[b].instrs, m))
    ensures var r := WalkSuccs(f, u, b, Exec(f.cfg[b].instrs, m), 0);
      && Progresses(f, r, t) && QuietOutside(f, r, pending)
      && (Watched(f, b) && b !in r.reported ==> b in r.entry && SameKeys(r.entry[b], s))
    decreases Potential(f.cfg, u.entry), |f.cfg[b].succs| + 2
  {
    EnteringKeepsQuiet(f, u, t, b, pending);
    SuccsAreQuiet(f, u, b, m, 0, pending + {b});
    LeaveQuiet(f, WalkSuccs(f, u, b, Exec(f.cfg[b].instrs, m), 0), u, t, b, s, pending);
  }

  /** `u`: the tables after the block has been entered from `m` and executed. */
  lemma {:induction false} Enter(f: Func, t: Tables, b: BlockId, from: Option<BlockId>, s: State)
    returns (u: Tables, m: State)
    requires WellFormed(f.cfg) && Bounded(f.cfg, t.entry) && b < |f.cfg| && Within(Universe(f.cfg), s)
    requires (b in t.entry ==> from.Some?) && !Stops(t.entry, b, s)
    ensures u.entry == t.entry[b := m] && Marks(f, u, t) && Bounded(f.cfg, u.entry)
    ensures if b in t.entry then Watched(f, b) ==> b in u.reported else m == s
    ensures Potential(f.cfg, u.entry) < Potential(f.cfg, t.entry) && Within(Universe(f.cfg), Exec(f.cfg[b].instrs, m))
    ensures WalkBlock(f, t, b, from, s) == WalkSuccs(f, u, b, Exec(f.cfg[b].instrs, m), 0)
  {
    m := NewEntry(t.entry, b, s);
    VisitShrinks(f.cfg, t.entry, b, s);
    BlockWithin(f.cfg, b, m);
    u := Run(f, Note(f, t, b, from, s), b, m);
    EnteringMarks(f, t, b, from, s);
  }

  lemma {:induction false} SuccsAreQuiet(f: Func, t: Tables, b: BlockId, m: State, i: nat, pending: set<BlockId>)
    requires WellFormed(f.cfg) && Bounded(f.cfg, t.entry) && b < |f.cfg| && i <= |f.cfg[b].succs|
    requires Within(Universe(f.cfg), Exec(f.cfg[b].instrs, m)) && QuietOutside(f, t, pending) && b in t.entry
    requires Quiet(f, t, b) || (t.entry[b] == m && QuietSoFar(f, t, b, m, i))
    ensures var r := WalkSuccs(f, t, b, Exec(f.cfg[b].instrs, m), i);
      Progresses(f, r, t) && QuietOutside(f, r, pending) && Quiet(f, r, b)
    decreases Potential(f.cfg, t.entry), |f.cfg[b].succs| - i + 1
  {
    if i < |f.cfg[b].succs| {
      var out := Exec(f.cfg[b].instrs, m);
      var u := WalkBlock(f, t, f.cfg[b].succs[i], Some(b), out);
      WalkIsQuiet(f, t, f.cfg[b].succs[i], Some(b), out, pending);
      OneMoreQuiet(f, u, t, b, m, i);
      SuccsAreQuiet(f, u, b, m, i + 1, pending);
      ProgressesCompose(f, WalkSuccs(f, t, b, out, i), u, t);
    }
  }

  lemma {:induction false} OneMoreQuiet(f: Func, now: Tables, before: Tables, b: BlockId, m: State, i: nat)
    requires b < |f.cfg| && i < |f.cfg[b].succs| && b in before.entry && Progresses(f, now, before)
    requires var c := f.cfg[b].succs[i];
      Watched(f, c) && c !in now.reported ==> c in now.entry && SameKeys(now.entry[c], Exec(f.cfg[b].instrs, m))
    requires Quiet(f, before, b) || (before.entry[b] == m && QuietSoFar(f, before, b, m, i))
    ensures Quiet(f, now, b) || (now.entry[b] == m && QuietSoFar(f, now, b, m, i + 1))
  {
    if now.entry[b] == before.entry[b] && Quiet(f, before, b) { StaysQuiet(f, now, before, b); }
  }

  // ----- What a report lists

  /** Some two summaries of the block that disagree have been compared, and their differences logged. */
  ghost predicate Compared(f: Func, b: BlockId, log: set<Record>, prev: State, s: State) {
    && Walked(f.cfg, b, prev) && Walked(f.cfg, b, s) && !SameKeys(prev, s)
    && forall k :: (k in prev.held <==> k !in s.held) && KeyOf(f.typing, k).Some? ==> InconsistentLock(b, k) in log
  }

  ghost predicate Noted(f: Func, t: Tables) {
    forall b :: b in t.reported ==> exists prev, s :: Compared(f, b, t.log, prev, s)
  }

  lemma {:induction false} NotedInMore(f: Func, t: Tables, more: Tables)
    requires Noted(f, t) && t.log <= more.log && more.reported == t.reported
    ensures Noted(f, more)
  {
    forall b | b in more.reported ensures exists prev, s :: Compared(f, b, more.log, prev, s) {
      var prev, s :| Compared(f, b, t.log, prev, s);
      assert Compared(f, b, more.log, prev, s);
    }
  }

  lemma {:induction false} NoteIsNoted(f: Func, t: Tables, b: BlockId, from: Option<BlockId>, s: State)
    requires Noted(f, t) && Summaries(f, t) && Walked(f.cfg, b, s)
    ensures Noted(f, Note(f, t, b, from, s))
  {
    var n := Note(f, t, b, from, s);
    if Reports(f, t, b, from, s) {
      assert Compared(f, b, n.log, t.entry[b], s);
      forall c | c in n.reported ensures exists prev, x :: Compared(f, c, n.log, prev, x) {
        if c != b {
          var prev, x :| Compared(f, c, t.log, prev, x);
          assert Compared(f, c, n.log, prev, x);
        }
      }
    }
  }

  lemma {:induction false} WalkIsNoted(f: Func, t: Tables, b: BlockId, from: Option<BlockId>, s: State)
    requires WellFormed(f.cfg) && Local(f, t) && b < |f.cfg| && Within(Universe(f.cfg), s) && Walked(f.cfg, b, s)
    requires Noted(f, t)
    ensures Noted(f, WalkBlock(f, t, b, from, s))
    decreases Potential(f.cfg, t.entry), 0
  {
    var n := Note(f, t, b, from, s);
    NoteKeepsLocal(f, t, b, from, s);
    NoteIsNoted(f, t, b, from, s);
    if !Stops(t.entry, b, s) {
      var m := NewEntry(t.entry, b, s);
      VisitShrinks(f.cfg, t.entry, b, s);
      BlockWithin(f.cfg, b, m);
      RunKeepsLocal(f, n, b, s);
      NotedInMore(f, n, Run(f, n, b, m));
      SuccsAreNoted(f, Run(f, n, b, m), b, m, 0);
    }
  }

  lemma {:induction false} SuccsAreNoted(f: Func, t: Tables, b: BlockId, m: State, i: nat)
    requires WellFormed(f.cfg) && Local(f, t) && b < |f.cfg| && i <= |f.cfg[b].succs|
    requires Within(Universe(f.cfg), Exec(f.cfg[b].instrs, m)) && Walked(f.cfg, b, m) && Noted(f, t)
    ensures Noted(f, WalkSuccs(f, t, b, Exec(f.cfg[b].instrs, m), i))
    decreases Potential(f.cfg, t.entry), |f.cfg[b].succs| - i
  {
    if i < |f.cfg[b].succs| {
      var out := Exec(f.cfg[b].instrs, m);
      WalkedAlongEdge(f.cfg, b, f.cfg[b].succs[i], m);
      WalkKeepsLocal(f, t, f.cfg[b].succs[i], Some(b), out);
      WalkIsNoted(f, t, f.cfg[b].succs[i], Some(b), out);
      SuccsAreNoted(f, WalkBlock(f, t, f.cfg[b].succs[i], Some(b), out), b, m, i + 1);
    }
  }

  // ----- In terms of paths

  /** After the last block of the path `k` is held. */
  ghost predicate HeldThrough(cfg: Cfg, p: Path, k: LockRef)
    requires Valid(cfg, p)
  {
    HeldAfter(TextTo(cfg, p) + cfg[End(p)].instrs, k)
  }

  lemma {:induction false} ThroughReadsState(cfg: Cfg, p: Path, k: LockRef)
    requires Valid(cfg, p)
    ensures HeldThrough(cfg, p, k) <==> k in Exec(cfg[End(p)].instrs, StateAt(cfg, p)).held
  {
    StateIsExecOfText(cfg, p);
    ExecConcat(TextTo(cfg, p), cfg[End(p)].instrs, EMPTY);
    HeldReadsText(TextTo(cfg, p) + cfg[End(p)].instrs, k);
  }

  /** The final exit state of a block holds exactly what all paths through it hold, for mode-consistent locks. */
  lemma {:induction false} ExitIsMeet(f: Func, leaks: Leaks, c: BlockId, k: LockRef)
    requires WellFormed(f.cfg) && |f.cfg| > 0 && Reachable(f.cfg, c) && ModeConsistent(f.cfg, k)
    ensures c < |f.cfg| && c in WalkFunction(f, leaks).entry
    ensures k in Exec(f.cfg[c].instrs, WalkFunction(f, leaks).entry[c]).held <==>
      forall p :: Reaches(f.cfg, p, c) ==> HeldThrough(f.cfg, p, k)
  {
    EntryIsMeetOverAllPaths(f, leaks, c, k);
    var m, body := WalkFunction(f, leaks).entry[c], f.cfg[c].instrs;
    ExecIsGenKill(body, m, k);
    forall p | Reaches(f.cfg, p, c)
      ensures HeldThrough(f.cfg, p, k) <==>
        EffectOn(body, k).Gen? || (EffectOn(body, k).Pass? && k in StateAt(f.cfg, p).held)
    {
      ThroughReadsState(f.cfg, p, k);
      ExecIsGenKill(body, StateAt(f.cfg, p), k);
    }
  }

  /** All paths to `b` agree on the pending unlocks. */
  ghost predicate PendingAgrees(cfg: Cfg, b: BlockId) {
    forall p, q :: Reaches(cfg, p, b) && Reaches(cfg, q, b) ==> StateAt(cfg, p).deferred == StateAt(cfg, q).deferred
  }

  lemma {:induction false} SummariesAgreeOnPending(cfg: Cfg, b: BlockId, m: State, n: State)
    requires PendingAgrees(cfg, b) && Walked(cfg, b, m) && Walked(cfg, b, n)
    ensures m.deferred == n.deferred
  {
    var p :| Reaches(cfg, p, b) && Witnessed(m, StateAt(cfg, p));
    forall x: State | Walked(cfg, b, x) ensures x.deferred == StateAt(cfg, p).deferred {
      var q :| Reaches(cfg, q, b) && Witnessed(x, StateAt(cfg, q));
      forall k | k in StateAt(cfg, p).deferred ensures k in x.deferred { assert AlwaysDeferred(cfg, b, k); }
    }
  }

  /** A merge point without back edges where one predecessor surely holds a lock and another does not is reported;
      and if the paths agree on pending unlocks and all locks have keys, some lock is named. */
  lemma {:induction false} DisagreementIsReported(f: Func, leaks: Leaks, b: BlockId, c: BlockId, d: BlockId, k: LockRef)
    requires WellFormed(f.cfg) && |f.cfg| > 0 && Watched(f, b) && ModeConsistent(f.cfg, k)
    requires Reachable(f.cfg, c) && c < |f.cfg| && b in f.cfg[c].succs
    requires Reachable(f.cfg, d) && d < |f.cfg| && b in f.cfg[d].succs
    requires forall p :: Reaches(f.cfg, p, c) ==> HeldThrough(f.cfg, p, k)
    requires exists p :: Reaches(f.cfg, p, d) && !HeldThrough(f.cfg, p, k)
    ensures b in WalkFunction(f, leaks).reported
    ensures PendingAgrees(f.cfg, b) && (forall ref :: ref in Universe(f.cfg) ==> KeyOf(f.typing, ref).Some?) ==>
      exists ref :: InconsistentLock(b, ref) in WalkFunction(f, leaks).log
  {
    var t := WalkFunction(f, leaks);
    WalkIsQuiet(f, Start(leaks), 0, None, EMPTY, {});
    ExitIsMeet(f, leaks, c, k);
    ExitIsMeet(f, leaks, d, k);
    assert Quiet(f, t, c) && Quiet(f, t, d);
    WalkedStart(f.cfg);
    WalkIsNoted(f, Start(leaks), 0, None, EMPTY);
    if PendingAgrees(f.cfg, b) && forall ref :: ref in Universe(f.cfg) ==> KeyOf(f.typing, ref).Some? {
      SomeLockIsNamed(f, b, t);
    }
  }

  lemma {:induction false} SomeLockIsNamed(f: Func, b: BlockId, t: Tables)
    requires Noted(f, t) && b in t.reported && PendingAgrees(f.cfg, b)
    requires forall ref :: ref in Universe(f.cfg) ==> KeyOf(f.typing, ref).Some?
    ensures exists ref :: InconsistentLock(b, ref) in t.log
  {
    var prev, s :| Compared(f, b, t.log, prev, s);
    SummariesAgreeOnPending(f.cfg, b, prev, s);
    WalkedWithin(f.cfg, b, prev);
    WalkedWithin(f.cfg, b, s);
    var ref :| (ref in prev.held <==> ref !in s.held);
    assert InconsistentLock(b, ref) in t.log;
  }
}
