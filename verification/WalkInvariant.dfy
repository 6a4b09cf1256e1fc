/** What every step of the walk keeps true of its tables. */
module WalkInvariant {
  import opened Types
  import opened Sets
  import opened LockStates
  import opened Cfgs
  import opened Records

  type Entries = map<BlockId, State>

  /** `m` is an honest summary of some of the paths to `b`: all it claims holds on at least one
      path, and it claims everything that holds on every path. */
  ghost predicate Walked(cfg: Cfg, b: BlockId, m: State) {
    && (exists p :: Reaches(cfg, p, b) && Witnessed(m, StateAt(cfg, p)))
    && (forall k :: ModeConsistent(cfg, k) && AlwaysHeld(cfg, b, k) ==> k in m.held)
    && (forall k :: AlwaysDeferred(cfg, b, k) ==> k in m.deferred)
  }

  /** The recorded entry of each successor claims no more than `b` delivers. */
  ghost predicate Closed(cfg: Cfg, entry: Entries, b: BlockId) {
    && b < |cfg| && b in entry
    && forall c :: c in cfg[b].succs ==> c in entry && Below(entry[c], Exec(cfg[b].instrs, entry[b]))
  }

  /** Blocks are never forgotten and their entries only lose claims. */
  ghost predicate Shrinks(now: Entries, before: Entries) {
    forall b :: b in before ==> b in now && Below(now[b], before[b])
  }

  /** A block whose entry changed has had all its edges brought up to date. */
  ghost predicate Settled(cfg: Cfg, now: Entries, before: Entries) {
    forall b :: b in before ==> b in now && (now[b] == before[b] || Closed(cfg, now, b))
  }

  lemma {:induction false} WalkedStart(cfg: Cfg)
    requires |cfg| > 0
    ensures Walked(cfg, 0, EMPTY)
  {
    assert Reaches(cfg, Entry, 0) && StateAt(cfg, Entry) == EMPTY;
  }

  /** Executing a block turns a summary of its entry into a summary of each successor's entry. */
  lemma {:induction false} WalkedAlongEdge(cfg: Cfg, b: BlockId, c: BlockId, m: State)
    requires WellFormed(cfg) && b < |cfg| && c in cfg[b].succs && Walked(cfg, b, m)
    ensures Walked(cfg, c, Exec(cfg[b].instrs, m))
  {
    var out := Exec(cfg[b].instrs, m);
    var p :| Reaches(cfg, p, b) && Witnessed(m, StateAt(cfg, p));
    ExecKeepsWitnessed(cfg[b].instrs, m, StateAt(cfg, p));
    assert Reaches(cfg, Via(p, c), c);
    forall k | ModeConsistent(cfg, k) && AlwaysHeld(cfg, c, k) ensures k in out.held {
      AlwaysHeldAlongEdge(cfg, p, b, c, k, m);
    }
    forall k | AlwaysDeferred(cfg, c, k) ensures k in out.deferred {
      AlwaysDeferredAlongEdge(cfg, b, c, k, m);
    }
  }

  /** Summaries are closed under merging, whatever the modes of locks that are not mode-consistent. */
  lemma {:induction false} WalkedMeet(cfg: Cfg, b: BlockId, m: State, n: State)
    requires Walked(cfg, b, m) && Walked(cfg, b, n)
    ensures Walked(cfg, b, Meet(m, n))
  {
    var p :| Reaches(cfg, p, b) && Witnessed(m, StateAt(cfg, p));
    var q :| Reaches(cfg, q, b) && Witnessed(n, StateAt(cfg, q));
    MeetIsWitnessed(m, n);
    assert Witnessed(Meet(m, n), StateAt(cfg, p));
  }

  lemma {:induction false} WalkedWithin(cfg: Cfg, b: BlockId, m: State)
    requires Walked(cfg, b, m)
    ensures Within(Universe(cfg), m)
  {
    var p :| Reaches(cfg, p, b) && Witnessed(m, StateAt(cfg, p));
    PathWithin(cfg, p);
  }

  /** Shrinking the entries of other blocks keeps a block closed. */
  lemma {:induction false} ClosedAfterShrink(cfg: Cfg, now: Entries, before: Entries, b: BlockId)
    requires Closed(cfg, before, b) && Shrinks(now, before) && now[b] == before[b]
    ensures Closed(cfg, now, b)
  {
  }

  // ----- The termination measure

  /** What a block may still lose: its unvisited status, a held lock, a pending unlock. */
  datatype Slot =
    | Unvisited(block: BlockId)
    | Holds(block: BlockId, ref: LockRef)
    | Pending(block: BlockId, ref: LockRef)

  ghost function Slots(cfg: Cfg): set<Slot> {
    (set b | 0 <= b < |cfg| :: Unvisited(b))
    + (set b, k | 0 <= b < |cfg| && k in Universe(cfg) :: Holds(b, k))
    + (set b, k | 0 <= b < |cfg| && k in Universe(cfg) :: Pending(b, k))
  }

  ghost predicate Open(entry: Entries, s: Slot) {
    s.block in entry ==>
      match s
      case Unvisited(_) => false
      case Holds(b, k) => k in entry[b].held
      case Pending(b, k) => k in entry[b].deferred
  }

  ghost function Potential(cfg: Cfg, entry: Entries): set<Slot> {
    set s | s in Slots(cfg) && Open(entry, s)
  }

  lemma {:induction false} PotentialShrinks(cfg: Cfg, now: Entries, before: Entries)
    requires Shrinks(now, before)
    ensures Potential(cfg, now) <= Potential(cfg, before)
  {
  }

  /** A first visit and a strictly smaller merge both use up potential. */
  lemma {:induction false} PotentialDrops(cfg: Cfg, entry: Entries, b: BlockId, m: State)
    requires b < |cfg| && Within(Universe(cfg), m)
    requires b in entry ==> Within(Universe(cfg), entry[b]) && Below(m, entry[b]) && !SameKeys(m, entry[b])
    ensures Potential(cfg, entry[b := m]) < Potential(cfg, entry)
  {
    PotentialShrinks(cfg, entry[b := m], entry);
    var lost: Slot;
    if b !in entry {
      lost := Unvisited(b);
    } else if m.held.Keys != entry[b].held.Keys {
      var k :| k in entry[b].held && k !in m.held;
      lost := Holds(b, k);
    } else {
      var k :| k in entry[b].deferred && k !in m.deferred;
      lost := Pending(b, k);
    }
    assert lost in Potential(cfg, entry) && lost !in Potential(cfg, entry[b := m]);
  }

  // ----- The work bound

  ghost function Size(s: State): nat { |s.held.Keys| + |s.deferred| }

  ghost function WorkBound(cfg: Cfg): nat { 1 + 2 * |Universe(cfg)| }

  lemma {:induction false} SizeWithin(u: set<LockRef>, s: State)
    requires Within(u, s)
    ensures Size(s) <= 2 * |u|
  {
    SubsetIsNoLarger(s.held.Keys, u);
    SubsetIsNoLarger(s.deferred, u);
  }

  lemma {:induction false} SizeDrops(a: State, b: State)
    requires Below(a, b) && !SameKeys(a, b)
    ensures Size(a) < Size(b)
  {
    SubsetIsNoLarger(a.held.Keys, b.held.Keys);
    SubsetIsNoLarger(a.deferred, b.deferred);
    if Size(a) == Size(b) {
      SubsetOfSameSize(a.held.Keys, b.held.Keys);
      SubsetOfSameSize(a.deferred, b.deferred);
    }
  }

  // ----- What the records mean

  ghost predicate EmittedFrom(f: Func, r: Record, b: BlockId, i: nat, m: State) {
    && b < |f.cfg| && i < |f.cfg[b].instrs| && Walked(f.cfg, b, m)
    && r in Emit(f, f.cfg[b].instrs[i], Exec(f.cfg[b].instrs[..i], m))
  }

  ghost predicate SplitAt(cfg: Cfg, b: BlockId, k: LockRef, p: Path, q: Path) {
    && Reaches(cfg, p, b) && Reaches(cfg, q, b)
    && k in StateAt(cfg, p).held && k !in StateAt(cfg, q).held
  }

  /** A record was made by executing an instruction from an honest summary; an inconsistency
      report on a mode-consistent lock has one path with the lock and one without. */
  ghost predicate Genuine(f: Func, r: Record) {
    if r.InconsistentLock? then
      ModeConsistent(f.cfg, r.ref) ==> exists p, q :: SplitAt(f.cfg, r.block, r.ref, p, q)
    else
      exists b, i, m :: EmittedFrom(f, r, b, i, m)
  }

  lemma {:induction false} GenuineEmitted(f: Func, b: BlockId, m: State, r: Record)
    requires b < |f.cfg| && Walked(f.cfg, b, m) && r in EmitAll(f, f.cfg[b].instrs, m)
    ensures Genuine(f, r)
  {
    var i := EmitAllOrigin(f, f.cfg[b].instrs, m, r);
    EmitReportsNoInconsistency(f, f.cfg[b].instrs[i], Exec(f.cfg[b].instrs[..i], m), r);
    assert EmittedFrom(f, r, b, i, m);
  }

  lemma {:induction false} GenuineEmitAll(f: Func, b: BlockId, m: State)
    requires b < |f.cfg| && Walked(f.cfg, b, m)
    ensures forall r :: r in EmitAll(f, f.cfg[b].instrs, m) ==> Genuine(f, r)
  {
    forall r | r in EmitAll(f, f.cfg[b].instrs, m) ensures Genuine(f, r) {
      GenuineEmitted(f, b, m, r);
    }
  }

  /** Two summaries of one block that disagree on a mode-consistent lock prove a real split. */
  lemma {:induction false} GenuineSplit(f: Func, b: BlockId, m: State, n: State, k: LockRef)
    requires Walked(f.cfg, b, m) && Walked(f.cfg, b, n) && k in m.held && k !in n.held
    ensures Genuine(f, InconsistentLock(b, k))
  {
    if ModeConsistent(f.cfg, k) {
      var p :| Reaches(f.cfg, p, b) && Witnessed(m, StateAt(f.cfg, p));
      assert !AlwaysHeld(f.cfg, b, k);
      var q :| Reaches(f.cfg, q, b) && k !in StateAt(f.cfg, q).held;
      assert SplitAt(f.cfg, b, k, p, q);
    }
  }

  /** The records of block `b` reflect its current entry state. */
  ghost predicate Recorded(f: Func, b: BlockId, m: State, exits: Entries, log: set<Record>) {
    && b < |f.cfg| && EmitAll(f, f.cfg[b].instrs, m) <= log
    && b in exits && exits[b] == Exec(f.cfg[b].instrs, m)
  }

  // ----- From the final table to all paths

  /** A table closed on every block under-approximates every path. */
  lemma {:induction false} ClosedTableIsSound(cfg: Cfg, entry: Entries, p: Path)
    requires Valid(cfg, p) && 0 in entry && Below(entry[0], EMPTY)
    requires forall b :: b in entry ==> Closed(cfg, entry, b)
    ensures End(p) in entry && Below(entry[End(p)], StateAt(cfg, p))
  {
    match p
    case Entry =>
    case Via(q, c) =>
      ClosedTableIsSound(cfg, entry, q);
      assert Closed(cfg, entry, End(q));
      ExecKeepsBelow(cfg[End(q)].instrs, entry[End(q)], StateAt(cfg, q));
  }
}
