/** A class of functions on which the walk as coded computes what the snapshot walk computes: entries,
    records and leak candidates. */
module LiteralAgreement {
  import opened Types
  import opened LockStates
  import opened Cfgs
  import opened Records
  import opened WalkInvariant
  import opened WalkSpec
  import opened Traces
  import opened LeakFiling
  import WalkTheorems
  import L = LiteralWalk

  /** All paths to `b` agree on the held locks and the pending unlocks. */
  ghost predicate AgreesAt(cfg: Cfg, b: BlockId) {
    forall p, q :: Reaches(cfg, p, b) && Reaches(cfg, q, b) ==> SameKeys(StateAt(cfg, p), StateAt(cfg, q))
  }

  /** On every path the block leaves the held locks, their modes and the pending unlocks as it finds them. */
  ghost predicate Balanced(cfg: Cfg, b: BlockId)
    requires b < |cfg|
  {
    forall p :: Reaches(cfg, p, b) ==> SameLocks(Exec(cfg[b].instrs, StateAt(cfg, p)), StateAt(cfg, p))
  }

  /** Wherever paths disagree the block is balanced; and no lock is entered with in two modes. */
  ghost predicate Harmless(cfg: Cfg) {
    && (forall b :: 0 <= b < |cfg| ==> Balanced(cfg, b) || AgreesAt(cfg, b))
    && (forall k :: ModeConsistent(cfg, k))
  }

  // ----- Balanced blocks and summaries

  /** A lock of a summary survives a balanced block in its mode. */
  lemma {:induction false} BalancedKeepsHeld(cfg: Cfg, b: BlockId, m: State, k: LockRef)
    requires b < |cfg| && Balanced(cfg, b) && Walked(cfg, b, m) && k in m.held
    ensures var out := Exec(cfg[b].instrs, m); k in out.held && out.held[k].exclusive == m.held[k].exclusive
  {
    var p :| Reaches(cfg, p, b) && Witnessed(m, StateAt(cfg, p));
    ExecIsGenKill(cfg[b].instrs, m, k);
    ExecIsGenKill(cfg[b].instrs, StateAt(cfg, p), k);
  }

  /** What holds after a balanced block, from a summary of its paths, the summary has already. */
  lemma {:induction false} BalancedAddsNothing(cfg: Cfg, b: BlockId, m: State, k: LockRef)
    requires b < |cfg| && Balanced(cfg, b) && Walked(cfg, b, m) && ModeConsistent(cfg, k)
    requires k in Exec(cfg[b].instrs, m).held
    ensures k in m.held
  {
    var body := cfg[b].instrs;
    ExecIsGenKill(body, m, k);
    if EffectOn(body, k).Gen? {
      forall p | Reaches(cfg, p, b) ensures k in StateAt(cfg, p).held { ExecIsGenKill(body, StateAt(cfg, p), k); }
      assert AlwaysHeld(cfg, b, k);
    }
  }

  lemma {:induction false} BalancedKeepsDeferred(cfg: Cfg, b: BlockId, m: State)
    requires b < |cfg| && Balanced(cfg, b) && Walked(cfg, b, m)
    ensures Exec(cfg[b].instrs, m).deferred == m.deferred
  {
    var body := cfg[b].instrs;
    forall k ensures k in Exec(body, m).deferred <==> k in m.deferred {
      ExecDeferred(body, m, k);
      if Defers(body, k) {
        forall p | Reaches(cfg, p, b) ensures k in StateAt(cfg, p).deferred { ExecDeferred(body, StateAt(cfg, p), k); }
        assert AlwaysDeferred(cfg, b, k);
      }
    }
  }

  lemma {:induction false} BalancedOnSummaries(cfg: Cfg, b: BlockId, m: State)
    requires b < |cfg| && Balanced(cfg, b) && Walked(cfg, b, m) && forall k :: ModeConsistent(cfg, k)
    ensures SameLocks(Exec(cfg[b].instrs, m), m)
  {
    var out := Exec(cfg[b].instrs, m);
    forall k | k in m.held ensures k in out.held && out.held[k].exclusive == m.held[k].exclusive {
      BalancedKeepsHeld(cfg, b, m, k);
    }
    forall k | k in out.held ensures k in m.held {
      assert ModeConsistent(cfg, k);
      BalancedAddsNothing(cfg, b, m, k);
    }
    BalancedKeepsDeferred(cfg, b, m);
  }

  /** Where all paths agree there is only one honest summary. */
  lemma {:induction false} SummaryIsPath(cfg: Cfg, b: BlockId, m: State, p: Path)
    requires (forall k :: ModeConsistent(cfg, k)) && AgreesAt(cfg, b) && Walked(cfg, b, m) && Reaches(cfg, p, b)
    ensures SameKeys(m, StateAt(cfg, p))
  {
    var q :| Reaches(cfg, q, b) && Witnessed(m, StateAt(cfg, q));
    forall k | k in StateAt(cfg, p).held ensures k in m.held { assert ModeConsistent(cfg, k) && AlwaysHeld(cfg, b, k); }
    forall k | k in StateAt(cfg, p).deferred ensures k in m.deferred { assert AlwaysDeferred(cfg, b, k); }
  }

  lemma {:induction false} SummariesAgree(cfg: Cfg, b: BlockId, m: State, n: State)
    requires (forall k :: ModeConsistent(cfg, k)) && AgreesAt(cfg, b) && Walked(cfg, b, m) && Walked(cfg, b, n)
    ensures SameKeys(m, n)
  {
    var p :| Reaches(cfg, p, b) && Witnessed(m, StateAt(cfg, p));
    SummaryIsPath(cfg, b, m, p);
    SummaryIsPath(cfg, b, n, p);
  }

  // ----- What the simulation needs to know about arriving states

  /** A family of states per block, closed under execution and merging, in which a merge loses something
      only at a block that then leaves the merged state as it is. */
  ghost predicate Steady(cfg: Cfg, good: (BlockId, State) -> bool) {
    && (forall b: BlockId, c, m {:trigger good(c, Exec(cfg[b].instrs, m))} ::
          b < |cfg| && c in cfg[b].succs && good(b, m) ==> good(c, Exec(cfg[b].instrs, m)))
    && (forall b, m, s {:trigger good(b, Meet(m, s))} :: good(b, m) && good(b, s) ==> good(b, Meet(m, s)))
    && (forall b: BlockId, m, s {:trigger Exec(cfg[b].instrs, Meet(m, s))} ::
          b < |cfg| && good(b, m) && good(b, s) && !SameKeys(Meet(m, s), m) ==>
            SameLocks(Exec(cfg[b].instrs, Meet(m, s)), Meet(m, s)))
  }

  /** In a harmless function a re-walk only happens at a block that leaves the merged state as it is. */
  lemma {:induction false} RewalkIsNeutral(cfg: Cfg, b: BlockId, m: State, s: State)
    requires Harmless(cfg) && b < |cfg| && Walked(cfg, b, m) && Walked(cfg, b, s) && !SameKeys(Meet(m, s), m)
    ensures SameLocks(Exec(cfg[b].instrs, Meet(m, s)), Meet(m, s))
  {
    WalkedMeet(cfg, b, m, s);
    if AgreesAt(cfg, b) { SummariesAgree(cfg, b, Meet(m, s), m); }
    BalancedOnSummaries(cfg, b, Meet(m, s));
  }

  lemma {:induction false} HarmlessIsSteady(cfg: Cfg)
    requires Cfgs.WellFormed(cfg) && Harmless(cfg)
    ensures Steady(cfg, (b: BlockId, m: State) => Walked(cfg, b, m))
  {
    forall b: BlockId, c, m | b < |cfg| && c in cfg[b].succs && Walked(cfg, b, m)
      ensures Walked(cfg, c, Exec(cfg[b].instrs, m))
    {
      WalkedAlongEdge(cfg, b, c, m);
    }
    forall b, m, s | Walked(cfg, b, m) && Walked(cfg, b, s) ensures Walked(cfg, b, Meet(m, s)) {
      WalkedMeet(cfg, b, m, s);
    }
    forall b: BlockId, m, s | b < |cfg| && Walked(cfg, b, m) && Walked(cfg, b, s) && !SameKeys(Meet(m, s), m)
      ensures SameLocks(Exec(cfg[b].instrs, Meet(m, s)), Meet(m, s))
    {
      RewalkIsNeutral(cfg, b, m, s);
    }
  }

  // ----- The simulation

  /** The coded walk has stored, and last executed each block from, the snapshot entries. */
  ghost predicate SameEntries(o: L.Outcome, entry: Entries) {
    && o.entry.Keys == entry.Keys
    && forall b :: b in entry ==> SameLocks(o.entry[b].stored, entry[b]) && SameLocks(o.entry[b].ran, entry[b])
  }

  /** A relation between what the coded walk did and the tables of the snapshot walk. */
  type Relation = (seq<L.Event>, Tables) -> bool

  /** Comparing, and executing a block, in both walks keeps the relation. */
  ghost predicate Kept(f: Func, rel: Relation) {
    && (forall trace, t, b, from, stored, s', s
          {:trigger rel(trace + [L.Differed(b, from, stored, s')], Note(f, t, b, from, s))} ::
          rel(trace, t) && b in t.entry && SameLocks(stored, t.entry[b]) && SameLocks(s', s) ==>
            rel(trace + [L.Differed(b, from, stored, s')], Note(f, t, b, from, s)))
    && (forall trace, t, b: BlockId, m', m {:trigger rel(trace + [L.Executed(b, m')], Run(f, t, b, m))} ::
          rel(trace, t) && b < |f.cfg| && SameLocks(m', m) ==> rel(trace + [L.Executed(b, m')], Run(f, t, b, m)))
  }

  /** The trace has left the same records. */
  ghost function Recording(f: Func, leaks: Leaks): Relation {
    (trace, t) => SameRecords(Replay(f, trace, WalkTheorems.Start(leaks)), t)
  }

  lemma {:induction false} RecordingIsKept(f: Func, leaks: Leaks)
    ensures Kept(f, Recording(f, leaks))
  {
    var start := WalkTheorems.Start(leaks);
    forall trace, t: Tables, b, from, stored, s', s
      | Recording(f, leaks)(trace, t) && b in t.entry && SameLocks(stored, t.entry[b]) && SameLocks(s', s)
      ensures Recording(f, leaks)(trace + [L.Differed(b, from, stored, s')], Note(f, t, b, from, s))
    {
      ReplayOneMore(f, trace, L.Differed(b, from, stored, s'), start);
      SameNote(f, Replay(f, trace, start), t, b, from, stored, s', s);
    }
    forall trace, t, b: BlockId, m', m | Recording(f, leaks)(trace, t) && b < |f.cfg| && SameLocks(m', m)
      ensures Recording(f, leaks)(trace + [L.Executed(b, m')], Run(f, t, b, m))
    {
      ReplayOneMore(f, trace, L.Executed(b, m'), start);
      SameRun(f, Replay(f, trace, start), t, b, m', m);
    }
  }

  datatype Setup = Setup(f: Func, good: (BlockId, State) -> bool, rel: Relation)

  /** A function, a steady family of states and a relation that is kept. */
  type Setting = u: Setup | Cfgs.WellFormed(u.f.cfg) && Steady(u.f.cfg, u.good) && Kept(u.f, u.rel)
    ghost witness Setup(Func(0, [], map[], {}, {}), (b, m) => false, (trace, t) => false)

  /** The coded walk has the same entries, all of them good, and its trace is related to the tables. */
  ghost predicate Alike(u: Setting, t: Tables, o: L.Outcome) {
    SameEntries(o, t.entry) && u.rel(o.trace, t) && forall b :: b in t.entry ==> u.good(b, t.entry[b])
  }

  ghost predicate Ready(u: Setting, t: Tables, o: L.Outcome) {
    Bounded(u.f.cfg, t.entry) && Alike(u, t, o)
  }

  /** An arrival, as the snapshot walk sees it and as the coded walk does. */
  ghost predicate Arrives(u: Setting, b: BlockId, s: State, s': State) {
    b < |u.f.cfg| && u.good(b, s) && Within(Universe(u.f.cfg), s) && SameLocks(s', s)
  }

  /** `r`: the tables after the snapshot walk has entered and executed `b`. */
  lemma {:induction false} SnapshotEnters(f: Func, t: Tables, b: BlockId, from: Option<BlockId>, s: State)
    returns (r: Tables)
    requires Cfgs.WellFormed(f.cfg) && Bounded(f.cfg, t.entry) && b < |f.cfg| && Within(Universe(f.cfg), s)
    requires !Stops(t.entry, b, s)
    ensures r == Run(f, Note(f, t, b, from, s), b, NewEntry(t.entry, b, s))
    ensures var m := NewEntry(t.entry, b, s); var out := Exec(f.cfg[b].instrs, m);
      && r.entry == t.entry[b := m] && Bounded(f.cfg, r.entry) && Within(Universe(f.cfg), out)
      && Potential(f.cfg, r.entry) < Potential(f.cfg, t.entry)
      && WalkBlock(f, t, b, from, s) == WalkSuccs(f, r, b, out, 0)
  {
    var m := NewEntry(t.entry, b, s);
    VisitShrinks(f.cfg, t.entry, b, s);
    BlockWithin(f.cfg, b, m);
    r := Run(f, Note(f, t, b, from, s), b, m);
  }

  /** What the coded walk enters a block with, and the outcome after storing it and running the block. */
  ghost function CodedEntry(o: L.Outcome, b: BlockId, s: State): State {
    if b in o.entry then Meet(o.entry[b].stored, s) else s
  }

  ghost function CodedStore(cfg: Cfg, o: L.Outcome, b: BlockId, from: Option<BlockId>, s: State): L.Outcome
    requires b < |cfg|
  {
    if b in o.entry then L.Again(cfg, o, b, from, s) else L.First(o, b, s)
  }

  lemma {:induction false} CodedEnters(cfg: Cfg, o: L.Outcome, entry: Entries, b: BlockId, from: Option<BlockId>,
                                       s: State, s': State)
    requires Cfgs.WellFormed(cfg) && b < |cfg| && SameEntries(o, entry) && SameLocks(s', s) && !Stops(entry, b, s)
    ensures var p, out' := CodedStore(cfg, o, b, from, s'), Exec(cfg[b].instrs, CodedEntry(o, b, s'));
      forall fuel: nat :: L.WalkSuccs(cfg, fuel, p, b, out', 0) == L.WalkBlock(cfg, fuel + 1, o, b, from, s')
    ensures SameLocks(CodedEntry(o, b, s'), NewEntry(entry, b, s))
  {
    if b in entry { MeetKeepsSameLocks(o.entry[b].stored, s', entry[b], s); }
  }

  /** The coded walk stores and runs from the same locks. */
  lemma {:induction false} StoresAlike(cfg: Cfg, o: L.Outcome, entry: Entries, b: BlockId, from: Option<BlockId>,
                                       s: State, s': State)
    requires b < |cfg| && SameEntries(o, entry) && SameLocks(CodedEntry(o, b, s'), NewEntry(entry, b, s))
    requires b in entry ==> SameLocks(Exec(cfg[b].instrs, NewEntry(entry, b, s)), NewEntry(entry, b, s))
    ensures SameEntries(CodedStore(cfg, o, b, from, s'), entry[b := NewEntry(entry, b, s)])
  {
    var m', m := CodedEntry(o, b, s'), NewEntry(entry, b, s);
    ExecKeepsSameLocks(cfg[b].instrs, m', m);
    if b in entry { SameLocksCompose(Exec(cfg[b].instrs, m'), Exec(cfg[b].instrs, m), m); }
  }

  /** Storing and running keeps the relation. */
  lemma {:induction false} StoreIsRelated(f: Func, rel: Relation, t: Tables, o: L.Outcome, b: BlockId,
                                          from: Option<BlockId>, s: State, s': State)
    requires Kept(f, rel) && rel(o.trace, t) && b < |f.cfg| && SameEntries(o, t.entry) && SameLocks(s', s)
    requires SameLocks(CodedEntry(o, b, s'), NewEntry(t.entry, b, s))
    ensures rel(CodedStore(f.cfg, o, b, from, s').trace, Run(f, Note(f, t, b, from, s), b, NewEntry(t.entry, b, s)))
  {
    var before := o.trace;
    if b in t.entry {
      before := o.trace + [L.Differed(b, from, o.entry[b].stored, s')];
      assert rel(before, Note(f, t, b, from, s));
    }
    assert rel(before + [L.Executed(b, CodedEntry(o, b, s'))],
               Run(f, Note(f, t, b, from, s), b, NewEntry(t.entry, b, s)));
  }

  /** Both walks enter the block with corresponding tables. */
  lemma {:induction false} BothEnter(u: Setting, t: Tables, o: L.Outcome, b: BlockId, from: Option<BlockId>, s: State,
                                     s': State)
    returns (r: Tables)
    requires Ready(u, t, o) && Arrives(u, b, s, s') && !Stops(t.entry, b, s)
    requires SameLocks(CodedEntry(o, b, s'), NewEntry(t.entry, b, s))
    ensures var m := NewEntry(t.entry, b, s); var out := Exec(u.f.cfg[b].instrs, m);
      && Ready(u, r, CodedStore(u.f.cfg, o, b, from, s')) && u.good(b, m) && Within(Universe(u.f.cfg), out)
      && SameLocks(Exec(u.f.cfg[b].instrs, CodedEntry(o, b, s')), out)
      && Potential(u.f.cfg, r.entry) < Potential(u.f.cfg, t.entry)
      && WalkBlock(u.f, t, b, from, s) == WalkSuccs(u.f, r, b, out, 0)
  {
    var f := u.f;
    r := SnapshotEnters(f, t, b, from, s);
    if b in t.entry {
      var m := Meet(t.entry[b], s);
      assert u.good(b, m) && SameLocks(Exec(f.cfg[b].instrs, m), m);
    }
    StoresAlike(f.cfg, o, t.entry, b, from, s, s');
    StoreIsRelated(f, u.rel, t, o, b, from, s, s');
    ExecKeepsSameLocks(f.cfg[b].instrs, CodedEntry(o, b, s'), NewEntry(t.entry, b, s));
  }

  /** Both walks go on to the successors with corresponding tables `r` and `p`, after executing the block
      from `m` and to `out'`. */
  lemma {:induction false} BothGoOn(u: Setting, t: Tables, o: L.Outcome, b: BlockId, from: Option<BlockId>, s: State,
                                    s': State)
    returns (r: Tables, p: L.Outcome, m: State, out': State)
    requires Ready(u, t, o) && Arrives(u, b, s, s') && !Stops(t.entry, b, s)
    ensures Ready(u, r, p) && Potential(u.f.cfg, r.entry) < Potential(u.f.cfg, t.entry) && u.good(b, m)
    ensures var out := Exec(u.f.cfg[b].instrs, m);
      && Within(Universe(u.f.cfg), out) && SameLocks(out', out)
      && WalkSuccs(u.f, r, b, out, 0) == WalkBlock(u.f, t, b, from, s)
    ensures forall fuel: nat ::
      L.WalkSuccs(u.f.cfg, fuel, p, b, out', 0) == L.WalkBlock(u.f.cfg, fuel + 1, o, b, from, s')
  {
    CodedEnters(u.f.cfg, o, t.entry, b, from, s, s');
    r := BothEnter(u, t, o, b, from, s, s');
    p, m := CodedStore(u.f.cfg, o, b, from, s'), NewEntry(t.entry, b, s);
    out' := Exec(u.f.cfg[b].instrs, CodedEntry(o, b, s'));
  }

  /** The coded walk returns at once; only an arrival that differs leaves an event. */
  lemma {:induction false} CodedStops(cfg: Cfg, o: L.Outcome, entry: Entries, b: BlockId, from: Option<BlockId>,
                                      s: State, s': State)
    returns (u: L.Outcome)
    requires Cfgs.WellFormed(cfg) && b < |cfg| && SameEntries(o, entry) && SameLocks(s', s) && Stops(entry, b, s)
    ensures L.WalkBlock(cfg, 1, o, b, from, s') == Some(u) && u.entry == o.entry
    ensures u.trace == o.trace + if SameKeys(s, entry[b]) then [] else [L.Differed(b, from, o.entry[b].stored, s')]
  {
    MeetKeepsSameLocks(o.entry[b].stored, s', entry[b], s);
    u := if SameKeys(s, entry[b]) then o else L.Converged(o, b, from, s');
    assert o.trace + [] == o.trace;
  }

  /** Both walks return at once. */
  lemma {:induction false} BothStop(u: Setting, t: Tables, o: L.Outcome, b: BlockId, from: Option<BlockId>, s: State,
                                    s': State)
    returns (v: L.Outcome, w: Tables)
    requires Ready(u, t, o) && Arrives(u, b, s, s') && Stops(t.entry, b, s)
    ensures L.WalkBlock(u.f.cfg, 1, o, b, from, s') == Some(v) && w == WalkBlock(u.f, t, b, from, s) && Alike(u, w, v)
  {
    v := CodedStops(u.f.cfg, o, t.entry, b, from, s, s');
    w := Note(u.f, t, b, from, s);
    assert u.rel(o.trace + [L.Differed(b, from, o.entry[b].stored, s')], w);
    assert o.trace + [] == o.trace;
  }

  /** Whatever the snapshot walk does, the coded walk ends and does the same. */
  lemma {:induction false} Simulate(u: Setting, t: Tables, o: L.Outcome, b: BlockId, from: Option<BlockId>,
                                    s: State, s': State)
    returns (fuel: nat, v: L.Outcome, w: Tables)
    requires Ready(u, t, o) && Arrives(u, b, s, s')
    ensures L.WalkBlock(u.f.cfg, fuel, o, b, from, s') == Some(v) && w == WalkBlock(u.f, t, b, from, s)
    ensures Alike(u, w, v)
    decreases Potential(u.f.cfg, t.entry), 1
  {
    if Stops(t.entry, b, s) {
      fuel := 1;
      v, w := BothStop(u, t, o, b, from, s, s');
    } else {
      fuel, v, w := SimulateVisit(u, t, o, b, from, s, s');
    }
  }

  /** An arrival that goes on. */
  lemma {:induction false} SimulateVisit(u: Setting, t: Tables, o: L.Outcome, b: BlockId, from: Option<BlockId>,
                                         s: State, s': State)
    returns (fuel: nat, v: L.Outcome, w: Tables)
    requires Ready(u, t, o) && Arrives(u, b, s, s') && !Stops(t.entry, b, s)
    ensures L.WalkBlock(u.f.cfg, fuel, o, b, from, s') == Some(v) && w == WalkBlock(u.f, t, b, from, s)
    ensures Alike(u, w, v)
    decreases Potential(u.f.cfg, t.entry), 0
  {
    var r, p, m, out' := BothGoOn(u, t, o, b, from, s, s');
    var rest;
    rest, v, w := SimulateSuccs(u, r, p, b, m, out', 0);
    fuel := rest + 1;
  }

  lemma {:induction false} SimulateSuccs(u: Setting, t: Tables, o: L.Outcome, b: BlockId, m: State, out': State, i: nat)
    returns (fuel: nat, v: L.Outcome, w: Tables)
    requires Ready(u, t, o) && b < |u.f.cfg| && u.good(b, m) && i <= |u.f.cfg[b].succs|
    requires Within(Universe(u.f.cfg), Exec(u.f.cfg[b].instrs, m)) && SameLocks(out', Exec(u.f.cfg[b].instrs, m))
    ensures L.WalkSuccs(u.f.cfg, fuel, o, b, out', i) == Some(v)
    ensures w == WalkSuccs(u.f, t, b, Exec(u.f.cfg[b].instrs, m), i) && Alike(u, w, v)
    decreases Potential(u.f.cfg, t.entry), |u.f.cfg[b].succs| - i + 1
  {
    fuel, v, w := 0, o, t;
    if i < |u.f.cfg[b].succs| {
      var c, out := u.f.cfg[b].succs[i], Exec(u.f.cfg[b].instrs, m);
      var first, x, y := Simulate(u, t, o, c, Some(b), out, out');
      var rest;
      rest, v, w := SimulateSuccs(u, y, x, b, m, out', i + 1);
      fuel := if first < rest then rest else first;
      JoinFuel(u.f.cfg, first, rest, o, x, v, b, out', i);
    }
  }

  lemma {:induction false} JoinFuel(cfg: Cfg, first: nat, rest: nat, o: L.Outcome, v: L.Outcome, u: L.Outcome,
                                    b: BlockId, out: State, i: nat)
    requires Cfgs.WellFormed(cfg) && b < |cfg| && i < |cfg[b].succs|
    requires L.WalkBlock(cfg, first, o, cfg[b].succs[i], Some(b), out) == Some(v)
    requires L.WalkSuccs(cfg, rest, v, b, out, i + 1) == Some(u)
    ensures L.WalkSuccs(cfg, if first < rest then rest else first, o, b, out, i) == Some(u)
  {
    var fuel := if first < rest then rest else first;
    L.FuelMonotone(cfg, first, fuel, o, cfg[b].succs[i], Some(b), out);
    L.SuccsFuelMonotone(cfg, rest, fuel, v, b, out, i + 1);
  }

  // ----- Results

  /** On a harmless function the coded walk ends; what it stored and last executed each block from, and all
      records and leak candidates it left, are those of the snapshot walk, but for positions of acquisitions. */
  lemma {:induction false} CodedWalkAgreesIfHarmless(f: Func, leaks': Leaks, leaks: Leaks)
    returns (fuel: nat, u: L.Outcome)
    requires Cfgs.WellFormed(f.cfg) && |f.cfg| > 0 && Harmless(f.cfg) && SameLeaks(leaks', leaks)
    ensures L.WalkFunction(f.cfg, fuel) == Some(u) && SameEntries(u, WalkTheorems.WalkFunction(f, leaks).entry)
    ensures SameRecords(Replay(f, u.trace, WalkTheorems.Start(leaks')), WalkTheorems.WalkFunction(f, leaks))
  {
    WalkedStart(f.cfg);
    HarmlessIsSteady(f.cfg);
    RecordingIsKept(f, leaks');
    assert Replay(f, L.START.trace, WalkTheorems.Start(leaks')) == WalkTheorems.Start(leaks');
    assert Recording(f, leaks')(L.START.trace, WalkTheorems.Start(leaks));
    var setting := Setup(f, (b: BlockId, m: State) => Walked(f.cfg, b, m), Recording(f, leaks'));
    var w;
    fuel, u, w := Simulate(setting, WalkTheorems.Start(leaks), L.START, 0, None, EMPTY, EMPTY);
  }

  /** Exactly the reachable blocks are stored, with exactly what holds on all paths. */
  ghost predicate ExactAt(cfg: Cfg, u: L.Outcome, b: BlockId, k: LockRef) {
    && (b in u.entry <==> Reachable(cfg, b))
    && (b in u.entry ==>
         && SameLocks(u.entry[b].stored, u.entry[b].ran)
         && (k in u.entry[b].ran.held <==> AlwaysHeld(cfg, b, k))
         && (k in u.entry[b].ran.deferred <==> AlwaysDeferred(cfg, b, k)))
  }

  lemma {:induction false} SameEntriesAreExact(f: Func, u: L.Outcome, b: BlockId, k: LockRef)
    requires Cfgs.WellFormed(f.cfg) && |f.cfg| > 0 && ModeConsistent(f.cfg, k)
    requires SameEntries(u, WalkTheorems.WalkFunction(f, map[]).entry)
    ensures ExactAt(f.cfg, u, b, k)
  {
    WalkTheorems.EntryIsMeetOverAllPaths(f, map[], b, k);
    var entry := WalkTheorems.WalkFunction(f, map[]).entry;
    if b in entry { SameLocksCompose(u.entry[b].stored, entry[b], u.entry[b].ran); }
  }

  /** Hence its entries are the meet over all paths. */
  lemma {:induction false} CodedWalkIsExactIfHarmless(f: Func) returns (fuel: nat, u: L.Outcome)
    requires Cfgs.WellFormed(f.cfg) && |f.cfg| > 0 && Harmless(f.cfg)
    ensures L.WalkFunction(f.cfg, fuel) == Some(u)
    ensures forall b: BlockId, k: LockRef :: ExactAt(f.cfg, u, b, k)
  {
    fuel, u := CodedWalkAgreesIfHarmless(f, map[], map[]);
    forall b: BlockId, k: LockRef ensures ExactAt(f.cfg, u, b, k) {
      assert ModeConsistent(f.cfg, k);
      SameEntriesAreExact(f, u, b, k);
    }
  }
}
