/** The walk as a function of its tables, and what it computes.

    `WalkBlock` and `WalkSuccs` follow the recursion of the code: a block can be walked again while an
    enclosing call is still going through its successors with an older, larger state. */
module WalkSpec {
  import opened Types
  import opened LockStates
  import opened Cfgs
  import opened Records
  import opened WalkInvariant

  /** The mutable state of a walk; `walks` counts how often each block was executed. */
  datatype Tables = Tables(
    entry: Entries, exits: Entries, log: set<Record>, leaks: Leaks,
    reported: set<BlockId>, walks: map<BlockId, nat>)

  ghost predicate Bounded(cfg: Cfg, entry: Entries) {
    forall b :: b in entry ==> b < |cfg| && Within(Universe(cfg), entry[b])
  }

  /** Inconsistent lock state is reported once per merge point and never on a back edge. */
  predicate Reports(f: Func, t: Tables, b: BlockId, from: Option<BlockId>, s: State) {
    && b in t.entry && !SameKeys(s, t.entry[b])
    && b !in t.reported && from.Some? && b in f.mergePoints && (from.value, b) !in f.backEdges
  }

  function Differing(f: Func, b: BlockId, prev: State, s: State): set<Record> {
    set k | k in (prev.held.Keys - s.held.Keys) + (s.held.Keys - prev.held.Keys) && KeyOf(f.typing, k).Some? ::
      InconsistentLock(b, k)
  }

  function Note(f: Func, t: Tables, b: BlockId, from: Option<BlockId>, s: State): Tables {
    if Reports(f, t, b, from, s) then
      t.(log := t.log + Differing(f, b, t.entry[b], s), reported := t.reported + {b})
    else t
  }

  /** The arriving state brings nothing new. */
  predicate Stops(entry: Entries, b: BlockId, s: State) {
    b in entry && (SameKeys(s, entry[b]) || SameKeys(Meet(entry[b], s), entry[b]))
  }

  function NewEntry(entry: Entries, b: BlockId, s: State): State {
    if b in entry then Meet(entry[b], s) else s
  }

  /** Executes block `b` from entry state `m`. */
  function Run(f: Func, t: Tables, b: BlockId, m: State): Tables
    requires b < |f.cfg|
  {
    var body := f.cfg[b].instrs;
    Tables(t.entry[b := m], t.exits[b := Exec(body, m)], t.log + EmitAll(f, body, m), LeaksAfter(f, body, m, t.leaks),
           t.reported, t.walks[b := (if b in t.walks then t.walks[b] else 0) + 1])
  }

  ghost function WalkBlock(f: Func, t: Tables, b: BlockId, from: Option<BlockId>, s: State): (r: Tables)
    requires WellFormed(f.cfg) && Bounded(f.cfg, t.entry) && b < |f.cfg| && Within(Universe(f.cfg), s)
    ensures Bounded(f.cfg, r.entry) && Potential(f.cfg, r.entry) <= Potential(f.cfg, t.entry)
    decreases Potential(f.cfg, t.entry), 0
  {
    var n := Note(f, t, b, from, s);
    if Stops(t.entry, b, s) then n else
      var m := NewEntry(t.entry, b, s);
      VisitShrinks(f.cfg, t.entry, b, s);
      BlockWithin(f.cfg, b, m);
      WalkSuccs(f, Run(f, n, b, m), b, Exec(f.cfg[b].instrs, m), 0)
  }

  /** Visits the successors of `b` from the `i`-th on, each with the exit state `out`. */
  ghost function WalkSuccs(f: Func, t: Tables, b: BlockId, out: State, i: nat): (r: Tables)
    requires WellFormed(f.cfg) && Bounded(f.cfg, t.entry) && b < |f.cfg| && Within(Universe(f.cfg), out)
    requires i <= |f.cfg[b].succs|
    ensures Bounded(f.cfg, r.entry) && Potential(f.cfg, r.entry) <= Potential(f.cfg, t.entry)
    decreases Potential(f.cfg, t.entry), |f.cfg[b].succs| - i
  {
    if i == |f.cfg[b].succs| then t else
      var u := WalkBlock(f, t, f.cfg[b].succs[i], Some(b), out);
      WalkSuccs(f, u, b, out, i + 1)
  }

  /** A visit that does not stop strictly lowers the potential. */
  lemma {:induction false} VisitShrinks(cfg: Cfg, entry: Entries, b: BlockId, s: State)
    requires Bounded(cfg, entry) && b < |cfg| && Within(Universe(cfg), s) && !Stops(entry, b, s)
    ensures var m := NewEntry(entry, b, s);
      && Within(Universe(cfg), m) && Below(m, s)
      && Bounded(cfg, entry[b := m]) && Shrinks(entry[b := m], entry)
      && Potential(cfg, entry[b := m]) < Potential(cfg, entry)
  {
    PotentialDrops(cfg, entry, b, NewEntry(entry, b, s));
  }

  lemma {:induction false} RunFromStored(f: Func, t: Tables, b: BlockId, m: State)
    requires b < |f.cfg|
    ensures Run(f, t.(entry := t.entry[b := m]), b, m) == Run(f, t, b, m)
  {
    assert t.entry[b := m][b := m] == t.entry[b := m];
  }

  /** Storing the entry first and then executing the block is one `Run`. */
  lemma {:induction false} Unfold(f: Func, t: Tables, b: BlockId, from: Option<BlockId>, s: State)
    requires WellFormed(f.cfg) && Bounded(f.cfg, t.entry) && b < |f.cfg| && Within(Universe(f.cfg), s)
    requires !Stops(t.entry, b, s)
    ensures var m := NewEntry(t.entry, b, s); var n := Note(f, t, b, from, s);
      var r := Run(f, n.(entry := n.entry[b := m]), b, m);
      && Bounded(f.cfg, r.entry) && Within(Universe(f.cfg), Exec(f.cfg[b].instrs, m))
      && WalkBlock(f, t, b, from, s) == WalkSuccs(f, r, b, Exec(f.cfg[b].instrs, m), 0)
  {
    var m, n := NewEntry(t.entry, b, s), Note(f, t, b, from, s);
    VisitShrinks(f.cfg, t.entry, b, s);
    BlockWithin(f.cfg, b, m);
    RunFromStored(f, n, b, m);
  }

  // ----- Edges: what the recursive schedule guarantees

  /** All blocks outside `pending` have up-to-date edges. */
  ghost predicate ClosedOutside(cfg: Cfg, entry: Entries, pending: set<BlockId>) {
    forall b :: b in entry && b !in pending ==> Closed(cfg, entry, b)
  }

  ghost predicate Delivered(cfg: Cfg, entry: Entries, b: BlockId, m: State, i: nat)
    requires b < |cfg| && i <= |cfg[b].succs|
  {
    forall j :: 0 <= j < i ==> cfg[b].succs[j] in entry && Below(entry[cfg[b].succs[j]], Exec(cfg[b].instrs, m))
  }

  /** Progress from `before` to `now`: entries shrink, and whatever changed is closed again. */
  ghost predicate Advances(cfg: Cfg, now: Entries, before: Entries) {
    Shrinks(now, before) && Settled(cfg, now, before)
  }

  lemma {:induction false} AdvancesCompose(cfg: Cfg, c: Entries, b: Entries, a: Entries)
    requires Advances(cfg, c, b) && Advances(cfg, b, a)
    ensures Advances(cfg, c, a)
  {
    forall x | x in a ensures c[x] == a[x] || Closed(cfg, c, x) {
      if b[x] != a[x] && c[x] == b[x] { ClosedAfterShrink(cfg, c, b, x); }
    }
  }

  lemma {:induction false} StoreKeepsOthersClosed(cfg: Cfg, entry: Entries, b: BlockId, m: State, pending: set<BlockId>)
    requires ClosedOutside(cfg, entry, pending) && (b in entry ==> Below(m, entry[b]))
    ensures ClosedOutside(cfg, entry[b := m], pending + {b})
  {
    forall c | c in entry[b := m] && c !in pending + {b} ensures Closed(cfg, entry[b := m], c) {
      ClosedAfterShrink(cfg, entry[b := m], entry, c);
    }
  }

  /** After `b` has been stored and its successors visited, it is closed; so the call as a whole
      advanced the table and left only the caller's own blocks pending. */
  lemma {:induction false} LeaveBlock(cfg: Cfg, now: Entries, before: Entries, b: BlockId, m: State,
                                      pending: set<BlockId>)
    requires Advances(cfg, now, before[b := m]) && ClosedOutside(cfg, now, pending + {b}) && Closed(cfg, now, b)
    requires b in before ==> Below(m, before[b])
    ensures Advances(cfg, now, before) && ClosedOutside(cfg, now, pending) && Below(now[b], m)
  {
    forall c | c in before
      ensures c in now && Below(now[c], before[c]) && (now[c] == before[c] || Closed(cfg, now, c))
    {
      assert c in before[b := m];
    }
    assert b in before[b := m];
  }

  /** Visiting one more successor, after which `b` is still waiting for the rest or has been re-walked. */
  lemma {:induction false} DeliveredOneMore(cfg: Cfg, now: Entries, before: Entries, b: BlockId, m: State, i: nat)
    requires b < |cfg| && i < |cfg[b].succs| && b in before && Advances(cfg, now, before)
    requires cfg[b].succs[i] in now && Below(now[cfg[b].succs[i]], Exec(cfg[b].instrs, m))
    requires Closed(cfg, before, b) || (before[b] == m && Delivered(cfg, before, b, m, i))
    ensures Closed(cfg, now, b) || (now[b] == m && Delivered(cfg, now, b, m, i + 1))
  {
    if now[b] == before[b] && Closed(cfg, before, b) { ClosedAfterShrink(cfg, now, before, b); }
  }

  lemma {:induction false} WalkCloses(f: Func, t: Tables, b: BlockId, from: Option<BlockId>, s: State,
                                      pending: set<BlockId>)
    requires WellFormed(f.cfg) && Bounded(f.cfg, t.entry) && b < |f.cfg| && Within(Universe(f.cfg), s)
    requires ClosedOutside(f.cfg, t.entry, pending)
    ensures var r := WalkBlock(f, t, b, from, s);
      && Advances(f.cfg, r.entry, t.entry) && ClosedOutside(f.cfg, r.entry, pending)
      && b in r.entry && Below(r.entry[b], s)
    decreases Potential(f.cfg, t.entry), 0
  {
    if !Stops(t.entry, b, s) {
      var m := NewEntry(t.entry, b, s);
      VisitShrinks(f.cfg, t.entry, b, s);
      BlockWithin(f.cfg, b, m);
      StoreKeepsOthersClosed(f.cfg, t.entry, b, m, pending);
      var u := Run(f, Note(f, t, b, from, s), b, m);
      SuccsClose(f, u, b, m, 0, pending + {b});
      LeaveBlock(f.cfg, WalkBlock(f, t, b, from, s).entry, t.entry, b, m, pending);
    }
  }

  lemma {:induction false} SuccsClose(f: Func, t: Tables, b: BlockId, m: State, i: nat, pending: set<BlockId>)
    requires WellFormed(f.cfg) && Bounded(f.cfg, t.entry) && b < |f.cfg| && i <= |f.cfg[b].succs|
    requires Within(Universe(f.cfg), Exec(f.cfg[b].instrs, m))
    requires ClosedOutside(f.cfg, t.entry, pending) && b in t.entry
    requires Closed(f.cfg, t.entry, b) || (t.entry[b] == m && Delivered(f.cfg, t.entry, b, m, i))
    ensures var r := WalkSuccs(f, t, b, Exec(f.cfg[b].instrs, m), i);
      && Advances(f.cfg, r.entry, t.entry) && ClosedOutside(f.cfg, r.entry, pending) && Closed(f.cfg, r.entry, b)
    decreases Potential(f.cfg, t.entry), |f.cfg[b].succs| - i
  {
    if i < |f.cfg[b].succs| {
      var out := Exec(f.cfg[b].instrs, m);
      var u := WalkBlock(f, t, f.cfg[b].succs[i], Some(b), out);
      WalkCloses(f, t, f.cfg[b].succs[i], Some(b), out, pending);
      DeliveredOneMore(f.cfg, u.entry, t.entry, b, m, i);
      SuccsClose(f, u, b, m, i + 1, pending);
      AdvancesCompose(f.cfg, WalkSuccs(f, t, b, out, i).entry, u.entry, t.entry);
    }
  }

  // ----- Summaries, records and work: what each single execution keeps

  ghost predicate Summaries(f: Func, t: Tables) {
    Bounded(f.cfg, t.entry) && forall b :: b in t.entry ==> Walked(f.cfg, b, t.entry[b])
  }

  /** The records of every visited block reflect its entry state. */
  ghost predicate Journal(f: Func, t: Tables) {
    forall b :: b in t.entry ==> Recorded(f, b, t.entry[b], t.exits, t.log)
  }

  ghost predicate Truthful(f: Func, t: Tables) {
    forall r :: r in t.log ==> Genuine(f, r)
  }

  ghost predicate WithinWork(f: Func, t: Tables) {
    && t.walks.Keys == t.entry.Keys
    && forall b :: b in t.entry ==> t.walks[b] + Size(t.entry[b]) <= WorkBound(f.cfg)
  }

  ghost predicate Local(f: Func, t: Tables) {
    Summaries(f, t) && Journal(f, t) && Truthful(f, t) && WithinWork(f, t)
  }

  lemma {:induction false} NoteIsTruthful(f: Func, t: Tables, b: BlockId, from: Option<BlockId>, s: State)
    requires Summaries(f, t) && Truthful(f, t) && Walked(f.cfg, b, s)
    ensures Truthful(f, Note(f, t, b, from, s))
  {
    if Reports(f, t, b, from, s) {
      var prev := t.entry[b];
      forall r | r in Differing(f, b, prev, s) ensures Genuine(f, r) {
        if r.ref in prev.held { GenuineSplit(f, b, prev, s, r.ref); } else { GenuineSplit(f, b, s, prev, r.ref); }
      }
    }
  }

  lemma {:induction false} NoteKeepsJournal(f: Func, t: Tables, b: BlockId, from: Option<BlockId>, s: State)
    requires Journal(f, t)
    ensures Journal(f, Note(f, t, b, from, s))
  {
  }

  lemma {:induction false} NoteKeepsLocal(f: Func, t: Tables, b: BlockId, from: Option<BlockId>, s: State)
    requires Local(f, t) && Walked(f.cfg, b, s)
    ensures Local(f, Note(f, t, b, from, s))
  {
    NoteIsTruthful(f, t, b, from, s);
    NoteKeepsJournal(f, t, b, from, s);
    assert Note(f, t, b, from, s).entry == t.entry;
  }

  lemma {:induction false} RunKeepsJournal(f: Func, t: Tables, b: BlockId, m: State)
    requires Journal(f, t) && b < |f.cfg|
    ensures Journal(f, Run(f, t, b, m))
  {
  }

  lemma {:induction false} RunKeepsWork(f: Func, t: Tables, b: BlockId, m: State)
    requires WithinWork(f, t) && b < |f.cfg| && Within(Universe(f.cfg), m)
    requires b in t.entry ==> Below(m, t.entry[b]) && !SameKeys(m, t.entry[b])
    ensures WithinWork(f, Run(f, t, b, m))
  {
    SizeWithin(Universe(f.cfg), m);
    if b in t.entry { SizeDrops(m, t.entry[b]); }
  }

  lemma {:induction false} RunKeepsSummaries(f: Func, t: Tables, b: BlockId, m: State)
    requires Summaries(f, t) && b < |f.cfg| && Walked(f.cfg, b, m)
    ensures Summaries(f, Run(f, t, b, m))
  {
    WalkedWithin(f.cfg, b, m);
  }

  lemma {:induction false} RunIsTruthful(f: Func, t: Tables, b: BlockId, m: State)
    requires Truthful(f, t) && b < |f.cfg| && Walked(f.cfg, b, m)
    ensures Truthful(f, Run(f, t, b, m))
  {
    GenuineEmitAll(f, b, m);
  }

  lemma {:induction false} NewEntryIsWalked(f: Func, t: Tables, b: BlockId, s: State)
    requires Summaries(f, t) && Walked(f.cfg, b, s)
    ensures Walked(f.cfg, b, NewEntry(t.entry, b, s))
  {
    if b in t.entry { WalkedMeet(f.cfg, b, t.entry[b], s); }
  }

  lemma {:induction false} RunKeepsLocal(f: Func, t: Tables, b: BlockId, s: State)
    requires Local(f, t) && b < |f.cfg| && Walked(f.cfg, b, s) && Within(Universe(f.cfg), s) && !Stops(t.entry, b, s)
    ensures var m := NewEntry(t.entry, b, s); Walked(f.cfg, b, m) && Local(f, Run(f, t, b, m))
  {
    var m := NewEntry(t.entry, b, s);
    NewEntryIsWalked(f, t, b, s);
    VisitShrinks(f.cfg, t.entry, b, s);
    RunKeepsSummaries(f, t, b, m);
    RunIsTruthful(f, t, b, m);
    RunKeepsJournal(f, t, b, m);
    RunKeepsWork(f, t, b, m);
  }

  lemma {:induction false} WalkKeepsLocal(f: Func, t: Tables, b: BlockId, from: Option<BlockId>, s: State)
    requires WellFormed(f.cfg) && Local(f, t) && b < |f.cfg| && Within(Universe(f.cfg), s) && Walked(f.cfg, b, s)
    ensures Local(f, WalkBlock(f, t, b, from, s))
    decreases Potential(f.cfg, t.entry), 0
  {
    var n := Note(f, t, b, from, s);
    NoteKeepsLocal(f, t, b, from, s);
    if !Stops(t.entry, b, s) {
      var m := NewEntry(t.entry, b, s);
      VisitShrinks(f.cfg, t.entry, b, s);
      BlockWithin(f.cfg, b, m);
      RunKeepsLocal(f, n, b, s);
      SuccsKeepLocal(f, Run(f, n, b, m), b, m, 0);
    }
  }

  lemma {:induction false} SuccsKeepLocal(f: Func, t: Tables, b: BlockId, m: State, i: nat)
    requires WellFormed(f.cfg) && Local(f, t) && b < |f.cfg| && i <= |f.cfg[b].succs|
    requires Within(Universe(f.cfg), Exec(f.cfg[b].instrs, m)) && Walked(f.cfg, b, m)
    ensures Local(f, WalkSuccs(f, t, b, Exec(f.cfg[b].instrs, m), i))
    decreases Potential(f.cfg, t.entry), |f.cfg[b].succs| - i
  {
    if i < |f.cfg[b].succs| {
      var out := Exec(f.cfg[b].instrs, m);
      WalkedAlongEdge(f.cfg, b, f.cfg[b].succs[i], m);
      WalkKeepsLocal(f, t, f.cfg[b].succs[i], Some(b), out);
      SuccsKeepLocal(f, WalkBlock(f, t, f.cfg[b].succs[i], Some(b), out), b, m, i + 1);
    }
  }
}
