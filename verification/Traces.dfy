/** The records a walk leaves behind depend on its executions only, and on those only up to the positions at
    which locks were acquired. */
module Traces {
  import opened Types
  import opened LockStates
  import opened Cfgs
  import opened Records
  import opened WalkInvariant
  import opened WalkSpec
  import opened LeakFiling
  import L = LiteralWalk

  /** The tables after the events of a trace; `entry` holds the state each block last ran from. */
  ghost function Replay(f: Func, trace: seq<L.Event>, t: Tables): Tables {
    if trace == [] then t else Apply(f, Replay(f, trace[..|trace| - 1], t), trace[|trace| - 1])
  }

  ghost function Apply(f: Func, t: Tables, e: L.Event): Tables {
    match e
    case Differed(b, from, stored, s) => Note(f, t.(entry := t.entry[b := stored]), b, from, s).(entry := t.entry)
    case Executed(b, m) => if b < |f.cfg| then Run(f, t, b, m) else t
  }

  lemma {:induction false} ReplayOneMore(f: Func, trace: seq<L.Event>, e: L.Event, t: Tables)
    ensures Replay(f, trace + [e], t) == Apply(f, Replay(f, trace, t), e)
  {
    assert (trace + [e])[..|trace|] == trace;
  }

  // ----- Equality up to positions

  /** The same candidates but for the positions of the acquisitions. */
  ghost predicate SameLeaks(a: Leaks, b: Leaks) {
    forall at, fn, pos, ref :: Files(Candidates(a, at), fn, pos, ref) <==> Files(Candidates(b, at), fn, pos, ref)
  }

  ghost predicate SameExits(a: Entries, b: Entries) {
    a.Keys == b.Keys && forall c :: c in a ==> SameLocks(a[c], b[c])
  }

  ghost predicate SameRecords(a: Tables, b: Tables) {
    && a.log == b.log && a.reported == b.reported && a.walks == b.walks
    && SameExits(a.exits, b.exits) && SameLeaks(a.leaks, b.leaks)
  }

  lemma {:induction false} MeetKeepsSameLocks(a: State, b: State, x: State, y: State)
    requires SameLocks(a, x) && SameLocks(b, y)
    ensures SameLocks(Meet(a, b), Meet(x, y))
  {
  }

  lemma {:induction false} ExecKeepsSameLocks(instrs: seq<Instr>, a: State, b: State)
    requires SameLocks(a, b)
    ensures SameLocks(Exec(instrs, a), Exec(instrs, b))
  {
    ExecKeepsCovered(instrs, a, b);
    ExecKeepsCovered(instrs, b, a);
  }

  lemma {:induction false} SameLocksCompose(a: State, b: State, c: State)
    requires SameLocks(a, b) && SameLocks(b, c)
    ensures SameLocks(a, c)
  {
  }

  lemma {:induction false} SameOrderEdges(f: Func, ref: LockRef, pos: Pos, a: State, b: State)
    requires SameLocks(a, b)
    ensures OrderEdges(f, ref, pos, a) == OrderEdges(f, ref, pos, b)
  {
    assert forall h :: h in a.held <==> h in b.held;
  }

  lemma {:induction false} SameNormalizedHeld(f: Func, a: State, b: State)
    requires SameLocks(a, b)
    ensures NormalizedHeld(f, a) == NormalizedHeld(f, b)
  {
    assert forall h :: h in a.held <==> h in b.held;
  }

  lemma {:induction false} SameEmit(f: Func, instr: Instr, a: State, b: State)
    requires SameLocks(a, b)
    ensures Emit(f, instr, a) == Emit(f, instr, b)
  {
    match instr {
      case Acquire(ref, _, pos) => SameOrderEdges(f, ref, pos, a, b);
      case Call(_, _) => SameNormalizedHeld(f, a, b);
      case _ =>
    }
  }

  lemma {:induction false} SameEmitAll(f: Func, instrs: seq<Instr>, a: State, b: State)
    requires SameLocks(a, b)
    ensures EmitAll(f, instrs, a) == EmitAll(f, instrs, b)
  {
    if |instrs| > 0 {
      var n := |instrs| - 1;
      SameEmitAll(f, instrs[..n], a, b);
      ExecKeepsSameLocks(instrs[..n], a, b);
      SameEmit(f, instrs[n], Exec(instrs[..n], a), Exec(instrs[..n], b));
      EmitAllStep(f, instrs, a, n);
      EmitAllStep(f, instrs, b, n);
      assert instrs[..n + 1] == instrs;
    }
  }

  lemma {:induction false} FilesAtState(f: Func, at: Pos, s: State, fn: Fn, pos: Pos, ref: LockRef)
    ensures Files(LeaksAt(f, at, s), fn, pos, ref) <==> fn == f.id && pos == at && ref in s.held && ref !in s.deferred
  {
    if ref in s.held && ref !in s.deferred {
      assert LeakCandidate(f.id, at, ref, s.held[ref].pos) in LeaksAt(f, at, s);
    }
  }

  lemma {:induction false} SameLeaksStep(f: Func, instr: Instr, a: State, b: State, x: Leaks, y: Leaks)
    requires SameLocks(a, b) && SameLeaks(x, y)
    ensures SameLeaks(LeaksStep(f, instr, a, x), LeaksStep(f, instr, b, y))
  {
    if instr.Return? {
      var p := instr.pos;
      forall at, fn, pos, ref
        ensures Files(Candidates(LeaksStep(f, instr, a, x), at), fn, pos, ref)
           <==> Files(Candidates(LeaksStep(f, instr, b, y), at), fn, pos, ref)
      {
        FilesAtState(f, p, a, fn, pos, ref);
        FilesAtState(f, p, b, fn, pos, ref);
        CandidatesAfterPut(x, p, LeaksAt(f, p, a), at);
        CandidatesAfterPut(y, p, LeaksAt(f, p, b), at);
      }
    }
  }

  lemma {:induction false} SameLeaksAfter(f: Func, instrs: seq<Instr>, a: State, b: State, x: Leaks, y: Leaks)
    requires SameLocks(a, b) && SameLeaks(x, y)
    ensures SameLeaks(LeaksAfter(f, instrs, a, x), LeaksAfter(f, instrs, b, y))
  {
    if |instrs| > 0 {
      var n := |instrs| - 1;
      var init := instrs[..n];
      SameLeaksAfter(f, init, a, b, x, y);
      ExecKeepsSameLocks(init, a, b);
      SameLeaksStep(f, instrs[n], Exec(init, a), Exec(init, b), LeaksAfter(f, init, a, x), LeaksAfter(f, init, b, y));
    }
  }

  lemma {:induction false} SameRun(f: Func, a: Tables, x: Tables, b: BlockId, m: State, n: State)
    requires b < |f.cfg| && SameRecords(a, x) && SameLocks(m, n)
    ensures SameRecords(Run(f, a, b, m), Run(f, x, b, n))
  {
    var body := f.cfg[b].instrs;
    SameEmitAll(f, body, m, n);
    SameLeaksAfter(f, body, m, n, a.leaks, x.leaks);
    ExecKeepsSameLocks(body, m, n);
  }

  lemma {:induction false} SameDiffering(f: Func, b: BlockId, stored: State, s: State, prev: State, t: State)
    requires SameLocks(stored, prev) && SameLocks(s, t)
    ensures Differing(f, b, stored, s) == Differing(f, b, prev, t) && (SameKeys(s, stored) <==> SameKeys(t, prev))
  {
    assert stored.held.Keys == prev.held.Keys && s.held.Keys == t.held.Keys;
  }

  /** An arrival is reported alike, given what it is compared with. */
  lemma {:induction false} SameNote(f: Func, a: Tables, x: Tables, b: BlockId, from: Option<BlockId>, stored: State,
                                    s: State, t: State)
    requires SameRecords(a, x) && b in x.entry && SameLocks(stored, x.entry[b]) && SameLocks(s, t)
    ensures SameRecords(Apply(f, a, L.Differed(b, from, stored, s)), Note(f, x, b, from, t))
  {
    SameDiffering(f, b, stored, s, x.entry[b], t);
  }
}
