/** What the walk writes down while it executes a block: diagnostics, call sites,
    lock-order edges and lock facts, and the lock-leak candidates of each return. */
module Records {
  import opened Types
  import opened LockStates
  import opened Cfgs

  /** One function under analysis.  Predecessor counts and dominance come with the CFG. */
  datatype Func = Func(
    id: Fn, cfg: Cfg, typing: Typing,
    mergePoints: set<BlockId>, backEdges: set<(BlockId, BlockId)>)

  datatype Record =
    | DoubleLock(pos: Pos, ref: LockRef)
    | RecursiveRLock(pos: Pos, ref: LockRef)
    | LockUpgrade(pos: Pos, ref: LockRef)
    | MismatchedUnlock(pos: Pos, ref: LockRef)
    | UnlockOfUnlocked(pos: Pos, ref: LockRef)
    | DeferredLockTypo(pos: Pos, ref: LockRef)
    | InconsistentLock(block: BlockId, ref: LockRef)
    | Site(site: CallSite)
    | Ordered(edge: LockOrderEdge)
    | Acquires(fn: Fn, key: Key)
    | Releases(fn: Fn, key: Key)

  ghost predicate WellFormedProgram(funcs: seq<Func>) {
    forall n :: 0 <= n < |funcs| ==> WellFormed(funcs[n].cfg)
  }

  datatype LeakCandidate = LeakCandidate(fn: Fn, pos: Pos, ref: LockRef, acquirePos: Pos)

  type Leaks = map<Pos, set<LeakCandidate>>

  /** A diagnostic is dropped when the lock has no printable name. */
  function Named(f: Func, r: Record): set<Record>
    requires !r.Site? && !r.Ordered? && !r.Acquires? && !r.Releases?
  {
    if KeyOf(f.typing, r.ref).Some? then {r} else {}
  }

  function KeysOf(f: Func, ref: LockRef): set<Key> {
    match KeyOf(f.typing, ref)
    case Some(k) => {k}
    case None => {}
  }

  function NormalizedHeld(f: Func, s: State): set<Key> {
    set ref | ref in s.held && NormalizedKeyOf(f.typing, ref).Some? :: NormalizedKeyOf(f.typing, ref).value
  }

  function AcquireReport(f: Func, ref: LockRef, exclusive: bool, pos: Pos, s: State): set<Record> {
    if ref !in s.held then {}
    else if exclusive && s.held[ref].exclusive then Named(f, DoubleLock(pos, ref))
    else if !exclusive && !s.held[ref].exclusive then Named(f, RecursiveRLock(pos, ref))
    else if exclusive then Named(f, LockUpgrade(pos, ref))
    else Named(f, DoubleLock(pos, ref))
  }

  function MismatchReport(f: Func, ref: LockRef, exclusive: bool, pos: Pos, s: State): set<Record> {
    if ref in s.held && s.held[ref].exclusive != exclusive then Named(f, MismatchedUnlock(pos, ref)) else {}
  }

  /** One edge from every other held lock to the lock being acquired. */
  function OrderEdges(f: Func, ref: LockRef, pos: Pos, s: State): set<Record> {
    set h, a | h in s.held && h != ref && KeyOf(f.typing, h).Some? && a in KeysOf(f, ref) ::
      Ordered(LockOrderEdge(KeyOf(f.typing, h).value, a, pos, f.id))
  }

  /** Everything recorded when `instr` is executed in state `s`. */
  function Emit(f: Func, instr: Instr, s: State): set<Record> {
    match instr
    case Acquire(ref, exclusive, pos) =>
      AcquireReport(f, ref, exclusive, pos, s) + OrderEdges(f, ref, pos, s)
      + (set k | k in KeysOf(f, ref) :: Acquires(f.id, k))
    case Release(ref, exclusive, pos) =>
      (if ref in s.held then MismatchReport(f, ref, exclusive, pos, s) else {UnlockOfUnlocked(pos, ref)})
      + (set k | k in KeysOf(f, ref) :: Releases(f.id, k))
    case DeferRelease(ref, exclusive, pos) =>
      MismatchReport(f, ref, exclusive, pos, s) + (set k | k in KeysOf(f, ref) :: Releases(f.id, k))
    case DeferAcquire(ref, pos) => Named(f, DeferredLockTypo(pos, ref))
    case Call(callee, pos) => {Site(CallSite(f.id, callee, pos, NormalizedHeld(f, s)))}
    case _ => {}
  }

  /** Inconsistent lock state is noticed on arrival at a block, not by an instruction. */
  lemma {:induction false} EmitReportsNoInconsistency(f: Func, instr: Instr, s: State, r: Record)
    requires r in Emit(f, instr, s)
    ensures !r.InconsistentLock?
  {
  }

  lemma {:induction false} OrderEdgeOrigin(f: Func, instr: Instr, s: State, e: LockOrderEdge) returns (h: LockRef)
    requires Ordered(e) in Emit(f, instr, s)
    ensures instr.Acquire? && h in s.held && h != instr.ref && e.pos == instr.pos && e.fn == f.id
    ensures KeyOf(f.typing, h) == Some(e.from) && KeyOf(f.typing, instr.ref) == Some(e.to)
  {
    assert instr.Acquire? && Ordered(e) in OrderEdges(f, instr.ref, instr.pos, s);
    var a;
    h, a :| h in s.held && h != instr.ref && KeyOf(f.typing, h).Some? && a in KeysOf(f, instr.ref)
      && e == LockOrderEdge(KeyOf(f.typing, h).value, a, instr.pos, f.id);
  }

  type Emitter = (Instr, State) -> set<Record>

  function EmitterOf(f: Func): Emitter {
    (instr, s) => Emit(f, instr, s)
  }

  /** Everything `emit` yields when a whole block is executed from `s`. */
  function Accumulate(emit: Emitter, instrs: seq<Instr>, s: State): set<Record> {
    if |instrs| == 0 then {} else
    var init := instrs[..|instrs| - 1];
    Accumulate(emit, init, s) + emit(instrs[|instrs| - 1], Exec(init, s))
  }

  lemma {:induction false} AccumulateCovers(emit: Emitter, instrs: seq<Instr>, s: State, i: nat)
    requires i < |instrs|
    ensures emit(instrs[i], Exec(instrs[..i], s)) <= Accumulate(emit, instrs, s)
  {
    var init := instrs[..|instrs| - 1];
    if i < |init| {
      AccumulateCovers(emit, init, s, i);
      assert init[..i] == instrs[..i];
    }
  }

  lemma {:induction false} AccumulateOrigin(emit: Emitter, instrs: seq<Instr>, s: State, r: Record) returns (i: nat)
    requires r in Accumulate(emit, instrs, s)
    ensures i < |instrs| && r in emit(instrs[i], Exec(instrs[..i], s))
  {
    var init := instrs[..|instrs| - 1];
    if r in Accumulate(emit, init, s) {
      i := AccumulateOrigin(emit, init, s, r);
      assert init[..i] == instrs[..i];
    } else {
      i := |instrs| - 1;
    }
  }

  /** Everything recorded when a whole block is executed from `s`. */
  function EmitAll(f: Func, instrs: seq<Instr>, s: State): set<Record> {
    Accumulate(EmitterOf(f), instrs, s)
  }

  lemma {:induction false} EmitAllCovers(f: Func, instrs: seq<Instr>, s: State, i: nat)
    requires i < |instrs|
    ensures Emit(f, instrs[i], Exec(instrs[..i], s)) <= EmitAll(f, instrs, s)
  {
    AccumulateCovers(EmitterOf(f), instrs, s, i);
  }

  lemma {:induction false} EmitAllOrigin(f: Func, instrs: seq<Instr>, s: State, r: Record) returns (i: nat)
    requires r in EmitAll(f, instrs, s)
    ensures i < |instrs| && r in Emit(f, instrs[i], Exec(instrs[..i], s))
  {
    i := AccumulateOrigin(EmitterOf(f), instrs, s, r);
  }

  /** Executing one more instruction of a block. */
  lemma {:induction false} EmitAllStep(f: Func, instrs: seq<Instr>, s: State, i: nat)
    requires i < |instrs|
    ensures EmitAll(f, instrs[..i + 1], s) == EmitAll(f, instrs[..i], s) + Emit(f, instrs[i], Exec(instrs[..i], s))
  {
    assert instrs[..i + 1][..i] == instrs[..i];
  }

  // ----- Lock-leak candidates

  /** Locks held at a return and not covered by a pending unlock. */
  function LeaksAt(f: Func, pos: Pos, s: State): set<LeakCandidate> {
    set ref | ref in s.held && ref !in s.deferred :: LeakCandidate(f.id, pos, ref, s.held[ref].pos)
  }

  function PutLeaks(leaks: Leaks, pos: Pos, found: set<LeakCandidate>): Leaks {
    if found == {} then leaks - {pos} else leaks[pos := found]
  }

  function Candidates(leaks: Leaks, pos: Pos): set<LeakCandidate> {
    if pos in leaks then leaks[pos] else {}
  }

  function LeaksStep(f: Func, instr: Instr, s: State, leaks: Leaks): Leaks {
    if instr.Return? then PutLeaks(leaks, instr.pos, LeaksAt(f, instr.pos, s)) else leaks
  }

  function LeaksAfter(f: Func, instrs: seq<Instr>, s: State, leaks: Leaks): Leaks {
    if |instrs| == 0 then leaks else
    var init := instrs[..|instrs| - 1];
    LeaksStep(f, instrs[|instrs| - 1], Exec(init, s), LeaksAfter(f, init, s, leaks))
  }

  lemma {:induction false} LeaksAfterStep(f: Func, instrs: seq<Instr>, s: State, leaks: Leaks, i: nat)
    requires i < |instrs|
    ensures LeaksAfter(f, instrs[..i + 1], s, leaks)
      == LeaksStep(f, instrs[i], Exec(instrs[..i], s), LeaksAfter(f, instrs[..i], s, leaks))
  {
    assert instrs[..i + 1][..i] == instrs[..i];
  }

  ghost predicate IsReturn(cfg: Cfg, b: BlockId, i: nat, pos: Pos) {
    b < |cfg| && i < |cfg[b].instrs| && cfg[b].instrs[i] == Return(pos)
  }

  /** No two returns of the function share a source position. */
  ghost predicate DistinctReturns(cfg: Cfg) {
    forall b: BlockId, i: nat, c: BlockId, j: nat, pos: Pos ::
      IsReturn(cfg, b, i, pos) && IsReturn(cfg, c, j, pos) ==> b == c && i == j
  }

  lemma {:induction false} CandidatesAfterPut(leaks: Leaks, pos: Pos, found: set<LeakCandidate>, at: Pos)
    ensures Candidates(PutLeaks(leaks, pos, found), at) == if at == pos then found else Candidates(leaks, at)
  {
  }

  /** Executing a block leaves the candidates of a position alone, or the last return there, `i`, decides them
      and nothing recorded earlier survives. */
  lemma {:induction false} LastReturnDecides(f: Func, instrs: seq<Instr>, s: State, leaks: Leaks, pos: Pos)
    returns (i: nat)
    ensures var found := Candidates(LeaksAfter(f, instrs, s, leaks), pos);
      if Return(pos) in instrs
      then i < |instrs| && instrs[i] == Return(pos) && found == LeaksAt(f, pos, Exec(instrs[..i], s))
      else found == Candidates(leaks, pos)
  {
    i := 0;
    if |instrs| > 0 {
      var n := |instrs| - 1;
      var init, last := instrs[..n], instrs[n];
      i := LastReturnDecides(f, init, s, leaks, pos);
      assert instrs == init + [last];
      if last.Return? {
        CandidatesAfterPut(LeaksAfter(f, init, s, leaks), last.pos, LeaksAt(f, last.pos, Exec(init, s)), pos);
      }
      if last == Return(pos) { i := n; } else if Return(pos) in init { assert init[..i] == instrs[..i]; }
    }
  }
}
