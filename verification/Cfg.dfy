/** Control-flow graphs, the effect of instructions on the lock state, and the
    reference semantics: the lock state at the end of one concrete path. */
module Cfgs {
  import opened Types
  import opened LockStates

  /** The instructions that touch or read the lock state.  `Call` is a static call with at least one argument
      of a function not named like a lock method: only such a call gets a call site (ssawalk.go:131-168).  All
      other calls are `Other`: static calls without arguments, calls of interface methods and function values,
      deferred calls, go statements, and lock methods whose lock cannot be resolved. */
  datatype Instr =
    | Acquire(ref: LockRef, exclusive: bool, pos: Pos)
    | Release(ref: LockRef, exclusive: bool, pos: Pos)
    | DeferRelease(ref: LockRef, exclusive: bool, pos: Pos)
    | DeferAcquire(ref: LockRef, pos: Pos)
    | Return(pos: Pos)
    | Call(callee: Fn, pos: Pos)
    | Other

  datatype Block = Block(instrs: seq<Instr>, succs: seq<BlockId>)

  type Cfg = seq<Block>

  ghost predicate WellFormed(cfg: Cfg) {
    forall b, i :: 0 <= b < |cfg| && 0 <= i < |cfg[b].succs| ==> cfg[b].succs[i] < |cfg|
  }

  /** Effect of one instruction.  Deferred calls only note a pending unlock; calls change nothing. */
  function Step(instr: Instr, s: State): State {
    match instr
    case Acquire(ref, exclusive, pos) => s.(held := s.held[ref := HeldLock(exclusive, pos)])
    case Release(ref, _, _) => s.(held := s.held - {ref})
    case DeferRelease(ref, _, _) => s.(deferred := s.deferred + {ref})
    case _ => s
  }

  function Exec(instrs: seq<Instr>, s: State): State {
    if |instrs| == 0 then s else Step(instrs[|instrs| - 1], Exec(instrs[..|instrs| - 1], s))
  }

  lemma {:induction false} ExecOne(x: Instr, s: State)
    ensures Exec([x], s) == Step(x, s)
  {
    assert [x][..0] == [];
  }

  lemma {:induction false} ExecTwo(x: Instr, y: Instr, s: State)
    ensures Exec([x, y], s) == Step(y, Step(x, s))
  {
    ExecOne(x, s);
    assert [x, y][..1] == [x];
  }

  // ----- Paths

  /** A path from block 0. */
  datatype Path = Entry | Via(prefix: Path, block: BlockId)

  function End(p: Path): BlockId {
    match p
    case Entry => 0
    case Via(_, b) => b
  }

  ghost predicate Valid(cfg: Cfg, p: Path) {
    && End(p) < |cfg|
    && (p.Via? ==> Valid(cfg, p.prefix) && p.block in cfg[End(p.prefix)].succs)
  }

  ghost predicate Reaches(cfg: Cfg, p: Path, b: BlockId) {
    Valid(cfg, p) && End(p) == b
  }

  /** What is held, and which unlocks are pending, when `p` arrives at its last block. */
  ghost function StateAt(cfg: Cfg, p: Path): State
    requires Valid(cfg, p)
  {
    match p
    case Entry => EMPTY
    case Via(q, _) => assert Valid(cfg, q); Exec(cfg[End(q)].instrs, StateAt(cfg, q))
  }

  ghost predicate Reachable(cfg: Cfg, b: BlockId) {
    exists p :: Reaches(cfg, p, b)
  }

  /** `k` is held on every path to block `b`. */
  ghost predicate AlwaysHeld(cfg: Cfg, b: BlockId, k: LockRef) {
    forall p :: Reaches(cfg, p, b) ==> k in StateAt(cfg, p).held
  }

  /** An unlock of `k` is pending on every path to block `b`. */
  ghost predicate AlwaysDeferred(cfg: Cfg, b: BlockId, k: LockRef) {
    forall p :: Reaches(cfg, p, b) ==> k in StateAt(cfg, p).deferred
  }

  /** No block is entered with `k` held exclusively on one path and shared on another. */
  ghost predicate ModeConsistent(cfg: Cfg, k: LockRef) {
    forall p, q, b ::
      Reaches(cfg, p, b) && Reaches(cfg, q, b) && k in StateAt(cfg, p).held && k in StateAt(cfg, q).held
      ==> StateAt(cfg, p).held[k].exclusive == StateAt(cfg, q).held[k].exclusive
  }

  /** Syntactic sufficient condition: the function takes `k` only in mode `exclusive`. */
  predicate SingleMode(cfg: Cfg, k: LockRef, exclusive: bool) {
    forall b, i :: 0 <= b < |cfg| && 0 <= i < |cfg[b].instrs| ==>
      var instr := cfg[b].instrs[i];
      instr.Acquire? && instr.ref == k ==> instr.exclusive == exclusive
  }

  // ----- Gen/kill structure of a block

  datatype Effect = Gen(exclusive: bool) | Kill | Pass

  /** What a block does to `k`, whatever state it starts from. */
  function EffectOn(instrs: seq<Instr>, k: LockRef): Effect {
    if |instrs| == 0 then Pass else
    var last := instrs[|instrs| - 1];
    if last.Acquire? && last.ref == k then Gen(last.exclusive)
    else if last.Release? && last.ref == k then Kill
    else EffectOn(instrs[..|instrs| - 1], k)
  }

  /** Every block is gen/kill on each lock: the lock's fate does not depend on other locks. */
  lemma {:induction false} ExecIsGenKill(instrs: seq<Instr>, s: State, k: LockRef)
    ensures var e := EffectOn(instrs, k); var t := Exec(instrs, s);
      && (k in t.held <==> e.Gen? || (e.Pass? && k in s.held))
      && (e.Gen? ==> t.held[k].exclusive == e.exclusive)
      && (e.Pass? && k in s.held ==> t.held[k] == s.held[k])
  {
    if |instrs| > 0 { ExecIsGenKill(instrs[..|instrs| - 1], s, k); }
  }

  /** Some instruction defers an unlock of `k`. */
  ghost predicate Defers(text: seq<Instr>, k: LockRef) {
    exists i :: 0 <= i < |text| && text[i].DeferRelease? && text[i].ref == k
  }

  /** An unlock is pending exactly if it was, or if some instruction of the block defers it. */
  lemma {:induction false} ExecDeferred(instrs: seq<Instr>, s: State, k: LockRef)
    ensures k in Exec(instrs, s).deferred <==> k in s.deferred || Defers(instrs, k)
  {
    if |instrs| > 0 {
      var n := |instrs| - 1;
      ExecDeferred(instrs[..n], s, k);
      if Defers(instrs[..n], k) {
        var i :| 0 <= i < n && instrs[..n][i].DeferRelease? && instrs[..n][i].ref == k;
        assert instrs[i].DeferRelease? && instrs[i].ref == k;
      }
      if Defers(instrs, k) {
        var i :| 0 <= i < |instrs| && instrs[i].DeferRelease? && instrs[i].ref == k;
        assert i < n ==> instrs[..n][i] == instrs[i];
      }
    }
  }

  lemma {:induction false} ExecKeepsBelow(instrs: seq<Instr>, a: State, b: State)
    requires Below(a, b)
    ensures Below(Exec(instrs, a), Exec(instrs, b))
  {
    if |instrs| > 0 { ExecKeepsBelow(instrs[..|instrs| - 1], a, b); }
  }

  lemma {:induction false} ExecKeepsCovered(instrs: seq<Instr>, a: State, b: State)
    requires Covered(a, b)
    ensures Covered(Exec(instrs, a), Exec(instrs, b))
  {
    if |instrs| > 0 { ExecKeepsCovered(instrs[..|instrs| - 1], a, b); }
  }

  lemma {:induction false} ExecKeepsWitnessed(instrs: seq<Instr>, a: State, b: State)
    requires Witnessed(a, b)
    ensures Witnessed(Exec(instrs, a), Exec(instrs, b))
  {
    if |instrs| > 0 { ExecKeepsWitnessed(instrs[..|instrs| - 1], a, b); }
  }

  lemma {:induction false} ExecKeepsSameKeys(instrs: seq<Instr>, a: State, b: State)
    requires SameKeys(a, b)
    ensures SameKeys(Exec(instrs, a), Exec(instrs, b))
  {
    ExecKeepsBelow(instrs, a, b);
    ExecKeepsBelow(instrs, b, a);
  }

  // ----- The finite universe of locks

  predicate Mentions(instr: Instr) {
    instr.Acquire? || instr.DeferRelease?
  }

  /** Every lock the function can come to hold or to have pending. */
  ghost function Universe(cfg: Cfg): set<LockRef> {
    set b, i | 0 <= b < |cfg| && 0 <= i < |cfg[b].instrs| && Mentions(cfg[b].instrs[i]) :: cfg[b].instrs[i].ref
  }

  ghost predicate Within(u: set<LockRef>, s: State) {
    s.held.Keys <= u && s.deferred <= u
  }

  lemma {:induction false} ExecWithin(instrs: seq<Instr>, s: State, u: set<LockRef>)
    requires Within(u, s)
    requires forall i :: 0 <= i < |instrs| && Mentions(instrs[i]) ==> instrs[i].ref in u
    ensures Within(u, Exec(instrs, s))
  {
    if |instrs| > 0 { ExecWithin(instrs[..|instrs| - 1], s, u); }
  }

  lemma {:induction false} BlockWithin(cfg: Cfg, b: BlockId, s: State)
    requires b < |cfg| && Within(Universe(cfg), s)
    ensures Within(Universe(cfg), Exec(cfg[b].instrs, s))
  {
    ExecWithin(cfg[b].instrs, s, Universe(cfg));
  }

  lemma {:induction false} PathWithin(cfg: Cfg, p: Path)
    requires Valid(cfg, p)
    ensures Within(Universe(cfg), StateAt(cfg, p))
  {
    match p
    case Entry =>
    case Via(q, _) =>
      PathWithin(cfg, q);
      BlockWithin(cfg, End(q), StateAt(cfg, q));
  }

  // ----- Modes

  lemma {:induction false} ExecSingleMode(instrs: seq<Instr>, k: LockRef, exclusive: bool)
    requires forall i :: 0 <= i < |instrs| && instrs[i].Acquire? && instrs[i].ref == k ==>
      instrs[i].exclusive == exclusive
    ensures EffectOn(instrs, k).Gen? ==> EffectOn(instrs, k).exclusive == exclusive
  {
    if |instrs| > 0 { ExecSingleMode(instrs[..|instrs| - 1], k, exclusive); }
  }

  lemma {:induction false} PathSingleMode(cfg: Cfg, p: Path, k: LockRef, exclusive: bool)
    requires Valid(cfg, p) && SingleMode(cfg, k, exclusive)
    ensures k in StateAt(cfg, p).held ==> StateAt(cfg, p).held[k].exclusive == exclusive
  {
    match p
    case Entry =>
    case Via(q, _) =>
      PathSingleMode(cfg, q, k, exclusive);
      ExecIsGenKill(cfg[End(q)].instrs, StateAt(cfg, q), k);
      ExecSingleMode(cfg[End(q)].instrs, k, exclusive);
  }

  /** A lock taken in one mode only is never at odds with itself at a merge. */
  lemma {:induction false} SingleModeIsConsistent(cfg: Cfg, k: LockRef, exclusive: bool)
    requires SingleMode(cfg, k, exclusive)
    ensures ModeConsistent(cfg, k)
  {
    forall p, q, b | Reaches(cfg, p, b) && Reaches(cfg, q, b) && k in StateAt(cfg, p).held && k in StateAt(cfg, q).held
      ensures StateAt(cfg, p).held[k].exclusive == StateAt(cfg, q).held[k].exclusive
    {
      PathSingleMode(cfg, p, k, exclusive);
      PathSingleMode(cfg, q, k, exclusive);
    }
  }

  // ----- Meets over all paths, one edge at a time

  /** A lock held on every path to `c` is held after block `b` in any state that has all locks always held at `b`. */
  lemma {:induction false} AlwaysHeldAlongEdge(cfg: Cfg, p: Path, b: BlockId, c: BlockId, k: LockRef, m: State)
    requires WellFormed(cfg) && Reaches(cfg, p, b) && c in cfg[b].succs
    requires AlwaysHeld(cfg, b, k) ==> k in m.held
    requires AlwaysHeld(cfg, c, k)
    ensures k in Exec(cfg[b].instrs, m).held
  {
    var body := cfg[b].instrs;
    ExecIsGenKill(body, m, k);
    forall q | Reaches(cfg, q, b)
      ensures EffectOn(body, k).Gen? || (EffectOn(body, k).Pass? && k in StateAt(cfg, q).held)
    {
      assert Reaches(cfg, Via(q, c), c);
      ExecIsGenKill(body, StateAt(cfg, q), k);
    }
    assert EffectOn(body, k).Gen? || EffectOn(body, k).Pass?;
  }

  lemma {:induction false} AlwaysDeferredAlongEdge(cfg: Cfg, b: BlockId, c: BlockId, k: LockRef, m: State)
    requires WellFormed(cfg) && b < |cfg| && c in cfg[b].succs
    requires AlwaysDeferred(cfg, b, k) ==> k in m.deferred
    requires AlwaysDeferred(cfg, c, k)
    ensures k in Exec(cfg[b].instrs, m).deferred
  {
    var body := cfg[b].instrs;
    ExecDeferred(body, m, k);
    forall q | Reaches(cfg, q, b)
      ensures Defers(body, k) || k in StateAt(cfg, q).deferred
    {
      assert Reaches(cfg, Via(q, c), c);
      ExecDeferred(body, StateAt(cfg, q), k);
    }
  }
}
