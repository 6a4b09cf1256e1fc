/** Paths read as text: what is held and which unlocks are pending at a point, in terms of the instructions
    passed on the way alone. */
module PathText {
  import opened Types
  import opened LockStates
  import opened Cfgs

  /** All instructions passed before the last block of the path, in order. */
  ghost function TextTo(cfg: Cfg, p: Path): seq<Instr>
    requires Valid(cfg, p)
  {
    match p
    case Entry => []
    case Via(q, _) => TextTo(cfg, q) + cfg[End(q)].instrs
  }

  /** All instructions passed before instruction `i` of the last block. */
  ghost function TextBefore(cfg: Cfg, p: Path, i: nat): seq<Instr>
    requires Valid(cfg, p) && i < |cfg[End(p)].instrs|
  {
    TextTo(cfg, p) + cfg[End(p)].instrs[..i]
  }

  ghost predicate Touches(instr: Instr, k: LockRef) {
    (instr.Acquire? || instr.Release?) && instr.ref == k
  }

  /** Instruction `i` takes `k`, and nothing after it takes or releases it. */
  ghost predicate TakenAt(text: seq<Instr>, k: LockRef, i: nat) {
    && i < |text| && text[i].Acquire? && text[i].ref == k
    && forall j :: i < j < |text| ==> !Touches(text[j], k)
  }

  /** After the text `k` is held. */
  ghost predicate HeldAfter(text: seq<Instr>, k: LockRef) {
    exists i: nat :: TakenAt(text, k, i)
  }

  lemma {:induction false} TakenEarlier(text: seq<Instr>, k: LockRef, i: nat)
    requires |text| > 0 && !Touches(text[|text| - 1], k)
    ensures TakenAt(text, k, i) <==> TakenAt(text[..|text| - 1], k, i)
  {
    var init := text[..|text| - 1];
    assert forall j :: 0 <= j < |init| ==> init[j] == text[j];
    if TakenAt(init, k, i) {
      forall j | i < j < |text| ensures !Touches(text[j], k) { assert j < |init| ==> text[j] == init[j]; }
    }
    if TakenAt(text, k, i) {
      forall j | i < j < |init| ensures !Touches(init[j], k) { assert init[j] == text[j]; }
    }
  }

  /** A lock is held exactly if the text takes it and does not release it later; in the mode and since the
      position of the acquisition taken last. */
  lemma {:induction false} HeldReadsText(text: seq<Instr>, k: LockRef)
    ensures k in Exec(text, EMPTY).held <==> HeldAfter(text, k)
    ensures forall i: nat :: TakenAt(text, k, i) ==>
      k in Exec(text, EMPTY).held && Exec(text, EMPTY).held[k] == HeldLock(text[i].exclusive, text[i].pos)
  {
    if |text| > 0 {
      var n := |text| - 1;
      HeldReadsText(text[..n], k);
      if Touches(text[n], k) {
        assert text[n].Acquire? ==> TakenAt(text, k, n);
        assert forall i: nat :: TakenAt(text, k, i) ==> i == n;
      } else {
        forall i: nat ensures TakenAt(text, k, i) <==> TakenAt(text[..n], k, i) { TakenEarlier(text, k, i); }
      }
    }
  }

  lemma {:induction false} ExecConcat(xs: seq<Instr>, ys: seq<Instr>, s: State)
    ensures Exec(xs + ys, s) == Exec(ys, Exec(xs, s))
  {
    if |ys| == 0 {
      assert xs + ys == xs;
    } else {
      var n := |ys| - 1;
      ExecConcat(xs, ys[..n], s);
      assert (xs + ys)[..|xs + ys| - 1] == xs + ys[..n];
    }
  }

  /** The state of a path is what its text leaves. */
  lemma {:induction false} StateIsExecOfText(cfg: Cfg, p: Path)
    requires Valid(cfg, p)
    ensures StateAt(cfg, p) == Exec(TextTo(cfg, p), EMPTY)
  {
    if p.Via? {
      StateIsExecOfText(cfg, p.prefix);
      ExecConcat(TextTo(cfg, p.prefix), cfg[End(p.prefix)].instrs, EMPTY);
    }
  }

  /** At the end of a path a lock is held, and an unlock is pending, exactly if the text says so. */
  lemma {:induction false} StateReadsText(cfg: Cfg, p: Path, k: LockRef)
    requires Valid(cfg, p)
    ensures var s, text := StateAt(cfg, p), TextTo(cfg, p);
      && (k in s.held <==> HeldAfter(text, k))
      && (forall i: nat :: TakenAt(text, k, i) ==> s.held[k] == HeldLock(text[i].exclusive, text[i].pos))
      && (k in s.deferred <==> Defers(text, k))
  {
    StateIsExecOfText(cfg, p);
    HeldReadsText(TextTo(cfg, p), k);
    ExecDeferred(TextTo(cfg, p), EMPTY, k);
  }

  /** The lock state just before instruction `i` of the last block of `p`. */
  ghost function StateBefore(cfg: Cfg, p: Path, i: nat): State
    requires Valid(cfg, p) && i < |cfg[End(p)].instrs|
  {
    Exec(cfg[End(p)].instrs[..i], StateAt(cfg, p))
  }

  /** The same just before an instruction. */
  lemma {:induction false} PointReadsText(cfg: Cfg, p: Path, i: nat, k: LockRef)
    requires Valid(cfg, p) && i < |cfg[End(p)].instrs|
    ensures var s, text := StateBefore(cfg, p, i), TextBefore(cfg, p, i);
      && (k in s.held <==> HeldAfter(text, k))
      && (forall j: nat :: TakenAt(text, k, j) ==> s.held[k] == HeldLock(text[j].exclusive, text[j].pos))
      && (k in s.deferred <==> Defers(text, k))
  {
    var text := TextBefore(cfg, p, i);
    StateIsExecOfText(cfg, p);
    ExecConcat(TextTo(cfg, p), cfg[End(p)].instrs[..i], EMPTY);
    HeldReadsText(text, k);
    ExecDeferred(text, EMPTY, k);
  }

  // ----- All paths to a point

  /** Every path to the point holds the lock there. */
  ghost predicate AlwaysHeldAt(cfg: Cfg, b: BlockId, i: nat, k: LockRef)
    requires b < |cfg| && i < |cfg[b].instrs|
  {
    forall p :: Reaches(cfg, p, b) ==> HeldAfter(TextBefore(cfg, p, i), k)
  }

  /** Every path to the point passes a deferred unlock of the lock. */
  ghost predicate AlwaysDeferredAt(cfg: Cfg, b: BlockId, i: nat, k: LockRef)
    requires b < |cfg| && i < |cfg[b].instrs|
  {
    forall p :: Reaches(cfg, p, b) ==> Defers(TextBefore(cfg, p, i), k)
  }

  lemma {:induction false} AlwaysAtReadsState(cfg: Cfg, b: BlockId, i: nat, k: LockRef)
    requires b < |cfg| && i < |cfg[b].instrs|
    ensures AlwaysHeldAt(cfg, b, i, k) <==> forall p :: Reaches(cfg, p, b) ==> k in StateBefore(cfg, p, i).held
    ensures AlwaysDeferredAt(cfg, b, i, k) <==> forall p :: Reaches(cfg, p, b) ==> k in StateBefore(cfg, p, i).deferred
  {
    forall p | Reaches(cfg, p, b)
      ensures k in StateBefore(cfg, p, i).held <==> HeldAfter(TextBefore(cfg, p, i), k)
      ensures k in StateBefore(cfg, p, i).deferred <==> Defers(TextBefore(cfg, p, i), k)
    {
      PointReadsText(cfg, p, i, k);
    }
  }
}
