/** An everyday function that the coded walk handles correctly although paths disagree at a block that takes a
    lock: one branch holds K, the other does not, and after the merge there is a critical section. */
module EverydayMerge {
  import opened Types
  import opened LockStates
  import opened Cfgs
  import opened LiteralAgreement

  const K := LockRef(0, 0)
  const M := LockRef(0, 1)

  const BRANCHES: Cfg := [
    Block([], [1, 2]),
    Block([Acquire(K, true, 1)], [3]),
    Block([], [3]),
    Block([Acquire(M, true, 2), Release(M, true, 3)], [])]

  /** What a block other than the critical section may hold on entry. */
  lemma {:induction false} MergePaths(p: Path)
    requires Valid(BRANCHES, p)
    ensures M !in StateAt(BRANCHES, p).held && (End(p) <= 2 ==> StateAt(BRANCHES, p) == EMPTY)
  {
    match p
    case Entry =>
    case Via(q, c) =>
      MergePaths(q);
      var b := End(q);
      assert Valid(BRANCHES, q) && b <= 2 && (b > 0 ==> c == 3);
      ExecOne(Acquire(K, true, 1), StateAt(BRANCHES, q));
  }

  lemma {:induction false} CriticalSectionIsBalanced(s: State)
    requires M !in s.held
    ensures SameLocks(Exec(BRANCHES[3].instrs, s), s)
  {
    ExecTwo(Acquire(M, true, 2), Release(M, true, 3), s);
  }

  /** Paths disagree at block 3, which takes and releases M; the function is harmless nevertheless. */
  lemma {:induction false} CriticalSectionAfterMergeIsHarmless()
    ensures Cfgs.WellFormed(BRANCHES) && !AgreesAt(BRANCHES, 3) && Harmless(BRANCHES)
  {
    forall b: BlockId | b < 4 ensures Balanced(BRANCHES, b) || AgreesAt(BRANCHES, b) {
      forall p | Reaches(BRANCHES, p, b)
        ensures M !in StateAt(BRANCHES, p).held && (b <= 2 ==> StateAt(BRANCHES, p) == EMPTY)
      {
        MergePaths(p);
      }
      if b == 3 {
        forall p | Reaches(BRANCHES, p, 3)
          ensures SameLocks(Exec(BRANCHES[3].instrs, StateAt(BRANCHES, p)), StateAt(BRANCHES, p))
        {
          CriticalSectionIsBalanced(StateAt(BRANCHES, p));
        }
      }
    }
    forall k ensures ModeConsistent(BRANCHES, k) {
      assert SingleMode(BRANCHES, k, true);
      SingleModeIsConsistent(BRANCHES, k, true);
    }
    PathsDisagree();
  }

  lemma {:induction false} PathsDisagree()
    ensures !AgreesAt(BRANCHES, 3)
  {
    assert BRANCHES[0].succs[0] == 1 && BRANCHES[0].succs[1] == 2 && BRANCHES[1].succs[0] == 3
      && BRANCHES[2].succs[0] == 3;
    assert Valid(BRANCHES, Entry);
    forall b | b == 1 || b == 2
      ensures Reaches(BRANCHES, Via(Via(Entry, b), 3), 3) && StateAt(BRANCHES, Via(Entry, b)) == EMPTY
    {
      assert Valid(BRANCHES, Via(Entry, b));
      MergePaths(Via(Entry, b));
    }
    ExecOne(Acquire(K, true, 1), EMPTY);
    assert K in StateAt(BRANCHES, Via(Via(Entry, 1), 3)).held;
    assert K !in StateAt(BRANCHES, Via(Via(Entry, 2), 3)).held;
  }
}
