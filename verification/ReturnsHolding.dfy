/** Acquire helpers (C13) and lock leaks (C5): reporter.go:194-234 and 301-320. */
module ReturnsHolding {
  import opened Types
  import opened Sets
  import opened Cfgs
  import opened Records
  import opened FixedPoint

  /** A function and a lock key. */
  datatype FnKey = FnKey(fn: Fn, key: Key)

  // ----- Counting returns

  function CountReturns(instrs: seq<Instr>): nat {
    if |instrs| == 0 then 0 else CountReturns(instrs[..|instrs| - 1]) + if instrs[|instrs| - 1].Return? then 1 else 0
  }

  function CountAll(blocks: seq<Block>): nat {
    if |blocks| == 0 then 0 else CountAll(blocks[..|blocks| - 1]) + CountReturns(blocks[|blocks| - 1].instrs)
  }

  ghost function PositionsIn(instrs: seq<Instr>): set<Pos> {
    set i | 0 <= i < |instrs| && instrs[i].Return? :: instrs[i].pos
  }

  ghost function AllPositions(blocks: seq<Block>): set<Pos> {
    set b, i | 0 <= b < |blocks| && 0 <= i < |blocks[b].instrs| && blocks[b].instrs[i].Return? ::
      blocks[b].instrs[i].pos
  }

  ghost predicate DistinctIn(instrs: seq<Instr>) {
    forall i, j :: 0 <= i < j < |instrs| && instrs[i].Return? && instrs[j].Return? ==> instrs[i].pos != instrs[j].pos
  }

  lemma {:induction false} UnionSize<T>(a: set<T>, b: set<T>)
    ensures |a + b| <= |a| + |b|
    ensures |a + b| == |a| + |b| <==> a !! b
  {
    if !(a !! b) {
      var x :| x in a && x in b;
      assert a + b == a + (b - {x});
    }
  }

  lemma {:induction false} PositionsStep(instrs: seq<Instr>)
    requires |instrs| > 0
    ensures var init, last := instrs[..|instrs| - 1], instrs[|instrs| - 1];
      PositionsIn(instrs) == PositionsIn(init) + if last.Return? then {last.pos} else {}
  {
    var init := instrs[..|instrs| - 1];
    assert forall i :: 0 <= i < |init| ==> init[i] == instrs[i];
  }

  lemma {:induction false} DistinctInStep(instrs: seq<Instr>)
    requires |instrs| > 0
    ensures var init, last := instrs[..|instrs| - 1], instrs[|instrs| - 1];
      DistinctIn(instrs) <==> DistinctIn(init) && (last.Return? ==> last.pos !in PositionsIn(init))
  {
    var init, last := instrs[..|instrs| - 1], instrs[|instrs| - 1];
    assert forall i :: 0 <= i < |init| ==> init[i] == instrs[i];
    if DistinctIn(instrs) {
      assert forall i :: 0 <= i < |init| && init[i].Return? && last.Return? ==> init[i].pos != last.pos;
    }
    if DistinctIn(init) && (last.Return? ==> last.pos !in PositionsIn(init)) {
      forall i, j | 0 <= i < j < |instrs| && instrs[i].Return? && instrs[j].Return?
        ensures instrs[i].pos != instrs[j].pos
      {
        assert instrs[i] == init[i] && init[i].pos in PositionsIn(init);
      }
    }
  }

  /** There are at most as many positions as returns, and as many exactly if the positions differ. */
  lemma {:induction false} CountBoundsSize(instrs: seq<Instr>)
    ensures |PositionsIn(instrs)| <= CountReturns(instrs)
    ensures |PositionsIn(instrs)| == CountReturns(instrs) <==> DistinctIn(instrs)
  {
    if |instrs| > 0 {
      var init, last := instrs[..|instrs| - 1], instrs[|instrs| - 1];
      CountBoundsSize(init);
      PositionsStep(instrs);
      DistinctInStep(instrs);
    }
  }

  lemma {:induction false} AllPositionsStep(blocks: seq<Block>)
    requires |blocks| > 0
    ensures AllPositions(blocks) == AllPositions(blocks[..|blocks| - 1]) + PositionsIn(blocks[|blocks| - 1].instrs)
  {
    var n := |blocks| - 1;
    forall p | p in AllPositions(blocks[..n]) ensures p in AllPositions(blocks) {
      var b, i :| 0 <= b < n && 0 <= i < |blocks[..n][b].instrs| && blocks[..n][b].instrs[i].Return?
        && blocks[..n][b].instrs[i].pos == p;
      assert blocks[b].instrs[i].pos == p;
    }
    forall p | p in PositionsIn(blocks[n].instrs) ensures p in AllPositions(blocks) {
      var i :| 0 <= i < |blocks[n].instrs| && blocks[n].instrs[i].Return? && blocks[n].instrs[i].pos == p;
    }
    forall p | p in AllPositions(blocks) ensures p in AllPositions(blocks[..n]) + PositionsIn(blocks[n].instrs) {
      var b, i :| 0 <= b < |blocks| && 0 <= i < |blocks[b].instrs| && blocks[b].instrs[i].Return?
        && blocks[b].instrs[i].pos == p;
      if b < n { assert blocks[..n][b].instrs[i].pos == p; }
    }
  }

  /** Positions differ exactly if they differ in all blocks but the last, in the last, and across. */
  lemma {:induction false} DistinctStep(blocks: seq<Block>)
    requires |blocks| > 0
    ensures var n := |blocks| - 1; var last := blocks[n].instrs;
      DistinctReturns(blocks) <==>
        DistinctReturns(blocks[..n]) && DistinctIn(last) && AllPositions(blocks[..n]) !! PositionsIn(last)
  {
    var n := |blocks| - 1;
    var last := blocks[n].instrs;
    if DistinctReturns(blocks) {
      forall b: BlockId, i: nat, c: BlockId, j: nat, pos: Pos
        | IsReturn(blocks[..n], b, i, pos) && IsReturn(blocks[..n], c, j, pos)
        ensures b == c && i == j
      {
        assert IsReturn(blocks, b, i, pos) && IsReturn(blocks, c, j, pos);
      }
      forall i, j | 0 <= i < j < |last| && last[i].Return? && last[j].Return? ensures last[i].pos != last[j].pos {
        assert IsReturn(blocks, n, i, last[i].pos) && IsReturn(blocks, n, j, last[j].pos);
      }
      forall p | p in AllPositions(blocks[..n]) ensures p !in PositionsIn(last) { LastBlockIsNew(blocks, p); }
    }
    if DistinctReturns(blocks[..n]) && DistinctIn(last) && AllPositions(blocks[..n]) !! PositionsIn(last) {
      forall b: BlockId, i: nat, c: BlockId, j: nat, pos: Pos
        | IsReturn(blocks, b, i, pos) && IsReturn(blocks, c, j, pos)
        ensures b == c && i == j
      {
        var init := blocks[..n];
        if b < n { assert IsReturn(init, b, i, pos) && init[b].instrs[i].pos in AllPositions(init); }
        if c < n { assert IsReturn(init, c, j, pos) && init[c].instrs[j].pos in AllPositions(init); }
      }
    }
  }

  lemma {:induction false} LastBlockIsNew(blocks: seq<Block>, p: Pos)
    requires DistinctReturns(blocks) && |blocks| > 0 && p in AllPositions(blocks[..|blocks| - 1])
    ensures p !in PositionsIn(blocks[|blocks| - 1].instrs)
  {
    var n := |blocks| - 1;
    var b: nat, i: nat :| b < n && i < |blocks[..n][b].instrs|
      && blocks[..n][b].instrs[i].Return? && blocks[..n][b].instrs[i].pos == p;
    assert IsReturn(blocks, b, i, p);
    assert forall j: nat :: j < |blocks[n].instrs| && blocks[n].instrs[j] == Return(p) ==> IsReturn(blocks, n, j, p);
  }

  /** The same over all blocks. */
  lemma {:induction false} CountAllBoundsSize(blocks: seq<Block>)
    ensures |AllPositions(blocks)| <= CountAll(blocks)
    ensures |AllPositions(blocks)| == CountAll(blocks) <==> DistinctReturns(blocks)
  {
    if |blocks| > 0 {
      var n := |blocks| - 1;
      var init, last := blocks[..n], blocks[n].instrs;
      CountAllBoundsSize(init);
      CountBoundsSize(last);
      AllPositionsStep(blocks);
      DistinctStep(blocks);
      UnionSize(AllPositions(init), PositionsIn(last));
    }
  }

  method CountFunctionReturns(cfg: Cfg) returns (count: nat)
    ensures count == CountAll(cfg)
  {
    count := 0;
    var b := 0;
    while b < |cfg|
      invariant 0 <= b <= |cfg| && count == CountAll(cfg[..b])
    {
      assert cfg[..b + 1][..b] == cfg[..b];
      ghost var before := count;
      var i := 0;
      while i < |cfg[b].instrs|
        invariant 0 <= i <= |cfg[b].instrs| && count == before + CountReturns(cfg[b].instrs[..i])
      {
        assert cfg[b].instrs[..i + 1][..i] == cfg[b].instrs[..i];
        if cfg[b].instrs[i].Return? { count := count + 1; }
        i := i + 1;
      }
      assert cfg[b].instrs[..i] == cfg[b].instrs;
      b := b + 1;
    }
    assert cfg[..b] == cfg;
  }

  // ----- Which returns hold a lock

  /** Some candidate of the return at `pos` of `fk.fn` is the lock `fk.key`. */
  ghost predicate HeldAtReturn(typings: Typings, leaks: Leaks, fk: FnKey, pos: Pos) {
    exists c ::
      c in Candidates(leaks, pos) && c.fn == fk.fn && c.pos == pos && KeyIn(typings, c.fn, c.ref) == Some(fk.key)
  }

  /** Candidates are filed under their own position. */
  ghost predicate FiledByPosition(leaks: Leaks) {
    forall pos, c :: c in Candidates(leaks, pos) ==> c.pos == pos
  }

  /** `returnPositions`: per function and lock, the returns at which the lock is a candidate. */
  ghost predicate Groups(typings: Typings, leaks: Leaks, positions: set<Pos>, grouped: map<FnKey, set<Pos>>) {
    && (forall fk :: fk in grouped ==> grouped[fk] != {})
    && (forall fk, pos :: pos in PositionsOf(grouped, fk) <==>
          pos in positions && HeldAtReturn(typings, leaks, fk, pos))
  }

  function PositionsOf(grouped: map<FnKey, set<Pos>>, fk: FnKey): set<Pos> {
    if fk in grouped then grouped[fk] else {}
  }

  method GroupCandidates(typings: Typings, leaks: Leaks) returns (grouped: map<FnKey, set<Pos>>)
    requires FiledByPosition(leaks)
    ensures Groups(typings, leaks, leaks.Keys, grouped)
  {
    grouped := map[];
    var todo := leaks.Keys;
    while todo != {}
      invariant todo <= leaks.Keys && Groups(typings, leaks, leaks.Keys - todo, grouped)
      decreases todo
    {
      var pos :| pos in todo;
      grouped := GroupPosition(typings, leaks, pos, grouped, leaks.Keys - todo);
      todo := todo - {pos};
      assert leaks.Keys - (todo + {pos}) + {pos} == leaks.Keys - todo;
    }
    assert leaks.Keys - todo == leaks.Keys;
  }

  /** Some of the candidates is the lock `fk.key` in `fk.fn`. */
  ghost predicate Names(typings: Typings, found: set<LeakCandidate>, fk: FnKey) {
    exists c :: c in found && c.fn == fk.fn && KeyIn(typings, c.fn, c.ref) == Some(fk.key)
  }

  lemma {:induction false} NamesOneMore(typings: Typings, found: set<LeakCandidate>, c: LeakCandidate)
    ensures forall fk :: Names(typings, found + {c}, fk) <==>
      Names(typings, found, fk) || (c.fn == fk.fn && KeyIn(typings, c.fn, c.ref) == Some(fk.key))
  {
    forall fk | Names(typings, found, fk) ensures Names(typings, found + {c}, fk) {
      var d :| d in found && d.fn == fk.fn && KeyIn(typings, d.fn, d.ref) == Some(fk.key);
      assert d in found + {c};
    }
    assert c in found + {c};
  }

  /** Adds a position to those of a function and lock, and to no others. */
  function File(grouped: map<FnKey, set<Pos>>, fk: FnKey, pos: Pos): (out: map<FnKey, set<Pos>>)
    ensures forall other, p :: p in PositionsOf(out, other) <==>
      p in PositionsOf(grouped, other) || (other == fk && p == pos)
    ensures forall other :: other in out <==> other in grouped || other == fk
  {
    grouped[fk := PositionsOf(grouped, fk) + {pos}]
  }

  method GroupPosition(typings: Typings, leaks: Leaks, pos: Pos, grouped: map<FnKey, set<Pos>>, ghost done: set<Pos>)
    returns (out: map<FnKey, set<Pos>>)
    requires FiledByPosition(leaks) && Groups(typings, leaks, done, grouped) && pos in leaks && pos !in done
    ensures Groups(typings, leaks, done + {pos}, out)
  {
    assert Candidates(leaks, pos) == leaks[pos];
    out := grouped;
    var todo := leaks[pos];
    while todo != {}
      invariant todo <= leaks[pos]
      invariant forall fk :: fk in out ==> out[fk] != {}
      invariant forall fk, p :: p in PositionsOf(out, fk) <==>
        p in PositionsOf(grouped, fk) || (p == pos && Names(typings, leaks[pos] - todo, fk))
      decreases todo
    {
      var c :| c in todo;
      ghost var seen := leaks[pos] - todo;
      NamesOneMore(typings, seen, c);
      todo := todo - {c};
      assert leaks[pos] - todo == seen + {c};
      var key := KeyIn(typings, c.fn, c.ref);
      if key.Some? {
        var fk := FnKey(c.fn, key.value);
        out := File(out, fk, pos);
      }
      assert forall fk :: Names(typings, leaks[pos] - todo, fk) <==>
        Names(typings, seen, fk) || (key.Some? && fk == FnKey(c.fn, key.value));
    }
    assert leaks[pos] - todo == leaks[pos];
  }

  // ----- The decision by cardinality

  /** Every return of the function is a candidate for the lock, and there is one. */
  ghost predicate AllReturnsHold(typings: Typings, leaks: Leaks, cfg: Cfg, fk: FnKey) {
    AllPositions(cfg) != {} && forall pos :: pos in AllPositions(cfg) ==> HeldAtReturn(typings, leaks, fk, pos)
  }

  /** Candidates of a function lie at its own returns. */
  ghost predicate AtOwnReturns(leaks: Leaks, fn: Fn, cfg: Cfg) {
    forall pos, c :: c in Candidates(leaks, pos) && c.fn == fn ==> pos in AllPositions(cfg)
  }

  /** Comparing the number of candidate positions with the number of returns decides whether every return
      holds the lock and no two returns share a position. */
  lemma {:induction false} CountDecidesReturnsHolding(typings: Typings, leaks: Leaks, grouped: map<FnKey, set<Pos>>,
                                                      cfg: Cfg, fk: FnKey)
    requires Groups(typings, leaks, leaks.Keys, grouped) && AtOwnReturns(leaks, fk.fn, cfg)
    ensures fk in grouped && |grouped[fk]| == CountAll(cfg) && CountAll(cfg) > 0
      <==> DistinctReturns(cfg) && AllReturnsHold(typings, leaks, cfg, fk)
  {
    var all, mine := AllPositions(cfg), PositionsOf(grouped, fk);
    CountAllBoundsSize(cfg);
    forall pos | HeldAtReturn(typings, leaks, fk, pos) ensures pos in leaks.Keys && pos in all {}
    assert mine <= all;
    SubsetIsNoLarger(mine, all);
    if |mine| == |all| { SubsetOfSameSize(mine, all); }
    if AllReturnsHold(typings, leaks, cfg, fk) { assert mine == all; }
  }

  method ComputeReturnsHolding(typings: Typings, leaks: Leaks, cfgs: map<Fn, Cfg>) returns (holding: set<FnKey>)
    requires FiledByPosition(leaks)
    ensures forall fk :: fk in holding ==> fk.fn in cfgs
    ensures forall fk: FnKey :: fk.fn in cfgs && AtOwnReturns(leaks, fk.fn, cfgs[fk.fn]) ==>
      (fk in holding <==> DistinctReturns(cfgs[fk.fn]) && AllReturnsHold(typings, leaks, cfgs[fk.fn], fk))
  {
    var grouped := GroupCandidates(typings, leaks);
    holding := {};
    var todo := grouped.Keys;
    while todo != {}
      invariant todo <= grouped.Keys
      invariant forall fk :: fk in holding <==>
        fk in grouped && fk !in todo && fk.fn in cfgs && |grouped[fk]| == CountAll(cfgs[fk.fn])
          && CountAll(cfgs[fk.fn]) > 0
      decreases todo
    {
      var fk :| fk in todo;
      if fk.fn in cfgs {
        var count := CountFunctionReturns(cfgs[fk.fn]);
        if |grouped[fk]| == count && count > 0 { holding := holding + {fk}; }
      }
      todo := todo - {fk};
    }
    forall fk: FnKey | fk.fn in cfgs && AtOwnReturns(leaks, fk.fn, cfgs[fk.fn])
      ensures fk in holding <==> DistinctReturns(cfgs[fk.fn]) && AllReturnsHold(typings, leaks, cfgs[fk.fn], fk)
    {
      CountDecidesReturnsHolding(typings, leaks, grouped, cfgs[fk.fn], fk);
    }
  }

  // ----- Leak reports

  /** A candidate is reported unless its function requires the lock, the deferred-lock typo was reported
      for it, or its function is an acquire helper for it. */
  predicate LeakReported(typings: Typings, leaks: Leaks, needs: Table, typos: set<(Fn, LockRef)>, holding: set<FnKey>,
                         c: LeakCandidate) {
    && c in Candidates(leaks, c.pos) && (c.fn, c.ref) !in typos
    && match KeyIn(typings, c.fn, c.ref)
       case None => true
       case Some(k) => k !in At(needs, c.fn) && FnKey(c.fn, k) !in holding
  }

  /** A lock leak and an acquire helper are never reported for the same function and lock: a reported leak
      means that two returns of the function share a position or another one does not hold the lock. */
  lemma {:induction false} LeakExcludesAcquireHelper(typings: Typings, leaks: Leaks, cfg: Cfg, needs: Table,
                                                     typos: set<(Fn, LockRef)>, holding: set<FnKey>, c: LeakCandidate,
                                                     k: Key) returns (pos: Pos)
    requires FnKey(c.fn, k) in holding <==> DistinctReturns(cfg) && AllReturnsHold(typings, leaks, cfg, FnKey(c.fn, k))
    requires AtOwnReturns(leaks, c.fn, cfg) && KeyIn(typings, c.fn, c.ref) == Some(k)
    requires LeakReported(typings, leaks, needs, typos, holding, c)
    ensures FnKey(c.fn, k) !in holding
    ensures DistinctReturns(cfg) ==>
      pos in AllPositions(cfg) && pos != c.pos && !HeldAtReturn(typings, leaks, FnKey(c.fn, k), pos)
  {
    assert HeldAtReturn(typings, leaks, FnKey(c.fn, k), c.pos);
    assert c.pos in AllPositions(cfg);
    if !DistinctReturns(cfg) { return c.pos; }
    pos :| pos in AllPositions(cfg) && !HeldAtReturn(typings, leaks, FnKey(c.fn, k), pos);
  }

  /** `reportDeferredLockLeaks`. */
  method ReportLeaks(typings: Typings, leaks: Leaks, needs: Table, typos: set<(Fn, LockRef)>, holding: set<FnKey>)
    returns (reported: set<LeakCandidate>)
    requires FiledByPosition(leaks)
    ensures forall c :: c in reported <==> LeakReported(typings, leaks, needs, typos, holding, c)
  {
    reported := {};
    var todo := leaks.Keys;
    while todo != {}
      invariant todo <= leaks.Keys
      invariant forall c :: c in reported <==> c.pos !in todo && LeakReported(typings, leaks, needs, typos, holding, c)
      decreases todo
    {
      var pos :| pos in todo;
      var here := ReportPosition(typings, leaks, needs, typos, holding, pos);
      reported := reported + here;
      todo := todo - {pos};
    }
  }

  /** The candidates of one return: three reasons to skip a candidate, tested in turn. */
  method ReportPosition(typings: Typings, leaks: Leaks, needs: Table, typos: set<(Fn, LockRef)>, holding: set<FnKey>,
                        pos: Pos)
    returns (reported: set<LeakCandidate>)
    requires FiledByPosition(leaks) && pos in leaks
    ensures forall c :: c in reported <==> c.pos == pos && LeakReported(typings, leaks, needs, typos, holding, c)
  {
    assert Candidates(leaks, pos) == leaks[pos];
    reported := {};
    var todo := leaks[pos];
    while todo != {}
      invariant todo <= leaks[pos]
      invariant forall c :: c in reported <==>
        c in leaks[pos] && c !in todo && LeakReported(typings, leaks, needs, typos, holding, c)
      decreases todo
    {
      var c :| c in todo;
      todo := todo - {c};
      var key := KeyIn(typings, c.fn, c.ref);
      if key.Some? && key.value in At(needs, c.fn) { continue; }
      if (c.fn, c.ref) in typos { continue; }
      if key.Some? && FnKey(c.fn, key.value) in holding { continue; }
      reported := reported + {c};
    }
  }
}
