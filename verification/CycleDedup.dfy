/** Deduplication of cycles found from different starting points (lockorder.go). */
module CycleDedup {
  import opened Types
  import opened Digraph
  import opened Strings
  import opened Rotations

  function Label(name: Naming, p: Pair): string {
    name(p.from) + "->" + name(p.to)
  }

  function Labels(name: Naming, ps: seq<Pair>): (ls: seq<string>)
    ensures |ls| == |ps| && forall i :: 0 <= i < |ps| ==> ls[i] == Label(name, ps[i])
  {
    seq(|ps|, i requires 0 <= i < |ps| => Label(name, ps[i]))
  }

  function Render(name: Naming, ps: seq<Pair>): string {
    if |ps| == 0 then "" else Render(name, ps[..|ps| - 1]) + (Label(name, ps[|ps| - 1]) + ";")
  }

  /** The rotation starting at the first pair with the least label. */
  function Canonical(name: Naming, ps: seq<Pair>): seq<Pair> {
    if |ps| == 0 then ps else Rotate(ps, FirstMin(Labels(name, ps)))
  }

  function CycleKey(name: Naming, c: Cycle): string {
    Render(name, Canonical(name, Pairs(c)))
  }

  function KeysBy(key: Cycle -> string, cycles: seq<Cycle>): (keys: seq<string>)
    ensures |keys| == |cycles| && forall i :: 0 <= i < |cycles| ==> keys[i] == key(cycles[i])
  {
    if |cycles| == 0 then [] else KeysBy(key, cycles[..|cycles| - 1]) + [key(cycles[|cycles| - 1])]
  }

  function KeyFunction(name: Naming): Cycle -> string {
    c => CycleKey(name, c)
  }

  function AllKeys(name: Naming, cycles: seq<Cycle>): seq<string> {
    KeysBy(KeyFunction(name), cycles)
  }

  /** The cycles whose key does not occur earlier, in order. */
  function Dedup(cycles: seq<Cycle>, keys: seq<string>): seq<Cycle>
    requires |cycles| == |keys|
  {
    if |cycles| == 0 then [] else
    var n := |cycles| - 1;
    if keys[n] in keys[..n] then Dedup(cycles[..n], keys[..n]) else Dedup(cycles[..n], keys[..n]) + [cycles[n]]
  }

  method FindMin(name: Naming, pairs: seq<Pair>) returns (minIdx: nat)
    requires |pairs| > 0
    ensures minIdx == FirstMin(Labels(name, pairs)) < |pairs|
    ensures forall i :: 0 <= i < |pairs| ==> !Less(Label(name, pairs[i]), Label(name, pairs[minIdx]))
    ensures forall i :: 0 <= i < minIdx ==> Less(Label(name, pairs[minIdx]), Label(name, pairs[i]))
  {
    ghost var labels := Labels(name, pairs);
    minIdx := 0;
    var i := 1;
    while i < |pairs|
      invariant 1 <= i <= |pairs|
      invariant minIdx == FirstMin(labels[..i])
    {
      assert labels[..i + 1][..i] == labels[..i];
      if Less(Label(name, pairs[i]), Label(name, pairs[minIdx])) { minIdx := i; }
      i := i + 1;
    }
    assert labels[..i] == labels;
    forall j | 0 <= j < |pairs| ensures !Less(labels[j], labels[minIdx]) { FirstMinIsLeast(labels, j); }
    forall j | 0 <= j < minIdx ensures Less(labels[minIdx], labels[j]) { FirstMinIsFirst(labels, j); }
  }

  lemma {:induction false} WrapAround(a: nat, n: nat)
    requires 0 < n && a < 2 * n
    ensures a % n == if a < n then a else a - n
  {
  }

  lemma {:induction false} RenderStep(name: Naming, ps: seq<Pair>, i: nat)
    requires i < |ps|
    ensures Render(name, ps[..i + 1]) == Render(name, ps[..i]) + (Label(name, ps[i]) + ";")
  {
    assert ps[..i + 1][..i] == ps[..i];
  }

  /** The text of the pairs read from `start` around the cycle. */
  method RenderFrom(name: Naming, pairs: seq<Pair>, start: nat) returns (key: string)
    requires start < |pairs|
    ensures key == Render(name, Rotate(pairs, start))
  {
    ghost var rotated := Rotate(pairs, start);
    key := "";
    var i := 0;
    while i < |pairs|
      invariant 0 <= i <= |pairs|
      invariant key == Render(name, rotated[..i])
    {
      var at := (start + i) % |pairs|;
      WrapAround(start + i, |pairs|);
      RotateAt(pairs, start, i);
      RenderStep(name, rotated, i);
      key := key + (Label(name, pairs[at]) + ";");
      i := i + 1;
    }
    assert rotated[..i] == rotated;
  }

  method BuildKey(name: Naming, cycle: Cycle) returns (key: string)
    ensures key == CycleKey(name, cycle)
  {
    var pairs := Pairs(cycle);
    if |pairs| == 0 { return ""; }
    var minIdx := FindMin(name, pairs);
    key := RenderFrom(name, pairs, minIdx);
  }

  lemma {:induction false} KeysByStep(key: Cycle -> string, cycles: seq<Cycle>, i: nat)
    requires i < |cycles|
    ensures KeysBy(key, cycles[..i + 1]) == KeysBy(key, cycles[..i]) + [key(cycles[i])]
  {
    assert cycles[..i + 1][..i] == cycles[..i];
  }

  method BuildKeys(name: Naming, cycles: seq<Cycle>) returns (keys: seq<string>)
    ensures keys == AllKeys(name, cycles)
  {
    ghost var keyOf := KeyFunction(name);
    keys := [];
    var i := 0;
    while i < |cycles|
      invariant 0 <= i <= |cycles| && keys == KeysBy(keyOf, cycles[..i])
    {
      KeysByStep(keyOf, cycles, i);
      var key := BuildKey(name, cycles[i]);
      keys := keys + [key];
      i := i + 1;
    }
    assert cycles[..i] == cycles;
  }

  method DeduplicateCycles(name: Naming, cycles: seq<Cycle>) returns (result: seq<Cycle>)
    ensures result == Dedup(cycles, AllKeys(name, cycles))
  {
    var keys := BuildKeys(name, cycles);
    result := KeepFirst(cycles, keys);
  }

  method KeepFirst(cycles: seq<Cycle>, keys: seq<string>) returns (result: seq<Cycle>)
    requires |cycles| == |keys|
    ensures result == Dedup(cycles, keys)
  {
    var seen: set<string> := {};
    result := [];
    var i := 0;
    while i < |cycles|
      invariant 0 <= i <= |cycles|
      invariant result == Dedup(cycles[..i], keys[..i])
      invariant forall k :: k in seen <==> k in keys[..i]
    {
      assert cycles[..i + 1][..i] == cycles[..i] && keys[..i + 1][..i] == keys[..i];
      if keys[i] !in seen {
        seen := seen + {keys[i]};
        result := result + [cycles[i]];
      }
      assert keys[..i + 1] == keys[..i] + [keys[i]];
      i := i + 1;
    }
    assert cycles[..i] == cycles && keys[..i] == keys;
  }

  // ----- When keys identify cycles

  ghost predicate SeparatorFree(s: string) {
    '-' !in s && ';' !in s
  }

  /** Names of these locks differ and contain no separator. */
  ghost predicate Unambiguous(name: Naming, keys: set<Key>) {
    && (forall k :: k in keys ==> SeparatorFree(name(k)))
    && (forall k, l :: k in keys && l in keys && name(k) == name(l) ==> k == l)
  }

  ghost predicate Over(keys: set<Key>, ps: seq<Pair>) {
    forall i :: 0 <= i < |ps| ==> ps[i].from in keys && ps[i].to in keys
  }

  lemma {:induction false} LabelIsInjective(name: Naming, keys: set<Key>, p: Pair, q: Pair)
    requires Unambiguous(name, keys) && p.from in keys && p.to in keys && q.from in keys && q.to in keys
    requires Label(name, p) == Label(name, q)
    ensures p == q
  {
    assert Label(name, p) == name(p.from) + ['-'] + (">" + name(p.to));
    assert Label(name, q) == name(q.from) + ['-'] + (">" + name(q.to));
    UniqueSplit(name(p.from), ">" + name(p.to), name(q.from), ">" + name(q.to), '-');
    assert name(p.to) == (">" + name(p.to))[1..] && name(q.to) == (">" + name(q.to))[1..];
  }

  lemma {:induction false} LabelHasNoSemicolon(name: Naming, keys: set<Key>, p: Pair)
    requires Unambiguous(name, keys) && p.from in keys && p.to in keys
    ensures ';' !in Label(name, p)
  {
  }

  lemma {:induction false} RenderFromFront(name: Naming, ps: seq<Pair>)
    requires |ps| > 0
    ensures Render(name, ps) == Label(name, ps[0]) + [';'] + Render(name, ps[1..])
  {
    var init, last := ps[..|ps| - 1], ps[|ps| - 1];
    if |ps| > 1 {
      RenderFromFront(name, init);
      assert init[1..] == ps[1..][..|ps| - 2];
      assert Render(name, ps[1..]) == Render(name, init[1..]) + (Label(name, last) + ";");
    }
  }

  /** Reading a key back gives the pairs it was built from. */
  lemma {:induction false} RenderIsInjective(name: Naming, keys: set<Key>, ps: seq<Pair>, qs: seq<Pair>)
    requires Unambiguous(name, keys) && Over(keys, ps) && Over(keys, qs)
    requires Render(name, ps) == Render(name, qs)
    ensures ps == qs
  {
    if |ps| > 0 { RenderFromFront(name, ps); }
    if |qs| > 0 { RenderFromFront(name, qs); }
    if |ps| > 0 && |qs| > 0 {
      LabelHasNoSemicolon(name, keys, ps[0]);
      LabelHasNoSemicolon(name, keys, qs[0]);
      UniqueSplit(Label(name, ps[0]), Render(name, ps[1..]), Label(name, qs[0]), Render(name, qs[1..]), ';');
      LabelIsInjective(name, keys, ps[0], qs[0]);
      RenderIsInjective(name, keys, ps[1..], qs[1..]);
      assert ps == [ps[0]] + ps[1..] && qs == [qs[0]] + qs[1..];
    }
  }

  /** The least pair is the same from wherever the cycle is read. */
  lemma {:induction false} CanonicalStart(name: Naming, keys: set<Key>, ps: seq<Pair>, i: nat, qs: seq<Pair>, j: nat)
    requires Unambiguous(name, keys) && Over(keys, ps) && Over(keys, qs) && |ps| > 0 && |qs| > 0
    requires i == FirstMin(Labels(name, ps)) && j == FirstMin(Labels(name, qs))
    requires forall p :: p in ps <==> p in qs
    ensures ps[i] == qs[j]
  {
    assert ps[i] in qs && qs[j] in ps;
    var a :| 0 <= a < |qs| && qs[a] == ps[i];
    var b :| 0 <= b < |ps| && ps[b] == qs[j];
    FirstMinIsLeast(Labels(name, qs), a);
    FirstMinIsLeast(Labels(name, ps), b);
    LessIsTotal(Label(name, ps[i]), Label(name, qs[j]));
    LabelIsInjective(name, keys, ps[i], qs[j]);
  }

  /** For simple cycles over unambiguous names, equal keys mean equal cycles up to rotation. */
  lemma {:induction false} KeyIdentifiesRotationClass(name: Naming, keys: set<Key>, c: Cycle, d: Cycle)
    requires Unambiguous(name, keys) && Over(keys, Pairs(c)) && Over(keys, Pairs(d)) && Distinct(Pairs(c))
    ensures CycleKey(name, c) == CycleKey(name, d) <==> IsRotation(Pairs(c), Pairs(d))
  {
    var ps, qs := Pairs(c), Pairs(d);
    if CycleKey(name, c) == CycleKey(name, d) {
      RenderIsInjective(name, keys, Canonical(name, ps), Canonical(name, qs));
      if |ps| > 0 {
        CommonRotation(ps, FirstMin(Labels(name, ps)), qs, FirstMin(Labels(name, qs)));
      } else {
        assert qs == Rotate(ps, 0);
      }
    }
    if IsRotation(ps, qs) && |ps| > 0 { RotationHasSameCanonical(name, keys, ps, qs); }
  }

  lemma {:induction false} RotationHasSameCanonical(name: Naming, keys: set<Key>, ps: seq<Pair>, qs: seq<Pair>)
    requires Unambiguous(name, keys) && Over(keys, ps) && Over(keys, qs) && Distinct(ps) && |ps| > 0
    requires IsRotation(ps, qs)
    ensures Canonical(name, ps) == Canonical(name, qs)
  {
    var r: nat :| r <= |ps| && qs == Rotate(ps, r);
    forall p ensures p in qs <==> p in ps { RotationKeepsElements(ps, r, p); }
    var i, j := FirstMin(Labels(name, ps)), FirstMin(Labels(name, qs));
    CanonicalStart(name, keys, ps, i, qs, j);
    SameStartAfterRotation(ps, r, i, j);
  }

  // ----- What is kept

  ghost predicate IsNew(keys: seq<string>, i: nat)
    requires i < |keys|
  {
    keys[i] !in keys[..i]
  }

  /** The positions whose key is new there, in order. */
  ghost function Kept(keys: seq<string>): (idx: seq<nat>)
    ensures forall n :: 0 <= n < |idx| ==> idx[n] < |keys|
    ensures forall m, n :: 0 <= m < n < |idx| ==> idx[m] < idx[n]
  {
    if |keys| == 0 then [] else
    var n := |keys| - 1;
    if IsNew(keys, n) then Kept(keys[..n]) + [n] else Kept(keys[..n])
  }

  lemma {:induction false} KeptIffNew(keys: seq<string>, i: nat)
    requires i < |keys|
    ensures i in Kept(keys) <==> IsNew(keys, i)
  {
    var n := |keys| - 1;
    if i < n {
      KeptIffNew(keys[..n], i);
      assert keys[..n][..i] == keys[..i];
    }
  }

  lemma {:induction false} DedupReadsKept(cycles: seq<Cycle>, keys: seq<string>)
    requires |cycles| == |keys|
    ensures var result := Dedup(cycles, keys);
      |result| == |Kept(keys)| && forall n :: 0 <= n < |result| ==> result[n] == cycles[Kept(keys)[n]]
  {
    if |cycles| > 0 { DedupReadsKept(cycles[..|cycles| - 1], keys[..|keys| - 1]); }
  }

  /** Some earlier or equal position is kept for every key. */
  lemma {:induction false} FirstOccurrence(keys: seq<string>, i: nat) returns (j: nat)
    requires i < |keys|
    ensures j <= i && keys[j] == keys[i] && keys[j] !in keys[..j]
  {
    j := i;
    if keys[i] in keys[..i] {
      var k :| 0 <= k < i && keys[..i][k] == keys[i];
      j := FirstOccurrence(keys, k);
    }
  }

  ghost predicate Simple(keys: set<Key>, c: Cycle) {
    Over(keys, Pairs(c)) && Distinct(Pairs(c))
  }

  lemma {:induction false} EveryCycleIsRepresented(name: Naming, nodes: set<Key>, cycles: seq<Cycle>, i: nat)
    returns (n: nat)
    requires Unambiguous(name, nodes) && (forall j :: 0 <= j < |cycles| ==> Simple(nodes, cycles[j])) && i < |cycles|
    ensures var result := Dedup(cycles, AllKeys(name, cycles));
      n < |result| && IsRotation(Pairs(result[n]), Pairs(cycles[i]))
  {
    var keys := AllKeys(name, cycles);
    var j := FirstOccurrence(keys, i);
    KeptIffNew(keys, j);
    n :| 0 <= n < |Kept(keys)| && Kept(keys)[n] == j;
    DedupReadsKept(cycles, keys);
    KeyIdentifiesRotationClass(name, nodes, cycles[j], cycles[i]);
  }

  lemma {:induction false} RepresentativesDiffer(name: Naming, nodes: set<Key>, cycles: seq<Cycle>, m: nat, n: nat)
    requires Unambiguous(name, nodes) && forall j :: 0 <= j < |cycles| ==> Simple(nodes, cycles[j])
    requires m < n < |Dedup(cycles, AllKeys(name, cycles))|
    ensures var result := Dedup(cycles, AllKeys(name, cycles)); !IsRotation(Pairs(result[m]), Pairs(result[n]))
  {
    var keys := AllKeys(name, cycles);
    DedupReadsKept(cycles, keys);
    var i, j := Kept(keys)[m], Kept(keys)[n];
    KeptIffNew(keys, j);
    assert keys[..j][i] == keys[i];
    KeyIdentifiesRotationClass(name, nodes, cycles[i], cycles[j]);
  }

  /** Over unambiguous names, deduplication keeps exactly one representative of each rotation class of
      simple cycles, the first one seen, and keeps them in order. */
  lemma {:induction false} OneRepresentativePerRotationClass(name: Naming, nodes: set<Key>, cycles: seq<Cycle>)
    requires Unambiguous(name, nodes) && forall i :: 0 <= i < |cycles| ==> Simple(nodes, cycles[i])
    ensures var result := Dedup(cycles, AllKeys(name, cycles)); var idx := Kept(AllKeys(name, cycles));
      && (forall i :: 0 <= i < |cycles| ==>
            exists n :: 0 <= n < |result| && IsRotation(Pairs(result[n]), Pairs(cycles[i])))
      && (forall m, n :: 0 <= m < n < |result| ==> !IsRotation(Pairs(result[m]), Pairs(result[n])))
      && |idx| == |result| && (forall n :: 0 <= n < |result| ==> result[n] == cycles[idx[n]])
      && (result == [] <==> cycles == [])
  {
    var result := Dedup(cycles, AllKeys(name, cycles));
    DedupReadsKept(cycles, AllKeys(name, cycles));
    forall i | 0 <= i < |cycles|
      ensures exists n :: 0 <= n < |result| && IsRotation(Pairs(result[n]), Pairs(cycles[i]))
    {
      var n := EveryCycleIsRepresented(name, nodes, cycles, i);
    }
    forall m, n | 0 <= m < n < |result| ensures !IsRotation(Pairs(result[m]), Pairs(result[n])) {
      RepresentativesDiffer(name, nodes, cycles, m, n);
    }
  }

  lemma {:induction false} KeepsOnlyTheFirst(c: Cycle, d: Cycle, key: string)
    ensures Dedup([c, d], [key, key]) == [c]
  {
    assert [c, d][..1] == [c] && [key, key][..1] == [key];
    assert [c][..0] == [] && [key][..0] == [];
    assert Dedup([c], [key]) == [c];
    assert key in [key, key][..1];
  }

  // ----- When names differ

  ghost predicate NamesDiffer(name: Naming, nodes: set<Key>) {
    forall k, l :: k in nodes && l in nodes && name(k) == name(l) ==> k == l
  }

  ghost function EdgesOf(c: Cycle): Edges {
    set e | e in c
  }

  /** A cycle over these locks, in some graph. */
  ghost predicate CycleOver(nodes: set<Key>, c: Cycle) {
    IsCycle(EdgesOf(c), c) && Over(nodes, Pairs(c))
  }

  /** Two cycles get one key exactly when they are rotations of each other. */
  ghost predicate KeysIdentify(name: Naming, nodes: set<Key>) {
    forall c, d :: CycleOver(nodes, c) && CycleOver(nodes, d) ==>
      (CycleKey(name, c) == CycleKey(name, d) <==> IsRotation(Pairs(c), Pairs(d)))
  }

  function SelfCycle(k: Key): Cycle {
    [LockOrderEdge(k, k, 0, 0)]
  }

  lemma {:induction false} SelfCycleKey(name: Naming, k: Key)
    ensures Pairs(SelfCycle(k)) == [Pair(k, k)]
    ensures CycleKey(name, SelfCycle(k)) == "" + (Label(name, Pair(k, k)) + ";")
  {
    var ps := Pairs(SelfCycle(k));
    assert Canonical(name, ps) == ps == [Pair(k, k)] && ps[..0] == [];
    assert Render(name, ps) == Render(name, ps[..0]) + (Label(name, ps[0]) + ";");
  }

  /** For names without separators, keys identify all cycles if and only if different locks have different
      names. */
  lemma {:induction false} KeysIdentifyIffNamesDiffer(name: Naming, nodes: set<Key>)
    requires forall k :: k in nodes ==> SeparatorFree(name(k))
    ensures KeysIdentify(name, nodes) <==> NamesDiffer(name, nodes)
  {
    if NamesDiffer(name, nodes) {
      forall c, d | CycleOver(nodes, c) && CycleOver(nodes, d)
        ensures CycleKey(name, c) == CycleKey(name, d) <==> IsRotation(Pairs(c), Pairs(d))
      {
        assert Distinct(Pairs(c));
        KeyIdentifiesRotationClass(name, nodes, c, d);
      }
    }
    if KeysIdentify(name, nodes) {
      forall k, l | k in nodes && l in nodes && name(k) == name(l) ensures k == l {
        SelfCycleKey(name, k);
        SelfCycleKey(name, l);
        assert CycleOver(nodes, SelfCycle(k)) && CycleOver(nodes, SelfCycle(l));
        RotationHasSameElements(Pairs(SelfCycle(k)), Pairs(SelfCycle(l)));
        assert Pair(k, k) in Pairs(SelfCycle(l));
      }
    }
  }

  /** The names must differ: two self-cycles on different types with one printed name are taken for one. */
  lemma {:induction false} EqualNamesMergeDifferentCycles()
    ensures var a := LockOrderEdge(Key(0, 0), Key(0, 0), 1, 0); var b := LockOrderEdge(Key(1, 0), Key(1, 0), 2, 0);
      var name: Naming := _ => "S.mu";
      Dedup([[a], [b]], AllKeys(name, [[a], [b]])) == [[a]] && !IsRotation(Pairs([a]), Pairs([b]))
  {
    var a, b := LockOrderEdge(Key(0, 0), Key(0, 0), 1, 0), LockOrderEdge(Key(1, 0), Key(1, 0), 2, 0);
    var name: Naming := _ => "S.mu";
    var keys := AllKeys(name, [[a], [b]]);
    assert Canonical(name, Pairs([a])) == Pairs([a]) && Canonical(name, Pairs([b])) == Pairs([b]);
    assert Pairs([a])[..0] == [] == Pairs([b])[..0];
    assert keys == [keys[0], keys[0]];
    KeepsOnlyTheFirst([a], [b], keys[0]);
  }
}
