/** From the base value of a lock to its cross-function key (reporter.go:700-731, interprocedural.go:84-91). */
module LockKeys {
  import opened Types

  /** A type with `depth` pointer layers around `t`. */
  function Layers(depth: nat, t: GoType): GoType {
    if depth == 0 then t else PointerTo(Layers(depth - 1, t))
  }

  /** `t` is one to `most` pointers away from the named struct `s`. */
  ghost predicate PointsTo(t: GoType, most: nat, s: StructType) {
    exists d: nat :: 1 <= d <= most && t == Layers(d, NamedType(s))
  }

  lemma {:induction false} StructBelowIff(t: GoType, budget: nat, s: StructType)
    ensures StructBelow(t, budget) == Some(s) <==> PointsTo(t, budget, s)
  {
    if budget > 0 && t.PointerTo? {
      StructBelowIff(t.elem, budget - 1, s);
      if t.elem == NamedType(s) { assert t == Layers(1, NamedType(s)); }
      if PointsTo(t.elem, budget - 1, s) {
        var d: nat :| 1 <= d <= budget - 1 && t.elem == Layers(d, NamedType(s));
        assert t == Layers(d + 1, NamedType(s));
      }
      if PointsTo(t, budget, s) {
        var d: nat :| 1 <= d <= budget && t == Layers(d, NamedType(s));
        assert t.elem == Layers(d - 1, NamedType(s));
        assert d > 1 ==> t.elem.PointerTo? && PointsTo(t.elem, budget - 1, s);
      }
    }
  }

  /** `resolveStructFromBase`: peels pointer layers until a named struct is found, four times at most. */
  method ResolveStructFromBase(t: GoType) returns (r: Option<StructType>)
    ensures r == StructBelow(t, 4)
    ensures forall s: StructType :: r == Some(s) <==> PointsTo(t, 4, s)
  {
    forall s: StructType ensures StructBelow(t, 4) == Some(s) <==> PointsTo(t, 4, s) {
      StructBelowIff(t, 4, s);
    }
    var current, depth := t, 0;
    while depth < 4
      invariant 0 <= depth <= 4 && StructBelow(current, 4 - depth) == StructBelow(t, 4)
    {
      if !current.PointerTo? { return None; }
      if current.elem.NamedType? { return Some(current.elem.structType); }
      current, depth := current.elem, depth + 1;
    }
    return None;
  }

  /** A lock has a key exactly if its base is one to four pointers away from a named struct, and the key recorded
      at calls exactly if it is one pointer away. */
  lemma {:induction false} KeyIff(typing: Typing, ref: LockRef, k: Key)
    ensures KeyOf(typing, ref) == Some(k) <==>
      ref.base in typing && k.fieldIndex == ref.fieldIndex && PointsTo(typing[ref.base], 4, k.structType)
    ensures NormalizedKeyOf(typing, ref) == Some(k) <==>
      ref.base in typing && k.fieldIndex == ref.fieldIndex && typing[ref.base] == PointerTo(NamedType(k.structType))
  {
    if ref.base in typing {
      StructBelowIff(typing[ref.base], 4, k.structType);
      StructBelowIff(typing[ref.base], 1, k.structType);
      assert Layers(1, NamedType(k.structType)) == PointerTo(Layers(0, NamedType(k.structType)));
    }
  }
}
