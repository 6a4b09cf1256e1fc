/** Rotations of sequences. */
module Rotations {

  function Rotate<T>(s: seq<T>, r: nat): seq<T>
    requires r <= |s|
  {
    s[r..] + s[..r]
  }

  lemma {:induction false} RotateAt<T>(s: seq<T>, r: nat, i: nat)
    requires r <= |s| && i < |s|
    ensures Rotate(s, r)[i] == s[if i + r < |s| then i + r else i + r - |s|]
  {
  }

  ghost predicate IsRotation<T>(s: seq<T>, t: seq<T>) {
    exists r: nat :: r <= |s| && t == Rotate(s, r)
  }

  ghost predicate Distinct<T>(s: seq<T>) {
    forall i, j :: 0 <= i < j < |s| ==> s[i] != s[j]
  }

  lemma {:induction false} RotateBack<T>(s: seq<T>, r: nat)
    requires r <= |s|
    ensures Rotate(Rotate(s, r), |s| - r) == s
  {
  }

  lemma {:induction false} RotateTwice<T>(s: seq<T>, a: nat, b: nat)
    requires a <= |s| && b <= |s|
    ensures Rotate(Rotate(s, a), b) == Rotate(s, if a + b <= |s| then a + b else a + b - |s|)
  {
    var c := if a + b <= |s| then a + b else a + b - |s|;
    forall i | 0 <= i < |s| ensures Rotate(Rotate(s, a), b)[i] == Rotate(s, c)[i] {
      RotateAt(Rotate(s, a), b, i);
      RotateAt(s, a, if i + b < |s| then i + b else i + b - |s|);
      RotateAt(s, c, i);
    }
  }

  lemma {:induction false} RotationIsSymmetric<T>(s: seq<T>, t: seq<T>)
    requires IsRotation(s, t)
    ensures IsRotation(t, s)
  {
    var r: nat :| r <= |s| && t == Rotate(s, r);
    RotateBack(s, r);
  }

  lemma {:induction false} RotationIsTransitive<T>(s: seq<T>, t: seq<T>, u: seq<T>)
    requires IsRotation(s, t) && IsRotation(t, u)
    ensures IsRotation(s, u)
  {
    var a: nat :| a <= |s| && t == Rotate(s, a);
    var b: nat :| b <= |t| && u == Rotate(t, b);
    RotateTwice(s, a, b);
  }

  lemma {:induction false} RotationKeepsElements<T>(s: seq<T>, r: nat, x: T)
    requires r <= |s|
    ensures x in Rotate(s, r) <==> x in s
  {
    assert s == s[..r] + s[r..];
  }

  lemma {:induction false} RotationHasSameElements<T>(s: seq<T>, t: seq<T>)
    requires IsRotation(s, t)
    ensures forall x :: x in s <==> x in t
  {
    var r: nat :| r <= |s| && t == Rotate(s, r);
    forall x ensures x in s <==> x in t { RotationKeepsElements(s, r, x); }
  }

  /** Sequences with a common rotation are rotations of each other. */
  lemma {:induction false} CommonRotation<T>(s: seq<T>, a: nat, t: seq<T>, b: nat)
    requires a <= |s| && b <= |t| && Rotate(s, a) == Rotate(t, b)
    ensures IsRotation(s, t)
  {
    RotateBack(t, b);
    RotateTwice(s, a, |t| - b);
  }

  /** Two rotations of one sequence of distinct elements are equal if they start alike. */
  lemma {:induction false} SameStart<T>(s: seq<T>, a: nat, b: nat)
    requires Distinct(s) && a < |s| && b < |s| && s[a] == s[b]
    ensures Rotate(s, a) == Rotate(s, b)
  {
  }

  /** Rotations of one cycle of distinct elements that start at the same element are equal. */
  lemma {:induction false} SameStartAfterRotation<T>(s: seq<T>, r: nat, i: nat, j: nat)
    requires Distinct(s) && r <= |s| && i < |s| && j < |s| && Rotate(s, r)[j] == s[i]
    ensures Rotate(Rotate(s, r), j) == Rotate(s, i)
  {
    RotateTwice(s, r, j);
    RotateAt(s, r, j);
    var k := if j + r < |s| then j + r else j + r - |s|;
    SameStart(s, i, k);
    if r + j == |s| { assert Rotate(s, r + j) == Rotate(s, 0); }
  }
}
