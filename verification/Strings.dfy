/** Byte-wise string order and unambiguous concatenation. */
module Strings {

  predicate Less(a: string, b: string) {
    |b| > 0 && (|a| == 0 || a[0] < b[0] || (a[0] == b[0] && Less(a[1..], b[1..])))
  }

  lemma {:induction false} LessIsTransitive(a: string, b: string, c: string)
    requires Less(a, b) && Less(b, c)
    ensures Less(a, c)
  {
    if |a| > 0 && a[0] == b[0] && b[0] == c[0] { LessIsTransitive(a[1..], b[1..], c[1..]); }
  }

  lemma {:induction false} LessIsIrreflexive(a: string)
    ensures !Less(a, a)
  {
    if |a| > 0 { LessIsIrreflexive(a[1..]); }
  }

  lemma {:induction false} LessIsTotal(a: string, b: string)
    ensures a == b || Less(a, b) || Less(b, a)
  {
    if |a| > 0 && |b| > 0 {
      LessIsTotal(a[1..], b[1..]);
      assert a[0] == b[0] && a[1..] == b[1..] ==> a == [a[0]] + a[1..] && b == [b[0]] + b[1..];
    }
  }

  /** The order is lexicographic: at the first difference the smaller character decides, and a prefix is smaller. */
  lemma {:induction false} LessIsLexicographic(a: string, b: string)
    ensures Less(a, b) <==> exists n: nat :: FirstDifference(a, b, n)
  {
    if |a| == 0 {
      assert |b| > 0 ==> FirstDifference(a, b, 0);
    } else if |b| > 0 {
      if a[0] == b[0] {
        LessIsLexicographic(a[1..], b[1..]);
        LaterDifference(a, b);
      } else {
        assert a[0] < b[0] ==> FirstDifference(a, b, 0);
      }
    }
  }

  /** `a` and `b` agree before `n`, and there `a` ends first or has the smaller character. */
  ghost predicate FirstDifference(a: string, b: string, n: nat) {
    n <= |a| && n < |b| && a[..n] == b[..n] && (n == |a| || a[n] < b[n])
  }

  lemma {:induction false} LaterDifference(a: string, b: string)
    requires |a| > 0 && |b| > 0 && a[0] == b[0]
    ensures (exists n: nat :: FirstDifference(a, b, n)) <==> exists n: nat :: FirstDifference(a[1..], b[1..], n)
  {
    if exists n: nat :: FirstDifference(a, b, n) {
      var n: nat :| FirstDifference(a, b, n);
      assert n > 0 && a[1..][..n - 1] == a[..n][1..] && b[1..][..n - 1] == b[..n][1..];
      assert FirstDifference(a[1..], b[1..], n - 1);
    }
    if exists n: nat :: FirstDifference(a[1..], b[1..], n) {
      var n: nat :| FirstDifference(a[1..], b[1..], n);
      assert a[..n + 1] == [a[0]] + a[1..][..n] && b[..n + 1] == [b[0]] + b[1..][..n];
      assert FirstDifference(a, b, n + 1);
    }
  }

  /** A separator that does not occur in the parts before it splits a string in one way only. */
  lemma {:induction false} UniqueSplit(a: string, b: string, c: string, d: string, x: char)
    requires x !in a && x !in c && a + [x] + b == c + [x] + d
    ensures a == c && b == d
  {
    var s := a + [x] + b;
    assert s[|a|] == x && s[|c|] == x;
    assert |a| == |c|;
    assert a == s[..|a|] && c == s[..|c|];
    assert b == s[|a| + 1..] && d == s[|c| + 1..];
  }

  /** Index of the first least element, as a left-to-right scan finds it. */
  function FirstMin(s: seq<string>): (m: nat)
    requires |s| > 0
    ensures m < |s|
  {
    if |s| == 1 then 0 else
    var m := FirstMin(s[..|s| - 1]);
    if Less(s[|s| - 1], s[m]) then |s| - 1 else m
  }

  lemma {:induction false} FirstMinIsLeast(s: seq<string>, i: nat)
    requires i < |s|
    ensures !Less(s[i], s[FirstMin(s)])
  {
    LessIsIrreflexive(s[i]);
    if |s| > 1 {
      var init, last := s[..|s| - 1], s[|s| - 1];
      var m := FirstMin(init);
      if i < |init| {
        FirstMinIsLeast(init, i);
        if Less(last, s[m]) && Less(s[i], last) { LessIsTransitive(s[i], last, s[m]); }
      }
    }
  }

  lemma {:induction false} NotLessIsTransitive(a: string, b: string, c: string)
    requires !Less(b, a) && !Less(c, b)
    ensures !Less(c, a)
  {
    if Less(c, a) {
      LessIsTotal(a, b);
      LessIsTotal(b, c);
      if a != b { LessIsTransitive(c, a, b); }
    }
  }

  /** Everything before the first least element is greater. */
  lemma {:induction false} FirstMinIsFirst(s: seq<string>, i: nat)
    requires |s| > 0 && i < FirstMin(s)
    ensures Less(s[FirstMin(s)], s[i])
  {
    if |s| > 1 {
      var init, last := s[..|s| - 1], s[|s| - 1];
      var m := FirstMin(init);
      if FirstMin(s) == m {
        FirstMinIsFirst(init, i);
      } else {
        FirstMinIsLeast(init, i);
        LessIsTotal(s[i], s[m]);
        if s[i] != s[m] { LessIsTransitive(last, s[m], s[i]); }
      }
    }
  }
}
