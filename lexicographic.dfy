/**
 * Go's `<` on strings compares the UTF-8 encodings byte by byte. UTF-8
 * preserves the order of code points, so on Dafny strings (sequences of
 * Unicode scalar values) the same order is the lexicographic order on
 * characters defined here. Dafny's own `<` on sequences means "proper
 * prefix" and is not used.
 */
module Lexicographic {

  /** Strict lexicographic order: `a` sorts before `b`. */
  predicate Less(a: string, b: string)
    decreases |a|
  {
    if |a| == 0 then |b| > 0
    else if |b| == 0 then false
    else if a[0] != b[0] then a[0] < b[0]
    else Less(a[1..], b[1..])
  }

  /** Non-strict order: `b` does not sort before `a`. */
  predicate LessEq(a: string, b: string)
  {
    !Less(b, a)
  }

  lemma {:induction false} LessIrreflexive(a: string)
    ensures !Less(a, a)
    decreases |a|
  {
    if |a| > 0 {
      LessIrreflexive(a[1..]);
    }
  }

  lemma {:induction false} LessTransitive(a: string, b: string, c: string)
    requires Less(a, b) && Less(b, c)
    ensures Less(a, c)
    decreases |a|
  {
    if |a| > 0 && a[0] == b[0] && b[0] == c[0] {
      LessTransitive(a[1..], b[1..], c[1..]);
    }
  }

  lemma {:induction false} LessTotal(a: string, b: string)
    ensures a == b || Less(a, b) || Less(b, a)
    decreases |a|
  {
    if |a| > 0 && |b| > 0 && a[0] == b[0] {
      LessTotal(a[1..], b[1..]);
      if a[1..] == b[1..] {
        assert a == [a[0]] + a[1..] && b == [b[0]] + b[1..];
      }
    }
  }

  lemma {:induction false} LessAsymmetric(a: string, b: string)
    requires Less(a, b)
    ensures !Less(b, a)
    decreases |a|
  {
    if |a| > 0 && a[0] == b[0] {
      LessAsymmetric(a[1..], b[1..]);
    }
  }

  lemma LessEqTransitive(a: string, b: string, c: string)
    requires LessEq(a, b) && LessEq(b, c)
    ensures LessEq(a, c)
  {
    if Less(c, a) {
      LessTotal(a, b);
      if a == b {
      } else if Less(a, b) {
        LessTransitive(c, a, b);
      }
    }
  }

  /** A non-strict order step between two distinct strings is a strict one. */
  lemma LessEqDistinct(a: string, b: string)
    requires LessEq(a, b) && a != b
    ensures Less(a, b)
  {
    LessTotal(a, b);
  }

  /** Every element is strictly below every later one. */
  ghost predicate StrictlySorted(xs: seq<string>)
  {
    forall i, j :: 0 <= i < j < |xs| ==> Less(xs[i], xs[j])
  }

  /** The set of elements of a sequence. */
  ghost function Elems(xs: seq<string>): set<string>
  {
    set x | x in xs
  }

  /** `m` is a member of `s` that sorts before every other member. */
  ghost predicate IsLeast(m: string, s: set<string>)
  {
    m in s && forall x :: x in s && x != m ==> Less(m, x)
  }

  /** Every non-empty finite set of strings has a least element. */
  lemma {:induction false} LeastExists(s: set<string>)
    requires s != {}
    ensures exists m :: IsLeast(m, s)
    decreases |s|
  {
    var y :| y in s;
    if s == {y} {
      assert IsLeast(y, s);
    } else {
      var t := s - {y};
      LeastExists(t);
      var m :| IsLeast(m, t);
      LessTotal(y, m);
      if Less(y, m) {
        forall x | x in s && x != y
          ensures Less(y, x)
        {
          if x != m {
            LessTransitive(y, m, x);
          }
        }
        assert IsLeast(y, s);
      } else {
        assert IsLeast(m, s);
      }
    }
  }

  lemma ConsSorted(m: string, rest: seq<string>)
    requires StrictlySorted(rest)
    requires forall x :: x in rest ==> Less(m, x)
    ensures StrictlySorted([m] + rest)
  {
    var r := [m] + rest;
    forall i, j | 0 <= i < j < |r|
      ensures Less(r[i], r[j])
    {
      if i > 0 {
        assert r[i] == rest[i - 1] && r[j] == rest[j - 1];
      } else {
        assert r[j] == rest[j - 1];
      }
    }
  }

  /**
   * The members of a finite set in ascending order: the reference for what
   * sorting distinct keys produces.
   */
  ghost function SortedKeys(s: set<string>): (r: seq<string>)
    ensures StrictlySorted(r)
    ensures Elems(r) == s
    ensures |r| == |s|
    decreases |s|
  {
    if s == {} then []
    else
      LeastExists(s);
      var m :| IsLeast(m, s);
      var rest := SortedKeys(s - {m});
      assert Elems([m] + rest) == {m} + Elems(rest);
      assert forall x :: x in rest ==> x in Elems(rest);
      ConsSorted(m, rest);
      [m] + rest
  }

  /**
   * A strictly sorted sequence is determined by its set of elements: sorting
   * distinct keys has exactly one outcome.
   */
  lemma {:induction false} SortedUnique(xs: seq<string>, ys: seq<string>)
    requires StrictlySorted(xs) && StrictlySorted(ys)
    requires Elems(xs) == Elems(ys)
    ensures xs == ys
    decreases |xs|
  {
    assert |ys| > 0 ==> ys[0] in Elems(ys);
    if xs == [] {
    } else {
      assert xs[0] in Elems(xs);
      assert ys != [];
      assert ys[0] in Elems(ys);
      if xs[0] != ys[0] {
        var j :| 0 <= j < |ys| && ys[j] == xs[0];
        var k :| 0 <= k < |xs| && xs[k] == ys[0];
        assert Less(ys[0], xs[0]);
        assert Less(xs[0], ys[0]);
        LessAsymmetric(xs[0], ys[0]);
      }
      forall i | 1 <= i < |xs| ensures xs[i] != xs[0] {
        LessIrreflexive(xs[0]);
      }
      forall i | 1 <= i < |ys| ensures ys[i] != ys[0] {
        LessIrreflexive(ys[0]);
      }
      assert Elems(xs[1..]) == Elems(xs) - {xs[0]} by {
        assert xs == [xs[0]] + xs[1..];
      }
      assert Elems(ys[1..]) == Elems(ys) - {ys[0]} by {
        assert ys == [ys[0]] + ys[1..];
      }
      SortedUnique(xs[1..], ys[1..]);
      assert xs == [xs[0]] + xs[1..] && ys == [ys[0]] + ys[1..];
    }
  }
}
