/** Python's ordering of `str` values and the two `sorted` results the
    feature encoder relies on: a sorted list with duplicates kept (the
    class list) and a sorted list of distinct values (the vocabulary). */
module Lex {

  /** `a < b` on Python strings: code point by code point, a proper prefix first. */
  predicate Less(a: string, b: string)
    decreases |a|
  {
    if |a| == 0 then |b| > 0
    else if |b| == 0 then false
    else a[0] < b[0] || (a[0] == b[0] && Less(a[1..], b[1..]))
  }

  predicate LessEq(a: string, b: string) {
    a == b || Less(a, b)
  }

  lemma {:induction false} LessIrreflexive(a: string)
    ensures !Less(a, a)
    decreases |a|
  {
    if |a| > 0 {
      LessIrreflexive(a[1..]);
    }
  }

  lemma {:induction false} LessTransitive(a: string, b: string, c: string)
    requires Less(a, b) && Less(b, c)
    ensures Less(a, c)
    decreases |a|
  {
    if |a| > 0 && a[0] == b[0] && b[0] == c[0] {
      LessTransitive(a[1..], b[1..], c[1..]);
    }
  }

  /** Any two strings are equal or ordered one way or the other. */
  lemma {:induction false} LessTotal(a: string, b: string)
    ensures a == b || Less(a, b) || Less(b, a)
    decreases |a|
  {
    if |a| > 0 && |b| > 0 && a[0] == b[0] {
      LessTotal(a[1..], b[1..]);
      if a[1..] == b[1..] {
        assert a == [a[0]] + a[1..] && b == [b[0]] + b[1..];
      }
    }
  }

  lemma {:induction false} LessAsymmetric(a: string, b: string)
    requires Less(a, b)
    ensures !Less(b, a)
  {
    if Less(b, a) {
      LessTransitive(a, b, a);
      LessIrreflexive(a);
    }
  }

  lemma LessEqTransitive(a: string, b: string, c: string)
    requires LessEq(a, b) && LessEq(b, c)
    ensures LessEq(a, c)
  {
    if a != b && b != c {
      LessTransitive(a, b, c);
    }
  }

  lemma LessEqAntisymmetric(a: string, b: string)
    requires LessEq(a, b) && LessEq(b, a)
    ensures a == b
  {
    if a != b {
      LessAsymmetric(a, b);
    }
  }

  // ---------------------------------------------------------------------
  // Sorted with duplicates kept

  predicate Sorted(s: seq<string>) {
    forall i, j :: 0 <= i < j < |s| ==> LessEq(s[i], s[j])
  }

  /** Inserts `x` before the first element it does not exceed. */
  function Insert(s: seq<string>, x: string): (r: seq<string>)
    requires Sorted(s)
    ensures Sorted(r)
    ensures multiset(r) == multiset(s) + multiset{x}
    ensures |r| == |s| + 1
  {
    if |s| == 0 then [x]
    else if LessEq(x, s[0]) then
      assert forall j :: 0 <= j < |s| ==> LessEq(x, s[j]) by {
        forall j | 0 <= j < |s| {
          LessEqTransitive(x, s[0], s[j]);
        }
      }
      [x] + s
    else
      var t := Insert(s[1..], x);
      LessTotal(x, s[0]);
      assert forall j :: 0 <= j < |s[1..]| ==> LessEq(s[0], s[1..][j]);
      LowerBoundOfInsert(s[0], s[1..], x, t);
      assert s == [s[0]] + s[1..];
      [s[0]] + t
  }

  /** A bound below every element of `u` and below `x` is below every
      element of a list holding `u` and `x`. */
  lemma LowerBoundOfInsert(b: string, u: seq<string>, x: string, t: seq<string>)
    requires multiset(t) == multiset(u) + multiset{x}
    requires LessEq(b, x) && forall j :: 0 <= j < |u| ==> LessEq(b, u[j])
    ensures forall k :: 0 <= k < |t| ==> LessEq(b, t[k])
  {
    forall k | 0 <= k < |t|
      ensures LessEq(b, t[k])
    {
      assert t[k] in multiset(t);
      if t[k] != x {
        assert t[k] in multiset(u);
        var m :| 0 <= m < |u| && u[m] == t[k];
      }
    }
  }

  /** `sorted(xs)` for a list of strings. */
  function SortStrings(xs: seq<string>): (r: seq<string>)
    ensures Sorted(r)
    ensures multiset(r) == multiset(xs)
  {
    if |xs| == 0 then []
    else
      assert xs == [xs[0]] + xs[1..];
      Insert(SortStrings(xs[1..]), xs[0])
  }

  /** The head of a sorted list is at most each of its elements. */
  lemma HeadIsLeast(s: seq<string>, x: string)
    requires Sorted(s) && x in multiset(s)
    ensures LessEq(s[0], x)
  {
    var i :| 0 <= i < |s| && s[i] == x;
    if i > 0 {
      assert LessEq(s[0], s[i]);
    }
  }

  lemma TailMultiset(s: seq<string>)
    requires |s| > 0
    ensures multiset(s[1..]) == multiset(s) - multiset{s[0]}
  {
    assert s == [s[0]] + s[1..];
  }

  /** Two sorted permutations of the same strings are the same list, so
      `sorted` is determined by its input's multiset. */
  lemma {:induction false} SortedUnique(s: seq<string>, t: seq<string>)
    requires Sorted(s) && Sorted(t)
    requires multiset(s) == multiset(t)
    ensures s == t
    decreases |s|
  {
    assert |t| == |multiset(t)| == |multiset(s)| == |s|;
    if |s| > 0 {
      assert s[0] in multiset(s) && t[0] in multiset(t);
      HeadIsLeast(t, s[0]);
      HeadIsLeast(s, t[0]);
      LessEqAntisymmetric(s[0], t[0]);
      TailMultiset(s);
      TailMultiset(t);
      SortedUnique(s[1..], t[1..]);
      assert s == [s[0]] + s[1..] && t == [t[0]] + t[1..];
    }
  }

  // ---------------------------------------------------------------------
  // Sorted without duplicates

  predicate StrictlySorted(s: seq<string>) {
    forall i, j :: 0 <= i < j < |s| ==> Less(s[i], s[j])
  }

  /** Adds `x` to a strictly sorted list unless it is already there. */
  function InsertNew(s: seq<string>, x: string): (r: seq<string>)
    requires StrictlySorted(s)
    ensures StrictlySorted(r)
    ensures forall w :: w in r <==> w in s || w == x
  {
    if |s| == 0 then [x]
    else if x == s[0] then s
    else if Less(x, s[0]) then
      assert forall j :: 0 <= j < |s| ==> Less(x, s[j]) by {
        forall j | 0 < j < |s| {
          LessTransitive(x, s[0], s[j]);
        }
      }
      [x] + s
    else
      var t := InsertNew(s[1..], x);
      LessTotal(x, s[0]);
      assert forall k :: 0 <= k < |t| ==> Less(s[0], t[k]) by {
        forall k | 0 <= k < |t|
          ensures Less(s[0], t[k])
        {
          assert t[k] in t;
          if t[k] != x {
            var m :| 0 <= m < |s[1..]| && s[1..][m] == t[k];
            assert s[m + 1] == t[k];
          }
        }
      }
      assert s == [s[0]] + s[1..];
      [s[0]] + t
  }

  /** `sorted(set(xs))`. */
  function SortDistinct(xs: seq<string>): (r: seq<string>)
    ensures StrictlySorted(r)
    ensures forall w :: w in r <==> w in xs
  {
    if |xs| == 0 then []
    else
      assert xs == [xs[0]] + xs[1..];
      InsertNew(SortDistinct(xs[1..]), xs[0])
  }

  /** A strictly sorted list is determined by its elements, so the
      vocabulary does not depend on the order the set is walked in. */
  lemma {:induction false} StrictlySortedUnique(s: seq<string>, t: seq<string>)
    requires StrictlySorted(s) && StrictlySorted(t)
    requires forall w :: w in s <==> w in t
    ensures s == t
    decreases |s|
  {
    if |t| > 0 {
      assert t[0] in t;
    }
    if |s| > 0 {
      assert s[0] in s;
      assert |t| > 0;
      assert t[0] in t;
      var i :| 0 <= i < |t| && t[i] == s[0];
      var j :| 0 <= j < |s| && s[j] == t[0];
      if i > 0 && j > 0 {
        assert Less(t[0], t[i]) && Less(s[0], s[j]);
        LessAsymmetric(t[0], s[0]);
      } else if i > 0 {
        assert Less(t[0], t[i]);
        LessIrreflexive(t[0]);
      } else if j > 0 {
        assert Less(s[0], s[j]);
        LessIrreflexive(s[0]);
      }
      assert s[0] == t[0];
      forall w
        ensures w in s[1..] <==> w in t[1..]
      {
        if w in s[1..] {
          var m :| 0 <= m < |s[1..]| && s[1..][m] == w;
          assert Less(s[0], s[m + 1]);
          LessIrreflexive(w);
          assert w in t;
          var n :| 0 <= n < |t| && t[n] == w;
          assert n != 0;
          assert t[1..][n - 1] == w;
        }
        if w in t[1..] {
          var m :| 0 <= m < |t[1..]| && t[1..][m] == w;
          assert Less(t[0], t[m + 1]);
          LessIrreflexive(w);
          assert w in s;
          var n :| 0 <= n < |s| && s[n] == w;
          assert n != 0;
          assert s[1..][n - 1] == w;
        }
      }
      StrictlySortedUnique(s[1..], t[1..]);
      assert s == [s[0]] + s[1..] && t == [t[0]] + t[1..];
    }
  }
}
