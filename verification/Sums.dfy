// Finite sums over sets and sequences. Go ranges over its maps in an arbitrary
// order; summing over a set is how the model says that the order is irrelevant.
module Sums {

  ghost function Sum<T>(s: set<T>, f: T -> int): int {
    if s == {} then 0
    else
      var x :| x in s;
      f(x) + Sum(s - {x}, f)
  }

  /** Any element may be the one that is split off. */
  lemma {:induction false} SumRemove<T>(s: set<T>, f: T -> int, x: T)
    requires x in s
    ensures Sum(s, f) == f(x) + Sum(s - {x}, f)
    decreases |s|
  {
    var y :| y in s && Sum(s, f) == f(y) + Sum(s - {y}, f);
    if y != x {
      SumRemove(s - {y}, f, x);
      SumRemove(s - {x}, f, y);
      assert s - {x} - {y} == s - {y} - {x};
    }
  }

  lemma SumInsert<T>(s: set<T>, f: T -> int, x: T)
    requires x !in s
    ensures Sum(s + {x}, f) == Sum(s, f) + f(x)
  {
    SumRemove(s + {x}, f, x);
    assert s + {x} - {x} == s;
  }

  lemma {:induction false} SumCongruence<T>(s: set<T>, f: T -> int, g: T -> int)
    requires forall x | x in s :: f(x) == g(x)
    ensures Sum(s, f) == Sum(s, g)
    decreases |s|
  {
    if s != {} {
      var x :| x in s;
      SumRemove(s, f, x);
      SumRemove(s, g, x);
      SumCongruence(s - {x}, f, g);
    }
  }

  lemma {:induction false} SumMonotone<T>(s: set<T>, f: T -> int, g: T -> int)
    requires forall x | x in s :: f(x) <= g(x)
    ensures Sum(s, f) <= Sum(s, g)
    decreases |s|
  {
    if s != {} {
      var x :| x in s;
      SumRemove(s, f, x);
      SumRemove(s, g, x);
      SumMonotone(s - {x}, f, g);
    }
  }

  lemma {:induction false} SumUnion<T>(s: set<T>, t: set<T>, f: T -> int)
    requires s !! t
    ensures Sum(s + t, f) == Sum(s, f) + Sum(t, f)
    decreases |t|
  {
    if t == {} {
      assert s + t == s;
    } else {
      var x :| x in t;
      SumUnion(s, t - {x}, f);
      assert s + (t - {x}) == s + t - {x};
      SumRemove(s + t, f, x);
      SumRemove(t, f, x);
    }
  }

  lemma {:induction false} SumNonNegative<T>(s: set<T>, f: T -> int)
    requires forall x | x in s :: f(x) >= 0
    ensures Sum(s, f) >= 0
    decreases |s|
  {
    if s != {} {
      var x :| x in s;
      SumRemove(s, f, x);
      SumNonNegative(s - {x}, f);
    }
  }

  /** With non-negative terms a smaller set has the smaller sum. */
  lemma SumSubset<T>(s: set<T>, t: set<T>, f: T -> int)
    requires s <= t
    requires forall x | x in t :: f(x) >= 0
    ensures Sum(s, f) <= Sum(t, f)
  {
    SumUnion(s, t - s, f);
    assert s + (t - s) == t;
    SumNonNegative(t - s, f);
  }

  /** Changing f at the single point x changes the sum by exactly that much. */
  lemma SumChangeAt<T>(s: set<T>, f: T -> int, g: T -> int, x: T)
    requires x in s
    requires forall y | y in s && y != x :: f(y) == g(y)
    ensures Sum(s, g) == Sum(s, f) + g(x) - f(x)
  {
    SumRemove(s, f, x);
    SumRemove(s, g, x);
    SumCongruence(s - {x}, f, g);
  }

  function SeqSum<T>(s: seq<T>, f: T -> int): int {
    if s == [] then 0 else SeqSum(s[..|s| - 1], f) + f(s[|s| - 1])
  }

  lemma {:induction false} SeqSumConcat<T>(s: seq<T>, t: seq<T>, f: T -> int)
    ensures SeqSum(s + t, f) == SeqSum(s, f) + SeqSum(t, f)
    decreases |t|
  {
    if t == [] {
      assert s + t == s;
    } else {
      assert (s + t)[..|s + t| - 1] == s + t[..|t| - 1];
      SeqSumConcat(s, t[..|t| - 1], f);
    }
  }

  lemma SeqSumSnoc<T>(s: seq<T>, x: T, f: T -> int)
    ensures SeqSum(s + [x], f) == SeqSum(s, f) + f(x)
  {
    assert (s + [x])[..|s|] == s;
  }

  lemma CutAround<T>(t: seq<T>, k: nat)
    requires k < |t|
    ensures t == (t[..k] + [t[k]]) + t[k + 1..]
  {
  }

  lemma SnocConcat<T>(s: seq<T>, t: seq<T>, x: T)
    ensures s + (t + [x]) == (s + t) + [x]
  {
  }

  /** Taking one element out of the middle of a sequence takes its term out of the sum... */
  lemma SeqSumWithout<T>(t: seq<T>, k: nat, f: T -> int)
    requires k < |t|
    ensures SeqSum(t, f) == SeqSum(t[..k] + t[k + 1..], f) + f(t[k])
  {
    CutAround(t, k);
    SeqSumConcat(t[..k] + [t[k]], t[k + 1..], f);
    SeqSumSnoc(t[..k], t[k], f);
    SeqSumConcat(t[..k], t[k + 1..], f);
  }

  /** ...and one occurrence out of the elements. */
  lemma BagWithout<T>(t: seq<T>, k: nat)
    requires k < |t|
    ensures multiset(t[..k] + t[k + 1..]) == multiset(t) - multiset{t[k]}
  {
    CutAround(t, k);
  }

  /** The sum over a sequence depends only on which elements it holds. */
  lemma {:induction false} SeqSumPermutation<T>(s: seq<T>, t: seq<T>, f: T -> int)
    requires multiset(s) == multiset(t)
    ensures SeqSum(s, f) == SeqSum(t, f)
    decreases |s|
  {
    if s == [] {
      assert |multiset(t)| == 0;
    } else {
      var n := |s| - 1;
      assert s[n] in multiset(t);
      var k :| 0 <= k < |t| && t[k] == s[n];
      SeqSumWithout(s, n, f);
      SeqSumWithout(t, k, f);
      BagWithout(s, n);
      BagWithout(t, k);
      SeqSumPermutation(s[..n] + s[n + 1..], t[..k] + t[k + 1..], f);
    }
  }

  lemma {:induction false} SeqSumNonPositive<T>(s: seq<T>, f: T -> int)
    requires forall x | x in s :: f(x) <= 0
    ensures SeqSum(s, f) <= 0
    ensures (exists x :: x in s && f(x) < 0) ==> SeqSum(s, f) < 0
    decreases |s|
  {
    if s != [] {
      var n := |s| - 1;
      assert s == s[..n] + [s[n]];
      SeqSumNonPositive(s[..n], f);
    }
  }
}
