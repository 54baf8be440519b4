/** Sums over sequences, and the fact that a sum does not depend on order. */
module Folds {

  /** The sum of `f` over `s`, taken from the front as a `for range` loop does. */
  function Sum<T>(s: seq<T>, f: T -> int): int
  {
    if s == [] then 0 else Sum(s[..|s| - 1], f) + f(s[|s| - 1])
  }

  lemma {:induction false} SumAppend<T>(a: seq<T>, b: seq<T>, f: T -> int)
    ensures Sum(a + b, f) == Sum(a, f) + Sum(b, f)
  {
    if b == [] {
      assert a + b == a;
    } else {
      assert (a + b)[..|a + b| - 1] == a + b[..|b| - 1];
      SumAppend(a, b[..|b| - 1], f);
    }
  }

  lemma SumSingleton<T>(x: T, f: T -> int)
    ensures Sum([x], f) == f(x)
  {
    assert [x][..0] == [];
  }

  /** Taking one element out of the middle removes exactly its term. */
  lemma SumRemove<T>(b: seq<T>, i: int, f: T -> int)
    requires 0 <= i < |b|
    ensures Sum(b, f) == Sum(b[..i] + b[i + 1..], f) + f(b[i])
  {
    var left, x, right := b[..i], b[i], b[i + 1..];
    assert b == (left + [x]) + right;
    SumAppend(left + [x], right, f);
    SumAppend(left, [x], f);
    SumAppend(left, right, f);
    SumSingleton(x, f);
  }

  /** Taking one element out of the middle removes one occurrence from the multiset. */
  lemma MultisetRemove<T>(b: seq<T>, i: int)
    requires 0 <= i < |b|
    ensures multiset(b[..i] + b[i + 1..]) == multiset(b) - multiset{b[i]}
  {
    assert b == b[..i] + [b[i]] + b[i + 1..];
    calc {
      multiset(b);
      multiset(b[..i] + [b[i]] + b[i + 1..]);
      multiset(b[..i]) + multiset{b[i]} + multiset(b[i + 1..]);
      multiset(b[..i] + b[i + 1..]) + multiset{b[i]};
    }
  }

  /** Reordering the elements leaves the sum unchanged. */
  lemma {:induction false} SumPermutation<T>(a: seq<T>, b: seq<T>, f: T -> int)
    requires multiset(a) == multiset(b)
    ensures Sum(a, f) == Sum(b, f)
    decreases |a|
  {
    if a == [] {
      assert |b| == |multiset(b)| == 0;
    } else {
      var n := |a| - 1;
      MultisetRemove(a, n);
      assert a[..n] + a[n + 1..] == a[..n];
      assert a[n] in multiset(b);
      var i :| 0 <= i < |b| && b[i] == a[n];
      MultisetRemove(b, i);
      SumPermutation(a[..n], b[..i] + b[i + 1..], f);
      SumRemove(b, i, f);
    }
  }

  /** When every term lies in [0, 1], the sum lies in [0, |s|]. */
  lemma {:induction false} SumOfIndicators<T>(s: seq<T>, f: T -> int)
    requires forall x :: 0 <= f(x) <= 1
    ensures 0 <= Sum(s, f) <= |s|
  {
    if s != [] {
      SumOfIndicators(s[..|s| - 1], f);
    }
  }
}
