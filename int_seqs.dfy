/**
 * Vocabulary shared by the ArrayUtils model: order, distinctness, index ranges,
 * permutations given as index sequences, and sums of integer sequences.
 */
module IntSeqs {
  /** Non-decreasing. */
  predicate Sorted(s: seq<int>) {
    forall i, j :: 0 <= i < j < |s| ==> s[i] <= s[j]
  }

  predicate StrictlyIncreasing(s: seq<int>) {
    forall i, j :: 0 <= i < j < |s| ==> s[i] < s[j]
  }

  predicate Distinct<T(==)>(s: seq<T>) {
    forall i, j :: 0 <= i < j < |s| ==> s[i] != s[j]
  }

  /** lo, lo + 1, ..., hi - 1. */
  function Range(lo: int, hi: int): (r: seq<int>)
    ensures |r| == if lo < hi then hi - lo else 0
    ensures forall i :: 0 <= i < |r| ==> r[i] == lo + i
    ensures forall x :: x in r <==> lo <= x < hi
    decreases hi - lo
  {
    if hi <= lo then [] else [lo] + Range(lo + 1, hi)
  }

  /** `p` lists each of the indices 0 .. |p| - 1 exactly once. */
  predicate IsPermutation(p: seq<int>) {
    multiset(p) == multiset(Range(0, |p|))
  }

  lemma PermutationInRange(p: seq<int>)
    requires IsPermutation(p)
    ensures forall i :: 0 <= i < |p| ==> 0 <= p[i] < |p|
  {
    forall i | 0 <= i < |p| ensures 0 <= p[i] < |p| {
      assert p[i] in multiset(p);
      assert p[i] in Range(0, |p|);
    }
  }

  /** The sequence whose i-th element is s[p[i]]. */
  function Apply<T>(s: seq<T>, p: seq<int>): (r: seq<T>)
    requires forall i :: 0 <= i < |p| ==> 0 <= p[i] < |s|
    ensures |r| == |p| && forall i :: 0 <= i < |p| ==> r[i] == s[p[i]]
  {
    seq(|p|, i requires 0 <= i < |p| => s[p[i]])
  }

  /** Rearranging by a permutation keeps every element, as often as it occurs. */
  lemma {:induction false} ApplyPermutation<T>(s: seq<T>, p: seq<int>)
    requires |p| == |s| && IsPermutation(p)
    ensures forall i :: 0 <= i < |p| ==> 0 <= p[i] < |s|
    ensures multiset(Apply(s, p)) == multiset(s)
    decreases |s|
  {
    PermutationInRange(p);
    if |s| > 0 {
      var n := |s| - 1;
      RangeSnoc(n);
      assert n in multiset(p);
      var k :| 0 <= k < |p| && p[k] == n;
      var q := p[..k] + p[k + 1..];
      assert p == p[..k] + [n] + p[k + 1..];
      assert multiset(p) == multiset(p[..k]) + multiset{n} + multiset(p[k + 1..]);
      assert multiset(q) == multiset(p[..k]) + multiset(p[k + 1..]);
      assert multiset(Range(0, n + 1)) == multiset(Range(0, n)) + multiset{n};
      RemoveMiddle(n, multiset(p[..k]), multiset(p[k + 1..]), multiset(Range(0, n)));
      assert |q| == n;
      ApplyPermutation(s[..n], q);
      var u := Apply(s[..n], q);
      ApplyWithout(s, p, k, q);
      InsertOne(u, k, s);
    }
  }

  lemma InsertOne<T>(u: seq<T>, k: nat, s: seq<T>)
    requires 0 < |s| && k <= |u| && multiset(u) == multiset(s[..|s| - 1])
    ensures multiset(u[..k] + [s[|s| - 1]] + u[k..]) == multiset(s)
  {
    assert multiset(u[..k] + [s[|s| - 1]] + u[k..]) == multiset(u[..k] + u[k..]) + multiset{s[|s| - 1]};
    assert u[..k] + u[k..] == u;
    assert s == s[..|s| - 1] + [s[|s| - 1]];
  }

  lemma RemoveMiddle<T>(x: T, a: multiset<T>, b: multiset<T>, c: multiset<T>)
    requires a + multiset{x} + b == c + multiset{x}
    ensures a + b == c
  {
    forall y ensures (a + b)[y] == c[y] {
      assert (a + multiset{x} + b)[y] == (c + multiset{x})[y];
    }
  }

  /** Taking the last index out of a permutation takes the last element out of the result. */
  lemma ApplyWithout<T>(s: seq<T>, p: seq<int>, k: int, q: seq<int>)
    requires |s| > 0 && |p| == |s| && 0 <= k < |p| && p[k] == |s| - 1
    requires q == p[..k] + p[k + 1..] && forall i :: 0 <= i < |q| ==> 0 <= q[i] < |s| - 1
    ensures forall i :: 0 <= i < |p| ==> 0 <= p[i] < |s|
    ensures Apply(s, p) == Apply(s[..|s| - 1], q)[..k] + [s[|s| - 1]] + Apply(s[..|s| - 1], q)[k..]
  {
    forall i | 0 <= i < |p| ensures 0 <= p[i] < |s| {
      if i < k {
        assert p[i] == q[i];
      } else if i > k {
        assert p[i] == q[i - 1];
      }
    }
    var u := Apply(s[..|s| - 1], q);
    var t := u[..k] + [s[|s| - 1]] + u[k..];
    forall i | 0 <= i < |p| ensures Apply(s, p)[i] == t[i] {
      if i < k {
        assert t[i] == u[i] && q[i] == p[i];
      } else if i > k {
        assert t[i] == u[i - 1] && q[i - 1] == p[i];
      }
    }
  }

  function Sum(s: seq<int>): int {
    if s == [] then 0 else s[0] + Sum(s[1..])
  }

  lemma {:induction false} SumAppend(s: seq<int>, t: seq<int>)
    ensures Sum(s + t) == Sum(s) + Sum(t)
  {
    if s == [] {
      assert s + t == t;
    } else {
      assert (s + t)[1..] == s[1..] + t;
      SumAppend(s[1..], t);
    }
  }

  /** Removing the element at index i takes exactly that element out of the sum. */
  lemma SumRemove(s: seq<int>, i: nat)
    requires i < |s|
    ensures Sum(s) == s[i] + Sum(s[..i] + s[i + 1..])
  {
    var front, back := s[..i], s[i + 1..];
    var tail := [s[i]] + back;
    assert s == front + tail;
    assert tail[1..] == back;
    SumAppend(front, tail);
    SumAppend(front, back);
  }

  /** The sum depends only on the multiset of elements. */
  lemma {:induction false} SumPermutation(s: seq<int>, t: seq<int>)
    requires multiset(s) == multiset(t)
    ensures Sum(s) == Sum(t)
    decreases |s|
  {
    if s != [] {
      assert s[0] in multiset(t);
      var i :| 0 <= i < |t| && t[i] == s[0];
      var rest := t[..i] + t[i + 1..];
      assert t == t[..i] + [t[i]] + t[i + 1..];
      assert multiset(t) == multiset(t[..i]) + multiset{t[i]} + multiset(t[i + 1..]);
      assert multiset(t) == multiset(rest) + multiset{t[i]};
      assert s == [s[0]] + s[1..];
      assert multiset(s) == multiset{s[0]} + multiset(s[1..]);
      MultisetCancel(s[0], multiset(s[1..]), multiset(rest));
      assert multiset(s[1..]) == multiset(rest);
      SumPermutation(s[1..], rest);
      SumRemove(t, i);
    }
  }

  lemma MultisetCancel<T>(x: T, a: multiset<T>, b: multiset<T>)
    requires multiset{x} + a == multiset{x} + b
    ensures a == b
  {
    forall y ensures a[y] == b[y] {
      assert (multiset{x} + a)[y] == (multiset{x} + b)[y];
    }
  }

  /** 0 + 1 + ... + (n - 1), doubled. */
  lemma {:induction false} SumRange(n: nat)
    ensures 2 * Sum(Range(0, n)) == n * (n - 1)
  {
    if n > 0 {
      SumRange(n - 1);
      RangeSnoc(n - 1);
      SumAppend(Range(0, n - 1), [n - 1]);
      assert Sum([n - 1]) == n - 1 + Sum([]);
      assert (n - 1) * (n - 2) + 2 * (n - 1) == n * (n - 1);
    }
  }

  lemma RangeSnoc(n: nat)
    ensures Range(0, n + 1) == Range(0, n) + [n]
  {
  }

  /** A sorted sequence is determined by its elements: two sorted orders of one multiset agree. */
  lemma {:induction false} SortedUnique(x: seq<int>, y: seq<int>)
    requires Sorted(x) && Sorted(y) && multiset(x) == multiset(y)
    ensures x == y
    decreases |x|
  {
    if x != [] {
      assert |y| == |x| by { assert |multiset(y)| == |multiset(x)|; }
      assert x[0] == y[0] by {
        assert x[0] in multiset(y) && y[0] in multiset(x);
      }
      assert x == [x[0]] + x[1..] && y == [y[0]] + y[1..];
      MultisetCancel(x[0], multiset(x[1..]), multiset(y[1..]));
      SortedUnique(x[1..], y[1..]);
    }
  }
}
