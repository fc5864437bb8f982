/**
 * The value-returning helpers of ArrayUtils: search, concatenation, ranges,
 * set-like operations, the sorted merge of two arrays, slices and maxima.
 * Arrays that the helpers only read and never change are sequences here.
 */
module ArrayUtils {
  import opened IntSeqs

  /** `find`: the index of the first element equal to `key`, or -1 when there is none. */
  function Find<T(==)>(a: seq<T>, key: T): (r: int)
    ensures -1 <= r < |a|
    ensures r == -1 <==> key !in a
    ensures 0 <= r ==> a[r] == key && key !in a[..r]
  {
    if |a| == 0 then -1
    else if a[0] == key then 0
    else
      var i := Find(a[1..], key);
      if i == -1 then -1
      else
        assert a[..i + 1] == [a[0]] + a[1..][..i];
        i + 1
  }

  /** Within a prefix that contains the key, the first occurrence is the same as in the whole array. */
  lemma FindPrefix<T>(a: seq<T>, k: nat, key: T)
    requires k <= |a| && key in a[..k]
    ensures Find(a, key) == Find(a[..k], key)
  {
    var r := Find(a, key);
    var q := Find(a[..k], key);
    assert a[..k][..q] == a[..q];
  }

  /** `concat`: the first array followed by the second. */
  function Concat<T>(a: seq<T>, b: seq<T>): (r: seq<T>)
    ensures |r| == |a| + |b|
    ensures forall i :: 0 <= i < |a| ==> r[i] == a[i]
    ensures forall j :: 0 <= j < |b| ==> r[|a| + j] == b[j]
  {
    a + b
  }

  /** `fromUpTo`: start, start + step, start + 2 * step, ... for as long as the values stay below `bound`. */
  function FromUpTo(start: int, bound: int, step: int): (r: seq<int>)
    requires 0 < step
    ensures forall i :: 0 <= i < |r| ==> r[i] == start + i * step && r[i] < bound
    ensures bound <= start + |r| * step
    decreases bound - start
  {
    if bound <= start then []
    else
      var rest := FromUpTo(start + step, bound, step);
      assert forall i :: 0 < i <= |rest| ==> start + step + (i - 1) * step == start + i * step by {
        forall i | 0 < i <= |rest| ensures start + step + (i - 1) * step == start + i * step {
          MulStep(i - 1, step);
        }
      }
      MulStep(|rest|, step);
      [start] + rest
  }

  lemma MulStep(i: int, step: int)
    ensures (i + 1) * step == i * step + step
  {
  }

  /** The length of `fromUpTo` is the number of steps needed bound reach `bound`, rounded up. */
  lemma FromUpToLength(start: int, bound: int, step: int)
    requires 0 < step && start < bound
    ensures |FromUpTo(start, bound, step)| == (bound - start + step - 1) / step
  {
    var r := FromUpTo(start, bound, step);
    var n := |r|;
    assert 0 < n;
    assert r[n - 1] == start + (n - 1) * step < bound;
    MulStep(n - 1, step);
    assert (n - 1) * step < bound - start <= n * step;
    DivBetween(bound - start + step - 1, step, n);
  }

  lemma DivBetween(x: int, step: int, n: int)
    requires 0 < step && n * step <= x < n * step + step
    ensures x / step == n
  {
    var q := x / step;
    if q < n {
      MulLe(q + 1, n, step);
      MulStep(q, step);
    } else if q > n {
      MulLe(n + 1, q, step);
      MulStep(n, step);
    }
  }

  lemma MulLe(a: int, b: int, step: int)
    requires a <= b && 0 < step
    ensures a * step <= b * step
  {
  }

  /** `deduplicate`: each value kept at its first occurrence, later repeats dropped. */
  function Deduplicate<T(==)>(a: seq<T>): seq<T> {
    if a == [] then []
    else
      var r := Deduplicate(a[..|a| - 1]);
      if a[|a| - 1] in r then r else r + [a[|a| - 1]]
  }

  /** `deduplicate` returns every value of the array, each once. */
  lemma {:induction false} DeduplicateSpec<T>(a: seq<T>)
    ensures Distinct(Deduplicate(a))
    ensures forall x :: x in Deduplicate(a) <==> x in a
  {
    if a != [] {
      var init := a[..|a| - 1];
      DeduplicateSpec(init);
      assert a == init + [a[|a| - 1]];
    }
  }

  /** Every value `deduplicate` returns comes from the array. */
  lemma DeduplicateMember<T>(a: seq<T>, i: nat)
    requires i < |Deduplicate(a)|
    ensures Deduplicate(a)[i] in a
  {
    DeduplicateSpec(a);
    var r := Deduplicate(a);
    assert r[i] in r;
  }

  /** `deduplicate` keeps the values in the order of their first occurrence. */
  lemma {:induction false} DeduplicateFirstOccurrence<T>(a: seq<T>)
    ensures forall i, j :: 0 <= i < j < |Deduplicate(a)| ==> Find(a, Deduplicate(a)[i]) < Find(a, Deduplicate(a)[j])
  {
    if a != [] {
      var init := a[..|a| - 1];
      var last := a[|a| - 1];
      var r := Deduplicate(init);
      DeduplicateFirstOccurrence(init);
      DeduplicateSpec(init);
      assert a == init + [last];
      forall i | 0 <= i < |r| ensures Find(a, r[i]) == Find(init, r[i]) {
        DeduplicateMember(init, i);
        FindPrefix(a, |a| - 1, r[i]);
      }
      if last !in r {
        var d := r + [last];
        assert Deduplicate(a) == d;
        assert Find(a, last) == |a| - 1;
        forall i, j | 0 <= i < j < |d| ensures Find(a, d[i]) < Find(a, d[j]) {
          if j == |r| {
            assert d[i] == r[i] && Find(a, r[i]) < |init|;
          } else {
            assert d[i] == r[i] && d[j] == r[j];
          }
        }
      }
    }
  }

  /** `union`: every value of either array once. */
  function Union(a: seq<int>, b: seq<int>): seq<int> {
    Deduplicate(a + b)
  }

  lemma UnionSpec(a: seq<int>, b: seq<int>)
    ensures Distinct(Union(a, b))
    ensures forall x :: x in Union(a, b) <==> x in a || x in b
  {
    DeduplicateSpec(a + b);
  }

  /** The tail of a sorted array is sorted and bounded below by the head. */
  lemma SortedTail(a: seq<int>)
    requires Sorted(a) && a != []
    ensures Sorted(a[1..]) && forall y :: y in a[1..] ==> a[0] <= y
  {
  }

  lemma ConsIncreasing(x: int, rest: seq<int>)
    requires StrictlyIncreasing(rest) && forall y :: y in rest ==> x < y
    ensures StrictlyIncreasing([x] + rest)
  {
    forall i, j | 0 <= i < j < |rest| + 1 ensures ([x] + rest)[i] < ([x] + rest)[j] {
      if i == 0 {
        assert rest[j - 1] in rest;
      }
    }
  }

  /** `intersection` of two sorted arrays: the values common to both, each once, ascending. */
  function Intersection(a: seq<int>, b: seq<int>): (r: seq<int>)
    requires Sorted(a) && Sorted(b)
    ensures StrictlyIncreasing(r)
    ensures forall x :: x in r <==> x in a && x in b
    decreases |a| + |b|
  {
    if a == [] || b == [] then []
    else
      assert a == [a[0]] + a[1..] && b == [b[0]] + b[1..];
      SortedTail(a);
      SortedTail(b);
      if a[0] < b[0] then Intersection(a[1..], b)
      else if b[0] < a[0] then Intersection(a, b[1..])
      else
        var rest := Intersection(a[1..], b[1..]);
        if rest != [] && rest[0] == a[0] then rest
        else
          assert forall y :: y in rest ==> a[0] < y by {
            forall y | y in rest ensures a[0] < y {
              assert y in a[1..];
            }
          }
          ConsIncreasing(a[0], rest);
          [a[0]] + rest
  }

  /** The elements of `a` that also occur in `b`, in the order of `a`. */
  function Common(a: seq<int>, b: seq<int>): seq<int> {
    if a == [] then []
    else if a[0] in b then [a[0]] + Common(a[1..], b)
    else Common(a[1..], b)
  }

  lemma {:induction false} CommonSpec(a: seq<int>, b: seq<int>)
    ensures forall x :: x in Common(a, b) <==> x in a && x in b
  {
    if a != [] {
      CommonSpec(a[1..], b);
      assert a == [a[0]] + a[1..];
    }
  }

  /** `intersectionUnsorted`: the values common to two arrays in any order, each once. */
  function IntersectionUnsorted(a: seq<int>, b: seq<int>): seq<int> {
    Deduplicate(Common(a, b))
  }

  lemma IntersectionUnsortedSpec(a: seq<int>, b: seq<int>)
    ensures Distinct(IntersectionUnsorted(a, b))
    ensures forall x :: x in IntersectionUnsorted(a, b) <==> x in a && x in b
  {
    CommonSpec(a, b);
    DeduplicateSpec(Common(a, b));
  }

  lemma ConsSorted(x: int, rest: seq<int>)
    requires Sorted(rest) && forall y :: y in rest ==> x <= y
    ensures Sorted([x] + rest)
  {
    forall i, j | 0 <= i < j < |rest| + 1 ensures ([x] + rest)[i] <= ([x] + rest)[j] {
      if i == 0 {
        assert rest[j - 1] in rest;
      }
    }
  }

  /** `merge(a, b)`: repeatedly the smaller head first, the first array's on a tie. */
  function Merge(a: seq<int>, b: seq<int>): seq<int>
    decreases |a| + |b|
  {
    if a == [] then b
    else if b == [] then a
    else if a[0] <= b[0] then [a[0]] + Merge(a[1..], b)
    else [b[0]] + Merge(a, b[1..])
  }

  /** The merge keeps every element of both arrays, duplicates included. */
  lemma {:induction false} MergeElements(a: seq<int>, b: seq<int>)
    ensures |Merge(a, b)| == |a| + |b|
    ensures multiset(Merge(a, b)) == multiset(a) + multiset(b)
    decreases |a| + |b|
  {
    if a != [] && b != [] {
      if a[0] <= b[0] {
        MergeElements(a[1..], b);
        assert a == [a[0]] + a[1..];
      } else {
        MergeElements(a, b[1..]);
        assert b == [b[0]] + b[1..];
      }
    }
  }

  /** The merge of two sorted arrays is sorted. */
  lemma {:induction false} MergeSorted(a: seq<int>, b: seq<int>)
    requires Sorted(a) && Sorted(b)
    ensures Sorted(Merge(a, b))
    decreases |a| + |b|
  {
    if a != [] && b != [] {
      if a[0] <= b[0] {
        SortedTail(a);
        MergeSorted(a[1..], b);
        MergeElements(a[1..], b);
        MergeStep(a, b, Merge(a[1..], b));
      } else {
        SortedTail(b);
        MergeSorted(a, b[1..]);
        MergeElements(a, b[1..]);
        MergeStep(b, a, Merge(a, b[1..]));
      }
    }
  }

  /** Taking the smaller head x first keeps a merge of sorted inputs sorted. */
  lemma MergeStep(a: seq<int>, b: seq<int>, rest: seq<int>)
    requires a != [] && b != [] && a[0] <= b[0]
    requires multiset(rest) == multiset(a[1..]) + multiset(b)
    requires Sorted(a) && Sorted(b) ==> Sorted(rest)
    ensures Sorted(a) && Sorted(b) ==> Sorted([a[0]] + rest)
  {
    if Sorted(a) && Sorted(b) {
      forall y | y in rest ensures a[0] <= y {
        assert y in multiset(rest);
        if y in a[1..] {
          SortedTail(a);
        } else {
          assert y in b;
        }
      }
      ConsSorted(a[0], rest);
    }
  }

  /** `subArray(a, start, end)`: the elements from `start` up to and including `end`, the same elements. */
  function SubArray<T>(a: seq<T>, start: int, end: int): (r: seq<T>)
    requires 0 <= start <= end + 1 <= |a|
    ensures |r| == end - start + 1
    ensures forall i :: 0 <= i < |r| ==> r[i] == a[start + i]
  {
    a[start..end + 1]
  }

  /** `max`: the largest element. */
  function Max(a: seq<int>): (r: int)
    requires a != []
    ensures r in a && forall x :: x in a ==> x <= r
  {
    if |a| == 1 then a[0]
    else
      var m := Max(a[1..]);
      assert forall x :: x in a ==> x == a[0] || x in a[1..];
      if a[0] < m then m else a[0]
  }

  /** `maxIndex`: the index of the first occurrence of the largest element. */
  function MaxIndex(a: seq<int>): (r: int)
    requires a != []
    ensures 0 <= r < |a| && a[r] == Max(a)
    ensures forall i :: 0 <= i < r ==> a[i] < a[r]
  {
    var r := Find(a, Max(a));
    assert forall i :: 0 <= i < r ==> a[i] in a[..r] && a[i] in a;
    r
  }

  /** `missingNumber`: for the numbers 0 .. n with one left out, given as n values, the one left out. */
  function MissingNumber(a: seq<int>): int {
    |a| * (|a| + 1) / 2 - Sum(a)
  }

  lemma MissingNumberFound(a: seq<int>, m: int)
    requires multiset(a) + multiset{m} == multiset(Range(0, |a| + 1))
    ensures MissingNumber(a) == m
  {
    var n := |a| + 1;
    assert multiset(a + [m]) == multiset(Range(0, n));
    SumPermutation(a + [m], Range(0, n));
    SumAppend(a, [m]);
    assert Sum([m]) == m + Sum([]);
    SumRange(n);
    assert (n - 1) * n == n * (n - 1);
    Half((n - 1) * n, Sum(Range(0, n)));
  }

  lemma Half(x: int, y: int)
    requires x == 2 * y
    ensures x / 2 == y
  {
  }

  /** `isValidIndex`: whether i indexes an element of the array. */
  predicate IsValidIndex<T>(a: seq<T>, i: int) {
    0 <= i < |a|
  }
}
