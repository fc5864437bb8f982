/**
 * The two non-comparison sorts of ArrayUtils: countingSort over a known value range, and
 * least-significant-digit radix sort in base 10 for non-negative values. Each pass is
 * proved equal to a function on sequences, and the lemmas here show that those functions
 * sort and only permute.
 */
module DistributionSorts {
  import opened IntSeqs

  /** v, n times. */
  function Repeat(v: int, n: nat): (r: seq<int>)
    ensures |r| == n && forall i :: 0 <= i < n ==> r[i] == v
  {
    seq(n, _ => v)
  }

  lemma {:induction false} RepeatMultiset(v: int, n: nat)
    ensures forall x :: multiset(Repeat(v, n))[x] == if x == v then n else 0
  {
    if n > 0 {
      RepeatMultiset(v, n - 1);
      assert Repeat(v, n) == Repeat(v, n - 1) + [v];
    }
  }

  // ---------------------------------------------------------------- counting sort

  /**
   * The values low .. h in ascending order, each as often as m holds it: what
   * countingSort writes back once it has counted the array's values into m.
   */
  function CountingOrder(m: multiset<int>, low: int, h: int): seq<int>
    decreases h - low
  {
    if h < low then [] else CountingOrder(m, low, h - 1) + Repeat(h, m[h])
  }

  /** It is sorted, and it holds exactly the elements of m between low and h. */
  lemma {:induction false} CountingOrderSpec(m: multiset<int>, low: int, h: int)
    ensures Sorted(CountingOrder(m, low, h))
    ensures forall x :: x in CountingOrder(m, low, h) ==> low <= x <= h
    ensures forall x :: multiset(CountingOrder(m, low, h))[x] == if low <= x <= h then m[x] else 0
    decreases h - low
  {
    if low <= h {
      CountingOrderSpec(m, low, h - 1);
      RepeatMultiset(h, m[h]);
      var prev := CountingOrder(m, low, h - 1);
      assert CountingOrder(m, low, h) == prev + Repeat(h, m[h]);
      forall i, j | 0 <= i < j < |prev| + m[h]
        ensures (prev + Repeat(h, m[h]))[i] <= (prev + Repeat(h, m[h]))[j]
      {
        if i < |prev| {
          assert prev[i] in prev;
        }
      }
    }
  }

  /** With every element of m between low and high, the counting order is a permutation of m. */
  lemma CountingOrderPermutes(m: multiset<int>, low: int, high: int)
    requires forall x :: x in m ==> low <= x <= high
    ensures multiset(CountingOrder(m, low, high)) == m
    ensures |CountingOrder(m, low, high)| == |m|
  {
    CountingOrderSpec(m, low, high);
    forall x ensures multiset(CountingOrder(m, low, high))[x] == m[x] {
      if x !in m {
        assert m[x] == 0;
      }
    }
    assert multiset(CountingOrder(m, low, high)) == m;
  }

  /** A longer range of values only appends. */
  lemma {:induction false} CountingOrderGrows(m: multiset<int>, low: int, h: int, h2: int)
    requires h <= h2
    ensures |CountingOrder(m, low, h)| <= |CountingOrder(m, low, h2)|
    decreases h2 - h
  {
    if h < h2 {
      CountingOrderGrows(m, low, h, h2 - 1);
    }
  }

  /**
   * `countingSort(arr, low, high)`: counts how often each value of low .. high occurs,
   * then overwrites the array with the values in ascending order, each as often as counted.
   */
  method CountingSort(a: array<int>, low: int, high: int)
    requires low <= high + 1
    requires forall i :: 0 <= i < a.Length ==> low <= a[i] <= high
    modifies a
    ensures a[..] == CountingOrder(multiset(old(a[..])), low, high)
    ensures Sorted(a[..]) && multiset(a[..]) == multiset(old(a[..]))
  {
    var counts := CountValues(a, low, high);
    ghost var m := multiset(a[..]);
    assert forall x :: x in m ==> low <= x <= high by {
      forall x | x in m ensures low <= x <= high {
        var k :| 0 <= k < a.Length && a[k] == x;
      }
    }
    CountingOrderPermutes(m, low, high);
    WriteCounts(a, counts, low, m);
    CountingSortSorts(old(a[..]), low, high);
  }

  /** The first phase: counts[v] is how often low + v occurs. */
  method CountValues(a: array<int>, low: int, high: int) returns (counts: array<int>)
    requires low <= high + 1
    requires forall i :: 0 <= i < a.Length ==> low <= a[i] <= high
    ensures fresh(counts) && counts.Length == high - low + 1
    ensures forall v :: 0 <= v < counts.Length ==> counts[v] == multiset(a[..])[v + low]
  {
    counts := new int[high - low + 1](_ => 0);
    var i := 0;
    while i < a.Length
      invariant 0 <= i <= a.Length
      invariant forall v :: 0 <= v < counts.Length ==> counts[v] == multiset(a[..i])[v + low]
    {
      assert a[..i + 1] == a[..i] + [a[i]];
      counts[a[i] - low] := counts[a[i] - low] + 1;
      i := i + 1;
    }
    assert a[..a.Length] == a[..];
  }

  /** The second phase: each value, in ascending order, written as often as counted. */
  method WriteCounts(a: array<int>, counts: array<int>, low: int, ghost m: multiset<int>)
    requires a != counts && |CountingOrder(m, low, low + counts.Length - 1)| == a.Length
    requires forall u :: 0 <= u < counts.Length ==> counts[u] == m[u + low]
    modifies a
    ensures a[..] == CountingOrder(m, low, low + counts.Length - 1)
  {
    ghost var high := low + counts.Length - 1;
    var current := 0;
    var v := 0;
    ghost var done: seq<int> := [];
    while v < counts.Length
      invariant 0 <= v <= counts.Length
      invariant done == CountingOrder(m, low, low + v - 1)
      invariant current == |done| <= a.Length
      invariant a[..current] == done
    {
      assert |CountingOrder(m, low, low + v)| <= a.Length by {
        CountingOrderGrows(m, low, low + v, high);
      }
      ghost var prev := a[..];
      Fill(a, current, current + counts[v], low + v);
      FilledPrefix(prev, a[..], current, counts[v], low + v, done);
      done := done + Repeat(low + v, counts[v]);
      current := current + counts[v];
      v := v + 1;
    }
  }

  /** After filling the next value's run, the written prefix has that run appended. */
  lemma FilledPrefix(prev: seq<int>, cur: seq<int>, current: int, c: nat, h: int, done: seq<int>)
    requires 0 <= current && current + c <= |prev| && prev[..current] == done
    requires cur == prev[..current] + Repeat(h, c) + prev[current + c..]
    ensures cur[..current + c] == done + Repeat(h, c)
  {
  }

  /** `Arrays.fill(a, from, to, v)`: a[start .. bound - 1] set to v, the rest unchanged. */
  method Fill(a: array<int>, start: int, bound: int, v: int)
    requires 0 <= start <= bound <= a.Length
    modifies a
    ensures a[..] == old(a[..start]) + Repeat(v, bound - start) + old(a[bound..])
  {
    var k := start;
    while k < bound
      invariant start <= k <= bound
      invariant a[..] == old(a[..start]) + Repeat(v, k - start) + old(a[k..])
    {
      a[k] := v;
      k := k + 1;
    }
  }

  /** Counting sort leaves the array non-decreasing and holding the same values. */
  lemma CountingSortSorts(s: seq<int>, low: int, high: int)
    requires forall i :: 0 <= i < |s| ==> low <= s[i] <= high
    ensures Sorted(CountingOrder(multiset(s), low, high))
    ensures multiset(CountingOrder(multiset(s), low, high)) == multiset(s)
  {
    CountingOrderSpec(multiset(s), low, high);
    forall x | x in multiset(s) ensures low <= x <= high {
      var k :| 0 <= k < |s| && s[k] == x;
    }
    CountingOrderPermutes(multiset(s), low, high);
  }

  // ---------------------------------------------------------------- radix sort

  /** The base-10 digit of x at place value e. */
  function Digit(x: int, e: int): int
    requires e > 0
  {
    (x / e) % 10
  }

  /** The elements of s whose digit at e is d, in their order in s. */
  function Bucket(s: seq<int>, e: int, d: int): seq<int>
    requires e > 0
  {
    if s == [] then []
    else Bucket(s[..|s| - 1], e, d) + (if Digit(s[|s| - 1], e) == d then [s[|s| - 1]] else [])
  }

  /** Buckets 0 .. n - 1, one after the other. */
  function Buckets(s: seq<int>, e: int, n: nat): seq<int>
    requires e > 0
  {
    if n == 0 then [] else Buckets(s, e, n - 1) + Bucket(s, e, n - 1)
  }

  /** One pass of the radix sort: a stable distribution of s by the digit at e. */
  function DigitPass(s: seq<int>, e: int): seq<int>
    requires e > 0
  {
    Buckets(s, e, 10)
  }

  /** s is ordered by the value of its last digits below place value e. */
  predicate SortedBelow(s: seq<int>, e: int)
    requires e > 0
  {
    forall i, j :: 0 <= i < j < |s| ==> s[i] % e <= s[j] % e
  }

  lemma {:induction false} BucketMultiset(s: seq<int>, e: int, d: int)
    requires e > 0
    ensures forall x :: multiset(Bucket(s, e, d))[x] == if Digit(x, e) == d then multiset(s)[x] else 0
    decreases |s|
  {
    if s != [] {
      var init, last := s[..|s| - 1], s[|s| - 1];
      BucketMultiset(init, e, d);
      assert s == init + [last];
    }
  }

  lemma {:induction false} BucketsMultiset(s: seq<int>, e: int, n: nat)
    requires e > 0
    ensures forall x :: multiset(Buckets(s, e, n))[x] == if Digit(x, e) < n then multiset(s)[x] else 0
  {
    if n > 0 {
      BucketsMultiset(s, e, n - 1);
      BucketMultiset(s, e, n - 1);
    }
  }

  /** A pass only rearranges. */
  lemma DigitPassPermutes(s: seq<int>, e: int)
    requires e > 0
    ensures multiset(DigitPass(s, e)) == multiset(s)
  {
    BucketsMultiset(s, e, 10);
    assert forall x :: multiset(DigitPass(s, e))[x] == multiset(s)[x];
  }

  /** The last digits below 10 e are the digit at e followed by the last digits below e. */
  lemma ModSplit(x: int, e: int)
    requires e > 0
    ensures x % (10 * e) == Digit(x, e) * e + x % e
  {
    var q, r := x / e, x % e;
    var d := q % 10;
    assert x == q * e + r;
    assert q == (q / 10) * 10 + d;
    assert q * e == (q / 10) * (10 * e) + d * e by {
      assert q * e == ((q / 10) * 10 + d) * e;
    }
    MulMono(0, d, e);
    MulMono(d, 9, e);
    ModUnique(x, 10 * e, q / 10, d * e + r);
  }

  /** The remainder is the one r with x == q m + r and 0 <= r < m. */
  lemma ModUnique(x: int, m: int, q: int, r: int)
    requires m > 0 && x == q * m + r && 0 <= r < m
    ensures x % m == r
  {
    var k := x / m - q;
    assert k * m == r - x % m by {
      assert x == (x / m) * m + x % m;
      assert (x / m) * m - q * m == k * m;
    }
    if k >= 1 {
      MulMono(1, k, m);
    } else if k <= -1 {
      MulMono(k, -1, m);
    }
  }

  /** A bucket keeps the order of s, so it is ordered wherever s is, and it only holds digit d. */
  lemma {:induction false} BucketSorted(s: seq<int>, e: int, d: int)
    requires e > 0 && SortedBelow(s, e)
    ensures SortedBelow(Bucket(s, e, d), e)
    ensures forall y :: y in Bucket(s, e, d) ==> Digit(y, e) == d && y in s
    decreases |s|
  {
    BucketMembers(s, e, d);
    if s != [] {
      var init, last := s[..|s| - 1], s[|s| - 1];
      assert SortedBelow(init, e);
      BucketSorted(init, e, d);
      var b := Bucket(init, e, d);
      forall y | y in b ensures y % e <= last % e {
        var k :| 0 <= k < |init| && init[k] == y;
        assert s[k] == y;
      }
      BucketSnoc(b, last, e, Digit(last, e) == d);
    }
  }

  /** A bucket holds elements of s with digit d only. */
  lemma BucketMembers(s: seq<int>, e: int, d: int)
    requires e > 0
    ensures forall y :: y in Bucket(s, e, d) ==> Digit(y, e) == d && y in s
  {
    BucketMultiset(s, e, d);
    forall y | y in Bucket(s, e, d) ensures Digit(y, e) == d && y in s {
      assert y in multiset(Bucket(s, e, d));
    }
  }

  lemma BucketSnoc(b: seq<int>, last: int, e: int, keep: bool)
    requires e > 0 && SortedBelow(b, e)
    requires forall y :: y in b ==> y % e <= last % e
    ensures SortedBelow(b + (if keep then [last] else []), e)
  {
    if keep {
      forall i, j | 0 <= i < j < |b| + 1 ensures (b + [last])[i] % e <= (b + [last])[j] % e {
        if j == |b| {
          assert b[i] in b;
        }
      }
    } else {
      assert b + [] == b;
    }
  }

  /**
   * Distributing a sequence ordered below e by its digit at e orders it below 10 e: the
   * buckets come in digit order, and within a bucket the earlier order decides.
   */
  lemma {:induction false} BucketsSorted(s: seq<int>, e: int, n: nat)
    requires e > 0 && SortedBelow(s, e)
    ensures SortedBelow(Buckets(s, e, n), 10 * e)
    ensures forall y :: y in Buckets(s, e, n) ==> Digit(y, e) < n
  {
    if n > 0 {
      BucketsSorted(s, e, n - 1);
      BucketSorted(s, e, n - 1);
      BucketsJoin(Buckets(s, e, n - 1), Bucket(s, e, n - 1), e, n - 1);
    }
  }

  /** Appending the bucket of digit d to the buckets of smaller digits. */
  lemma BucketsJoin(front: seq<int>, back: seq<int>, e: int, d: int)
    requires e > 0 && 0 <= d && SortedBelow(front, 10 * e) && SortedBelow(back, e)
    requires forall y :: y in front ==> Digit(y, e) < d
    requires forall y :: y in back ==> Digit(y, e) == d
    ensures SortedBelow(front + back, 10 * e)
    ensures forall y :: y in front + back ==> Digit(y, e) < d + 1
  {
    forall i, j | 0 <= i < j < |front| + |back|
      ensures (front + back)[i] % (10 * e) <= (front + back)[j] % (10 * e)
    {
      BucketsPair(front, back, e, d, i, j);
    }
  }

  lemma BucketsPair(front: seq<int>, back: seq<int>, e: int, d: int, i: int, j: int)
    requires e > 0 && 0 <= d && SortedBelow(front, 10 * e) && SortedBelow(back, e)
    requires forall y :: y in front ==> Digit(y, e) < d
    requires forall y :: y in back ==> Digit(y, e) == d
    requires 0 <= i < j < |front| + |back|
    ensures (front + back)[i] % (10 * e) <= (front + back)[j] % (10 * e)
  {
    var x, y := (front + back)[i], (front + back)[j];
    ModSplit(x, e);
    ModSplit(y, e);
    if i < |front| && |front| <= j {
      assert x in front && y in back;
      assert Digit(x, e) * e + x % e < (Digit(x, e) + 1) * e;
      assert (Digit(x, e) + 1) * e <= Digit(y, e) * e by {
        MulMono(Digit(x, e) + 1, Digit(y, e), e);
      }
    } else if |front| <= i {
      assert x == back[i - |front|] && y == back[j - |front|];
      assert x in back && y in back;
    }
  }

  lemma MulMono(a: int, b: int, e: int)
    requires a <= b && 0 < e
    ensures a * e <= b * e
  {
  }

  /** One stable pass by the digit at e: each digit's elements in order, digit 0 first, copied back. */
  method DistributeByDigit(a: array<int>, e: int)
    requires e > 0
    modifies a
    ensures a[..] == DigitPass(old(a[..]), e)
  {
    var s := a[..];
    var out: seq<int> := [];
    var d := 0;
    while d < 10
      invariant 0 <= d <= 10 && out == Buckets(s, e, d)
    {
      var i := 0;
      while i < |s|
        invariant 0 <= i <= |s| && out == Buckets(s, e, d) + Bucket(s[..i], e, d)
      {
        assert s[..i + 1][..i] == s[..i];
        if Digit(s[i], e) == d {
          out := out + [s[i]];
        }
        i := i + 1;
      }
      assert s[..|s|] == s;
      d := d + 1;
    }
    assert |out| == |s| by {
      DigitPassPermutes(s, e);
      assert |multiset(out)| == |multiset(s)|;
    }
    var k := 0;
    while k < a.Length
      invariant 0 <= k <= a.Length
      invariant forall t :: 0 <= t < k ==> a[t] == out[t]
    {
      a[k] := out[k];
      k := k + 1;
    }
  }

  /** A digit pass keeps the elements and extends the sorted suffix by one decimal place. */
  lemma DigitPassSorts(s: seq<int>, e: int)
    requires e > 0 && SortedBelow(s, e)
    ensures SortedBelow(DigitPass(s, e), 10 * e) && multiset(DigitPass(s, e)) == multiset(s)
  {
    DigitPassPermutes(s, e);
    BucketsSorted(s, e, 10);
  }

  /** Once the place value exceeds every element, sorting below it is sorting outright. */
  lemma SortedBelowAll(s: seq<int>, e: int)
    requires e > 0 && SortedBelow(s, e)
    requires forall i :: 0 <= i < |s| ==> 0 <= s[i] < e
    ensures Sorted(s)
  {
    forall i, j | 0 <= i < j < |s| ensures s[i] <= s[j] {
      assert s[i] % e == s[i] && s[j] % e == s[j];
    }
  }

  /** The largest element of a non-negative array, or 0 when it is empty. */
  method MaxValue(a: array<int>) returns (max: int)
    requires forall i :: 0 <= i < a.Length ==> 0 <= a[i]
    ensures 0 <= max && forall i :: 0 <= i < a.Length ==> a[i] <= max
    ensures max == 0 || exists i :: 0 <= i < a.Length && a[i] == max
  {
    max := 0;
    var i := 0;
    while i < a.Length
      invariant 0 <= i <= a.Length && 0 <= max
      invariant forall k :: 0 <= k < i ==> a[k] <= max
      invariant max == 0 || exists k :: 0 <= k < i && a[k] == max
    {
      if a[i] > max {
        max := a[i];
      }
      i := i + 1;
    }
  }

  /**
   * `radixSort(arr)`: least-significant digit first, one stable pass per decimal place
   * while the place value does not exceed the largest element.
   */
  method RadixSort(a: array<int>)
    requires forall i :: 0 <= i < a.Length ==> 0 <= a[i]
    modifies a
    ensures Sorted(a[..]) && multiset(a[..]) == multiset(old(a[..]))
  {
    var max := MaxValue(a);
    var e := 1;
    while e <= max
      invariant e > 0 && SortedBelow(a[..], e) && multiset(a[..]) == multiset(old(a[..]))
      invariant forall i :: 0 <= i < a.Length ==> 0 <= a[i] <= max
      decreases max - e
    {
      ghost var before := a[..];
      DistributeByDigit(a, e);
      DigitPassSorts(before, e);
      InRangeKept(before, a[..], max);
      e := e * 10;
    }
    SortedBelowAll(a[..], e);
  }

  /** A permutation of values in [0, max] holds values in [0, max]. */
  lemma InRangeKept(s: seq<int>, t: seq<int>, max: int)
    requires multiset(t) == multiset(s)
    requires forall i :: 0 <= i < |s| ==> 0 <= s[i] <= max
    ensures forall i :: 0 <= i < |t| ==> 0 <= t[i] <= max
  {
    forall i | 0 <= i < |t| ensures 0 <= t[i] <= max {
      assert t[i] in multiset(s);
    }
  }
}
