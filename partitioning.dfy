/**
 * Lomuto partitioning and the quicksort built on it, as functions on sequences.
 * The array methods of ArrayUtils are proved equal to these functions; the order
 * and permutation properties are proved here, once. Ranges are half-open [lo, hi):
 * the Java methods take an inclusive upper index, which is hi - 1 here.
 * Elements are compared through an integer key, so that the same definitions
 * serve plain int arrays (the identity key) and rows carried along with a key.
 */
module Partitioning {

  /** The elements of s at i and j exchanged. */
  function Swap<T>(s: seq<T>, i: int, j: int): (r: seq<T>)
    requires 0 <= i < |s| && 0 <= j < |s|
    ensures |r| == |s| && r[i] == s[j] && r[j] == s[i]
    ensures forall k :: 0 <= k < |s| && k != i && k != j ==> r[k] == s[k]
  {
    s[i := s[j]][j := s[i]]
  }

  lemma SwapMultiset<T>(s: seq<T>, i: int, j: int)
    requires 0 <= i < |s| && 0 <= j < |s|
    ensures multiset(Swap(s, i, j)) == multiset(s)
  {
  }

  /**
   * Lomuto's scan of positions j .. hi - 1 against the pivot: an element whose key is at most
   * the pivot is swapped down to the boundary b, which then moves up. The final array and boundary.
   */
  function Scan<T>(s: seq<T>, key: T -> int, pivot: int, b: int, j: int, hi: int): (r: (seq<T>, int))
    requires 0 <= b <= j <= hi <= |s|
    ensures |r.0| == |s| && b <= r.1 <= hi
    decreases hi - j
  {
    if j == hi then (s, b)
    else if key(s[j]) <= pivot then Scan(Swap(s, b, j), key, pivot, b + 1, j + 1, hi)
    else Scan(s, key, pivot, b, j + 1, hi)
  }

  /**
   * `partition` of [lo, hi): the last element is the pivot; after the scan it is swapped to the
   * boundary. The rearranged array and the pivot's final index.
   */
  function Lomuto<T>(s: seq<T>, key: T -> int, lo: int, hi: int): (r: (seq<T>, int))
    requires 0 <= lo < hi <= |s|
    ensures |r.0| == |s| && lo <= r.1 < hi
  {
    var (t, b) := Scan(s, key, key(s[hi - 1]), lo, lo, hi - 1);
    (Swap(t, b, hi - 1), b)
  }

  /** Quicksort of [lo, hi): partition, then sort the part left of the pivot, then the part right of it. */
  function QuickSorted<T>(s: seq<T>, key: T -> int, lo: int, hi: int): (r: seq<T>)
    requires 0 <= lo <= hi <= |s|
    ensures |r| == |s|
    decreases hi - lo
  {
    if hi - lo <= 1 then s
    else
      var (t, p) := Lomuto(s, key, lo, hi);
      QuickSorted(QuickSorted(t, key, lo, p), key, p + 1, hi)
  }

  /** Keys never decrease over [lo, hi). */
  predicate SortedOn<T>(s: seq<T>, key: T -> int, lo: int, hi: int)
    requires 0 <= lo <= hi <= |s|
  {
    forall i, j :: lo <= i < j < hi ==> key(s[i]) <= key(s[j])
  }

  /** Within [lo, hi), no key left of m exceeds a key from m on. */
  predicate SplitAt<T>(s: seq<T>, key: T -> int, lo: int, m: int, hi: int)
    requires 0 <= lo <= m <= hi <= |s|
  {
    forall i, j :: lo <= i < m <= j < hi ==> key(s[i]) <= key(s[j])
  }

  /** t is s with only [lo, hi) rearranged. */
  predicate Rearranged<T(==)>(s: seq<T>, t: seq<T>, lo: int, hi: int)
    requires 0 <= lo <= hi <= |s|
  {
    |t| == |s| && t[..lo] == s[..lo] && t[hi..] == s[hi..] && multiset(t[lo..hi]) == multiset(s[lo..hi])
  }

  /** Before the scan reaches j: keys in [lo, b) are at most the pivot, keys in [b, j) above it. */
  predicate Scanned<T>(s: seq<T>, key: T -> int, pivot: int, lo: int, b: int, j: int)
    requires 0 <= lo <= b <= j <= |s|
  {
    (forall k :: lo <= k < b ==> key(s[k]) <= pivot) && (forall k :: b <= k < j ==> pivot < key(s[k]))
  }

  /** Rearranging a range keeps the whole multiset. */
  lemma RearrangedMultiset<T>(s: seq<T>, t: seq<T>, lo: int, hi: int)
    requires 0 <= lo <= hi <= |s| && Rearranged(s, t, lo, hi)
    ensures multiset(t) == multiset(s)
  {
    assert s == s[..lo] + s[lo..hi] + s[hi..];
    assert t == t[..lo] + t[lo..hi] + t[hi..];
  }

  /** Rearrangements compose, and a rearrangement of a sub-range rearranges the range. */
  lemma RearrangedTrans<T>(s: seq<T>, t: seq<T>, u: seq<T>, lo: int, hi: int, a: int, b: int)
    requires 0 <= lo <= a <= b <= hi <= |s|
    requires Rearranged(s, t, lo, hi) && Rearranged(t, u, a, b)
    ensures Rearranged(s, u, lo, hi)
  {
    assert u[..lo] == t[..lo] by {
      assert u[..lo] == u[..a][..lo] && t[..lo] == t[..a][..lo];
    }
    assert u[hi..] == t[hi..] by {
      assert u[hi..] == u[b..][hi - b..] && t[hi..] == t[b..][hi - b..];
    }
    assert t[lo..hi] == t[lo..a] + t[a..b] + t[b..hi];
    assert u[lo..hi] == u[lo..a] + u[a..b] + u[b..hi];
    assert u[lo..a] == t[lo..a] by {
      assert u[lo..a] == u[..a][lo..] && t[lo..a] == t[..a][lo..];
    }
    assert u[b..hi] == t[b..hi] by {
      assert u[b..hi] == u[b..][..hi - b] && t[b..hi] == t[b..][..hi - b];
    }
  }

  /** Every element of a rearranged range was in the range before. */
  lemma RearrangedFrom<T>(s: seq<T>, t: seq<T>, lo: int, hi: int, k: int)
    requires 0 <= lo <= k < hi <= |s| && Rearranged(s, t, lo, hi)
    ensures exists k' :: lo <= k' < hi && t[k] == s[k']
  {
    assert t[k] == t[lo..hi][k - lo];
    assert t[k] in multiset(s[lo..hi]);
    var i :| 0 <= i < hi - lo && s[lo..hi][i] == t[k];
    assert s[lo + i] == t[k];
  }

  lemma RearrangedRefl<T>(s: seq<T>, lo: int, hi: int)
    requires 0 <= lo <= hi <= |s|
    ensures Rearranged(s, s, lo, hi)
  {
  }

  /** Swapping two positions inside a range rearranges that range. */
  lemma SwapRearranged<T>(s: seq<T>, i: int, j: int, lo: int, hi: int)
    requires 0 <= lo <= i < hi <= |s| && lo <= j < hi
    ensures Rearranged(s, Swap(s, i, j), lo, hi)
  {
    var t := Swap(s, i, j);
    assert t[lo..hi] == Swap(s[lo..hi], i - lo, j - lo);
    SwapMultiset(s[lo..hi], i - lo, j - lo);
  }

  /** Keys bounded above by x over a range stay so bounded when the range is rearranged. */
  lemma AtMostKept<T>(s: seq<T>, t: seq<T>, key: T -> int, lo: int, hi: int, x: int)
    requires 0 <= lo <= hi <= |s| && Rearranged(s, t, lo, hi)
    requires forall k :: lo <= k < hi ==> key(s[k]) <= x
    ensures forall k :: lo <= k < hi ==> key(t[k]) <= x
  {
    forall k | lo <= k < hi ensures key(t[k]) <= x {
      RearrangedFrom(s, t, lo, hi, k);
    }
  }

  /** Keys bounded below by x over a range stay so bounded when the range is rearranged. */
  lemma AboveKept<T>(s: seq<T>, t: seq<T>, key: T -> int, lo: int, hi: int, x: int)
    requires 0 <= lo <= hi <= |s| && Rearranged(s, t, lo, hi)
    requires forall k :: lo <= k < hi ==> x < key(s[k])
    ensures forall k :: lo <= k < hi ==> x < key(t[k])
  {
    forall k | lo <= k < hi ensures x < key(t[k]) {
      RearrangedFrom(s, t, lo, hi, k);
    }
  }

  /** The scan keeps its invariant to the end and only rearranges [lo, hi). */
  lemma {:induction false} ScanSpec<T>(s: seq<T>, key: T -> int, pivot: int, lo: int, b: int, j: int, hi: int)
    requires 0 <= lo <= b <= j <= hi <= |s| && Scanned(s, key, pivot, lo, b, j)
    ensures Scanned(Scan(s, key, pivot, b, j, hi).0, key, pivot, lo, Scan(s, key, pivot, b, j, hi).1, hi)
    ensures Rearranged(s, Scan(s, key, pivot, b, j, hi).0, lo, hi)
    decreases hi - j
  {
    if j == hi {
      RearrangedRefl(s, lo, hi);
    } else if key(s[j]) <= pivot {
      var s' := Swap(s, b, j);
      ScannedSwap(s, key, pivot, lo, b, j);
      SwapRearranged(s, b, j, lo, hi);
      ScanSpec(s', key, pivot, lo, b + 1, j + 1, hi);
      RearrangedTrans(s, s', Scan(s', key, pivot, b + 1, j + 1, hi).0, lo, hi, lo, hi);
    } else {
      ScanSpec(s, key, pivot, lo, b, j + 1, hi);
    }
  }

  /** A small key met by the scan is swapped to the boundary, which moves up. */
  lemma ScannedSwap<T>(s: seq<T>, key: T -> int, pivot: int, lo: int, b: int, j: int)
    requires 0 <= lo <= b <= j < |s| && Scanned(s, key, pivot, lo, b, j) && key(s[j]) <= pivot
    ensures Scanned(Swap(s, b, j), key, pivot, lo, b + 1, j + 1)
  {
  }

  /**
   * `partition` puts the old last element at the returned index, keys at most its key to the
   * left of it and larger keys to the right, and only rearranges [lo, hi).
   */
  lemma LomutoSpec<T>(s: seq<T>, key: T -> int, lo: int, hi: int)
    requires 0 <= lo < hi <= |s|
    ensures Rearranged(s, Lomuto(s, key, lo, hi).0, lo, hi)
    ensures Lomuto(s, key, lo, hi).0[Lomuto(s, key, lo, hi).1] == s[hi - 1]
    ensures forall k :: lo <= k < Lomuto(s, key, lo, hi).1 ==> key(Lomuto(s, key, lo, hi).0[k]) <= key(s[hi - 1])
    ensures forall k :: Lomuto(s, key, lo, hi).1 < k < hi ==> key(s[hi - 1]) < key(Lomuto(s, key, lo, hi).0[k])
  {
    var pivot := key(s[hi - 1]);
    var (t0, b) := Scan(s, key, pivot, lo, lo, hi - 1);
    ScanSpec(s, key, pivot, lo, lo, lo, hi - 1);
    RearrangedRefl(s, lo, hi);
    RearrangedTrans(s, s, t0, lo, hi, lo, hi - 1);
    assert t0[hi - 1] == t0[hi - 1..][0] == s[hi - 1];
    var t := Swap(t0, b, hi - 1);
    SwapRearranged(t0, b, hi - 1, lo, hi);
    RearrangedTrans(s, t0, t, lo, hi, lo, hi);
  }

  /** Quicksort sorts [lo, hi) and only rearranges it. */
  lemma {:induction false} QuickSortedSpec<T>(s: seq<T>, key: T -> int, lo: int, hi: int)
    requires 0 <= lo <= hi <= |s|
    ensures Rearranged(s, QuickSorted(s, key, lo, hi), lo, hi)
    ensures SortedOn(QuickSorted(s, key, lo, hi), key, lo, hi)
    decreases hi - lo
  {
    if hi - lo <= 1 {
      QuickSortedShort(s, key, lo, hi);
    } else {
      var t, p := Lomuto(s, key, lo, hi).0, Lomuto(s, key, lo, hi).1;
      var left := QuickSorted(t, key, lo, p);
      QuickSortedSpec(t, key, lo, p);
      QuickSortedSpec(left, key, p + 1, hi);
      QuickSortedLevel(s, key, lo, hi, t, p, left, QuickSorted(left, key, p + 1, hi));
    }
  }

  /** A range of at most one element is left as it is, and is sorted. */
  lemma QuickSortedShort<T>(s: seq<T>, key: T -> int, lo: int, hi: int)
    requires 0 <= lo <= hi <= |s| && hi - lo <= 1
    ensures QuickSorted(s, key, lo, hi) == s
    ensures Rearranged(s, s, lo, hi) && SortedOn(s, key, lo, hi)
  {
  }

  /** Partitioning, then sorting both sides, rearranges and sorts the whole range. */
  lemma QuickSortedCompose<T>(s: seq<T>, t: seq<T>, left: seq<T>, r: seq<T>, key: T -> int, lo: int, p: int, hi: int)
    requires 0 <= lo <= p < hi <= |s|
    requires Rearranged(s, t, lo, hi)
    requires forall k :: lo <= k < p ==> key(t[k]) <= key(t[p])
    requires forall k :: p < k < hi ==> key(t[p]) < key(t[k])
    requires Rearranged(t, left, lo, p) && SortedOn(left, key, lo, p)
    requires Rearranged(left, r, p + 1, hi) && SortedOn(r, key, p + 1, hi)
    ensures Rearranged(s, r, lo, hi) && SortedOn(r, key, lo, hi)
  {
    RearrangedTrans(s, t, left, lo, hi, lo, p);
    RearrangedTrans(s, left, r, lo, hi, p + 1, hi);
    QuickSortedJoin(t, left, r, key, lo, p, hi);
  }

  /** One level of quicksort: partition, then sort below and above the pivot. */
  lemma QuickSortedLevel<T>(s: seq<T>, key: T -> int, lo: int, hi: int, t: seq<T>, p: int, left: seq<T>, r: seq<T>)
    requires 0 <= lo <= hi <= |s| && hi - lo > 1
    requires t == Lomuto(s, key, lo, hi).0 && p == Lomuto(s, key, lo, hi).1
    requires left == QuickSorted(t, key, lo, p) && r == QuickSorted(left, key, p + 1, hi)
    requires Rearranged(t, left, lo, p) && SortedOn(left, key, lo, p)
    requires Rearranged(left, r, p + 1, hi) && SortedOn(r, key, p + 1, hi)
    ensures QuickSorted(s, key, lo, hi) == r
    ensures Rearranged(s, r, lo, hi) && SortedOn(r, key, lo, hi)
  {
    QuickSortedUnfold(s, key, lo, hi, t, p);
    LomutoSpec(s, key, lo, hi);
    assert t[p] == s[hi - 1];
    assert forall k :: lo <= k < p ==> key(t[k]) <= key(t[p]);
    assert forall k :: p < k < hi ==> key(t[p]) < key(t[k]);
    QuickSortedCompose(s, t, left, r, key, lo, p, hi);
  }

  lemma QuickSortedUnfold<T>(s: seq<T>, key: T -> int, lo: int, hi: int, t: seq<T>, p: int)
    requires 0 <= lo <= hi <= |s| && hi - lo > 1
    requires t == Lomuto(s, key, lo, hi).0 && p == Lomuto(s, key, lo, hi).1
    ensures QuickSorted(s, key, lo, hi) == QuickSorted(QuickSorted(t, key, lo, p), key, p + 1, hi)
  {
  }

  /** The two sorted halves around the pivot make a sorted range. */
  lemma QuickSortedJoin<T>(t: seq<T>, left: seq<T>, r: seq<T>, key: T -> int, lo: int, p: int, hi: int)
    requires 0 <= lo <= p < hi <= |t|
    requires forall k :: lo <= k < p ==> key(t[k]) <= key(t[p])
    requires forall k :: p < k < hi ==> key(t[p]) < key(t[k])
    requires Rearranged(t, left, lo, p) && SortedOn(left, key, lo, p)
    requires Rearranged(left, r, p + 1, hi) && SortedOn(r, key, p + 1, hi)
    ensures SortedOn(r, key, lo, hi)
  {
    AtMostKept(t, left, key, lo, p, key(t[p]));
    assert left[p] == left[p..][0] == t[p..][0] == t[p];
    assert forall k :: p < k < hi ==> left[k] == left[p..][k - p] == t[p..][k - p] == t[k];
    AboveKept(left, r, key, p + 1, hi, key(t[p]));
    assert forall k :: 0 <= k <= p ==> r[k] == r[..p + 1][k] == left[..p + 1][k] == left[k];
  }

  /** Outside the rearranged range nothing moved. */
  lemma RearrangedOutside<T>(s: seq<T>, t: seq<T>, lo: int, hi: int, k: int)
    requires 0 <= lo <= hi <= |s| && Rearranged(s, t, lo, hi) && 0 <= k < |s| && (k < lo || hi <= k)
    ensures t[k] == s[k]
  {
    if k < lo {
      assert t[k] == t[..lo][k];
    } else {
      assert t[k] == t[hi..][k - hi];
    }
  }

  /** Rearranging a range that lies wholly on one side of m keeps the array split at m. */
  lemma SplitKept<T>(s: seq<T>, t: seq<T>, key: T -> int, lo: int, hi: int, m: int)
    requires 0 <= lo <= hi <= |s| && 0 <= m <= |s| && (hi <= m || m <= lo)
    requires Rearranged(s, t, lo, hi) && SplitAt(s, key, 0, m, |s|)
    ensures SplitAt(t, key, 0, m, |s|)
  {
    forall i, j | 0 <= i < m <= j < |s| ensures key(t[i]) <= key(t[j]) {
      var i', j' := i, j;
      if lo <= i < hi {
        RearrangedFrom(s, t, lo, hi, i);
        i' :| lo <= i' < hi && t[i] == s[i'];
      } else {
        RearrangedOutside(s, t, lo, hi, i);
      }
      if lo <= j < hi {
        RearrangedFrom(s, t, lo, hi, j);
        j' :| lo <= j' < hi && t[j] == s[j'];
      } else {
        RearrangedOutside(s, t, lo, hi, j);
      }
      assert i' < m <= j';
    }
  }

  /**
   * Partitioning [lo, hi) of an array already split at lo and at hi splits it
   * at the pivot's index as well, on either side of the pivot.
   */
  lemma SplitAtPivot<T>(s: seq<T>, key: T -> int, lo: int, hi: int)
    requires 0 <= lo < hi <= |s| && SplitAt(s, key, 0, lo, |s|) && SplitAt(s, key, 0, hi, |s|)
    ensures SplitAt(Lomuto(s, key, lo, hi).0, key, 0, Lomuto(s, key, lo, hi).1, |s|)
    ensures SplitAt(Lomuto(s, key, lo, hi).0, key, 0, Lomuto(s, key, lo, hi).1 + 1, |s|)
  {
    var (t, p) := Lomuto(s, key, lo, hi);
    LomutoSpec(s, key, lo, hi);
    var pv := key(s[hi - 1]);
    assert pv == key(t[p]);
    forall i, j | 0 <= i <= p <= j < |s| && i < j ensures key(t[i]) <= key(t[j]) {
      PivotPair(s, t, key, lo, hi, p, i, j);
    }
  }

  /** One pair of positions on either side of the pivot, for SplitAtPivot. */
  lemma PivotPair<T>(s: seq<T>, t: seq<T>, key: T -> int, lo: int, hi: int, p: int, i: int, j: int)
    requires 0 <= lo <= p < hi <= |s| && SplitAt(s, key, 0, lo, |s|) && SplitAt(s, key, 0, hi, |s|)
    requires Rearranged(s, t, lo, hi) && key(t[p]) == key(s[hi - 1])
    requires forall k :: lo <= k < p ==> key(t[k]) <= key(t[p])
    requires forall k :: p < k < hi ==> key(t[p]) < key(t[k])
    requires 0 <= i <= p <= j < |s| && i < j
    ensures key(t[i]) <= key(t[j])
  {
    if i < lo {
      RearrangedOutside(s, t, lo, hi, i);
      if j < hi {
        RearrangedFrom(s, t, lo, hi, j);
        var j' :| lo <= j' < hi && t[j] == s[j'];
      } else {
        RearrangedOutside(s, t, lo, hi, j);
      }
    } else if j >= hi {
      RearrangedOutside(s, t, lo, hi, j);
      assert key(s[hi - 1]) <= key(s[j]);
    }
  }
}
