/**
 * The in-place members of ArrayUtils: partition, quickSelect, quickSort and multiQuickSort.
 * Each method is proved to leave the array exactly as the matching function of
 * Partitioning describes, and the order and permutation facts come from the lemmas there.
 */
module ArraySorting {
  import opened Wrappers
  import opened IntSeqs
  import opened Partitioning
  import ArrayUtils

  /** The key of a plain int array: the value itself. */
  function Id(x: int): int { x }

  /** Lomuto partition of a[lo .. hi - 1] around its last element; returns the pivot's new index. */
  method PartitionRange<T>(a: array<T>, key: T -> int, lo: int, hi: int) returns (p: int)
    requires 0 <= lo < hi <= a.Length
    modifies a
    ensures (a[..], p) == Lomuto(old(a[..]), key, lo, hi)
  {
    var pivot := key(a[hi - 1]);
    var b, j := lo, lo;
    while j < hi - 1
      invariant lo <= b <= j <= hi - 1
      invariant Scan(a[..], key, pivot, b, j, hi - 1) == Scan(old(a[..]), key, pivot, lo, lo, hi - 1)
      decreases hi - j
    {
      if key(a[j]) <= pivot {
        ghost var before := a[..];
        a[b], a[j] := a[j], a[b];
        assert a[..] == Swap(before, b, j);
        b := b + 1;
      }
      j := j + 1;
    }
    ghost var scanned := a[..];
    a[b], a[hi - 1] := a[hi - 1], a[b];
    assert a[..] == Swap(scanned, b, hi - 1);
    p := b;
  }

  /**
   * `partition(arr)`: the whole array, pivoting on its last element. The pivot lands at the
   * returned index, smaller-or-equal values left of it, larger ones right of it.
   */
  method Partition(a: array<int>) returns (p: int)
    requires a.Length > 0
    modifies a
    ensures 0 <= p < a.Length && a[p] == old(a[a.Length - 1])
    ensures forall k :: 0 <= k < p ==> a[k] <= a[p]
    ensures forall k :: p < k < a.Length ==> a[p] < a[k]
    ensures multiset(a[..]) == multiset(old(a[..]))
    ensures (a[..], p) == Lomuto(old(a[..]), Id, 0, a.Length)
  {
    p := PartitionRange(a, Id, 0, a.Length);
    LomutoSpec(old(a[..]), Id, 0, a.Length);
    RearrangedMultiset(old(a[..]), a[..], 0, a.Length);
  }

  /** Recursive quicksort of a[lo .. hi - 1] by key. */
  method QuickSortRange<T>(a: array<T>, key: T -> int, lo: int, hi: int)
    requires 0 <= lo <= hi <= a.Length
    modifies a
    ensures a[..] == QuickSorted(old(a[..]), key, lo, hi)
    decreases hi - lo
  {
    if hi - lo > 1 {
      var p := PartitionRange(a, key, lo, hi);
      QuickSortRange(a, key, lo, p);
      QuickSortRange(a, key, p + 1, hi);
    }
  }

  /** `quickSort(arr)`: the array ends non-decreasing and holds the same values. */
  method QuickSort(a: array<int>)
    modifies a
    ensures Sorted(a[..]) && multiset(a[..]) == multiset(old(a[..]))
    ensures a[..] == QuickSorted(old(a[..]), Id, 0, a.Length)
  {
    QuickSortRange(a, Id, 0, a.Length);
    QuickSortedSpec(old(a[..]), Id, 0, a.Length);
    RearrangedMultiset(old(a[..]), a[..], 0, a.Length);
  }

  /**
   * `quickSelect(arr, k)`: rearranges the array so that the k-th smallest value sits at
   * index k - 1, with nothing larger before it and nothing smaller after it, and returns
   * k - 1. A k outside 1 .. length is refused and leaves the array alone.
   */
  method QuickSelect(a: array<int>, k: int) returns (r: Result<int, string>)
    modifies a
    ensures r.Failure? <==> k < 1 || a.Length < k
    ensures r.Failure? ==> a[..] == old(a[..])
    ensures r.Success? ==> r.value == k - 1
    ensures r.Success? ==> SplitAt(a[..], Id, 0, k - 1, a.Length) && SplitAt(a[..], Id, 0, k, a.Length)
    ensures multiset(a[..]) == multiset(old(a[..]))
  {
    if k < 1 || a.Length < k {
      return Failure("k must be between 1 and the array length");
    }
    var lo, hi := 0, a.Length;
    while hi - lo > 1
      invariant 0 <= lo <= k - 1 < hi <= a.Length
      invariant SplitAt(a[..], Id, 0, lo, a.Length) && SplitAt(a[..], Id, 0, hi, a.Length)
      invariant multiset(a[..]) == multiset(old(a[..]))
      decreases hi - lo
    {
      ghost var before := a[..];
      var p := PartitionRange(a, Id, lo, hi);
      LomutoSpec(before, Id, lo, hi);
      RearrangedMultiset(before, a[..], lo, hi);
      SplitAtPivot(before, Id, lo, hi);
      if p == k - 1 {
        lo, hi := p, p + 1;
      } else if k - 1 < p {
        SplitKept(before, a[..], Id, lo, hi, lo);
        hi := p;
      } else {
        SplitKept(before, a[..], Id, lo, hi, hi);
        lo := p + 1;
      }
    }
    r := Success(k - 1);
  }

  /** Each key paired with its index. */
  function Tagged(keys: seq<int>): (r: seq<(int, int)>)
    ensures |r| == |keys| && forall i :: 0 <= i < |keys| ==> r[i] == (keys[i], i)
  {
    seq(|keys|, i requires 0 <= i < |keys| => (keys[i], i))
  }

  function Fst(x: (int, int)): int { x.0 }

  /** The second components. */
  function Snds(s: seq<(int, int)>): (r: seq<int>)
    ensures |r| == |s| && forall i :: 0 <= i < |s| ==> r[i] == s[i].1
  {
    seq(|s|, i requires 0 <= i < |s| => s[i].1)
  }

  lemma SndsAppend(s: seq<(int, int)>, t: seq<(int, int)>)
    ensures Snds(s + t) == Snds(s) + Snds(t)
  {
  }

  /** Reordering the pairs reorders their second components the same way. */
  lemma {:induction false} SndsMultiset(s: seq<(int, int)>, t: seq<(int, int)>)
    requires multiset(s) == multiset(t)
    ensures multiset(Snds(s)) == multiset(Snds(t))
    decreases |s|
  {
    if s != [] {
      var x := s[0];
      assert x in multiset(t);
      var i :| 0 <= i < |t| && t[i] == x;
      var rest := t[..i] + t[i + 1..];
      assert multiset(s[1..]) == multiset(rest) by {
        assert t == t[..i] + [t[i]] + t[i + 1..];
        assert s == [x] + s[1..];
        MultisetCancel(x, multiset(s[1..]), multiset(rest));
      }
      SndsMultiset(s[1..], rest);
      SndsCons(s);
      SndsRemove(t, i);
    }
  }

  lemma SndsCons(s: seq<(int, int)>)
    requires s != []
    ensures multiset(Snds(s)) == multiset{s[0].1} + multiset(Snds(s[1..]))
  {
    assert Snds(s) == [s[0].1] + Snds(s[1..]);
  }

  lemma SndsRemove(t: seq<(int, int)>, i: int)
    requires 0 <= i < |t|
    ensures multiset(Snds(t)) == multiset{t[i].1} + multiset(Snds(t[..i] + t[i + 1..]))
  {
    assert Snds(t) == Snds(t[..i]) + [t[i].1] + Snds(t[i + 1..]);
    SndsAppend(t[..i], t[i + 1..]);
  }

  /** Quicksorting the tagged keys keeps every pair a key with its own index. */
  lemma TaggedSorted(keys: seq<int>)
    ensures forall i :: 0 <= i < |keys| ==>
      var t := QuickSorted(Tagged(keys), Fst, 0, |keys|);
      0 <= t[i].1 < |keys| && t[i] == (keys[t[i].1], t[i].1)
  {
    var tagged := Tagged(keys);
    var t := QuickSorted(tagged, Fst, 0, |keys|);
    QuickSortedSpec(tagged, Fst, 0, |keys|);
    RearrangedMultiset(tagged, t, 0, |keys|);
    forall i | 0 <= i < |t| ensures 0 <= t[i].1 < |keys| && t[i] == (keys[t[i].1], t[i].1) {
      assert t[i] in multiset(tagged);
    }
  }

  /**
   * The reordering multiQuickSort applies to every array: the original index of each
   * element once the (key, index) pairs are quicksorted by key.
   */
  function SortPermutation(keys: seq<int>): (r: seq<int>)
    ensures |r| == |keys| && forall i :: 0 <= i < |r| ==> 0 <= r[i] < |keys|
  {
    TaggedSorted(keys);
    Snds(QuickSorted(Tagged(keys), Fst, 0, |keys|))
  }

  /** It is a permutation of the indices, and it puts the keys in non-decreasing order. */
  lemma SortPermutationSpec(keys: seq<int>)
    ensures IsPermutation(SortPermutation(keys))
    ensures Sorted(Apply(keys, SortPermutation(keys)))
  {
    var tagged := Tagged(keys);
    var t := QuickSorted(tagged, Fst, 0, |keys|);
    QuickSortedSpec(tagged, Fst, 0, |keys|);
    RearrangedMultiset(tagged, t, 0, |keys|);
    SndsMultiset(tagged, t);
    assert Snds(tagged) == Range(0, |keys|);
    TaggedSorted(keys);
  }

  /** The rows can be sorted together: the index names one of them and all have its length. */
  predicate Sortable(sortIndex: int, rows: seq<array<int>>) {
    0 <= sortIndex < |rows| && forall i :: 0 <= i < |rows| ==> rows[i].Length == rows[sortIndex].Length
  }

  /**
   * `multiQuickSort(sortIndex, arrays...)`: sorts the array at sortIndex and moves the elements
   * of every other array exactly as that one's. An index outside the arrays or arrays of
   * different lengths leave everything untouched.
   */
  method MultiQuickSort(sortIndex: int, rows: seq<array<int>>)
    requires forall i, j :: 0 <= i < j < |rows| ==> rows[i] != rows[j]
    modifies rows
    ensures !Sortable(sortIndex, rows) ==> forall i :: 0 <= i < |rows| ==> rows[i][..] == old(rows[i][..])
    ensures Sortable(sortIndex, rows) ==> Sorted(rows[sortIndex][..])
    ensures Sortable(sortIndex, rows) ==>
      forall i :: 0 <= i < |rows| ==> rows[i][..] == Apply(old(rows[i][..]), SortPermutation(old(rows[sortIndex][..])))
  {
    if !Sortable(sortIndex, rows) {
      return;
    }
    var perm := SortingPermutation(rows[sortIndex]);
    SortPermutationSpec(old(rows[sortIndex][..]));
    PermuteAll(rows, perm);
  }

  /** Sorts (key, index) pairs of a copy of the keys and reads off the indices. */
  method SortingPermutation(keys: array<int>) returns (perm: seq<int>)
    ensures perm == SortPermutation(keys[..])
  {
    var tagged := new (int, int)[keys.Length](i requires 0 <= i < keys.Length reads keys => (keys[i], i));
    assert tagged[..] == Tagged(keys[..]);
    QuickSortRange(tagged, Fst, 0, tagged.Length);
    perm := Snds(tagged[..]);
  }

  /** Reorders every one of the (distinct) arrays by the same permutation. */
  method PermuteAll(rows: seq<array<int>>, perm: seq<int>)
    requires forall i, j :: 0 <= i < j < |rows| ==> rows[i] != rows[j]
    requires forall i :: 0 <= i < |rows| ==> rows[i].Length == |perm|
    requires forall i :: 0 <= i < |perm| ==> 0 <= perm[i] < |perm|
    modifies rows
    ensures forall i :: 0 <= i < |rows| ==> rows[i][..] == Apply(old(rows[i][..]), perm)
  {
    var r := 0;
    while r < |rows|
      invariant 0 <= r <= |rows|
      invariant forall i :: 0 <= i < r ==> rows[i][..] == Apply(old(rows[i][..]), perm)
      invariant forall i :: r <= i < |rows| ==> rows[i][..] == old(rows[i][..])
    {
      Permute(rows[r], perm);
      r := r + 1;
    }
  }

  /** `multiQuickSort(arrays...)`: sorts by the first array. */
  method MultiQuickSortFirst(rows: seq<array<int>>)
    requires forall i, j :: 0 <= i < j < |rows| ==> rows[i] != rows[j]
    modifies rows
    ensures !Sortable(0, rows) ==> forall i :: 0 <= i < |rows| ==> rows[i][..] == old(rows[i][..])
    ensures Sortable(0, rows) ==> Sorted(rows[0][..])
    ensures Sortable(0, rows) ==>
      forall i :: 0 <= i < |rows| ==> rows[i][..] == Apply(old(rows[i][..]), SortPermutation(old(rows[0][..])))
  {
    MultiQuickSort(0, rows);
  }

  /** Moves the element at p[i] to index i, for every i. */
  method Permute<T>(a: array<T>, p: seq<int>)
    requires |p| == a.Length && forall i :: 0 <= i < |p| ==> 0 <= p[i] < a.Length
    modifies a
    ensures a[..] == Apply(old(a[..]), p)
  {
    var copy := a[..];
    var i := 0;
    while i < a.Length
      invariant 0 <= i <= a.Length
      invariant forall k :: 0 <= k < i ==> a[k] == copy[p[k]]
    {
      a[i] := copy[p[i]];
      i := i + 1;
    }
  }

  /**
   * `merge(arr, lo, mid, hi)`: the sorted runs arr[lo..mid] and arr[mid+1..hi], both bounds
   * inclusive, are merged into arr[lo..hi] as `merge(a, b)` merges two arrays; nothing
   * outside lo..hi changes.
   */
  method MergeInPlace(a: array<int>, lo: int, mid: int, hi: int)
    requires 0 <= lo <= mid + 1 <= hi + 1 <= a.Length
    modifies a
    ensures a[lo..hi + 1] == ArrayUtils.Merge(old(a[lo..mid + 1]), old(a[mid + 1..hi + 1]))
    ensures a[..lo] == old(a[..lo]) && a[hi + 1..] == old(a[hi + 1..])
  {
    var left, right := a[lo..mid + 1], a[mid + 1..hi + 1];
    MergeBack(a, lo, left, right);
    MergeLength(left, right);
    ghost var merged := ArrayUtils.Merge(left, right);
    assert a[lo..hi + 1] == merged by {
      assert a[..] == old(a[..lo]) + merged + old(a[hi + 1..]);
    }
  }

  /** Writes the merge of the two runs over a[lo ..], keeping everything before lo and after the merge. */
  method MergeBack(a: array<int>, lo: int, left: seq<int>, right: seq<int>)
    requires 0 <= lo && lo + |left| + |right| <= a.Length
    modifies a
    ensures a[..] == old(a[..lo]) + ArrayUtils.Merge(left, right) + old(a[lo + |left| + |right|..])
  {
    ghost var merged := ArrayUtils.Merge(left, right);
    ghost var orig := a[..];
    ghost var done: seq<int> := [];
    MergeLength(left, right);
    var i, j, k := 0, 0, lo;
    while k < lo + |left| + |right|
      invariant 0 <= i <= |left| && 0 <= j <= |right| && k == lo + i + j && |done| == i + j
      invariant done + ArrayUtils.Merge(left[i..], right[j..]) == merged
      invariant a[..] == orig[..lo] + done + orig[k..]
    {
      MergeLength(left[i..], right[j..]);
      var next := MergeNext(left, right, i, j);
      MergeTake(done, left, right, i, j, merged);
      WriteNext(a[..], orig, lo, k, done, next.0);
      a[k] := next.0;
      done := done + [next.0];
      i, j := next.1, next.2;
      k := k + 1;
    }
    MergeLength(left[i..], right[j..]);
  }

  /** Writing the next merged element at k extends the written part and keeps the rest. */
  lemma WriteNext(cur: seq<int>, orig: seq<int>, lo: int, k: int, done: seq<int>, v: int)
    requires 0 <= lo <= k < |orig| && |done| == k - lo && cur == orig[..lo] + done + orig[k..]
    ensures cur[k := v] == orig[..lo] + (done + [v]) + orig[k + 1..]
  {
  }

  lemma MergeLength(x: seq<int>, y: seq<int>)
    ensures |ArrayUtils.Merge(x, y)| == |x| + |y|
  {
    ArrayUtils.MergeElements(x, y);
  }

  /** Writing index k extends the written part prev[lo..k] by one. */
  lemma UpdateSlice(prev: seq<int>, lo: int, k: int, v: int)
    requires 0 <= lo <= k < |prev|
    ensures prev[k := v][lo..k + 1] == prev[lo..k] + [v]
  {
  }

  /** The next element of the merge, the smaller head (the left one on a tie), and the positions after it. */
  function MergeNext(left: seq<int>, right: seq<int>, i: int, j: int): (int, int, int)
    requires 0 <= i <= |left| && 0 <= j <= |right| && i + j < |left| + |right|
  {
    if i < |left| && (j == |right| || left[i] <= right[j]) then (left[i], i + 1, j)
    else (right[j], i, j + 1)
  }

  /** Taking the next element moves it from the merge still to do into the written part. */
  lemma MergeTake(done: seq<int>, left: seq<int>, right: seq<int>, i: int, j: int, merged: seq<int>)
    requires 0 <= i <= |left| && 0 <= j <= |right| && i + j < |left| + |right|
    requires done + ArrayUtils.Merge(left[i..], right[j..]) == merged
    ensures 0 <= MergeNext(left, right, i, j).1 <= |left| && 0 <= MergeNext(left, right, i, j).2 <= |right|
    ensures (done + [MergeNext(left, right, i, j).0])
      + ArrayUtils.Merge(left[MergeNext(left, right, i, j).1..], right[MergeNext(left, right, i, j).2..]) == merged
  {
    if i < |left| && (j == |right| || left[i] <= right[j]) {
      assert left[i..][1..] == left[i + 1..];
    } else {
      assert right[j..][1..] == right[j + 1..];
    }
  }
}
