/** The ArrayUtilsTest cases for the in-place members, as lemmas and as calls of the methods. */
module ArraySortingExamples {
  import opened Wrappers
  import opened IntSeqs
  import opened Partitioning
  import opened ArraySorting
  import ArrayUtils
  import ArrayUtilsExamples

  /** One scan step that swaps a small key down to the boundary. */
  lemma ScanTake<T>(s: seq<T>, key: T -> int, pivot: int, b: int, j: int, hi: int, r: (seq<T>, int))
    requires 0 <= b <= j < hi <= |s| && key(s[j]) <= pivot
    requires Scan(Swap(s, b, j), key, pivot, b + 1, j + 1, hi) == r
    ensures Scan(s, key, pivot, b, j, hi) == r
  {
  }

  /** One scan step that passes over a large key. */
  lemma ScanSkip<T>(s: seq<T>, key: T -> int, pivot: int, b: int, j: int, hi: int, r: (seq<T>, int))
    requires 0 <= b <= j < hi <= |s| && pivot < key(s[j])
    requires Scan(s, key, pivot, b, j + 1, hi) == r
    ensures Scan(s, key, pivot, b, j, hi) == r
  {
  }

  /** One level of quicksort: partition, then the two recursive sorts. */
  lemma QuickSortedStep<T>(s: seq<T>, key: T -> int, lo: int, hi: int, t: seq<T>, p: int, u: seq<T>, r: seq<T>)
    requires 0 <= lo && hi - lo > 1 && hi <= |s|
    requires Lomuto(s, key, lo, hi) == (t, p) && lo <= p < hi && |t| == |s|
    requires QuickSorted(t, key, lo, p) == u && |u| == |s|
    requires QuickSorted(u, key, p + 1, hi) == r
    ensures QuickSorted(s, key, lo, hi) == r
  {
  }

  /** testPartition: {0,4,2,31,25,1} pivots on 1, which lands at index 1. */
  lemma PartitionExample()
    ensures Lomuto([0, 4, 2, 31, 25, 1], Id, 0, 6) == ([0, 1, 2, 31, 25, 4], 1)
  {
    var s := [0, 4, 2, 31, 25, 1];
    assert Scan(s, Id, 1, 1, 4, 5) == (s, 1) by { ScanSkip(s, Id, 1, 1, 4, 5, (s, 1)); }
    assert Scan(s, Id, 1, 1, 3, 5) == (s, 1) by { ScanSkip(s, Id, 1, 1, 3, 5, (s, 1)); }
    assert Scan(s, Id, 1, 1, 2, 5) == (s, 1) by { ScanSkip(s, Id, 1, 1, 2, 5, (s, 1)); }
    assert Scan(s, Id, 1, 1, 1, 5) == (s, 1) by { ScanSkip(s, Id, 1, 1, 1, 5, (s, 1)); }
    assert Swap(s, 0, 0) == s;
    ScanTake(s, Id, 1, 0, 0, 5, (s, 1));
    assert Swap(s, 1, 5) == [0, 1, 2, 31, 25, 4];
  }

  /** The (key, index) pairs of testMultiQuickSort before sorting and after each partition. */
  function Pairs0(): seq<(int, int)> { [(10, 0), (100, 1), (100, 2), (0, 3)] }
  function Pairs1(): seq<(int, int)> { [(0, 3), (100, 1), (100, 2), (10, 0)] }
  function Pairs2(): seq<(int, int)> { [(0, 3), (10, 0), (100, 2), (100, 1)] }

  /** The first partition: pivot key 0 goes to the front. */
  lemma FirstPartition()
    ensures Lomuto(Pairs0(), Fst, 0, 4) == (Pairs1(), 0)
  {
    var t0 := Pairs0();
    assert Scan(t0, Fst, 0, 0, 2, 3) == (t0, 0) by { ScanSkip(t0, Fst, 0, 0, 2, 3, (t0, 0)); }
    assert Scan(t0, Fst, 0, 0, 1, 3) == (t0, 0) by { ScanSkip(t0, Fst, 0, 0, 1, 3, (t0, 0)); }
    ScanSkip(t0, Fst, 0, 0, 0, 3, (t0, 0));
    assert Swap(t0, 0, 3) == Pairs1();
  }

  /** The second partition, of indices 1 .. 3: pivot key 10 goes to index 1. */
  lemma SecondPartition()
    ensures Lomuto(Pairs1(), Fst, 1, 4) == (Pairs2(), 1)
  {
    var t1 := Pairs1();
    assert Scan(t1, Fst, 10, 1, 2, 3) == (t1, 1) by { ScanSkip(t1, Fst, 10, 1, 2, 3, (t1, 1)); }
    ScanSkip(t1, Fst, 10, 1, 1, 3, (t1, 1));
    assert Swap(t1, 1, 3) == Pairs2();
  }

  /** The third partition, of indices 2 .. 3: the equal keys stay where they are. */
  lemma ThirdPartition()
    ensures Lomuto(Pairs2(), Fst, 2, 4) == (Pairs2(), 3)
  {
    var t2 := Pairs2();
    assert Swap(t2, 2, 2) == t2;
    ScanTake(t2, Fst, 100, 2, 2, 3, (t2, 3));
    assert Swap(t2, 3, 3) == t2;
  }

  /**
   * testMultiQuickSort: sorting by {10,100,100,0} moves index 3 first, then 0, then the two
   * equal keys in the order 2, 1 that this partitioning leaves them in.
   */
  lemma SortPermutationExample()
    ensures SortPermutation([10, 100, 100, 0]) == [3, 0, 2, 1]
  {
    var t0, t1, t2 := Pairs0(), Pairs1(), Pairs2();
    assert Tagged([10, 100, 100, 0]) == t0;
    assert QuickSorted(t2, Fst, 2, 4) == t2 by {
      ThirdPartition();
      QuickSortedStep(t2, Fst, 2, 4, t2, 3, t2, t2);
    }
    assert QuickSorted(t1, Fst, 1, 4) == t2 by {
      SecondPartition();
      QuickSortedStep(t1, Fst, 1, 4, t2, 1, t2, t2);
    }
    FirstPartition();
    QuickSortedStep(t0, Fst, 0, 4, t1, 0, t1, t2);
    assert Snds(t2) == [3, 0, 2, 1];
  }

  /** That permutation applied to both arrays of testMultiQuickSort. */
  lemma ApplyExample()
    ensures Apply([10, 100, 100, 0], [3, 0, 2, 1]) == [0, 10, 100, 100]
    ensures Apply([1, 3, 2, 4], [3, 0, 2, 1]) == [4, 1, 2, 3]
  {
  }

  /** testPartition, through the method on an array. */
  method PartitionScenario() returns (p: int, result: seq<int>)
    ensures p == 1 && result == [0, 1, 2, 31, 25, 4]
  {
    var arr := new int[] [0, 4, 2, 31, 25, 1];
    assert arr[..] == [0, 4, 2, 31, 25, 1];
    p := Partition(arr);
    result := arr[..];
    PartitionExample();
  }

  /** testQuickSelect: k from 1 to 5 gives k - 1; 0 and 6 are refused. */
  method QuickSelectScenario() returns (first: Result<int, string>, fifth: Result<int, string>,
                                        zero: Result<int, string>, sixth: Result<int, string>,
                                        larger: Result<int, string>)
    ensures first == Success(0) && fifth == Success(4)
    ensures zero.Failure? && sixth.Failure?
    ensures larger == Success(4)
  {
    var values := new int[] [1, 4, 3, 5, 2];
    first := QuickSelect(values, 1);
    fifth := QuickSelect(values, 5);
    zero := QuickSelect(values, 0);
    sixth := QuickSelect(values, 6);
    var big := new int[] [1, 4, 3, 5, 2, 15, 23, 7, 6, 0, 19, 132];
    larger := QuickSelect(big, 5);
  }

  /** testMultiQuickSort: the keys end sorted and the companion array follows them. */
  method MultiQuickSortScenario() returns (keys: seq<int>, companions: seq<int>)
    ensures keys == [0, 10, 100, 100] && companions == [4, 1, 2, 3]
  {
    var first := new int[] [10, 100, 100, 0];
    var second := new int[] [1, 3, 2, 4];
    assert first[..] == [10, 100, 100, 0] && second[..] == [1, 3, 2, 4];
    SortPermutationExample();
    ApplyExample();
    var rows := [first, second];
    assert Sortable(0, rows);
    MultiQuickSortFirst(rows);
    assert rows[0][..] == Apply([10, 100, 100, 0], [3, 0, 2, 1]);
    assert rows[1][..] == Apply([1, 3, 2, 4], [3, 0, 2, 1]);
    keys, companions := first[..], second[..];
  }

  /** testMultiQuickSort's edge cases: a negative index and ragged arrays are ignored. */
  method MultiQuickSortIgnored() returns (negative: seq<int>, ragged: seq<int>)
    ensures negative == [1, 2, 3] && ragged == [1, 2, 3]
  {
    var a := new int[] [1, 2, 3];
    var b := new int[] [1, 2, 3];
    assert a[..] == [1, 2, 3];
    MultiQuickSort(-1, [a, b]);
    negative := a[..];

    var c := new int[] [1, 2, 3];
    var d := new int[] [1, 2];
    assert c[..] == [1, 2, 3];
    MultiQuickSortFirst([c, d]);
    ragged := c[..];
  }

  /** testInplaceMerge's second case: the longer run first. */
  lemma SwappedRunsMerge()
    ensures ArrayUtils.Merge([3, 5, 6, 7], [1, 2, 5]) == [1, 2, 3, 5, 5, 6, 7]
  {
    assert ArrayUtils.Merge([6, 7], [5]) == [5, 6, 7];
    assert ArrayUtils.Merge([5, 6, 7], [5]) == [5, 5, 6, 7];
    assert ArrayUtils.Merge([3, 5, 6, 7], [5]) == [3, 5, 5, 6, 7];
    assert ArrayUtils.Merge([3, 5, 6, 7], [2, 5]) == [2, 3, 5, 5, 6, 7];
  }

  /** testInplaceMerge's third case: a run merged with a copy of itself. */
  lemma EqualRunsMerge()
    ensures ArrayUtils.Merge([3, 5, 6, 7], [3, 5, 6, 7]) == [3, 3, 5, 5, 6, 6, 7, 7]
  {
    EqualTailsMerge();
    assert ArrayUtils.Merge([5, 6, 7], [5, 6, 7]) == [5, 5, 6, 6, 7, 7];
    assert ArrayUtils.Merge([3, 5, 6, 7], [5, 6, 7]) == [3, 5, 5, 6, 6, 7, 7];
  }

  lemma EqualTailsMerge()
    ensures ArrayUtils.Merge([5, 6, 7], [6, 7]) == [5, 6, 6, 7, 7]
  {
    assert ArrayUtils.Merge([7], [7]) == [7, 7];
    assert ArrayUtils.Merge([6, 7], [7]) == [6, 7, 7];
    assert ArrayUtils.Merge([6, 7], [6, 7]) == [6, 6, 7, 7];
  }

  /** testInplaceMerge, first case: {1,2,5} followed by {3,5,6,7}. */
  method InplaceMergeScenario() returns (merged: seq<int>)
    ensures merged == [1, 2, 3, 5, 5, 6, 7]
  {
    var a := new int[] [1, 2, 5, 3, 5, 6, 7];
    assert a[0..3] == [1, 2, 5] && a[3..7] == [3, 5, 6, 7];
    MergeInPlace(a, 0, 2, 6);
    merged := a[..];
    assert merged == a[0..7];
    ArrayUtilsExamples.MergeExample();
  }

  /** testInplaceMerge, second case: {3,5,6,7} followed by {1,2,5}. */
  method SwappedRunsScenario() returns (merged: seq<int>)
    ensures merged == [1, 2, 3, 5, 5, 6, 7]
  {
    var a := new int[] [3, 5, 6, 7, 1, 2, 5];
    assert a[0..4] == [3, 5, 6, 7] && a[4..7] == [1, 2, 5];
    MergeInPlace(a, 0, 3, 6);
    merged := a[..];
    assert merged == a[0..7];
    SwappedRunsMerge();
  }

  /** testInplaceMerge, third case: {3,5,6,7} twice. */
  method EqualRunsScenario() returns (merged: seq<int>)
    ensures merged == [3, 3, 5, 5, 6, 6, 7, 7]
  {
    var a := new int[] [3, 5, 6, 7, 3, 5, 6, 7];
    assert a[0..4] == [3, 5, 6, 7] && a[4..8] == [3, 5, 6, 7];
    MergeInPlace(a, 0, 3, 7);
    merged := a[..];
    assert merged == a[0..8];
    EqualRunsMerge();
  }
}
