/** The ArrayUtilsTest cases for the value-returning helpers, as lemmas about the model. */
module ArrayUtilsExamples {
  import opened IntSeqs
  import opened ArrayUtils

  /** testFind: "C" sits at index 2, an absent key gives -1. */
  lemma FindExample()
    ensures Find(["A", "B", "C", "D", "E", "F"], "C") == 2
    ensures Find(["A", "B", "C", "D", "E", "F"], "lol") == -1
  {
    var terms := ["A", "B", "C", "D", "E", "F"];
    assert terms[2] == "C";
    assert "lol" !in terms;
  }

  /** testConcat: 0..5 followed by 6..10 is 0..10. */
  lemma ConcatExample()
    ensures Concat([0, 1, 2, 3, 4, 5], [6, 7, 8, 9, 10]) == Range(0, 11)
  {
    var r := Concat([0, 1, 2, 3, 4, 5], [6, 7, 8, 9, 10]);
    assert forall i :: 0 <= i < 11 ==> r[i] == i;
  }

  /** testFromUpTo with step 1: 0..99. */
  lemma FromUpToExample()
    ensures FromUpTo(0, 100, 1) == Range(0, 100)
  {
    FromUpToLength(0, 100, 1);
  }

  /** testFromUpTo with step 2: the even numbers below 100. */
  lemma FromUpToEvenExample()
    ensures |FromUpTo(0, 100, 2)| == 50 && forall i :: 0 <= i < 50 ==> FromUpTo(0, 100, 2)[i] == 2 * i
  {
    FromUpToLength(0, 100, 2);
  }

  /** testDeduplicate. */
  lemma DeduplicateExample()
    ensures Deduplicate([1, 2, 2, 3, 4, 5, 5]) == [1, 2, 3, 4, 5]
  {
    assert Deduplicate([1]) == [1] by { DeduplicateStep([], 1, [1], [], [1]); }
    assert Deduplicate([1, 2]) == [1, 2] by { DeduplicateStep([1], 2, [1, 2], [1], [1, 2]); }
    assert Deduplicate([1, 2, 2]) == [1, 2] by { DeduplicateStep([1, 2], 2, [1, 2, 2], [1, 2], [1, 2]); }
    assert Deduplicate([1, 2, 2, 3]) == [1, 2, 3] by {
      DeduplicateStep([1, 2, 2], 3, [1, 2, 2, 3], [1, 2], [1, 2, 3]);
    }
    assert Deduplicate([1, 2, 2, 3, 4]) == [1, 2, 3, 4] by {
      DeduplicateStep([1, 2, 2, 3], 4, [1, 2, 2, 3, 4], [1, 2, 3], [1, 2, 3, 4]);
    }
    assert Deduplicate([1, 2, 2, 3, 4, 5]) == [1, 2, 3, 4, 5] by {
      DeduplicateStep([1, 2, 2, 3, 4], 5, [1, 2, 2, 3, 4, 5], [1, 2, 3, 4], [1, 2, 3, 4, 5]);
    }
    DeduplicateStep([1, 2, 2, 3, 4, 5], 5, [1, 2, 2, 3, 4, 5, 5], [1, 2, 3, 4, 5], [1, 2, 3, 4, 5]);
  }

  /** One step of `deduplicate`: the next value is appended unless it was seen before. */
  lemma DeduplicateStep(a: seq<int>, x: int, b: seq<int>, d: seq<int>, e: seq<int>)
    requires b == a + [x] && Deduplicate(a) == d
    requires e == if x in d then d else d + [x]
    ensures Deduplicate(b) == e
  {
    assert b[..|b| - 1] == a;
  }

  /** testUnion: once sorted, the union of {1,2,3} and {2,3} is {1,2,3}. */
  lemma UnionExample()
    ensures forall s :: Sorted(s) && multiset(s) == multiset(Union([1, 2, 3], [2, 3])) ==> s == [1, 2, 3]
  {
    UnionValue();
    forall s | Sorted(s) && multiset(s) == multiset([1, 2, 3]) ensures s == [1, 2, 3] {
      SortedUnique(s, [1, 2, 3]);
    }
  }

  /** The union in the model's first-occurrence order. */
  lemma UnionValue()
    ensures Union([1, 2, 3], [2, 3]) == [1, 2, 3]
  {
    assert Deduplicate([1]) == [1] by { DeduplicateStep([], 1, [1], [], [1]); }
    assert Deduplicate([1, 2]) == [1, 2] by { DeduplicateStep([1], 2, [1, 2], [1], [1, 2]); }
    assert Deduplicate([1, 2, 3]) == [1, 2, 3] by { DeduplicateStep([1, 2], 3, [1, 2, 3], [1, 2], [1, 2, 3]); }
    assert Deduplicate([1, 2, 3, 2]) == [1, 2, 3] by {
      DeduplicateStep([1, 2, 3], 2, [1, 2, 3, 2], [1, 2, 3], [1, 2, 3]);
    }
    DeduplicateStep([1, 2, 3, 2], 3, [1, 2, 3] + [2, 3], [1, 2, 3], [1, 2, 3]);
  }

  /** testIntersection. */
  lemma IntersectionExample()
    ensures Intersection([1, 2, 3], [2, 3, 3, 3]) == [2, 3]
  {
  }

  /** testIntersectionUnsorted: the common values 3 and 2, which sort to {2,3}. */
  lemma IntersectionUnsortedExample()
    ensures forall s ::
      Sorted(s) && multiset(s) == multiset(IntersectionUnsorted([3, 5, 6, 1, 2, 3, 2, 2], [3, 2, 3, 3])) ==> s == [2, 3]
  {
    IntersectionUnsortedValue();
    assert multiset([3, 2]) == multiset([2, 3]);
    forall s | Sorted(s) && multiset(s) == multiset([2, 3]) ensures s == [2, 3] {
      SortedUnique(s, [2, 3]);
    }
  }

  /** The common values in the model's first-occurrence order. */
  lemma IntersectionUnsortedValue()
    ensures IntersectionUnsorted([3, 5, 6, 1, 2, 3, 2, 2], [3, 2, 3, 3]) == [3, 2]
  {
    CommonExample();
    assert Deduplicate([3]) == [3] by { DeduplicateStep([], 3, [3], [], [3]); }
    assert Deduplicate([3, 2]) == [3, 2] by { DeduplicateStep([3], 2, [3, 2], [3], [3, 2]); }
    assert Deduplicate([3, 2, 3]) == [3, 2] by { DeduplicateStep([3, 2], 3, [3, 2, 3], [3, 2], [3, 2]); }
    assert Deduplicate([3, 2, 3, 2]) == [3, 2] by { DeduplicateStep([3, 2, 3], 2, [3, 2, 3, 2], [3, 2], [3, 2]); }
    DeduplicateStep([3, 2, 3, 2], 2, [3, 2, 3, 2, 2], [3, 2], [3, 2]);
  }

  /** The values of the first array of testIntersectionUnsorted that the second one holds, in order. */
  lemma CommonExample()
    ensures Common([3, 5, 6, 1, 2, 3, 2, 2], [3, 2, 3, 3]) == [3, 2, 3, 2, 2]
  {
    var b := [3, 2, 3, 3];
    assert b[0] == 3 && b[1] == 2;
    assert 1 !in b && 5 !in b && 6 !in b;
    assert Common([2], b) == [2] by { CommonKeep(2, [], b, []); }
    assert Common([2, 2], b) == [2, 2] by { CommonKeep(2, [2], b, [2]); }
    assert Common([3, 2, 2], b) == [3, 2, 2] by { CommonKeep(3, [2, 2], b, [2, 2]); }
    assert Common([2, 3, 2, 2], b) == [2, 3, 2, 2] by { CommonKeep(2, [3, 2, 2], b, [3, 2, 2]); }
    assert Common([1, 2, 3, 2, 2], b) == [2, 3, 2, 2] by { CommonDrop(1, [2, 3, 2, 2], b, [2, 3, 2, 2]); }
    assert Common([6, 1, 2, 3, 2, 2], b) == [2, 3, 2, 2] by { CommonDrop(6, [1, 2, 3, 2, 2], b, [2, 3, 2, 2]); }
    assert Common([5, 6, 1, 2, 3, 2, 2], b) == [2, 3, 2, 2] by {
      CommonDrop(5, [6, 1, 2, 3, 2, 2], b, [2, 3, 2, 2]);
    }
    CommonKeep(3, [5, 6, 1, 2, 3, 2, 2], b, [2, 3, 2, 2]);
  }

  /** A head that the other array holds is kept. */
  lemma CommonKeep(x: int, a: seq<int>, b: seq<int>, c: seq<int>)
    requires Common(a, b) == c && x in b
    ensures Common([x] + a, b) == [x] + c
  {
    assert ([x] + a)[1..] == a;
  }

  /** A head that the other array does not hold is dropped. */
  lemma CommonDrop(x: int, a: seq<int>, b: seq<int>, c: seq<int>)
    requires Common(a, b) == c && x !in b
    ensures Common([x] + a, b) == c
  {
    assert ([x] + a)[1..] == a;
  }

  /** testMissingNumber: 4 is missing from {0,1,2,3,5}. */
  lemma MissingNumberExample()
    ensures MissingNumber([0, 1, 2, 3, 5]) == 4
  {
    assert Sum([5]) == 5;
    assert Sum([3, 5]) == 8;
    assert Sum([2, 3, 5]) == 10;
    assert Sum([1, 2, 3, 5]) == 11;
    assert Sum([0, 1, 2, 3, 5]) == 11;
  }

  /** testMax: the maximum 5 at index 4. */
  lemma MaxExample()
    ensures Max([0, 1, 2, 3, 5]) == 5 && MaxIndex([0, 1, 2, 3, 5]) == 4
  {
  }

  /** testSubArray: the inclusive range 0..2 holds the first three elements themselves. */
  lemma SubArrayExample<T>(arr: seq<T>)
    requires |arr| == 4
    ensures SubArray(arr, 0, 2) == arr[..3]
  {
  }

  /** testMerge. */
  lemma MergeExample()
    ensures Merge([1, 2, 5], [3, 5, 6, 7]) == [1, 2, 3, 5, 5, 6, 7]
  {
    assert Merge([], [6, 7]) == [6, 7];
    assert Merge([5], [6, 7]) == [5, 6, 7];
    assert Merge([5], [5, 6, 7]) == [5, 5, 6, 7];
    assert Merge([5], [3, 5, 6, 7]) == [3, 5, 5, 6, 7];
    assert Merge([2, 5], [3, 5, 6, 7]) == [2, 3, 5, 5, 6, 7];
  }

  /** testIsValidIndex over an array of length 3. */
  lemma IsValidIndexExample<T>(dummy: seq<T>)
    requires |dummy| == 3
    ensures IsValidIndex(dummy, 0) && IsValidIndex(dummy, 1) && IsValidIndex(dummy, 2)
    ensures !IsValidIndex(dummy, -1) && !IsValidIndex(dummy, 4)
  {
  }
}
