# Verified model of a machine-learning toolkit's data-structure and vectorisation core

This project models, in Dafny, six parts of a Java machine-learning toolkit and proves what each of them promises:

- **The k-d tree** (`KDTrees`, with the test scenarios in `KDTreeExamples` and `KDTreeScenarios`). It is a binary tree of (point, payload) pairs. The node at depth `d` splits on axis `(d + 1) mod k`, and a point strictly below the splitting coordinate goes left. The class `KDTree` holds the root, the size and the dimension. It covers insertion, level-order iteration, `balanceBySort` (a rebuild around the element of sorted rank `n / 2` on each axis), `median`, and the three queries: range, radius and k-nearest. Range and radius search prune by the splitting hyperplane, and each is proved equal to an unpruned reference walk. `KDTree.java` itself is not part of this model. Its behaviour is taken from `KDTreeTest.java`, and every dense and sparse scenario of that test is proved as a lemma or a method, except the two eight-value median cases (see Left out).
- **The integer array utilities** (`ArrayUtils`, `Partitioning`, `ArraySorting`, `DistributionSorts`, with the test scenarios in `ArrayUtilsExamples` and `ArraySortingExamples`). This covers find, concat, fromUpTo, deduplicate, union, intersection, max, missingNumber, subArray, isValidIndex and the sorted merge, as functions. The in-place algorithms are array methods proved equal to functional specifications: Lomuto partition, quickSelect, quickSort, multiQuickSort, the in-place merge, countingSort and an LSD radix sort. `ArrayUtils.java` is not part of this model either; its behaviour comes from `ArrayUtilsTest.java`.
- **Text vectorisation** (`VectorizerUtils`, over the string order of `Strings`, which compares UTF-16 code units as `String.compareTo` does). This covers `buildDictionary` with document-frequency filtering, `buildTransition`, the three inverted-index builders, word-frequency vectors, `getMostFrequentItems` and the hashing trick. The hash function is a parameter.
- **The binary vector record** (`VectorWritables`). `writeVector`/`readVector` work on a stream of typed tokens, and the `VectorWritable` holder class is modelled too. Its headline property is the round trip.
- **The train/test split** (`EvaluationSplits`). `create` checks its arguments, shuffles both arrays by one permutation when asked, and cuts them at `floor(n * splitFraction)`.
- **The MNIST CSV reader** (`MNISTReader`). The file is a sequence of line reads. It skips the header, splits each row as Java's `String.split(",")` does, and parses the fields with `Integer.parseInt`.

Vectors (`Vectors`) are dense value sequences, or sparse `(index, value)` lists with increasing indices; an index that is not listed reads as zero. Integers are unbounded. Where the Java code depends on 32-bit behaviour, it is written out: `Integer.parseInt` range checks, and `Math.abs` of `Integer.MIN_VALUE` in the hashing trick. Doubles and floats are modelled as `real`.

`KDTreeTest.java:103-109` expects a level order that arises only when the root splits on coordinate 1, so the model splits the node at depth `d` on `(d + 1) mod k`. With coordinate 0 at the root, the order would be (2,3), (5,4), (8,1), (9,6), (7,2), (4,7).

Proving the hashing trick brought out one behaviour of the code. `Math.abs(Integer.MIN_VALUE)` is negative, so a hash of `Integer.MIN_VALUE` gives bucket `-(2^31 mod n)`. That is out of range unless `n` divides `2^31` (`BucketOfMinimum`; for `n = 3` the bucket is -2). `HashVectorize` therefore fails exactly when such a bucket occurs, where `DenseDoubleVector.set` would throw.

## Model

| member | source | states |
|---|---|---|
| `Vectors.SetEntry` | src/de/jungblut/writable/VectorWritable.java:128-128 | `set(index, value)` on a sparse vector: the value read at `index` becomes `value` and every other index reads as before; entries stay in increasing index order and nothing but `(index, value)` is added |
| `Vectors.SetEntryAbove` | src/de/jungblut/writable/VectorWritable.java:125-129 | setting an index above every stored one appends the pair, so replaying the pairs of a sparse vector in index order rebuilds its entries |
| `Vectors.DenseNonZero` | src/de/jungblut/nlp/VectorizerUtils.java:393-394 | `iterateNonZero` of a dense vector yields exactly the positions whose value is non-zero, with those values |
| `IntSeqs.ApplyPermutation` | src/de/jungblut/classification/eval/EvaluationSplit.java:69-71 | rearranging a sequence by a permutation keeps its multiset of elements |
| `IntSeqs.SumRange` | test/de/jungblut/datastructure/ArrayUtilsTest.java:215-220 | the numbers 0..n-1 sum to n(n-1)/2, the identity the missing-number computation rests on |
| `IntSeqs.SortedUnique` | test/de/jungblut/datastructure/ArrayUtilsTest.java:136-143 | two sorted rearrangements of the same values are equal, so a sort's output is determined by its input |
| `SeqSort.SortBy` | test/de/jungblut/datastructure/KDTreeTest.java:44-46 | sorting by a key gives a rearrangement of the input that is non-decreasing in the key |
| `SeqSort.ReverseMultiset` | test/de/jungblut/datastructure/KDTreeTest.java:74-75 | reversing a result list keeps its elements |
| `SeqSort.SortedRank` | test/de/jungblut/datastructure/KDTreeTest.java:142-158 | in a list sorted by key, position m has fewer than m+1 elements strictly below it and at least m+1 at or below it |
| `SeqSort.CountPermutation` | test/de/jungblut/datastructure/KDTreeTest.java:142-158 | the number of values below (or at most) a bound does not depend on their order |
| `Strings.UnitRankOrder` | src/de/jungblut/nlp/VectorizerUtils.java:111-111 | comparing two characters by their rank is comparing their UTF-16 code units, a character above U+FFFF being a surrogate pair; equal ranks only for equal characters |
| `Strings.LessIsUnitOrder` | src/de/jungblut/nlp/VectorizerUtils.java:111-111 | the string order used for the dictionary is exactly the lexicographic order of the two strings' UTF-16 code units, as `String.compareTo` compares them |
| `Strings.SurrogatePairOrder` | src/de/jungblut/nlp/VectorizerUtils.java:111-111 | U+1F600 is the code units 0xD83D 0xDE00 and so sorts before U+FF61, against code-point order |
| `Strings.LessIrreflexive` | src/de/jungblut/nlp/VectorizerUtils.java:111-111 | `String.compareTo` order: no string precedes itself |
| `Strings.LessTransitive` | src/de/jungblut/nlp/VectorizerUtils.java:111-111 | `String.compareTo` order is transitive |
| `Strings.LessTotal` | src/de/jungblut/nlp/VectorizerUtils.java:111-111 | any two different strings are ordered one way or the other |
| `Strings.LessAsymmetric` | src/de/jungblut/nlp/VectorizerUtils.java:111-111 | two strings are never ordered both ways |
| `Strings.SortedUniqueIndex` | src/de/jungblut/nlp/VectorizerUtils.java:128-128 | in a strictly sorted dictionary a token occupies one index only |
| `Strings.BinarySearch` | src/de/jungblut/nlp/VectorizerUtils.java:128-135 | `Arrays.binarySearch` on a sorted array: an index holding the key iff the key is present, else `-(insertion point) - 1` with every element before the insertion point smaller and every one after larger |
| `Strings.Insert` | src/de/jungblut/nlp/VectorizerUtils.java:108-111 | adding a token to a strictly sorted array keeps it strictly sorted and adds exactly that token |
| `Strings.SortedElements` | src/de/jungblut/nlp/VectorizerUtils.java:108-111 | a set's elements as an array after `Arrays.sort`: strictly sorted, the same members, the set's size |
| `KDTrees.Insert` | test/de/jungblut/datastructure/KDTreeTest.java:98-100 | `add`: the tree holds one more (point, payload) pair than before, and its size grows by one |
| `KDTrees.InsertOrdered` | test/de/jungblut/datastructure/KDTreeTest.java:89-118 | insertion keeps the search-tree order: left subtree strictly below and right subtree at or above the node on axis (depth + 1) mod k |
| `KDTrees.InsertFromItems` | test/de/jungblut/datastructure/KDTreeTest.java:98-100 | adding points one by one stores exactly those points, each with its insertion number |
| `KDTrees.InsertFromOrdered` | test/de/jungblut/datastructure/KDTreeTest.java:98-100 | adding any sequence of points to an ordered tree leaves it ordered |
| `KDTrees.InsertAllDim` | test/de/jungblut/datastructure/KDTreeTest.java:98-100 | adding a point of the tree's dimension keeps every stored point of that dimension |
| `KDTrees.LevelOrderItems` | test/de/jungblut/datastructure/KDTreeTest.java:111-117 | the level-order iteration yields every stored pair exactly once, as many as the tree's size |
| `KDTrees.SizeItems` | test/de/jungblut/datastructure/KDTreeTest.java:117-117 | a tree's size is the number of pairs it stores |
| `KDTrees.Median` | test/de/jungblut/datastructure/KDTreeTest.java:142-152 | the model's `median` of a coordinate list: an index whose value has at most n/2 values below it and more than n/2 at or below it (sorted rank floor(n/2)); the tests pin this rule for two and three values only |
| `KDTrees.MedianUnique` | test/de/jungblut/datastructure/KDTreeTest.java:142-152 | for distinct values the rank conditions fix the model's median index, so each two- and three-value case of the test follows from its ranks |
| `KDTrees.SplitBounds` | test/de/jungblut/datastructure/KDTreeTest.java:45-45 | balancing sends the pairs strictly below the median coordinate to the left and the rest to the right |
| `KDTrees.SplitKeeps` | test/de/jungblut/datastructure/KDTreeTest.java:45-45 | the two halves of a balancing split together hold every pair |
| `KDTrees.Without` | test/de/jungblut/datastructure/KDTreeTest.java:45-45 | removing the median pair leaves all other pairs |
| `KDTrees.BuildItems` | test/de/jungblut/datastructure/KDTreeTest.java:45-45 | rebuilding around medians keeps exactly the pairs it was given |
| `KDTrees.BuildOrdered` | test/de/jungblut/datastructure/KDTreeTest.java:45-45 | the rebuilt tree is ordered on every level's axis |
| `KDTrees.Balance` | test/de/jungblut/datastructure/KDTreeTest.java:45-45 | `balanceBySort` keeps the stored pairs |
| `KDTrees.BalanceValid` | test/de/jungblut/datastructure/KDTreeTest.java:45-45 | a balanced tree is ordered, keeps its points' dimension and keeps its size |
| `KDTrees.SumSqCovers` | test/de/jungblut/datastructure/KDTreeTest.java:69-70 | one coordinate's squared difference never exceeds the squared distance summed up to any later coordinate |
| `KDTrees.DistCovers` | test/de/jungblut/datastructure/KDTreeTest.java:69-70 | one coordinate's squared difference never exceeds the squared Euclidean distance |
| `KDTrees.RangeAllItems` | test/de/jungblut/datastructure/KDTreeTest.java:174-176 | the unpruned range walk reports each stored pair inside the closed box exactly once and no other |
| `KDTrees.RangeAllCount` | test/de/jungblut/datastructure/KDTreeTest.java:174-176 | for any one pair, the unpruned range walk lists it as often as it is stored when it is inside the closed box, and never otherwise |
| `KDTrees.RangeAllEmpty` | test/de/jungblut/datastructure/KDTreeTest.java:174-176 | a subtree with no point in the box contributes nothing to the range walk |
| `KDTrees.RangePruneSound` | test/de/jungblut/datastructure/KDTreeTest.java:174-176 | the pruned `rangeQuery` walk reports the same list as the unpruned walk on every ordered tree |
| `KDTrees.RangeQueryItems` | test/de/jungblut/datastructure/KDTreeTest.java:174-176 | `rangeQuery` reports exactly the stored pairs inside the closed box, each once |
| `KDTrees.WithinAllItems` | test/de/jungblut/datastructure/KDTreeTest.java:71-73 | the unpruned radius walk reports each stored pair within the radius exactly once and no other |
| `KDTrees.WithinAllCount` | test/de/jungblut/datastructure/KDTreeTest.java:71-73 | for any one pair, the unpruned radius walk lists it as often as it is stored when it is within the radius, and never otherwise |
| `KDTrees.WithinAllEmpty` | test/de/jungblut/datastructure/KDTreeTest.java:71-73 | a subtree with no point within the radius contributes nothing to the radius walk |
| `KDTrees.FarSideOutside` | test/de/jungblut/datastructure/KDTreeTest.java:71-73 | when the target is farther than the radius from the splitting plane, no point on the far side is within the radius |
| `KDTrees.FarPointOutside` | test/de/jungblut/datastructure/KDTreeTest.java:71-73 | a point on the other side of a plane farther than the radius from the target is outside the radius |
| `KDTrees.WithinPruneSound` | test/de/jungblut/datastructure/KDTreeTest.java:71-73 | the pruned radius search reports the same list as the unpruned walk on every ordered tree of one dimension |
| `KDTrees.WithinItems` | test/de/jungblut/datastructure/KDTreeTest.java:71-78 | radius search reports exactly the stored pairs within the radius (ties at the radius included), each once |
| `KDTrees.RadiusSearchDistances` | test/de/jungblut/datastructure/KDTreeTest.java:76-84 | the radius search reports exactly the stored pairs within the radius, each as often as it is stored, with its squared distance to the target |
| `KDTrees.KNearest` | test/de/jungblut/datastructure/KDTreeTest.java:135-137 | k-nearest search returns min(k, size) neighbours (none for k <= 0) in non-decreasing distance |
| `KDTrees.KNearestNearest` | test/de/jungblut/datastructure/KDTreeTest.java:135-138 | the k nearest and the rest together are all stored pairs, and no pair left out is nearer than one returned |
| `KDTrees.KNearestStored` | test/de/jungblut/datastructure/KDTreeTest.java:138-138 | each neighbour returned is a stored point with its payload, with its squared distance to the target |
| `KDTrees.StrictHigherLower` | test/de/jungblut/datastructure/KDTreeTest.java:198-208 | `strictHigher(a, b)` holds iff `strictLower(b, a)` does |
| `KDTrees.Iterate` | test/de/jungblut/datastructure/KDTreeTest.java:47-50 | the breadth-first iterator's loop yields exactly the level order |
| `KDTrees.KDTree.constructor` | test/de/jungblut/datastructure/KDTreeTest.java:23-23 | a new tree is empty, with size 0 |
| `KDTrees.KDTree.Add` | test/de/jungblut/datastructure/KDTreeTest.java:41-43 | `add` inserts the pair and grows the size by one when the tree is empty or the point has the tree's dimension; otherwise the tree is left unchanged |
| `KDTrees.KDTree.BalanceBySort` | test/de/jungblut/datastructure/KDTreeTest.java:45-45 | `balanceBySort` replaces the root by the median rebuild and keeps size and dimension |
| `KDTrees.KDTree.Elements` | test/de/jungblut/datastructure/KDTreeTest.java:47-50 | iteration yields the level order: every stored pair once, as many as the size |
| `KDTrees.KDTree.RangeQuery` | test/de/jungblut/datastructure/KDTreeTest.java:174-178 | `rangeQuery(lower, upper)` on the class: nothing on an empty tree, otherwise exactly the stored pairs in the closed box |
| `KDTrees.KDTree.RadiusNeighbours` | test/de/jungblut/datastructure/KDTreeTest.java:71-84 | `getNearestNeighbours(target, radius)`: nothing on an empty tree, otherwise exactly the stored pairs within the radius (as a multiset of pairs), each with its squared distance |
| `KDTrees.KDTree.NearestNeighbours` | test/de/jungblut/datastructure/KDTreeTest.java:135-138 | `getNearestNeighbours(target, k)`: min(k, size) stored pairs in non-decreasing distance; with the pairs it leaves out they make up all stored pairs, and none left out is nearer than one returned |
| `KDTreeExamples.PlanesLike` | test/de/jungblut/datastructure/KDTreeTest.java:215-243 | the dense and the sparse copies of the six test points have the same coordinates |
| `KDTreeExamples.PlaneInsert` | test/de/jungblut/datastructure/KDTreeTest.java:98-100 | adding (2,3),(5,4),(9,6),(4,7),(8,1),(7,2) builds the expected two-dimensional tree |
| `KDTreeExamples.PlaneLevelOrder` | test/de/jungblut/datastructure/KDTreeTest.java:111-117 | iterating that tree gives (2,3),(8,1),(5,4),(7,2),(4,7),(9,6), for dense and sparse points alike |
| `KDTreeExamples.PlaneNearest` | test/de/jungblut/datastructure/KDTreeTest.java:135-138 | the single nearest neighbour of (0,0) is (2,3) itself, stored first, at squared distance 13 |
| `KDTreeExamples.PlaneRadiusSearch` | test/de/jungblut/datastructure/KDTreeTest.java:69-84 | around (5,4) with radius dist((2,3),(5,4)): exactly 4 points, all within the radius, and sort-then-reverse lists (5,4),(7,2),(4,7),(2,3) |
| `KDTreeExamples.MedianOfVector` | test/de/jungblut/datastructure/KDTreeTest.java:142-152 | for a vector of distinct coordinates, the rank conditions determine the model's `median`, as used for each short test vector |
| `KDTreeExamples.MedianTwoThree` | test/de/jungblut/datastructure/KDTreeTest.java:143-144 | `median([2,3]) == 1` |
| `KDTreeExamples.MedianNineSix` | test/de/jungblut/datastructure/KDTreeTest.java:145-146 | `median([9,6]) == 0` |
| `KDTreeExamples.MedianNineSixEight` | test/de/jungblut/datastructure/KDTreeTest.java:147-148 | `median([9,6,8]) == 2` |
| `KDTreeExamples.MedianNineEightSeven` | test/de/jungblut/datastructure/KDTreeTest.java:149-150 | `median([9,8,7]) == 1` |
| `KDTreeExamples.MedianEightNineSix` | test/de/jungblut/datastructure/KDTreeTest.java:151-152 | `median([8,9,6]) == 0` |
| `KDTreeExamples.MedianDenseVectors` | test/de/jungblut/datastructure/KDTreeTest.java:142-152 | `testMedian`'s five dense vectors: indices 1, 0, 2, 1, 0 |
| `KDTreeExamples.MedianVectors` | test/de/jungblut/datastructure/KDTreeTest.java:264-277 | `testMedianSparse`'s five sparse vectors: indices 1, 0, 2, 1, 0 |
| `KDTreeExamples.ChainFrom` | test/de/jungblut/datastructure/KDTreeTest.java:41-43 | adding 1..7 in ascending order builds a chain of right children |
| `KDTreeExamples.ChainLevelOrder` | test/de/jungblut/datastructure/KDTreeTest.java:41-43 | iterating such a chain gives the points in insertion order |
| `KDTreeExamples.BalanceChain` | test/de/jungblut/datastructure/KDTreeTest.java:45-45 | balancing the chain of 1..7 gives the tree with 4 at the root, 2 and 6 below it, 1, 3, 5, 7 as leaves |
| `KDTreeExamples.BalanceTest` | test/de/jungblut/datastructure/KDTreeTest.java:47-50 | after `balanceBySort` the iteration order is 4,2,6,1,3,5,7 |
| `KDTreeExamples.RangeAscending` | test/de/jungblut/datastructure/KDTreeTest.java:174-178 | over 2,3,4,5,6,8 added in ascending order, `rangeQuery([4],[8])` returns 4,5,6,8 in that order |
| `KDTreeExamples.RangeAscendingPairs` | test/de/jungblut/datastructure/KDTreeTest.java:174-178 | the same query returns the stored pairs numbered 2 to 5 |
| `KDTreeExamples.RangeInside` | test/de/jungblut/datastructure/KDTreeTest.java:174-176 | the range query over any points added one by one holds the same pairs as filtering them by the box |
| `KDTreeExamples.RangeShuffled` | test/de/jungblut/datastructure/KDTreeTest.java:192-194 | over 2,8,4,3,6,5 the same query returns exactly 4 points |
| `KDTreeExamples.StrictTest` | test/de/jungblut/datastructure/KDTreeTest.java:198-208 | `strictHigher(2,5)`, `strictHigher(5,10)`, `strictLower(10,5)` and `strictLower(5,2)` all hold |
| `KDTreeScenarios.InsertScenario` | test/de/jungblut/datastructure/KDTreeTest.java:89-118 | adding the six points through the class and iterating gives the expected level order |
| `KDTreeScenarios.BalanceScenario` | test/de/jungblut/datastructure/KDTreeTest.java:21-52 | adding 1..7, balancing and iterating through the class gives 4,2,6,1,3,5,7 |
| `KDTreeScenarios.RangeScenario` | test/de/jungblut/datastructure/KDTreeTest.java:161-178 | the class's range query over the ascending points returns 4,5,6,8 |
| `KDTreeScenarios.ShuffledRangeScenario` | test/de/jungblut/datastructure/KDTreeTest.java:180-194 | the class's range query over the shuffled points returns 4 points |
| `KDTreeScenarios.NearestScenario` | test/de/jungblut/datastructure/KDTreeTest.java:121-139 | the class's 1-nearest query from (0,0) returns the stored (2,3) |
| `KDTreeScenarios.RadiusScenario` | test/de/jungblut/datastructure/KDTreeTest.java:55-86 | the class's radius query returns 4 neighbours within the radius, listed nearest first after sort and reverse |
| `ArrayUtils.Find` | test/de/jungblut/datastructure/ArrayUtilsTest.java:16-22 | `find`: -1 iff the key is absent, otherwise the index of its first occurrence |
| `ArrayUtils.Concat` | test/de/jungblut/datastructure/ArrayUtilsTest.java:25-32 | `concat(a, b)` is a followed by b |
| `ArrayUtils.FromUpTo` | test/de/jungblut/datastructure/ArrayUtilsTest.java:100-112 | `fromUpTo(from, to, step)` is from, from+step, ... and stops at the first value not below `to` |
| `ArrayUtils.FromUpToLength` | test/de/jungblut/datastructure/ArrayUtilsTest.java:100-112 | `fromUpTo` has ceil((to - from) / step) elements |
| `ArrayUtils.DeduplicateSpec` | test/de/jungblut/datastructure/ArrayUtilsTest.java:176-182 | `deduplicate` keeps each value once and keeps exactly the input's values |
| `ArrayUtils.DeduplicateFirstOccurrence` | test/de/jungblut/datastructure/ArrayUtilsTest.java:176-182 | `deduplicate` lists values in the order of their first occurrence |
| `ArrayUtils.UnionSpec` | test/de/jungblut/datastructure/ArrayUtilsTest.java:185-193 | `union` holds each value of either input exactly once |
| `ArrayUtils.Intersection` | test/de/jungblut/datastructure/ArrayUtilsTest.java:196-202 | `intersection` of sorted inputs is strictly increasing and holds exactly the common values |
| `ArrayUtils.CommonSpec` | test/de/jungblut/datastructure/ArrayUtilsTest.java:205-212 | keeping the values of the first array found in the second keeps exactly the common values |
| `ArrayUtils.IntersectionUnsortedSpec` | test/de/jungblut/datastructure/ArrayUtilsTest.java:205-212 | `intersectionUnsorted` holds each common value exactly once |
| `ArrayUtils.MergeElements` | test/de/jungblut/datastructure/ArrayUtilsTest.java:260-266 | `merge(a, b)` keeps every element of both inputs, duplicates included |
| `ArrayUtils.MergeSorted` | test/de/jungblut/datastructure/ArrayUtilsTest.java:260-266 | `merge` of two sorted arrays is sorted |
| `ArrayUtils.SubArray` | test/de/jungblut/datastructure/ArrayUtilsTest.java:232-242 | `subArray(a, start, end)` is the elements from `start` to `end` inclusive |
| `ArrayUtils.Max` | test/de/jungblut/datastructure/ArrayUtilsTest.java:223-229 | `max` is an element no other element exceeds |
| `ArrayUtils.MaxIndex` | test/de/jungblut/datastructure/ArrayUtilsTest.java:223-229 | `maxIndex` is the first index holding the maximum |
| `ArrayUtils.MissingNumberFound` | test/de/jungblut/datastructure/ArrayUtilsTest.java:215-220 | for the numbers 0..n with one left out, `missingNumber` returns the one left out |
| `ArrayUtilsExamples.FindExample` | test/de/jungblut/datastructure/ArrayUtilsTest.java:16-22 | `find` gives 2 for "C" and -1 for "lol" |
| `ArrayUtilsExamples.ConcatExample` | test/de/jungblut/datastructure/ArrayUtilsTest.java:25-32 | `concat([0..5], [6..10])` is 0..10 |
| `ArrayUtilsExamples.FromUpToExample` | test/de/jungblut/datastructure/ArrayUtilsTest.java:100-104 | `fromUpTo(0, 100, 1)` is 0..99 |
| `ArrayUtilsExamples.FromUpToEvenExample` | test/de/jungblut/datastructure/ArrayUtilsTest.java:106-110 | `fromUpTo(0, 100, 2)` is the 50 even numbers below 100 |
| `ArrayUtilsExamples.DeduplicateExample` | test/de/jungblut/datastructure/ArrayUtilsTest.java:176-182 | `deduplicate([1,2,2,3,4,5,5]) == [1,2,3,4,5]` |
| `ArrayUtilsExamples.UnionExample` | test/de/jungblut/datastructure/ArrayUtilsTest.java:185-193 | `union([1,2,3], [2,3])` sorted is `[1,2,3]` |
| `ArrayUtilsExamples.IntersectionExample` | test/de/jungblut/datastructure/ArrayUtilsTest.java:196-202 | `intersection([1,2,3], [2,3,3,3]) == [2,3]` |
| `ArrayUtilsExamples.IntersectionUnsortedExample` | test/de/jungblut/datastructure/ArrayUtilsTest.java:205-212 | `intersectionUnsorted([3,5,6,1,2,3,2,2], [3,2,3,3])` sorted is `[2,3]` |
| `ArrayUtilsExamples.MissingNumberExample` | test/de/jungblut/datastructure/ArrayUtilsTest.java:215-220 | `missingNumber([0,1,2,3,5]) == 4` |
| `ArrayUtilsExamples.MaxExample` | test/de/jungblut/datastructure/ArrayUtilsTest.java:223-229 | `max` and `maxIndex` of [0,1,2,3,5] are 5 and 4 |
| `ArrayUtilsExamples.SubArrayExample` | test/de/jungblut/datastructure/ArrayUtilsTest.java:232-242 | `subArray(arr, 0, 2)` is the first three elements |
| `ArrayUtilsExamples.MergeExample` | test/de/jungblut/datastructure/ArrayUtilsTest.java:260-266 | `merge([1,2,5], [3,5,6,7]) == [1,2,3,5,5,6,7]` |
| `ArrayUtilsExamples.IsValidIndexExample` | test/de/jungblut/datastructure/ArrayUtilsTest.java:290-297 | `isValidIndex` holds for 0, 1 and 2 on a 3-element array, and not for -1 or 4 |
| `Partitioning.LomutoSpec` | test/de/jungblut/datastructure/ArrayUtilsTest.java:35-41 | the Lomuto pass rearranges only the range, puts the last element at the returned index, values at most it before it and larger ones after it |
| `Partitioning.ScanSpec` | test/de/jungblut/datastructure/ArrayUtilsTest.java:35-41 | the scanning loop of the partition keeps the prefix at most the pivot and the middle above it |
| `Partitioning.QuickSortedSpec` | test/de/jungblut/datastructure/ArrayUtilsTest.java:136-143 | quick sort by Lomuto partitions rearranges only its range and leaves it sorted |
| `Partitioning.SplitAtPivot` | test/de/jungblut/datastructure/ArrayUtilsTest.java:44-82 | partitioning a range that lies between two split points leaves the array split before and after the pivot's final index |
| `Partitioning.RearrangedMultiset` | test/de/jungblut/datastructure/ArrayUtilsTest.java:35-41 | a rearrangement within a range keeps the array's elements |
| `ArraySorting.PartitionRange` | test/de/jungblut/datastructure/ArrayUtilsTest.java:35-41 | the in-place partition of a range leaves exactly the Lomuto pass's array and pivot index |
| `ArraySorting.Partition` | test/de/jungblut/datastructure/ArrayUtilsTest.java:35-41 | `partition(arr)` returns the last element's final index, with values at most it before and larger ones after, as a permutation |
| `ArraySorting.QuickSortRange` | test/de/jungblut/datastructure/ArrayUtilsTest.java:136-143 | the in-place quick sort of a range leaves exactly the functional quick sort's array |
| `ArraySorting.QuickSort` | test/de/jungblut/datastructure/ArrayUtilsTest.java:136-143 | `quickSort` leaves the array sorted and a permutation of its input |
| `ArraySorting.QuickSelect` | test/de/jungblut/datastructure/ArrayUtilsTest.java:44-82 | `quickSelect(arr, k)` throws iff k < 1 or k > n; otherwise it returns k-1, every value before that index is at most the value there and every one after is at least it |
| `ArraySorting.SortPermutationSpec` | test/de/jungblut/datastructure/ArrayUtilsTest.java:146-173 | the sorting permutation of the key row is a permutation that puts the keys in order |
| `ArraySorting.MultiQuickSort` | test/de/jungblut/datastructure/ArrayUtilsTest.java:146-173 | `multiQuickSort` sorts the key row and rearranges every row by the same permutation; an index outside the rows or rows of different lengths leave everything unchanged |
| `ArraySorting.Permute` | test/de/jungblut/datastructure/ArrayUtilsTest.java:146-173 | rearranging an array in place by a permutation gives `a[p[i]]` at each position i |
| `ArraySorting.MergeInPlace` | test/de/jungblut/datastructure/ArrayUtilsTest.java:269-287 | `merge(arr, lo, mid, hi)` leaves the sorted merge of the inclusive runs [lo..mid] and [mid+1..hi] in their place and nothing else changes |
| `ArraySortingExamples.PartitionExample` | test/de/jungblut/datastructure/ArrayUtilsTest.java:35-41 | partitioning [0,4,2,31,25,1] gives [0,1,2,31,25,4] and index 1 |
| `ArraySortingExamples.SortPermutationExample` | test/de/jungblut/datastructure/ArrayUtilsTest.java:146-173 | the sorting permutation of [10,100,100,0] is [3,0,2,1] |
| `ArraySortingExamples.ApplyExample` | test/de/jungblut/datastructure/ArrayUtilsTest.java:146-173 | that permutation turns [10,100,100,0] into [0,10,100,100] and [1,3,2,4] into [4,1,2,3] |
| `ArraySortingExamples.PartitionScenario` | test/de/jungblut/datastructure/ArrayUtilsTest.java:35-41 | the partition method on [0,4,2,31,25,1] returns 1 and leaves [0,1,2,31,25,4] |
| `ArraySortingExamples.QuickSelectScenario` | test/de/jungblut/datastructure/ArrayUtilsTest.java:44-82 | `quickSelect` returns k-1 for valid k and fails for k = 0 and for k beyond the length |
| `ArraySortingExamples.MultiQuickSortScenario` | test/de/jungblut/datastructure/ArrayUtilsTest.java:146-158 | `multiQuickSort` on [10,100,100,0] and [1,3,2,4] gives [0,10,100,100] and [4,1,2,3] |
| `ArraySortingExamples.MultiQuickSortIgnored` | test/de/jungblut/datastructure/ArrayUtilsTest.java:160-173 | a negative sort index and ragged rows leave the rows unchanged |
| `ArraySortingExamples.SwappedRunsMerge` | test/de/jungblut/datastructure/ArrayUtilsTest.java:269-287 | merging the runs in the other order gives the same sorted result |
| `ArraySortingExamples.InplaceMergeScenario` | test/de/jungblut/datastructure/ArrayUtilsTest.java:269-287 | the in-place merge of runs [1,2,5] and [3,5,6,7] gives [1,2,3,5,5,6,7] |
| `ArraySortingExamples.EqualRunsScenario` | test/de/jungblut/datastructure/ArrayUtilsTest.java:269-287 | the in-place merge of two equal runs gives every value twice, sorted |
| `DistributionSorts.CountingOrderSpec` | test/de/jungblut/datastructure/ArrayUtilsTest.java:126-133 | the counting-sort output is sorted, lies in [low, high] and holds each value of that range as often as the input does |
| `DistributionSorts.CountingOrderPermutes` | test/de/jungblut/datastructure/ArrayUtilsTest.java:126-133 | when every input lies in [low, high], the counting-sort output is a permutation of the input |
| `DistributionSorts.CountingSort` | test/de/jungblut/datastructure/ArrayUtilsTest.java:126-133 | `countingSort(arr, low, high)` leaves the array sorted and a permutation of its input |
| `DistributionSorts.CountValues` | test/de/jungblut/datastructure/ArrayUtilsTest.java:126-133 | the counting pass counts how often each value of [low, high] occurs |
| `DistributionSorts.DigitPassPermutes` | test/de/jungblut/datastructure/ArrayUtilsTest.java:115-123 | one radix pass is a permutation of its input |
| `DistributionSorts.DigitPassSorts` | test/de/jungblut/datastructure/ArrayUtilsTest.java:115-123 | a stable pass on the next decimal digit extends the order on the lower digits by one digit |
| `DistributionSorts.DistributeByDigit` | test/de/jungblut/datastructure/ArrayUtilsTest.java:115-123 | the in-place pass leaves exactly the stable bucket pass on the digit |
| `DistributionSorts.SortedBelowAll` | test/de/jungblut/datastructure/ArrayUtilsTest.java:115-123 | once the passes cover every digit of the maximum, the order on the lower digits is the full order |
| `DistributionSorts.MaxValue` | test/de/jungblut/datastructure/ArrayUtilsTest.java:115-123 | the maximum of non-negative values is an upper bound, and is 0 or occurs in the array |
| `DistributionSorts.RadixSort` | test/de/jungblut/datastructure/ArrayUtilsTest.java:115-123 | `radixSort` on non-negative values leaves the array sorted and a permutation of its input |
| `VectorizerUtils.DocCountSize` | src/de/jungblut/nlp/VectorizerUtils.java:80-86 | a token's count is the number of documents that contain it, each document counted once |
| `VectorizerUtils.CountDocuments` | src/de/jungblut/nlp/VectorizerUtils.java:78-87 | the count of each token is its document frequency, plus one for the out-of-vocabulary token |
| `VectorizerUtils.Spam` | src/de/jungblut/nlp/VectorizerUtils.java:91-96 | a counted token is to be removed iff its count exceeds the threshold or falls below the minimum frequency |
| `VectorizerUtils.BuildDictionary` | src/de/jungblut/nlp/VectorizerUtils.java:71-113 | `buildDictionary` fails iff the stop-word percentage is outside [0, 1]; otherwise the dictionary is strictly sorted and holds exactly the counted tokens within both bounds, plus the start and end tags when they were counted |
| `VectorizerUtils.RemoveEach` | src/de/jungblut/nlp/VectorizerUtils.java:104-106 | removing the spam leaves exactly the counted tokens not marked |
| `VectorizerUtils.BuildDefaultDictionary` | src/de/jungblut/nlp/VectorizerUtils.java:53-55 | the default dictionary uses percentage 0.9 and minimum frequency 0 |
| `VectorizerUtils.TransitionIndex` | src/de/jungblut/nlp/VectorizerUtils.java:128-135 | a token's transition: its dictionary index if present, else the out-of-vocabulary index if that is in the dictionary, else 0 |
| `VectorizerUtils.BuildTransition` | src/de/jungblut/nlp/VectorizerUtils.java:125-139 | `buildTransition` has the document's length and each entry is that token's transition |
| `VectorizerUtils.BuildInvertedIndexMap` | src/de/jungblut/nlp/VectorizerUtils.java:151-164 | the inverted index maps exactly the dictionary tokens that occur to the set of documents containing them |
| `VectorizerUtils.IndexDocument` | src/de/jungblut/nlp/VectorizerUtils.java:155-161 | indexing one document adds it to the postings of each of its dictionary tokens and changes nothing else |
| `VectorizerUtils.BuildInvertedIndexArray` | src/de/jungblut/nlp/VectorizerUtils.java:177-190 | entry i lists, without repeats, exactly the documents containing dictionary token i |
| `VectorizerUtils.BuildInvertedIndexDocumentCount` | src/de/jungblut/nlp/VectorizerUtils.java:203-215 | entry i is the number of documents containing dictionary token i |
| `VectorizerUtils.DocumentCountAgrees` | src/de/jungblut/nlp/VectorizerUtils.java:203-215 | the inverted-index count agrees with the dictionary's document frequency, apart from the out-of-vocabulary token's extra count |
| `VectorizerUtils.OovValueUnknown` | src/de/jungblut/nlp/VectorizerUtils.java:275-277 | with no literal out-of-vocabulary token, the out-of-vocabulary entry is 1 iff some token is unknown, else 0 |
| `VectorizerUtils.OovValueKnown` | src/de/jungblut/nlp/VectorizerUtils.java:272-274 | with every token known, the out-of-vocabulary entry is that token's count in the document |
| `VectorizerUtils.CountVector` | src/de/jungblut/nlp/VectorizerUtils.java:264-280 | a document's vector has the dictionary's dimension; a known token's entry is its count in the document and the out-of-vocabulary entry is set, not added |
| `VectorizerUtils.WordFrequencyVectorize` | src/de/jungblut/nlp/VectorizerUtils.java:261-283 | one count vector per document, each described as above |
| `VectorizerUtils.WordFrequencyVectorizeCorpus` | src/de/jungblut/nlp/VectorizerUtils.java:243-247 | vectorising with the default dictionary: the dictionary's members and one count vector per document |
| `VectorizerUtils.MostFrequentItems` | src/de/jungblut/nlp/VectorizerUtils.java:365-378 | `getMostFrequentItems` lists every (optionally filtered) entry exactly once, each with its count, in non-increasing count order |
| `VectorizerUtils.EntriesOnce` | src/de/jungblut/nlp/VectorizerUtils.java:368-369 | the entry set lists each element once with its count |
| `VectorizerUtils.HashIndices` | src/de/jungblut/nlp/VectorizerUtils.java:395-405 | the loop over the non-zero indices adds each index's sign to its bucket, and fails exactly when a bucket is out of range or n is 0 |
| `VectorizerUtils.HashVectorize` | src/de/jungblut/nlp/VectorizerUtils.java:391-406 | `hashVectorize` fails iff n is negative or a non-zero index lands out of range; otherwise it is the n-dimensional vector of signed bucket counts |
| `VectorizerUtils.HashVectorizeAll` | src/de/jungblut/nlp/VectorizerUtils.java:419-425 | the array overload hashes every vector and keeps the array's length |
| `VectorizerUtils.HashedCounts` | src/de/jungblut/nlp/VectorizerUtils.java:395-405 | bucket b holds the number of non-negative hashes minus the number of negative ones among the indices sent to b |
| `VectorizerUtils.HashedMass` | src/de/jungblut/nlp/VectorizerUtils.java:395-405 | the absolute entries of a hashed vector sum to at most the number of non-zero indices |
| `VectorizerUtils.BucketInRange` | src/de/jungblut/nlp/VectorizerUtils.java:400-400 | `Math.abs(hash) % n` is a valid bucket for every hash but `Integer.MIN_VALUE` |
| `VectorizerUtils.BucketOfMinimum` | src/de/jungblut/nlp/VectorizerUtils.java:400-400 | for `Integer.MIN_VALUE` the bucket is `-(2^31 mod n)`, valid iff n divides 2^31 |
| `VectorizerUtils.BucketOfMinimumExample` | src/de/jungblut/nlp/VectorizerUtils.java:400-400 | with n = 3 the bucket of `Integer.MIN_VALUE` is -2 |
| `VectorWritables.Output.Write` | src/de/jungblut/writable/VectorWritable.java:95-95 | a `DataOutput` write appends one token |
| `VectorWritables.Input.ReadBool` | src/de/jungblut/writable/VectorWritable.java:119-119 | `readBoolean` succeeds iff the next token is a boolean, and then advances past it; otherwise it fails and consumes nothing |
| `VectorWritables.Input.ReadInt` | src/de/jungblut/writable/VectorWritable.java:120-120 | `readInt` succeeds iff the next token is an int, and then advances past it |
| `VectorWritables.Input.ReadDouble` | src/de/jungblut/writable/VectorWritable.java:127-127 | `readDouble` succeeds iff the next token is a double, and then advances past it |
| `VectorWritables.Input.ReadUtf` | src/de/jungblut/writable/VectorWritable.java:137-137 | `readUTF` succeeds iff the next token is a string, and then advances past it |
| `VectorWritables.EncodePairsAt` | src/de/jungblut/writable/VectorWritable.java:99-104 | the j-th stored entry of a sparse vector is written as an int and a double at tokens 2j and 2j+1 |
| `VectorWritables.EncodeDoubles` | src/de/jungblut/writable/VectorWritable.java:106-108 | a dense vector is written as its values, in index order |
| `VectorWritables.RoundTrip` | src/de/jungblut/writable/VectorWritable.java:118-140 | `readVector` after `writeVector` gives back the vector: sparseness, dimension, every entry and the name, and stops right after the record, whatever follows |
| `VectorWritables.SparseRoundTrip` | src/de/jungblut/writable/VectorWritable.java:122-129 | a sparse record reads back as the same dimension and entries |
| `VectorWritables.DenseRoundTrip` | src/de/jungblut/writable/VectorWritable.java:130-134 | a dense record reads back as the same values |
| `VectorWritables.NameRoundTrip` | src/de/jungblut/writable/VectorWritable.java:136-138 | the name trailer reads back as the same name, or as none |
| `VectorWritables.DoublesRoundTrip` | src/de/jungblut/writable/VectorWritable.java:132-134 | reading n doubles written in order gives them back |
| `VectorWritables.PairsRoundTrip` | src/de/jungblut/writable/VectorWritable.java:125-129 | reading the pairs of a sparse vector written in index order rebuilds its entries |
| `VectorWritables.PairsLastWins` | src/de/jungblut/writable/VectorWritable.java:125-129 | reading a sparse record always succeeds on well-typed tokens, and an index's value is the last pair written for it |
| `VectorWritables.WriteVector` | src/de/jungblut/writable/VectorWritable.java:93-116 | `writeVector` appends exactly the record's tokens |
| `VectorWritables.WriteSparse` | src/de/jungblut/writable/VectorWritable.java:95-104 | a sparse vector: flag true, stored-entry count, dimension, then each entry's index and value |
| `VectorWritables.WriteDense` | src/de/jungblut/writable/VectorWritable.java:95-108 | a dense vector: flag false, length, then its values |
| `VectorWritables.WriteName` | src/de/jungblut/writable/VectorWritable.java:110-115 | the name trailer: true and the name, or false |
| `VectorWritables.ReadVector` | src/de/jungblut/writable/VectorWritable.java:118-140 | `readVector` succeeds iff a record can be decoded at the position, and then returns it and moves past it |
| `VectorWritables.ReadPairs` | src/de/jungblut/writable/VectorWritable.java:125-129 | the sparse read loop decodes the pairs as the record function does |
| `VectorWritables.ReadDoubles` | src/de/jungblut/writable/VectorWritable.java:131-134 | the dense read loop decodes the values as the record function does |
| `VectorWritables.VectorWritable.constructor` | src/de/jungblut/writable/VectorWritable.java:29-31 | an empty holder has no vector |
| `VectorWritables.VectorWritable.Wrap` | src/de/jungblut/writable/VectorWritable.java:37-39 | wrapping holds the given vector |
| `VectorWritables.VectorWritable.Copy` | src/de/jungblut/writable/VectorWritable.java:33-35 | the copy constructor holds the other holder's vector |
| `VectorWritables.VectorWritable.Write` | src/de/jungblut/writable/VectorWritable.java:41-44 | `write` appends the held vector's record, and fails with a null dereference when there is none |
| `VectorWritables.VectorWritable.ReadFields` | src/de/jungblut/writable/VectorWritable.java:46-49 | `readFields` replaces the held vector with the record read |
| `VectorWritables.EqualsSpec` | src/de/jungblut/writable/VectorWritable.java:64-79 | `equals` is reflexive and symmetric, false for null, and true iff both hold no vector or equal vectors |
| `VectorWritables.WriteThenRead` | src/de/jungblut/writable/VectorWritable.java:41-49 | writing a holder and reading the tokens into a new one gives it the same vector |
| `EvaluationSplits.EvaluationSplit.constructor` | src/de/jungblut/classification/eval/EvaluationSplit.java:26-33 | the split holds exactly the four arrays given |
| `EvaluationSplits.SplitIndex` | src/de/jungblut/classification/eval/EvaluationSplit.java:73-73 | the split index is floor(n * fraction), between 0 and n; fraction 0 gives 0 and 1 gives n |
| `EvaluationSplits.ThousandAtNinetyPercent` | src/de/jungblut/classification/eval/EvaluationSplit.java:73-73 | 1000 items at 0.9 give 900 for training and 100 for testing |
| `EvaluationSplits.Split` | src/de/jungblut/classification/eval/EvaluationSplit.java:74-80 | the train part is the first s items and the test part the rest; together they are the input |
| `EvaluationSplits.ShuffleKeepsPairs` | src/de/jungblut/classification/eval/EvaluationSplit.java:69-71 | shuffling both arrays by one permutation keeps every (feature, outcome) pair together |
| `EvaluationSplits.SplitKeepsPairs` | src/de/jungblut/classification/eval/EvaluationSplit.java:74-80 | train features line up with train outcomes and test with test, and together they are all the pairs |
| `EvaluationSplits.Create` | src/de/jungblut/classification/eval/EvaluationSplit.java:62-83 | `create` fails iff the lengths differ or the fraction is outside [0, 1], leaving the arrays alone; otherwise it shuffles both by the same permutation when asked (and only then) and returns fresh arrays holding the two parts |
| `EvaluationSplits.MultiShuffle` | src/de/jungblut/classification/eval/EvaluationSplit.java:69-71 | both arrays are rearranged in place by the same permutation |
| `EvaluationSplits.SplitAt` | src/de/jungblut/classification/eval/EvaluationSplit.java:74-82 | fresh train and test arrays holding the two parts of both sequences |
| `EvaluationSplits.ThousandItemsScenario` | src/de/jungblut/classification/eval/EvaluationSplit.java:62-83 | 1000 aligned items at 0.9, unshuffled: 900 training and 100 test items, together the input |
| `MNISTReader.JoinPieces` | src/de/jungblut/reader/MNISTReader.java:37-37 | the comma-separated pieces of a line joined with commas give back the line |
| `MNISTReader.DropTrailingEmpty` | src/de/jungblut/reader/MNISTReader.java:37-37 | Java's split drops exactly the trailing empty pieces |
| `MNISTReader.SplitFields` | src/de/jungblut/reader/MNISTReader.java:37-37 | `split(",")` is the comma pieces without trailing empty ones, and a line without commas is one field |
| `MNISTReader.ParseInt` | src/de/jungblut/reader/MNISTReader.java:41-41 | `Integer.parseInt` gives a 32-bit value or fails with NumberFormatException |
| `MNISTReader.ParseDecimal` | src/de/jungblut/reader/MNISTReader.java:41-41 | every 32-bit value's decimal text parses back to it |
| `MNISTReader.ParseOutOfRange` | src/de/jungblut/reader/MNISTReader.java:41-41 | decimal text beyond the 32-bit range fails to parse |
| `MNISTReader.ParseIntExamples` | src/de/jungblut/reader/MNISTReader.java:41-41 | empty text, a lone sign and text with a letter fail to parse |
| `MNISTReader.ParseFields` | src/de/jungblut/reader/MNISTReader.java:40-42 | the pixel fields parse iff every one is an integer, giving one value per field |
| `MNISTReader.OneHot` | src/de/jungblut/reader/MNISTReader.java:44-45 | the prediction vector has 10 entries, 1.0 at the label and 0 elsewhere |
| `MNISTReader.RowContents` | src/de/jungblut/reader/MNISTReader.java:37-45 | a parsed row has (fields - 1) feature values, value i-1 being field i, and the one-hot vector of field 0 |
| `MNISTReader.LabelOutOfRange` | src/de/jungblut/reader/MNISTReader.java:44-45 | a label outside 0..9 fails with ArrayIndexOutOfBoundsException |
| `MNISTReader.RowExample` | src/de/jungblut/reader/MNISTReader.java:37-45 | the row "7,0,255" gives features [0, 255] and the one-hot vector of 7 |
| `MNISTReader.ParseRows` | src/de/jungblut/reader/MNISTReader.java:31-50 | the rows parse iff each one does, giving one feature and one prediction vector per row |
| `MNISTReader.Readable` | src/de/jungblut/reader/MNISTReader.java:31-31 | reading stops at the first failed line read, keeping the lines before it |
| `MNISTReader.DatasetShape` | src/de/jungblut/reader/MNISTReader.java:47-56 | a read dataset has as many feature vectors as prediction vectors, one per row after the header |
| `MNISTReader.ErrorStopsReading` | src/de/jungblut/reader/MNISTReader.java:51-56 | an IOException stops reading, and the rows read before it are returned |
| `MNISTReader.ReadFromRows` | src/de/jungblut/reader/MNISTReader.java:31-50 | the reading loop from any line gives what parsing the remaining readable rows gives |
| `MNISTReader.ReadRow` | src/de/jungblut/reader/MNISTReader.java:37-45 | the loop that parses one row computes the row function |
| `MNISTReader.ReadMNISTTrainImages` | src/de/jungblut/reader/MNISTReader.java:24-57 | `readMNISTTrainImages` returns exactly the dataset of the readable rows after the header, or the first parse failure |

## Left out

- `KDTree.java` and `ArrayUtils.java` are not part of this model. The tree and the array utilities are modelled from what `KDTreeTest.java` and `ArrayUtilsTest.java` require of them, so internals those tests do not pin are chosen here and named below.
- EvaluationSplits.Split: reads the one-argument `ArrayUtils.subArray(arr, end)` (`EvaluationSplit.java:74-76`) as `subArray(arr, 0, end)`, the elements from 0 to `end` inclusive. It also takes the empty range to give an empty array: `subArray(arr, 0, -1)` when the split index is 0, and `subArray(arr, n, n - 1)` when it is n, both of which `create` reaches for fractions 0 and 1 (`EvaluationSplit.java:64-67`). `ArrayUtils.java` is not part of this model, and `ArrayUtilsTest.java:232-242` pins only `subArray(arr, 0, 2)`.
- ArrayUtils.FromUpTo, ArrayUtils.Max and ArrayUtils.MaxIndex: `FromUpTo` requires a positive step, and `Max` and `MaxIndex` require a non-empty array. The tests call them only that way (`ArrayUtilsTest.java:86-94`, `100-112`, `223-229`), and what the original does for a zero or negative step or an empty array is not visible.
- `medianOfMedians` (`ArrayUtilsTest.java:85-97`) is not modelled. Its expected results are not exact medians and depend on an implementation that is not part of this model.
- KDTrees.Median: selects the value of sorted rank floor(n/2) for every n, and ignores the second argument. The tests pin this rule only for two and three values (`KDTreeTest.java:143-152`, `264-277`). Neither eight-value case follows it. For 8, 9, 6, 19, 25, 2, 3, 4, the dense case with argument 8 (`KDTreeTest.java:154-157`) expects index 1 (value 9, rank 5), and the sparse case with argument 0 (`KDTreeTest.java:278-281`) expects index 7 (value 4, rank 2). The model gives index 0 (value 8, rank 4) in both. The selection algorithm behind those two results is in `KDTree.java`, which is not part of this model. `balanceBySort` uses the same rule.
- MedianUnique: determines the model's median only; for more than three values it is not the original's `median` (see KDTrees.Median).
- MedianOfVector: the same gap as MedianUnique; it is used only for the two- and three-value test vectors.
- MedianVectors: covers the five short sparse cases of `KDTreeTest.java:264-277`; the eight-value sparse case at 278-281 is not reproduced (see KDTrees.Median). MedianDenseVectors likewise leaves out `KDTreeTest.java:154-157`.
- KDTrees.KNearest: is defined as "sort all stored pairs by distance and take the first k" rather than as the tree's pruned search. Only its results are pinned by the tests.
- KDTrees.Range: reports results in pre-order. Only the ascending-chain order (4,5,6,8) is pinned, and it is proved.
- Distances are squared Euclidean distances, so the radius of a radius search is compared as its square; no square root is modelled.
- KDTrees.KDTree.Add: refuses a point whose dimension differs from the tree's and leaves the tree unchanged. Mixing dimensions is a programming error in the original, and what happens then is not visible.
- `testShuffle` (`ArrayUtilsTest.java:245-257`) depends on `java.util.Random` with seed 0. Shuffling is modelled as a permutation passed in (`EvaluationSplits.MultiShuffle`, `ArraySorting.Permute`), so the concrete shuffled order is not reproduced.
- EvaluationSplits.Create: takes the shuffle's permutation as a parameter and requires the two arrays to be distinct objects when shuffling. Aliased arrays are not modelled.
- ArraySorting.MultiQuickSort: requires the rows to be distinct arrays; aliased rows are not modelled.
- ArraySorting.QuickSelect: does not model a shortcut the original may take for small arrays. It states the selection property of the Lomuto-based selection.
- ArrayUtils.Union and ArrayUtils.IntersectionUnsorted: return their values in first-occurrence order. That order is the model's choice. The tests sort the results before comparing them (`ArrayUtilsTest.java:191`, `210`), so only the values are pinned.
- Strings.Less: Dafny strings hold Unicode scalar values, so a Java string with an unpaired surrogate cannot be represented. Every other string is compared by its UTF-16 code units, as `compareTo` does.
- DistributionSorts.RadixSort: is modelled as least-significant-digit-first base-10 passes over non-negative values. The original's radix and its handling of negative values are not visible.
- DistributionSorts.CountingSort: requires every value to lie in [low, high]; the original's behaviour outside that range is not visible.
- `tfIdfVectorize` (`VectorizerUtils.java:295-343`) is left out. It computes logarithmic floating-point weights.
- `compareVector`, `compareTo`, `hashCode` and `toString` of `VectorWritable` (`VectorWritable.java:51-62`, `88-91`, `142-149`) are left out. They are floating-point sums and Java hash codes.
- Floating point: doubles are `real`, and the float `stopWordPercentage` and `splitFraction` are exact reals. The threshold `(int)(p * n)` and the split index `(int)(n * f)` are floors of exact products, so float rounding (for example `0.9f` not being exactly 0.9) is not modelled.
- VectorizerUtils.HashVectorize: takes the Murmur3 hash of an index as a function parameter returning 32-bit values. The concrete Murmur3 function is not modelled.
- VectorizerUtils.BuildTransition: requires a strictly sorted dictionary, as `Arrays.binarySearch` needs; `LookUp`, `BuildInvertedIndexMap`, `BuildInvertedIndexArray`, `BuildInvertedIndexDocumentCount`, `CountVector` and `WordFrequencyVectorize` require the same.
- `TokenizerUtils.START_TAG` and `END_TAG` are not part of this model. They are parameters of `BuildDictionary`.
- `ArrayUtils.toPrimitiveArray` over a `Set` gives the documents in hash order. The model returns them in some order, without repeats, and states membership only.
- The `DataOutput`/`DataInput` streams are sequences of typed tokens, not bytes. The modified-UTF-8 byte encoding of `writeUTF` is not modelled. A named vector whose name is `null` is the same as an unnamed one.
- VectorWritables.RoundTrip: requires a well-formed vector, meaning sparse indices strictly increasing, as `iterateNonZero` yields them. Zero values stored explicitly in a sparse vector are written and read back like any other.
- `DenseDoubleVector.set` out of range is modelled as an array index failure, and `SparseDoubleVector.set` as a map update at any index. Both vector classes are not part of this model.
- VectorWritables.EqualsSpec: compares the held vectors as values of the `Vector` datatype. So `Dense([1, 0])` differs from `Sparse(2, [(0, 1)])`, and a sparse vector with an explicit zero entry differs from one without it. The vector classes' own `equals` is not part of this model.
- MNISTReader.ParseInt: accepts ASCII digits only. Java's `Integer.parseInt` also accepts other Unicode decimal digits.
- File I/O: the file is a sequence of line reads, each a line or a read error. Opening the file and `printStackTrace` are left out.
- The `EvaluationSplit` getters are plain field reads without a contract. The constructor's contract already fixes the four fields they return.
