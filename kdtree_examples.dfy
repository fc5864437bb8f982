/** The scenarios of KDTreeTest, stated as lemmas over the model. */
module KDTreeExamples {
  import opened Vectors
  import opened SeqSort
  import opened KDTrees

  function D2(x: real, y: real): Vector { Dense([x, y]) }

  function S2(x: real, y: real): Vector { Sparse(2, [(0, x), (1, y)]) }

  /** The six points of the insertion, neighbour and radius tests, dense. */
  function Plane(): seq<Vector> {
    [D2(2.0, 3.0), D2(5.0, 4.0), D2(9.0, 6.0), D2(4.0, 7.0), D2(8.0, 1.0), D2(7.0, 2.0)]
  }

  /** The same six points as sparse vectors. */
  function SparsePlane(): seq<Vector> {
    [S2(2.0, 3.0), S2(5.0, 4.0), S2(9.0, 6.0), S2(4.0, 7.0), S2(8.0, 1.0), S2(7.0, 2.0)]
  }

  /** Six vectors whose coordinates are those of the test points, in either storage form. */
  predicate PlaneLike(ps: seq<Vector>) {
    |ps| == 6
    && (forall i :: 0 <= i < 6 ==> Dim(ps[i]) == 2)
    && Get(ps[0], 0) == 2.0 && Get(ps[0], 1) == 3.0
    && Get(ps[1], 0) == 5.0 && Get(ps[1], 1) == 4.0
    && Get(ps[2], 0) == 9.0 && Get(ps[2], 1) == 6.0
    && Get(ps[3], 0) == 4.0 && Get(ps[3], 1) == 7.0
    && Get(ps[4], 0) == 8.0 && Get(ps[4], 1) == 1.0
    && Get(ps[5], 0) == 7.0 && Get(ps[5], 1) == 2.0
  }

  /** The dense and the sparse test points both qualify, so every lemma below covers both tests. */
  lemma PlanesLike()
    ensures PlaneLike(Plane()) && PlaneLike(SparsePlane())
  {
  }

  function L(v: Vector, p: nat): Tree<nat> { Node(v, p, Leaf, Leaf) }

  /** The tree the six insertions build: (2,3) splits on y, its children on x. */
  function PlaneTree(ps: seq<Vector>): Tree<nat>
    requires |ps| == 6
  {
    Node(ps[0], 0,
      Node(ps[4], 4, L(ps[5], 5), Leaf),
      Node(ps[1], 1, L(ps[3], 3), L(ps[2], 2)))
  }

  /** Inserting `v` into a leaf node on the side its coordinate on `axis` calls for. */
  lemma InsertBeside(q: Vector, x: nat, v: Vector, p: nat, depth: nat)
    ensures Get(v, Axis(depth, 2)) < Get(q, Axis(depth, 2))
      ==> Insert(L(q, x), v, p, depth, 2) == Node(q, x, L(v, p), Leaf)
    ensures Get(v, Axis(depth, 2)) >= Get(q, Axis(depth, 2))
      ==> Insert(L(q, x), v, p, depth, 2) == Node(q, x, Leaf, L(v, p))
  {
  }

  /** The trees after the first one to five insertions of testInsert. */
  function PlaneStage(ps: seq<Vector>, n: nat): Tree<nat>
    requires |ps| == 6
  {
    if n == 0 then Leaf
    else if n == 1 then L(ps[0], 0)
    else if n == 2 then Node(ps[0], 0, Leaf, L(ps[1], 1))
    else if n == 3 then Node(ps[0], 0, Leaf, Node(ps[1], 1, Leaf, L(ps[2], 2)))
    else if n == 4 then Node(ps[0], 0, Leaf, Node(ps[1], 1, L(ps[3], 3), L(ps[2], 2)))
    else if n == 5 then Node(ps[0], 0, L(ps[4], 4), Node(ps[1], 1, L(ps[3], 3), L(ps[2], 2)))
    else PlaneTree(ps)
  }

  lemma PlaneStep(ps: seq<Vector>, n: nat)
    requires PlaneLike(ps) && n < 6
    ensures Insert(PlaneStage(ps, n), ps[n], n, 0, 2) == PlaneStage(ps, n + 1)
  {
    assert Axis(0, 2) == 1 && Axis(1, 2) == 0;
    if n == 0 {
    } else if n == 1 {
      InsertBeside(ps[0], 0, ps[1], 1, 0);
    } else if n == 2 {
      InsertBeside(ps[1], 1, ps[2], 2, 1);
    } else if n == 3 {
      PlaneStepThree(ps);
    } else if n == 4 {
      assert Get(ps[4], 1) < Get(ps[0], 1);
    } else {
      InsertBeside(ps[4], 4, ps[5], 5, 1);
    }
  }

  lemma PlaneStepThree(ps: seq<Vector>)
    requires PlaneLike(ps)
    ensures Insert(PlaneStage(ps, 3), ps[3], 3, 0, 2) == PlaneStage(ps, 4)
  {
    assert Axis(0, 2) == 1 && Axis(1, 2) == 0;
    var r3: Tree<nat> := Node(ps[1], 1, Leaf, L(ps[2], 2));
    assert Insert(r3, ps[3], 3, 1, 2) == Node(ps[1], 1, L(ps[3], 3), L(ps[2], 2));
  }

  lemma {:induction false} PlaneFrom(ps: seq<Vector>, n: nat)
    requires PlaneLike(ps) && n <= 6
    ensures InsertFrom(PlaneStage(ps, n), ps, n, 2) == PlaneTree(ps)
    decreases 6 - n
  {
    if n < 6 {
      PlaneStep(ps, n);
      PlaneFrom(ps, n + 1);
    }
  }

  /** testInsert: inserting the six points in order gives this tree. */
  lemma PlaneInsert(ps: seq<Vector>)
    requires PlaneLike(ps)
    ensures InsertFrom(Leaf, ps, 0, 2) == PlaneTree(ps)
  {
    PlaneFrom(ps, 0);
  }

  /** One step of the breadth-first traversal: visit the front node, queue its children. */
  lemma VisitNode<P>(queue: seq<Tree<P>>, next: seq<Tree<P>>)
    requires queue != [] && queue[0].Node?
    requires next == queue[1..] + [queue[0].left, queue[0].right]
    ensures LevelOrderFrom(queue) == [(queue[0].point, queue[0].payload)] + LevelOrderFrom(next)
  {
  }

  /** One step of the breadth-first traversal: drop an empty subtree. */
  lemma SkipLeaf<P>(queue: seq<Tree<P>>)
    requires queue != [] && queue[0].Leaf?
    ensures LevelOrderFrom(queue) == LevelOrderFrom(queue[1..])
  {
  }

  lemma {:induction false} OnlyLeaves<P>(queue: seq<Tree<P>>)
    requires forall i :: 0 <= i < |queue| ==> queue[i] == Leaf
    ensures LevelOrderFrom(queue) == []
    decreases |queue|
  {
    if queue != [] {
      OnlyLeaves(queue[1..]);
    }
  }

  /** testInsert: iteration visits the six points level by level, left before right. */
  lemma PlaneLevelOrder(ps: seq<Vector>)
    requires PlaneLike(ps)
    ensures LevelOrder(InsertFrom(Leaf, ps, 0, 2))
      == [(ps[0], 0), (ps[4], 4), (ps[1], 1), (ps[5], 5), (ps[3], 3), (ps[2], 2)]
  {
    PlaneInsert(ps);
    PlaneTreeLevelOrder(ps);
  }

  lemma PlaneTreeLevelOrder(ps: seq<Vector>)
    requires |ps| == 6
    ensures LevelOrder(PlaneTree(ps))
      == [(ps[0], 0), (ps[4], 4), (ps[1], 1), (ps[5], 5), (ps[3], 3), (ps[2], 2)]
  {
    var a := Node(ps[4], 4, L(ps[5], 5), Leaf);
    var b := Node(ps[1], 1, L(ps[3], 3), L(ps[2], 2));
    var l5, l3, l2 := L(ps[5], 5), L(ps[3], 3), L(ps[2], 2);
    VisitNode([PlaneTree(ps)], [a, b]);
    VisitNode([a, b], [b, l5, Leaf]);
    VisitNode([b, l5, Leaf], [l5, Leaf, l3, l2]);
    VisitNode([l5, Leaf, l3, l2], [Leaf, l3, l2, Leaf, Leaf]);
    SkipLeaf([Leaf, l3, l2, Leaf, Leaf]);
    assert [Leaf, l3, l2, Leaf, Leaf][1..] == [l3, l2, Leaf, Leaf];
    VisitNode([l3, l2, Leaf, Leaf], [l2, Leaf, Leaf, Leaf, Leaf]);
    var leaves: seq<Tree<nat>> := [Leaf, Leaf, Leaf, Leaf, Leaf, Leaf];
    VisitNode([l2, Leaf, Leaf, Leaf, Leaf], leaves);
    OnlyLeaves(leaves);
  }

  /** The squared distance between two-dimensional vectors. */
  lemma DistSqPlane(v: Vector, o: Vector)
    requires Dim(v) == 2
    ensures DistSq(v, o)
      == (Get(v, 0) - Get(o, 0)) * (Get(v, 0) - Get(o, 0)) + (Get(v, 1) - Get(o, 1)) * (Get(v, 1) - Get(o, 1))
  {
    assert SumSq(v, o, 1) == (Get(v, 0) - Get(o, 0)) * (Get(v, 0) - Get(o, 0));
  }

  /** The squared distances of the six points to the origin. */
  lemma OriginDistances(ps: seq<Vector>, o: Vector)
    requires PlaneLike(ps) && Get(o, 0) == 0.0 && Get(o, 1) == 0.0
    ensures DistSq(ps[0], o) == 13.0 && DistSq(ps[1], o) == 41.0 && DistSq(ps[2], o) == 117.0
    ensures DistSq(ps[3], o) == 65.0 && DistSq(ps[4], o) == 65.0 && DistSq(ps[5], o) == 53.0
  {
    DistSqPlane(ps[0], o);
    DistSqPlane(ps[1], o);
    DistSqPlane(ps[2], o);
    DistSqPlane(ps[3], o);
    DistSqPlane(ps[4], o);
    DistSqPlane(ps[5], o);
  }

  /** The one nearest candidate, when strictly nearer than all others, is the 1-nearest answer. */
  lemma NearestUnique<P>(t: Tree<P>, o: Vector, n0: Neighbour<P>)
    requires n0 in Candidates(t, o)
    requires forall m :: m in Candidates(t, o) && m != n0 ==> n0.dist < m.dist
    ensures KNearest(t, o, 1) == [n0]
  {
    var cs := Candidates(t, o);
    LevelOrderItems(t);
    assert |cs| > 0;
    var r := KNearest(t, o, 1);
    KNearestNearest(t, o, 1);
    var n := r[0];
    assert n in multiset(cs);
    assert r == [n];
    var kf := KFarther(t, o, 1);
    assert multiset(r) + multiset(kf) == multiset(cs);
    assert multiset(cs)[n0] > 0;
    assert multiset(kf)[n0] == multiset(cs)[n0] - multiset(r)[n0];
  }

  /** testKNearestNeighbours: the single nearest point to the origin is (2, 3), at squared distance 13. */
  lemma PlaneNearest(ps: seq<Vector>, o: Vector)
    requires PlaneLike(ps) && Get(o, 0) == 0.0 && Get(o, 1) == 0.0
    ensures KNearest(PlaneTree(ps), o, 1) == [Neighbour(ps[0], 0, 13.0)]
  {
    OriginDistances(ps, o);
    PlaneTreeLevelOrder(ps);
    assert Candidates(PlaneTree(ps), o) == [Neighbour(ps[0], 0, 13.0), Neighbour(ps[4], 4, 65.0),
      Neighbour(ps[1], 1, 41.0), Neighbour(ps[5], 5, 53.0), Neighbour(ps[3], 3, 65.0), Neighbour(ps[2], 2, 117.0)];
    NearestUnique(PlaneTree(ps), o, Neighbour(ps[0], 0, 13.0));
  }

  /** The squared distances of the six points to (5, 4). */
  lemma TargetDistances(ps: seq<Vector>, o: Vector)
    requires PlaneLike(ps) && Get(o, 0) == 5.0 && Get(o, 1) == 4.0
    ensures DistSq(ps[0], o) == 10.0 && DistSq(ps[1], o) == 0.0 && DistSq(ps[2], o) == 20.0
    ensures DistSq(ps[3], o) == 10.0 && DistSq(ps[4], o) == 18.0 && DistSq(ps[5], o) == 8.0
  {
    DistSqPlane(ps[0], o);
    DistSqPlane(ps[1], o);
    DistSqPlane(ps[2], o);
    DistSqPlane(ps[3], o);
    DistSqPlane(ps[4], o);
    DistSqPlane(ps[5], o);
  }

  lemma MulBelowOne(x: real)
    requires 0.0 <= x
    ensures x < 1.0 ==> x * x <= x
  {
    if x < 1.0 {
      var y := 1.0 - x;
      assert 0.0 < y;
      assert x * y >= 0.0;
      assert x * y == x - x * x;
    }
  }

  /** The pairs the radius search around (5, 4) with radius sqrt 10 reports, in search order. */
  lemma PlaneWithin(ps: seq<Vector>, o: Vector, r: real)
    requires PlaneLike(ps) && Get(o, 0) == 5.0 && Get(o, 1) == 4.0
    requires 0.0 <= r && r * r == 10.0
    ensures Within(PlaneTree(ps), o, r, 0, 2) == [(ps[0], 0), (ps[1], 1), (ps[3], 3), (ps[5], 5)]
  {
    TargetDistances(ps, o);
    MulBelowOne(r);
    assert Axis(0, 2) == 1 && Axis(1, 2) == 0 && Axis(2, 2) == 1;
    var a := Node(ps[4], 4, L(ps[5], 5), Leaf);
    var b := Node(ps[1], 1, L(ps[3], 3), L(ps[2], 2));
    assert Within(L(ps[2], 2), o, r, 2, 2) == [];
    assert Within(L(ps[3], 3), o, r, 2, 2) == [(ps[3], 3)];
    assert Within(b, o, r, 1, 2) == [(ps[1], 1), (ps[3], 3)];
    assert Within(L(ps[5], 5), o, r, 2, 2) == [(ps[5], 5)];
    assert Within(a, o, r, 1, 2) == [(ps[5], 5)];
  }

  /** The neighbour records the radius search around (5, 4) with radius sqrt 10 reports. */
  lemma PlaneReport(ps: seq<Vector>, o: Vector, r: real)
    requires PlaneLike(ps) && Get(o, 0) == 5.0 && Get(o, 1) == 4.0
    requires 0.0 <= r && r * r == DistSq(ps[0], ps[1])
    ensures RadiusSearch(PlaneTree(ps), o, r, 2)
      == [Neighbour(ps[0], 0, 10.0), Neighbour(ps[1], 1, 0.0), Neighbour(ps[3], 3, 10.0), Neighbour(ps[5], 5, 8.0)]
    ensures forall n :: n in RadiusSearch(PlaneTree(ps), o, r, 2) ==> n.dist <= r * r
  {
    DistSqPlane(ps[0], ps[1]);
    PlaneWithin(ps, o, r);
    TargetDistances(ps, o);
  }

  /**
   * testKNearestNeighboursRadiusSearch: around (5, 4), with the distance from
   * (2, 3) to (5, 4) as radius, sorting by the natural order and reversing lists
   * (5, 4), (7, 2), (4, 7), (2, 3), each within the radius.
   */
  lemma PlaneRadiusSearch(ps: seq<Vector>, o: Vector, r: real)
    requires PlaneLike(ps) && Get(o, 0) == 5.0 && Get(o, 1) == 4.0
    requires 0.0 <= r && r * r == DistSq(ps[0], ps[1])
    ensures |RadiusSearch(PlaneTree(ps), o, r, 2)| == 4
    ensures Reverse(SortBy(RadiusSearch(PlaneTree(ps), o, r, 2), NaturalKey))
      == [Neighbour(ps[1], 1, 0.0), Neighbour(ps[5], 5, 8.0), Neighbour(ps[3], 3, 10.0), Neighbour(ps[0], 0, 10.0)]
    ensures forall n :: n in RadiusSearch(PlaneTree(ps), o, r, 2) ==> n.dist <= r * r
  {
    PlaneReport(ps, o, r);
    var n0: Neighbour<nat> := Neighbour(ps[0], 0, 10.0);
    var n1: Neighbour<nat> := Neighbour(ps[1], 1, 0.0);
    var n3: Neighbour<nat> := Neighbour(ps[3], 3, 10.0);
    var n5: Neighbour<nat> := Neighbour(ps[5], 5, 8.0);
    SortFour(n0, n1, n3, n5);
    ReverseFour(n0, n3, n5, n1);
  }

  /** Sorting a sequence with one more element inserts it into the sorted rest. */
  lemma SortBySnoc<T>(s: seq<T>, p: seq<T>, x: T, key: T -> real)
    requires s == p + [x]
    ensures SortBy(s, key) == InsertBy(x, SortBy(p, key), key)
  {
    assert s[..|p|] == p;
  }

  lemma InsertFour(n0: Neighbour<nat>, n1: Neighbour<nat>, n3: Neighbour<nat>, n5: Neighbour<nat>)
    requires n0.dist == 10.0 && n1.dist == 0.0 && n3.dist == 10.0 && n5.dist == 8.0
    ensures InsertBy(n1, [n0], NaturalKey) == [n0, n1]
    ensures InsertBy(n3, [n0, n1], NaturalKey) == [n0, n3, n1]
    ensures InsertBy(n5, [n0, n3, n1], NaturalKey) == [n0, n3, n5, n1]
  {
    assert [n0, n1][1..] == [n1];
    assert [n0, n3, n1][1..] == [n3, n1];
    assert [n3, n1][1..] == [n1];
    assert InsertBy(n5, [n1], NaturalKey) == [n5, n1];
  }

  /** The stable sort of the four reported neighbours by their natural order. */
  lemma SortFour(n0: Neighbour<nat>, n1: Neighbour<nat>, n3: Neighbour<nat>, n5: Neighbour<nat>)
    requires n0.dist == 10.0 && n1.dist == 0.0 && n3.dist == 10.0 && n5.dist == 8.0
    ensures SortBy([n0, n1, n3, n5], NaturalKey) == [n0, n3, n5, n1]
  {
    InsertFour(n0, n1, n3, n5);
    SortThree(n0, n1, n3, n5);
    SortStep([n0, n1, n3, n5], [n0, n1, n3], n5, [n0, n3, n1], [n0, n3, n5, n1], NaturalKey);
  }

  lemma SortThree(n0: Neighbour<nat>, n1: Neighbour<nat>, n3: Neighbour<nat>, n5: Neighbour<nat>)
    requires n0.dist == 10.0 && n1.dist == 0.0 && n3.dist == 10.0 && n5.dist == 8.0
    ensures SortBy([n0, n1, n3], NaturalKey) == [n0, n3, n1]
  {
    InsertFour(n0, n1, n3, n5);
    SortStep([n0], [], n0, [], [n0], NaturalKey);
    SortStep([n0, n1], [n0], n1, [n0], [n0, n1], NaturalKey);
    SortStep([n0, n1, n3], [n0, n1], n3, [n0, n1], [n0, n3, n1], NaturalKey);
  }

  /** One step of the insertion sort, with the sorted prefix and the insertion already known. */
  lemma SortStep<T>(s: seq<T>, p: seq<T>, x: T, sorted: seq<T>, r: seq<T>, key: T -> real)
    requires s == p + [x] && SortBy(p, key) == sorted && InsertBy(x, sorted, key) == r
    ensures SortBy(s, key) == r
  {
    SortBySnoc(s, p, x, key);
  }

  lemma ReverseFour<T>(a: T, b: T, c: T, d: T)
    ensures Reverse([a, b, c, d]) == [d, c, b, a]
  {
    var rv := Reverse([a, b, c, d]);
    assert rv[0] == d && rv[1] == c && rv[2] == b && rv[3] == a;
  }

  /** A vector holding exactly these values, dense or sparse with one entry per index. */
  predicate Holds(v: Vector, values: seq<real>) {
    Dim(v) == |values| && forall i :: 0 <= i < |values| ==> Get(v, i) == values[i]
  }

  /** The median of a vector with pairwise distinct values, by the rank condition. */
  lemma MedianOfVector(v: Vector, values: seq<real>, m: nat)
    requires Holds(v, values) && m < |values|
    requires forall i, j :: 0 <= i < j < |values| ==> values[i] != values[j]
    requires CountBelow(values, Id, values[m]) <= |values| / 2 < CountAtMost(values, Id, values[m])
    ensures Median(Values(v)) == m
  {
    assert Values(v) == values;
    MedianUnique(values, m);
  }

  /** testMedian and testMedianSparse: the median of (2, 3) is at index 1. */
  lemma MedianTwoThree(v: Vector)
    requires Holds(v, [2.0, 3.0])
    ensures Median(Values(v)) == 1
  {
    MedianOfVector(v, [2.0, 3.0], 1);
  }

  /** The median of (9, 6) is at index 0. */
  lemma MedianNineSix(v: Vector)
    requires Holds(v, [9.0, 6.0])
    ensures Median(Values(v)) == 0
  {
    MedianOfVector(v, [9.0, 6.0], 0);
  }

  /** The median of (9, 6, 8) is at index 2. */
  lemma MedianNineSixEight(v: Vector)
    requires Holds(v, [9.0, 6.0, 8.0])
    ensures Median(Values(v)) == 2
  {
    MedianOfVector(v, [9.0, 6.0, 8.0], 2);
  }

  /** The median of (9, 8, 7) is at index 1. */
  lemma MedianNineEightSeven(v: Vector)
    requires Holds(v, [9.0, 8.0, 7.0])
    ensures Median(Values(v)) == 1
  {
    MedianOfVector(v, [9.0, 8.0, 7.0], 1);
  }

  /** The median of (8, 9, 6) is at index 0. */
  lemma MedianEightNineSix(v: Vector)
    requires Holds(v, [8.0, 9.0, 6.0])
    ensures Median(Values(v)) == 0
  {
    MedianOfVector(v, [8.0, 9.0, 6.0], 0);
  }

  /** testMedian: the five short dense vectors. */
  lemma MedianDenseVectors()
    ensures Median(Values(Dense([2.0, 3.0]))) == 1
    ensures Median(Values(Dense([9.0, 6.0]))) == 0
    ensures Median(Values(Dense([9.0, 6.0, 8.0]))) == 2
    ensures Median(Values(Dense([9.0, 8.0, 7.0]))) == 1
    ensures Median(Values(Dense([8.0, 9.0, 6.0]))) == 0
  {
    MedianTwoThree(Dense([2.0, 3.0]));
    MedianNineSix(Dense([9.0, 6.0]));
    MedianNineSixEight(Dense([9.0, 6.0, 8.0]));
    MedianNineEightSeven(Dense([9.0, 8.0, 7.0]));
    MedianEightNineSix(Dense([8.0, 9.0, 6.0]));
  }

  /** A sparse vector holding `values` at indices 0, 1, ..., as `new SparseDoubleVector(values)` does for non-zero values. */
  function SparseOf(values: seq<real>): Vector {
    Sparse(|values|, seq(|values|, i requires 0 <= i < |values| => (i, values[i])))
  }

  /** The sparse vector built from three values reads them back. */
  lemma SparseOfThree(x: real, y: real, z: real)
    ensures Holds(SparseOf([x, y, z]), [x, y, z])
  {
    var es := [(0, x), (1, y), (2, z)];
    assert SparseOf([x, y, z]) == Sparse(3, es);
    assert es[1..] == [(1, y), (2, z)] && es[1..][1..] == [(2, z)];
    assert Lookup(es[1..][1..], 2) == z;
    assert Lookup(es[1..], 2) == Lookup(es[1..][1..], 2);
    assert Lookup(es, 2) == Lookup(es[1..], 2);
    assert Lookup(es, 0) == x && Lookup(es, 1) == y;
  }

  /** The sparse vector built from two values reads them back. */
  lemma SparseOfTwo(x: real, y: real)
    ensures Holds(SparseOf([x, y]), [x, y])
  {
    var es := [(0, x), (1, y)];
    assert SparseOf([x, y]) == Sparse(2, es);
    assert es[1..] == [(1, y)];
    assert Lookup(es, 0) == x && Lookup(es, 1) == y;
  }

  /** testMedianSparse: the same five vectors in sparse form give the same indices. */
  lemma MedianVectors()
    ensures Median(Values(SparseOf([2.0, 3.0]))) == 1
    ensures Median(Values(SparseOf([9.0, 6.0]))) == 0
    ensures Median(Values(SparseOf([9.0, 6.0, 8.0]))) == 2
    ensures Median(Values(SparseOf([9.0, 8.0, 7.0]))) == 1
    ensures Median(Values(SparseOf([8.0, 9.0, 6.0]))) == 0
  {
    SparseOfTwo(2.0, 3.0);
    MedianTwoThree(SparseOf([2.0, 3.0]));
    SparseOfTwo(9.0, 6.0);
    MedianNineSix(SparseOf([9.0, 6.0]));
    SparseOfThree(9.0, 6.0, 8.0);
    MedianNineSixEight(SparseOf([9.0, 6.0, 8.0]));
    SparseOfThree(9.0, 8.0, 7.0);
    MedianNineEightSeven(SparseOf([9.0, 8.0, 7.0]));
    SparseOfThree(8.0, 9.0, 6.0);
    MedianEightNineSix(SparseOf([8.0, 9.0, 6.0]));
  }

  // ---------------------------------------------------- one-dimensional

  /** Right-leaning chain of the vectors `vs[i..n]`, the j-th with payload j. */
  function Chain(vs: seq<Vector>, i: nat, n: nat): Tree<nat>
    requires i <= n <= |vs|
    decreases n - i
  {
    if i == n then Leaf else Node(vs[i], i, Leaf, Chain(vs, i + 1, n))
  }

  /** Coordinate 0 never decreases along the sequence. */
  predicate Ascending(vs: seq<Vector>) {
    forall i, j :: 0 <= i < j < |vs| ==> Get(vs[i], 0) <= Get(vs[j], 0)
  }

  lemma {:induction false} ChainInsert(vs: seq<Vector>, i: nat, n: nat, depth: nat)
    requires i <= n < |vs| && Ascending(vs)
    ensures Insert(Chain(vs, i, n), vs[n], n, depth, 1) == Chain(vs, i, n + 1)
    decreases n - i
  {
    if i < n {
      ChainInsert(vs, i + 1, n, depth + 1);
    }
  }

  /** Adding vectors in ascending order to a one-dimensional tree builds a chain. */
  lemma {:induction false} ChainFrom(vs: seq<Vector>, n: nat)
    requires n <= |vs| && Ascending(vs)
    ensures InsertFrom(Chain(vs, 0, n), vs, n, 1) == Chain(vs, 0, |vs|)
    decreases |vs| - n
  {
    if n < |vs| {
      ChainInsert(vs, 0, n, 0);
      ChainFrom(vs, n + 1);
    }
  }

  /** A chain is traversed from its head down. */
  lemma {:induction false} ChainLevelOrder(vs: seq<Vector>, i: nat, n: nat)
    requires i <= n <= |vs|
    ensures LevelOrder(Chain(vs, i, n)) == Numbered(vs, i, n)
    decreases n - i
  {
    if i < n {
      var rest := Chain(vs, i + 1, n);
      VisitNode([Chain(vs, i, n)], [Leaf, rest]);
      SkipLeaf([Leaf, rest]);
      assert [Leaf, rest][1..] == [rest];
      ChainLevelOrder(vs, i + 1, n);
      assert Numbered(vs, i, n) == [(vs[i], i)] + Numbered(vs, i + 1, n);
    } else {
      OnlyLeaves([Chain(vs, i, n)]);
    }
  }

  /** Coordinate 0 strictly increases along the pairs. */
  predicate StrictlyAscending(items: seq<(Vector, nat)>) {
    forall i, j :: 0 <= i < j < |items| ==> Get(items[i].0, 0) < Get(items[j].0, 0)
  }

  /** In a strictly increasing sequence the value at `m` has exactly `m` values below it. */
  lemma {:induction false} CountIncreasing(s: seq<real>, m: nat)
    requires m < |s| && forall i, j :: 0 <= i < j < |s| ==> s[i] < s[j]
    ensures CountBelow(s, Id, s[m]) == m && CountAtMost(s, Id, s[m]) == m + 1
  {
    if m > 0 {
      CountIncreasing(s[1..], m - 1);
    } else {
      NoneBelow(s[1..], s[0]);
    }
  }

  lemma {:induction false} NoneBelow(s: seq<real>, x: real)
    requires forall i :: 0 <= i < |s| ==> x < s[i]
    ensures CountBelow(s, Id, x) == 0 && CountAtMost(s, Id, x) == 0
  {
    if s != [] {
      NoneBelow(s[1..], x);
    }
  }

  /** Splitting pairs already ordered around `c` keeps the two runs. */
  lemma {:induction false} SplitOrdered(xs: seq<(Vector, nat)>, ys: seq<(Vector, nat)>, c: real)
    requires forall i :: 0 <= i < |xs| ==> Get(xs[i].0, 0) < c
    requires forall i :: 0 <= i < |ys| ==> c <= Get(ys[i].0, 0)
    ensures Below(xs + ys, 0, c) == xs && NotBelow(xs + ys, 0, c) == ys
  {
    if xs == [] {
      assert xs + ys == ys;
      SplitAbove(ys, c);
    } else {
      SplitOrdered(xs[1..], ys, c);
      assert (xs + ys)[1..] == xs[1..] + ys;
    }
  }

  lemma {:induction false} SplitAbove(ys: seq<(Vector, nat)>, c: real)
    requires forall i :: 0 <= i < |ys| ==> c <= Get(ys[i].0, 0)
    ensures Below(ys, 0, c) == [] && NotBelow(ys, 0, c) == ys
  {
    if ys != [] {
      SplitAbove(ys[1..], c);
    }
  }

  /**
   * On a one-dimensional tree, rebuilding pairs sorted by their coordinate puts
   * the middle pair at the root and builds each half below it.
   */
  lemma BuildAscending(items: seq<(Vector, nat)>, depth: nat, m: nat, lo: seq<(Vector, nat)>, hi: seq<(Vector, nat)>,
                       x: Vector, p: nat)
    requires items != [] && StrictlyAscending(items)
    requires m == |items| / 2 && lo == items[..m] && hi == items[m + 1..] && items[m] == (x, p)
    ensures Build(items, depth, 1) == Node(x, p, Build(lo, depth + 1, 1), Build(hi, depth + 1, 1))
  {
    var cs := Coords(items, 0);
    CountIncreasing(cs, m);
    MedianUnique(cs, m);
    assert Axis(depth, 1) == 0;
    assert Pivot(items, 0) == m;
    assert Without(items, m) == lo + hi;
    SplitOrdered(lo, hi, Get(items[m].0, 0));
  }

  lemma BuildOne(items: seq<(Vector, nat)>, depth: nat)
    requires |items| == 1
    ensures Build(items, depth, 1) == L(items[0].0, items[0].1)
  {
    BuildAscending(items, depth, 0, [], [], items[0].0, items[0].1);
  }

  lemma BuildThree(items: seq<(Vector, nat)>, depth: nat)
    requires |items| == 3 && StrictlyAscending(items)
    ensures Build(items, depth, 1)
      == Node(items[1].0, items[1].1, L(items[0].0, items[0].1), L(items[2].0, items[2].1))
  {
    BuildAscending(items, depth, 1, [items[0]], [items[2]], items[1].0, items[1].1);
    BuildOne([items[0]], depth + 1);
    BuildOne([items[2]], depth + 1);
  }

  /** The seven vectors (1), ..., (7) of testBalanceByFix, in either storage form. */
  predicate LineLike(vs: seq<Vector>) {
    |vs| == 7 && forall i :: 0 <= i < 7 ==> Get(vs[i], 0) == (i + 1) as real
  }

  /** The balanced tree: (4) at the root, (2) and (6) below it, the rest as leaves. */
  function Balanced(vs: seq<Vector>): Tree<nat>
    requires |vs| == 7
  {
    Node(vs[3], 3, Node(vs[1], 1, L(vs[0], 0), L(vs[2], 2)), Node(vs[5], 5, L(vs[4], 4), L(vs[6], 6)))
  }

  function Low(vs: seq<Vector>): seq<(Vector, nat)>
    requires |vs| == 7
  {
    [(vs[0], 0), (vs[1], 1), (vs[2], 2)]
  }

  function High(vs: seq<Vector>): seq<(Vector, nat)>
    requires |vs| == 7
  {
    [(vs[4], 4), (vs[5], 5), (vs[6], 6)]
  }

  /** The seven pairs (vs[j], j) in order. */
  function Seven(vs: seq<Vector>): seq<(Vector, nat)>
    requires |vs| == 7
  {
    Low(vs) + [(vs[3], 3)] + High(vs)
  }

  lemma BuildSevenTop(vs: seq<Vector>, depth: nat)
    requires |vs| == 7 && StrictlyAscending(Seven(vs))
    ensures Build(Seven(vs), depth, 1) == Node(vs[3], 3, Build(Low(vs), depth + 1, 1), Build(High(vs), depth + 1, 1))
  {
    BuildMiddle(Seven(vs), Low(vs), High(vs), vs[3], 3, 3, depth);
  }

  /** Ascending pairs of odd length: the middle one goes to the root. */
  lemma BuildMiddle(items: seq<(Vector, nat)>, lo: seq<(Vector, nat)>, hi: seq<(Vector, nat)>, x: Vector, m: nat, p: nat, depth: nat)
    requires |items| == 2 * m + 1 && StrictlyAscending(items)
    requires items[..m] == lo && items[m + 1..] == hi && items[m] == (x, p)
    ensures Build(items, depth, 1) == Node(x, p, Build(lo, depth + 1, 1), Build(hi, depth + 1, 1))
  {
    BuildAscending(items, depth, m, lo, hi, x, p);
  }

  lemma BuildSevenHalves(vs: seq<Vector>, depth: nat)
    requires LineLike(vs)
    ensures Build(Low(vs), depth, 1) == Node(vs[1], 1, L(vs[0], 0), L(vs[2], 2))
    ensures Build(High(vs), depth, 1) == Node(vs[5], 5, L(vs[4], 4), L(vs[6], 6))
  {
    SevenParts(vs);
    BuildThree(Low(vs), depth);
    BuildThree(High(vs), depth);
  }

  /** Rebuilding the seven ascending pairs at any depth gives the balanced tree. */
  lemma BuildSeven(vs: seq<Vector>, depth: nat)
    requires LineLike(vs)
    ensures Build(Seven(vs), depth, 1) == Balanced(vs)
  {
    SevenParts(vs);
    BuildSevenTop(vs, depth);
    BuildSevenHalves(vs, depth + 1);
  }

  lemma SevenParts(vs: seq<Vector>)
    requires LineLike(vs)
    ensures StrictlyAscending(Seven(vs))
    ensures Seven(vs)[..3] == Low(vs) && Seven(vs)[4..] == High(vs) && Seven(vs)[3] == (vs[3], 3)
    ensures StrictlyAscending(Low(vs)) && StrictlyAscending(High(vs))
  {
  }

  lemma SevenNumbered(vs: seq<Vector>)
    requires |vs| == 7
    ensures Numbered(vs, 0, 7) == Seven(vs)
  {
    NumberedFrom(vs, 0, |vs|, Seven(vs));
  }

  /** Numbered is the one sequence of length n - i holding (vs[i + j], i + j) at each j. */
  lemma NumberedFrom(vs: seq<Vector>, i: nat, n: nat, pairs: seq<(Vector, nat)>)
    requires i <= n <= |vs| && |pairs| == n - i
    requires forall j :: 0 <= j < n - i ==> pairs[j] == (vs[i + j], i + j)
    ensures Numbered(vs, i, n) == pairs
  {
  }

  lemma BalancedLevelOrder(vs: seq<Vector>)
    requires |vs| == 7
    ensures LevelOrder(Balanced(vs))
      == [(vs[3], 3), (vs[1], 1), (vs[5], 5), (vs[0], 0), (vs[2], 2), (vs[4], 4), (vs[6], 6)]
  {
    var a := Node(vs[1], 1, L(vs[0], 0), L(vs[2], 2));
    var b := Node(vs[5], 5, L(vs[4], 4), L(vs[6], 6));
    var l0, l2, l4, l6 := L(vs[0], 0), L(vs[2], 2), L(vs[4], 4), L(vs[6], 6);
    VisitNode([Balanced(vs)], [a, b]);
    VisitNode([a, b], [b, l0, l2]);
    VisitNode([b, l0, l2], [l0, l2, l4, l6]);
    VisitNode([l0, l2, l4, l6], [l2, l4, l6, Leaf, Leaf]);
    VisitNode([l2, l4, l6, Leaf, Leaf], [l4, l6, Leaf, Leaf, Leaf, Leaf]);
    VisitNode([l4, l6, Leaf, Leaf, Leaf, Leaf], [l6, Leaf, Leaf, Leaf, Leaf, Leaf, Leaf]);
    var leaves: seq<Tree<nat>> := [Leaf, Leaf, Leaf, Leaf, Leaf, Leaf, Leaf, Leaf];
    VisitNode([l6, Leaf, Leaf, Leaf, Leaf, Leaf, Leaf], leaves);
    OnlyLeaves(leaves);
  }

  /** Adding (1), ..., (7) in order to a one-dimensional tree and balancing it gives the balanced tree. */
  lemma BalanceChain(vs: seq<Vector>)
    requires LineLike(vs)
    ensures Balance(InsertFrom(Leaf, vs, 0, 1), 1) == Balanced(vs)
  {
    assert Ascending(vs);
    ChainFrom(vs, 0);
    ChainLevelOrder(vs, 0, 7);
    SevenNumbered(vs);
    BuildSeven(vs, 0);
  }

  lemma VecsSeven(a: (Vector, nat), b: (Vector, nat), c: (Vector, nat), d: (Vector, nat),
                  e: (Vector, nat), f: (Vector, nat), g: (Vector, nat))
    ensures Vecs([a, b, c, d, e, f, g]) == [a.0, b.0, c.0, d.0, e.0, f.0, g.0]
  {
  }

  /**
   * testBalanceByFix: adding (1), ..., (7) in order and balancing gives a tree
   * iterated as (4), (2), (6), (1), (3), (5), (7).
   */
  lemma BalanceTest(vs: seq<Vector>)
    requires LineLike(vs)
    ensures Vecs(LevelOrder(Balance(InsertFrom(Leaf, vs, 0, 1), 1)))
      == [vs[3], vs[1], vs[5], vs[0], vs[2], vs[4], vs[6]]
  {
    BalanceChain(vs);
    BalancedLevelOrder(vs);
    VecsSeven((vs[3], 3), (vs[1], 1), (vs[5], 5), (vs[0], 0), (vs[2], 2), (vs[4], 4), (vs[6], 6));
  }

  // ------------------------------------------------------- range query

  /** The pairs of `items` that lie inside the box, in order. */
  function Inside(items: seq<(Vector, nat)>, lower: Vector, upper: Vector): (r: seq<(Vector, nat)>)
    ensures |r| <= |items|
  {
    if items == [] then []
    else (if InBox(items[0].0, lower, upper, 1) then [items[0]] else []) + Inside(items[1..], lower, upper)
  }

  lemma {:induction false} InsideCount(items: seq<(Vector, nat)>, lower: Vector, upper: Vector)
    ensures forall e ::
      multiset(Inside(items, lower, upper))[e] == if InBox(e.0, lower, upper, 1) then multiset(items)[e] else 0
  {
    if items != [] {
      InsideCount(items[1..], lower, upper);
      assert items == [items[0]] + items[1..];
    }
  }

  /** A one-dimensional range query over a chain whose coordinates stay below the upper bound visits it all. */
  lemma {:induction false} RangeChain(vs: seq<Vector>, i: nat, n: nat, lower: Vector, upper: Vector, depth: nat)
    requires i <= n <= |vs|
    requires forall j :: i <= j < n ==> Get(vs[j], 0) <= Get(upper, 0)
    ensures Range(Chain(vs, i, n), lower, upper, depth, 1) == Inside(Numbered(vs, i, n), lower, upper)
    decreases n - i
  {
    if i < n {
      var head: seq<(Vector, nat)> := if InBox(vs[i], lower, upper, 1) then [(vs[i], i)] else [];
      assert Range(Chain(vs, i, n), lower, upper, depth, 1) == head + Range(Chain(vs, i + 1, n), lower, upper, depth + 1, 1) by {
        assert Chain(vs, i, n) == Node(vs[i], i, Leaf, Chain(vs, i + 1, n));
        RangeNode(vs[i], i, Chain(vs, i + 1, n), lower, upper, depth);
      }
      assert Inside(Numbered(vs, i, n), lower, upper) == head + Inside(Numbered(vs, i + 1, n), lower, upper) by {
        InsideFirst(vs, i, n, lower, upper);
      }
      RangeChain(vs, i + 1, n, lower, upper, depth + 1);
    }
  }

  lemma RangeNode(q: Vector, x: nat, rest: Tree<nat>, lower: Vector, upper: Vector, depth: nat)
    requires Get(q, 0) <= Get(upper, 0)
    ensures Range(Node(q, x, Leaf, rest), lower, upper, depth, 1)
      == (if InBox(q, lower, upper, 1) then [(q, x)] else []) + Range(rest, lower, upper, depth + 1, 1)
  {
    assert Axis(depth, 1) == 0;
  }

  lemma InsideFirst(vs: seq<Vector>, i: nat, n: nat, lower: Vector, upper: Vector)
    requires i < n <= |vs|
    ensures Inside(Numbered(vs, i, n), lower, upper)
      == (if InBox(vs[i], lower, upper, 1) then [(vs[i], i)] else []) + Inside(Numbered(vs, i + 1, n), lower, upper)
  {
    assert Numbered(vs, i, n)[1..] == Numbered(vs, i + 1, n);
  }

  /** A one-dimensional bound with coordinate `c`. */
  predicate Bound(v: Vector, c: real) {
    Get(v, 0) == c
  }

  /** The vectors (2), (3), (4), (5), (6), (8), in either storage form. */
  predicate RangeLike(vs: seq<Vector>) {
    |vs| == 6
    && Get(vs[0], 0) == 2.0 && Get(vs[1], 0) == 3.0 && Get(vs[2], 0) == 4.0
    && Get(vs[3], 0) == 5.0 && Get(vs[4], 0) == 6.0 && Get(vs[5], 0) == 8.0
  }

  /** Filtering the numbered pairs from `i` on keeps the first of them when it lies inside the box... */
  lemma InsideKeep(vs: seq<Vector>, i: nat, n: nat, lower: Vector, upper: Vector)
    requires i < n <= |vs| && InBox(vs[i], lower, upper, 1)
    ensures Inside(Numbered(vs, i, n), lower, upper) == [(vs[i], i)] + Inside(Numbered(vs, i + 1, n), lower, upper)
  {
    InsideFirst(vs, i, n, lower, upper);
  }

  /** ... and drops it when it lies outside. */
  lemma InsideSkip(vs: seq<Vector>, i: nat, n: nat, lower: Vector, upper: Vector)
    requires i < n <= |vs| && !InBox(vs[i], lower, upper, 1)
    ensures Inside(Numbered(vs, i, n), lower, upper) == Inside(Numbered(vs, i + 1, n), lower, upper)
  {
    InsideFirst(vs, i, n, lower, upper);
  }

  /** When every pair from `i` on lies inside the box, filtering keeps them all. */
  lemma {:induction false} InsideAll(vs: seq<Vector>, i: nat, n: nat, lower: Vector, upper: Vector)
    requires i <= n <= |vs|
    requires forall j :: i <= j < n ==> InBox(vs[j], lower, upper, 1)
    ensures Inside(Numbered(vs, i, n), lower, upper) == Numbered(vs, i, n)
    decreases n - i
  {
    if i < n {
      InsideKeep(vs, i, n, lower, upper);
      InsideAll(vs, i + 1, n, lower, upper);
    }
  }

  lemma NumberedVecs(vs: seq<Vector>, i: nat, n: nat)
    requires i <= n <= |vs|
    ensures Vecs(Numbered(vs, i, n)) == vs[i..n]
  {
  }

  /** In one dimension the box is the closed interval between the bounds. */
  lemma InBoxLine(v: Vector, lower: Vector, upper: Vector)
    ensures InBox(v, lower, upper, 1) <==> Get(lower, 0) <= Get(v, 0) <= Get(upper, 0)
  {
    if Get(lower, 0) <= Get(v, 0) <= Get(upper, 0) {
      forall i | 0 <= i < 1 ensures Get(lower, i) <= Get(v, i) <= Get(upper, i) {
        assert i == 0;
      }
    }
  }

  lemma InsideRange(vs: seq<Vector>, lower: Vector, upper: Vector)
    requires RangeLike(vs) && Bound(lower, 4.0) && Bound(upper, 8.0)
    ensures Inside(Numbered(vs, 0, 6), lower, upper) == Numbered(vs, 2, 6)
  {
    InBoxLine(vs[0], lower, upper);
    InBoxLine(vs[1], lower, upper);
    forall j | 2 <= j < 6 ensures InBox(vs[j], lower, upper, 1) {
      InBoxLine(vs[j], lower, upper);
    }
    InsideSkip(vs, 0, 6, lower, upper);
    InsideSkip(vs, 1, 6, lower, upper);
    InsideAll(vs, 2, 6, lower, upper);
  }

  /**
   * testRangeQuery, first part: adding (2), (3), (4), (5), (6), (8) in order and
   * querying the box from (4) to (8) gives (4), (5), (6), (8) in that order.
   */
  lemma RangeAscending(vs: seq<Vector>, lower: Vector, upper: Vector)
    requires RangeLike(vs) && Bound(lower, 4.0) && Bound(upper, 8.0)
    ensures Vecs(Range(InsertFrom(Leaf, vs, 0, 1), lower, upper, 0, 1)) == vs[2..]
  {
    RangeAscendingPairs(vs, lower, upper);
    NumberedVecs(vs, 2, 6);
  }

  lemma RangeAscendingPairs(vs: seq<Vector>, lower: Vector, upper: Vector)
    requires RangeLike(vs) && Bound(lower, 4.0) && Bound(upper, 8.0)
    ensures Range(InsertFrom(Leaf, vs, 0, 1), lower, upper, 0, 1) == Numbered(vs, 2, 6)
  {
    assert Ascending(vs);
    ChainFrom(vs, 0);
    assert forall j :: 0 <= j < 6 ==> Get(vs[j], 0) <= Get(upper, 0);
    RangeChain(vs, 0, 6, lower, upper, 0);
    InsideRange(vs, lower, upper);
  }

  /** The vectors (2), (8), (4), (3), (6), (5), in either storage form. */
  predicate ShuffledLike(ws: seq<Vector>) {
    |ws| == 6
    && Get(ws[0], 0) == 2.0 && Get(ws[1], 0) == 8.0 && Get(ws[2], 0) == 4.0
    && Get(ws[3], 0) == 3.0 && Get(ws[4], 0) == 6.0 && Get(ws[5], 0) == 5.0
  }

  lemma InsideShuffled(ws: seq<Vector>, lower: Vector, upper: Vector)
    requires ShuffledLike(ws) && Bound(lower, 4.0) && Bound(upper, 8.0)
    ensures |Inside(Numbered(ws, 0, 6), lower, upper)| == 4
  {
    InBoxLine(ws[0], lower, upper);
    InBoxLine(ws[1], lower, upper);
    InBoxLine(ws[2], lower, upper);
    InBoxLine(ws[3], lower, upper);
    InBoxLine(ws[4], lower, upper);
    InBoxLine(ws[5], lower, upper);
    InsideSkip(ws, 0, 6, lower, upper);
    InsideKeep(ws, 1, 6, lower, upper);
    InsideKeep(ws, 2, 6, lower, upper);
    InsideSkip(ws, 3, 6, lower, upper);
    InsideKeep(ws, 4, 6, lower, upper);
    InsideKeep(ws, 5, 6, lower, upper);
    assert Numbered(ws, 6, 6) == [];
  }

  /** A one-dimensional tree built by adding `vs` is ordered and stores the numbered pairs. */
  lemma Added(vs: seq<Vector>)
    ensures Ordered(InsertFrom(Leaf, vs, 0, 1), 0, 1)
    ensures Items(InsertFrom(Leaf, vs, 0, 1)) == multiset(Numbered(vs, 0, |vs|))
  {
    InsertFromOrdered(Leaf, vs, 0, 1);
    InsertFromItems(Leaf, vs, 0, 1);
  }

  /** A one-dimensional range query reports, in some order, exactly the stored pairs inside the box. */
  lemma RangeFilter(t: Tree<nat>, items: seq<(Vector, nat)>, lower: Vector, upper: Vector)
    requires Ordered(t, 0, 1) && Items(t) == multiset(items)
    ensures multiset(Range(t, lower, upper, 0, 1)) == multiset(Inside(items, lower, upper))
  {
    RangeQueryItems(t, lower, upper, 1);
    InsideCount(items, lower, upper);
    SameCounts(Range(t, lower, upper, 0, 1), Inside(items, lower, upper), Items(t), lower, upper);
  }

  /** Two sequences that each count the pairs of `m` inside the box hold the same pairs. */
  lemma SameCounts(r: seq<(Vector, nat)>, s: seq<(Vector, nat)>, m: multiset<(Vector, nat)>, lower: Vector, upper: Vector)
    requires forall e :: multiset(r)[e] == if InBox(e.0, lower, upper, 1) then m[e] else 0
    requires forall e :: multiset(s)[e] == if InBox(e.0, lower, upper, 1) then m[e] else 0
    ensures multiset(r) == multiset(s)
  {
    assert forall e :: multiset(r)[e] == multiset(s)[e];
  }

  /** So a range query after adding `vs` reports the pairs of `vs` inside the box. */
  lemma RangeInside(vs: seq<Vector>, lower: Vector, upper: Vector)
    ensures multiset(Range(InsertFrom(Leaf, vs, 0, 1), lower, upper, 0, 1))
      == multiset(Inside(Numbered(vs, 0, |vs|), lower, upper))
  {
    Added(vs);
    RangeFilter(InsertFrom(Leaf, vs, 0, 1), Numbered(vs, 0, |vs|), lower, upper);
  }

  /**
   * testRangeQuery, second part: adding (2), (8), (4), (3), (6), (5) and querying
   * the box from (4) to (8) reports four vectors. Follows from the proved
   * completeness and soundness of the pruned query.
   */
  lemma RangeShuffled(ws: seq<Vector>, lower: Vector, upper: Vector)
    requires ShuffledLike(ws) && Bound(lower, 4.0) && Bound(upper, 8.0)
    ensures |Range(InsertFrom(Leaf, ws, 0, 1), lower, upper, 0, 1)| == 4
  {
    var r := Range(InsertFrom(Leaf, ws, 0, 1), lower, upper, 0, 1);
    var inside := Inside(Numbered(ws, 0, 6), lower, upper);
    RangeInside(ws, lower, upper);
    InsideShuffled(ws, lower, upper);
    assert |r| == |multiset(r)| == |multiset(inside)| == |inside|;
  }

  // ------------------------------------------------- strict comparisons

  /** testStrictHigherLower, over the one-dimensional vectors (2), (5) and (10). */
  lemma StrictTest(lower: Vector, current: Vector, upper: Vector)
    requires Dim(lower) == 1 && Dim(current) == 1 && Dim(upper) == 1
    requires Bound(lower, 2.0) && Bound(current, 5.0) && Bound(upper, 10.0)
    ensures StrictHigher(lower, current) && StrictHigher(current, upper)
    ensures StrictLower(upper, current) && StrictLower(current, lower)
  {
  }
}
