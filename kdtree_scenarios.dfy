/**
 * The KDTreeTest scenarios driven through the KDTree class, as the tests do:
 * a fresh tree, one `add` per point, then a read of the result.
 */
module KDTreeScenarios {
  import opened Vectors
  import opened SeqSort
  import opened KDTrees
  import opened KDTreeExamples

  /** testInsert: six `add` calls, then the iterator yields the level order (2,3), (8,1), (5,4), (7,2), (4,7), (9,6). */
  method InsertScenario(ps: seq<Vector>) returns (elements: seq<(Vector, nat)>)
    requires PlaneLike(ps)
    ensures elements == [(ps[0], 0), (ps[4], 4), (ps[1], 1), (ps[5], 5), (ps[3], 3), (ps[2], 2)]
  {
    var tree := new KDTree<nat>();
    var i := 0;
    while i < 6
      invariant 0 <= i <= 6 && tree.Valid() && tree.root == PlaneStage(ps, i)
      invariant 0 < i ==> tree.dimension == 2
    {
      PlaneStep(ps, i);
      var ok := tree.Add(ps[i], i);
      i := i + 1;
    }
    elements := tree.Elements();
    PlaneTreeLevelOrder(ps);
  }

  /** One `add` per point, in order: the tree then holds what InsertFrom builds from an empty tree. */
  method AddAll(vs: seq<Vector>, k: nat) returns (tree: KDTree<nat>)
    requires forall i :: 0 <= i < |vs| ==> Dim(vs[i]) == k
    ensures fresh(tree) && tree.Valid() && tree.root == InsertFrom(Leaf, vs, 0, k) && tree.size == |vs|
    ensures 0 < |vs| ==> tree.dimension == k
  {
    tree := new KDTree<nat>();
    ghost var t: Tree<nat> := Leaf;
    var i := 0;
    while i < |vs|
      invariant 0 <= i <= |vs| && tree.Valid() && tree.size == i && tree.root == t
      invariant InsertFrom(t, vs, i, k) == InsertFrom(Leaf, vs, 0, k)
      invariant if i == 0 then t == Leaf else tree.dimension == k
    {
      t := Insert(t, vs[i], i, 0, k);
      AddPoint(tree, vs[i], i, k);
      i := i + 1;
    }
  }

  /** One `add` of a point of the tree's dimension `k` (or into an empty tree): it is accepted and inserted. */
  method AddPoint(tree: KDTree<nat>, v: Vector, p: nat, k: nat)
    requires tree.Valid() && Dim(v) == k && (tree.root == Leaf || tree.dimension == k)
    modifies tree
    ensures tree.Valid() && tree.dimension == k && tree.size == old(tree.size) + 1
    ensures tree.root == Insert(old(tree.root), v, p, 0, k)
  {
    var ok := tree.Add(v, p);
  }

  /** testBalanceBySort: 1..7 added in ascending order, then balanced; the iterator yields 4, 2, 6, 1, 3, 5, 7. */
  method BalanceScenario(vs: seq<Vector>) returns (elements: seq<(Vector, nat)>)
    requires LineLike(vs) && forall i :: 0 <= i < 7 ==> Dim(vs[i]) == 1
    ensures elements == [(vs[3], 3), (vs[1], 1), (vs[5], 5), (vs[0], 0), (vs[2], 2), (vs[4], 4), (vs[6], 6)]
  {
    var tree := AddAll(vs, 1);
    tree.BalanceBySort();
    BalanceChain(vs);
    elements := tree.Elements();
    BalancedLevelOrder(vs);
  }

  /** testRangeQuery: 2, 3, 4, 5, 6, 8 added in ascending order; the range [4, 8] yields 4, 5, 6, 8. */
  method RangeScenario(vs: seq<Vector>, lower: Vector, upper: Vector) returns (found: seq<Vector>)
    requires RangeLike(vs) && Bound(lower, 4.0) && Bound(upper, 8.0)
    requires forall i :: 0 <= i < 6 ==> Dim(vs[i]) == 1
    ensures found == vs[2..]
  {
    var tree := AddAll(vs, 1);
    found := Vecs(tree.RangeQuery(lower, upper));
    RangeAscending(vs, lower, upper);
  }

  /** testRangeQuery, shuffled insertion order: the range [4, 8] still yields four points. */
  method ShuffledRangeScenario(ws: seq<Vector>, lower: Vector, upper: Vector) returns (count: nat)
    requires ShuffledLike(ws) && Bound(lower, 4.0) && Bound(upper, 8.0)
    requires forall i :: 0 <= i < 6 ==> Dim(ws[i]) == 1
    ensures count == 4
  {
    var tree := AddAll(ws, 1);
    count := |tree.RangeQuery(lower, upper)|;
    RangeShuffled(ws, lower, upper);
  }

  /** testNearestNeighbours: the single nearest neighbour of the origin is the stored (2,3), at squared distance 13. */
  method NearestScenario(ps: seq<Vector>, origin: Vector) returns (nearest: seq<Neighbour<nat>>)
    requires PlaneLike(ps) && Get(origin, 0) == 0.0 && Get(origin, 1) == 0.0
    ensures nearest == [Neighbour(ps[0], 0, 13.0)]
  {
    var tree := AddAll(ps, 2);
    PlaneInsert(ps);
    nearest := tree.NearestNeighbours(origin, 1);
    PlaneNearest(ps, origin);
  }

  /**
   * testRadiusNeighbours: around (5,4) with the distance to (2,3) as radius, four points come back;
   * sorted by natural order and reversed they run from nearest to farthest.
   */
  method RadiusScenario(ps: seq<Vector>, target: Vector, radius: real) returns (found: seq<Neighbour<nat>>, report: seq<Neighbour<nat>>)
    requires PlaneLike(ps) && Get(target, 0) == 5.0 && Get(target, 1) == 4.0
    requires 0.0 <= radius && radius * radius == DistSq(ps[0], ps[1])
    ensures |found| == 4 && forall n :: n in found ==> n.dist <= radius * radius
    ensures report == [Neighbour(ps[1], 1, 0.0), Neighbour(ps[5], 5, 8.0), Neighbour(ps[3], 3, 10.0), Neighbour(ps[0], 0, 10.0)]
  {
    var tree := AddAll(ps, 2);
    found := tree.RadiusNeighbours(target, radius);
    assert found == RadiusSearch(PlaneTree(ps), target, radius, 2) by { PlaneInsert(ps); }
    report := Reverse(SortBy(found, NaturalKey));
    PlaneRadiusSearch(ps, target, radius);
  }
}
