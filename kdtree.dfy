/**
 * The k-d tree of de.jungblut.datastructure.KDTree: an unbalanced binary tree
 * of k-dimensional vectors, each stored with a payload, grown by `add`,
 * rebuilt by `balanceBySort`, and read by level-order iteration, range
 * queries and nearest-neighbour searches.
 *
 * The node at depth d splits on coordinate (d + 1) mod k; a vector whose
 * coordinate is strictly smaller goes left, any other goes right. Distances
 * are squared Euclidean distances, which order and bound exactly as the
 * Euclidean ones do when the radius is squared as well.
 */
module KDTrees {
  import opened Vectors
  import opened SeqSort

  datatype Tree<P> = Leaf | Node(point: Vector, payload: P, left: Tree<P>, right: Tree<P>)

  /** KDTree.VectorDistanceTuple: a stored vector, its payload and its distance to the query. */
  datatype Neighbour<P> = Neighbour(vector: Vector, payload: P, dist: real)

  /** The coordinate a node at `depth` splits on. */
  function Axis(depth: nat, k: nat): nat {
    if k == 0 then 0 else (depth + 1) % k
  }

  function Size<P>(t: Tree<P>): nat {
    match t
    case Leaf => 0
    case Node(_, _, l, r) => 1 + Size(l) + Size(r)
  }

  /** The stored (vector, payload) pairs. */
  ghost function Items<P>(t: Tree<P>): multiset<(Vector, P)> {
    match t
    case Leaf => multiset{}
    case Node(q, x, l, r) => multiset{(q, x)} + Items(l) + Items(r)
  }

  /** Every stored vector has dimension `k`. */
  ghost predicate AllDim<P>(t: Tree<P>, k: nat) {
    forall e :: e in Items(t) ==> Dim(e.0) == k
  }

  /** No stored vector has coordinate `a` above `c`. */
  ghost predicate AtMost<P>(t: Tree<P>, a: nat, c: real) {
    forall e :: e in Items(t) ==> Get(e.0, a) <= c
  }

  /** No stored vector has coordinate `a` below `c`. */
  ghost predicate AtLeast<P>(t: Tree<P>, a: nat, c: real) {
    forall e :: e in Items(t) ==> c <= Get(e.0, a)
  }

  /**
   * The search-tree invariant: below a node splitting on coordinate a, the
   * left subtree holds no larger and the right subtree no smaller coordinate a.
   */
  ghost predicate Ordered<P>(t: Tree<P>, depth: nat, k: nat) {
    match t
    case Leaf => true
    case Node(q, _, l, r) =>
      var a := Axis(depth, k);
      && AtMost(l, a, Get(q, a))
      && AtLeast(r, a, Get(q, a))
      && Ordered(l, depth + 1, k)
      && Ordered(r, depth + 1, k)
  }

  // ---------------------------------------------------------------- add

  /** `add(vector, payload)` below a node at `depth`. */
  function Insert<P>(t: Tree<P>, v: Vector, p: P, depth: nat, k: nat): (r: Tree<P>)
    ensures Items(r) == Items(t) + multiset{(v, p)}
    ensures Size(r) == Size(t) + 1
  {
    match t
    case Leaf => Node(v, p, Leaf, Leaf)
    case Node(q, x, l, r) =>
      var a := Axis(depth, k);
      if Get(v, a) < Get(q, a) then Node(q, x, Insert(l, v, p, depth + 1, k), r)
      else Node(q, x, l, Insert(r, v, p, depth + 1, k))
  }

  /** Insertion keeps the search-tree invariant. */
  lemma {:induction false} InsertOrdered<P>(t: Tree<P>, v: Vector, p: P, depth: nat, k: nat)
    requires Ordered(t, depth, k)
    ensures Ordered(Insert(t, v, p, depth, k), depth, k)
  {
    match t
    case Leaf =>
    case Node(q, x, l, r) =>
      var a := Axis(depth, k);
      if Get(v, a) < Get(q, a) {
        var l' := Insert(l, v, p, depth + 1, k);
        InsertOrdered(l, v, p, depth + 1, k);
        InsertAtMost(l, v, p, depth + 1, k, a, Get(q, a));
        assert Insert(t, v, p, depth, k) == Node(q, x, l', r);
        OrderedNode(q, x, l', r, depth, k);
      } else {
        var r' := Insert(r, v, p, depth + 1, k);
        InsertOrdered(r, v, p, depth + 1, k);
        InsertAtLeast(r, v, p, depth + 1, k, a, Get(q, a));
        assert Insert(t, v, p, depth, k) == Node(q, x, l, r');
        OrderedNode(q, x, l, r', depth, k);
      }
  }

  lemma OrderedNode<P>(q: Vector, x: P, l: Tree<P>, r: Tree<P>, depth: nat, k: nat)
    requires AtMost(l, Axis(depth, k), Get(q, Axis(depth, k)))
    requires AtLeast(r, Axis(depth, k), Get(q, Axis(depth, k)))
    requires Ordered(l, depth + 1, k) && Ordered(r, depth + 1, k)
    ensures Ordered(Node(q, x, l, r), depth, k)
  {
  }

  /** An upper bound on coordinate `a` that held for a subtree and the new vector holds after insertion. */
  lemma InsertAtMost<P>(t: Tree<P>, v: Vector, p: P, depth: nat, k: nat, a: nat, c: real)
    requires AtMost(t, a, c) && Get(v, a) <= c
    ensures AtMost(Insert(t, v, p, depth, k), a, c)
  {
    assert forall e :: e in Items(Insert(t, v, p, depth, k)) ==> e == (v, p) || e in Items(t);
  }

  /** A lower bound on coordinate `a` that held for a subtree and the new vector holds after insertion. */
  lemma InsertAtLeast<P>(t: Tree<P>, v: Vector, p: P, depth: nat, k: nat, a: nat, c: real)
    requires AtLeast(t, a, c) && c <= Get(v, a)
    ensures AtLeast(Insert(t, v, p, depth, k), a, c)
  {
    assert forall e :: e in Items(Insert(t, v, p, depth, k)) ==> e == (v, p) || e in Items(t);
  }

  /**
   * Adds `vs[i..]` in order to `t` (of dimension k), the vector at position j
   * with payload j.
   */
  function InsertFrom(t: Tree<nat>, vs: seq<Vector>, i: nat, k: nat): (r: Tree<nat>)
    requires i <= |vs|
    ensures Size(r) == Size(t) + |vs| - i
    decreases |vs| - i
  {
    if i == |vs| then t else InsertFrom(Insert(t, vs[i], i, 0, k), vs, i + 1, k)
  }

  /** The pairs (vs[j], j) for j from i up to n. */
  function Numbered(vs: seq<Vector>, i: nat, n: nat): (r: seq<(Vector, nat)>)
    requires i <= n <= |vs|
    ensures |r| == n - i && forall j :: 0 <= j < n - i ==> r[j] == (vs[i + j], i + j)
    decreases n - i
  {
    if i == n then [] else [(vs[i], i)] + Numbered(vs, i + 1, n)
  }

  /** Adding `vs[i..]` stores exactly the pairs (vs[j], j) for j from i on. */
  lemma {:induction false} InsertFromItems(t: Tree<nat>, vs: seq<Vector>, i: nat, k: nat)
    requires i <= |vs|
    ensures Items(InsertFrom(t, vs, i, k)) == Items(t) + multiset(Numbered(vs, i, |vs|))
    decreases |vs| - i
  {
    if i < |vs| {
      InsertFromItems(Insert(t, vs[i], i, 0, k), vs, i + 1, k);
    }
  }

  /** Adding vectors one by one keeps the search-tree invariant. */
  lemma {:induction false} InsertFromOrdered(t: Tree<nat>, vs: seq<Vector>, i: nat, k: nat)
    requires i <= |vs| && Ordered(t, 0, k)
    ensures Ordered(InsertFrom(t, vs, i, k), 0, k)
    decreases |vs| - i
  {
    if i < |vs| {
      InsertOrdered(t, vs[i], i, 0, k);
      InsertFromOrdered(Insert(t, vs[i], i, 0, k), vs, i + 1, k);
    }
  }

  // ---------------------------------------------------------- iteration

  function QueueSize<P>(queue: seq<Tree<P>>): nat {
    if queue == [] then 0 else Size(queue[0]) + QueueSize(queue[1..])
  }

  lemma {:induction false} QueueSizeAppend<P>(a: seq<Tree<P>>, b: seq<Tree<P>>)
    ensures QueueSize(a + b) == QueueSize(a) + QueueSize(b)
  {
    if a == [] {
      assert a + b == b;
    } else {
      assert (a + b)[1..] == a[1..] + b;
      QueueSizeAppend(a[1..], b);
    }
  }

  lemma QueueSizePair<P>(l: Tree<P>, r: Tree<P>)
    ensures QueueSize([l, r]) == Size(l) + Size(r)
  {
    assert [l, r][1..] == [r];
    assert [r][1..] == [];
    assert QueueSize([r]) == Size(r);
  }

  ghost function QueueItems<P>(queue: seq<Tree<P>>): multiset<(Vector, P)> {
    if queue == [] then multiset{} else Items(queue[0]) + QueueItems(queue[1..])
  }

  lemma {:induction false} QueueItemsAppend<P>(a: seq<Tree<P>>, b: seq<Tree<P>>)
    ensures QueueItems(a + b) == QueueItems(a) + QueueItems(b)
  {
    if a == [] {
      assert a + b == b;
    } else {
      assert (a + b)[1..] == a[1..] + b;
      QueueItemsAppend(a[1..], b);
    }
  }

  /** Breadth-first traversal of the trees in `queue`, front first. */
  function LevelOrderFrom<P>(queue: seq<Tree<P>>): seq<(Vector, P)>
    decreases QueueSize(queue), |queue|
  {
    if queue == [] then []
    else
      match queue[0]
      case Leaf => LevelOrderFrom(queue[1..])
      case Node(q, x, l, r) =>
        QueueSizeAppend(queue[1..], [l, r]);
        QueueSizePair(l, r);
        [(q, x)] + LevelOrderFrom(queue[1..] + [l, r])
  }

  /** The tree's `iterator()` order, with payloads. */
  function LevelOrder<P>(t: Tree<P>): seq<(Vector, P)> {
    LevelOrderFrom([t])
  }

  function Vecs<P>(items: seq<(Vector, P)>): (r: seq<Vector>)
    ensures |r| == |items| && forall i :: 0 <= i < |items| ==> r[i] == items[i].0
  {
    seq(|items|, i requires 0 <= i < |items| => items[i].0)
  }

  /** Breadth-first traversal visits every stored pair exactly once. */
  lemma {:induction false} LevelOrderFromItems<P>(queue: seq<Tree<P>>)
    ensures multiset(LevelOrderFrom(queue)) == QueueItems(queue)
    decreases QueueSize(queue), |queue|
  {
    if queue != [] {
      match queue[0]
      case Leaf =>
        LevelOrderFromItems(queue[1..]);
      case Node(q, x, l, r) =>
        QueueSizeAppend(queue[1..], [l, r]);
        QueueSizePair(l, r);
        LevelOrderFromItems(queue[1..] + [l, r]);
        QueueItemsAppend(queue[1..], [l, r]);
        assert QueueItems([l, r]) == Items(l) + Items(r) by {
          assert [l, r][1..] == [r];
          assert [r][1..] == [];
          assert QueueItems([r]) == Items(r);
        }
    }
  }

  /** Iteration yields exactly the stored pairs, so as many as were added. */
  lemma LevelOrderItems<P>(t: Tree<P>)
    ensures multiset(LevelOrder(t)) == Items(t)
    ensures |LevelOrder(t)| == Size(t)
  {
    LevelOrderFromItems([t]);
    assert [t][1..] == [];
    SizeItems(t);
  }

  lemma {:induction false} SizeItems<P>(t: Tree<P>)
    ensures |Items(t)| == Size(t)
  {
    if t.Node? {
      SizeItems(t.left);
      SizeItems(t.right);
    }
  }

  // -------------------------------------------------------------- median

  function Id(x: real): real { x }

  function First(p: (real, int)): real { p.0 }

  /**
   * `median`: the index of the value of sorted rank |values| / 2, equal values
   * ranked by position. At most |values| / 2 values lie strictly below it and
   * more than |values| / 2 lie at or below it.
   */
  function Median(values: seq<real>): (r: nat)
    requires |values| > 0
    ensures r < |values|
    ensures CountBelow(values, Id, values[r]) <= |values| / 2
    ensures |values| / 2 < CountAtMost(values, Id, values[r])
  {
    var pairs := seq(|values|, i requires 0 <= i < |values| => (values[i], i));
    var sorted := SortBy(pairs, First);
    var m := |values| / 2;
    assert sorted[m] in multiset(pairs);
    var j :| 0 <= j < |pairs| && pairs[j] == sorted[m];
    SortedRank(sorted, First, m);
    CountPermutation(sorted, pairs, First, sorted[m].0);
    CountPointwise(values, Id, pairs, First, sorted[m].0);
    sorted[m].1
  }

  /**
   * When the values are pairwise distinct, the rank condition of `Median`
   * singles out one index, so the median is fully determined.
   */
  lemma MedianUnique(values: seq<real>, m: nat)
    requires m < |values|
    requires forall i, j :: 0 <= i < j < |values| ==> values[i] != values[j]
    requires CountBelow(values, Id, values[m]) <= |values| / 2 < CountAtMost(values, Id, values[m])
    ensures Median(values) == m
  {
    var r := Median(values);
    if values[r] < values[m] {
      CountMono(values, Id, values[r], values[m]);
    } else if values[m] < values[r] {
      CountMono(values, Id, values[m], values[r]);
    }
  }

  /** The coordinates of a vector, `get(0)` up to `get(getDimension() - 1)`. */
  function Values(v: Vector): (r: seq<real>)
    ensures |r| == (if Dim(v) < 0 then 0 else Dim(v))
  {
    seq(if Dim(v) < 0 then 0 else Dim(v), i => Get(v, i))
  }

  // ------------------------------------------------------- balanceBySort

  function Coords<P>(items: seq<(Vector, P)>, a: nat): (r: seq<real>)
    ensures |r| == |items| && forall i :: 0 <= i < |items| ==> r[i] == Get(items[i].0, a)
  {
    seq(|items|, i requires 0 <= i < |items| => Get(items[i].0, a))
  }

  /** The pairs whose coordinate `a` lies strictly below `c`, in order. */
  function Below<P>(items: seq<(Vector, P)>, a: nat, c: real): (r: seq<(Vector, P)>)
    ensures |r| <= |items|
  {
    if items == [] then []
    else (if Get(items[0].0, a) < c then [items[0]] else []) + Below(items[1..], a, c)
  }

  /** The pairs whose coordinate `a` is at least `c`, in order. */
  function NotBelow<P>(items: seq<(Vector, P)>, a: nat, c: real): (r: seq<(Vector, P)>)
    ensures |r| <= |items|
  {
    if items == [] then []
    else (if Get(items[0].0, a) < c then [] else [items[0]]) + NotBelow(items[1..], a, c)
  }

  /** Every pair sent left lies strictly below `c`, every pair sent right at or above it. */
  lemma {:induction false} SplitBounds<P>(items: seq<(Vector, P)>, a: nat, c: real)
    ensures forall e :: e in Below(items, a, c) ==> Get(e.0, a) < c
    ensures forall e :: e in NotBelow(items, a, c) ==> c <= Get(e.0, a)
  {
    if items != [] {
      SplitBounds(items[1..], a, c);
    }
  }

  /** Splitting around `c` loses and duplicates nothing. */
  lemma {:induction false} SplitKeeps<P>(items: seq<(Vector, P)>, a: nat, c: real)
    ensures multiset(Below(items, a, c)) + multiset(NotBelow(items, a, c)) == multiset(items)
  {
    if items != [] {
      SplitKeeps(items[1..], a, c);
      assert items == [items[0]] + items[1..];
      var lo, hi := Below(items[1..], a, c), NotBelow(items[1..], a, c);
      if Get(items[0].0, a) < c {
        assert Below(items, a, c) == [items[0]] + lo;
        assert NotBelow(items, a, c) == hi;
      } else {
        assert Below(items, a, c) == lo;
        assert NotBelow(items, a, c) == [items[0]] + hi;
      }
    }
  }

  /** The position of the median pair along coordinate `a`. */
  function Pivot<P>(items: seq<(Vector, P)>, a: nat): (m: nat)
    requires |items| > 0
    ensures m < |items|
  {
    Median(Coords(items, a))
  }

  /** `items` without the pair at position `m`. */
  function Without<P>(items: seq<(Vector, P)>, m: nat): (r: seq<(Vector, P)>)
    requires m < |items|
    ensures |r| == |items| - 1
    ensures multiset(r) + multiset{items[m]} == multiset(items)
  {
    assert items == items[..m] + [items[m]] + items[m + 1..];
    items[..m] + items[m + 1..]
  }

  /**
   * The subtree `balanceBySort` builds from `items` at `depth`: the median along
   * the split coordinate becomes the node, the pairs strictly below it go left
   * and all others go right, each half keeping its order.
   */
  function Build<P>(items: seq<(Vector, P)>, depth: nat, k: nat): Tree<P>
    decreases |items|
  {
    if items == [] then Leaf
    else
      var a := Axis(depth, k);
      var m := Pivot(items, a);
      var c := Get(items[m].0, a);
      var rest := Without(items, m);
      Node(items[m].0, items[m].1,
        Build(Below(rest, a, c), depth + 1, k),
        Build(NotBelow(rest, a, c), depth + 1, k))
  }

  /** Rebuilding keeps every pair and adds none. */
  lemma {:induction false} BuildItems<P>(items: seq<(Vector, P)>, depth: nat, k: nat)
    ensures Items(Build(items, depth, k)) == multiset(items)
    decreases |items|
  {
    if items != [] {
      var a := Axis(depth, k);
      var m := Pivot(items, a);
      var c := Get(items[m].0, a);
      var rest := Without(items, m);
      SplitKeeps(rest, a, c);
      BuildItems(Below(rest, a, c), depth + 1, k);
      BuildItems(NotBelow(rest, a, c), depth + 1, k);
    }
  }

  /** The rebuilt tree satisfies the search-tree invariant. */
  lemma {:induction false} BuildOrdered<P>(items: seq<(Vector, P)>, depth: nat, k: nat)
    ensures Ordered(Build(items, depth, k), depth, k)
    decreases |items|
  {
    if items != [] {
      var a := Axis(depth, k);
      var m := Pivot(items, a);
      var c := Get(items[m].0, a);
      var rest := Without(items, m);
      var lo, hi := Below(rest, a, c), NotBelow(rest, a, c);
      BuildOrdered(lo, depth + 1, k);
      BuildOrdered(hi, depth + 1, k);
      BuildItems(lo, depth + 1, k);
      BuildItems(hi, depth + 1, k);
      SplitBounds(rest, a, c);
      assert AtMost(Build(lo, depth + 1, k), a, c) by {
        forall e | e in Items(Build(lo, depth + 1, k)) ensures Get(e.0, a) <= c {
          assert e in multiset(lo);
        }
      }
      assert AtLeast(Build(hi, depth + 1, k), a, c) by {
        forall e | e in Items(Build(hi, depth + 1, k)) ensures c <= Get(e.0, a) {
          assert e in multiset(hi);
        }
      }
      assert Build(items, depth, k) == Node(items[m].0, items[m].1, Build(lo, depth + 1, k), Build(hi, depth + 1, k));
      OrderedNode(items[m].0, items[m].1, Build(lo, depth + 1, k), Build(hi, depth + 1, k), depth, k);
    }
  }

  /** `balanceBySort`: rebuild from the level-order pairs. */
  function Balance<P>(t: Tree<P>, k: nat): (r: Tree<P>)
    ensures Items(r) == Items(t)
  {
    LevelOrderItems(t);
    BuildItems(LevelOrder(t), 0, k);
    Build(LevelOrder(t), 0, k)
  }

  // ----------------------------------------------------------- distances

  /** Sum of squared coordinate differences over the first `n` coordinates. */
  function SumSq(a: Vector, b: Vector, n: nat): (r: real)
    ensures r >= 0.0
  {
    if n == 0 then 0.0
    else
      var d := Get(a, n - 1) - Get(b, n - 1);
      SumSq(a, b, n - 1) + d * d
  }

  /** Squared Euclidean distance over the coordinates of `a`. */
  function DistSq(a: Vector, b: Vector): real {
    SumSq(a, b, if Dim(a) < 0 then 0 else Dim(a))
  }

  /** One coordinate's squared difference never exceeds the whole sum. */
  lemma {:induction false} SumSqCovers(a: Vector, b: Vector, n: nat, i: nat)
    requires i < n
    ensures (Get(a, i) - Get(b, i)) * (Get(a, i) - Get(b, i)) <= SumSq(a, b, n)
  {
    var d := Get(a, n - 1) - Get(b, n - 1);
    assert SumSq(a, b, n) == SumSq(a, b, n - 1) + d * d;
    if i < n - 1 {
      SumSqCovers(a, b, n - 1, i);
      assert 0.0 <= d * d;
    }
  }

  /** The distance to a point is at least the distance along any one coordinate. */
  lemma DistCovers(a: Vector, b: Vector, i: nat)
    requires i < Dim(a)
    ensures (Get(a, i) - Get(b, i)) * (Get(a, i) - Get(b, i)) <= DistSq(a, b)
  {
    SumSqCovers(a, b, Dim(a), i);
  }

  // -------------------------------------------------------- range query

  /** The vector lies in the closed box [lower, upper] in each of the first `k` coordinates. */
  predicate InBox(v: Vector, lower: Vector, upper: Vector, k: nat) {
    forall i :: 0 <= i < k ==> Get(lower, i) <= Get(v, i) <= Get(upper, i)
  }

  /**
   * `rangeQuery(lower, upper)`: the node first, then the left subtree unless
   * every vector in it lies below `lower` on the split coordinate, then the
   * right subtree unless every vector in it lies above `upper`.
   */
  function Range<P>(t: Tree<P>, lower: Vector, upper: Vector, depth: nat, k: nat): seq<(Vector, P)> {
    match t
    case Leaf => []
    case Node(q, x, l, r) =>
      var a := Axis(depth, k);
      (if InBox(q, lower, upper, k) then [(q, x)] else [])
      + (if Get(lower, a) <= Get(q, a) then Range(l, lower, upper, depth + 1, k) else [])
      + (if Get(q, a) <= Get(upper, a) then Range(r, lower, upper, depth + 1, k) else [])
  }

  /** The same traversal without pruning: the reference the pruned search is proved against. */
  function RangeAll<P>(t: Tree<P>, lower: Vector, upper: Vector, depth: nat, k: nat): seq<(Vector, P)> {
    match t
    case Leaf => []
    case Node(q, x, l, r) =>
      (if InBox(q, lower, upper, k) then [(q, x)] else [])
      + RangeAll(l, lower, upper, depth + 1, k)
      + RangeAll(r, lower, upper, depth + 1, k)
  }

  /** The unpruned traversal lists each stored pair inside the box as often as it is stored, and nothing else. */
  lemma {:induction false} RangeAllItems<P>(t: Tree<P>, lower: Vector, upper: Vector, depth: nat, k: nat)
    ensures forall e ::
      multiset(RangeAll(t, lower, upper, depth, k))[e] == if InBox(e.0, lower, upper, k) then Items(t)[e] else 0
  {
    forall e ensures multiset(RangeAll(t, lower, upper, depth, k))[e] ==
                     if InBox(e.0, lower, upper, k) then Items(t)[e] else 0 {
      RangeAllCount(t, lower, upper, depth, k, e);
    }
  }

  /** The count of one pair in the unpruned traversal. */
  lemma {:induction false} RangeAllCount<P>(t: Tree<P>, lower: Vector, upper: Vector, depth: nat, k: nat, e: (Vector, P))
    ensures multiset(RangeAll(t, lower, upper, depth, k))[e] == if InBox(e.0, lower, upper, k) then Items(t)[e] else 0
  {
    if t.Node? {
      RangeAllCount(t.left, lower, upper, depth + 1, k, e);
      RangeAllCount(t.right, lower, upper, depth + 1, k, e);
    }
  }

  /** A subtree whose vectors all fail the box contributes nothing. */
  lemma {:induction false} RangeAllEmpty<P>(t: Tree<P>, lower: Vector, upper: Vector, depth: nat, k: nat)
    requires forall e :: e in Items(t) ==> !InBox(e.0, lower, upper, k)
    ensures RangeAll(t, lower, upper, depth, k) == []
  {
    if t.Node? {
      assert (t.point, t.payload) in Items(t);
      RangeAllEmpty(t.left, lower, upper, depth + 1, k);
      RangeAllEmpty(t.right, lower, upper, depth + 1, k);
    }
  }

  /** Pruning in the range query never drops a vector inside the box. */
  lemma {:induction false} RangePruneSound<P>(t: Tree<P>, lower: Vector, upper: Vector, depth: nat, k: nat)
    requires 0 < k && Ordered(t, depth, k)
    ensures Range(t, lower, upper, depth, k) == RangeAll(t, lower, upper, depth, k)
  {
    match t
    case Leaf =>
    case Node(q, x, l, r) =>
      var a := Axis(depth, k);
      RangePruneSound(l, lower, upper, depth + 1, k);
      RangePruneSound(r, lower, upper, depth + 1, k);
      if Get(q, a) < Get(lower, a) {
        forall e | e in Items(l) ensures !InBox(e.0, lower, upper, k) {
          assert Get(e.0, a) <= Get(q, a);
        }
        RangeAllEmpty(l, lower, upper, depth + 1, k);
      }
      if Get(upper, a) < Get(q, a) {
        forall e | e in Items(r) ensures !InBox(e.0, lower, upper, k) {
          assert Get(q, a) <= Get(e.0, a);
        }
        RangeAllEmpty(r, lower, upper, depth + 1, k);
      }
  }

  /** The range query returns each stored pair inside the box as often as it is stored, and nothing else. */
  lemma RangeQueryItems<P>(t: Tree<P>, lower: Vector, upper: Vector, k: nat)
    requires 0 < k && Ordered(t, 0, k)
    ensures forall e ::
      multiset(Range(t, lower, upper, 0, k))[e] == if InBox(e.0, lower, upper, k) then Items(t)[e] else 0
  {
    RangePruneSound(t, lower, upper, 0, k);
    RangeAllItems(t, lower, upper, 0, k);
  }

  // ---------------------------------------------------- radius search

  function Abs(x: real): real {
    if x < 0.0 then -x else x
  }

  /**
   * Within `radius` of the target: the Euclidean distance, the square root of
   * DistSq, is at most `radius`.
   */
  predicate Close(v: Vector, target: Vector, radius: real) {
    0.0 <= radius && DistSq(v, target) <= radius * radius
  }

  /** The neighbour record for a stored pair. */
  function ToNeighbour<P>(e: (Vector, P), target: Vector): Neighbour<P> {
    Neighbour(e.0, e.1, DistSq(e.0, target))
  }

  /** The neighbour records for the pairs, in order. */
  function ToNeighbours<P>(es: seq<(Vector, P)>, target: Vector): (r: seq<Neighbour<P>>)
    ensures |r| == |es| && forall i :: 0 <= i < |es| ==> r[i] == ToNeighbour(es[i], target)
  {
    seq(|es|, i requires 0 <= i < |es| => ToNeighbour(es[i], target))
  }

  /**
   * The pairs `getNearestNeighbours(target, radius)` reports: the node if it
   * is close enough, then the subtree on the target's side, then the other
   * subtree unless the splitting plane is farther than the radius.
   */
  function Within<P>(t: Tree<P>, target: Vector, radius: real, depth: nat, k: nat): seq<(Vector, P)> {
    match t
    case Leaf => []
    case Node(q, x, l, r) =>
      var a := Axis(depth, k);
      var here := if Close(q, target, radius) then [(q, x)] else [];
      if Get(target, a) < Get(q, a) then
        here + Within(l, target, radius, depth + 1, k)
        + (if Abs(Get(target, a) - Get(q, a)) <= radius then Within(r, target, radius, depth + 1, k) else [])
      else
        here + Within(r, target, radius, depth + 1, k)
        + (if Abs(Get(target, a) - Get(q, a)) <= radius then Within(l, target, radius, depth + 1, k) else [])
  }

  /** `getNearestNeighbours(target, radius)`: the reported pairs with their distances. */
  function RadiusSearch<P>(t: Tree<P>, target: Vector, radius: real, k: nat): seq<Neighbour<P>> {
    ToNeighbours(Within(t, target, radius, 0, k), target)
  }

  /** The same traversal without pruning. */
  function WithinAll<P>(t: Tree<P>, target: Vector, radius: real, depth: nat, k: nat): seq<(Vector, P)> {
    match t
    case Leaf => []
    case Node(q, x, l, r) =>
      var a := Axis(depth, k);
      var here := if Close(q, target, radius) then [(q, x)] else [];
      if Get(target, a) < Get(q, a) then
        here + WithinAll(l, target, radius, depth + 1, k) + WithinAll(r, target, radius, depth + 1, k)
      else
        here + WithinAll(r, target, radius, depth + 1, k) + WithinAll(l, target, radius, depth + 1, k)
  }

  /** The unpruned search lists each stored pair within the radius as often as it is stored, and nothing else. */
  lemma {:induction false} WithinAllItems<P>(t: Tree<P>, target: Vector, radius: real, depth: nat, k: nat)
    ensures forall e ::
      multiset(WithinAll(t, target, radius, depth, k))[e] == if Close(e.0, target, radius) then Items(t)[e] else 0
  {
    forall e ensures multiset(WithinAll(t, target, radius, depth, k))[e] ==
                     if Close(e.0, target, radius) then Items(t)[e] else 0 {
      WithinAllCount(t, target, radius, depth, k, e);
    }
  }

  /** The count of one pair in the unpruned radius walk. */
  lemma {:induction false} WithinAllCount<P>(t: Tree<P>, target: Vector, radius: real, depth: nat, k: nat, e: (Vector, P))
    ensures multiset(WithinAll(t, target, radius, depth, k))[e] == if Close(e.0, target, radius) then Items(t)[e] else 0
  {
    if t.Node? {
      WithinAllCount(t.left, target, radius, depth + 1, k, e);
      WithinAllCount(t.right, target, radius, depth + 1, k, e);
    }
  }

  /** A subtree whose vectors all lie outside the radius contributes nothing. */
  lemma {:induction false} WithinAllEmpty<P>(t: Tree<P>, target: Vector, radius: real, depth: nat, k: nat)
    requires forall e :: e in Items(t) ==> !Close(e.0, target, radius)
    ensures WithinAll(t, target, radius, depth, k) == []
  {
    if t.Node? {
      assert (t.point, t.payload) in Items(t);
      WithinAllEmpty(t.left, target, radius, depth + 1, k);
      WithinAllEmpty(t.right, target, radius, depth + 1, k);
    }
  }

  /** A subtree on the far side of a plane farther than the radius lies outside it. */
  lemma FarSideOutside<P>(t: Tree<P>, target: Vector, radius: real, a: nat, c: real, k: nat)
    requires a < k && AllDim(t, k)
    requires radius < Abs(Get(target, a) - c)
    requires (AtMost(t, a, c) && c <= Get(target, a)) || (AtLeast(t, a, c) && Get(target, a) < c)
    ensures forall e :: e in Items(t) ==> !Close(e.0, target, radius)
  {
    forall e | e in Items(t) ensures !Close(e.0, target, radius) {
      FarPointOutside(e.0, target, radius, a, c);
    }
  }

  /** A point on the far side of a plane farther than the radius lies outside it. */
  lemma FarPointOutside(v: Vector, target: Vector, radius: real, a: nat, c: real)
    requires a < Dim(v)
    requires radius < Abs(Get(target, a) - c)
    requires (Get(v, a) <= c <= Get(target, a)) || (Get(target, a) < c <= Get(v, a))
    ensures !Close(v, target, radius)
  {
    if 0.0 <= radius {
      DistCovers(v, target, a);
      SquareBelow(radius, Get(v, a) - Get(target, a));
    }
  }

  /** A non-negative bound below |y| stays below it when both are squared. */
  lemma SquareBelow(x: real, y: real)
    requires 0.0 <= x < Abs(y)
    ensures x * x < y * y
  {
    var ay := Abs(y);
    assert x * (ay - x) >= 0.0;
    assert ay * (ay - x) > 0.0;
    assert y * y == ay * ay;
  }

  /** Pruning in the radius search never drops a neighbour inside the radius. */
  lemma {:induction false} WithinPruneSound<P>(t: Tree<P>, target: Vector, radius: real, depth: nat, k: nat)
    requires 0 < k && Ordered(t, depth, k) && AllDim(t, k)
    ensures Within(t, target, radius, depth, k) == WithinAll(t, target, radius, depth, k)
  {
    match t
    case Leaf =>
    case Node(q, x, l, r) =>
      var a := Axis(depth, k);
      var c := Get(q, a);
      AllDimChildren(t, k);
      assert AtMost(l, a, c) && AtLeast(r, a, c) && Ordered(l, depth + 1, k) && Ordered(r, depth + 1, k);
      WithinPruneSound(l, target, radius, depth + 1, k);
      WithinPruneSound(r, target, radius, depth + 1, k);
      if radius < Abs(Get(target, a) - c) {
        if Get(target, a) < c {
          FarSideOutside(r, target, radius, a, c, k);
          WithinAllEmpty(r, target, radius, depth + 1, k);
        } else {
          FarSideOutside(l, target, radius, a, c, k);
          WithinAllEmpty(l, target, radius, depth + 1, k);
        }
      }
  }

  lemma AllDimChildren<P>(t: Tree<P>, k: nat)
    requires t.Node? && AllDim(t, k)
    ensures AllDim(t.left, k) && AllDim(t.right, k)
  {
    assert forall e :: e in Items(t.left) || e in Items(t.right) ==> e in Items(t);
  }

  /** The radius search lists each stored pair within the radius as often as it is stored, and nothing else. */
  lemma WithinItems<P>(t: Tree<P>, target: Vector, radius: real, k: nat)
    requires 0 < k && Ordered(t, 0, k) && AllDim(t, k)
    ensures forall e ::
      multiset(Within(t, target, radius, 0, k))[e] == if Close(e.0, target, radius) then Items(t)[e] else 0
  {
    WithinPruneSound(t, target, radius, 0, k);
    WithinAllItems(t, target, radius, 0, k);
  }

  /** The (vector, payload) pairs behind neighbour records, in order. */
  function NeighbourPairs<P>(ns: seq<Neighbour<P>>): (r: seq<(Vector, P)>)
    ensures |r| == |ns| && forall i :: 0 <= i < |ns| ==> r[i] == (ns[i].vector, ns[i].payload)
  {
    seq(|ns|, i requires 0 <= i < |ns| => (ns[i].vector, ns[i].payload))
  }

  /**
   * The radius search reports exactly the stored pairs within the radius, each
   * as often as it is stored, with its distance to the target.
   */
  lemma RadiusSearchDistances<P>(t: Tree<P>, target: Vector, radius: real, k: nat)
    requires 0 < k && Ordered(t, 0, k) && AllDim(t, k)
    ensures forall e :: multiset(NeighbourPairs(RadiusSearch(t, target, radius, k)))[e] ==
                        if Close(e.0, target, radius) then Items(t)[e] else 0
    ensures forall n :: n in RadiusSearch(t, target, radius, k) ==>
      n.dist == DistSq(n.vector, target) && Close(n.vector, target, radius)
  {
    WithinItems(t, target, radius, k);
    var ps := Within(t, target, radius, 0, k);
    var ns := ToNeighbours(ps, target);
    assert NeighbourPairs(ns) == ps;
    forall n | n in ns ensures n.dist == DistSq(n.vector, target) && Close(n.vector, target, radius) {
      var i :| 0 <= i < |ns| && ns[i] == n;
      var e := ps[i];
      assert e in multiset(ps);
      assert multiset(ps)[e] == if Close(e.0, target, radius) then Items(t)[e] else 0;
    }
  }

  // ------------------------------------------------- k nearest neighbours

  /** The natural order of VectorDistanceTuple is by decreasing distance. */
  function NaturalKey<P>(n: Neighbour<P>): real { -n.dist }

  function Dist<P>(n: Neighbour<P>): real { n.dist }

  /** Every stored pair with its distance to the target, in level order. */
  function Candidates<P>(t: Tree<P>, target: Vector): seq<Neighbour<P>> {
    ToNeighbours(LevelOrder(t), target)
  }

  function Min(a: int, b: int): int { if a < b then a else b }

  /**
   * `getNearestNeighbours(target, k)`: the `count` stored pairs nearest to the
   * target, nearest first; none when `count` is not positive.
   */
  function KNearest<P>(t: Tree<P>, target: Vector, count: int): (r: seq<Neighbour<P>>)
    ensures |r| == if count <= 0 then 0 else Min(count, Size(t))
    ensures SortedBy(r, Dist)
  {
    LevelOrderItems(t);
    if count <= 0 then []
    else
      var all := SortBy(Candidates(t, target), Dist);
      all[..Min(count, |all|)]
  }

  /** The stored pairs a k-nearest query leaves out. */
  function KFarther<P>(t: Tree<P>, target: Vector, count: int): seq<Neighbour<P>> {
    var all := SortBy(Candidates(t, target), Dist);
    if count <= 0 then all else all[Min(count, |all|)..]
  }

  /**
   * The k-nearest query and the pairs it leaves out together are the stored
   * pairs, and no pair left out is nearer than a pair returned.
   */
  lemma KNearestNearest<P>(t: Tree<P>, target: Vector, count: int)
    ensures multiset(KNearest(t, target, count)) + multiset(KFarther(t, target, count))
      == multiset(Candidates(t, target))
    ensures forall n, m :: n in KNearest(t, target, count) && m in KFarther(t, target, count) ==> n.dist <= m.dist
  {
    var all := SortBy(Candidates(t, target), Dist);
    var m := if count <= 0 then 0 else Min(count, |all|);
    assert all == all[..m] + all[m..];
    PrefixBeforeSuffix(all, Dist, m);
  }

  /** Every pair a k-nearest query returns is stored, with its distance to the target. */
  lemma KNearestStored<P>(t: Tree<P>, target: Vector, count: int)
    ensures forall n :: n in KNearest(t, target, count) ==>
      (n.vector, n.payload) in Items(t) && n.dist == DistSq(n.vector, target)
  {
    var cs := Candidates(t, target);
    var all := SortBy(cs, Dist);
    LevelOrderItems(t);
    forall n | n in KNearest(t, target, count)
      ensures (n.vector, n.payload) in Items(t) && n.dist == DistSq(n.vector, target)
    {
      assert n in all;
      assert n in multiset(cs);
      var i :| 0 <= i < |cs| && cs[i] == n;
      assert LevelOrder(t)[i] in multiset(LevelOrder(t));
    }
  }

  // ------------------------------------------------ strictHigher / Lower

  /** `strictHigher(a, b)`: every coordinate of `b` exceeds that of `a`. */
  predicate StrictHigher(a: Vector, b: Vector) {
    forall i :: 0 <= i < Dim(a) ==> Get(a, i) < Get(b, i)
  }

  /** `strictLower(a, b)`: every coordinate of `b` lies below that of `a`. */
  predicate StrictLower(a: Vector, b: Vector) {
    forall i :: 0 <= i < Dim(a) ==> Get(b, i) < Get(a, i)
  }

  /** The two tests are mirror images of each other. */
  lemma StrictHigherLower(a: Vector, b: Vector)
    requires Dim(a) == Dim(b)
    ensures StrictHigher(a, b) <==> StrictLower(b, a)
  {
  }

  lemma InsertAllDim<P>(t: Tree<P>, v: Vector, p: P, depth: nat, k: nat)
    requires AllDim(t, k) && Dim(v) == k
    ensures AllDim(Insert(t, v, p, depth, k), k)
  {
    assert forall e :: e in Items(Insert(t, v, p, depth, k)) ==> e == (v, p) || e in Items(t);
  }

  /** Balancing keeps the stored pairs, and so the size and dimension, and restores the split order. */
  lemma BalanceValid<P>(t: Tree<P>, k: nat)
    requires AllDim(t, k)
    ensures Ordered(Balance(t, k), 0, k) && AllDim(Balance(t, k), k) && Size(Balance(t, k)) == Size(t)
  {
    LevelOrderItems(t);
    BuildOrdered(LevelOrder(t), 0, k);
    SizeItems(t);
    SizeItems(Balance(t, k));
  }

  /** One step of the breadth-first traversal, and the measure that shrinks with it. */
  lemma VisitFront<P>(queue: seq<Tree<P>>)
    requires queue != []
    ensures queue[0].Leaf? ==> LevelOrderFrom(queue) == LevelOrderFrom(queue[1..])
    ensures queue[0].Leaf? ==> QueueSize(queue[1..]) == QueueSize(queue)
    ensures queue[0].Node? ==>
      LevelOrderFrom(queue) == [(queue[0].point, queue[0].payload)] + LevelOrderFrom(queue[1..] + [queue[0].left, queue[0].right])
    ensures queue[0].Node? ==> QueueSize(queue[1..] + [queue[0].left, queue[0].right]) < QueueSize(queue)
  {
    if queue[0].Node? {
      QueueSizeAppend(queue[1..], [queue[0].left, queue[0].right]);
      QueueSizePair(queue[0].left, queue[0].right);
    }
  }

  /** The tree's iterator: a queue of subtrees, front first, each node's children appended behind. */
  method Iterate<P>(t: Tree<P>) returns (r: seq<(Vector, P)>)
    ensures r == LevelOrder(t)
  {
    r := [];
    var queue := [t];
    while queue != []
      invariant r + LevelOrderFrom(queue) == LevelOrder(t)
      decreases QueueSize(queue), |queue|
    {
      var front := queue[0];
      VisitFront(queue);
      if front.Node? {
        r := r + [(front.point, front.payload)];
        queue := queue[1..] + [front.left, front.right];
      } else {
        queue := queue[1..];
      }
    }
  }

  // ------------------------------------------------------------ the tree

  /**
   * KDTree: the root, the number of stored vectors and the dimension, fixed
   * by the first vector added.
   */
  class KDTree<P(!new)> {
    var root: Tree<P>
    var size: nat
    var dimension: nat

    /** The stored vectors share the tree's dimension, obey the split order, and are counted by `size`. */
    ghost predicate Valid()
      reads this
    {
      size == Size(root) && Ordered(root, 0, dimension) && AllDim(root, dimension)
    }

    constructor()
      ensures Valid() && root == Leaf && size == 0 && dimension == 0
    {
      root := Leaf;
      size := 0;
      dimension := 0;
    }

    /**
     * `add(vector, payload)`. The first vector fixes the dimension; a vector of
     * another dimension added later is refused and changes nothing.
     */
    method Add(v: Vector, p: P) returns (ok: bool)
      requires Valid() && 0 <= Dim(v)
      modifies this
      ensures Valid()
      ensures ok <==> old(root) == Leaf || Dim(v) == old(dimension)
      ensures ok ==> dimension == Dim(v) && root == Insert(old(root), v, p, 0, dimension) && size == old(size) + 1
      ensures ok ==> Items(root) == old(Items(root)) + multiset{(v, p)}
      ensures !ok ==> root == old(root) && size == old(size) && dimension == old(dimension)
    {
      if root != Leaf && Dim(v) != dimension {
        return false;
      }
      if root == Leaf {
        dimension := Dim(v);
      }
      InsertOrdered(root, v, p, 0, dimension);
      InsertAllDim(root, v, p, 0, dimension);
      root := Insert(root, v, p, 0, dimension);
      size := size + 1;
      return true;
    }

    /** `balanceBySort()`: rebuilds the tree from its own vectors, keeping every one. */
    method BalanceBySort()
      requires Valid()
      modifies this
      ensures Valid()
      ensures root == Balance(old(root), dimension) && size == old(size) && dimension == old(dimension)
    {
      var balanced := Balance(root, dimension);
      BalanceValid(root, dimension);
      Replace(balanced);
    }

    /** Swaps in a rebuilt tree holding as many vectors, of the same dimension. */
    method Replace(t: Tree<P>)
      requires size == Size(t) && Ordered(t, 0, dimension) && AllDim(t, dimension)
      modifies this
      ensures Valid() && root == t && size == old(size) && dimension == old(dimension)
    {
      root := t;
    }

    /** The level-order `iterator()`, drained into a sequence: as many pairs as were added. */
    method Elements() returns (r: seq<(Vector, P)>)
      requires Valid()
      ensures r == LevelOrder(root)
      ensures |r| == size && multiset(r) == Items(root)
    {
      LevelOrderItems(root);
      r := Iterate(root);
    }

    /** `rangeQuery(lower, upper)`: every stored vector inside the box, as often as it is stored. */
    function RangeQuery(lower: Vector, upper: Vector): (r: seq<(Vector, P)>)
      requires Valid()
      reads this
      ensures root == Leaf ==> r == []
      ensures 0 < dimension ==> forall e ::
        multiset(r)[e] == if InBox(e.0, lower, upper, dimension) then Items(root)[e] else 0
    {
      if 0 < dimension then RangeQueryItems(root, lower, upper, dimension); Range(root, lower, upper, 0, dimension)
      else Range(root, lower, upper, 0, dimension)
    }

    /** `getNearestNeighbours(target, radius)`: the stored vectors within the radius, with their distances. */
    function RadiusNeighbours(target: Vector, radius: real): (r: seq<Neighbour<P>>)
      requires Valid()
      reads this
      ensures root == Leaf ==> r == []
      ensures 0 < dimension ==> forall e ::
        multiset(NeighbourPairs(r))[e] == if Close(e.0, target, radius) then Items(root)[e] else 0
      ensures 0 < dimension ==> forall n :: n in r ==>
        n.dist == DistSq(n.vector, target) && Close(n.vector, target, radius)
    {
      if 0 < dimension then RadiusSearchDistances(root, target, radius, dimension); RadiusSearch(root, target, radius, dimension)
      else RadiusSearch(root, target, radius, dimension)
    }

    /** `getNearestNeighbours(target, k)`: the `count` stored vectors nearest to the target, nearest first. */
    function NearestNeighbours(target: Vector, count: int): (r: seq<Neighbour<P>>)
      requires Valid()
      reads this
      ensures |r| == if count <= 0 then 0 else Min(count, size)
      ensures SortedBy(r, Dist)
      ensures forall n :: n in r ==> (n.vector, n.payload) in Items(root) && n.dist == DistSq(n.vector, target)
      ensures multiset(r) + multiset(KFarther(root, target, count)) == multiset(Candidates(root, target))
      ensures forall n, m :: n in r && m in KFarther(root, target, count) ==> n.dist <= m.dist
    {
      KNearestStored(root, target, count);
      KNearestNearest(root, target, count);
      KNearest(root, target, count)
    }
  }
}
