/**
 * The repository's DoubleVector in its two storage forms: a dense array of
 * values and a sparse vector of a given dimension that stores only some
 * (index, value) entries. The sparse entries are kept in strictly increasing
 * index order, which is also the order in which `iterateNonZero` visits them.
 */
module Vectors {

  datatype Vector =
    | Dense(values: seq<real>)
    | Sparse(dim: int, entries: seq<(int, real)>)

  /** Entry indices strictly increase, so each index is stored at most once. */
  predicate IndicesIncreasing(es: seq<(int, real)>) {
    forall i, j :: 0 <= i < j < |es| ==> es[i].0 < es[j].0
  }

  predicate WellFormed(v: Vector) {
    v.Sparse? ==> IndicesIncreasing(v.entries)
  }

  /** `getDimension()`. */
  function Dim(v: Vector): int {
    match v
    case Dense(vs) => |vs|
    case Sparse(d, _) => d
  }

  /** `getLength()`: the number of stored values (all of them for a dense vector). */
  function Length(v: Vector): nat {
    match v
    case Dense(vs) => |vs|
    case Sparse(_, es) => |es|
  }

  /** The value stored for index `i`, or 0 when none is stored. */
  function Lookup(es: seq<(int, real)>, i: int): real {
    if es == [] then 0.0
    else if es[0].0 == i then es[0].1
    else Lookup(es[1..], i)
  }

  /** `get(i)`; an index outside a dense vector reads as 0. */
  function Get(v: Vector, i: int): real {
    match v
    case Dense(vs) => if 0 <= i < |vs| then vs[i] else 0.0
    case Sparse(_, es) => Lookup(es, i)
  }

  /** A sparse `set(i, x)`: replaces the entry for `i` or inserts it in index order. */
  function SetEntry(es: seq<(int, real)>, i: int, x: real): (r: seq<(int, real)>)
    ensures forall j :: Lookup(r, j) == if j == i then x else Lookup(es, j)
    ensures IndicesIncreasing(es) ==> IndicesIncreasing(r)
    ensures IndicesIncreasing(es) ==> forall e :: e in r ==> e == (i, x) || e in es
  {
    if es == [] then [(i, x)]
    else if es[0].0 == i then [(i, x)] + es[1..]
    else if i < es[0].0 then [(i, x)] + es
    else
      var rest := SetEntry(es[1..], i, x);
      LookupCons(es[0], rest);
      SetEntryIncreasing(es, i, x, rest);
      [es[0]] + rest
  }

  lemma LookupCons(e: (int, real), rest: seq<(int, real)>)
    ensures forall j :: Lookup([e] + rest, j) == if e.0 == j then e.1 else Lookup(rest, j)
  {
    assert ([e] + rest)[1..] == rest;
  }

  /** The step of SetEntry past a smaller first entry keeps the indices increasing. */
  lemma SetEntryIncreasing(es: seq<(int, real)>, i: int, x: real, rest: seq<(int, real)>)
    requires es != [] && es[0].0 < i
    requires IndicesIncreasing(es[1..]) ==> IndicesIncreasing(rest)
    requires IndicesIncreasing(es[1..]) ==> forall e :: e in rest ==> e == (i, x) || e in es[1..]
    ensures IndicesIncreasing(es) ==> IndicesIncreasing([es[0]] + rest)
    ensures IndicesIncreasing(es) ==> forall e :: e in [es[0]] + rest ==> e == (i, x) || e in es
  {
    if IndicesIncreasing(es) {
      assert IndicesIncreasing(es[1..]);
      var r := [es[0]] + rest;
      forall a, b | 0 <= a < b < |r| ensures r[a].0 < r[b].0 {
        assert r[b] == rest[b - 1] && rest[b - 1] in rest;
        if rest[b - 1] != (i, x) {
          var k :| 0 <= k < |es[1..]| && es[1..][k] == rest[b - 1];
          assert es[k + 1] == rest[b - 1];
        }
        if a > 0 {
          assert r[a] == rest[a - 1];
        }
      }
    }
  }

  /** Setting an index above every stored one appends the entry. */
  lemma {:induction false} SetEntryAbove(es: seq<(int, real)>, i: int, x: real)
    requires forall e :: e in es ==> e.0 < i
    ensures SetEntry(es, i, x) == es + [(i, x)]
  {
    if es != [] {
      SetEntryAbove(es[1..], i, x);
      assert es == [es[0]] + es[1..];
    }
  }

  /** `iterateNonZero()` of a dense vector: the non-zero values from index `from` on. */
  function DenseNonZero(vs: seq<real>, from: nat): (r: seq<(int, real)>)
    requires from <= |vs|
    ensures forall e :: e in r ==> from <= e.0 < |vs| && e.1 == vs[e.0] && e.1 != 0.0
    ensures forall i :: from <= i < |vs| && vs[i] != 0.0 ==> (i, vs[i]) in r
    decreases |vs| - from
  {
    if from == |vs| then []
    else if vs[from] != 0.0 then [(from, vs[from])] + DenseNonZero(vs, from + 1)
    else DenseNonZero(vs, from + 1)
  }

  /** `iterateNonZero()`: the (index, value) pairs in increasing index order. */
  function NonZero(v: Vector): seq<(int, real)> {
    match v
    case Dense(vs) => DenseNonZero(vs, 0)
    case Sparse(_, es) => es
  }
}
