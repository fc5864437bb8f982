/**
 * A stable sort of a sequence by a numeric key. It stands for the library
 * sorts the repository calls (java.util.Collections.sort and Arrays.sort on
 * objects, both stable merge sorts); only their contract matters, so the body
 * is a plain insertion sort.
 */
module SeqSort {

  /** The keys of `s` never decrease from left to right. */
  predicate SortedBy<T>(s: seq<T>, key: T -> real) {
    forall i, j :: 0 <= i < j < |s| ==> key(s[i]) <= key(s[j])
  }

  /**
   * Inserts `x` behind every element whose key is not larger than its own,
   * so that elements with equal keys keep their order.
   */
  function InsertBy<T>(x: T, s: seq<T>, key: T -> real): seq<T> {
    if s == [] || key(x) < key(s[0]) then [x] + s
    else [s[0]] + InsertBy(x, s[1..], key)
  }

  /** Insertion into a sorted sequence adds exactly `x` and keeps it sorted. */
  lemma {:induction false} InsertBySorted<T>(x: T, s: seq<T>, key: T -> real)
    requires SortedBy(s, key)
    ensures |InsertBy(x, s, key)| == |s| + 1
    ensures multiset(InsertBy(x, s, key)) == multiset(s) + multiset{x}
    ensures SortedBy(InsertBy(x, s, key), key)
    ensures forall y :: y in InsertBy(x, s, key) ==> y == x || y in s
  {
    if s != [] && key(s[0]) <= key(x) {
      var rest := InsertBy(x, s[1..], key);
      InsertBySorted(x, s[1..], key);
      assert forall i :: 0 <= i < |rest| ==> key(s[0]) <= key(rest[i]) by {
        forall i | 0 <= i < |rest| ensures key(s[0]) <= key(rest[i]) {
          if rest[i] != x {
            assert rest[i] in rest;
            var j :| 0 <= j < |s[1..]| && s[1..][j] == rest[i];
            assert s[j + 1] == rest[i];
          }
        }
      }
      assert s == [s[0]] + s[1..];
    }
  }

  /** A stable sort of `s` by non-decreasing `key`. */
  function SortBy<T>(s: seq<T>, key: T -> real): (r: seq<T>)
    ensures |r| == |s|
    ensures multiset(r) == multiset(s)
    ensures SortedBy(r, key)
  {
    if s == [] then []
    else
      var n := |s| - 1;
      assert s == s[..n] + [s[n]];
      InsertBySorted(s[n], SortBy(s[..n], key), key);
      InsertBy(s[n], SortBy(s[..n], key), key)
  }

  function Reverse<T>(s: seq<T>): (r: seq<T>)
    ensures |r| == |s|
    ensures forall i :: 0 <= i < |s| ==> r[i] == s[|s| - 1 - i]
  {
    if s == [] then [] else Reverse(s[1..]) + [s[0]]
  }

  /** Reversing keeps the elements. */
  lemma {:induction false} ReverseMultiset<T>(s: seq<T>)
    ensures multiset(Reverse(s)) == multiset(s)
  {
    if s != [] {
      ReverseMultiset(s[1..]);
      assert s == [s[0]] + s[1..];
    }
  }

  /** Every element of a sorted prefix is at most every element after it. */
  lemma PrefixBeforeSuffix<T>(s: seq<T>, key: T -> real, k: nat)
    requires SortedBy(s, key) && k <= |s|
    ensures forall x, y :: x in s[..k] && y in s[k..] ==> key(x) <= key(y)
  {
    forall x, y | x in s[..k] && y in s[k..] ensures key(x) <= key(y) {
      var i :| 0 <= i < k && s[i] == x;
      var j :| 0 <= j < |s[k..]| && s[k..][j] == y;
      assert s[k + j] == y;
    }
  }

  /** How many elements have a key strictly below `x`. */
  function CountBelow<T>(s: seq<T>, key: T -> real, x: real): nat {
    if s == [] then 0
    else (if key(s[0]) < x then 1 else 0) + CountBelow(s[1..], key, x)
  }

  /** How many elements have a key not above `x`. */
  function CountAtMost<T>(s: seq<T>, key: T -> real, x: real): nat {
    if s == [] then 0
    else (if key(s[0]) <= x then 1 else 0) + CountAtMost(s[1..], key, x)
  }

  lemma {:induction false} CountSplit<T>(a: seq<T>, b: seq<T>, key: T -> real, x: real)
    ensures CountBelow(a + b, key, x) == CountBelow(a, key, x) + CountBelow(b, key, x)
    ensures CountAtMost(a + b, key, x) == CountAtMost(a, key, x) + CountAtMost(b, key, x)
  {
    if a == [] {
      assert a + b == b;
    } else {
      assert (a + b)[1..] == a[1..] + b;
      CountSplit(a[1..], b, key, x);
    }
  }

  /** Removing the element at `i` removes exactly its own contribution. */
  lemma CountRemove<T>(t: seq<T>, i: nat, key: T -> real, x: real)
    requires i < |t|
    ensures CountBelow(t, key, x)
      == CountBelow(t[..i] + t[i + 1..], key, x) + (if key(t[i]) < x then 1 else 0)
    ensures CountAtMost(t, key, x)
      == CountAtMost(t[..i] + t[i + 1..], key, x) + (if key(t[i]) <= x then 1 else 0)
  {
    assert t == t[..i] + ([t[i]] + t[i + 1..]);
    CountSplit(t[..i], [t[i]] + t[i + 1..], key, x);
    CountSplit([t[i]], t[i + 1..], key, x);
    CountSplit(t[..i], t[i + 1..], key, x);
  }

  /** Both counts depend only on the multiset of elements. */
  lemma {:induction false} CountPermutation<T>(s: seq<T>, t: seq<T>, key: T -> real, x: real)
    requires multiset(s) == multiset(t)
    ensures CountBelow(s, key, x) == CountBelow(t, key, x)
    ensures CountAtMost(s, key, x) == CountAtMost(t, key, x)
    decreases |s|
  {
    if s == [] {
      assert t == [];
    } else {
      assert s[0] in multiset(t);
      var i :| 0 <= i < |t| && t[i] == s[0];
      var rest := t[..i] + t[i + 1..];
      SameWithout(s, t, i);
      CountPermutation(s[1..], rest, key, x);
      CountRemove(t, i, key, x);
    }
  }

  /** Taking the first element of `s` and an equal element of `t` out keeps the multisets equal. */
  lemma SameWithout<T>(s: seq<T>, t: seq<T>, i: nat)
    requires multiset(s) == multiset(t) && s != [] && i < |t| && t[i] == s[0]
    ensures multiset(s[1..]) == multiset(t[..i] + t[i + 1..])
  {
    assert s == [s[0]] + s[1..];
    assert t == t[..i] + [t[i]] + t[i + 1..];
    var a, b := multiset(s[1..]), multiset(t[..i] + t[i + 1..]);
    assert multiset(s) == multiset{s[0]} + a;
    assert multiset(t) == multiset(t[..i]) + multiset{t[i]} + multiset(t[i + 1..]);
    forall y ensures a[y] == b[y] {
      assert multiset(s)[y] == multiset(t)[y];
    }
  }

  /**
   * In a sorted sequence at most `m` keys lie strictly below the key at
   * position `m`, and at least `m + 1` keys are not above it.
   */
  lemma {:induction false} SortedRank<T>(s: seq<T>, key: T -> real, m: nat)
    requires SortedBy(s, key) && m < |s|
    ensures CountBelow(s, key, key(s[m])) <= m
    ensures CountAtMost(s, key, key(s[m])) >= m + 1
  {
    var x := key(s[m]);
    assert s == s[..m + 1] + s[m + 1..];
    CountSplit(s[..m + 1], s[m + 1..], key, x);
    PrefixCounts(s[..m + 1], key, x);
    SuffixBelowNone(s[m + 1..], key, x);
  }

  lemma {:induction false} PrefixCounts<T>(s: seq<T>, key: T -> real, x: real)
    requires s != [] && key(s[|s| - 1]) == x
    requires forall i :: 0 <= i < |s| ==> key(s[i]) <= x
    ensures CountBelow(s, key, x) <= |s| - 1
    ensures CountAtMost(s, key, x) == |s|
  {
    if |s| > 1 {
      PrefixCounts(s[1..], key, x);
    }
  }

  lemma {:induction false} SuffixBelowNone<T>(s: seq<T>, key: T -> real, x: real)
    requires forall i :: 0 <= i < |s| ==> x <= key(s[i])
    ensures CountBelow(s, key, x) == 0
  {
    if s != [] {
      SuffixBelowNone(s[1..], key, x);
    }
  }

  /** Counts agree for two sequences whose keys agree position by position. */
  lemma {:induction false} CountPointwise<T, U>(s: seq<T>, ks: T -> real, t: seq<U>, kt: U -> real, x: real)
    requires |s| == |t|
    requires forall i :: 0 <= i < |s| ==> ks(s[i]) == kt(t[i])
    ensures CountBelow(s, ks, x) == CountBelow(t, kt, x)
    ensures CountAtMost(s, ks, x) == CountAtMost(t, kt, x)
  {
    if s != [] {
      CountPointwise(s[1..], ks, t[1..], kt, x);
    }
  }

  /** Every key at most `x` lies strictly below a larger `y`. */
  lemma {:induction false} CountMono<T>(s: seq<T>, key: T -> real, x: real, y: real)
    requires x < y
    ensures CountAtMost(s, key, x) <= CountBelow(s, key, y)
  {
    if s != [] {
      CountMono(s[1..], key, x, y);
    }
  }
}
