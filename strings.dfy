/**
 * Java's natural order on `String` (`compareTo`): the first differing UTF-16
 * code unit decides, and a proper prefix comes first. `Arrays.sort` and
 * `Arrays.binarySearch` on the dictionary both use this order.
 */
module Strings {
  /**
   * The UTF-16 code units of one character: itself below U+10000, otherwise
   * a high surrogate (0xD800-0xDBFF) followed by a low one (0xDC00-0xDFFF).
   */
  function Units(c: char): (r: seq<int>)
    ensures |r| == 1 || |r| == 2
  {
    var v := c as int;
    if v < 0x1_0000 then [v]
    else [0xD800 + (v - 0x1_0000) / 0x400, 0xDC00 + (v - 0x1_0000) % 0x400]
  }

  /** Lexicographic order on code-unit sequences. */
  predicate UnitsLess(u: seq<int>, w: seq<int>) {
    if |u| == 0 then |w| > 0
    else if |w| == 0 then false
    else u[0] < w[0] || (u[0] == w[0] && UnitsLess(u[1..], w[1..]))
  }

  /**
   * The rank of a character in code-unit order: a character above U+FFFF
   * starts with a high surrogate, so it sorts after U+0000-U+D7FF and before
   * U+E000-U+FFFF.
   */
  function UnitRank(c: char): int {
    var v := c as int;
    if v < 0xD800 then v
    else if v < 0x1_0000 then v + 0x10_0000
    else v - 0x1_0000 + 0xD800
  }

  lemma UnitsLessPairs(x0: int, x1: int, y0: int, y1: int)
    ensures UnitsLess([x0, x1], [y0, y1]) <==> x0 < y0 || (x0 == y0 && x1 < y1)
  {
    assert [x0, x1][1..] == [x1] && [y0, y1][1..] == [y1];
    assert [x1][1..] == [] && [y1][1..] == [];
    assert UnitsLess([x1], [y1]) <==> x1 < y1;
  }

  lemma UnitsLessMixed(x: int, y0: int, y1: int)
    ensures UnitsLess([x], [y0, y1]) <==> x <= y0
    ensures UnitsLess([y0, y1], [x]) <==> y0 < x
  {
    assert [x][1..] == [] && [y0, y1][1..] == [y1];
    assert UnitsLess([], [y1]) && !UnitsLess([y1], []);
  }

  /** Comparing two characters by rank is comparing their code units. */
  lemma UnitRankOrder(c: char, d: char)
    ensures UnitRank(c) < UnitRank(d) <==> UnitsLess(Units(c), Units(d))
    ensures UnitRank(c) == UnitRank(d) <==> c == d
  {
    var v, w := c as int, d as int;
    if 0x1_0000 <= v && 0x1_0000 <= w {
      var qv, rv := (v - 0x1_0000) / 0x400, (v - 0x1_0000) % 0x400;
      var qw, rw := (w - 0x1_0000) / 0x400, (w - 0x1_0000) % 0x400;
      assert v == 0x1_0000 + 0x400 * qv + rv && w == 0x1_0000 + 0x400 * qw + rw;
      UnitsLessPairs(0xD800 + qv, 0xDC00 + rv, 0xD800 + qw, 0xDC00 + rw);
      if qv < qw {
        assert v < w;
      } else if qw < qv {
        assert w < v;
      }
    } else if v < 0x1_0000 && 0x1_0000 <= w {
      UnitsLessMixed(v, Units(d)[0], Units(d)[1]);
    } else if 0x1_0000 <= v && w < 0x1_0000 {
      UnitsLessMixed(w, Units(c)[0], Units(c)[1]);
    } else {
      assert [v][1..] == [] && [w][1..] == [];
    }
  }

  /** `a.compareTo(b) < 0`, character by character in code-unit order. */
  predicate Less(a: string, b: string) {
    if |a| == 0 then |b| > 0
    else if |b| == 0 then false
    else UnitRank(a[0]) < UnitRank(b[0]) || (a[0] == b[0] && Less(a[1..], b[1..]))
  }

  /** The UTF-16 code units of a string, as a Java `String` holds them. */
  function ToUnits(s: string): seq<int> {
    if |s| == 0 then [] else Units(s[0]) + ToUnits(s[1..])
  }

  /** A shared prefix does not decide the order. */
  lemma {:induction false} UnitsLessCommonPrefix(p: seq<int>, x: seq<int>, y: seq<int>)
    ensures UnitsLess(p + x, p + y) <==> UnitsLess(x, y)
  {
    if |p| > 0 {
      assert (p + x)[0] == p[0] == (p + y)[0];
      assert (p + x)[1..] == p[1..] + x && (p + y)[1..] == p[1..] + y;
      UnitsLessCommonPrefix(p[1..], x, y);
    } else {
      assert p + x == x && p + y == y;
    }
  }

  /** A difference inside both prefixes decides the order, whatever follows. */
  lemma {:induction false} UnitsLessDiffer(u: seq<int>, w: seq<int>, x: seq<int>, y: seq<int>, i: nat)
    requires i < |u| && i < |w| && u[i] != w[i]
    ensures UnitsLess(u + x, w + y) <==> UnitsLess(u, w)
  {
    if u[0] == w[0] {
      assert (u + x)[1..] == u[1..] + x && (w + y)[1..] == w[1..] + y;
      UnitsLessDiffer(u[1..], w[1..], x, y, i - 1);
    }
  }

  /** The code units of two different characters differ at a position both have. */
  lemma UnitsDiffer(c: char, d: char) returns (i: nat)
    requires c != d
    ensures i < |Units(c)| && i < |Units(d)| && Units(c)[i] != Units(d)[i]
  {
    var v, w := c as int, d as int;
    if v < 0x1_0000 || w < 0x1_0000 {
      i := 0;
    } else {
      var qv, rv := (v - 0x1_0000) / 0x400, (v - 0x1_0000) % 0x400;
      var qw, rw := (w - 0x1_0000) / 0x400, (w - 0x1_0000) % 0x400;
      assert v == 0x1_0000 + 0x400 * qv + rv && w == 0x1_0000 + 0x400 * qw + rw;
      i := if qv != qw then 0 else 1;
    }
  }

  /** `Less` is the lexicographic order on the strings' UTF-16 code units, which `compareTo` uses. */
  lemma {:induction false} LessIsUnitOrder(a: string, b: string)
    ensures Less(a, b) <==> UnitsLess(ToUnits(a), ToUnits(b))
  {
    if |a| > 0 && |b| > 0 {
      if a[0] == b[0] {
        LessIsUnitOrder(a[1..], b[1..]);
        UnitsLessCommonPrefix(Units(a[0]), ToUnits(a[1..]), ToUnits(b[1..]));
      } else {
        var i := UnitsDiffer(a[0], b[0]);
        UnitsLessDiffer(Units(a[0]), Units(b[0]), ToUnits(a[1..]), ToUnits(b[1..]), i);
        UnitRankOrder(a[0], b[0]);
      }
    }
  }

  /** U+1F600 is stored as 0xD83D 0xDE00, so it comes before U+FF61 although its code point is larger. */
  lemma SurrogatePairOrder()
    ensures ToUnits("\U{1F600}") == [0xD83D, 0xDE00]
    ensures Less("\U{1F600}", "\U{FF61}") && !Less("\U{FF61}", "\U{1F600}")
  {
    assert "\U{1F600}"[1..] == [] && "\U{FF61}"[1..] == [];
  }

  lemma {:induction false} LessIrreflexive(a: string)
    ensures !Less(a, a)
  {
    if |a| > 0 {
      LessIrreflexive(a[1..]);
    }
  }

  lemma {:induction false} LessTransitive(a: string, b: string, c: string)
    requires Less(a, b) && Less(b, c)
    ensures Less(a, c)
  {
    if |a| > 0 && |b| > 0 && |c| > 0 {
      UnitRankOrder(a[0], b[0]);
      UnitRankOrder(b[0], c[0]);
      UnitRankOrder(a[0], c[0]);
      if a[0] == b[0] == c[0] {
        LessTransitive(a[1..], b[1..], c[1..]);
      }
    }
  }

  /** Two different strings are always ordered one way or the other. */
  lemma {:induction false} LessTotal(a: string, b: string)
    ensures a == b || Less(a, b) || Less(b, a)
  {
    if |a| > 0 && |b| > 0 {
      UnitRankOrder(a[0], b[0]);
    }
    if |a| > 0 && |b| > 0 && a[0] == b[0] {
      LessTotal(a[1..], b[1..]);
      if a[1..] == b[1..] {
        assert a == [a[0]] + a[1..] && b == [b[0]] + b[1..];
      }
    }
  }

  lemma LessAsymmetric(a: string, b: string)
    requires Less(a, b)
    ensures !Less(b, a) && a != b
  {
    LessIrreflexive(a);
    if Less(b, a) {
      LessTransitive(a, b, a);
    }
  }

  /** Strictly increasing, hence sorted without duplicates. */
  predicate StrictlySorted(s: seq<string>) {
    forall i, j :: 0 <= i < j < |s| ==> Less(s[i], s[j])
  }

  /** In a strictly sorted sequence a value occurs at one index only. */
  lemma SortedUniqueIndex(s: seq<string>, i: int, j: int)
    requires StrictlySorted(s) && 0 <= i < |s| && 0 <= j < |s| && s[i] == s[j]
    ensures i == j
  {
    if i < j {
      LessIrreflexive(s[i]);
    } else if j < i {
      LessIrreflexive(s[j]);
    }
  }

  /**
   * `Arrays.binarySearch(a, key)`: the index of `key`, or `-(insertion point) - 1`
   * when it is absent; the array must be sorted.
   */
  method BinarySearch(a: seq<string>, key: string) returns (r: int)
    requires StrictlySorted(a)
    ensures 0 <= r ==> r < |a| && a[r] == key
    ensures r < 0 <==> key !in a
    ensures r < 0 ==> 0 <= -r - 1 <= |a|
    ensures r < 0 ==> forall i :: 0 <= i < -r - 1 ==> Less(a[i], key)
    ensures r < 0 ==> forall i :: -r - 1 <= i < |a| && 0 <= i ==> Less(key, a[i])
  {
    var low, high := 0, |a| - 1;
    while low <= high
      invariant 0 <= low <= high + 1 <= |a|
      invariant forall i :: 0 <= i < low ==> Less(a[i], key)
      invariant forall i :: high < i < |a| ==> Less(key, a[i])
    {
      var mid := (low + high) / 2;
      if Less(a[mid], key) {
        forall i | 0 <= i <= mid ensures Less(a[i], key) {
          if i < mid {
            LessTransitive(a[i], a[mid], key);
          }
        }
        low := mid + 1;
      } else if Less(key, a[mid]) {
        forall i | mid <= i < |a| ensures Less(key, a[i]) {
          if mid < i {
            LessTransitive(key, a[mid], a[i]);
          }
        }
        high := mid - 1;
      } else {
        LessTotal(a[mid], key);
        return mid;
      }
    }
    forall i | 0 <= i < |a| ensures a[i] != key {
      if i < low {
        LessAsymmetric(a[i], key);
      } else {
        LessAsymmetric(key, a[i]);
      }
    }
    r := -(low + 1);
  }

  /** `key`'s index in a dictionary that holds it, as the search finds it. */
  function IndexOf(a: seq<string>, key: string): (r: int)
    requires key in a
    ensures 0 <= r < |a| && a[r] == key
  {
    if a[0] == key then 0 else 1 + IndexOf(a[1..], key)
  }

  /** Inserting into a strictly sorted sequence, a value already present is kept once. */
  function Insert(x: string, s: seq<string>): (r: seq<string>)
    requires StrictlySorted(s)
    ensures StrictlySorted(r)
    ensures forall y :: y in r <==> y == x || y in s
    ensures |r| == if x in s then |s| else |s| + 1
  {
    if s == [] then [x]
    else if x == s[0] then s
    else if Less(x, s[0]) then
      InsertFront(x, s);
      [x] + s
    else
      LessTotal(x, s[0]);
      var rest := Insert(x, s[1..]);
      assert s == [s[0]] + s[1..];
      InsertAfter(s[0], rest, x, s[1..]);
      [s[0]] + rest
  }

  lemma InsertFront(x: string, s: seq<string>)
    requires StrictlySorted(s) && s != [] && Less(x, s[0])
    ensures StrictlySorted([x] + s) && x !in s
  {
    forall j | 0 <= j < |s| ensures Less(x, s[j]) {
      if j > 0 {
        LessTransitive(x, s[0], s[j]);
      }
    }
    forall j | 0 <= j < |s| ensures s[j] != x {
      LessAsymmetric(x, s[j]);
    }
  }

  lemma InsertAfter(h: string, rest: seq<string>, x: string, s: seq<string>)
    requires StrictlySorted(rest) && Less(h, x)
    requires forall y :: y in rest <==> y == x || y in s
    requires forall y :: y in s ==> Less(h, y)
    ensures StrictlySorted([h] + rest)
  {
    forall j | 0 <= j < |rest| ensures Less(h, rest[j]) {
      assert rest[j] in rest;
    }
  }

  /** `Arrays.sort` of the elements of a set: the set as a strictly sorted sequence. */
  method SortedElements(elements: set<string>) returns (r: seq<string>)
    ensures StrictlySorted(r)
    ensures forall y :: y in r <==> y in elements
    ensures |r| == |elements|
  {
    r := [];
    var rest := elements;
    while rest != {}
      invariant StrictlySorted(r)
      invariant forall y :: y in elements <==> y in r || y in rest
      invariant forall y :: y in r ==> y !in rest
      invariant |r| + |rest| == |elements|
      decreases |rest|
    {
      var x :| x in rest;
      r := Insert(x, r);
      rest := rest - {x};
    }
  }
}
