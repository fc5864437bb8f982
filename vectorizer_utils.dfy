/**
 * VectorizerUtils: dictionaries built from tokenized documents with
 * document-frequency filtering, transition arrays, inverted indices,
 * word-count vectors, frequency ranking and the hashing trick.
 *
 * A document is a sequence of tokens. Guava's multisets and multimaps are
 * Dafny `multiset`s and `map`s to sets, `Arrays.sort`/`Arrays.binarySearch`
 * are the verified `Strings` members, and the Murmur3 hash is a parameter.
 */
module VectorizerUtils {
  import opened Wrappers
  import opened IntSeqs
  import opened Strings
  import opened Vectors
  import opened SeqSort
  import ArrayUtils

  type Document = seq<string>

  /** `OUT_OF_VOCABULARY`: the token that stands for every unknown word. */
  const OutOfVocabulary: string := "@__OOV__@"

  // ----- document frequencies -----

  /** The positions among the first `n` documents of those that contain `t`. */
  function Containing(docs: seq<Document>, n: nat, t: string): set<int>
    requires n <= |docs|
  {
    set i | 0 <= i < n && t in docs[i]
  }

  /** How many documents contain `t`, each document counted once. */
  function DocCount(docs: seq<Document>, t: string): nat {
    if docs == [] then 0
    else DocCount(docs[..|docs| - 1], t) + (if t in docs[|docs| - 1] then 1 else 0)
  }

  /** One more document adds its own position when it contains `t`. */
  lemma ContainingStep(docs: seq<Document>, n: nat, t: string)
    requires n < |docs|
    ensures Containing(docs, n + 1, t) == Containing(docs, n, t) + (if t in docs[n] then {n} else {})
  {
  }

  /** The document count is the number of documents that hold the token. */
  lemma {:induction false} DocCountSize(docs: seq<Document>, t: string)
    ensures DocCount(docs, t) == |Containing(docs, |docs|, t)|
  {
    if docs != [] {
      var m := |docs| - 1;
      var init := docs[..m];
      DocCountSize(init, t);
      assert Containing(init, m, t) == Containing(docs, m, t);
      ContainingStep(docs, m, t);
      assert m !in Containing(docs, m, t);
    }
  }

  /** The count `buildDictionary` keeps for `t`: one per document, and one extra for the out-of-vocabulary marker. */
  function Frequency(docs: seq<Document>, t: string): nat {
    DocCount(docs, t) + (if t == OutOfVocabulary then 1 else 0)
  }

  lemma FrequencyStep(docs: seq<Document>, i: nat)
    requires i < |docs|
    ensures forall t :: Frequency(docs[..i + 1], t) == Frequency(docs[..i], t) + (if t in docs[i] then 1 else 0)
  {
    assert docs[..i + 1][..i] == docs[..i];
  }

  /** `(int) (stopWordPercentage * documents)`, for a non-negative product. */
  function Threshold(stopWordPercentage: real, documents: nat): int {
    (stopWordPercentage * documents as real).Floor
  }

  /**
   * A token makes it into the dictionary when it occurs at all and is neither
   * spam (count above the threshold) nor rare (count below `minFrequency`);
   * the start and end tags are never removed.
   */
  predicate Kept(docs: seq<Document>, stopWordPercentage: real, minFrequency: int,
                 startTag: string, endTag: string, t: string)
  {
    var c := Frequency(docs, t);
    c > 0 && (t == startTag || t == endTag || (c <= Threshold(stopWordPercentage, |docs|) && minFrequency <= c))
  }

  /** The multiset `buildDictionary` fills: the marker once, then the distinct tokens of every document. */
  method CountDocuments(docs: seq<Document>) returns (counts: multiset<string>)
    ensures forall t :: counts[t] == Frequency(docs, t)
  {
    counts := multiset{OutOfVocabulary};
    var i := 0;
    while i < |docs|
      invariant 0 <= i <= |docs|
      invariant forall t :: counts[t] == Frequency(docs[..i], t)
    {
      var distinct := ArrayUtils.Deduplicate(docs[i]);
      ArrayUtils.DeduplicateSpec(docs[i]);
      var j := 0;
      while j < |distinct|
        invariant 0 <= j <= |distinct|
        invariant forall t :: counts[t] == Frequency(docs[..i], t) + (if t in distinct[..j] then 1 else 0)
      {
        assert distinct[..j + 1] == distinct[..j] + [distinct[j]];
        assert distinct[j] !in distinct[..j];
        counts := counts + multiset{distinct[j]};
        j := j + 1;
      }
      assert distinct[..j] == distinct;
      FrequencyStep(docs, i);
      i := i + 1;
    }
    assert docs[..i] == docs;
  }

  /** The entries to drop: count above the threshold or below the minimum frequency. */
  method Spam(counts: multiset<string>, threshold: int, minFrequency: int) returns (toRemove: set<string>)
    ensures forall t :: t in toRemove <==> t in counts && (counts[t] > threshold || counts[t] < minFrequency)
  {
    toRemove := {};
    var pending := set t | t in counts;
    while pending != {}
      invariant forall t :: t in pending ==> t in counts
      invariant forall t :: t in toRemove <==>
        t in counts && t !in pending && (counts[t] > threshold || counts[t] < minFrequency)
      decreases |pending|
    {
      var t :| t in pending;
      if counts[t] > threshold || counts[t] < minFrequency {
        toRemove := toRemove + {t};
      }
      pending := pending - {t};
    }
  }

  /**
   * `buildDictionary(documents, stopWordPercentage, minFrequency)`: the kept
   * tokens, sorted and without duplicates; a percentage outside [0, 1] is refused.
   */
  method BuildDictionary(docs: seq<Document>, stopWordPercentage: real, minFrequency: int,
                         startTag: string, endTag: string)
    returns (r: Result<seq<string>, string>)
    ensures r.Failure? <==> !(0.0 <= stopWordPercentage <= 1.0)
    ensures r.Success? ==> StrictlySorted(r.value)
    ensures r.Success? ==> forall t :: t in r.value <==> Kept(docs, stopWordPercentage, minFrequency, startTag, endTag, t)
  {
    if !(0.0 <= stopWordPercentage <= 1.0) {
      return Failure("The provided stop word percentage is not between 0 and 1");
    }
    var counts := CountDocuments(docs);
    var threshold := Threshold(stopWordPercentage, |docs|);
    var toRemove := Spam(counts, threshold, minFrequency);
    toRemove := toRemove - {startTag} - {endTag};
    var elementSet := set t | t in counts;
    elementSet := RemoveEach(elementSet, toRemove);
    var sorted := SortedElements(elementSet);
    return Success(sorted);
  }

  /** Removes the members of `toRemove` one at a time, as the source does instead of `removeAll`. */
  method RemoveEach(elements: set<string>, toRemove: set<string>) returns (r: set<string>)
    ensures forall t :: t in r <==> t in elements && t !in toRemove
  {
    r := elements;
    var pending := toRemove;
    while pending != {}
      invariant pending <= toRemove
      invariant forall t :: t in r <==> t in elements && (t !in toRemove || t in pending)
      decreases |pending|
    {
      var t :| t in pending;
      r := r - {t};
      pending := pending - {t};
    }
  }

  /** `buildDictionary(documents)`: spam is what at least 90% of the documents hold, no minimum frequency. */
  method BuildDefaultDictionary(docs: seq<Document>, startTag: string, endTag: string) returns (dict: seq<string>)
    ensures StrictlySorted(dict)
    ensures forall t :: t in dict <==> Kept(docs, 0.9, 0, startTag, endTag, t)
  {
    var r := BuildDictionary(docs, 0.9, 0, startTag, endTag);
    dict := r.value;
  }

  // ----- transition arrays -----

  /** The dictionary index a token maps to: its own, else the marker's, else 0. */
  function TransitionIndex(dict: seq<string>, token: string): (r: int)
    ensures token in dict ==> 0 <= r < |dict| && dict[r] == token
    ensures token !in dict && OutOfVocabulary in dict ==> 0 <= r < |dict| && dict[r] == OutOfVocabulary
    ensures token !in dict && OutOfVocabulary !in dict ==> r == 0
  {
    if token in dict then IndexOf(dict, token)
    else if OutOfVocabulary in dict then IndexOf(dict, OutOfVocabulary)
    else 0
  }

  /** `buildTransition(dict, doc)`: each token's dictionary index. */
  method BuildTransition(dict: seq<string>, doc: Document) returns (r: seq<int>)
    requires StrictlySorted(dict)
    ensures |r| == |doc|
    ensures forall i :: 0 <= i < |doc| ==> r[i] == TransitionIndex(dict, doc[i])
  {
    var toReturn := new int[|doc|](_ => 0);
    var i := 0;
    while i < |doc|
      invariant 0 <= i <= |doc|
      invariant forall k :: 0 <= k < i ==> toReturn[k] == TransitionIndex(dict, doc[k])
      invariant forall k :: i <= k < |doc| ==> toReturn[k] == 0
    {
      var idx := LookUp(dict, doc[i]);
      toReturn[i] := idx;
      i := i + 1;
    }
    r := toReturn[..];
  }

  /** The two binary searches of one step of `buildTransition`. */
  method LookUp(dict: seq<string>, token: string) returns (idx: int)
    requires StrictlySorted(dict)
    ensures idx == TransitionIndex(dict, token)
  {
    idx := BinarySearch(dict, token);
    if idx >= 0 {
      SortedUniqueIndex(dict, idx, IndexOf(dict, token));
    } else {
      idx := BinarySearch(dict, OutOfVocabulary);
      if idx >= 0 {
        SortedUniqueIndex(dict, idx, IndexOf(dict, OutOfVocabulary));
      } else {
        idx := 0;
      }
    }
  }

  // ----- inverted indices -----

  /** `HashMultimap.get`: the values stored under `t`, empty when there are none. */
  function Postings(index: map<string, set<int>>, t: string): set<int> {
    if t in index then index[t] else {}
  }

  /** `buildInvertedIndexMap`: each dictionary token maps to the positions of the documents holding it. */
  method BuildInvertedIndexMap(docs: seq<Document>, dict: seq<string>) returns (index: map<string, set<int>>)
    requires StrictlySorted(dict)
    ensures forall t :: t in index ==> index[t] != {}
    ensures forall t :: Postings(index, t) == if t in dict then Containing(docs, |docs|, t) else {}
  {
    index := map[];
    var i := 0;
    while i < |docs|
      invariant 0 <= i <= |docs|
      invariant forall t :: t in index ==> index[t] != {}
      invariant forall t :: Postings(index, t) == if t in dict then Containing(docs, i, t) else {}
    {
      index := IndexDocument(index, docs, i, dict);
      forall t ensures Postings(index, t) == if t in dict then Containing(docs, i + 1, t) else {} {
        ContainingStep(docs, i, t);
      }
      i := i + 1;
    }
  }

  /** Adds document `i` under each of its dictionary tokens. */
  method IndexDocument(index: map<string, set<int>>, docs: seq<Document>, i: nat, dict: seq<string>)
    returns (r: map<string, set<int>>)
    requires StrictlySorted(dict) && i < |docs|
    requires forall t :: t in index ==> index[t] != {}
    ensures forall t :: t in r ==> r[t] != {}
    ensures forall t :: Postings(r, t) == Postings(index, t) + (if t in dict && t in docs[i] then {i} else {})
  {
    r := index;
    var tokens := docs[i];
    var j := 0;
    while j < |tokens|
      invariant 0 <= j <= |tokens|
      invariant forall t :: t in r ==> r[t] != {}
      invariant forall t :: Postings(r, t) == Postings(index, t) + (if t in dict && t in tokens[..j] then {i} else {})
    {
      assert tokens[..j + 1] == tokens[..j] + [tokens[j]];
      var found := BinarySearch(dict, tokens[j]);
      if found >= 0 {
        r := r[tokens[j] := Postings(r, tokens[j]) + {i}];
      }
      j := j + 1;
    }
    assert tokens[..j] == tokens;
  }

  /** Some member of a non-empty set. */
  method Pick<T>(s: set<T>) returns (x: T)
    requires s != {}
    ensures x in s
  {
    x :| x in s;
  }

  /** `set.toArray`: the members of a set, each once, in some order. */
  method ToSequence(s: set<int>) returns (r: seq<int>)
    ensures Distinct(r) && |r| == |s|
    ensures forall x :: x in r <==> x in s
  {
    r := [];
    var rest := s;
    while rest != {}
      invariant Distinct(r) && |r| + |rest| == |s|
      invariant forall x :: x in s <==> x in r || x in rest
      invariant forall x :: x in r ==> x !in rest
      decreases |rest|
    {
      var x := Pick(rest);
      r := r + [x];
      rest := rest - {x};
    }
  }

  /** `buildInvertedIndexArray`: for each dictionary position, the documents holding that token. */
  method BuildInvertedIndexArray(docs: seq<Document>, dict: seq<string>) returns (r: seq<seq<int>>)
    requires StrictlySorted(dict)
    ensures |r| == |dict|
    ensures forall i :: 0 <= i < |dict| ==> Distinct(r[i])
    ensures forall i, d :: 0 <= i < |dict| ==> (d in r[i] <==> d in Containing(docs, |docs|, dict[i]))
  {
    var invertedIndex := BuildInvertedIndexMap(docs, dict);
    r := [];
    var i := 0;
    while i < |dict|
      invariant 0 <= i <= |dict| && |r| == i
      invariant forall k :: 0 <= k < i ==> Distinct(r[k])
      invariant forall k, d :: 0 <= k < i ==> (d in r[k] <==> d in Containing(docs, |docs|, dict[k]))
    {
      var ids := ToSequence(Postings(invertedIndex, dict[i]));
      r := r + [ids];
      i := i + 1;
    }
  }

  /** `buildInvertedIndexDocumentCount`: for each dictionary position, how many documents hold that token. */
  method BuildInvertedIndexDocumentCount(docs: seq<Document>, dict: seq<string>) returns (r: seq<int>)
    requires StrictlySorted(dict)
    ensures |r| == |dict|
    ensures forall i :: 0 <= i < |dict| ==> r[i] == |Containing(docs, |docs|, dict[i])|
  {
    var invertedIndex := BuildInvertedIndexMap(docs, dict);
    var counts := new int[|dict|](_ => 0);
    var i := 0;
    while i < |dict|
      invariant 0 <= i <= |dict|
      invariant forall k :: 0 <= k < i ==> counts[k] == |Containing(docs, |docs|, dict[k])|
    {
      counts[i] := |Postings(invertedIndex, dict[i])|;
      i := i + 1;
    }
    r := counts[..];
  }

  /**
   * The document counts agree with the counts `buildDictionary` filters on:
   * a token's count is its document count, plus one for the marker.
   */
  lemma DocumentCountAgrees(docs: seq<Document>, t: string)
    ensures |Containing(docs, |docs|, t)| == Frequency(docs, t) - (if t == OutOfVocabulary then 1 else 0)
  {
    DocCountSize(docs, t);
  }

  // ----- word-count vectors -----

  /**
   * The value left at the marker's index after the first `n` tokens: an unknown
   * token sets it to 1, the marker itself sets it to its count, and any other
   * known token leaves it alone.
   */
  function OovValue(dict: seq<string>, doc: Document, n: nat): real
    requires n <= |doc|
  {
    if n == 0 then 0.0
    else if doc[n - 1] !in dict then 1.0
    else if doc[n - 1] == OutOfVocabulary then multiset(doc)[OutOfVocabulary] as real
    else OovValue(dict, doc, n - 1)
  }

  /** Without the marker in the document, the marker's entry says whether an unknown token occurred. */
  lemma {:induction false} OovValueUnknown(dict: seq<string>, doc: Document, n: nat)
    requires n <= |doc| && OutOfVocabulary !in doc[..n]
    ensures OovValue(dict, doc, n) == if exists k :: 0 <= k < n && doc[k] !in dict then 1.0 else 0.0
  {
    if n > 0 {
      assert doc[n - 1] in doc[..n];
      assert doc[..n - 1] == doc[..n][..n - 1];
      OovValueUnknown(dict, doc, n - 1);
    }
  }

  /** With every token known, the marker's entry is the marker's own count, as for any other word. */
  lemma {:induction false} OovValueKnown(dict: seq<string>, doc: Document, n: nat)
    requires n <= |doc| && forall k :: 0 <= k < n ==> doc[k] in dict
    ensures OovValue(dict, doc, n) == if OutOfVocabulary in doc[..n] then multiset(doc)[OutOfVocabulary] as real else 0.0
  {
    if n > 0 {
      assert doc[..n] == doc[..n - 1] + [doc[n - 1]];
      OovValueKnown(dict, doc, n - 1);
    }
  }

  /**
   * The vector `wordFrequencyVectorize` builds for one document: one dimension
   * per dictionary word, holding that word's count in the document; the marker's
   * dimension holds `OovValue`.
   */
  ghost predicate CountsDocument(dict: seq<string>, doc: Document, v: Vector) {
    && v.Sparse? && v.dim == |dict| && IndicesIncreasing(v.entries)
    && (forall k :: 0 <= k < |dict| && dict[k] != OutOfVocabulary ==> Get(v, k) == multiset(doc)[dict[k]] as real)
    && (forall k :: 0 <= k < |dict| && dict[k] == OutOfVocabulary ==> Get(v, k) == OovValue(dict, doc, |doc|))
    && (forall k :: !(0 <= k < |dict|) ==> Get(v, k) == 0.0)
  }

  /** One document of `wordFrequencyVectorize`. */
  method CountVector(dict: seq<string>, doc: Document, oovIndex: int) returns (v: Vector)
    requires StrictlySorted(dict)
    requires oovIndex < 0 <==> OutOfVocabulary !in dict
    requires 0 <= oovIndex ==> oovIndex < |dict| && dict[oovIndex] == OutOfVocabulary
    ensures CountsDocument(dict, doc, v)
  {
    var es: seq<(int, real)> := [];
    var j := 0;
    while j < |doc|
      invariant 0 <= j <= |doc| && IndicesIncreasing(es)
      invariant forall k :: 0 <= k < |dict| && dict[k] != OutOfVocabulary ==>
        Lookup(es, k) == if dict[k] in doc[..j] then multiset(doc)[dict[k]] as real else 0.0
      invariant 0 <= oovIndex ==> Lookup(es, oovIndex) == OovValue(dict, doc, j)
      invariant forall k :: !(0 <= k < |dict|) ==> Lookup(es, k) == 0.0
    {
      assert doc[..j + 1] == doc[..j] + [doc[j]];
      var foundIndex := BinarySearch(dict, doc[j]);
      if foundIndex >= 0 {
        es := SetEntry(es, foundIndex, multiset(doc)[doc[j]] as real);
        forall k | 0 <= k < |dict| && dict[k] == doc[j] ensures k == foundIndex {
          SortedUniqueIndex(dict, k, foundIndex);
        }
      } else if oovIndex >= 0 {
        es := SetEntry(es, oovIndex, 1.0);
      }
      j := j + 1;
    }
    v := Sparse(|dict|, es);
    forall k | 0 <= k < |dict| && dict[k] != OutOfVocabulary ensures Get(v, k) == multiset(doc)[dict[k]] as real {
      assert doc[..j] == doc;
    }
    forall k | 0 <= k < |dict| && dict[k] == OutOfVocabulary ensures Get(v, k) == OovValue(dict, doc, |doc|) {
      SortedUniqueIndex(dict, k, oovIndex);
    }
  }

  /** `wordFrequencyVectorize(documents, dictionary)`: one count vector per document, in order. */
  method WordFrequencyVectorize(docs: seq<Document>, dict: seq<string>) returns (vectors: seq<Vector>)
    requires StrictlySorted(dict)
    ensures |vectors| == |docs|
    ensures forall i :: 0 <= i < |docs| ==> CountsDocument(dict, docs[i], vectors[i])
  {
    vectors := [];
    var oovIndex := BinarySearch(dict, OutOfVocabulary);
    var i := 0;
    while i < |docs|
      invariant 0 <= i <= |docs| && |vectors| == i
      invariant forall k :: 0 <= k < i ==> CountsDocument(dict, docs[k], vectors[k])
    {
      var vector := CountVector(dict, docs[i], oovIndex);
      vectors := vectors + [vector];
      i := i + 1;
    }
  }

  /** `wordFrequencyVectorize(documents)`: the same against the default dictionary of the documents. */
  method WordFrequencyVectorizeCorpus(docs: seq<Document>, startTag: string, endTag: string)
    returns (dict: seq<string>, vectors: seq<Vector>)
    ensures forall t :: t in dict <==> Kept(docs, 0.9, 0, startTag, endTag, t)
    ensures |vectors| == |docs|
    ensures forall i :: 0 <= i < |docs| ==> CountsDocument(dict, docs[i], vectors[i])
  {
    dict := BuildDefaultDictionary(docs, startTag, endTag);
    vectors := WordFrequencyVectorize(docs, dict);
  }

  // ----- frequency ranking -----

  /** The entries of a multiset, listed in the order its entry set iterates them. */
  function Entries<E(==)>(counts: multiset<E>, order: seq<E>): (r: seq<(E, nat)>)
    ensures |r| == |order|
    ensures forall i :: 0 <= i < |order| ==> r[i] == (order[i], counts[order[i]])
  {
    if order == [] then [] else [(order[0], counts[order[0]])] + Entries(counts, order[1..])
  }

  /** `Iterables.filter`: the entries the predicate accepts, in order. */
  function Filter<E(!new)>(entries: seq<(E, nat)>, accept: ((E, nat)) -> bool): (r: seq<(E, nat)>)
    ensures forall x :: multiset(r)[x] == if accept(x) then multiset(entries)[x] else 0
  {
    if entries == [] then []
    else
      assert entries == [entries[0]] + entries[1..];
      (if accept(entries[0]) then [entries[0]] else []) + Filter(entries[1..], accept)
  }

  /** The sort key that puts larger counts first. */
  function Descending<E>(e: (E, nat)): real {
    -(e.1 as real)
  }

  /**
   * `getMostFrequentItems(set, filter)`: the entries (those the filter accepts,
   * when there is one) ordered by non-increasing count.
   */
  function MostFrequentItems<E(==,!new)>(counts: multiset<E>, order: seq<E>, filter: Option<((E, nat)) -> bool>)
    : (r: seq<(E, nat)>)
    requires Distinct(order) && forall e :: e in order <==> e in counts
    ensures forall i, j :: 0 <= i < j < |r| ==> r[i].1 >= r[j].1
    ensures forall x :: multiset(r)[x] == (if x in Entries(counts, order) && (filter.None? || filter.value(x)) then 1 else 0)
    ensures forall x :: x in r ==> x.1 == counts[x.0] && x.0 in counts
  {
    var entries := Entries(counts, order);
    var chosen := if filter.None? then entries else Filter(entries, filter.value);
    EntriesOnce(counts, order);
    SortBy(chosen, Descending)
  }

  /** Every entry of the listing occurs once, with the element's count. */
  lemma EntriesOnce<E>(counts: multiset<E>, order: seq<E>)
    requires Distinct(order) && forall e :: e in order <==> e in counts
    ensures forall x :: multiset(Entries(counts, order))[x] == if x in Entries(counts, order) then 1 else 0
    ensures forall x :: x in Entries(counts, order) ==> x.1 == counts[x.0] && x.0 in counts
  {
    var r := Entries(counts, order);
    assert Distinct(r);
    DistinctOnce(r);
    forall x | x in r ensures x.1 == counts[x.0] && x.0 in counts {
      var i :| 0 <= i < |r| && r[i] == x;
      assert order[i] in order;
    }
  }

  lemma {:induction false} DistinctOnce<T>(s: seq<T>)
    requires Distinct(s)
    ensures forall x :: multiset(s)[x] == if x in s then 1 else 0
  {
    if s != [] {
      var t := s[1..];
      assert s == [s[0]] + t;
      DistinctOnce(t);
      assert s[0] !in t;
    }
  }

  // ----- the hashing trick -----

  const IntMin: int := -0x8000_0000
  const IntMax: int := 0x7fff_ffff

  predicate IsInt(x: int) {
    IntMin <= x <= IntMax
  }

  /** `Math.abs` on an `int`: the minimum value is its own absolute value. */
  function Abs(x: int): int {
    if x == IntMin then IntMin else if x < 0 then -x else x
  }

  /** Java's `%`: truncating division, so the remainder takes the dividend's sign. */
  function Rem(a: int, n: int): int
    requires n != 0
  {
    var m := if n < 0 then -n else n;
    if a >= 0 then a % m else -((-a) % m)
  }

  /** `Math.abs(hash) % n`: the bucket a hashed index goes to. */
  function HashBucket(hash: int, n: int): int
    requires n != 0
  {
    Rem(Abs(hash), n)
  }

  /** A negative hash subtracts one, any other adds one. */
  function Sign(hash: int): real {
    if hash < 0 then -1.0 else 1.0
  }

  /** Every non-zero index lands in a bucket of an `n`-dimensional vector. */
  predicate Hashable(indices: seq<int>, hash: int -> int, n: int) {
    indices == [] || (n > 0 && forall i :: 0 <= i < |indices| ==> 0 <= HashBucket(hash(indices[i]), n) < n)
  }

  /** The positions of `iterateNonZero()`, in order. */
  function Indices(es: seq<(int, real)>): (r: seq<int>)
    ensures |r| == |es| && forall i :: 0 <= i < |es| ==> r[i] == es[i].0
  {
    seq(|es|, i requires 0 <= i < |es| => es[i].0)
  }

  /** The dense vector after adding the sign of each index's hash to its bucket. */
  function Hashed(indices: seq<int>, hash: int -> int, n: nat): (r: seq<real>)
    requires Hashable(indices, hash, n)
    ensures |r| == n
  {
    if indices == [] then seq(n, _ => 0.0)
    else
      var init := indices[..|indices| - 1];
      assert forall i :: 0 <= i < |init| ==> init[i] == indices[i];
      var prev := Hashed(init, hash, n);
      var h := hash(indices[|indices| - 1]);
      var b := HashBucket(h, n);
      prev[b := prev[b] + Sign(h)]
  }

  /** One more index adds its sign to its bucket. */
  lemma HashedSnoc(indices: seq<int>, i: nat, hash: int -> int, n: nat)
    requires i < |indices| && Hashable(indices[..i], hash, n)
    requires n > 0 && 0 <= HashBucket(hash(indices[i]), n) < n
    ensures Hashable(indices[..i + 1], hash, n)
    ensures Hashed(indices[..i + 1], hash, n) == Hashed(indices[..i], hash, n)[HashBucket(hash(indices[i]), n) :=
      Hashed(indices[..i], hash, n)[HashBucket(hash(indices[i]), n)] + Sign(hash(indices[i]))]
  {
    assert indices[..i + 1][..i] == indices[..i];
  }

  /** `hashVectorize` succeeds on `v`: a non-negative size that holds every non-zero index's bucket. */
  predicate VectorHashable(v: Vector, hash: int -> int, n: int) {
    n >= 0 && Hashable(Indices(NonZero(v)), hash, n)
  }

  /** `hashVectorize(inputFeature, n)`, with the Murmur3 hash of an index given as `hash`. */
  method HashVectorize(v: Vector, hash: int -> int, n: int) returns (r: Result<Vector, string>)
    requires forall x :: IsInt(hash(x))
    ensures r.Success? <==> VectorHashable(v, hash, n)
    ensures r.Success? ==> r.value == Dense(Hashed(Indices(NonZero(v)), hash, n))
  {
    if n < 0 {
      return Failure("NegativeArraySizeException");
    }
    var dense := HashIndices(Indices(NonZero(v)), hash, n);
    if dense.Failure? {
      return Failure(dense.error);
    }
    return Success(Dense(dense.value));
  }

  /** The loop of `hashVectorize` over the non-zero indices, into a fresh zero vector of `n` values. */
  method HashIndices(indices: seq<int>, hash: int -> int, n: nat) returns (r: Result<seq<real>, string>)
    ensures r.Success? <==> Hashable(indices, hash, n)
    ensures r.Success? ==> r.value == Hashed(indices, hash, n)
  {
    var dense := new real[n](_ => 0.0);
    var i := 0;
    while i < |indices|
      invariant 0 <= i <= |indices|
      invariant Hashable(indices[..i], hash, n)
      invariant dense[..] == Hashed(indices[..i], hash, n)
    {
      var h := hash(indices[i]);
      if n == 0 {
        return Failure("ArithmeticException: / by zero");
      }
      var bucket := HashBucket(h, n);
      if !(0 <= bucket < n) {
        return Failure("ArrayIndexOutOfBoundsException");
      }
      HashedSnoc(indices, i, hash, n);
      dense[bucket] := dense[bucket] + Sign(h);
      i := i + 1;
    }
    assert indices[..i] == indices;
    return Success(dense[..]);
  }

  /** `hashVectorize(features, n)`: every vector hashed, the array's length kept. */
  method HashVectorizeAll(features: seq<Vector>, hash: int -> int, n: int) returns (r: Result<seq<Vector>, string>)
    requires forall x :: IsInt(hash(x))
    ensures r.Success? <==> forall i :: 0 <= i < |features| ==> VectorHashable(features[i], hash, n)
    ensures r.Success? ==> |r.value| == |features|
    ensures r.Success? ==> forall i :: 0 <= i < |features| ==> r.value[i] == Dense(Hashed(Indices(NonZero(features[i])), hash, n))
  {
    var lst: seq<Vector> := [];
    var i := 0;
    while i < |features|
      invariant 0 <= i <= |features| && |lst| == i
      invariant forall k :: 0 <= k < i ==> VectorHashable(features[k], hash, n)
      invariant forall k :: 0 <= k < i ==> lst[k] == Dense(Hashed(Indices(NonZero(features[k])), hash, n))
    {
      var hashed := HashVectorize(features[i], hash, n);
      if hashed.Failure? {
        assert !VectorHashable(features[i], hash, n);
        return Failure(hashed.error);
      }
      lst := lst + [hashed.value];
      i := i + 1;
    }
    return Success(lst);
  }

  /** The signed number of indices hashed into bucket `b`: the reference meaning of an entry. */
  function SignedCount(indices: seq<int>, hash: int -> int, n: int, b: int): real
    requires n > 0
  {
    if indices == [] then 0.0
    else
      var h := hash(indices[|indices| - 1]);
      SignedCount(indices[..|indices| - 1], hash, n, b) + (if HashBucket(h, n) == b then Sign(h) else 0.0)
  }

  /** Each entry of the hashed vector is the signed number of indices in its bucket. */
  lemma {:induction false} HashedCounts(indices: seq<int>, hash: int -> int, n: nat)
    requires n > 0 && Hashable(indices, hash, n)
    ensures forall b :: 0 <= b < n ==> Hashed(indices, hash, n)[b] == SignedCount(indices, hash, n, b)
  {
    if indices != [] {
      var init := indices[..|indices| - 1];
      assert forall i :: 0 <= i < |init| ==> init[i] == indices[i];
      HashedCounts(init, hash, n);
    }
  }

  /** The sum of absolute values. */
  function AbsSum(s: seq<real>): real {
    if s == [] then 0.0 else (if s[0] < 0.0 then -s[0] else s[0]) + AbsSum(s[1..])
  }

  /** Changing one value by one changes the absolute sum by at most one. */
  lemma {:induction false} AbsSumUpdate(s: seq<real>, b: nat, d: real)
    requires b < |s| && (d == 1.0 || d == -1.0)
    ensures AbsSum(s[b := s[b] + d]) <= AbsSum(s) + 1.0
  {
    if b > 0 {
      AbsSumUpdate(s[1..], b - 1, d);
      assert s[b := s[b] + d][1..] == s[1..][b - 1 := s[1..][b - 1] + d];
    } else {
      assert s[b := s[b] + d][1..] == s[1..];
    }
  }

  lemma AbsSumZero(n: nat)
    ensures AbsSum(seq(n, _ => 0.0)) == 0.0
  {
    if n > 0 {
      assert seq(n, _ => 0.0)[1..] == seq(n - 1, _ => 0.0);
      AbsSumZero(n - 1);
    }
  }

  /** The hashed vector's absolute values add up to at most the number of non-zero inputs. */
  lemma {:induction false} HashedMass(indices: seq<int>, hash: int -> int, n: nat)
    requires Hashable(indices, hash, n)
    ensures AbsSum(Hashed(indices, hash, n)) <= |indices| as real
  {
    if indices == [] {
      AbsSumZero(n);
    } else {
      var init := indices[..|indices| - 1];
      assert forall i :: 0 <= i < |init| ==> init[i] == indices[i];
      HashedMass(init, hash, n);
      var h := hash(indices[|indices| - 1]);
      AbsSumUpdate(Hashed(init, hash, n), HashBucket(h, n), Sign(h));
    }
  }

  /** Any hash but the minimum `int` lands in range. */
  lemma BucketInRange(hash: int, n: int)
    requires IsInt(hash) && hash != IntMin && n > 0
    ensures 0 <= HashBucket(hash, n) < n
  {
  }

  /** The minimum `int` keeps its sign under `Math.abs`, so it lands in range only when `n` divides 2^31. */
  lemma BucketOfMinimum(n: int)
    requires n > 0
    ensures 0 <= HashBucket(IntMin, n) < n <==> 0x8000_0000 % n == 0
    ensures HashBucket(IntMin, n) == -(0x8000_0000 % n)
  {
  }

  /** For instance, with three buckets the minimum `int` goes to bucket -2. */
  lemma BucketOfMinimumExample()
    ensures HashBucket(IntMin, 3) == -2
  {
    BucketOfMinimum(3);
  }
}
