/**
 * VectorWritable: the binary record format of a (possibly sparse, possibly
 * named) vector. A `DataOutput`/`DataInput` is a sequence of typed tokens,
 * one per `writeBoolean`/`writeInt`/`writeDouble`/`writeUTF` call; values are
 * opaque, so the record layout and its round trip are what is modelled.
 *
 * Layout: sparse flag, length; then for a sparse vector its dimension and one
 * (index, value) pair per stored entry, for a dense vector its values in index
 * order; then `true` and the name, or `false` when there is no name.
 */
module VectorWritables {
  import opened Wrappers
  import opened Vectors

  datatype Token = Bool(b: bool) | Int(i: int) | Double(d: real) | Utf(s: string)

  /** A vector together with the name of a `NamedDoubleVector`, if any. */
  datatype NamedVector = NamedVector(vector: Vector, name: Option<string>)

  /** A `DataOutput`: everything written so far. */
  class Output {
    var written: seq<Token>

    constructor ()
      ensures written == []
    {
      written := [];
    }

    method Write(t: Token)
      modifies this
      ensures written == old(written) + [t]
    {
      written := written + [t];
    }
  }

  /** A `DataInput`: the tokens and the position of the next read. */
  class Input {
    const tokens: seq<Token>
    var pos: nat

    constructor (tokens: seq<Token>)
      ensures this.tokens == tokens && pos == 0
    {
      this.tokens := tokens;
      pos := 0;
    }

    /** `readBoolean`: fails at the end of the stream or on a token of another kind. */
    method ReadBool() returns (r: Result<bool, string>)
      modifies this
      ensures r.Success? <==> old(pos) < |tokens| && tokens[old(pos)].Bool?
      ensures r.Success? ==> r.value == tokens[old(pos)].b && pos == old(pos) + 1
      ensures r.Failure? ==> pos == old(pos)
    {
      if pos < |tokens| && tokens[pos].Bool? {
        r := Success(tokens[pos].b);
        pos := pos + 1;
      } else {
        r := Failure("EOFException");
      }
    }

    method ReadInt() returns (r: Result<int, string>)
      modifies this
      ensures r.Success? <==> old(pos) < |tokens| && tokens[old(pos)].Int?
      ensures r.Success? ==> r.value == tokens[old(pos)].i && pos == old(pos) + 1
      ensures r.Failure? ==> pos == old(pos)
    {
      if pos < |tokens| && tokens[pos].Int? {
        r := Success(tokens[pos].i);
        pos := pos + 1;
      } else {
        r := Failure("EOFException");
      }
    }

    method ReadDouble() returns (r: Result<real, string>)
      modifies this
      ensures r.Success? <==> old(pos) < |tokens| && tokens[old(pos)].Double?
      ensures r.Success? ==> r.value == tokens[old(pos)].d && pos == old(pos) + 1
      ensures r.Failure? ==> pos == old(pos)
    {
      if pos < |tokens| && tokens[pos].Double? {
        r := Success(tokens[pos].d);
        pos := pos + 1;
      } else {
        r := Failure("EOFException");
      }
    }

    method ReadUtf() returns (r: Result<string, string>)
      modifies this
      ensures r.Success? <==> old(pos) < |tokens| && tokens[old(pos)].Utf?
      ensures r.Success? ==> r.value == tokens[old(pos)].s && pos == old(pos) + 1
      ensures r.Failure? ==> pos == old(pos)
    {
      if pos < |tokens| && tokens[pos].Utf? {
        r := Success(tokens[pos].s);
        pos := pos + 1;
      } else {
        r := Failure("EOFException");
      }
    }
  }

  // ----- the record format -----

  function EncodePairs(es: seq<(int, real)>): (r: seq<Token>)
    ensures |r| == 2 * |es|
  {
    if es == [] then [] else [Int(es[0].0), Double(es[0].1)] + EncodePairs(es[1..])
  }

  /** Entry `j` is written as the tokens at `2 * j` and `2 * j + 1`. */
  lemma {:induction false} EncodePairsAt(es: seq<(int, real)>, j: nat)
    requires j < |es|
    ensures EncodePairs(es)[2 * j] == Int(es[j].0) && EncodePairs(es)[2 * j + 1] == Double(es[j].1)
    decreases j
  {
    if j > 0 {
      EncodePairsAt(es[1..], j - 1);
      var rest := EncodePairs(es[1..]);
      assert EncodePairs(es) == [Int(es[0].0), Double(es[0].1)] + rest;
      assert EncodePairs(es)[2 * j] == rest[2 * (j - 1)];
      assert EncodePairs(es)[2 * j + 1] == rest[2 * (j - 1) + 1];
    }
  }

  function EncodeDoubles(vs: seq<real>): (r: seq<Token>)
    ensures |r| == |vs|
    ensures forall i :: 0 <= i < |vs| ==> r[i] == Double(vs[i])
  {
    if vs == [] then [] else [Double(vs[0])] + EncodeDoubles(vs[1..])
  }

  function EncodeName(name: Option<string>): seq<Token> {
    match name
    case Some(s) => [Bool(true), Utf(s)]
    case None => [Bool(false)]
  }

  /** The tokens `writeVector` emits. */
  function Encode(v: NamedVector): seq<Token> {
    match v.vector
    case Sparse(dim, es) => [Bool(true), Int(|es|), Int(dim)] + EncodePairs(es) + EncodeName(v.name)
    case Dense(vs) => [Bool(false), Int(|vs|)] + EncodeDoubles(vs) + EncodeName(v.name)
  }

  /**
   * Reads `count` (index, value) pairs from `pos` on, applying each to the
   * sparse entries `es` in turn; the result and the position after them.
   */
  function DecodePairs(tokens: seq<Token>, pos: nat, count: int, es: seq<(int, real)>)
    : Result<(seq<(int, real)>, nat), string>
    decreases if count < 0 then 0 else count
  {
    if count <= 0 then Success((es, pos))
    else if pos + 1 < |tokens| && tokens[pos].Int? && tokens[pos + 1].Double? then
      DecodePairs(tokens, pos + 2, count - 1, SetEntry(es, tokens[pos].i, tokens[pos + 1].d))
    else Failure("EOFException")
  }

  /** Reads `count` doubles from `pos` on, after the values `vs` read before them. */
  function DecodeDoubles(tokens: seq<Token>, pos: nat, count: int, vs: seq<real>): Result<(seq<real>, nat), string>
    decreases if count < 0 then 0 else count
  {
    if count <= 0 then Success((vs, pos))
    else if pos < |tokens| && tokens[pos].Double? then
      DecodeDoubles(tokens, pos + 1, count - 1, vs + [tokens[pos].d])
    else Failure("EOFException")
  }

  /** The name trailer read at `pos`, with the vector read before it. */
  function DecodeName(vector: Vector, tokens: seq<Token>, pos: nat): Result<(NamedVector, nat), string> {
    if pos < |tokens| && tokens[pos].Bool? then
      if !tokens[pos].b then Success((NamedVector(vector, None), pos + 1))
      else if pos + 1 < |tokens| && tokens[pos + 1].Utf? then Success((NamedVector(vector, Some(tokens[pos + 1].s)), pos + 2))
      else Failure("EOFException")
    else Failure("EOFException")
  }

  /** A sparse record after its flag and length: the dimension, the pairs, the name. */
  function DecodeSparse(tokens: seq<Token>, pos: nat, length: int): Result<(NamedVector, nat), string> {
    if !(pos < |tokens| && tokens[pos].Int?) then Failure("EOFException")
    else
      match DecodePairs(tokens, pos + 1, length, [])
      case Failure(e) => Failure(e)
      case Success(p) => DecodeName(Sparse(tokens[pos].i, p.0), tokens, p.1)
  }

  /** A dense record after its flag and length: the values, the name. */
  function DecodeDense(tokens: seq<Token>, pos: nat, length: int): Result<(NamedVector, nat), string> {
    if length < 0 then Failure("NegativeArraySizeException")
    else
      match DecodeDoubles(tokens, pos, length, [])
      case Failure(e) => Failure(e)
      case Success(d) => DecodeName(Dense(d.0), tokens, d.1)
  }

  /** What `readVector` reads from `pos` on, and the position after the record. */
  function Decode(tokens: seq<Token>, pos: nat): Result<(NamedVector, nat), string> {
    if !(pos + 1 < |tokens| && tokens[pos].Bool? && tokens[pos + 1].Int?) then Failure("EOFException")
    else if tokens[pos].b then DecodeSparse(tokens, pos + 2, tokens[pos + 1].i)
    else DecodeDense(tokens, pos + 2, tokens[pos + 1].i)
  }

  // ----- round trip -----

  lemma {:induction false} DoublesRoundTrip(tokens: seq<Token>, pos: nat, acc: seq<real>, vs: seq<real>)
    requires pos + |vs| <= |tokens|
    requires forall j :: 0 <= j < |vs| ==> tokens[pos + j] == Double(vs[j])
    ensures DecodeDoubles(tokens, pos, |vs|, acc) == Success((acc + vs, pos + |vs|))
    decreases |vs|
  {
    if vs != [] {
      assert tokens[pos + 0] == Double(vs[0]);
      forall j | 0 <= j < |vs| - 1 ensures tokens[pos + 1 + j] == Double(vs[1..][j]) {
        assert pos + 1 + j == pos + (j + 1);
      }
      DoublesRoundTrip(tokens, pos + 1, acc + [vs[0]], vs[1..]);
      assert acc + [vs[0]] + vs[1..] == acc + vs;
    } else {
      assert acc + vs == acc;
    }
  }

  lemma {:induction false} PairsRoundTrip(tokens: seq<Token>, pos: nat, acc: seq<(int, real)>, es: seq<(int, real)>)
    requires pos + 2 * |es| <= |tokens|
    requires forall j :: 0 <= j < |es| ==> tokens[pos + 2 * j] == Int(es[j].0) && tokens[pos + 2 * j + 1] == Double(es[j].1)
    requires IndicesIncreasing(acc + es)
    ensures DecodePairs(tokens, pos, |es|, acc) == Success((acc + es, pos + 2 * |es|))
    decreases |es|
  {
    if es != [] {
      assert tokens[pos + 2 * 0] == Int(es[0].0) && tokens[pos + 2 * 0 + 1] == Double(es[0].1);
      forall j | 0 <= j < |es| - 1
        ensures tokens[pos + 2 + 2 * j] == Int(es[1..][j].0) && tokens[pos + 2 + 2 * j + 1] == Double(es[1..][j].1)
      {
        assert pos + 2 + 2 * j == pos + 2 * (j + 1);
      }
      AboveAll(acc, es);
      SetEntryAbove(acc, es[0].0, es[0].1);
      assert acc + [es[0]] + es[1..] == acc + es;
      PairsRoundTrip(tokens, pos + 2, acc + [es[0]], es[1..]);
    } else {
      assert acc + es == acc;
    }
  }

  lemma AboveAll(acc: seq<(int, real)>, es: seq<(int, real)>)
    requires IndicesIncreasing(acc + es) && es != []
    ensures forall e :: e in acc ==> e.0 < es[0].0
  {
    forall e | e in acc ensures e.0 < es[0].0 {
      var k :| 0 <= k < |acc| && acc[k] == e;
      assert (acc + es)[k] == e && (acc + es)[|acc|] == es[0];
    }
  }

  lemma NameRoundTrip(vector: Vector, tokens: seq<Token>, pos: nat, name: Option<string>)
    requires pos + |EncodeName(name)| <= |tokens|
    requires forall j :: 0 <= j < |EncodeName(name)| ==> tokens[pos + j] == EncodeName(name)[j]
    ensures DecodeName(vector, tokens, pos) == Success((NamedVector(vector, name), pos + |EncodeName(name)|))
  {
    assert tokens[pos + 0] == EncodeName(name)[0];
    if name.Some? {
      assert tokens[pos + 1] == EncodeName(name)[1];
    }
  }

  /**
   * `readVector` after `writeVector` gives back the vector: sparseness,
   * dimension, every entry and the name, and stops right after the record.
   */
  lemma RoundTrip(v: NamedVector, before: seq<Token>, after: seq<Token>)
    requires WellFormed(v.vector)
    ensures Decode(before + Encode(v) + after, |before|) == Success((v, |before| + |Encode(v)|))
  {
    match v.vector
    case Sparse(dim, es) => SparseRoundTrip(before, dim, es, v.name, after);
    case Dense(vs) => DenseRoundTrip(before, vs, v.name, after);
  }

  lemma SparseRoundTrip(before: seq<Token>, dim: int, es: seq<(int, real)>, name: Option<string>, after: seq<Token>)
    requires IndicesIncreasing(es)
    ensures var v := NamedVector(Sparse(dim, es), name);
      Decode(before + Encode(v) + after, |before|) == Success((v, |before| + |Encode(v)|))
  {
    var head := [Bool(true), Int(|es|), Int(dim)];
    var pairs := EncodePairs(es);
    var trailer := EncodeName(name);
    var tokens := before + (head + pairs + trailer) + after;
    var p := |before|;
    assert NamedVector(Sparse(dim, es), name).vector.Sparse?;
    assert Encode(NamedVector(Sparse(dim, es), name)) == head + pairs + trailer;
    forall j | 0 <= j < 3 ensures tokens[p + j] == head[j] {
      At(before, head + pairs + trailer, after, j);
      At([], head, pairs + trailer, j);
      assert head + pairs + trailer == [] + head + (pairs + trailer);
    }
    forall j | 0 <= j < |es|
      ensures tokens[p + 3 + 2 * j] == Int(es[j].0) && tokens[p + 3 + 2 * j + 1] == Double(es[j].1)
    {
      EncodePairsAt(es, j);
      At(before, head + pairs + trailer, after, 3 + 2 * j);
      At(before, head + pairs + trailer, after, 3 + 2 * j + 1);
      At(head, pairs, trailer, 2 * j);
      At(head, pairs, trailer, 2 * j + 1);
    }
    forall j | 0 <= j < |trailer| ensures tokens[p + 3 + 2 * |es| + j] == trailer[j] {
      At(before, head + pairs + trailer, after, 3 + 2 * |es| + j);
      At(head + pairs, trailer, [], j);
      assert head + pairs + trailer == head + pairs + trailer + [];
    }
    SparseDecodes(tokens, p, dim, es, name);
  }

  lemma DenseRoundTrip(before: seq<Token>, vs: seq<real>, name: Option<string>, after: seq<Token>)
    ensures var v := NamedVector(Dense(vs), name);
      Decode(before + Encode(v) + after, |before|) == Success((v, |before| + |Encode(v)|))
  {
    var head := [Bool(false), Int(|vs|)];
    var values := EncodeDoubles(vs);
    var trailer := EncodeName(name);
    var tokens := before + (head + values + trailer) + after;
    var p := |before|;
    assert Encode(NamedVector(Dense(vs), name)) == head + values + trailer;
    forall j | 0 <= j < 2 ensures tokens[p + j] == head[j] {
      At(before, head + values + trailer, after, j);
      At([], head, values + trailer, j);
      assert head + values + trailer == [] + head + (values + trailer);
    }
    forall j | 0 <= j < |vs| ensures tokens[p + 2 + j] == Double(vs[j]) {
      At(before, head + values + trailer, after, 2 + j);
      At(head, values, trailer, j);
    }
    forall j | 0 <= j < |trailer| ensures tokens[p + 2 + |vs| + j] == trailer[j] {
      At(before, head + values + trailer, after, 2 + |vs| + j);
      At(head + values, trailer, [], j);
      assert head + values + trailer == head + values + trailer + [];
    }
    DenseDecodes(tokens, p, vs, name);
  }

  /** An element of the middle part of a stream, seen from the whole stream. */
  lemma At<T>(x: seq<T>, mid: seq<T>, y: seq<T>, j: nat)
    requires j < |mid|
    ensures (x + mid + y)[|x| + j] == mid[j]
  {
  }

  lemma SparseDecodes(tokens: seq<Token>, p: nat, dim: int, es: seq<(int, real)>, name: Option<string>)
    requires IndicesIncreasing(es)
    requires p + 3 + 2 * |es| + |EncodeName(name)| <= |tokens|
    requires tokens[p] == Bool(true) && tokens[p + 1] == Int(|es|) && tokens[p + 2] == Int(dim)
    requires forall j :: 0 <= j < |es| ==> tokens[p + 3 + 2 * j] == Int(es[j].0) && tokens[p + 3 + 2 * j + 1] == Double(es[j].1)
    requires forall j :: 0 <= j < |EncodeName(name)| ==> tokens[p + 3 + 2 * |es| + j] == EncodeName(name)[j]
    ensures Decode(tokens, p) == Success((NamedVector(Sparse(dim, es), name), p + 3 + 2 * |es| + |EncodeName(name)|))
  {
    PairsRoundTrip(tokens, p + 3, [], es);
    assert [] + es == es;
    NameRoundTrip(Sparse(dim, es), tokens, p + 3 + 2 * |es|, name);
  }

  lemma DenseDecodes(tokens: seq<Token>, p: nat, vs: seq<real>, name: Option<string>)
    requires p + 2 + |vs| + |EncodeName(name)| <= |tokens|
    requires tokens[p] == Bool(false) && tokens[p + 1] == Int(|vs|)
    requires forall j :: 0 <= j < |vs| ==> tokens[p + 2 + j] == Double(vs[j])
    requires forall j :: 0 <= j < |EncodeName(name)| ==> tokens[p + 2 + |vs| + j] == EncodeName(name)[j]
    ensures Decode(tokens, p) == Success((NamedVector(Dense(vs), name), p + 2 + |vs| + |EncodeName(name)|))
  {
    DoublesRoundTrip(tokens, p + 2, [], vs);
    assert [] + vs == vs;
    NameRoundTrip(Dense(vs), tokens, p + 2 + |vs|, name);
  }

  // ----- later pairs overwrite earlier ones -----

  /** The value the pairs read from `pos` on leave at index `k`: the last one for `k`, or what `es` held. */
  function LastWrite(tokens: seq<Token>, pos: nat, count: nat, es: seq<(int, real)>, k: int): real
    requires pos + 2 * count <= |tokens|
    requires forall j :: 0 <= j < count ==> tokens[pos + 2 * j].Int? && tokens[pos + 2 * j + 1].Double?
    decreases count
  {
    if count == 0 then Lookup(es, k)
    else if tokens[pos + 2 * (count - 1)].i == k then tokens[pos + 2 * (count - 1) + 1].d
    else LastWrite(tokens, pos, count - 1, es, k)
  }

  /** Reading a sparse record, the last pair for an index wins. */
  lemma {:induction false} PairsLastWins(tokens: seq<Token>, pos: nat, count: nat, es: seq<(int, real)>, k: int)
    requires pos + 2 * count <= |tokens|
    requires forall j :: 0 <= j < count ==> tokens[pos + 2 * j].Int? && tokens[pos + 2 * j + 1].Double?
    ensures DecodePairs(tokens, pos, count, es).Success?
    ensures Lookup(DecodePairs(tokens, pos, count, es).value.0, k) == LastWrite(tokens, pos, count, es, k)
    decreases count
  {
    if count > 0 {
      assert tokens[pos].Int? && tokens[pos + 1].Double? by {
        assert tokens[pos + 2 * 0].Int? && tokens[pos + 2 * 0 + 1].Double?;
      }
      var es' := SetEntry(es, tokens[pos].i, tokens[pos + 1].d);
      forall j | 0 <= j < count - 1
        ensures tokens[pos + 2 + 2 * j].Int? && tokens[pos + 2 + 2 * j + 1].Double?
      {
        assert pos + 2 + 2 * j == pos + 2 * (j + 1);
      }
      PairsLastWins(tokens, pos + 2, count - 1, es', k);
      LastWriteShift(tokens, pos, count, es, k);
    }
  }

  /** Peeling the first pair into the starting entries does not change the last write. */
  lemma {:induction false} LastWriteShift(tokens: seq<Token>, pos: nat, count: nat, es: seq<(int, real)>, k: int)
    requires 0 < count && pos + 2 * count <= |tokens|
    requires forall j :: 0 <= j < count ==> tokens[pos + 2 * j].Int? && tokens[pos + 2 * j + 1].Double?
    requires tokens[pos].Int? && tokens[pos + 1].Double?
    ensures forall j :: 0 <= j < count - 1 ==> tokens[pos + 2 + 2 * j].Int? && tokens[pos + 2 + 2 * j + 1].Double?
    ensures LastWrite(tokens, pos + 2, count - 1, SetEntry(es, tokens[pos].i, tokens[pos + 1].d), k)
         == LastWrite(tokens, pos, count, es, k)
    decreases count
  {
    forall j | 0 <= j < count - 1
      ensures tokens[pos + 2 + 2 * j].Int? && tokens[pos + 2 + 2 * j + 1].Double?
    {
      assert pos + 2 + 2 * j == pos + 2 * (j + 1);
    }
    if count > 1 {
      assert pos + 2 + 2 * (count - 2) == pos + 2 * (count - 1);
      assert forall j :: 0 <= j < count - 1 ==> tokens[pos + 2 * j].Int? && tokens[pos + 2 * j + 1].Double?;
      LastWriteShift(tokens, pos, count - 1, es, k);
    }
  }

  // ----- the stream operations -----

  /** `writeVector(vector, out)`. */
  method WriteVector(v: NamedVector, out: Output)
    modifies out
    ensures out.written == old(out.written) + Encode(v)
  {
    ghost var body: seq<Token>;
    if v.vector.Sparse? {
      WriteSparse(v.vector.dim, v.vector.entries, out);
      body := [Bool(true), Int(|v.vector.entries|), Int(v.vector.dim)] + EncodePairs(v.vector.entries);
    } else {
      WriteDense(v.vector.values, out);
      body := [Bool(false), Int(|v.vector.values|)] + EncodeDoubles(v.vector.values);
    }
    WriteName(v.name, out);
    assert Encode(v) == body + EncodeName(v.name);
    assert old(out.written) + body + EncodeName(v.name) == old(out.written) + (body + EncodeName(v.name));
  }

  method WriteSparse(dim: int, es: seq<(int, real)>, out: Output)
    modifies out
    ensures out.written == old(out.written) + ([Bool(true), Int(|es|), Int(dim)] + EncodePairs(es))
  {
    out.Write(Bool(true));
    out.Write(Int(|es|));
    out.Write(Int(dim));
    WritePairs(es, out);
  }

  method WriteDense(vs: seq<real>, out: Output)
    modifies out
    ensures out.written == old(out.written) + ([Bool(false), Int(|vs|)] + EncodeDoubles(vs))
  {
    out.Write(Bool(false));
    out.Write(Int(|vs|));
    WriteDoubles(vs, out);
  }

  /** The name trailer: `true` and the name, or `false`. */
  method WriteName(name: Option<string>, out: Output)
    modifies out
    ensures out.written == old(out.written) + EncodeName(name)
  {
    if name.Some? {
      out.Write(Bool(true));
      out.Write(Utf(name.value));
    } else {
      out.Write(Bool(false));
    }
  }

  /** The sparse loop of `writeVector`: index and value of each stored entry. */
  method WritePairs(es: seq<(int, real)>, out: Output)
    modifies out
    ensures out.written == old(out.written) + EncodePairs(es)
  {
    var i := 0;
    while i < |es|
      invariant 0 <= i <= |es|
      invariant out.written == old(out.written) + EncodePairs(es[..i])
    {
      EncodePairsSnoc(es, i);
      out.Write(Int(es[i].0));
      out.Write(Double(es[i].1));
      i := i + 1;
    }
    assert es[..i] == es;
  }

  /** The dense loop of `writeVector`: every value in index order. */
  method WriteDoubles(vs: seq<real>, out: Output)
    modifies out
    ensures out.written == old(out.written) + EncodeDoubles(vs)
  {
    var i := 0;
    while i < |vs|
      invariant 0 <= i <= |vs|
      invariant out.written == old(out.written) + EncodeDoubles(vs[..i])
    {
      EncodeDoublesSnoc(vs, i);
      out.Write(Double(vs[i]));
      i := i + 1;
    }
    assert vs[..i] == vs;
  }

  lemma {:induction false} EncodePairsSnoc(es: seq<(int, real)>, i: nat)
    requires i < |es|
    ensures EncodePairs(es[..i + 1]) == EncodePairs(es[..i]) + [Int(es[i].0), Double(es[i].1)]
  {
    EncodePairsAppend(es[..i], [es[i]]);
    assert es[..i] + [es[i]] == es[..i + 1];
  }

  lemma {:induction false} EncodePairsAppend(a: seq<(int, real)>, b: seq<(int, real)>)
    ensures EncodePairs(a + b) == EncodePairs(a) + EncodePairs(b)
  {
    if a != [] {
      assert (a + b)[1..] == a[1..] + b;
      EncodePairsAppend(a[1..], b);
    } else {
      assert a + b == b;
    }
  }

  lemma EncodeDoublesSnoc(vs: seq<real>, i: nat)
    requires i < |vs|
    ensures EncodeDoubles(vs[..i + 1]) == EncodeDoubles(vs[..i]) + [Double(vs[i])]
  {
  }

  /** `readVector(in)`: the record at the current position; the position moves past it. */
  method ReadVector(input: Input) returns (r: Result<NamedVector, string>)
    modifies input
    ensures r.Success? <==> Decode(input.tokens, old(input.pos)).Success?
    ensures r.Success? ==> Decode(input.tokens, old(input.pos)) == Success((r.value, input.pos))
  {
    var sparse := input.ReadBool();
    if sparse.Failure? {
      return Failure(sparse.error);
    }
    var length := input.ReadInt();
    if length.Failure? {
      return Failure(length.error);
    }
    var vector: Vector;
    if sparse.value {
      var dim := input.ReadInt();
      if dim.Failure? {
        return Failure(dim.error);
      }
      var es := ReadPairs(input, length.value);
      if es.Failure? {
        return Failure(es.error);
      }
      vector := Sparse(dim.value, es.value);
    } else {
      if length.value < 0 {
        return Failure("NegativeArraySizeException");
      }
      var vs := ReadDoubles(input, length.value);
      if vs.Failure? {
        return Failure(vs.error);
      }
      vector := Dense(vs.value);
    }
    var named := input.ReadBool();
    if named.Failure? {
      return Failure(named.error);
    }
    if named.value {
      var name := input.ReadUtf();
      if name.Failure? {
        return Failure(name.error);
      }
      return Success(NamedVector(vector, Some(name.value)));
    }
    return Success(NamedVector(vector, None));
  }

  /** The sparse loop of `readVector`: `set(index, value)` for each pair in turn. */
  method ReadPairs(input: Input, length: int) returns (r: Result<seq<(int, real)>, string>)
    modifies input
    ensures r.Success? <==> DecodePairs(input.tokens, old(input.pos), length, []).Success?
    ensures r.Success? ==> DecodePairs(input.tokens, old(input.pos), length, []) == Success((r.value, input.pos))
  {
    var es: seq<(int, real)> := [];
    var i := 0;
    while i < length
      invariant 0 <= i && (length >= 0 ==> i <= length)
      invariant DecodePairs(input.tokens, input.pos, length - i, es) == DecodePairs(input.tokens, old(input.pos), length, [])
    {
      var index := input.ReadInt();
      if index.Failure? {
        return Failure(index.error);
      }
      var value := input.ReadDouble();
      if value.Failure? {
        return Failure(value.error);
      }
      es := SetEntry(es, index.value, value.value);
      i := i + 1;
    }
    return Success(es);
  }

  /** The dense loop of `readVector`: `set(i, readDouble())` for i below the length. */
  method ReadDoubles(input: Input, length: nat) returns (r: Result<seq<real>, string>)
    modifies input
    ensures r.Success? <==> DecodeDoubles(input.tokens, old(input.pos), length, []).Success?
    ensures r.Success? ==> DecodeDoubles(input.tokens, old(input.pos), length, []) == Success((r.value, input.pos))
  {
    var values := new real[length](_ => 0.0);
    var i := 0;
    while i < length
      invariant 0 <= i <= length
      invariant DecodeDoubles(input.tokens, input.pos, length - i, values[..i]) == DecodeDoubles(input.tokens, old(input.pos), length, [])
    {
      var value := input.ReadDouble();
      if value.Failure? {
        return Failure(value.error);
      }
      values[i] := value.value;
      assert values[..i + 1] == values[..i] + [value.value];
      i := i + 1;
    }
    assert values[..] == values[..i];
    return Success(values[..]);
  }

  // ----- the writable -----

  /** A `VectorWritable`: a holder of one vector, or of none (`null`). */
  class VectorWritable {
    var vector: Option<NamedVector>

    constructor ()
      ensures vector == None
    {
      vector := None;
    }

    /** `new VectorWritable(DoubleVector)`, also `wrap`. */
    constructor Wrap(v: NamedVector)
      ensures vector == Some(v)
    {
      vector := Some(v);
    }

    /** `new VectorWritable(VectorWritable)`: shares the other one's vector. */
    constructor Copy(other: VectorWritable)
      ensures vector == other.vector
    {
      vector := other.vector;
    }

    function GetVector(): Option<NamedVector>
      reads this
    {
      vector
    }

    /** `write(out)`; with no vector the source dereferences `null`. */
    method Write(out: Output) returns (r: Result<(), string>)
      modifies out
      ensures r.Success? <==> vector.Some?
      ensures r.Success? ==> out.written == old(out.written) + Encode(vector.value)
      ensures r.Failure? ==> out.written == old(out.written)
    {
      if vector.None? {
        return Failure("NullPointerException");
      }
      WriteVector(vector.value, out);
      return Success(());
    }

    /** `readFields(in)`: the vector is replaced by the record read; a failed read leaves it alone. */
    method ReadFields(input: Input) returns (r: Result<(), string>)
      modifies this, input
      ensures r.Success? <==> Decode(input.tokens, old(input.pos)).Success?
      ensures r.Success? ==> vector == Some(Decode(input.tokens, old(input.pos)).value.0)
      ensures r.Failure? ==> vector == old(vector)
    {
      var read := ReadVector(input);
      if read.Failure? {
        return Failure(read.error);
      }
      vector := Some(read.value);
      return Success(());
    }

    /** `equals(obj)`: the same object, or another writable holding an equal vector (or also none). */
    predicate Equals(other: VectorWritable?)
      reads this, other
    {
      other != null && (other == this || vector == other.vector)
    }
  }

  /** `equals` is reflexive and symmetric, and compares the held vectors. */
  lemma EqualsSpec(a: VectorWritable, b: VectorWritable?)
    ensures a.Equals(a)
    ensures b != null ==> (a.Equals(b) <==> b.Equals(a))
    ensures b != null ==> (a.Equals(b) <==> a.vector == b.vector)
    ensures !a.Equals(null)
  {
  }

  /** Writing a writable and reading the tokens back into another one gives it the same vector. */
  method WriteThenRead(w: VectorWritable) returns (copy: VectorWritable)
    requires w.vector.Some? && WellFormed(w.vector.value.vector)
    ensures copy.vector == w.vector
  {
    var out := new Output();
    var written := w.Write(out);
    var input := new Input(out.written);
    copy := new VectorWritable();
    RoundTrip(w.vector.value, [], []);
    assert out.written == [] + Encode(w.vector.value) + [];
    var read := copy.ReadFields(input);
  }
}
