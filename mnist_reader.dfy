/**
 * MNISTReader: the Kaggle digit-recognizer CSV. After a header line, each line
 * is `digit,pixel1,pixel2,...`; it becomes a dense feature vector of the pixel
 * values and a dense one-hot vector of length 10 for the digit. The file is
 * the sequence of `readLine` outcomes: a line, or an I/O error.
 */
module MNISTReader {
  import opened Wrappers
  import opened Vectors
  import VectorizerUtils

  /** One `readLine` call: the line read, or an `IOException`. */
  datatype LineRead = Line(text: string) | ReadError

  /** The returned `Dataset`: the feature vectors and, index by index, their prediction vectors. */
  datatype Dataset = Dataset(features: seq<Vector>, outcome: seq<Vector>)

  // ----- String.split(",") -----

  function CommaIndex(s: string): (k: nat)
    requires ',' in s
    ensures k < |s| && s[k] == ',' && ',' !in s[..k]
  {
    if s[0] == ',' then 0 else 1 + CommaIndex(s[1..])
  }

  /** Every piece between commas, empty pieces included. */
  function Pieces(s: string): (r: seq<string>)
    ensures |r| >= 1
    ensures forall k :: 0 <= k < |r| ==> ',' !in r[k]
    decreases |s|
  {
    if ',' in s then [s[..CommaIndex(s)]] + Pieces(s[CommaIndex(s) + 1..]) else [s]
  }

  /** The pieces put back together with a comma between neighbours. */
  function Join(pieces: seq<string>): string
    requires pieces != []
  {
    if |pieces| == 1 then pieces[0] else pieces[0] + [','] + Join(pieces[1..])
  }

  /** Joining the pieces gives back the line. */
  lemma {:induction false} JoinPieces(s: string)
    ensures Join(Pieces(s)) == s
    decreases |s|
  {
    if ',' in s {
      var k := CommaIndex(s);
      var rest := s[k + 1..];
      JoinPieces(rest);
      var ps := Pieces(s);
      assert ps == [s[..k]] + Pieces(rest);
      assert ps[0] == s[..k] && ps[1..] == Pieces(rest) && |ps| > 1;
      assert Join(ps) == s[..k] + [','] + Join(Pieces(rest));
      assert s == s[..k] + [','] + rest;
    }
  }

  function DropTrailingEmpty(pieces: seq<string>): (r: seq<string>)
    ensures |r| <= |pieces| && r == pieces[..|r|]
    ensures r == [] || r[|r| - 1] != ""
    ensures forall k :: |r| <= k < |pieces| ==> pieces[k] == ""
  {
    if pieces == [] || pieces[|pieces| - 1] != "" then pieces
    else DropTrailingEmpty(pieces[..|pieces| - 1])
  }

  /**
   * `line.split(",")`: without a comma the line itself; otherwise the pieces
   * with the empty ones at the end removed, which can leave nothing.
   */
  function JavaSplit(line: string): (r: seq<string>)
    ensures forall k :: 0 <= k < |r| ==> ',' !in r[k]
  {
    if ',' in line then DropTrailingEmpty(Pieces(line)) else [line]
  }

  /** The split fields are the line's pieces, up to empty pieces at the end. */
  lemma SplitFields(line: string)
    ensures |JavaSplit(line)| <= |Pieces(line)| && JavaSplit(line) == Pieces(line)[..|JavaSplit(line)|]
    ensures forall k :: |JavaSplit(line)| <= k < |Pieces(line)| ==> Pieces(line)[k] == ""
    ensures ',' !in line ==> JavaSplit(line) == [line]
  {
    if ',' !in line {
      assert Pieces(line) == [line];
    }
  }

  // ----- Integer.parseInt -----

  predicate IsDigit(c: char) {
    '0' <= c <= '9'
  }

  predicate AllDigits(ds: string) {
    forall k :: 0 <= k < |ds| ==> IsDigit(ds[k])
  }

  function DigitValue(c: char): nat
    requires IsDigit(c)
  {
    c as int - '0' as int
  }

  /** The number a non-empty run of decimal digits spells. */
  function DigitsValue(ds: string): nat
    requires AllDigits(ds)
  {
    if ds == [] then 0 else 10 * DigitsValue(ds[..|ds| - 1]) + DigitValue(ds[|ds| - 1])
  }

  /**
   * `Integer.parseInt(s)`: an optional sign and at least one digit, and the
   * value must be a 32-bit integer; anything else is a `NumberFormatException`.
   */
  function ParseInt(s: string): (r: Result<int, string>)
    ensures r.Success? ==> VectorizerUtils.IsInt(r.value)
    ensures r.Failure? ==> r.error == "NumberFormatException"
  {
    var signed := |s| > 0 && (s[0] == '-' || s[0] == '+');
    var ds := if signed then s[1..] else s;
    if ds == [] || !AllDigits(ds) then Failure("NumberFormatException")
    else
      var v: int := if signed && s[0] == '-' then -(DigitsValue(ds) as int) else DigitsValue(ds);
      if VectorizerUtils.IsInt(v) then Success(v) else Failure("NumberFormatException")
  }

  /** The decimal digits of `n`, most significant first, without leading zeros. */
  function Digits(n: nat): (r: string)
    ensures r != [] && AllDigits(r)
  {
    var d := ['0' + (n % 10) as char];
    if n < 10 then d else Digits(n / 10) + d
  }

  /** `Integer.toString`. */
  function Decimal(n: int): string {
    if n < 0 then "-" + Digits(-n) else Digits(n)
  }

  lemma {:induction false} DigitsValueOfDigits(n: nat)
    ensures DigitsValue(Digits(n)) == n
  {
    var d := ['0' + (n % 10) as char];
    if n >= 10 {
      DigitsValueOfDigits(n / 10);
      var ds := Digits(n / 10) + d;
      assert ds[..|ds| - 1] == Digits(n / 10);
    }
  }

  /** `parseInt` reads back every 32-bit integer written in decimal. */
  lemma ParseDecimal(n: int)
    requires VectorizerUtils.IsInt(n)
    ensures ParseInt(Decimal(n)) == Success(n)
  {
    if n < 0 {
      DigitsValueOfDigits(-n);
      assert ("-" + Digits(-n))[1..] == Digits(-n);
    } else {
      DigitsValueOfDigits(n);
    }
  }

  /** A decimal beyond the 32-bit range does not parse, in either direction. */
  lemma ParseOutOfRange(n: nat)
    requires n > VectorizerUtils.IntMax
    ensures ParseInt(Digits(n)).Failure?
    ensures ParseInt("-" + Digits(n + 1)).Failure?
  {
    DigitsValueOfDigits(n);
    DigitsValueOfDigits(n + 1);
    assert ("-" + Digits(n + 1))[1..] == Digits(n + 1);
  }

  lemma ParseIntExamples()
    ensures ParseInt("").Failure? && ParseInt("-").Failure? && ParseInt("+").Failure?
    ensures ParseInt("2a").Failure?
  {
    assert "-"[1..] == [] && "+"[1..] == [];
    var s := "2a";
    assert |s| == 2 && s[0] == '2' && !IsDigit(s[1]);
  }

  // ----- one line -----

  /** The pixel fields, each parsed as an integer; the first field that is not one fails. */
  function ParseFields(fields: seq<string>): (r: Result<seq<real>, string>)
    ensures r.Success? <==> forall k :: 0 <= k < |fields| ==> ParseInt(fields[k]).Success?
    ensures r.Success? ==> |r.value| == |fields|
    ensures r.Success? ==> forall k :: 0 <= k < |fields| ==> r.value[k] == ParseInt(fields[k]).value as real
    ensures r.Failure? ==> r.error == "NumberFormatException"
  {
    if fields == [] then Success([])
    else
      match ParseInt(fields[0])
      case Failure(e) => Failure(e)
      case Success(v) =>
        match ParseFields(fields[1..])
        case Failure(e) => Failure(e)
        case Success(rest) => Success([v as real] + rest)
  }

  /** The prediction vector of a digit: 1 at the digit, 0 in the other nine places. */
  function OneHot(digit: int): (r: seq<real>)
    requires 0 <= digit < 10
    ensures |r| == 10 && forall k :: 0 <= k < 10 ==> r[k] == (if k == digit then 1.0 else 0.0)
  {
    seq(10, k => if k == digit then 1.0 else 0.0)
  }

  /**
   * One data line: split at commas; a line with no fields gives a feature
   * vector of size -1 (`NegativeArraySizeException`); then the pixels are
   * parsed in order, then the digit, which must index the 10 predictions.
   */
  function ParseRow(line: string): Result<(Vector, Vector), string> {
    var split := JavaSplit(line);
    if split == [] then Failure("NegativeArraySizeException")
    else
      match ParseFields(split[1..])
      case Failure(e) => Failure(e)
      case Success(pixels) =>
        match ParseInt(split[0])
        case Failure(e) => Failure(e)
        case Success(digit) =>
          if 0 <= digit < 10 then Success((Dense(pixels), Dense(OneHot(digit))))
          else Failure("ArrayIndexOutOfBoundsException")
  }

  /** What a good line gives: fields - 1 pixel values in order, and the one-hot digit. */
  lemma RowContents(line: string)
    requires ParseRow(line).Success?
    ensures var split := JavaSplit(line);
      var features, prediction := ParseRow(line).value.0, ParseRow(line).value.1;
      && |split| >= 1
      && features.Dense? && |features.values| == |split| - 1
      && (forall i :: 1 <= i < |split| ==> features.values[i - 1] == ParseInt(split[i]).value as real)
      && prediction.Dense? && |prediction.values| == 10
      && ParseInt(split[0]).Success? && 0 <= ParseInt(split[0]).value < 10
      && forall k :: 0 <= k < 10 ==> prediction.values[k] == (if k == ParseInt(split[0]).value then 1.0 else 0.0)
  {
    var split := JavaSplit(line);
    forall i | 1 <= i < |split| ensures split[1..][i - 1] == split[i] { }
  }

  /** A line whose digit lies outside 0..9 fails, however good its pixels are. */
  lemma LabelOutOfRange(line: string)
    requires JavaSplit(line) != [] && ParseFields(JavaSplit(line)[1..]).Success?
    requires ParseInt(JavaSplit(line)[0]).Success?
    requires !(0 <= ParseInt(JavaSplit(line)[0]).value < 10)
    ensures ParseRow(line) == Failure("ArrayIndexOutOfBoundsException")
  {
  }

  lemma SplitExample()
    ensures JavaSplit("7,0,255") == ["7", "0", "255"]
  {
    var line := "7,0,255";
    assert line[1] == ',';
    assert CommaIndex(line) == 1;
    assert line[2..] == "0,255" && "0,255"[1] == ',' && CommaIndex("0,255") == 1;
    assert "0,255"[2..] == "255" && ',' !in "255";
    assert line[..1] == "7" && "0,255"[..1] == "0";
    assert Pieces(line) == ["7", "0", "255"];
  }

  lemma PixelValues()
    ensures ParseInt("0") == Success(0) && ParseInt("7") == Success(7) && ParseInt("255") == Success(255)
  {
    assert Decimal(7) == "7" && Decimal(0) == "0";
    assert Decimal(255) == "255" by {
      assert Digits(255) == Digits(25) + "5" && Digits(25) == Digits(2) + "5";
    }
    ParseDecimal(7);
    ParseDecimal(0);
    ParseDecimal(255);
  }

  /** `"7,0,255"` gives the pixels 0 and 255 and a prediction with 1 at index 7. */
  lemma RowExample()
    ensures ParseRow("7,0,255") == Success((Dense([0.0, 255.0]), Dense(OneHot(7))))
  {
    SplitExample();
    PixelValues();
    var pixels := ["7", "0", "255"][1..];
    assert pixels == ["0", "255"] && pixels[0] == "0" && pixels[1] == "255";
    var r := ParseFields(pixels);
    assert r.Success? && r.value[0] == 0.0 && r.value[1] == 255.0;
    assert r.value == [0.0, 255.0];
  }

  // ----- the whole file -----

  /** Every data line in turn; a line that does not parse fails the whole file. */
  function ParseRows(rows: seq<string>): (r: Result<Dataset, string>)
    ensures r.Success? <==> forall k :: 0 <= k < |rows| ==> ParseRow(rows[k]).Success?
    ensures r.Success? ==> |r.value.features| == |r.value.outcome| == |rows|
    ensures r.Success? ==>
      forall k :: 0 <= k < |rows| ==> (r.value.features[k], r.value.outcome[k]) == ParseRow(rows[k]).value
  {
    if rows == [] then Success(Dataset([], []))
    else
      match ParseRow(rows[0])
      case Failure(e) => Failure(e)
      case Success(example) =>
        match ParseRows(rows[1..])
        case Failure(e) => Failure(e)
        case Success(d) => Success(Dataset([example.0] + d.features, [example.1] + d.outcome))
  }

  /** The lines read before the first I/O error, or all of them. */
  function Readable(lines: seq<LineRead>): (r: seq<string>)
    ensures |r| <= |lines|
    ensures forall k :: 0 <= k < |r| ==> lines[k] == Line(r[k])
    ensures |r| == |lines| || lines[|r|].ReadError?
  {
    if lines == [] || lines[0].ReadError? then [] else [lines[0].text] + Readable(lines[1..])
  }

  /**
   * `readMNISTTrainImages`: the header line is skipped and every later line
   * read becomes one example; an I/O error ends the reading and keeps what was
   * read, while a line that does not parse makes the whole call fail.
   */
  function ReadDataset(lines: seq<LineRead>): Result<Dataset, string> {
    var read := Readable(lines);
    if read == [] then Success(Dataset([], [])) else ParseRows(read[1..])
  }

  /** The two outputs have one entry per data line, index by index from the same line. */
  lemma DatasetShape(lines: seq<LineRead>)
    requires ReadDataset(lines).Success?
    ensures var d := ReadDataset(lines).value;
      var rows := Readable(lines);
      && |d.features| == |d.outcome| == (if rows == [] then 0 else |rows| - 1)
      && forall k :: 1 <= k < |rows| ==> (d.features[k - 1], d.outcome[k - 1]) == ParseRow(rows[k]).value
  {
    var rows := Readable(lines);
    if rows != [] {
      assert forall k :: 1 <= k < |rows| ==> rows[1..][k - 1] == rows[k];
    }
  }

  function Lines(texts: seq<string>): (r: seq<LineRead>)
    ensures |r| == |texts| && forall k :: 0 <= k < |texts| ==> r[k] == Line(texts[k])
  {
    seq(|texts|, k requires 0 <= k < |texts| => Line(texts[k]))
  }

  /** Nothing at or after an I/O error is read. */
  lemma ErrorStopsReading(before: seq<string>, after: seq<LineRead>)
    ensures Readable(Lines(before) + [ReadError] + after) == before
    ensures ReadDataset(Lines(before) + [ReadError] + after) == ReadDataset(Lines(before))
  {
    ReadableUpTo(Lines(before) + [ReadError] + after, before);
    ReadableUpTo(Lines(before), before);
  }

  /** When the lines up to some point are all read and the next one fails or is missing, that is what is read. */
  lemma {:induction false} ReadableUpTo(lines: seq<LineRead>, read: seq<string>)
    requires |read| <= |lines| && forall k :: 0 <= k < |read| ==> lines[k] == Line(read[k])
    requires |read| == |lines| || lines[|read|].ReadError?
    ensures Readable(lines) == read
    decreases |read|
  {
    if read != [] {
      ReadableUpTo(lines[1..], read[1..]);
      assert read == [read[0]] + read[1..];
    }
  }

  // ----- the read loop -----

  /** What the loop still produces from line `i` on, having collected `d`. */
  function ReadFrom(lines: seq<LineRead>, i: nat, d: Dataset): Result<Dataset, string>
    decreases |lines| - i
  {
    if i >= |lines| || lines[i].ReadError? then Success(d)
    else
      match ParseRow(lines[i].text)
      case Failure(e) => Failure(e)
      case Success(example) => ReadFrom(lines, i + 1, Dataset(d.features + [example.0], d.outcome + [example.1]))
  }

  /** `d` followed by the examples of `r`, if there are any. */
  function After(d: Dataset, r: Result<Dataset, string>): Result<Dataset, string> {
    match r
    case Failure(e) => Failure(e)
    case Success(e) => Success(Dataset(d.features + e.features, d.outcome + e.outcome))
  }

  /** The loop's accumulation agrees with parsing the rest of the readable lines. */
  lemma {:induction false} ReadFromRows(lines: seq<LineRead>, i: nat, d: Dataset)
    requires i <= |lines|
    ensures ReadFrom(lines, i, d) == After(d, ParseRows(Readable(lines[i..])))
    decreases |lines| - i
  {
    if i < |lines| && lines[i].Line? {
      assert lines[i..][1..] == lines[i + 1..];
      match ParseRow(lines[i].text)
      case Failure(e) =>
      case Success(example) => {
        var d' := Dataset(d.features + [example.0], d.outcome + [example.1]);
        ReadFromRows(lines, i + 1, d');
        var rest := Readable(lines[i + 1..]);
        assert Readable(lines[i..]) == [lines[i].text] + rest;
        assert ([lines[i].text] + rest)[1..] == rest;
        if ParseRows(rest).Success? {
          var e := ParseRows(rest).value;
          assert d'.features + e.features == d.features + ([example.0] + e.features);
          assert d'.outcome + e.outcome == d.outcome + ([example.1] + e.outcome);
        }
      }
    } else {
      assert d.features + [] == d.features && d.outcome + [] == d.outcome;
    }
  }

  /** The loop started after the header computes the dataset. */
  lemma ReadFromStart(lines: seq<LineRead>)
    requires |lines| > 0 && lines[0].Line?
    ensures ReadFrom(lines, 1, Dataset([], [])) == ReadDataset(lines)
  {
    ReadFromRows(lines, 1, Dataset([], []));
    assert lines[1..] == lines[1..];
    var r := ParseRows(Readable(lines[1..]));
    if r.Success? {
      assert [] + r.value.features == r.value.features && [] + r.value.outcome == r.value.outcome;
    }
  }

  /** The pixel loop: `featureVector.set(i - 1, parseInt(split[i]))` for each field after the label. */
  method FeatureVector(split: seq<string>) returns (r: Result<Vector, string>)
    requires split != []
    ensures r.Success? <==> ParseFields(split[1..]).Success?
    ensures r.Success? ==> r.value == Dense(ParseFields(split[1..]).value)
    ensures r.Failure? ==> r.error == "NumberFormatException"
  {
    var featureVector := new real[|split| - 1](_ => 0.0);
    for i := 1 to |split|
      invariant forall k :: 1 <= k < i ==> ParseInt(split[k]).Success?
      invariant forall k :: 1 <= k < i ==> featureVector[k - 1] == ParseInt(split[k]).value as real
    {
      var v := ParseInt(split[i]);
      if v.Failure? {
        assert split[1..][i - 1] == split[i];
        return Failure(v.error);
      }
      featureVector[i - 1] := v.value as real;
    }
    assert forall k :: 0 <= k < |split| - 1 ==> split[1..][k] == split[k + 1];
    return Success(Dense(featureVector[..]));
  }

  /** The body of the read loop for one data line. */
  method ReadRow(line: string) returns (r: Result<(Vector, Vector), string>)
    ensures r == ParseRow(line)
  {
    var split := JavaSplit(line);
    if |split| == 0 {
      return Failure("NegativeArraySizeException");
    }
    var featureVector := FeatureVector(split);
    if featureVector.Failure? {
      return Failure(featureVector.error);
    }
    var digit := ParseInt(split[0]);
    if digit.Failure? {
      return Failure(digit.error);
    }
    if !(0 <= digit.value < 10) {
      return Failure("ArrayIndexOutOfBoundsException");
    }
    var predVector := new real[10](_ => 0.0);
    predVector[digit.value] := 1.0;
    assert predVector[..] == OneHot(digit.value);
    return Success((featureVector.value, Dense(predVector[..])));
  }

  /** `readMNISTTrainImages(path)` with the file given as its sequence of `readLine` results. */
  method ReadMNISTTrainImages(lines: seq<LineRead>) returns (r: Result<Dataset, string>)
    ensures r == ReadDataset(lines)
  {
    var features: seq<Vector> := [];
    var prediction: seq<Vector> := [];
    var numLine := 0;
    while numLine < |lines| && lines[numLine].Line?
      invariant 0 <= numLine <= |lines|
      invariant numLine == 0 ==> features == [] && prediction == []
      invariant numLine > 0 ==> lines[0].Line? && ReadFrom(lines, numLine, Dataset(features, prediction)) == ReadDataset(lines)
    {
      if numLine == 0 {
        ReadFromStart(lines);
        numLine := numLine + 1;
        continue;
      }
      var row := ReadRow(lines[numLine].text);
      if row.Failure? {
        return Failure(row.error);
      }
      features := features + [row.value.0];
      prediction := prediction + [row.value.1];
      numLine := numLine + 1;
    }
    if numLine == 0 {
      return Success(Dataset([], []));
    }
    return Success(Dataset(features, prediction));
  }
}
