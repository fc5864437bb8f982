/**
 * EvaluationSplit: a division of aligned feature and outcome vectors into a
 * training part and a test part. `Create` checks its arguments, optionally
 * shuffles both inputs in place by one common permutation, and cuts them at
 * the split index; the shuffle's randomness is the permutation parameter.
 */
module EvaluationSplits {
  import opened Wrappers
  import opened Vectors
  import opened IntSeqs
  import ArrayUtils
  import ArraySorting

  /** The four arrays of a split, exactly as given. */
  class EvaluationSplit {
    const trainFeatures: array<Vector>
    const trainOutcome: array<Vector>
    const testFeatures: array<Vector>
    const testOutcome: array<Vector>

    constructor (trainFeatures: array<Vector>, trainOutcome: array<Vector>,
                 testFeatures: array<Vector>, testOutcome: array<Vector>)
      ensures this.trainFeatures == trainFeatures && this.trainOutcome == trainOutcome
      ensures this.testFeatures == testFeatures && this.testOutcome == testOutcome
    {
      this.trainFeatures := trainFeatures;
      this.trainOutcome := trainOutcome;
      this.testFeatures := testFeatures;
      this.testOutcome := testOutcome;
    }

    function GetTrainFeatures(): array<Vector> { trainFeatures }
    function GetTrainOutcome(): array<Vector> { trainOutcome }
    function GetTestFeatures(): array<Vector> { testFeatures }
    function GetTestOutcome(): array<Vector> { testOutcome }
  }

  /**
   * The number of training items: `n * splitFraction` cut to an integer.
   * A fraction in [0, 1] gives an index within the data; 0 trains on
   * nothing and 1 on everything.
   */
  function SplitIndex(n: nat, splitFraction: real): (s: int)
    requires 0.0 <= splitFraction <= 1.0
    ensures 0 <= s <= n
    ensures s as real <= n as real * splitFraction < s as real + 1.0
    ensures splitFraction == 0.0 ==> s == 0
    ensures splitFraction == 1.0 ==> s == n
  {
    assert n as real * splitFraction <= n as real * 1.0;
    (n as real * splitFraction).Floor
  }

  /** With 1000 items a fraction of 0.9 trains on 900 and tests on 100. */
  lemma ThousandAtNinetyPercent()
    ensures SplitIndex(1000, 0.9) == 900 && 1000 - SplitIndex(1000, 0.9) == 100
  {
    assert 1000 as real * 0.9 == 900.0;
  }

  /** The train part is the prefix before the split index, the test part the rest. */
  function Split<T>(items: seq<T>, s: int): (r: (seq<T>, seq<T>))
    requires 0 <= s <= |items|
    ensures r.0 + r.1 == items
    ensures |r.0| == s && |r.1| == |items| - s
  {
    (ArrayUtils.SubArray(items, 0, s - 1), ArrayUtils.SubArray(items, s, |items| - 1))
  }

  function Zip<A, B>(a: seq<A>, b: seq<B>): (r: seq<(A, B)>)
    requires |a| == |b|
    ensures |r| == |a| && forall i :: 0 <= i < |a| ==> r[i] == (a[i], b[i])
  {
    seq(|a|, i requires 0 <= i < |a| => (a[i], b[i]))
  }

  /**
   * Shuffling both arrays by one permutation keeps every (feature, outcome)
   * pair together: the pairs after are the pairs before, rearranged.
   */
  lemma ShuffleKeepsPairs(features: seq<Vector>, outcome: seq<Vector>, p: seq<int>)
    requires |features| == |outcome| == |p| && IsPermutation(p)
    ensures forall i :: 0 <= i < |p| ==> 0 <= p[i] < |features|
    ensures Zip(Apply(features, p), Apply(outcome, p)) == Apply(Zip(features, outcome), p)
    ensures multiset(Zip(Apply(features, p), Apply(outcome, p))) == multiset(Zip(features, outcome))
  {
    ApplyPermutation(Zip(features, outcome), p);
    var shuffled := Zip(Apply(features, p), Apply(outcome, p));
    assert forall i :: 0 <= i < |p| ==> shuffled[i] == Apply(Zip(features, outcome), p)[i];
  }

  /** Train and test each keep features and outcomes aligned, and together they are all the pairs. */
  lemma SplitKeepsPairs(features: seq<Vector>, outcome: seq<Vector>, s: int)
    requires |features| == |outcome| && 0 <= s <= |features|
    ensures |Split(features, s).0| == |Split(outcome, s).0|
    ensures |Split(features, s).1| == |Split(outcome, s).1|
    ensures Zip(Split(features, s).0, Split(outcome, s).0) + Zip(Split(features, s).1, Split(outcome, s).1)
         == Zip(features, outcome)
  {
    var pairs := Zip(Split(features, s).0, Split(outcome, s).0) + Zip(Split(features, s).1, Split(outcome, s).1);
    forall i | 0 <= i < |features| ensures pairs[i] == Zip(features, outcome)[i] {
      if i < s {
        assert pairs[i] == (features[i], outcome[i]);
      } else {
        assert pairs[i] == (Split(features, s).1[i - s], Split(outcome, s).1[i - s]);
      }
    }
  }

  method FromSeq<T>(items: seq<T>) returns (a: array<T>)
    ensures fresh(a) && a[..] == items
  {
    a := new T[|items|](i requires 0 <= i < |items| => items[i]);
  }

  /**
   * `create(features, outcome, splitFraction, random)`: fails when the lengths
   * differ or the fraction lies outside [0, 1], leaving both arrays alone;
   * otherwise shuffles both by `shuffle` when `random` is set and returns
   * fresh train arrays holding the first SplitIndex items and fresh test
   * arrays holding the rest.
   */
  method Create(features: array<Vector>, outcome: array<Vector>, splitFraction: real, random: bool, shuffle: seq<int>)
    returns (r: Result<EvaluationSplit, string>)
    requires random && features.Length == outcome.Length ==>
      |shuffle| == features.Length && IsPermutation(shuffle) && features != outcome
    modifies features, outcome
    ensures r.Failure? <==> features.Length != outcome.Length || !(0.0 <= splitFraction <= 1.0)
    ensures r.Failure? || !random ==> features[..] == old(features[..]) && outcome[..] == old(outcome[..])
    ensures r.Success? && random ==> forall i :: 0 <= i < |shuffle| ==> 0 <= shuffle[i] < features.Length
    ensures r.Success? && random ==> features[..] == Apply(old(features[..]), shuffle)
    ensures r.Success? && random ==> outcome[..] == Apply(old(outcome[..]), shuffle)
    ensures r.Success? ==>
      var s := SplitIndex(features.Length, splitFraction);
      && (r.value.trainFeatures[..], r.value.testFeatures[..]) == Split(features[..], s)
      && (r.value.trainOutcome[..], r.value.testOutcome[..]) == Split(outcome[..], s)
    ensures r.Success? ==> fresh(r.value.trainFeatures) && fresh(r.value.trainOutcome)
    ensures r.Success? ==> fresh(r.value.testFeatures) && fresh(r.value.testOutcome)
  {
    if features.Length != outcome.Length {
      return Failure("IllegalArgumentException: Feature vector and outcome vector must match in length!");
    }
    if !(0.0 <= splitFraction <= 1.0) {
      return Failure("IllegalArgumentException: splitFraction must be between 0 and 1!");
    }
    if random {
      MultiShuffle(features, outcome, shuffle);
    }
    var split := SplitAt(features[..], outcome[..], SplitIndex(features.Length, splitFraction));
    return Success(split);
  }

  /** `multiShuffle(features, outcome)`: both arrays rearranged by the same permutation. */
  method MultiShuffle(features: array<Vector>, outcome: array<Vector>, shuffle: seq<int>)
    requires features.Length == outcome.Length == |shuffle| && IsPermutation(shuffle) && features != outcome
    modifies features, outcome
    ensures forall i :: 0 <= i < |shuffle| ==> 0 <= shuffle[i] < features.Length
    ensures features[..] == Apply(old(features[..]), shuffle)
    ensures outcome[..] == Apply(old(outcome[..]), shuffle)
  {
    PermutationInRange(shuffle);
    ArraySorting.Permute(features, shuffle);
    ArraySorting.Permute(outcome, shuffle);
  }

  /** The split of the two aligned sequences at `s`, in fresh arrays. */
  method SplitAt(features: seq<Vector>, outcome: seq<Vector>, s: int) returns (split: EvaluationSplit)
    requires |features| == |outcome| && 0 <= s <= |features|
    ensures (split.trainFeatures[..], split.testFeatures[..]) == Split(features, s)
    ensures (split.trainOutcome[..], split.testOutcome[..]) == Split(outcome, s)
    ensures fresh(split.trainFeatures) && fresh(split.trainOutcome)
    ensures fresh(split.testFeatures) && fresh(split.testOutcome)
  {
    var f := Split(features, s);
    var o := Split(outcome, s);
    var trainFeatures := FromSeq(f.0);
    var trainOutcome := FromSeq(o.0);
    var testFeatures := FromSeq(f.1);
    var testOutcome := FromSeq(o.1);
    split := new EvaluationSplit(trainFeatures, trainOutcome, testFeatures, testOutcome);
  }

  /** 1000 aligned items at 0.9, unshuffled: 900 training pairs and 100 test pairs, in order. */
  method ThousandItemsScenario(features: array<Vector>, outcome: array<Vector>) returns (split: EvaluationSplit)
    requires features.Length == outcome.Length == 1000
    modifies features, outcome
    ensures split.trainFeatures.Length == split.trainOutcome.Length == 900
    ensures split.testFeatures.Length == split.testOutcome.Length == 100
    ensures split.trainFeatures[..] + split.testFeatures[..] == features[..] == old(features[..])
    ensures split.trainOutcome[..] + split.testOutcome[..] == outcome[..] == old(outcome[..])
  {
    ThousandAtNinetyPercent();
    var r := Create(features, outcome, 0.9, false, []);
    split := r.value;
  }
}
