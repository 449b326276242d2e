/**
 * The scorer: a fixed logistic-regression model over the ten measurements.
 * Each measurement is z-normalised against a stored mean and standard deviation, the
 * normalised values are combined with fixed weights, and the weighted sum goes through a
 * sigmoid. The sigmoid (`1 / (1 + Math.exp(-score))`) is a parameter of the model,
 * constrained by `IsSigmoid`.
 */
module MlModel {
  import opened Wrappers
  import opened Numbers
  import opened Types
  import opened FeatureNames
  import opened ImportanceSort

  /** The model weights (`modelWeights`). */
  function Weight(f: Feature): (w: real)
    ensures w > 0.0
  {
    match f
    case MeanRadius => 0.15
    case MeanTexture => 0.08
    case MeanPerimeter => 0.18
    case MeanArea => 0.12
    case MeanSmoothness => 0.06
    case WorstRadius => 0.16
    case WorstTexture => 0.05
    case WorstPerimeter => 0.14
    case WorstArea => 0.11
    case WorstSmoothness => 0.04
  }

  /** The stored mean of each measurement (`featureStats[f].mean`). */
  function Mean(f: Feature): real {
    match f
    case MeanRadius => 14.13
    case MeanTexture => 19.29
    case MeanPerimeter => 91.97
    case MeanArea => 654.89
    case MeanSmoothness => 0.096
    case WorstRadius => 16.27
    case WorstTexture => 25.68
    case WorstPerimeter => 107.26
    case WorstArea => 880.58
    case WorstSmoothness => 0.132
  }

  /** The stored standard deviation of each measurement (`featureStats[f].std`). */
  function Std(f: Feature): (s: real)
    ensures s > 0.0
  {
    match f
    case MeanRadius => 3.52
    case MeanTexture => 4.30
    case MeanPerimeter => 24.30
    case MeanArea => 351.91
    case MeanSmoothness => 0.014
    case WorstRadius => 4.83
    case WorstTexture => 6.15
    case WorstPerimeter => 33.60
    case WorstArea => 569.36
    case WorstSmoothness => 0.023
  }

  /** `normalizeFeature(value, f)`: the z-score of `value`, undone by scaling back and adding the mean. */
  function NormalizeFeature(value: Number, f: Feature): (z: Number)
    ensures z.Finite? <==> value.Finite?
    ensures z.Finite? ==> Mean(f) + z.r * Std(f) == value.r
  {
    match value
    case Finite(x) => Finite((x - Mean(f)) / Std(f))
    case NaN => NaN
  }

  /** Normalisation is strictly increasing in the raw value. */
  lemma NormalizeIncreasing(f: Feature, x: real, y: real)
    requires x < y
    ensures NormalizeFeature(Finite(x), f).r < NormalizeFeature(Finite(y), f).r
  {
    var zx, zy, s := NormalizeFeature(Finite(x), f).r, NormalizeFeature(Finite(y), f).r, Std(f);
    if zx >= zy {
      assert zx * s >= zy * s;
    }
  }

  /** Each stored mean normalises to zero. */
  lemma NormalizeMeanIsZero(f: Feature)
    ensures NormalizeFeature(Finite(Mean(f)), f) == Finite(0.0)
  {
    var z := NormalizeFeature(Finite(Mean(f)), f);
    assert z.r * Std(f) == 0.0;
  }

  /** One measurement's term of the score: its normalised value times its weight. */
  function Contribution(d: PatientData, f: Feature): (c: Number)
    ensures c.Finite? <==> d.Value(f).Finite?
  {
    NormalizeFeature(d.Value(f), f).Times(Weight(f))
  }

  /**
   * `score` after the `forEach` has added the terms of the first `n` measurements, in key
   * order, starting from 0. A NaN term makes the sum NaN from then on.
   */
  function ScoreAfter(d: PatientData, n: nat): (s: Number)
    requires n <= |Features|
    ensures s.Finite? <==> forall k :: 0 <= k < n ==> d.Value(Features[k]).Finite?
  {
    if n == 0 then Finite(0.0)
    else ScoreAfter(d, n - 1).Plus(Contribution(d, Features[n - 1]))
  }

  /** The score of a patient: every measurement's term, in key order. */
  function Score(d: PatientData): Number {
    ScoreAfter(d, |Features|)
  }

  /** All ten measurements are finite numbers. */
  predicate AllMeasured(d: PatientData) {
    forall f :: d.Value(f).Finite?
  }

  /** The score is a number exactly when every measurement is. */
  lemma ScoreFiniteIff(d: PatientData)
    ensures Score(d).Finite? <==> AllMeasured(d)
  {
    if !AllMeasured(d) {
      var f :| !d.Value(f).Finite?;
      FeaturesEnumerateAll(f);
    }
  }

  /** The score loop of `predictBreastCancer`. */
  method ComputeScore(d: PatientData) returns (score: Number)
    ensures score == Score(d)
  {
    score := Finite(0.0);
    var k := 0;
    while k < |Features|
      invariant 0 <= k <= |Features|
      invariant score == ScoreAfter(d, k)
    {
      score := score.Plus(Contribution(d, Features[k]));
      k := k + 1;
    }
  }

  /** The weights in key order. */
  const Weights: seq<real> := seq(|Features|, k requires 0 <= k < |Features| => Weight(Features[k]))

  /** The normalised measurements in key order. */
  function NormalizedVector(d: PatientData): (z: seq<real>)
    requires AllMeasured(d)
    ensures |z| == |Features|
  {
    seq(|Features|, k requires 0 <= k < |Features| => NormalizeFeature(d.Value(Features[k]), Features[k]).r)
  }

  /** The sum of the first `n` products `z[k] * w[k]`, added left to right. */
  function Dot(z: seq<real>, w: seq<real>, n: nat): real
    requires n <= |z| && n <= |w|
  {
    if n == 0 then 0.0 else Dot(z, w, n - 1) + z[n - 1] * w[n - 1]
  }

  /** The score is the weighted sum of the normalised measurements. */
  lemma ScoreIsWeightedSum(d: PatientData)
    requires AllMeasured(d)
    ensures Score(d) == Finite(Dot(NormalizedVector(d), Weights, |Features|))
  {
    PrefixIsWeightedSum(d, |Features|);
  }

  lemma {:induction false} PrefixIsWeightedSum(d: PatientData, k: nat)
    requires AllMeasured(d) && k <= |Features|
    ensures ScoreAfter(d, k) == Finite(Dot(NormalizedVector(d), Weights, k))
  {
    if k > 0 {
      PrefixIsWeightedSum(d, k - 1);
      var z, f := NormalizedVector(d), Features[k - 1];
      assert Contribution(d, f) == Finite(z[k - 1] * Weights[k - 1]);
    }
  }

  /** Adding two vectors adds their weighted sums. */
  lemma {:induction false} DotAdd(a: seq<real>, b: seq<real>, w: seq<real>, n: nat)
    requires |a| == |b| == |w| && n <= |a|
    ensures Dot(seq(|a|, i requires 0 <= i < |a| => a[i] + b[i]), w, n) == Dot(a, w, n) + Dot(b, w, n)
  {
    if n > 0 {
      DotAdd(a, b, w, n - 1);
      assert (a[n - 1] + b[n - 1]) * w[n - 1] == a[n - 1] * w[n - 1] + b[n - 1] * w[n - 1];
    }
  }

  /** Scaling a vector scales its weighted sum. */
  lemma {:induction false} DotScale(a: seq<real>, c: real, w: seq<real>, n: nat)
    requires |a| == |w| && n <= |a|
    ensures Dot(seq(|a|, i requires 0 <= i < |a| => c * a[i]), w, n) == c * Dot(a, w, n)
  {
    if n > 0 {
      DotScale(a, c, w, n - 1);
      assert (c * a[n - 1]) * w[n - 1] == c * (a[n - 1] * w[n - 1]);
    }
  }

  /** A term grows with its measurement, since every weight is positive. */
  lemma ContributionMonotone(d1: PatientData, d2: PatientData, f: Feature)
    requires d1.Value(f).Finite? && d2.Value(f).Finite? && d1.Value(f).r <= d2.Value(f).r
    ensures Contribution(d1, f).r <= Contribution(d2, f).r
  {
    var x, y := d1.Value(f).r, d2.Value(f).r;
    if x < y {
      NormalizeIncreasing(f, x, y);
    }
    var z1, z2, w := NormalizeFeature(d1.Value(f), f).r, NormalizeFeature(d2.Value(f), f).r, Weight(f);
    assert z1 * w <= z2 * w;
  }

  /** Raising any measurements, and lowering none, never lowers the score. */
  lemma ScoreMonotone(d1: PatientData, d2: PatientData)
    requires AllMeasured(d1) && AllMeasured(d2)
    requires forall f :: d1.Value(f).r <= d2.Value(f).r
    ensures Score(d1).r <= Score(d2).r
  {
    ScoreFiniteIff(d1);
    ScoreFiniteIff(d2);
    var k := 0;
    while k < |Features|
      invariant 0 <= k <= |Features|
      invariant ScoreAfter(d1, k).r <= ScoreAfter(d2, k).r
    {
      ContributionMonotone(d1, d2, Features[k]);
      k := k + 1;
    }
  }

  /**
   * What the model needs of the sigmoid `1 / (1 + e^-x)`: values strictly between 0 and 1,
   * one half at 0, strictly increasing, and within a quarter of `|x|` of one half
   * (the slope of the logistic function never exceeds 1/4).
   */
  ghost predicate IsSigmoid(sigmoid: real -> real) {
    (forall x :: 0.0 < sigmoid(x) < 1.0)
    && sigmoid(0.0) == 0.5
    && (forall x, y :: x < y ==> sigmoid(x) < sigmoid(y))
    && (forall x :: if x >= 0.0 then sigmoid(x) - 0.5 <= x / 4.0 else 0.5 - sigmoid(x) <= -x / 4.0)
  }

  /** `probability` before the verdict is chosen: the sigmoid of the score, NaN for a NaN score. */
  function RawProbability(sigmoid: real -> real, score: Number): (p: Number)
    ensures p.Finite? <==> score.Finite?
  {
    match score
    case Finite(s) => Finite(sigmoid(s))
    case NaN => NaN
  }

  /** The importance of one measurement: `Math.abs(normalizedValue * weight)`. */
  function Importance(d: PatientData, f: Feature): (i: Number)
    ensures i.Finite? <==> d.Value(f).Finite?
    ensures i.Finite? ==> i.r >= 0.0 && (i.r == Contribution(d, f).r || i.r == -Contribution(d, f).r)
  {
    Contribution(d, f).Abs()
  }

  /** The entry of one measurement in the feature list. */
  function ImportanceEntry(d: PatientData, f: Feature): FeatureImportance {
    FeatureImportance(DisplayName(Key(f)), Importance(d, f), d.Value(f))
  }

  /** The `map` callback over `Object.entries(data)`: `null` for `id`, `name` and `age`. */
  function EntryImportance(d: PatientData, key: PatientKey): Option<FeatureImportance> {
    match key
    case Id => None
    case Name => None
    case Age => None
    case Measurement(f) => Some(ImportanceEntry(d, f))
  }

  /** `filter(Boolean)`: the entries that are present, in order. */
  function KeepPresent(xs: seq<Option<FeatureImportance>>): (r: seq<FeatureImportance>)
    ensures |r| <= |xs|
  {
    if xs == [] then []
    else (if xs[0].Some? then [xs[0].value] else []) + KeepPresent(xs[1..])
  }

  /** The feature list before sorting. */
  function Importances(d: PatientData): seq<FeatureImportance> {
    KeepPresent(seq(|PatientKeys|, k requires 0 <= k < |PatientKeys| => EntryImportance(d, PatientKeys[k])))
  }

  lemma SkipAbsent(xs: seq<Option<FeatureImportance>>)
    requires xs != [] && xs[0] == None
    ensures KeepPresent(xs) == KeepPresent(xs[1..])
  {
    assert [] + KeepPresent(xs[1..]) == KeepPresent(xs[1..]);
  }

  lemma {:induction false} KeepPresentAllSome(xs: seq<Option<FeatureImportance>>)
    requires forall k :: 0 <= k < |xs| ==> xs[k].Some?
    ensures KeepPresent(xs) == seq(|xs|, k requires 0 <= k < |xs| => xs[k].value)
  {
    if xs != [] {
      KeepPresentAllSome(xs[1..]);
    }
  }

  /** The unsorted list has one entry per measurement, in key order, without `id`, `name` or `age`. */
  lemma ImportancesPerFeature(d: PatientData)
    ensures Importances(d) == seq(|Features|, k requires 0 <= k < |Features| => ImportanceEntry(d, Features[k]))
  {
    var xs := seq(|PatientKeys|, k requires 0 <= k < |PatientKeys| => EntryImportance(d, PatientKeys[k]));
    var ms := xs[3..];
    SkipAbsent(xs);
    SkipAbsent(xs[1..]);
    assert xs[1..][1..] == xs[2..];
    SkipAbsent(xs[2..]);
    assert xs[2..][1..] == ms;
    KeepPresentAllSome(ms);
  }

  /** No two entries of `s` have the same display name. */
  predicate NamesDistinct(s: seq<FeatureImportance>) {
    forall i, j :: 0 <= i < j < |s| ==> s[i].feature != s[j].feature
  }

  lemma ImportancesNamesDistinct(d: PatientData)
    ensures NamesDistinct(Importances(d))
  {
    ImportancesPerFeature(d);
    var s := Importances(d);
    forall i, j | 0 <= i < j < |s| ensures s[i].feature != s[j].feature {
      FeaturesEnumerateAll(Features[i]);
      DisplayNamesDistinct(Features[i], Features[j]);
    }
  }

  /** An element occurring twice in a sequence has multiplicity at least two. */
  lemma TwiceInMultiset(t: seq<FeatureImportance>, i: nat, j: nat)
    requires i < j < |t| && t[i] == t[j]
    ensures multiset(t)[t[i]] >= 2
  {
    assert t == t[..j] + [t[j]] + t[j + 1..];
    assert t[i] in t[..j];
  }

  /** An element of multiplicity at least two occurs at two positions. */
  lemma TwoPositions(s: seq<FeatureImportance>, p: nat)
    requires p < |s| && multiset(s)[s[p]] >= 2
    ensures exists q :: 0 <= q < |s| && q != p && s[q] == s[p]
  {
    assert s == s[..p] + [s[p]] + s[p + 1..];
    var rest := s[..p] + s[p + 1..];
    assert multiset(s) == multiset(rest) + multiset{s[p]};
    assert s[p] in rest;
    var r :| 0 <= r < |rest| && rest[r] == s[p];
    if r < p {
      assert s[r] == rest[r];
    } else {
      assert s[r + 1] == rest[r];
    }
  }

  /** A permutation of a list with distinct names has distinct names. */
  lemma PermutationKeepsNamesDistinct(s: seq<FeatureImportance>, t: seq<FeatureImportance>)
    requires multiset(s) == multiset(t) && NamesDistinct(s)
    ensures NamesDistinct(t)
  {
    forall i, j | 0 <= i < j < |t| ensures t[i].feature != t[j].feature {
      if t[i].feature == t[j].feature {
        assert t[i] in multiset(s) && t[j] in multiset(s);
        var p :| 0 <= p < |s| && s[p] == t[i];
        if t[i] == t[j] {
          TwiceInMultiset(t, i, j);
          TwoPositions(s, p);
        }
      }
    }
  }

  /** The result of `predictBreastCancer(data)`. */
  function Prediction(sigmoid: real -> real, d: PatientData): PredictionResult {
    var p := RawProbability(sigmoid, Score(d));
    var verdict := if p.GreaterThan(0.5) then Malignant else Benign;
    PredictionResult(
      verdict,
      if verdict == Malignant then p else p.SubtractedFrom(1.0),
      p.Minus(0.5).Abs().Times(2.0),
      SortByImportance(Importances(d)))
  }

  /** `predictBreastCancer`: the score loop, then the feature list sorted in place. */
  method PredictBreastCancer(sigmoid: real -> real, d: PatientData) returns (r: PredictionResult)
    ensures r == Prediction(sigmoid, d)
  {
    var score := ComputeScore(d);
    var p := RawProbability(sigmoid, score);
    var verdict := if p.GreaterThan(0.5) then Malignant else Benign;
    var confidence := p.Minus(0.5).Abs().Times(2.0);
    var entries := Importances(d);
    var features := new FeatureImportance[|entries|](k requires 0 <= k < |entries| => entries[k]);
    assert features[..] == entries;
    SortFeatures(features);
    r := PredictionResult(verdict, if verdict == Malignant then p else p.SubtractedFrom(1.0), confidence, features[..]);
  }

  /** The verdict is Malignant exactly when the sigmoid exceeds one half, that is when the score is positive. */
  lemma LabelRule(sigmoid: real -> real, d: PatientData)
    requires IsSigmoid(sigmoid)
    ensures Prediction(sigmoid, d).prediction == Malignant <==> RawProbability(sigmoid, Score(d)).GreaterThan(0.5)
    ensures Prediction(sigmoid, d).prediction == Malignant <==> Score(d).GreaterThan(0.0)
  {
    if Score(d).Finite? {
      var s := Score(d).r;
      if s > 0.0 {
        assert sigmoid(0.0) < sigmoid(s);
      } else if s < 0.0 {
        assert sigmoid(s) < sigmoid(0.0);
      }
    }
  }

  /** On the decision boundary the verdict is Benign, with probability one half and no confidence. */
  lemma BoundaryIsBenign(sigmoid: real -> real, d: PatientData)
    requires IsSigmoid(sigmoid) && Score(d) == Finite(0.0)
    ensures Prediction(sigmoid, d).prediction == Benign
    ensures Prediction(sigmoid, d).probability == Finite(0.5)
    ensures Prediction(sigmoid, d).confidence == Finite(0.0)
  {
  }

  /**
   * The reported probability is that of the chosen verdict: at least one half and below one.
   * The confidence is below one, not negative, and twice the probability less one.
   * Both are numbers exactly when every measurement is.
   */
  lemma ReportedProbabilityBounds(sigmoid: real -> real, d: PatientData)
    requires IsSigmoid(sigmoid)
    ensures Prediction(sigmoid, d).probability.Finite? <==> AllMeasured(d)
    ensures Prediction(sigmoid, d).confidence.Finite? <==> AllMeasured(d)
    ensures AllMeasured(d) ==> 0.5 <= Prediction(sigmoid, d).probability.r < 1.0
    ensures AllMeasured(d) ==> 0.0 <= Prediction(sigmoid, d).confidence.r < 1.0
    ensures AllMeasured(d) ==>
      Prediction(sigmoid, d).confidence.r == 2.0 * Prediction(sigmoid, d).probability.r - 1.0
  {
    ScoreFiniteIff(d);
    if AllMeasured(d) {
      var p := sigmoid(Score(d).r);
      assert 0.0 < p < 1.0;
    }
  }

  /** A record with a NaN measurement (an unparsable cell) is Benign with NaN probability and confidence. */
  lemma UnmeasuredIsBenign(sigmoid: real -> real, d: PatientData)
    requires !AllMeasured(d)
    ensures Prediction(sigmoid, d).prediction == Benign
    ensures Prediction(sigmoid, d).probability == NaN && Prediction(sigmoid, d).confidence == NaN
  {
    ScoreFiniteIff(d);
  }

  /**
   * The feature list: ten entries, a permutation of one entry per measurement, each name
   * appearing once, each entry of the form `ImportanceEntry(d, f)`.
   */
  lemma FeatureListShape(sigmoid: real -> real, d: PatientData)
    ensures |Prediction(sigmoid, d).features| == |Features|
    ensures multiset(Prediction(sigmoid, d).features) == multiset(Importances(d))
    ensures NamesDistinct(Prediction(sigmoid, d).features)
    ensures forall e :: e in Prediction(sigmoid, d).features ==> exists f :: e == ImportanceEntry(d, f)
  {
    var features := Prediction(sigmoid, d).features;
    ImportancesPerFeature(d);
    SortPermutes(Importances(d));
    ImportancesNamesDistinct(d);
    PermutationKeepsNamesDistinct(Importances(d), features);
    forall e | e in features ensures exists f :: e == ImportanceEntry(d, f) {
      assert e in multiset(Importances(d));
      var k :| 0 <= k < |Importances(d)| && Importances(d)[k] == e;
      assert e == ImportanceEntry(d, Features[k]);
    }
  }

  /**
   * With every measurement a number the list is in non-increasing order of importance, and
   * the entries of equal importance keep their key order.
   */
  lemma FeatureListOrder(sigmoid: real -> real, d: PatientData)
    ensures AllMeasured(d) ==> NonIncreasing(Prediction(sigmoid, d).features)
    ensures forall v :: WithImportance(Prediction(sigmoid, d).features, v) == WithImportance(Importances(d), v)
  {
    if AllMeasured(d) {
      ImportancesPerFeature(d);
      assert AllFinite(Importances(d));
      SortOrders(Importances(d));
    }
    forall v ensures WithImportance(Prediction(sigmoid, d).features, v) == WithImportance(Importances(d), v) {
      SortIsStable(Importances(d), v);
    }
  }

  /**
   * The measurements of the near-mean sample row
   * `P1,14.0,19.0,92.0,655.0,0.096,16.0,26.0,107.0,881.0,0.132`.
   */
  predicate IsNearMeanSample(d: PatientData) {
    d.meanRadius == Finite(14.0) && d.meanTexture == Finite(19.0) && d.meanPerimeter == Finite(92.0)
    && d.meanArea == Finite(655.0) && d.meanSmoothness == Finite(0.096)
    && d.worstRadius == Finite(16.0) && d.worstTexture == Finite(26.0) && d.worstPerimeter == Finite(107.0)
    && d.worstArea == Finite(881.0) && d.worstSmoothness == Finite(0.132)
  }

  /** For a finite score, the confidence is at most half the score's distance from zero. */
  lemma ConfidenceNearBoundary(sigmoid: real -> real, d: PatientData)
    requires IsSigmoid(sigmoid) && Score(d).Finite?
    ensures Prediction(sigmoid, d).confidence.Finite?
    ensures Score(d).r >= 0.0 ==> Prediction(sigmoid, d).confidence.r <= Score(d).r / 2.0
    ensures Score(d).r < 0.0 ==> Prediction(sigmoid, d).confidence.r <= -Score(d).r / 2.0
  {
    var s := Score(d).r;
    if s > 0.0 {
      assert sigmoid(0.0) < sigmoid(s);
    } else if s < 0.0 {
      assert sigmoid(s) < sigmoid(0.0);
    }
  }

  /** `Dot` over ten entries, split into its two halves of five terms each. */
  lemma DotHalves(z: seq<real>, w: seq<real>)
    requires 10 <= |z| && 10 <= |w|
    ensures Dot(z, w, 5) == z[0] * w[0] + z[1] * w[1] + z[2] * w[2] + z[3] * w[3] + z[4] * w[4]
    ensures Dot(z, w, 10) == Dot(z, w, 5) + z[5] * w[5] + z[6] * w[6] + z[7] * w[7] + z[8] * w[8] + z[9] * w[9]
  {
    assert Dot(z, w, 1) == z[0] * w[0];
    assert Dot(z, w, 2) == Dot(z, w, 1) + z[1] * w[1];
    assert Dot(z, w, 3) == Dot(z, w, 2) + z[2] * w[2];
    assert Dot(z, w, 4) == Dot(z, w, 3) + z[3] * w[3];
    assert Dot(z, w, 5) == Dot(z, w, 4) + z[4] * w[4];
    assert Dot(z, w, 6) == Dot(z, w, 5) + z[5] * w[5];
    assert Dot(z, w, 7) == Dot(z, w, 6) + z[6] * w[6];
    assert Dot(z, w, 8) == Dot(z, w, 7) + z[7] * w[7];
    assert Dot(z, w, 9) == Dot(z, w, 8) + z[8] * w[8];
  }

  /** The first five terms of the near-mean sample. */
  lemma NearMeanSampleMeanTerms(d: PatientData)
    requires IsNearMeanSample(d)
    ensures AllMeasured(d)
    ensures -0.0108 <= Dot(NormalizedVector(d), Weights, 5) <= -0.0104
  {
    assert AllMeasured(d);
    var z, w := NormalizedVector(d), Weights;
    assert -0.0056 < z[0] * w[0] < -0.0055;
    assert -0.0054 < z[1] * w[1] < -0.0053;
    assert 0.0002 < z[2] * w[2] < 0.0003;
    assert 0.0 < z[3] * w[3] < 0.0001;
    assert z[4] * w[4] == 0.0;
    DotHalves(z, w);
  }

  /** The last five terms of the near-mean sample. */
  lemma NearMeanSampleWorstTerms(d: PatientData)
    requires IsNearMeanSample(d)
    ensures AllMeasured(d)
    ensures -0.0075 <= Dot(NormalizedVector(d), Weights, 10) - Dot(NormalizedVector(d), Weights, 5) <= -0.0071
  {
    assert AllMeasured(d);
    var z, w := NormalizedVector(d), Weights;
    assert -0.0090 < z[5] * w[5] < -0.0089;
    assert 0.0026 < z[6] * w[6] < 0.0027;
    assert -0.0011 < z[7] * w[7] < -0.0010;
    assert 0.0 < z[8] * w[8] < 0.0001;
    assert z[9] * w[9] == 0.0;
    DotHalves(z, w);
  }

  /** The near-mean sample scores just below zero. */
  lemma NearMeanSampleScore(d: PatientData)
    requires IsNearMeanSample(d)
    ensures Score(d).Finite? && -0.02 < Score(d).r < 0.0
  {
    NearMeanSampleMeanTerms(d);
    NearMeanSampleWorstTerms(d);
    ScoreIsWeightedSum(d);
  }

  /** The near-mean sample is Benign, with confidence below 0.01. */
  lemma NearMeanSampleIsBenign(sigmoid: real -> real, d: PatientData)
    requires IsSigmoid(sigmoid) && IsNearMeanSample(d)
    ensures Prediction(sigmoid, d).prediction == Benign
    ensures Prediction(sigmoid, d).confidence.r < 0.01
  {
    NearMeanSampleScore(d);
    LabelRule(sigmoid, d);
    ConfidenceNearBoundary(sigmoid, d);
  }
}
