/** The weak learner: a decision stump that compares one feature column with a
    threshold, and its training by exhaustive search over features and
    deduplicated thresholds (src/weak_learner/stump.rs). */
module Stumps {
  import opened Wrappers
  import opened Grids
  import opened RealSeq
  import opened Unique
  import opened Datasets

  /** Scale applied to a value before truncation when deduplicating thresholds. */
  const Precision: real := 10000.0

  /** `f64::MIN_POSITIVE`, that is 2^-1022: keeps both sides of the quotient in
      `alpha` away from zero. */
  const MinPositive: real := 1.0 / 44942328371557897693232629769725618340449424473557664318357520289433168951375240783177119330601884005280028469967848339414697442203604155623211857659868531094441973356216371319075554900311523529863270738021251442209537670585615720368478277635206809290837627671146574559986811484619929076208839082406056034304.0

  /** Orientation of a stump: Positive predicts +1 at or above the threshold. */
  datatype Polarity = Positive | Negative {

    /** The polarity as a sign. */
    function I32(): (r: int)
      ensures r == 1 || r == -1
      ensures r == 1 <==> this == Positive
    {
      match this
      case Positive => 1
      case Negative => -1
    }

    /** The same sign as a real. */
    function F64(): (r: real)
      ensures r == I32() as real
    {
      match this
      case Positive => 1.0
      case Negative => -1.0
    }

    /** True exactly for the positive sign. */
    function Bool(): (r: bool)
      ensures r <==> I32() == 1
    {
      match this
      case Positive => true
      case Negative => false
    }
  }

  /** A stump; `threshold` is None until training has found one. */
  datatype Stump = Stump(threshold: Option<real>, polarity: Polarity, alpha: real, featureId: nat) {

    function GetAlpha(): real {
      alpha
    }

    /** `set_alpha`: the new alpha reads back, every other field is kept. */
    function SetAlpha(a: real): (s: Stump)
      ensures s.GetAlpha() == a
      ensures s.threshold == threshold && s.polarity == polarity && s.featureId == featureId
    {
      this.(alpha := a)
    }
  }

  /** `Stump::new`: Positive, no threshold, alpha 0, feature 0. */
  function NewStump(): (s: Stump)
    ensures s.polarity == Positive && s.threshold.None? && s.alpha == 0.0 && s.featureId == 0
  {
    Stump(None, Positive, 0.0, 0)
  }

  /** The vote of a trained stump on one feature value. */
  function PredictValue(s: Stump, x: real): (p: int)
    requires s.threshold.Some?
    ensures p == 1 || p == -1
    ensures p == s.polarity.I32() <==> x >= s.threshold.value
  {
    if x < s.threshold.value then -s.polarity.I32() else s.polarity.I32()
  }

  /** `predict`: one vote in {-1, +1} per row, equal to the polarity's sign exactly
      when the row's feature value is at or above the threshold. */
  function Predict(s: Stump, values: Matrix): (r: seq<int>)
    requires values.Valid() && s.threshold.Some? && s.featureId < values.ncols
    ensures |r| == |values.rows|
    ensures forall i :: 0 <= i < |r| ==> r[i] == 1 || r[i] == -1
    ensures forall i :: 0 <= i < |r| ==>
      (r[i] == s.polarity.I32() <==> values.rows[i][s.featureId] >= s.threshold.value)
  {
    seq(|values.rows|, i requires 0 <= i < |values.rows| => PredictValue(s, values.rows[i][s.featureId]))
  }

  // ---------------------------------------------------------------------------
  // Candidate thresholds

  /** `as i64` on a real: truncation toward zero. */
  function Trunc(y: real): (k: int)
    ensures 0.0 <= y ==> k as real <= y < k as real + 1.0
    ensures y < 0.0 ==> k as real - 1.0 < y <= k as real
  {
    if y >= 0.0 then y.Floor else -((-y).Floor)
  }

  /** The deduplication key of a feature value: the value scaled by `PRECISION`
      and truncated toward zero. */
  function QuantKey(x: real): (k: int)
    ensures 0.0 <= x ==> 0 <= k && k as real <= x * Precision < k as real + 1.0
    ensures x < 0.0 ==> k <= 0 && k as real - 1.0 < x * Precision <= k as real
  {
    Trunc(x * Precision)
  }

  /** Two values with the same key differ by less than 2 / `PRECISION` (key 0
      covers both sides of zero; any other key covers an interval of width
      1 / `PRECISION`). */
  lemma QuantKeyClose(x: real, y: real)
    requires QuantKey(x) == QuantKey(y)
    ensures -0.0002 < x - y < 0.0002
  {
    var k := QuantKey(x);
    assert -2.0 < x * Precision - y * Precision < 2.0;
  }

  /** The candidate thresholds of a column: its values, deduplicated by key. There
      are never more of them than values, and there are some exactly when the
      column is non-empty. */
  function Thresholds(col: seq<real>): (ts: seq<real>)
    ensures |ts| <= |col|
    ensures |ts| > 0 <==> |col| > 0
  {
    UniqueBy(col, QuantKey)
  }

  /** The candidate thresholds are a subsequence of the column made of the first
      value of each key; no two share a key; every value of the column has a
      candidate with its key. */
  lemma ThresholdsProperties(col: seq<real>)
    ensures IsSubsequence(Thresholds(col), col)
    ensures FirstOccurrences(Thresholds(col), col, QuantKey)
    ensures KeysDistinct(Thresholds(col), QuantKey)
    ensures CoversKeys(Thresholds(col), col, QuantKey, {})
  {
    UniqueByProperties(col, QuantKey);
  }

  /** Deduplication loses little: every value of the column lies within
      2 / `PRECISION` of some candidate threshold. */
  lemma ThresholdsNear(col: seq<real>)
    ensures forall i :: 0 <= i < |col| ==>
      exists k :: 0 <= k < |Thresholds(col)| && -0.0002 < col[i] - Thresholds(col)[k] < 0.0002
  {
    var ts := Thresholds(col);
    UniqueFromCovers(col, QuantKey, {});
    forall i | 0 <= i < |col|
      ensures exists k :: 0 <= k < |ts| && -0.0002 < col[i] - ts[k] < 0.0002
    {
      var k :| 0 <= k < |ts| && QuantKey(ts[k]) == QuantKey(col[i]);
      QuantKeyClose(col[i], ts[k]);
    }
  }

  // ---------------------------------------------------------------------------
  // Evaluating one candidate

  /** The predictions of lines 124-133 as a value: n entries, -1 where the
      column's value is below t, +1 elsewhere (also past the end of the column). */
  function SplitPredictions(n: nat, col: seq<real>, t: real): (p: seq<int>)
    ensures |p| == n
    ensures forall i :: 0 <= i < n ==> (p[i] == 1 || p[i] == -1)
    ensures forall i :: 0 <= i < n ==> (p[i] == -1 <==> i < |col| && col[i] < t)
  {
    seq(n, i requires 0 <= i < n => if i < |col| && col[i] < t then -1 else 1)
  }

  /** Lines 124-133: a buffer of n ones, overwritten with -1 along the column
      wherever the value is below t. */
  method ThresholdPredictions(n: nat, col: seq<real>, t: real) returns (p: seq<int>)
    ensures p == SplitPredictions(n, col, t)
  {
    var buffer := new int[n](_ => 1);
    var i := 0;
    while i < n && i < |col|
      invariant 0 <= i <= n && i <= |col|
      invariant forall j :: 0 <= j < n ==> buffer[j] == (if j < i && col[j] < t then -1 else 1)
    {
      if col[i] < t {
        buffer[i] := -1;
      }
      i := i + 1;
    }
    p := buffer[..];
  }

  function Min(a: nat, b: nat): nat {
    if a <= b then a else b
  }

  /** Total weight of the first m positions whose prediction differs from the
      label. With non-negative weights it lies between 0 and the weight of the
      prefix. */
  function MisclassifiedWeight(labels: seq<int>, preds: seq<int>, weights: seq<real>, m: nat): (r: real)
    requires m <= |labels| && m <= |preds| && m <= |weights|
    ensures NonNegative(weights) ==> 0.0 <= r <= Sum(weights[..m])
  {
    if m == 0 then 0.0
    else
      var last := if preds[m - 1] != labels[m - 1] then weights[m - 1] else 0.0;
      SumPrefixStep(weights, m - 1);
      MisclassifiedWeight(labels, preds, weights, m - 1) + last
  }

  /** The weighted error: the zip of labels, predictions and weights stops at the
      shortest of the three. With non-negative weights it lies between 0 and the
      total weight. */
  function WeightedError(labels: seq<int>, preds: seq<int>, weights: seq<real>): (r: real)
    ensures NonNegative(weights) ==> 0.0 <= r <= Sum(weights)
  {
    var m := Min(Min(|labels|, |preds|), |weights|);
    if NonNegative(weights) then
      SumPrefixBounded(weights, m);
      MisclassifiedWeight(labels, preds, weights, m)
    else
      MisclassifiedWeight(labels, preds, weights, m)
  }

  function Negated(p: seq<int>): (q: seq<int>)
    ensures |q| == |p| && forall i :: 0 <= i < |p| ==> q[i] == -p[i]
  {
    seq(|p|, i requires 0 <= i < |p| => -p[i])
  }

  lemma {:induction false} MisclassifiedWeightNegated(labels: seq<int>, preds: seq<int>, weights: seq<real>, m: nat)
    requires m <= |labels| && m <= |preds| && m <= |weights|
    requires forall i :: 0 <= i < |labels| ==> labels[i] == 1 || labels[i] == -1
    requires forall i :: 0 <= i < |preds| ==> preds[i] == 1 || preds[i] == -1
    ensures MisclassifiedWeight(labels, Negated(preds), weights, m)
      == Sum(weights[..m]) - MisclassifiedWeight(labels, preds, weights, m)
  {
    if m > 0 {
      MisclassifiedWeightNegated(labels, preds, weights, m - 1);
      SumPrefixStep(weights, m - 1);
    }
  }

  /** When labels and predictions are all ±1 and the three sequences have one
      length, negating every prediction turns error e into total - e. (The
      labels the dataset builder produces are 0, 1, ..., so this is an explicit
      assumption, not a property of the pipeline.) */
  lemma ErrorOfNegated(labels: seq<int>, preds: seq<int>, weights: seq<real>)
    requires |labels| == |preds| == |weights|
    requires forall i :: 0 <= i < |labels| ==> labels[i] == 1 || labels[i] == -1
    requires forall i :: 0 <= i < |preds| ==> preds[i] == 1 || preds[i] == -1
    ensures WeightedError(labels, Negated(preds), weights) == Sum(weights) - WeightedError(labels, preds, weights)
  {
    MisclassifiedWeightNegated(labels, preds, weights, |weights|);
    assert weights[..|weights|] == weights;
  }

  /** Lines 143-146: an error above one half is replaced by its complement and the
      polarity turns Negative; otherwise the polarity stays Positive. */
  function FlipIfWorse(error: real): (r: (real, Polarity))
    ensures r.0 <= 0.5
    ensures r.1 == Negative <==> error > 0.5
    ensures r.1 == Negative ==> r.0 == 1.0 - error
    ensures r.1 == Positive ==> r.0 == error
    ensures 0.0 <= error <= 1.0 ==> 0.0 <= r.0
  {
    if error > 0.5 then (1.0 - error, Negative) else (error, Positive)
  }

  /** One examined (feature, threshold) pair with its polarity and corrected error. */
  datatype Candidate = Candidate(featureId: nat, threshold: real, polarity: Polarity, error: real)

  /** The evaluation of threshold t on feature f: raw predictions, weighted error,
      polarity flip. With non-negative weights of total at most 1 the corrected
      error lies in [0, 0.5]. */
  function Evaluate(f: nat, col: seq<real>, t: real, labels: seq<int>, weights: seq<real>): (c: Candidate)
    ensures c.featureId == f && c.threshold == t && c.error <= 0.5
    ensures NonNegative(weights) && Sum(weights) <= 1.0 ==> 0.0 <= c.error
  {
    var preds := SplitPredictions(|labels|, col, t);
    var flipped := FlipIfWorse(WeightedError(labels, preds, weights));
    Candidate(f, t, flipped.1, flipped.0)
  }

  /** The candidates of feature f, in threshold order. */
  function FeatureCandidates(data: Matrix, f: nat, labels: seq<int>, weights: seq<real>): (cs: seq<Candidate>)
    requires data.Valid() && f < data.ncols
  {
    var col := data.Column(f);
    var ts := Thresholds(col);
    seq(|ts|, k requires 0 <= k < |ts| => Evaluate(f, col, ts[k], labels, weights))
  }

  /** The candidates of features 0 .. nf-1, feature by feature. */
  function CandidatesBefore(data: Matrix, nf: nat, labels: seq<int>, weights: seq<real>): seq<Candidate>
    requires data.Valid() && nf <= data.ncols
  {
    if nf == 0 then []
    else CandidatesBefore(data, nf - 1, labels, weights) + FeatureCandidates(data, nf - 1, labels, weights)
  }

  /** Every candidate training examines, in the order of the sequential search. */
  function AllCandidates(data: Matrix, labels: seq<int>, weights: seq<real>): seq<Candidate>
    requires data.Valid()
  {
    CandidatesBefore(data, data.ncols, labels, weights)
  }

  /** A candidate of the search: an existing feature, a threshold that is one of
      that feature's values, and a corrected error of at most 0.5 (and at least 0
      for non-negative weights of total at most 1). */
  ghost predicate WellFormedCandidate(data: Matrix, weights: seq<real>, c: Candidate)
    requires data.Valid()
  {
    && c.featureId < data.ncols
    && (exists i :: 0 <= i < |data.rows| && data.rows[i][c.featureId] == c.threshold)
    && c.error <= 0.5
    && (NonNegative(weights) && Sum(weights) <= 1.0 ==> 0.0 <= c.error)
  }

  /** The candidates of one feature are well formed, and there is one exactly when
      the data has a row. */
  lemma FeatureCandidatesFacts(data: Matrix, f: nat, labels: seq<int>, weights: seq<real>)
    requires data.Valid() && f < data.ncols
    ensures forall q :: 0 <= q < |FeatureCandidates(data, f, labels, weights)| ==>
      && FeatureCandidates(data, f, labels, weights)[q].featureId == f
      && WellFormedCandidate(data, weights, FeatureCandidates(data, f, labels, weights)[q])
    ensures |FeatureCandidates(data, f, labels, weights)| > 0 <==> |data.rows| > 0
  {
    var fc := FeatureCandidates(data, f, labels, weights);
    var col := data.Column(f);
    var ts := Thresholds(col);
    UniqueFromFirstOccurrences(col, QuantKey, {});
    forall q | 0 <= q < |fc| ensures WellFormedCandidate(data, weights, fc[q]) {
      assert fc[q] == Evaluate(f, col, ts[q], labels, weights);
      assert IsFirstOccurrence(ts[q], col, QuantKey);
      var i :| 0 <= i < |col| && ts[q] == col[i] && FirstOfKey(col, QuantKey, i);
      assert data.rows[i][f] == fc[q].threshold;
    }
  }

  /** Every candidate of cs is well formed. */
  ghost predicate AllWellFormed(data: Matrix, weights: seq<real>, cs: seq<Candidate>)
    requires data.Valid()
  {
    forall k :: 0 <= k < |cs| ==> WellFormedCandidate(data, weights, cs[k])
  }

  lemma AllWellFormedConcat(data: Matrix, weights: seq<real>, a: seq<Candidate>, b: seq<Candidate>)
    requires data.Valid() && AllWellFormed(data, weights, a) && AllWellFormed(data, weights, b)
    ensures AllWellFormed(data, weights, a + b)
  {
    forall k | 0 <= k < |a + b| ensures WellFormedCandidate(data, weights, (a + b)[k]) {
      if k < |a| {
        assert (a + b)[k] == a[k];
      } else {
        assert (a + b)[k] == b[k - |a|];
      }
    }
  }

  lemma {:induction false} CandidatesBeforeFacts(data: Matrix, nf: nat, labels: seq<int>, weights: seq<real>)
    requires data.Valid() && nf <= data.ncols
    ensures AllWellFormed(data, weights, CandidatesBefore(data, nf, labels, weights))
    ensures |CandidatesBefore(data, nf, labels, weights)| > 0 <==> nf > 0 && |data.rows| > 0
  {
    if nf > 0 {
      CandidatesBeforeFacts(data, nf - 1, labels, weights);
      FeatureCandidatesFacts(data, nf - 1, labels, weights);
      AllWellFormedConcat(data, weights, CandidatesBefore(data, nf - 1, labels, weights),
                          FeatureCandidates(data, nf - 1, labels, weights));
    }
  }

  /** Every examined candidate is well formed, and there is at least one exactly
      when the data has a feature and a row. */
  lemma AllCandidatesFacts(data: Matrix, labels: seq<int>, weights: seq<real>)
    requires data.Valid()
    ensures forall k :: 0 <= k < |AllCandidates(data, labels, weights)| ==>
      WellFormedCandidate(data, weights, AllCandidates(data, labels, weights)[k])
    ensures |AllCandidates(data, labels, weights)| > 0 <==> data.ncols > 0 && |data.rows| > 0
  {
    CandidatesBeforeFacts(data, data.ncols, labels, weights);
  }

  // ---------------------------------------------------------------------------
  // Choosing the best candidate

  /** The index the search keeps: the running best starts at infinity (None) and
      is replaced only by a strictly smaller error. */
  function ScanBest(cs: seq<Candidate>): (r: Option<nat>)
    ensures r.None? <==> |cs| == 0
    ensures r.Some? ==> r.value < |cs|
  {
    if |cs| == 0 then None
    else
      var prev := ScanBest(cs[..|cs| - 1]);
      if prev.None? || cs[|cs| - 1].error < cs[prev.value].error then Some(|cs| - 1) else prev
  }

  /** k is the first position holding the least error of cs. */
  ghost predicate FirstMinAt(cs: seq<Candidate>, k: int) {
    && 0 <= k < |cs|
    && (forall j :: 0 <= j < k ==> cs[k].error < cs[j].error)
    && (forall j :: k <= j < |cs| ==> cs[k].error <= cs[j].error)
  }

  /** The strict-< scan finds the first minimum: its error is at most every
      candidate's error and strictly below every earlier candidate's error. */
  lemma {:induction false} ScanBestIsFirstMinimum(cs: seq<Candidate>)
    requires |cs| > 0
    ensures FirstMinAt(cs, ScanBest(cs).value)
  {
    if |cs| > 1 {
      var init := cs[..|cs| - 1];
      ScanBestIsFirstMinimum(init);
      assert forall j :: 0 <= j < |init| ==> init[j] == cs[j];
    }
  }

  lemma ScanBestStep(cs: seq<Candidate>, c: Candidate)
    ensures ScanBest(cs + [c]) ==
      if ScanBest(cs).None? || c.error < cs[ScanBest(cs).value].error then Some(|cs|) else ScanBest(cs)
  {
    assert (cs + [c])[..|cs|] == cs;
  }

  /** The facts about the natural logarithm the model relies on. */
  ghost predicate IsLn(ln: real -> real) {
    && ln(1.0) == 0.0
    && forall x, y :: 0.0 < x <= y ==> ln(x) <= ln(y)
  }

  /** A quotient of positive reals is at least 1 when the numerator is at least
      the denominator, and in (0, 1] when it is at most the denominator. */
  lemma RatioBounds(num: real, den: real)
    requires 0.0 < den
    ensures den <= num ==> 1.0 <= num / den
    ensures 0.0 < num <= den ==> 0.0 < num / den <= 1.0
  {
    var q := num / den;
    assert q * den == num;
    if q < 1.0 {
      assert q * den < den;
    }
    if q > 1.0 {
      assert q * den > den;
    }
    if q <= 0.0 {
      assert q * den <= 0.0;
    }
  }

  /** `alpha = 0.5 * ln((1 - err + MIN_POSITIVE) / (err + MIN_POSITIVE))`. With a
      monotone logarithm, a stump better than chance gets a non-negative alpha and
      one worse than chance a non-positive alpha. */
  function Alpha(error: real, ln: real -> real): (a: real)
    requires 0.0 <= error
    ensures IsLn(ln) && error <= 0.5 ==> 0.0 <= a
    ensures IsLn(ln) && 0.5 <= error <= 1.0 ==> a <= 0.0
  {
    RatioBounds(1.0 - error + MinPositive, error + MinPositive);
    0.5 * ln((1.0 - error + MinPositive) / (error + MinPositive))
  }

  /** The stump a candidate describes, with its alpha. */
  function StumpOf(c: Candidate, ln: real -> real): Stump
    requires 0.0 <= c.error
  {
    Stump(Some(c.threshold), c.polarity, Alpha(c.error, ln), c.featureId)
  }

  /** The result of training, as a value: the first candidate of least corrected
      error, or the initial stump when nothing was examined. */
  function TrainedStump(weights: seq<real>, data: Matrix, labels: seq<int>, ln: real -> real): (s: Stump)
    requires data.Valid() && NonNegative(weights) && Sum(weights) <= 1.0
    ensures s.threshold.None? <==> data.ncols == 0 || |data.rows| == 0
    ensures s.threshold.None? ==> s == NewStump()
    ensures IsLn(ln) ==> 0.0 <= s.alpha
  {
    var cs := AllCandidates(data, labels, weights);
    AllCandidatesFacts(data, labels, weights);
    match ScanBest(cs)
    case None => NewStump()
    case Some(k) =>
      assert WellFormedCandidate(data, weights, cs[k]);
      StumpOf(cs[k], ln)
  }

  /** Training picks a candidate that is an argmin of the corrected error, the
      first one in feature-then-threshold order, and sets a threshold exactly when
      the data has at least one feature and one row. */
  lemma TrainedStumpIsBest(weights: seq<real>, data: Matrix, labels: seq<int>, ln: real -> real)
    requires data.Valid() && NonNegative(weights) && Sum(weights) <= 1.0
    ensures TrainedStump(weights, data, labels, ln).threshold.Some? <==> data.ncols > 0 && |data.rows| > 0
    ensures TrainedStump(weights, data, labels, ln).threshold.Some? ==>
      exists k :: FirstMinAt(AllCandidates(data, labels, weights), k)
        && 0.0 <= AllCandidates(data, labels, weights)[k].error <= 0.5
        && TrainedStump(weights, data, labels, ln) == StumpOf(AllCandidates(data, labels, weights)[k], ln)
  {
    var cs := AllCandidates(data, labels, weights);
    AllCandidatesFacts(data, labels, weights);
    if |cs| > 0 {
      ScanBestIsFirstMinimum(cs);
      var k := ScanBest(cs).value;
      assert WellFormedCandidate(data, weights, cs[k]);
    }
  }

  /** The candidate thresholds of the column 0, 1, 2, 3 are all four values. */
  lemma FourValueThresholds()
    ensures Thresholds([0.0, 1.0, 2.0, 3.0]) == [0.0, 1.0, 2.0, 3.0]
  {
    var col := [0.0, 1.0, 2.0, 3.0];
    assert QuantKey(0.0) == 0 && QuantKey(1.0) == 10000 && QuantKey(2.0) == 20000 && QuantKey(3.0) == 30000;
    assert UniqueFrom([3.0], QuantKey, {0, 10000, 20000}) == [3.0] by {
      assert [3.0][1..] == [];
    }
    assert UniqueFrom([2.0, 3.0], QuantKey, {0, 10000}) == [2.0, 3.0] by {
      assert [2.0, 3.0][1..] == [3.0] && {0, 10000} + {20000} == {0, 10000, 20000};
    }
    assert UniqueFrom([1.0, 2.0, 3.0], QuantKey, {0}) == [1.0, 2.0, 3.0] by {
      assert [1.0, 2.0, 3.0][1..] == [2.0, 3.0] && {0} + {10000} == {0, 10000};
    }
    assert col[1..] == [1.0, 2.0, 3.0] && {} + {QuantKey(0.0)} == {0};
  }

  /** On values 0, 1, 2, 3 labelled -1, -1, +1, +1 with equal weights, the
      thresholds 0, 1, 2, 3 misclassify weight 0.5, 0.25, 0 and 0.25. */
  lemma FourValueErrors()
    ensures var col, labels, w := [0.0, 1.0, 2.0, 3.0], [-1, -1, 1, 1], [0.25, 0.25, 0.25, 0.25];
      && WeightedError(labels, SplitPredictions(4, col, 0.0), w) == 0.5
      && WeightedError(labels, SplitPredictions(4, col, 1.0), w) == 0.25
      && WeightedError(labels, SplitPredictions(4, col, 2.0), w) == 0.0
      && WeightedError(labels, SplitPredictions(4, col, 3.0), w) == 0.25
  {
    var col, labels, w := [0.0, 1.0, 2.0, 3.0], [-1, -1, 1, 1], [0.25, 0.25, 0.25, 0.25];
    var p0, p1, p2, p3 := [1, 1, 1, 1], [-1, 1, 1, 1], [-1, -1, 1, 1], [-1, -1, -1, 1];
    assert SplitPredictions(4, col, 0.0) == p0 && SplitPredictions(4, col, 1.0) == p1;
    assert SplitPredictions(4, col, 2.0) == p2 && SplitPredictions(4, col, 3.0) == p3;
    assert MisclassifiedWeight(labels, p0, w, 2) == 0.5;
    assert MisclassifiedWeight(labels, p1, w, 2) == 0.25;
    assert MisclassifiedWeight(labels, p2, w, 2) == 0.0;
    assert MisclassifiedWeight(labels, p3, w, 2) == 0.0;
  }

  /** Evaluating each of those thresholds: only threshold 0 is no better than
      chance, and none is flipped. */
  lemma FourValueEvaluations()
    ensures var col, labels, w := [0.0, 1.0, 2.0, 3.0], [-1, -1, 1, 1], [0.25, 0.25, 0.25, 0.25];
      && Evaluate(0, col, 0.0, labels, w) == Candidate(0, 0.0, Positive, 0.5)
      && Evaluate(0, col, 1.0, labels, w) == Candidate(0, 1.0, Positive, 0.25)
      && Evaluate(0, col, 2.0, labels, w) == Candidate(0, 2.0, Positive, 0.0)
      && Evaluate(0, col, 3.0, labels, w) == Candidate(0, 3.0, Positive, 0.25)
  {
    FourValueErrors();
  }

  /** The candidates training examines on four samples with values 0, 1, 2, 3,
      labels -1, -1, +1, +1 and equal weights, in search order. */
  lemma FourSampleCandidates()
    ensures AllCandidates(Grid([[0.0], [1.0], [2.0], [3.0]], 1), [-1, -1, 1, 1], [0.25, 0.25, 0.25, 0.25])
      == [Candidate(0, 0.0, Positive, 0.5), Candidate(0, 1.0, Positive, 0.25),
          Candidate(0, 2.0, Positive, 0.0), Candidate(0, 3.0, Positive, 0.25)]
  {
    var data := Grid([[0.0], [1.0], [2.0], [3.0]], 1);
    var labels, weights := [-1, -1, 1, 1], [0.25, 0.25, 0.25, 0.25];
    var col := data.Column(0);
    assert col == [0.0, 1.0, 2.0, 3.0];
    FourValueThresholds();
    FourValueEvaluations();
    var fc := FeatureCandidates(data, 0, labels, weights);
    assert |fc| == 4;
    assert fc[0] == Evaluate(0, col, 0.0, labels, weights);
    assert fc[1] == Evaluate(0, col, 1.0, labels, weights);
    assert fc[2] == Evaluate(0, col, 2.0, labels, weights);
    assert fc[3] == Evaluate(0, col, 3.0, labels, weights);
    assert CandidatesBefore(data, 0, labels, weights) == [];
    assert AllCandidates(data, labels, weights) == [] + fc;
  }

  /** On those four samples training keeps threshold 2 -- the data value itself,
      not a point between 1 and 2 -- with positive polarity and error 0. */
  lemma FourSampleTraining(ln: real -> real)
    ensures var w := [0.25, 0.25, 0.25, 0.25];
      && Sum(w) == 1.0
      && TrainedStump(w, Grid([[0.0], [1.0], [2.0], [3.0]], 1), [-1, -1, 1, 1], ln)
           == Stump(Some(2.0), Positive, Alpha(0.0, ln), 0)
  {
    var data := Grid([[0.0], [1.0], [2.0], [3.0]], 1);
    var labels, weights := [-1, -1, 1, 1], [0.25, 0.25, 0.25, 0.25];
    SumConstant(weights, 0.25);
    FourSampleCandidates();
    var cs := AllCandidates(data, labels, weights);
    ScanBestIsFirstMinimum(cs);
    var k := ScanBest(cs).value;
    assert cs[k].error <= cs[2].error;
    assert k == 2;
    assert TrainedStump(weights, data, labels, ln) == StumpOf(cs[2], ln);
  }

  /** The stump trained on those four samples reproduces their labels. */
  lemma FourSamplePrediction(alpha: real)
    ensures Predict(Stump(Some(2.0), Positive, alpha, 0), Grid([[0.0], [1.0], [2.0], [3.0]], 1)) == [-1, -1, 1, 1]
  {
  }

  /** A trained stump uses an existing feature, and its threshold is one of that
      feature's values. */
  lemma TrainedStumpThreshold(weights: seq<real>, data: Matrix, labels: seq<int>, ln: real -> real)
    requires data.Valid() && NonNegative(weights) && Sum(weights) <= 1.0
    requires TrainedStump(weights, data, labels, ln).threshold.Some?
    ensures TrainedStump(weights, data, labels, ln).featureId < data.ncols
    ensures exists i :: 0 <= i < |data.rows| && ThresholdAt(data, i, TrainedStump(weights, data, labels, ln))
  {
    var cs := AllCandidates(data, labels, weights);
    AllCandidatesFacts(data, labels, weights);
    var k := ScanBest(cs).value;
    assert WellFormedCandidate(data, weights, cs[k]);
    var i :| 0 <= i < |data.rows| && data.rows[i][cs[k].featureId] == cs[k].threshold;
    assert ThresholdAt(data, i, TrainedStump(weights, data, labels, ln));
  }

  /** Row i holds exactly the stump's threshold in the stump's feature column. */
  ghost predicate ThresholdAt(data: Matrix, i: int, s: Stump)
    requires data.Valid() && 0 <= i < |data.rows|
  {
    s.threshold.Some? && s.featureId < data.ncols && data.rows[i][s.featureId] == s.threshold.value
  }

  /** Candidate and running best as the search keeps them. */
  ghost predicate Tracks(seen: seq<Candidate>, lowestErr: Option<real>, best: Stump) {
    match ScanBest(seen)
    case None => lowestErr.None? && best == NewStump()
    case Some(k) =>
      lowestErr == Some(seen[k].error)
      && best == Stump(Some(seen[k].threshold), seen[k].polarity, 0.0, seen[k].featureId)
  }

  /** Lines 124-146, the work for one threshold: the split predictions, their
      weighted error, and the polarity flip when that error exceeds one half. */
  method EvaluateThreshold(f: nat, col: seq<real>, t: real, labels: seq<int>, weights: seq<real>)
    returns (error: real, p: Polarity)
    ensures Candidate(f, t, p, error) == Evaluate(f, col, t, labels, weights)
  {
    var preds := ThresholdPredictions(|labels|, col, t);
    error := WeightedError(labels, preds, weights);
    p := Positive;
    if error > 0.5 {
      error := 1.0 - error;
      p := Negative;
    }
  }

  /** The body of the search for one feature (lines 111-161): examine every
      candidate threshold of column f in order, keeping the running best. */
  method SearchFeature(data: Matrix, f: nat, labels: seq<int>, weights: seq<real>,
                       lowestErr: Option<real>, best: Stump, ghost seen: seq<Candidate>)
    returns (lowestErr': Option<real>, best': Stump)
    requires data.Valid() && f < data.ncols
    requires Tracks(seen, lowestErr, best)
    ensures Tracks(seen + FeatureCandidates(data, f, labels, weights), lowestErr', best')
  {
    lowestErr', best' := lowestErr, best;
    var col := data.Column(f);
    var ts := Thresholds(col);
    ghost var fc := FeatureCandidates(data, f, labels, weights);
    ghost var now := seen;
    var k := 0;
    while k < |ts|
      invariant 0 <= k <= |ts|
      invariant now == seen + fc[..k]
      invariant Tracks(now, lowestErr', best')
    {
      var t := ts[k];
      var error, p := EvaluateThreshold(f, col, t, labels, weights);
      ghost var c := Candidate(f, t, p, error);
      FeatureCandidateAt(data, f, labels, weights, k);
      ScanBestStep(now, c);
      if lowestErr'.None? || error < lowestErr'.value {
        lowestErr' := Some(error);
        best' := best'.(polarity := p, threshold := Some(t), featureId := f);
      }
      PrefixStep(fc, k);
      now := now + [c];
      k := k + 1;
    }
    PrefixStep(fc, |ts|);
  }

  /** Candidate k of feature f is the evaluation of threshold k of its column. */
  lemma FeatureCandidateAt(data: Matrix, f: nat, labels: seq<int>, weights: seq<real>, k: nat)
    requires data.Valid() && f < data.ncols && k < |Thresholds(data.Column(f))|
    ensures |FeatureCandidates(data, f, labels, weights)| == |Thresholds(data.Column(f))|
    ensures FeatureCandidates(data, f, labels, weights)[k]
      == Evaluate(f, data.Column(f), Thresholds(data.Column(f))[k], labels, weights)
  {
  }

  /** The prefix of length k + 1 extends the prefix of length k by element k;
      the prefix of full length is the whole sequence. */
  lemma PrefixStep<T>(s: seq<T>, k: nat)
    requires k <= |s|
    ensures k < |s| ==> s[..k + 1] == s[..k] + [s[k]]
    ensures k == |s| ==> s[..k] == s
  {
    if k < |s| {
      assert s[..k + 1] == s[..k] + [s[k]];
    }
  }

  /** `train`: the search over every feature and every candidate threshold, run
      sequentially (features in index order, thresholds in candidate order), with
      alpha set from the lowest error at the end. */
  method Train(weights: seq<real>, ds: Dataset, ln: real -> real) returns (s: Stump)
    requires ds.Valid() && NonNegative(weights) && Sum(weights) <= 1.0
    ensures s == TrainedStump(weights, ds.data, ds.labels, ln)
  {
    var data, labels := ds.data, ds.labels;
    var best := NewStump();
    var lowestErr: Option<real> := None;
    ghost var seen: seq<Candidate> := [];
    var f := 0;
    while f < data.ncols
      invariant 0 <= f <= data.ncols
      invariant seen == CandidatesBefore(data, f, labels, weights)
      invariant Tracks(seen, lowestErr, best)
    {
      lowestErr, best := SearchFeature(data, f, labels, weights, lowestErr, best, seen);
      seen := seen + FeatureCandidates(data, f, labels, weights);
      f := f + 1;
    }
    AllCandidatesFacts(data, labels, weights);
    if lowestErr.Some? {
      assert WellFormedCandidate(data, weights, seen[ScanBest(seen).value]);
      best := best.SetAlpha(Alpha(lowestErr.value, ln));
    }
    s := best;
  }

  // ---------------------------------------------------------------------------
  // The parallel search's update, as the source writes it

  /** The state the threads of the parallel search share: the lowest error
      (behind one mutex) and the stump (behind another). */
  datatype SharedBest = SharedBest(lowestErr: Option<real>, stump: Stump)

  /** Lines 149-154, under the error lock only: an error below the lowest so far
      becomes the lowest, and the thread may then go on to write the stump. The
      stump itself is not touched here. */
  function ClaimLowest(st: SharedBest, error: real): (r: (SharedBest, bool))
    ensures r.1 <==> st.lowestErr.None? || error < st.lowestErr.value
    ensures r.0.stump == st.stump
    ensures r.0.lowestErr == if r.1 then Some(error) else st.lowestErr
  {
    if st.lowestErr.None? || error < st.lowestErr.value then (st.(lowestErr := Some(error)), true)
    else (st, false)
  }

  /** Lines 155-158, under the stump lock only, after the error lock was dropped:
      the candidate's polarity, threshold and feature overwrite the stump's; the
      lowest error is not touched and the alpha is kept. */
  function WriteStump(st: SharedBest, c: Candidate): (r: SharedBest)
    ensures r.lowestErr == st.lowestErr
    ensures r.stump.threshold == Some(c.threshold) && r.stump.polarity == c.polarity
    ensures r.stump.featureId == c.featureId && r.stump.alpha == st.stump.alpha
  {
    st.(stump := st.stump.(polarity := c.polarity, threshold := Some(c.threshold), featureId := c.featureId))
  }

  /** Two threads of the parallel search examine a (error 0.3) and b (error 0.2).
      A claims, B claims, B writes, A writes: both claims succeed, and the stump
      kept is a's while the lowest error, from which the alpha is then computed,
      is b's. The stump kept is not the argmin of the two candidates. */
  lemma InterleavedUpdateKeepsWorseStump()
    ensures
      var a := Candidate(0, 1.0, Positive, 0.3);
      var b := Candidate(0, 2.0, Positive, 0.2);
      var claimA := ClaimLowest(SharedBest(None, NewStump()), a.error);
      var claimB := ClaimLowest(claimA.0, b.error);
      var final := WriteStump(WriteStump(claimB.0, b), a);
      && claimA.1 && claimB.1
      && final.stump.threshold == Some(a.threshold)
      && final.lowestErr == Some(b.error)
      && b.error < a.error
      && !FirstMinAt([a, b], 0) && !FirstMinAt([b, a], 1)
  {
    var a := Candidate(0, 1.0, Positive, 0.3);
    var b := Candidate(0, 2.0, Positive, 0.2);
    assert [a, b][1].error < [a, b][0].error;
    assert [b, a][0].error < [b, a][1].error;
  }

  /** On its own training data a stump votes the split predictions of its
      threshold, negated for the Negative polarity. */
  lemma PredictOnColumn(s: Stump, data: Matrix)
    requires data.Valid() && s.threshold.Some? && s.featureId < data.ncols
    ensures s.polarity == Positive ==>
      Predict(s, data) == SplitPredictions(|data.rows|, data.Column(s.featureId), s.threshold.value)
    ensures s.polarity == Negative ==>
      Predict(s, data) == Negated(SplitPredictions(|data.rows|, data.Column(s.featureId), s.threshold.value))
  {
  }

  /** When the labels are ±1 (an explicit assumption) and the weights form a
      distribution over the rows, the trained stump's own votes on the training
      data have weighted error no larger than any examined candidate's corrected
      error, hence at most one half. */
  lemma TrainedStumpError(weights: seq<real>, data: Matrix, labels: seq<int>, ln: real -> real)
    requires data.Valid() && NonNegative(weights) && Sum(weights) == 1.0
    requires |labels| == |data.rows| == |weights|
    requires forall i :: 0 <= i < |labels| ==> labels[i] == 1 || labels[i] == -1
    requires TrainedStump(weights, data, labels, ln).threshold.Some?
    ensures var s := TrainedStump(weights, data, labels, ln);
      s.featureId < data.ncols && WeightedError(labels, Predict(s, data), weights) <= 0.5
    ensures var s := TrainedStump(weights, data, labels, ln);
      forall k :: 0 <= k < |AllCandidates(data, labels, weights)| ==>
        s.featureId < data.ncols
        && WeightedError(labels, Predict(s, data), weights) <= AllCandidates(data, labels, weights)[k].error
  {
    var s := TrainedStump(weights, data, labels, ln);
    var cs := AllCandidates(data, labels, weights);
    AllCandidatesFacts(data, labels, weights);
    ScanBestIsFirstMinimum(cs);
    var k := ScanBest(cs).value;
    var c := cs[k];
    assert WellFormedCandidate(data, weights, c);
    CandidateAt(data, labels, weights, k);
    var col := data.Column(c.featureId);
    var raw := SplitPredictions(|labels|, col, c.threshold);
    PredictOnColumn(s, data);
    if c.polarity == Negative {
      ErrorOfNegated(labels, raw, weights);
    }
    assert WeightedError(labels, Predict(s, data), weights) == c.error;
  }

  /** Candidate k of the search is the evaluation of its own feature and threshold. */
  lemma CandidateAt(data: Matrix, labels: seq<int>, weights: seq<real>, k: nat)
    requires data.Valid() && k < |AllCandidates(data, labels, weights)|
    ensures var c := AllCandidates(data, labels, weights)[k];
      c.featureId < data.ncols
      && c == Evaluate(c.featureId, data.Column(c.featureId), c.threshold, labels, weights)
  {
    var f, q := CandidateOrigin(data, data.ncols, labels, weights, k);
    FeatureCandidateAt(data, f, labels, weights, q);
  }

  /** Position k of the candidates of features 0 .. nf-1 is candidate q of some
      feature f below nf. */
  lemma {:induction false} CandidateOrigin(data: Matrix, nf: nat, labels: seq<int>, weights: seq<real>, k: nat)
      returns (f: nat, q: nat)
    requires data.Valid() && nf <= data.ncols && k < |CandidatesBefore(data, nf, labels, weights)|
    ensures f < nf && q < |FeatureCandidates(data, f, labels, weights)|
    ensures CandidatesBefore(data, nf, labels, weights)[k] == FeatureCandidates(data, f, labels, weights)[q]
  {
    CandidatesBeforeIndex(data, nf, labels, weights, k);
    var before := CandidatesBefore(data, nf - 1, labels, weights);
    if k < |before| {
      f, q := CandidateOrigin(data, nf - 1, labels, weights, k);
    } else {
      f, q := nf - 1, k - |before|;
    }
  }

  /** Position k of the candidates of features 0 .. nf-1 comes from the earlier
      features or from feature nf-1. */
  lemma CandidatesBeforeIndex(data: Matrix, nf: nat, labels: seq<int>, weights: seq<real>, k: nat)
    requires data.Valid() && nf <= data.ncols && k < |CandidatesBefore(data, nf, labels, weights)|
    ensures 0 < nf
    ensures var before := CandidatesBefore(data, nf - 1, labels, weights);
      CandidatesBefore(data, nf, labels, weights)[k]
        == if k < |before| then before[k] else FeatureCandidates(data, nf - 1, labels, weights)[k - |before|]
  {
  }
}
