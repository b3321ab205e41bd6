/** The boosting model: rounds of stump training with sample reweighting, and
    prediction by the sign of the alpha-weighted vote (src/adaboost.rs). */
module Adaboost {
  import opened Wrappers
  import opened Grids
  import opened RealSeq
  import opened Datasets
  import opened Stumps

  /** Why `fit` stops (each is a panic in the source, or a read of a released buffer). */
  datatype FitError = DatasetReleased | LabelCountMismatch | ThresholdUnset

  /** Why `get_prediction` stops. */
  datatype PredictError = FeatureCountMismatch

  /** The facts about the exponential function the model relies on. */
  ghost predicate IsExp(exp: real -> real) {
    forall x :: 0.0 < exp(x)
  }

  /** Sample weights: all positive, summing to one. */
  ghost predicate IsDistribution(w: seq<real>) {
    RealSeq.Positive(w) && Sum(w) == 1.0
  }

  /** Line 94: every one of the n samples weighs 1/n. */
  function Uniform(n: nat): (w: seq<real>)
    ensures |w| == n
  {
    seq(n, i requires 0 <= i < n => 1.0 / n as real)
  }

  /** The initial weights of a non-empty sample are a distribution. */
  lemma UniformIsDistribution(n: nat)
    requires n > 0
    ensures IsDistribution(Uniform(n))
  {
    SumConstant(Uniform(n), 1.0 / n as real);
  }

  /** Line 109: the factor exp(-alpha * label * prediction) applied to one weight.
      For ±1 labels and predictions, a right prediction scales its weight by
      exp(-alpha) and a wrong one by exp(alpha); the factor is always positive. */
  function Factor(alpha: real, y: int, p: int, exp: real -> real): (r: real)
    ensures IsExp(exp) ==> 0.0 < r
    ensures (y == 1 || y == -1) && (p == 1 || p == -1) ==> r == if y == p then exp(-alpha) else exp(alpha)
  {
    var e := -alpha * (y * p) as real;
    assert (y == 1 && p == 1) || (y == -1 && p == -1) ==> e == -alpha;
    assert (y == 1 && p == -1) || (y == -1 && p == 1) ==> e == alpha;
    exp(e)
  }

  /** Line 109: each weight multiplied by its factor. */
  function Reweighted(w: seq<real>, labels: seq<int>, preds: seq<int>, alpha: real, exp: real -> real): (r: seq<real>)
    requires |labels| == |w| && |preds| == |w|
    ensures |r| == |w|
  {
    seq(|w|, i requires 0 <= i < |w| => w[i] * Factor(alpha, labels[i], preds[i], exp))
  }

  /** Entry i of the reweighted sequence. */
  lemma ReweightedAt(w: seq<real>, labels: seq<int>, preds: seq<int>, alpha: real, exp: real -> real, i: nat)
    requires |labels| == |w| && |preds| == |w| && i < |w|
    ensures Reweighted(w, labels, preds, alpha, exp)[i] == w[i] * Factor(alpha, labels[i], preds[i], exp)
  {
  }

  /** Positive weights stay positive under reweighting. */
  lemma ReweightedPositive(w: seq<real>, labels: seq<int>, preds: seq<int>, alpha: real, exp: real -> real)
    requires |labels| == |w| && |preds| == |w| && RealSeq.Positive(w) && IsExp(exp)
    ensures RealSeq.Positive(Reweighted(w, labels, preds, alpha, exp))
  {
    var r := Reweighted(w, labels, preds, alpha, exp);
    forall i | 0 <= i < |w| ensures 0.0 < r[i] {
      assert 0.0 < Factor(alpha, labels[i], preds[i], exp);
    }
  }

  /** Lines 103-115: reweight, then divide every weight by the sum of the reweighted
      weights. */
  function NextWeights(w: seq<real>, labels: seq<int>, preds: seq<int>, alpha: real, exp: real -> real): (r: seq<real>)
    requires |labels| == |w| && |preds| == |w| && |w| > 0 && RealSeq.Positive(w) && IsExp(exp)
    ensures |r| == |w|
  {
    var v := Reweighted(w, labels, preds, alpha, exp);
    ReweightedPositive(w, labels, preds, alpha, exp);
    SumPositive(v);
    seq(|v|, i requires 0 <= i < |v| => v[i] / Sum(v))
  }

  /** Each round leaves the weights a distribution of the same length, whatever
      the stump's alpha and predictions. */
  lemma NextWeightsIsDistribution(w: seq<real>, labels: seq<int>, preds: seq<int>, alpha: real, exp: real -> real)
    requires |labels| == |w| && |preds| == |w| && |w| > 0 && RealSeq.Positive(w) && IsExp(exp)
    ensures IsDistribution(NextWeights(w, labels, preds, alpha, exp))
  {
    var v := Reweighted(w, labels, preds, alpha, exp);
    ReweightedPositive(w, labels, preds, alpha, exp);
    SumPositive(v);
    var r := NextWeights(w, labels, preds, alpha, exp);
    SumDivided(v, r, Sum(v));
    assert Sum(v) / Sum(v) == 1.0;
    forall i | 0 <= i < |r| ensures 0.0 < r[i] {
      assert r[i] == v[i] / Sum(v);
    }
  }

  /** Every stump has a threshold and reads a column below `width`. */
  ghost predicate Usable(stumps: seq<Stump>, width: nat) {
    forall k :: 0 <= k < |stumps| ==> stumps[k].threshold.Some? && stumps[k].featureId < width
  }

  /** The first n stumps all have a non-negative alpha and all vote c on the row. */
  ghost predicate Unanimous(stumps: seq<Stump>, n: nat, row: seq<real>, c: int)
    requires Usable(stumps, |row|) && n <= |stumps|
  {
    forall k :: 0 <= k < n ==> 0.0 <= stumps[k].alpha && PredictValue(stumps[k], row[stumps[k].featureId]) == c
  }

  /** The vote of the first n stumps on one row: the sum over them of the
      stump's ±1 prediction times its alpha. */
  function PartialVote(stumps: seq<Stump>, n: nat, row: seq<real>): real
    requires Usable(stumps, |row|) && n <= |stumps|
  {
    if n == 0 then 0.0
    else
      var s := stumps[n - 1];
      PartialVote(stumps, n - 1, row) + PredictValue(s, row[s.featureId]) as real * s.alpha
  }

  /** When the first n stumps have non-negative alphas and all vote +1 (or all
      -1) on a row, their summed vote is at least 0 (or at most 0). */
  lemma {:induction false} UnanimousPartialVote(stumps: seq<Stump>, n: nat, row: seq<real>)
    requires Usable(stumps, |row|) && n <= |stumps|
    ensures Unanimous(stumps, n, row, 1) ==> 0.0 <= PartialVote(stumps, n, row)
    ensures Unanimous(stumps, n, row, -1) ==> PartialVote(stumps, n, row) <= 0.0
  {
    if n > 0 {
      UnanimousPartialVote(stumps, n - 1, row);
    }
  }

  /** The ensemble's vote on one row. When every stump has a non-negative alpha
      and they all predict the same class, the vote has that class's sign. */
  function Vote(stumps: seq<Stump>, row: seq<real>): (v: real)
    requires Usable(stumps, |row|)
    ensures Unanimous(stumps, |stumps|, row, 1) ==> 0.0 <= v
    ensures Unanimous(stumps, |stumps|, row, -1) ==> v <= 0.0
  {
    UnanimousPartialVote(stumps, |stumps|, row);
    PartialVote(stumps, |stumps|, row)
  }

  lemma UsableConcat(a: seq<Stump>, b: seq<Stump>, width: nat)
    requires Usable(a, width) && Usable(b, width)
    ensures Usable(a + b, width)
  {
    forall k | 0 <= k < |a + b| ensures (a + b)[k].threshold.Some? && (a + b)[k].featureId < width {
      if k < |a| {
        assert (a + b)[k] == a[k];
      } else {
        assert (a + b)[k] == b[k - |a|];
      }
    }
  }

  /** Appending stumps does not change the vote of the first n. */
  lemma {:induction false} PartialVoteOfPrefix(a: seq<Stump>, b: seq<Stump>, n: nat, row: seq<real>)
    requires Usable(a, |row|) && Usable(b, |row|) && n <= |a|
    ensures Usable(a + b, |row|)
    ensures PartialVote(a + b, n, row) == PartialVote(a, n, row)
  {
    UsableConcat(a, b, |row|);
    if n > 0 {
      PartialVoteOfPrefix(a, b, n - 1, row);
      assert (a + b)[n - 1] == a[n - 1];
    }
  }

  /** The vote of all of a and the first m of b is a's vote plus the first m of b's. */
  lemma {:induction false} PartialVoteOfSuffix(a: seq<Stump>, b: seq<Stump>, m: nat, row: seq<real>)
    requires Usable(a, |row|) && Usable(b, |row|) && m <= |b|
    ensures Usable(a + b, |row|)
    ensures PartialVote(a + b, |a| + m, row) == Vote(a, row) + PartialVote(b, m, row)
  {
    UsableConcat(a, b, |row|);
    if m == 0 {
      PartialVoteOfPrefix(a, b, |a|, row);
    } else {
      PartialVoteOfSuffix(a, b, m - 1, row);
      assert (a + b)[|a| + m - 1] == b[m - 1];
    }
  }

  /** Splitting the ensemble splits the vote: the sum may be accumulated in any
      grouping. */
  lemma VoteOfConcat(a: seq<Stump>, b: seq<Stump>, row: seq<real>)
    requires Usable(a, |row|) && Usable(b, |row|)
    ensures Usable(a + b, |row|)
    ensures Vote(a + b, row) == Vote(a, row) + Vote(b, row)
  {
    PartialVoteOfSuffix(a, b, |b|, row);
  }

  /** The order of the stumps does not change the vote. */
  lemma VoteOrderIrrelevant(a: seq<Stump>, b: seq<Stump>, row: seq<real>)
    requires Usable(a, |row|) && Usable(b, |row|)
    ensures Usable(a + b, |row|) && Usable(b + a, |row|)
    ensures Vote(a + b, row) == Vote(b + a, row)
  {
    VoteOfConcat(a, b, row);
    VoteOfConcat(b, a, row);
  }

  /** Lines 55-62: +1 for a vote of at least zero, -1 below. */
  function Sign(v: real): (p: int)
    ensures p == 1 || p == -1
    ensures p == 1 <==> v >= 0.0
  {
    if v >= 0.0 then 1 else -1
  }

  /** Lines 42-48: one stump's predictions, each multiplied by its alpha. Entry i
      is the stump's vote on row i, scaled: alpha when it votes +1, -alpha when
      it votes -1. */
  function ScaledPredictions(s: Stump, samples: Matrix): (r: seq<real>)
    requires samples.Valid() && s.threshold.Some? && s.featureId < samples.ncols
    ensures |r| == |samples.rows|
    ensures forall i :: 0 <= i < |r| ==> r[i] == Predict(s, samples)[i] as real * s.alpha
    ensures forall i :: 0 <= i < |r| ==> r[i] == PredictValue(s, samples.rows[i][s.featureId]) as real * s.alpha
  {
    var p := Predict(s, samples);
    seq(|p|, i requires 0 <= i < |p| => p[i] as real * s.alpha)
  }

  /** Line 53: adds p to y entry by entry, in place. */
  method AddInPlace(y: array<real>, p: seq<real>)
    requires |p| == y.Length
    modifies y
    ensures forall i :: 0 <= i < y.Length ==> y[i] == old(y[i]) + p[i]
  {
    var i := 0;
    while i < y.Length
      invariant 0 <= i <= y.Length
      invariant forall j :: 0 <= j < i ==> y[j] == old(y[j]) + p[j]
      invariant forall j :: i <= j < y.Length ==> y[j] == old(y[j])
    {
      y[i] := y[i] + p[i];
      i := i + 1;
    }
  }

  /** With no stumps every sample gets +1: the empty vote is 0 and a tie goes to +1. */
  lemma EmptyEnsembleVotesPositive(row: seq<real>)
    ensures Usable([], |row|) && Sign(Vote([], row)) == 1
  {
  }

  /** The weights and stumps of the boosting rounds: round k trains stump k on
      weights k, and weights k+1 are weights k reweighted by that stump's alpha
      and predictions, then renormalised. All weights are distributions. */
  ghost predicate Boosted(rounds: seq<seq<real>>, stumps: seq<Stump>, data: Matrix, labels: seq<int>,
                          ln: real -> real, exp: real -> real)
  {
    && data.Valid() && IsExp(exp)
    && |rounds| == |stumps| + 1
    && |data.rows| == |labels|
    && (forall k :: 0 <= k < |rounds| ==> |rounds[k]| == |labels|)
    && (|labels| > 0 ==> forall k :: 0 <= k < |rounds| ==> IsDistribution(rounds[k]))
    && (|stumps| > 0 ==> |labels| > 0)
    && (forall k :: 0 <= k < |stumps| ==>
          && |rounds[k]| == |labels| && IsDistribution(rounds[k])
          && stumps[k] == TrainedStump(rounds[k], data, labels, ln)
          && stumps[k].threshold.Some? && stumps[k].featureId < data.ncols
          && rounds[k + 1] == NextWeights(rounds[k], labels, Predict(stumps[k], data), stumps[k].alpha, exp))
  }

  /** Every stump of a boosting history can vote on a row of the data. */
  lemma BoostedUsable(rounds: seq<seq<real>>, stumps: seq<Stump>, data: Matrix, labels: seq<int>,
                      ln: real -> real, exp: real -> real)
    requires Boosted(rounds, stumps, data, labels, ln, exp)
    ensures Usable(stumps, data.ncols)
  {
  }

  /** Before any round: the uniform weights and no stumps. */
  lemma BoostedStart(data: Matrix, labels: seq<int>, ln: real -> real, exp: real -> real)
    requires data.Valid() && IsExp(exp) && |data.rows| == |labels|
    ensures Boosted([Uniform(|labels|)], [], data, labels, ln, exp)
  {
    if |labels| > 0 {
      UniformIsDistribution(|labels|);
    }
  }

  /** One more round: the stump trained on the last weights, and those weights
      reweighted by it. */
  lemma BoostedStep(rounds: seq<seq<real>>, stumps: seq<Stump>, data: Matrix, labels: seq<int>,
                    ln: real -> real, exp: real -> real, s: Stump, next: seq<real>)
    requires Boosted(rounds, stumps, data, labels, ln, exp) && |labels| > 0
    requires s == TrainedStump(rounds[|rounds| - 1], data, labels, ln)
    requires s.threshold.Some? && s.featureId < data.ncols
    requires next == NextWeights(rounds[|rounds| - 1], labels, Predict(s, data), s.alpha, exp)
    ensures Boosted(rounds + [next], stumps + [s], data, labels, ln, exp)
  {
    var w := rounds[|rounds| - 1];
    NextWeightsIsDistribution(w, labels, Predict(s, data), s.alpha, exp);
    var rounds', stumps' := rounds + [next], stumps + [s];
    forall k | 0 <= k < |stumps'|
      ensures stumps'[k] == TrainedStump(rounds'[k], data, labels, ln)
      ensures rounds'[k + 1] == NextWeights(rounds'[k], labels, Predict(stumps'[k], data), stumps'[k].alpha, exp)
    {
      if k < |stumps| {
        assert rounds'[k] == rounds[k] && rounds'[k + 1] == rounds[k + 1] && stumps'[k] == stumps[k];
      }
    }
  }

  /** Lines 104-111: multiplies every weight by its factor in place and returns
      the sum of the results. */
  method ScaleInPlace(weights: array<real>, labels: seq<int>, preds: seq<int>, alpha: real, exp: real -> real)
    returns (sumOfWeights: real)
    requires weights.Length == |labels| == |preds|
    modifies weights
    ensures weights[..] == Reweighted(old(weights[..]), labels, preds, alpha, exp)
    ensures sumOfWeights == Sum(weights[..])
  {
    ghost var original := weights[..];
    ghost var scaled := Reweighted(original, labels, preds, alpha, exp);
    var n := weights.Length;
    sumOfWeights := 0.0;
    var j := 0;
    while j < n
      invariant 0 <= j <= n
      invariant forall q :: 0 <= q < j ==> weights[q] == scaled[q]
      invariant forall q :: j <= q < n ==> weights[q] == original[q]
      invariant sumOfWeights == Sum(scaled[..j])
    {
      ReweightedAt(original, labels, preds, alpha, exp, j);
      weights[j] := weights[j] * Factor(alpha, labels[j], preds[j], exp);
      SumPrefixStep(scaled, j);
      sumOfWeights := sumOfWeights + weights[j];
      j := j + 1;
    }
    assert scaled[..n] == scaled;
  }

  /** Lines 113-115: divides every weight by d in place. */
  method DivideInPlace(weights: array<real>, d: real)
    requires d != 0.0
    modifies weights
    ensures forall q :: 0 <= q < weights.Length ==> weights[q] == old(weights[q]) / d
  {
    var j := 0;
    while j < weights.Length
      invariant 0 <= j <= weights.Length
      invariant forall q :: 0 <= q < j ==> weights[q] == old(weights[q]) / d
      invariant forall q :: j <= q < weights.Length ==> weights[q] == old(weights[q])
    {
      weights[j] := weights[j] / d;
      j := j + 1;
    }
  }

  /** Lines 103-115: multiply every weight by its factor while summing the
      results, then divide every weight by that sum, both in place. */
  method ReweightInPlace(weights: array<real>, labels: seq<int>, preds: seq<int>, alpha: real, exp: real -> real)
    requires weights.Length == |labels| == |preds| > 0 && RealSeq.Positive(weights[..]) && IsExp(exp)
    modifies weights
    ensures weights[..] == NextWeights(old(weights[..]), labels, preds, alpha, exp)
  {
    ghost var before := weights[..];
    var sumOfWeights := ScaleInPlace(weights, labels, preds, alpha, exp);
    ReweightedPositive(before, labels, preds, alpha, exp);
    SumPositive(weights[..]);
    DivideInPlace(weights, sumOfWeights);
  }

  /** With a monotone logarithm, every stump the rounds produce has a
      non-negative alpha, so no stump votes against its own predictions. */
  lemma BoostedAlphasNonNegative(rounds: seq<seq<real>>, stumps: seq<Stump>, data: Matrix, labels: seq<int>,
                                 ln: real -> real, exp: real -> real)
    requires Boosted(rounds, stumps, data, labels, ln, exp) && IsLn(ln)
    ensures forall k :: 0 <= k < |stumps| ==> 0.0 <= stumps[k].alpha
  {
    forall k | 0 <= k < |stumps| ensures 0.0 <= stumps[k].alpha {
      assert stumps[k] == TrainedStump(rounds[k], data, labels, ln);
    }
  }

  /** The body of one round of `fit`: train a stump on the current weights; a
      stump without a threshold ends the round; otherwise reweight in place. */
  method BoostingRound(weights: array<real>, ds: Dataset, ln: real -> real, exp: real -> real,
                       ghost rounds: seq<seq<real>>, ghost stumps: seq<Stump>) returns (stump: Stump)
    requires ds.Valid() && Boosted(rounds, stumps, ds.data, ds.labels, ln, exp)
    requires weights[..] == rounds[|rounds| - 1]
    modifies weights
    ensures stump.threshold.None? <==> ds.data.ncols == 0 || |ds.data.rows| == 0
    ensures stump.threshold.Some? ==>
      && stump.featureId < ds.data.ncols
      && Boosted(rounds + [weights[..]], stumps + [stump], ds.data, ds.labels, ln, exp)
  {
    stump := Train(weights[..], ds, ln);
    TrainedStumpIsBest(weights[..], ds.data, ds.labels, ln);
    if stump.threshold.None? {
      return;
    }
    TrainedStumpThreshold(weights[..], ds.data, ds.labels, ln);
    var preds := Predict(stump, ds.data);
    ghost var before := weights[..];
    ReweightInPlace(weights, ds.labels, preds, stump.GetAlpha(), exp);
    BoostedStep(rounds, stumps, ds.data, ds.labels, ln, exp, stump, weights[..]);
  }

  class AdaboostModel {
    var classifiers: seq<Stump>
    var dataset: Dataset
    var nClassifiers: nat

    ghost predicate Valid()
      reads this
    {
      dataset.Valid() && Usable(classifiers, dataset.NFeatures())
    }

    /** `AdaboostModel::new`: no classifiers yet. */
    constructor (nClassifiers: nat, dataset: Dataset)
      requires dataset.Valid()
      ensures Valid()
      ensures this.classifiers == [] && this.dataset == dataset && this.nClassifiers == nClassifiers
    {
      this.classifiers := [];
      this.dataset := dataset;
      this.nClassifiers := nClassifiers;
    }

    /** `get_prediction`: one ±1 value per sample row, +1 exactly when the
        alpha-weighted vote of the ensemble is at least zero; a sample width other
        than the model's feature count is an error. */
    method GetPrediction(samples: Matrix) returns (r: Result<seq<int>, PredictError>)
      requires Valid() && samples.Valid()
      ensures samples.ncols != dataset.NFeatures() ==> r == Err(FeatureCountMismatch)
      ensures samples.ncols == dataset.NFeatures() ==>
        && r.Ok? && |r.value| == |samples.rows|
        && forall i :: 0 <= i < |samples.rows| ==>
             (r.value[i] == 1 || r.value[i] == -1) && (r.value[i] == 1 <==> Vote(classifiers, samples.rows[i]) >= 0.0)
    {
      if samples.ncols != dataset.NFeatures() {
        return Err(FeatureCountMismatch);
      }
      var n := |samples.rows|;
      // lines 40-49: each stump's predictions scaled by its alpha
      var cs := classifiers;
      var predicts := seq(|cs|, k requires 0 <= k < |cs| => ScaledPredictions(cs[k], samples));
      // lines 51-54: accumulate them into one running sum per sample
      var yPred := new real[n](_ => 0.0);
      var k := 0;
      while k < |predicts|
        invariant 0 <= k <= |cs|
        invariant forall i :: 0 <= i < n ==> yPred[i] == PartialVote(cs, k, samples.rows[i])
      {
        AddInPlace(yPred, predicts[k]);
        k := k + 1;
      }
      var votes := yPred[..];
      r := Ok(seq(n, i requires 0 <= i < n => Sign(votes[i])));
    }

    /** `fit`: checks the label count, starts from uniform weights and runs exactly
        `nClassifiers` rounds; each round trains a stump on the current weights,
        reweights every sample in place, renormalises, and appends the stump.
        The dataset is marked released at the end. */
    method Fit(exp: real -> real, ln: real -> real) returns (r: Result<(), FitError>, ghost rounds: seq<seq<real>>)
      requires Valid() && IsExp(exp)
      modifies this
      ensures Valid() && nClassifiers == old(nClassifiers)
      ensures old(dataset.released) ==> r == Err(DatasetReleased)
      ensures !old(dataset.released) && |old(dataset.labels)| != |old(dataset.data.rows)| ==>
        r == Err(LabelCountMismatch)
      ensures r == Err(ThresholdUnset) <==>
        && !old(dataset.released) && |old(dataset.labels)| == |old(dataset.data.rows)|
        && nClassifiers > 0 && (old(dataset.data.ncols) == 0 || |old(dataset.data.rows)| == 0)
      ensures r.Ok? <==>
        && !old(dataset.released) && |old(dataset.labels)| == |old(dataset.data.rows)|
        && (nClassifiers == 0 || (old(dataset.data.ncols) > 0 && |old(dataset.data.rows)| > 0))
      ensures r.Ok? ==>
        && dataset == old(dataset).(released := true)
        && |classifiers| == |old(classifiers)| + nClassifiers
        && classifiers[..|old(classifiers)|] == old(classifiers)
        && Boosted(rounds, classifiers[|old(classifiers)|..], dataset.data, dataset.labels, ln, exp)
        && rounds[0] == Uniform(|dataset.labels|)
    {
      rounds := [];
      if dataset.released {
        return Err(DatasetReleased), rounds;
      }
      var n := |dataset.data.rows|;
      var labels := dataset.labels;
      if |labels| != n {
        return Err(LabelCountMismatch), rounds;
      }
      var data := dataset.data;
      var weights := new real[n](i requires 0 <= i < n => 1.0 / n as real);
      assert weights[..] == Uniform(n);
      rounds := [weights[..]];
      BoostedStart(data, labels, ln, exp);
      ghost var added: seq<Stump> := [];
      var round := 0;
      while round < nClassifiers
        invariant 0 <= round <= nClassifiers
        invariant dataset == old(dataset) && nClassifiers == old(nClassifiers)
        invariant |added| == round && classifiers == old(classifiers) + added
        invariant Boosted(rounds, added, data, labels, ln, exp)
        invariant rounds[0] == Uniform(n)
        invariant weights[..] == rounds[round]
        invariant round > 0 ==> data.ncols > 0 && n > 0
      {
        var stump := BoostingRound(weights, dataset, ln, exp, rounds, added);
        if stump.threshold.None? {
          BoostedUsable(rounds, added, data, labels, ln, exp);
          UsableConcat(old(classifiers), added, data.ncols);
          return Err(ThresholdUnset), rounds;
        }
        classifiers := classifiers + [stump];
        added := added + [stump];
        rounds := rounds + [weights[..]];
        round := round + 1;
      }
      BoostedUsable(rounds, added, data, labels, ln, exp);
      UsableConcat(old(classifiers), added, data.ncols);
      assert classifiers[|old(classifiers)|..] == added;
      dataset := dataset.(released := true);
      r := Ok(());
    }
  }
}
