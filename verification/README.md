# adaboost-rs in Dafny

A model of the AdaBoost classifier of `adaboost-rs` with decision stumps as weak
learners, and of the dataset builder that prepares its input.

- **Stumps** (`stump.dfy`, module `Stumps`) cover `src/weak_learner/stump.rs`.
  - A stump has a feature index, an optional threshold, a polarity and an alpha.
    It predicts `+polarity` for a feature value at or above the threshold and
    `-polarity` below it.
  - Training runs through every feature and every candidate threshold. The
    candidates are the column's values, deduplicated by the key
    `trunc(x * 10000)`.
  - For each candidate it builds the raw split predictions and sums the weights
    of the misclassified samples. When that error exceeds 0.5 it flips the
    polarity and takes `1 - error`.
  - It keeps the first candidate of least error and derives
    `alpha = 0.5 * ln((1 - e + ε) / (e + ε))`.
  - `Train` is the imperative search. `TrainedStump` is its specification: the
    first minimum of the list `AllCandidates`.
- **Boosting** (`adaboost.dfy`, module `Adaboost`) covers `src/adaboost.rs`.
  - `AdaboostModel.Fit` starts from uniform weights and runs `nClassifiers`
    rounds. Each round trains a stump, multiplies every weight in place by
    `exp(-alpha * label * prediction)`, renormalises, and appends the stump.
  - `Boosted` relates the sequence of weight vectors to the stumps.
  - `AdaboostModel.GetPrediction` accumulates the alpha-weighted votes and
    returns +1 where the vote is at least 0, else -1.
- **Dataset building** (`dataset.dfy`, module `Datasets`) covers
  `src/dataset.rs`. The `DatasetBuilder` class does the following:
  - stores a raw string table and its headers;
  - collects selected columns and a class column;
  - builds the numeric feature matrix and the selected headers;
  - encodes the class column as 0, 1, … in first-occurrence order, with a map
    from number to label and its inverse.
- **Support modules:**
  - `Grids`: a row-major matrix with a column count.
  - `RealSeq`: sums of reals.
  - `Unique`: the `unique_by` and `unique` iterator adaptors, with their
    properties.
  - `Wrappers`: `Option` and `Result`.

Arithmetic and interfaces are modelled as follows:
- `f64` is modelled as `real`.
- `exp` and `ln` are parameters. The lemmas that need them require their
  defining facts: exp is positive; ln(1) = 0 and ln is monotone on positive
  reals.
- `f64::MIN_POSITIVE` is exactly 2^-1022.
- The starting lowest error `f64::INFINITY` is `None`.
- The panics of `build`, `fit` and `get_prediction` are error values:
  `BuildError`, `FitError` and `PredictError`. The two panics of `predict`
  (`src/weak_learner/stump.rs:85`, which unwraps the threshold, and
  `src/weak_learner/stump.rs:87`, which indexes the feature column) are
  preconditions of `Stumps.Predict`. `get_prediction` always meets them. `fit`
  meets the feature-index one. It reaches the threshold unwrap
  (`src/weak_learner/stump.rs:85`, via `src/adaboost.rs:100`) when there is no
  feature or no row, and the model reports that case as
  `FitError.ThresholdUnset`.

Notes on the code's behaviour:
- **Threshold placement.** Thresholds are data values. On samples 0, 1, 2, 3
  labelled -1, -1, +1, +1, training picks 2.0, not a point between 1 and 2
  (`Stumps.FourSampleTraining`).
- **Label encoding.** `build` encodes labels as 0, 1, …, but stumps predict ±1.
  On a dataset built this way, every sample labelled 0 counts as misclassified
  for every candidate. The model keeps the code's encoding. The lemmas that
  need ±1 labels (`Stumps.ErrorOfNegated`, `Stumps.TrainedStumpError`) say so
  in their preconditions.

## Model

| member | source | states |
|---|---|---|
| Stumps.Polarity.I32 | src/weak_learner/stump.rs:32-37 | the value is +1 or -1, and +1 exactly for Positive |
| Stumps.Polarity.F64 | src/weak_learner/stump.rs:39-44 | the real conversion equals the integer conversion |
| Stumps.Polarity.Bool | src/weak_learner/stump.rs:46-51 | true exactly when the integer conversion is +1 |
| Stumps.NewStump | src/weak_learner/stump.rs:72-79 | a fresh stump is Positive, has no threshold, alpha 0 and feature 0 |
| Stumps.Stump.SetAlpha | src/weak_learner/stump.rs:96-101 | reading alpha back returns the value set; threshold, polarity and feature are unchanged |
| Stumps.PredictValue | src/weak_learner/stump.rs:89-93 | one vote is ±1, and equals the polarity's sign exactly when the value is at or above the threshold |
| Stumps.Predict | src/weak_learner/stump.rs:84-95 | needs a threshold; one vote per row, each ±1, equal to the polarity's sign exactly when that row's feature value is at or above the threshold |
| Stumps.PredictOnColumn | src/weak_learner/stump.rs:84-95 | a Positive stump predicts the raw split of its column; a Negative stump predicts the negated split |
| Stumps.Trunc | src/weak_learner/stump.rs:119 | `as i64` truncates toward zero: the result is within one of the value, on the zero side |
| Stumps.ThresholdsProperties | src/weak_learner/stump.rs:115-120 | the candidates are a subsequence of the column; each is the first value with its key; no two share a key; every column value has a candidate with its key |
| Stumps.QuantKey | src/weak_learner/stump.rs:119 | the key is the value times 10000, truncated toward zero: within one of the scaled value, on the zero side |
| Stumps.QuantKeyClose | src/weak_learner/stump.rs:119 | two values with the same key differ by less than 2 / 10000 |
| Stumps.Thresholds | src/weak_learner/stump.rs:115-120 | there are never more candidates than column values, and there are some exactly when the column is non-empty |
| Stumps.ThresholdsNear | src/weak_learner/stump.rs:115-120 | every column value lies within 2 / 10000 of some candidate threshold, so deduplication loses little |
| Stumps.SplitPredictions | src/weak_learner/stump.rs:124-133 | one ±1 entry per label; -1 exactly where the column value is below the threshold |
| Stumps.ThresholdPredictions | src/weak_learner/stump.rs:124-133 | the in-place loop over the prediction vector yields the split predictions |
| Stumps.MisclassifiedWeight | src/weak_learner/stump.rs:135-140 | with non-negative weights, the misclassified weight of a prefix lies between 0 and that prefix's total weight |
| Stumps.WeightedError | src/weak_learner/stump.rs:135-140 | with non-negative weights, the error lies in [0, total weight], even though the zip stops at the shortest input |
| Stumps.ErrorOfNegated | src/weak_learner/stump.rs:135-146 | with ±1 labels, negating the predictions turns error e into total weight - e; this justifies the flip |
| Stumps.FlipIfWorse | src/weak_learner/stump.rs:143-146 | the corrected error is at most 0.5; the polarity is Negative exactly when the error exceeds 0.5, with 1 - error, and otherwise the error is kept; for an error in [0, 1] the result is non-negative |
| Stumps.EvaluateThreshold | src/weak_learner/stump.rs:124-146 | the prediction loop, the error sum and the flip for one threshold return the corrected error and polarity of that threshold's candidate |
| Stumps.Evaluate | src/weak_learner/stump.rs:123-146 | a candidate keeps its feature and threshold; its corrected error is at most 0.5, and non-negative for non-negative weights of total at most 1 |
| Stumps.FeatureCandidatesFacts | src/weak_learner/stump.rs:111-123 | each candidate of a feature uses that feature and a value of its column, with error at most 0.5, and at least 0 when the weights are non-negative with total at most 1; a feature has candidates exactly when there are rows |
| Stumps.AllCandidatesFacts | src/weak_learner/stump.rs:108-123 | every examined candidate is well formed; some candidate exists exactly when there is at least one feature and one row |
| Stumps.FeatureCandidateAt | src/weak_learner/stump.rs:115-146 | a feature has one candidate per threshold, and candidate k is the evaluation of threshold k |
| Stumps.CandidateAt | src/weak_learner/stump.rs:108-146 | each candidate in the search order is the evaluation of its own feature column at its threshold |
| Stumps.ScanBest | src/weak_learner/stump.rs:149-159 | the kept index exists exactly when some candidate was examined, and is in range |
| Stumps.ScanBestIsFirstMinimum | src/weak_learner/stump.rs:149-159 | the strict-< update keeps a candidate whose error is at most every candidate's and strictly below every earlier one's |
| Stumps.ScanBestStep | src/weak_learner/stump.rs:149-159 | one more candidate replaces the best only when no best exists yet or its error is strictly lower |
| Stumps.Alpha | src/weak_learner/stump.rs:167-169 | for a monotone ln with ln(1) = 0, an error of at most 0.5 gives alpha >= 0 and an error in [0.5, 1] gives alpha <= 0 |
| Stumps.TrainedStump | src/weak_learner/stump.rs:102-177 | training leaves the threshold unset exactly when there is no feature or no row, and then returns the initial stump; for a monotone ln with ln(1) = 0 the alpha is non-negative |
| Stumps.TrainedStumpIsBest | src/weak_learner/stump.rs:102-177 | training sets a threshold exactly when there is a feature and a row; the stump is then built from the first candidate of least error, with error in [0, 0.5] |
| Stumps.TrainedStumpThreshold | src/weak_learner/stump.rs:155-158 | a trained threshold is a value of the chosen feature column, and the feature exists |
| Stumps.TrainedStumpError | src/weak_learner/stump.rs:124-159 | with ±1 labels, the trained stump's own predictions have weighted error at most 0.5 and at most the error of every candidate |
| Stumps.SearchFeature | src/weak_learner/stump.rs:111-160 | the loop over one feature's thresholds leaves the lowest error and the best stump equal to those of the strict-< scan over everything seen so far |
| Stumps.Train | src/weak_learner/stump.rs:102-177 | the sequential double loop, followed by setting alpha, returns exactly `TrainedStump` |
| Stumps.FourValueThresholds | src/weak_learner/stump.rs:115-120 | the column 0, 1, 2, 3 has all four values as candidates |
| Stumps.FourValueErrors | src/weak_learner/stump.rs:124-140 | on labels -1, -1, +1, +1 with equal weights, thresholds 0, 1, 2, 3 have errors 0.5, 0.25, 0, 0.25 |
| Stumps.FourValueEvaluations | src/weak_learner/stump.rs:124-146 | on that column, thresholds 0, 1, 2, 3 give Positive candidates of errors 0.5, 0.25, 0, 0.25; none is flipped |
| Stumps.FourSampleCandidates | src/weak_learner/stump.rs:108-146 | on that dataset, the candidates in search order are thresholds 0, 1, 2, 3 on feature 0, all Positive, with errors 0.5, 0.25, 0, 0.25 |
| Stumps.FourSampleTraining | src/weak_learner/stump.rs:102-177 | on that dataset, training yields threshold 2.0, a data value, with Positive polarity, feature 0 and the alpha of error 0 |
| Stumps.FourSamplePrediction | src/weak_learner/stump.rs:84-95 | that stump predicts the four labels exactly |
| Stumps.ClaimLowest | src/weak_learner/stump.rs:149-154 | under the error lock alone: the claim succeeds exactly when the error is below the lowest so far, which it then becomes; the stump is not touched |
| Stumps.WriteStump | src/weak_learner/stump.rs:155-158 | under the stump lock alone: the candidate's threshold, polarity and feature overwrite the stump's; the lowest error and the alpha are not touched |
| Stumps.InterleavedUpdateKeepsWorseStump | src/weak_learner/stump.rs:149-158 | with errors 0.3 then 0.2, the order claim A, claim B, write B, write A ends with A's stump but B's lowest error, and A is not the argmin |
| Adaboost.Uniform | src/adaboost.rs:94 | n weights |
| Adaboost.UniformIsDistribution | src/adaboost.rs:94 | for n > 0 the initial weights 1/n are positive and sum to 1 |
| Adaboost.Factor | src/adaboost.rs:109 | the factor is positive; with ±1 label and prediction it is exp(-alpha) for a right prediction and exp(alpha) for a wrong one |
| Adaboost.Reweighted | src/adaboost.rs:104-111 | the weight vector keeps its length |
| Adaboost.ReweightedPositive | src/adaboost.rs:104-111 | positive weights stay positive after multiplying by exp factors |
| Adaboost.NextWeights | src/adaboost.rs:103-115 | the renormalised vector keeps its length |
| Adaboost.NextWeightsIsDistribution | src/adaboost.rs:103-115 | after a round the weights are positive and sum to 1, whatever the alpha and predictions |
| Adaboost.ScaleInPlace | src/adaboost.rs:103-111 | the in-place loop leaves each weight multiplied by its exp factor, and returns the sum of the new weights |
| Adaboost.DivideInPlace | src/adaboost.rs:113-115 | the in-place loop divides every weight by the sum |
| Adaboost.ReweightInPlace | src/adaboost.rs:103-115 | the multiply-and-accumulate loop followed by the divide loop leaves the array equal to the renormalised weights |
| Adaboost.AddInPlace | src/adaboost.rs:52-54 | the running sums are each increased by the matching entry of one stump's scaled predictions |
| Adaboost.UnanimousPartialVote | src/adaboost.rs:51-54 | when the first n stumps have non-negative alphas and all vote +1 (or all -1) on a row, their summed vote is >= 0 (or <= 0) |
| Adaboost.Vote | src/adaboost.rs:40-54 | when every stump has a non-negative alpha and all vote the same class on a row, the ensemble's vote has that class's sign |
| Adaboost.PartialVoteOfPrefix | src/adaboost.rs:51-54 | appending stumps leaves the vote of the first n unchanged |
| Adaboost.PartialVoteOfSuffix | src/adaboost.rs:51-54 | the vote of all of a and the first m of b equals a's vote plus the vote of the first m of b |
| Adaboost.VoteOfConcat | src/adaboost.rs:40-54 | the vote of a split ensemble is the sum of the parts' votes, so accumulation order does not matter |
| Adaboost.VoteOrderIrrelevant | src/adaboost.rs:40-54 | exchanging two parts of the ensemble leaves the vote unchanged |
| Adaboost.ScaledPredictions | src/adaboost.rs:43-47 | entry i is the stump's `predict` vote on row i (the model of `predict`) multiplied by the stump's alpha |
| Adaboost.Sign | src/adaboost.rs:55-62 | the result is ±1, and +1 exactly when the vote is >= 0 (ties go to +1) |
| Adaboost.EmptyEnsembleVotesPositive | src/adaboost.rs:51-62 | with no classifiers every sample is classified +1 |
| Adaboost.BoostedStart | src/adaboost.rs:92-94 | uniform weights with no stumps form a valid boosting history |
| Adaboost.BoostedStep | src/adaboost.rs:98-117 | appending the stump trained on the last weights, with the weights reweighted by it, extends a valid boosting history |
| Adaboost.BoostedAlphasNonNegative | src/adaboost.rs:98-117 | every stump produced by the rounds has alpha >= 0 |
| Adaboost.BoostingRound | src/adaboost.rs:99-115 | a round produces a stump without threshold exactly when the data has no feature or no row; otherwise it extends the boosting history by that stump and the new weights |
| Adaboost.AdaboostModel.constructor | src/adaboost.rs:24-30 | the classifier count and dataset are stored, and there are no classifiers |
| Adaboost.AdaboostModel.GetPrediction | src/adaboost.rs:34-64 | a sample width other than the model's feature count is an error; otherwise there is one ±1 value per sample row, +1 exactly when the alpha-weighted vote is >= 0; the model is not modified |
| Adaboost.AdaboostModel.Fit | src/adaboost.rs:84-122 | a released dataset or a label count different from the row count is an error; a round without a threshold is an error exactly when there are rounds and no feature or no row; otherwise the classifiers grow by exactly `nClassifiers` and keep their old prefix; the weights start uniform; each new stump k is `TrainedStump` of weights k; weights k+1 are weights k reweighted and renormalised, and are positive and sum to 1; the dataset ends released |
| Datasets.ParseColumn | src/dataset.rs:68-70 | a column parses exactly when every entry parses, and then holds the parsed values in row order |
| Datasets.AppendColumn | src/dataset.rs:65-72 | concatenation along the column axis keeps every old entry and puts the new column last |
| Datasets.NumberLabels | src/dataset.rs:82-87 | label i gets number i; the number-to-label map and the label-to-number map are inverse on exactly the unique labels |
| Datasets.DistinctLabels | src/dataset.rs:81 | the unique labels have no repeats, contain every raw label, and contain only raw labels |
| Datasets.EncodeLabels | src/dataset.rs:80-89 | the numbers are 0 to the count of distinct labels - 1, in first-occurrence order; the two maps are mutual inverses; every encoded label is in range, and decoding it returns the raw label |
| Datasets.DatasetBuilder.constructor | src/dataset.rs:26-33 | no data, class column 0, no selected columns, no headers |
| Datasets.DatasetBuilder.ReadCsv | src/dataset.rs:35-43 | the table is stored and its header row is appended to the headers; nothing else changes |
| Datasets.DatasetBuilder.SelectColumns | src/dataset.rs:45-50 | the indices are appended in order; nothing else changes |
| Datasets.DatasetBuilder.ClassColumn | src/dataset.rs:52-55 | the class column is replaced; nothing else changes |
| Datasets.DatasetBuilder.Build | src/dataset.rs:57-97 | no data is an error; success exactly when every selected column exists and parses, every selected header exists and the class column exists; on success the matrix has the table's rows and one column per selection, in order, each the parse of its raw column; the headers are the selected ones; every label decodes through the label map to its raw class value; the label numbers are 0 to the count of distinct class values - 1, and number i names the i-th distinct class value in first-occurrence order |
| Unique.UniqueFrom | src/weak_learner/stump.rs:119 | the adaptor never yields more elements than it is given, and an input whose key is new comes out first |
| Unique.UniqueFromIsSubsequence | src/weak_learner/stump.rs:115-120 | the adaptor's output is a subsequence of its input |
| Unique.UniqueFromKeysDistinct | src/weak_learner/stump.rs:115-120 | no two outputs share a key, and none has a key already seen |
| Unique.UniqueFromFirstOccurrences | src/weak_learner/stump.rs:115-120 | every output is the first input with its key |
| Unique.UniqueFromCovers | src/weak_learner/stump.rs:115-120 | every input whose key was not already seen has an output with the same key |

## Findings

| source | as written | input that shows it | evidently intended | confidence | as-written member | corrected member |
|---|---|---|---|---|---|---|
| src/weak_learner/stump.rs:149-158 | the lowest error is claimed under one lock, which is dropped before the stump is written under another, so two threads' claims and writes can interleave | threshold 1.0 with error 0.3 (thread A) and threshold 2.0 with error 0.2 (thread B) on one feature: A claims, B claims, B writes, A writes; the stump kept is A's, with alpha computed from 0.2 | the stump kept is the candidate whose error is the lowest error, an argmin of all candidates | not executed; needs that thread schedule | Stumps.InterleavedUpdateKeepsWorseStump | Stumps.SearchFeature |

## Left out

- Concurrency is left out: rayon `par_iter` and the `Arc<Mutex>` pair in training and prediction. The model's search is sequential, over features in index order and thresholds in candidate order, with strict `<`, so the first minimum wins and the stump kept is always the one whose error is the lowest error. The source does not guarantee this. At `src/weak_learner/stump.rs:149-158` the error lock is released before the stump lock is taken, so a thread with a larger error can write its stump after a thread with a smaller one. The source can then return a stump that is not an argmin, with an alpha (lines 163-169) computed from another candidate's lower error. See "## Findings".
- Floating point is left out: rounding, NaN and infinity. The NaN panic arms (`src/weak_learner/stump.rs:92`, `src/adaboost.rs:60`) cannot be reached over reals. `as i64` saturation of the quantisation key is not modelled; the key is plain truncation.
- `exp` and `ln` are parameters: the model proves its results for every function with the stated facts, not for the library functions.
- Stumps.TrainedStump: with no candidate (no feature or no row) the source computes alpha from an infinite error and gets NaN; the model keeps the initial alpha 0. Such a stump has no threshold, so `fit` stops on it either way: the source panics in `predict`, the model returns `FitError.ThresholdUnset`.
- Stumps.Train: requires non-negative weights of total at most 1, the condition under which the source's alpha formula has a non-negative error to work with. `fit` always passes such weights.
- Stumps.Alpha: requires a non-negative error, so that the division by `error + MIN_POSITIVE` is defined over reals.
- Datasets.DatasetBuilder.Build: states when an error occurs and that `NoDataLoaded` comes first, but not which of the other errors is reported when several apply (the method checks them in the source's order).
- Datasets.DatasetBuilder.ReadCsv: opening and parsing the CSV file is left out. The method receives the parsed table and header row. `f64::from_str` is the `parse` parameter of `Build`.
- The release of the dataset after training (`free_dset_memory`, and the accessors `get_data`, `get_labels`, `get_n_features`, `get_label_mapping`) is not part of this model's source. It is modelled as a `released` flag; a second `Fit` on a released dataset reports `DatasetReleased`.
- `pretty_print_prediction` and all printing are left out as I/O.
- `src/modelsample.rs` is left out: conversions of sample formats into a matrix. `GetPrediction` takes the row-major matrix directly.
- `src/stump.rs` is left out: an older copy of the stump and model that does not compile and is superseded by `src/weak_learner/stump.rs`.
- `src/main.rs`, `examples/breast-cancer.rs` and `datasets/split.py` are left out: a command-line demo and random file splitting.
- The weak-learner trait in `src/weak_learner/weaklearner.rs` has no behaviour; the stump functions follow its signatures.
