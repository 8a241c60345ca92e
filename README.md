# Bayesian online changepoint detection: the run-length recursion

This project models the detector class `BCODAlgorithm` of `script/BCOD_Algorithm.py` in Dafny and proves properties of the model.

The detector runs Adams and MacKay's Bayesian online changepoint detection over a series of observations. It keeps a matrix `R` with `len(data) + 1` rows and `len(data)` columns. `R[r, t]` is the posterior probability that, at step t, the current segment has run length r. Each run length carries a Normal-Gamma hypothesis `(mu, kappa, alpha, beta)` about the mean and precision of its segment. Each step does four things:
- it weighs every run length by the predictive density of the next observation;
- it moves mass to run length r + 1 with probability `1 - H` (growth) or back to 0 with probability `H` (reset);
- it renormalises the new column;
- it updates every hypothesis with the observation and starts a fresh one at the prior.

The model is organised as follows:

- `outcomes.dfy` (`Outcomes`) holds the error cases and a `Result` type.
- `sums.dfy` (`Sums`) holds the finite sums over `seq<real>` that the recursion uses, with their algebra.
- `normal_gamma.dfy` (`NormalGamma`) holds the hypothesis and its conjugate one-observation update `Aged`. It proves that aging one observation at a time gives the posterior of the whole batch, as fixed by its count, sum and sum of squares.
- `run_length.dfy` (`RunLength`) is the pure specification of the recursion. `Step` takes one column and its parameter track to the next. `Filter(data, h, pdf, prior, t)` is the state after column t, or the error that stopped the run. The lemmas prove:
  - mass conservation, normalisation and non-negativity;
  - when a run fails and when it cannot;
  - that hypothesis r is the posterior of the last r observations;
  - the behaviour at hazard 0 and hazard 1.
- `bcod_algorithm.dfy` (`Bcod`) holds the imperative side:
  - the class `BcodAlgorithm` with its five configuration fields and a constant hazard;
  - `FindMaxIndices`, the loop that collects every position holding the maximum;
  - `Inference`, which fills a preallocated `array2<real>` column by column in place and records the maximal run lengths in an `array<seq<nat>>`.

  Each method is proved against the pure specification. After iteration t the matrix holds `FilledColumns(..., t + 1)`, and entry t of the record holds `MaxPositions` of column t.

The loop at line 40 runs t = 1 .. len(data) - 2 and computes column t + 1 from observation `data[t]`, so `data[0]` and `data[len(data) - 1]` never enter the recursion. The model keeps this: `Filter` reaches column t through `data[1..t]`, and `Inference` stops at column `len(data) - 1`.

The predictive density (`studentpdf` in the source) is a parameter `pdf: (real, Hypothesis) -> real` of the model. The lemmas that need it to be non-negative or positive say so in their requires.

## Model

| member | source | states |
|---|---|---|
| NormalGamma.RateIncrement | script/BCOD_Algorithm.py:66 | the increment `kappa (x - mu)^2 / (2 (kappa + 1))` added to beta equals half of `x^2 + kappa mu^2 - (kappa + 1) mu'^2`, and is non-negative when kappa is |
| NormalGamma.Aged | script/BCOD_Algorithm.py:63-66 | one observation x adds 1 to kappa and 1/2 to alpha, adds x to `kappa * mu`, and raises `2 beta` by `x^2 + kappa mu^2 - kappa' mu'^2`; beta never decreases for kappa >= 0 |
| NormalGamma.AgeMany | script/BCOD_Algorithm.py:63-71 | after n observations, kappa has grown by n and alpha by n / 2 |
| NormalGamma.PositiveKappaSafe | script/BCOD_Algorithm.py:63-66 | from a positive prior kappa, none of the divisors `kappa + 1` met along the way is zero |
| NormalGamma.KappaSafePrefix | script/BCOD_Algorithm.py:63-66 | a run of updates free of zero divisors stays free of them over any shorter run |
| NormalGamma.AgedSummarises | script/BCOD_Algorithm.py:63-66 | aging a posterior of the batch ys by x gives the posterior of the batch `ys + [x]` |
| NormalGamma.AgeManySummarises | script/BCOD_Algorithm.py:63-71 | aging the prior one observation at a time ends at the batch posterior, fixed by the count, sum and sum of squares |
| NormalGamma.SummaryDeterminesHypothesis | script/BCOD_Algorithm.py:63-66 | for a non-zero kappa, the count, sum and sum of squares fix the hypothesis, so the batch posterior is unique |
| NormalGamma.AgedExample | script/BCOD_Algorithm.py:63-66 | the prior (0, 1, 1, 1) updated by the observation 2 is (1, 2, 1.5, 2) |
| Sums.SumConcat | script/BCOD_Algorithm.py:56-60 | `Sum`, numpy's `sum` of lines 56 and 60, adds over a concatenation part by part |
| Sums.SumScale | script/BCOD_Algorithm.py:56 | scaling every entry by c scales the sum by c, so `sum(evidence * H) == sum(evidence) * H` |
| Sums.SumNonNegative | script/BCOD_Algorithm.py:56-60 | a sum of non-negative entries is non-negative |
| RunLength.Predictive | script/BCOD_Algorithm.py:44 | one density per tracked run length; entry r is `pdf(x, track[r])`, and UnnormalisedEntries and StepSucceeds give its meaning |
| RunLength.Evidence | script/BCOD_Algorithm.py:52-56 | one joint mass `col[r] * pred[r]` per run length; UnnormalisedConservesMass states what it adds up to |
| RunLength.Unnormalised | script/BCOD_Algorithm.py:52-56 | the new column has one more row than the old; the growth (`Growth`, line 52) and reset (`ResetMass`, line 56) entries are given by UnnormalisedEntries |
| RunLength.Normalised | script/BCOD_Algorithm.py:60 | the renormalised column keeps its length; NormalisedSumsToOne states that it sums to one |
| NormalGamma.AgeTrack | script/BCOD_Algorithm.py:63-71 | aging keeps one hypothesis per run length; StepTrack and TrackStep state that hypothesis r becomes the old r - 1 aged by x |
| RunLength.FilledColumns | script/BCOD_Algorithm.py:22-60 | R after column t, one column per observation; FilledColumn and FilledColumnsStep give its columns |
| Bcod.FilledMaxes | script/BCOD_Algorithm.py:37-74 | `maxes` after column t, one entry per row of R; FilledMaxesStep gives how it grows |
| RunLength.UnnormalisedEntries | script/BCOD_Algorithm.py:52-56 | entry r + 1 of the new column is `col[r] * pred[r] * (1 - H)`, and entry 0 is the summed evidence times H: the `Growth` of line 52 and the `ResetMass` of line 56 |
| RunLength.UnnormalisedConservesMass | script/BCOD_Algorithm.py:52-56 | growth and reset together hold exactly the evidence `sum(col * pred)` |
| RunLength.NormalisedSumsToOne | script/BCOD_Algorithm.py:60 | dividing the column by its sum makes it sum to one |
| RunLength.HasZeroDivisor | script/BCOD_Algorithm.py:63-66 | false exactly when every hypothesis has `kappa + 1 != 0` |
| RunLength.Step | script/BCOD_Algorithm.py:44-71 | the step fails with Degenerate exactly when the evidence is zero, and with ZeroDivisor exactly when the evidence is non-zero but some `kappa + 1` is zero; a successful step has one more entry, sums to one, and grows the track by one with the prior first |
| RunLength.StepEntries | script/BCOD_Algorithm.py:52-71 | unfolding helper: a successful step's column is the unnormalised column divided by its sum, and its track is the prior followed by every old hypothesis aged by x |
| RunLength.StepTrack | script/BCOD_Algorithm.py:63-71 | unfolding helper: after a step, hypothesis r is the old hypothesis r - 1 aged by x |
| RunLength.StepNonNegative | script/BCOD_Algorithm.py:52-60 | with non-negative densities and `0 <= H <= 1`, a non-negative column stays non-negative |
| RunLength.StepSucceeds | script/BCOD_Algorithm.py:52-66 | from a distribution, with positive densities and no zero divisor, the step succeeds |
| RunLength.Filter | script/BCOD_Algorithm.py:22-71 | column t has t run lengths and t hypotheses, sums to one, and starts its track at the prior |
| RunLength.Extend | script/BCOD_Algorithm.py:40-71 | the recursive case of Filter keeps the same shape and normalisation |
| RunLength.Resume | script/BCOD_Algorithm.py:40-71 | column t is the step from column t - 1 with `data[t - 1]`, or the earlier error, with the same shape and normalisation |
| RunLength.PaddedColumn | script/BCOD_Algorithm.py:22-60 | a column of R has `len(data) + 1` entries |
| RunLength.PaddedColumnOk | script/BCOD_Algorithm.py:52-60 | unfolding helper: a filled column of R is the filter's column followed by zeros |
| RunLength.FilledColumnsStep | script/BCOD_Algorithm.py:52-60 | unfolding helper: writing column t + 1 turns the matrix after column t into the matrix after column t + 1 |
| RunLength.FilterErrPersists | script/BCOD_Algorithm.py:40-71 | once a column fails, every later column reports the same error |
| RunLength.FilterUnfold | script/BCOD_Algorithm.py:40-71 | unfolding helper: column t is the step from column t - 1, unless column t - 1 already failed, whose error it keeps |
| RunLength.FilterNext | script/BCOD_Algorithm.py:52-71 | column t + 1 fails with Degenerate(t) exactly when the unnormalised column has no mass, and with ZeroDivisor(t) exactly when it has mass but some update divides by zero; otherwise it is the renormalised column with the aged track |
| RunLength.TrackStep | script/BCOD_Algorithm.py:63-71 | hypothesis r of column t is hypothesis r - 1 of column t - 1 aged by `data[t - 1]` |
| RunLength.FilterTrackIsPosterior | script/BCOD_Algorithm.py:31-71 | hypothesis r of column t is the prior aged by the last r observations `data[t - r..t]` |
| RunLength.FilterTrackSummarises | script/BCOD_Algorithm.py:31-71 | hypothesis r of column t is the batch posterior of `data[t - r..t]` |
| RunLength.FilterNonNegative | script/BCOD_Algorithm.py:27-60 | with non-negative densities and `0 <= H <= 1`, every column is non-negative, and so a probability distribution |
| RunLength.FilterSucceeds | script/BCOD_Algorithm.py:40-71 | with positive densities, `0 <= H <= 1` and no zero `kappa + 1` among the first t - 1 updates of the prior, column t exists |
| RunLength.StepNoHazard | script/BCOD_Algorithm.py:52-60 | with H = 0, certainty of run length k becomes certainty of run length k + 1 |
| RunLength.NoHazardRunLengthGrows | script/BCOD_Algorithm.py:47-60 | with hazard 0, column t is certain of run length t - 1 |
| RunLength.StepCertainHazard | script/BCOD_Algorithm.py:52-60 | with H = 1, the step is certain of run length 0 |
| RunLength.CertainHazardResets | script/BCOD_Algorithm.py:47-60 | with hazard 1, every column is certain of run length 0 |
| Bcod.MaxOf | script/BCOD_Algorithm.py:83 | `max(arr)`: no entry exceeds it and some entry equals it |
| Bcod.PositionsExactly | script/BCOD_Algorithm.py:84-87 | the positions `Positions(arr, v, n)` collected by the loop are increasing and are exactly the i with `arr[i] == v` |
| Bcod.MaxPositionsAreMaxIndices | script/BCOD_Algorithm.py:82-88 | the maximal positions `MaxPositions(arr)` of a non-empty column are non-empty, increasing, and exactly where the maximum sits |
| Bcod.MaxIndicesUnique | script/BCOD_Algorithm.py:82-88 | two lists that both describe the maximal positions are equal |
| Bcod.Column | script/BCOD_Algorithm.py:52-60 | `R[:, c]` as a sequence of `len(R)` entries |
| Bcod.FilledColumn | script/BCOD_Algorithm.py:52-60 | a matrix filled up to column t holds the filter's padded column c at 1 <= c <= t, and zeros at column t + 1 |
| Bcod.StartColumns | script/BCOD_Algorithm.py:22-27 | the zero matrix with `R[0, 1] = 1` is the matrix filled up to column 1 |
| Bcod.GrowReady | script/BCOD_Algorithm.py:52-56 | column t holds the filter's column and column t + 1 is still zero before it is written |
| Bcod.GrowColumn | script/BCOD_Algorithm.py:52-56 | column t + 1 becomes the unnormalised column followed by zeros, and no other column changes |
| Bcod.NormaliseColumn | script/BCOD_Algorithm.py:60 | the column is divided entry by entry by its sum, and no other column changes |
| Bcod.FilledMaxesStep | script/BCOD_Algorithm.py:74 | unfolding helper: recording the maximal positions of column t at entry t turns the record for t into the record for t + 1 |
| Bcod.BcodAlgorithm.constructor | script/BCOD_Algorithm.py:2-12 | the five fields take the given hazard and prior, with defaults 0.0005, 0, 1, 1, 1; `Prior()` is the hypothesis they make, the starting track of lines 31-34 and the fresh hypothesis of lines 63-66 |
| Bcod.BcodAlgorithm.HazardFunc | script/BCOD_Algorithm.py:90-91 | the hazard is the configured constant, whatever the run length |
| Bcod.BcodAlgorithm.FindMaxIndices | script/BCOD_Algorithm.py:82-88 | fails with EmptyArray exactly on an empty array; otherwise returns the increasing list of every position holding the maximum, ties kept |
| Bcod.BcodAlgorithm.Advance | script/BCOD_Algorithm.py:40-74 | one iteration: it fails exactly when the next filter column fails, with the same error; otherwise it returns the aged track, leaves R filled up to column t + 1, and records the maximal positions of column t at `maxes[t]` |
| Bcod.BcodAlgorithm.Inference | script/BCOD_Algorithm.py:15-75 | fewer than two observations give InsufficientData; otherwise it fails exactly when the last filter column fails, with its error; on success it returns a fresh `(len + 1) x len` matrix whose column 0 is zero and whose column c is the filter's column c padded with zeros, and a fresh record whose entry t is the maximal positions of column t for 1 <= t <= len - 2 |

## Left out

- `studentpdf` (lines 77-80) is not modelled. The predictive density is the parameter `pdf` of the model. Neither the Student-t formula with its gamma functions nor its scale `beta (kappa + 1) / (alpha kappa)` from line 44 is modelled.
- Floating point is modelled by exact reals. Where numpy would carry on with `nan` or `inf`, the model stops with an error:
  - a column whose sum is zero (line 60) gives `Degenerate(t)`;
  - a hypothesis with `kappa + 1 == 0` (lines 63 and 66) gives `ZeroDivisor(t)`.

  Inference then returns that error instead of a matrix holding `nan`. When both happen in one step, Degenerate is reported.
- The file imports neither `np` (numpy, lines 22, 31-37, 79 and 88) nor `sp` (scipy, line 79). As written, every call of `inference` stops with a `NameError` at line 22, before R exists. The model reads `np` and `sp` as numpy and scipy.
- The loop body also reads `X[t]` and the bare names `mu0`, `kappa0`, `alpha0` and `beta0`, none of which `inference` defines. With `len(data) <= 2` the loop never runs, so these names are never reached. The model reads them as `data[t]` and the configured prior fields.
- Entries of `maxes` that are never written hold `0.0` in the source (`np.zeros`, line 37); these are index 0, `len(data) - 1` and `len(data)`. In the model they hold the empty list `[]` (`FilledMaxes`).
- Line 74 stores the index array of `find_max_indicies` in a slot of a float array, which fails when the maximum is tied. The model records the whole list as a `seq<nat>`.
- Recording the maxima: the model follows the code. `maxes[t]` holds the maximal positions of column t (line 74), so the maxima of the last column, `len(data) - 1`, are never recorded.
- Fewer than two observations make `R[0, 1] = 1` (line 27) raise an index error. The model returns `InsufficientData`.
- Numpy's shapes are modelled by sequences in the same order, with the same lengths. That covers the column vectors built by `vstack`, the `transpose` and the `flatten`.
- Bcod.BcodAlgorithm.Advance and Bcod.BcodAlgorithm.Inference do not state what R holds after a failed step. The source's `nan` entries there have no counterpart in the model.
- `script/setup.py` and the rest of the repository (data loading, plotting) are not part of this model.
