# Experiment: trial aggregation, outlier culling and cross-experiment dispersion

This project models `Experiment.h`, a small C++ header that collects repeated
experimental trials ("Evidence") into an `Experiment`, reports a per-trait
confidence score (the summary), removes trials that disagree with that score
(outlier culling), and compares several experiments (difference, dispersion
weighted by trial count, and unweighted dispersion).

Files:

- `evidence.dfy` (module `Trials`): a trial, seen only through the three
  questions the experiment code asks of it — is trait j true, is it false, is
  the trial conflicting at index j.
- `summary.dfy` (module `Summaries`): the per-trait score
  (#True − #False) / #trials as a function, and its properties.
- `cull.dfy` (module `Culling`): the agreement score of a trial against a
  summary and the filter that outlier culling applies, with its properties.
- `dispersion.dfy` (module `Dispersion`): means, weighted and plain squared
  deviations, the difference of two summaries, and their properties.
- `experiment.dfy` (module `Experiments`): the `Experiment` class itself, whose
  `dataset` field is a sequence the methods reassign, and the free functions
  `Diff`, `StdDev` and `AStdDev`. Each loop of the source is a loop here,
  proved against the functions of the other modules.
- `cull_examples.dfy` (module `CullingExamples`): two small experiments,
  evaluated exactly, that show where culling departs from the comment on it
  and from idempotence.

The global trait count of the source is the explicit parameter `traits`.
Doubles are exact `real`s. The "standard deviations" of the source take no
square root, so they are variances; the model keeps that.

## Model

| member | source | states |
|---|---|---|
| Experiments.Experiment.constructor | Experiment.h:11 | a new experiment holds no trials |
| Experiments.Experiment.Copy | Experiment.h:24 | a copy holds exactly the trials of the original, in order |
| Experiments.Experiment.AddTrial | Experiment.h:13-14 | the trial is appended at the end and nothing else changes |
| Experiments.Experiment.Plus | Experiment.h:22-27 | `a + b` is a new experiment holding b's trials followed by a's; its trial multiset is the union of both; neither operand changes |
| Experiments.Experiment.PlusAssign | Experiment.h:29-33 | `a += b` appends b's trials (as they were before the call) after a's; b is unchanged when it is a different object |
| Experiments.Experiment.Size | Experiment.h:35 | the result is the number of trials |
| Experiments.Experiment.Summary | Experiment.h:38-53 | the two nested loops compute exactly `SummaryOf(dataset, traits)`: one entry per trait, each (#True − #False) / #trials |
| Summaries.SummaryOf | Experiment.h:38-53 | a summary has one entry per trait and every entry lies in [−1, 1] |
| Summaries.Score | Experiment.h:49-50 | one trait's score lies in [−1, 1] |
| Summaries.CountsPartition | Experiment.h:41-48 | every trial gives exactly one of True, False, Indeterminate on a trait, so the three counts add up to the trial count |
| Summaries.CountAll | Experiment.h:49-50 | a verdict's count equals the trial count iff every trial gives that verdict |
| Summaries.CountPermutation | Experiment.h:13 | two datasets with the same multiset of trials have the same counts |
| Summaries.ScoreOneIffAllTrue | Experiment.h:49-50 | a score is 1 iff every trial votes True on that trait (both directions) |
| Summaries.ScoreMinusOneIffAllFalse | Experiment.h:49-50 | a score is −1 iff every trial votes False on that trait (both directions) |
| Summaries.SummaryOrderIndependent | Experiment.h:13 | trial order is immaterial: datasets with the same multiset of trials have the same summary |
| Summaries.SummaryMergeCommutes | Experiment.h:22-33 | merging two experiments in either order gives the same summary |
| Experiments.Experiment.OutlierCull | Experiment.h:55-79 | the result is a new experiment holding exactly `CulledOf(dataset, traits, tolerance)`: in order, the trials whose agreement with this experiment's summary reaches the tolerance; an empty experiment culls to an empty one |
| Experiments.TrialAgreement | Experiment.h:60-73 | the inner loop, including its early exit on a conflict, computes exactly `Agreement(trial, summary, traits)` |
| Culling.ContributionBounds | Experiment.h:66-71 | against a summary in [−1, 1], the traits add between −k and k to the agreement |
| Culling.AgreementRange | Experiment.h:56-73 | a conflicting trial scores −2; any other trial scores in [0, 2] |
| Culling.KeptSubsequence | Experiment.h:74-76 | the filter keeps a subsequence of the trials, in their order |
| Culling.KeptMembership | Experiment.h:74-76 | a trial is kept iff it is one of the trials and its agreement reaches the tolerance |
| Culling.KeptEverything | Experiment.h:74-76 | when every trial reaches the tolerance, the filter keeps the whole dataset |
| Culling.KeptAtZero | Experiment.h:56-64 | against a bounded summary, the filter at tolerance 0 keeps exactly the non-conflicting trials |
| Culling.KeptMonotone | Experiment.h:74-76 | a higher tolerance keeps a subsequence of what a lower tolerance keeps |
| Culling.CullIsSubsequence | Experiment.h:19-20 | the culled experiment is a subsequence of the original and its multiset is contained in the original's |
| Culling.CullKeepsExactly | Experiment.h:74-76 | a trial survives culling iff it is in the experiment and its agreement with the experiment's summary reaches the tolerance |
| Culling.CullDropsConflicting | Experiment.h:62-64 | for every tolerance above −2, no conflicting trial survives |
| Culling.CullAtZero | Experiment.h:56 | culling at tolerance 0 removes the conflicting trials and nothing else |
| Culling.NoConflictsKeepsAll | Experiment.h:56 | with no conflicting trial, the conflict filter keeps every trial |
| Culling.AgreeingTrialScoresAtLeastOne | Experiment.h:56-73 | a non-conflicting trial that votes True only where the summary is non-negative and False only where it is non-positive scores at least 1 |
| Culling.CullKeepsAgreeingTrials | Experiment.h:55-76 | such a trial, judged against its own experiment's summary, survives culling at any tolerance up to 1 |
| CullingExamples.MinorityVoteSurvivesAtOne | Experiment.h:55-76 | in the experiment [True, True], [True, True], [True, False] the summary is [1, 1/3], and the last trial survives tolerance 1 although it votes False on a trait whose score is positive |
| Culling.CullMonotone | Experiment.h:74-76 | culling at a higher tolerance keeps a subsequence of what culling at a lower one keeps |
| Culling.CullIdempotentAtLowTolerance | Experiment.h:55-79 | culling a culled experiment again at a tolerance no higher than the first and no higher than 0 removes nothing more |
| Culling.KeptAboveTwo | Experiment.h:73-76 | against a bounded summary, the filter at a tolerance above 2 keeps no trial |
| Culling.CullAboveTwoIsEmpty | Experiment.h:55-79 | culling at a tolerance above 2 returns an empty experiment |
| Culling.CullIdempotentAboveTwo | Experiment.h:55-79 | after culling at a tolerance above 2, culling again at any tolerance changes nothing |
| CullingExamples.CullNotIdempotentAtOne | Experiment.h:55-79 | for six concrete trials, culling at tolerance 1 and then culling the result again at tolerance 1 drops a trial the first pass kept |
| Culling.SubsequenceMultiset | Experiment.h:74-76 | a subsequence holds no more copies of any trial than its source |
| Experiments.Diff | Experiment.h:81-87 | the result has one entry per trait, each base's score minus contrast's score |
| Dispersion.DiffSelfIsZero | Experiment.h:81-87 | the difference of a summary with itself is the zero vector |
| Dispersion.DiffAntisymmetric | Experiment.h:81-87 | swapping base and contrast negates every entry |
| Experiments.StdDev | Experiment.h:89-108 | the result is `StdDevOf` of the experiments' summary table weighted by their trial counts, whose total is positive |
| Experiments.MeanScores | Experiment.h:92-98 | the first pass: for every trait, the plain mean of the experiments' scores |
| Experiments.ColumnMean | Experiment.h:93-97 | one trait's sum of scores divided by the number of experiments is its plain mean |
| Experiments.WeightedDeviations | Experiment.h:99-106 | the second pass of StdDev: for every trait, the trial-count-weighted mean squared deviation from the plain mean |
| Experiments.WeightedColumnDeviation | Experiment.h:100-105 | one trait's running weighted sum and running trial total, divided, are that trait's weighted dispersion |
| Experiments.AStdDev | Experiment.h:110-127 | the result is `AStdDevOf` of the experiments' summary table |
| Experiments.PlainDeviations | Experiment.h:120-125 | the second pass of AStdDev: for every trait, the plain mean squared deviation from the plain mean |
| Experiments.PlainColumnDeviation | Experiment.h:121-124 | one trait's running sum of squared deviations divided by the number of experiments is its plain dispersion |
| Dispersion.WeightedDeviationNonNegative | Experiment.h:99-106 | a trial-count-weighted dispersion is never negative |
| Dispersion.StdDevNonNegative | Experiment.h:89-108 | every entry of StdDev is non-negative |
| Dispersion.AStdDevNonNegative | Experiment.h:110-127 | every entry of AStdDev is non-negative |
| Dispersion.ConstantColumnHasNoDeviation | Experiment.h:92-98 | when all experiments score the same on a trait, the mean is that score and every squared deviation is 0 |
| Dispersion.ConstantWeightedDeviation | Experiment.h:99-106 | a trait on which all experiments agree has weighted dispersion 0 |
| Dispersion.StdDevZeroWhenSummariesAgree | Experiment.h:89-108 | when every experiment has the same summary, StdDev is the zero vector |
| Dispersion.AStdDevZeroWhenSummariesAgree | Experiment.h:110-127 | when every experiment has the same summary, AStdDev is the zero vector |
| Dispersion.UniformWeightDeviation | Experiment.h:99-125 | with one common positive weight, the weighted and the plain dispersion of a trait coincide |
| Dispersion.EqualSizesMakeStdDevsAgree | Experiment.h:89-127 | when every experiment has the same positive trial count, StdDev equals AStdDev |
| Dispersion.OppositeExperimentsExample | Experiment.h:89-108 | two experiments of ten trials scoring 1 and −1 on one trait have weighted dispersion 1 |

## Left out

- Evidence.h is not part of this model. A trial is its per-trait verdicts plus the set of indices at which it reports a conflict; a trait beyond its verdicts is Indeterminate.
- The global `trait_count` is the parameter `traits` of every operation that reads it.
- Doubles are exact reals: rounding, infinities and NaN are not modelled. Where the source would divide by zero and produce NaN, the model states a precondition instead.
- Experiments.Experiment.Summary: requires a non-empty experiment, because the source divides by the trial count at line 49.
- Experiments.StdDev and Experiments.AStdDev: require at least one experiment and that every experiment is non-empty. The source divides by the number of experiments at lines 97 and 118–124. An empty experiment's summary is NaN, and NaN times a weight of 0 is still NaN, so a zero-trial experiment cannot simply contribute zero weight.
- Experiments.StdDev: the mean at lines 92–98 is the plain, unweighted mean of the scores, as the code computes it; only the squared deviations at lines 99–106 are weighted by trial count, although the comment at line 89 promises weighting throughout. The model follows the code.
- Experiments.Experiment.OutlierCull: on an empty experiment the source computes a summary of NaNs that it never reads and returns an empty experiment. The model returns an empty experiment and computes no summary.
- Experiments.Experiment.OutlierCull: at lines 62–70 the source indexes `dataset` with the trait counter j and passes the trial counter i to `isConflicting`, `isTrue`, `isFalse` and `summary`. The model reads the trial being judged (the one line 75 keeps) at every trait j against `summary[j]`, which is what the outer loop over trials and the comment at line 66 describe.
- Experiments.Experiment.OutlierCull: the comment at line 56 says tolerance 1 removes every trial not in agreement with the majority. The code does not do that: a trial's agreement is an average over all traits, so agreeing strongly on one trait can outweigh disagreeing on another. CullingExamples.MinorityVoteSurvivesAtOne exhibits a trial that votes against a positive score and still survives tolerance 1. The model follows the code and proves only the half of the comment that holds, Culling.CullKeepsAgreeingTrials: a trial agreeing with the sign of the summary on every trait survives tolerance 1.
- Experiments.Experiment.OutlierCull: the default tolerance of 0.0 at line 20 is not a default argument; callers pass it.
- Experiments.Experiment.Plus: the source inserts at an iterator of `this->dataset` into `local.dataset` (line 25), which is undefined behaviour. The model gives the evident intent: a copy of the right operand's trials followed by this experiment's trials.
- Experiments.Experiment.PlusAssign: returns nothing, so chaining on the returned reference is not modelled. For `a += a` the model appends a copy of a's trials as they were before the call; the source's self-insertion is undefined behaviour.
- Experiments.Experiment.Size and Experiments.StdDev: trial counts are unbounded naturals. The 32-bit `unsigned int` truncation is not modelled, either for `size()` or for StdDev's per-trait running trial total `size[j]` (lines 100–102), which is divided by at line 105.
- Experiments.Diff, Experiments.StdDev, Experiments.AStdDev: the source writes into vectors that were never sized (lines 82, 90–91, 100 and 111–112) and indexes a fresh per-trait `size` vector at line 102. The model sizes every result to the trait count and keeps one running trial total per trait.
- Experiments.Diff, Experiments.StdDev, Experiments.AStdDev: the source takes its experiments by value and recomputes `summary()` for every term, twice in each squared deviation. The model passes references that it does not modify and computes each summary once per term, which gives the same values.
- Culling.CullIdempotentAtLowTolerance: proved for every second tolerance no higher than the first and no higher than 0. At a positive tolerance re-culling can drop more, because the second pass judges the survivors against their own recomputed summary: CullingExamples.CullNotIdempotentAtOne shows a failure at tolerance 1. Above a first tolerance of 2 culling is idempotent again, because it empties every experiment (Culling.CullIdempotentAboveTwo). Tolerances between 0 and 2 are not characterised further.
- The header's `#include` of Evidence.h and the standard vector are not modelled; sequences and arrays stand in for vectors.
