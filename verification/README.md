# Trim report of empyricalRMT, modelled in Dafny

This project models `TrimReport` from empyricalRMT. `TrimReport` chooses how many edge eigenvalues of a sorted spectrum to trim before the bulk is compared with Gaussian Orthogonal Ensemble (GOE) statistics. It has four parts:

- **Trim loop.** A histogram outlier detector runs again and again on the surviving eigenvalues. After each run, edge correction makes sure only a run at one end of the sorted spectrum is ever trimmed. Each pass is kept as a snapshot.
- **Per-trim scoring.** Each snapshot is unfolded under a grid of smoother configurations. For each configuration, the code computes the mean and sample variance of the unfolded spacings and scores them against the expected GOE mean and variance.
- **Report.** The results go into a dense table. Each row has the trim percentages first, then one (mean, variance, score) triple per configuration.
- **Selection.** The summary picks the three configurations with the smallest least absolute score, each at the first trim row reaching that minimum. It also returns the "consistent" configurations: those among the top three both by median and by mean absolute score.

Everything is modelled over unbounded `real`s and plain sequences. The detector, the smoother's fit, its grid of fits and the empirical step function are foreign code. They enter as function parameters (`TrimIters.Oracles` and `fitAll`), constrained only in the lengths of what they return.

Modules:

- `Outcomes`: option and result types.
- `Search`: `find_first` and `find_last`.
- `Sorting`: the initial sort.
- `EdgeCorrection`: label correction and inlier filtering.
- `TrimIters`: the trim loop.
- `Spacing`: spacing statistics and the score.
- `Report`: trim bookkeeping and the dense layout.
- `Selection`: the summary.
- `Session`: the object's operations.

Where the code and its documentation disagree, the model follows the code:

- **Edge correction is asymmetric.** When the first point is flagged, everything from the first inlier onward is cleared. That includes a trailing run. A trailing run survives only when the first point is not flagged.
- **The loop guard uses the whole last snapshot.** It compares the length of the last snapshot, outliers included, with `max_trim`.
- **The step values are never recomputed.** After snapshot 0, the `steps` column is the original step values of the surviving points. The second value returned by the later fits is used only for the squared-error column.
- **Fewer than three unfolded values is an error.** Then there are fewer than two spacings, the sample variance is NaN in numpy, and the report would hold NaN cells. The model returns an error naming the trim and the configuration instead.

## Model

| member | source | states |
|---|---|---|
| `EdgeCorrection.CorrectEdges` | empyricalRMT/rmt/trim.py:328-338 | The two index loops (Python negative index included), fed by the first- and last-inlier searches, followed by the forced all-inlier fallback, compute exactly the reference labels `Corrected`: every point outside one inlier window is an outlier. |
| `EdgeCorrection.CorrectedShape` | empyricalRMT/rmt/trim.py:329-338 | When the detector leaves at least one inlier: if the first point was flagged, the outliers are exactly its leading flagged run. Else, if the last point was flagged, they are exactly its trailing flagged run. Else there are none. |
| `EdgeCorrection.CorrectedAllFlagged` | empyricalRMT/rmt/trim.py:329-338 | If the detector flags every point, the correction ends with no outlier at all. |
| `EdgeCorrection.CorrectedIsEdgeRun` | empyricalRMT/rmt/trim.py:328-338 | For any detector output, the corrected outliers form a prefix or a suffix, never an interior point. Every corrected outlier was flagged by the detector. At least one point stays an inlier. |
| `EdgeCorrection.CorrectedStops` | empyricalRMT/rmt/trim.py:329-347 | The corrected labels are all inlier, which ends the loop, if and only if the detector flagged every point or flagged neither end. |
| `EdgeCorrection.Keep` | empyricalRMT/rmt/trim.py:321-322 | The inlier filter keeps, in order, the values whose label is not an outlier: never more values than it is given, every kept value is one of them, and all of them when no label is an outlier. |
| `EdgeCorrection.KeepWindow` | empyricalRMT/rmt/trim.py:321-322 | Filtering a column to the inliers of labels that flag everything outside a window gives exactly that contiguous slice, in order. |
| `EdgeCorrection.KeepWindowShrinks` | empyricalRMT/rmt/trim.py:321-322 | If at least one point is flagged, the filtered column is strictly shorter. |
| `Search.FindFirst` | empyricalRMT/rmt/trim.py:330 | Index of the first occurrence of a value, or -1 exactly when the value does not occur. |
| `Search.FindLast` | empyricalRMT/rmt/trim.py:334 | Index of the last occurrence of a value, or -1 exactly when the value does not occur. |
| `Sorting.Sort` | empyricalRMT/rmt/trim.py:32 | The spectrum is rearranged into non-decreasing order: a sorted permutation of the input. |
| `TrimIters.Continue` | empyricalRMT/rmt/trim.py:315-317 | The loop guard: the last snapshot's length, as a fraction of the spectrum's, is above `max_trim`, and fewer than `max_iters` passes have run. |
| `TrimIters.ContinueScaled` | empyricalRMT/rmt/trim.py:315-317 | The guard holds exactly when the last snapshot has more than `max_trim` times as many points as the spectrum and passes remain. |
| `TrimIters.NextSnapshot` | empyricalRMT/rmt/trim.py:318-345 | One loop pass: the new snapshot holds the previous snapshot's inliers, a contiguous slice, with their unchanged step values. Its labels are the corrected detector labels, and its unfolding and squared error come from a fresh fit. It is strictly shorter whenever the previous snapshot had an outlier. |
| `TrimIters.ChainStart` | empyricalRMT/rmt/trim.py:299-312 | Snapshot 0, the whole sorted spectrum with every point an inlier, starts a valid chain located at the whole spectrum. |
| `TrimIters.Advance` | empyricalRMT/rmt/trim.py:315-345 | A pass taken under the loop guard extends the chain. The new snapshot is located at the slice of the original spectrum that the previous snapshot's inlier window selects. |
| `TrimIters.GetTrimIters` | empyricalRMT/rmt/trim.py:299-349 | Snapshot 0 is the sorted spectrum, all inliers. Each later snapshot is the in-order inliers of its predecessor with corrected labels, and every snapshot is a contiguous slice of the original. There are at most `max_iters + 1` snapshots. Each was extended under the guard. Every middle snapshot has an outlier and the next one is strictly shorter. The loop stops on an all-inlier snapshot or when the guard fails. |
| `Spacing.Spacings` | empyricalRMT/rmt/trim.py:435 | An unfolding of `n >= 1` values has `n - 1` spacings, each the difference of neighbouring values. |
| `Spacing.SpacingsTail` | empyricalRMT/rmt/trim.py:435 | The spacings of an unfolding are its first spacing followed by the spacings of its tail. |
| `Spacing.SpacingsTelescope` | empyricalRMT/rmt/trim.py:435 | The spacings sum to the span of the unfolding, last value minus first. |
| `Spacing.MeanSpacingSpan` | empyricalRMT/rmt/trim.py:435-436 | The mean spacing times the number of spacings is the span of the unfolding. |
| `Spacing.VarianceNonNegative` | empyricalRMT/rmt/trim.py:436 | The sample variance with one degree of freedom removed is never negative. |
| `Spacing.SampleVariance` | empyricalRMT/rmt/trim.py:436 | Defines `np.var(spacings, ddof=1)`: the squared deviations from the mean spacing, summed and divided by one less than the number of spacings. Its properties are stated by `Spacing.VarianceNonNegative` and `Spacing.EvenlySpaced`. |
| `Spacing.Score` | empyricalRMT/rmt/trim.py:437-441 | Defines the score: the relative variance excess plus `0.05` times the relative mean excess over the expected GOE values. Its properties are stated by `Spacing.ScoreIdeal`, `Spacing.ScoreSign` and `Spacing.ScoreMonotone`. |
| `Spacing.Evaluate` | empyricalRMT/rmt/trim.py:429-442 | The statistics are defined exactly when there are at least three unfolded values. Then the mean spacing spreads the span over the `n - 1` spacings, the variance is non-negative, and the score combines the relative variance excess with 0.05 times the relative mean excess. |
| `Spacing.EvenlySpaced` | empyricalRMT/rmt/trim.py:435-441 | An evenly spaced unfolding with step `d` has mean spacing `d` and spacing variance 0. |
| `Spacing.ScoreIdeal` | empyricalRMT/rmt/trim.py:438-441 | An unfolding with the expected GOE mean and variance scores exactly zero. |
| `Spacing.ScoreSign` | empyricalRMT/rmt/trim.py:438-441 | At the expected mean, the score is positive, negative or zero exactly when the variance is above, below or equal to the expected variance. |
| `Spacing.ScoreMonotone` | empyricalRMT/rmt/trim.py:438-441 | At a fixed mean spacing, the score strictly increases with the spacing variance. |
| `Report.TrimLengths` | empyricalRMT/rmt/trim.py:396-397 | The lower trim length is the index of the first occurrence of the snapshot's first eigenvalue in the spectrum, with no earlier copy. The upper trim length counts the points after the last occurrence of its last eigenvalue, with no later copy. Both hold whenever the value occurs. |
| `Report.TrimColumns` | empyricalRMT/rmt/trim.py:398-403 | Defines the three trim columns: the total trim percentage `100 * (1 - kept / n)` and the lower and upper trim lengths as percentages of `n`. Their properties are stated by `Report.SliceTrimColumns` and `Report.FullTrimColumns`. |
| `Report.TrimLengthsOfSlice` | empyricalRMT/rmt/trim.py:396-397 | For a slice `eigs[lo..hi]` of a strictly sorted spectrum, the searches give lower trim length `lo` and upper trim length `n - hi`. Together with the retained length they add up to `n`. |
| `Report.SliceTrimColumns` | empyricalRMT/rmt/trim.py:396-403 | For such a slice, the lower and upper trim percentages are the shares cut before and after the slice, and they add up to the unrounded total trim percentage. For the whole spectrum all three are zero. |
| `Report.FullTrimColumns` | empyricalRMT/rmt/trim.py:396-403 | The untrimmed spectrum has all three trim percentages zero, even with repeated eigenvalues. |
| `Report.PercentsAddUp` | empyricalRMT/rmt/trim.py:401-403 | Lower plus upper percentages equal `100 * (1 - kept / n)` whenever the three counts add up to `n`. |
| `Report.EvaluateColumns` | empyricalRMT/rmt/trim.py:408-417 | Every configuration of a trim gets its statistics in order. The result is an error, naming a configuration with fewer than three unfolded values, exactly when such a configuration exists. |
| `Report.ReportRow` | empyricalRMT/rmt/trim.py:394-417 | A row exists exactly when the snapshot and spectrum are non-empty and every unfolding is long enough. It then holds one statistics triple per configuration, each the evaluation of that configuration's unfolding, and the snapshot's trim columns. An empty snapshot fails with an empty-trim error. Otherwise an empty spectrum, and only that, fails with an empty-spectrum error. |
| `Report.Dense` | empyricalRMT/rmt/trim.py:404-417 | The dense row has `3 + 3k` cells: the three trim percentages, then the mean, variance and score of configuration `j` at columns `3j+3`, `3j+4` and `3j+5`. |
| `Report.ColumnNames` | empyricalRMT/rmt/trim.py:419-423 | The header has `3 + 3k` names: the three trim columns, then `<name>--mean_spacing`, `<name>--var_spacing` and `<name>--score` of configuration `j` at `3j+3..3j+5`. |
| `Report.LayoutRoundTrip` | empyricalRMT/rmt/trim.py:413-417 | The column of (configuration, statistic) and the (configuration, statistic) of a column at index 3 or more are inverse maps. |
| `Report.DenseLayout` | empyricalRMT/rmt/trim.py:404-423 | Header and row agree in length. The column of statistic `f` of configuration `j` is named after `j` with `f`'s suffix and holds that statistic. |
| `Report.ScoreColumnNames` | empyricalRMT/rmt/trim.py:150-151 | Removing the `--score` suffix from a score column's name gives back the configuration name, and the column holds that configuration's score. |
| `Report.StripSuffix` | empyricalRMT/rmt/trim.py:151 | Removing the score suffix either leaves a name unchanged or removes exactly that suffix from its end. |
| `Report.RowsOfExtend` | empyricalRMT/rmt/trim.py:394-417 | Appending the next trim's row to the rows of the earlier trims gives the rows of one more trim. |
| `Report.BuildReport` | empyricalRMT/rmt/trim.py:389-426 | On success there is one row per snapshot, in order, each the report row of that snapshot with one triple per configuration. The returned unfoldings are those of the last snapshot. A failure is the error of some snapshot's row. |
| `Selection.Minimum` | empyricalRMT/rmt/trim.py:116 | The least element of a column: no element is smaller, and some element equals it. |
| `Selection.MedianBounds` | empyricalRMT/rmt/trim.py:142 | A column's median lies between its least and its greatest element. |
| `Selection.Median` | empyricalRMT/rmt/trim.py:142 | Defines the pandas median: the middle element of the sorted column, or the average of its two middle elements. Its bounds are stated by `Selection.MedianBounds`. |
| `Selection.FirstArgMin` | empyricalRMT/rmt/trim.py:118 | The returned row holds the column minimum, and every earlier row is strictly larger: the first row of the minimum. |
| `Selection.SmallestAmongFacts` | empyricalRMT/rmt/trim.py:116 | Repeatedly taking the first candidate with the least key yields distinct candidates in non-decreasing key order, and no unchosen candidate has a strictly smaller key. |
| `Selection.TopThree` | empyricalRMT/rmt/trim.py:146-147 | The first `min(3, k)` indices of an ascending sort by key: that many distinct valid indices in non-decreasing key order, and no index left out has a strictly smaller key than one taken. |
| `Selection.ColumnMinima` | empyricalRMT/rmt/trim.py:116 | One value per configuration: its least absolute score over the trims, no larger than any row's and attained by some row. |
| `Selection.ColumnMedians` | empyricalRMT/rmt/trim.py:142 | Defines the per-configuration median of the absolute scores, one per configuration. |
| `Selection.ColumnMeans` | empyricalRMT/rmt/trim.py:143 | Defines the per-configuration mean of the absolute scores, one per configuration. |
| `Selection.BestConfigs` | empyricalRMT/rmt/trim.py:116 | Defines the ranking: the top three configurations by column minimum. Its properties are stated by `Selection.BestConfigsRanked`. |
| `Selection.Consistent` | empyricalRMT/rmt/trim.py:145-150 | Defines the consistent set: the configurations in the top three both by median and by mean absolute score. Its bounds are stated by `Selection.TopBothBounds`. |
| `Selection.BestConfigsRanked` | empyricalRMT/rmt/trim.py:116 | At most three configurations are ranked. The first has the least column minimum of all, and no unranked configuration has a column minimum below a ranked one's. |
| `Selection.TopBothBounds` | empyricalRMT/rmt/trim.py:146-150 | The intersection of the top-three index sets of two key sequences (the column medians and the column means) is contained in each, has at most three members, and holds only valid indices. |
| `Selection.SetOfCard` | empyricalRMT/rmt/trim.py:148-149 | The set of a sequence's elements is no larger than the sequence. |
| `Selection.NamesOfCard` | empyricalRMT/rmt/trim.py:151 | Mapping configuration indices to names does not enlarge the set. |
| `Selection.PickFor` | empyricalRMT/rmt/trim.py:127-140 | The pick of a configuration is at the first row attaining its least absolute score. It carries that row's trim percentages and the configuration's mean, variance and score there. |
| `Selection.PickAll` | empyricalRMT/rmt/trim.py:120-140 | One pick per ranked configuration, in rank order, each with the last trim's unfolding of that configuration. |
| `Selection.Summarize` | empyricalRMT/rmt/trim.py:110-153 | The picks follow the ranking by least absolute score. Each is the configuration's first minimising row, with that row's figures, and comes with the last trim's unfolding of that configuration. The consistent names are the names of the consistent set, at most three. |
| `Session.UnfoldAcrossTrims` | empyricalRMT/rmt/trim.py:352-426 | Keeps the spectrum and snapshots. On success it stores the report rows of every snapshot under the given grid, one triple per configuration, and the `fit_all` unfoldings of the last snapshot. A failure is some snapshot's row error. |
| `Session.TrimAndUnfold` | empyricalRMT/rmt/trim.py:33-40 | On a sorted non-empty spectrum, never fails with an empty-spectrum error. On success it keeps the spectrum and names, its snapshots satisfy the trim loop's guarantees, the report holds their rows and the retained unfoldings are those of the last snapshot. |
| `Session.NewTrimReport` | empyricalRMT/rmt/trim.py:29-52 | Fails with an empty-spectrum error exactly on an empty input. Otherwise the stored spectrum is the sorted input (a permutation), and the snapshots satisfy everything the trim loop guarantees (`TrimIters.TrimRun`): snapshot 0 is that spectrum, the detector chain, each snapshot a slice, at most `max_iters + 1` snapshots, each extended under the guard, shrinking middle snapshots and the stop rule. The report holds one row per snapshot, and the retained unfoldings are those of the last snapshot. |
| `Session.CompareTrimUnfolds` | empyricalRMT/rmt/trim.py:54-73 | Re-evaluating under another grid keeps the spectrum and snapshots, replaces the report by the rows of the same snapshots under the new grid, and replaces the retained unfoldings by the new grid's unfoldings of the last snapshot. |
| `Session.FirstRowUntrimmed` | empyricalRMT/rmt/trim.py:396-406 | The first report row, for the untrimmed snapshot, has total, lower and upper trim percentages all zero. |
| `Session.TrimPercentsAddUp` | empyricalRMT/rmt/trim.py:396-406 | For a spectrum without repeated eigenvalues, every row's lower and upper trim percentages add up to its total. |
| `Session.UnfoldInfo` | empyricalRMT/rmt/trim.py:419-425 | The table has `3 + 3k` named columns and one row per snapshot. The trim percentages come first. Configuration `j`'s statistic `f` sits in the column named `<name j><suffix of f>`. |
| `Session.TableLayout` | empyricalRMT/rmt/trim.py:404-424 | Every dense row is as wide as the header. Its first three cells are the trim percentages, and each configuration column holds the statistic its name announces. |

## Left out

- **Foreign code** is not part of this model:
  - the histogram outlier detector, HBOS (trim.py:323-325);
  - `Smoother.fit` and `Smoother.fit_all`, including the dry run that names the configurations;
  - `stepFunctionVectorized`.

  They enter as function parameters with length constraints only. The smoother grid (polynomial degrees, spline smoothing factors and degrees, the Gompertz switch) is folded into `fitAll` and the configuration names.
- **`find_first` and `find_last`** come from the utils module, which is not part of this model. They are modelled as first and last index of a value, with -1 when the value is absent. That choice decides the all-flagged case of edge correction.
- **The GOE constants** `EXPECTED_GOE_MEAN` and `EXPECTED_GOE_VARIANCE` live in the `_constants` module, which is not part of this model. They are positive parameters.
- **Floating point:**
  - storage as 32-bit floats (trim.py:393);
  - `np.round(..., 3)` of the total trim percentage (trim.py:401);
  - IEEE rounding in the mean and variance.

  The model computes over exact reals.
- `Spacing.Evaluate`: returns no statistics, and the report an error, where numpy would store NaN cells. This happens for unfoldings of fewer than three values.
- **Tie order.** Pandas `sort_values` and numpy `argsort` do not promise an order among equal keys. The model breaks ties towards the lower configuration index and claims nothing beyond the order and bound properties that hold for any tie order. The median is the sorted-sequence median: the middle element, or the average of the two middle elements.
- **Column filter.** The `.*score.*` filter of the report's columns (trim.py:111) is modelled by position: the score of configuration `j` is column `3j+5`. `Report.ScoreColumnNames` shows the two agree for the names the report builds. A configuration name that itself contains "score" would also match the filter in the source. That case is not modelled.
- **Name replacement.** `str.replace("--score", "")` is modelled as removing a trailing `--score` (`Report.StripSuffix`). The two differ only for names that contain `--score` elsewhere.
- `Session.TrimPercentsAddUp`: holds only for spectra without repeated eigenvalues. With repeated values, the first/last-index searches may land on a copy outside the snapshot.
- **Mutable session state.** Construction, recomputation and summary are modelled as functions of an immutable `TrimReport` value. This covers the saved grid parameters (trim.py:374-376) and the fields set at trim.py:425-426.
- **Plotting.** `plot_trim_steps` and its logging (trim.py:159-266) are display-only.
- **`unfold`** (trim.py:155-157) raises `NotImplementedError`.
