# CLP Live Monitor — a verified model of the scoring core

The CLP (crowded-leverage pressure) monitor watches Binance perpetual
futures. For each symbol it does the following:

- It derives three features from the aligned price, funding-rate and
  open-interest series: log returns, absolute returns, and the percentage
  change of open interest.
- It turns the funding rate, the open-interest change and the absolute return
  into trailing-window population z-scores.
- It combines the z-scores linearly into the CLP score.
- It estimates two adaptive thresholds, from quantiles or from the mean plus
  k standard deviations.
- It labels every row Normal, Stress or Extreme.

On top of the scoring it computes three things:

- a crowding index across symbols;
- the current regime streak;
- the share of a trailing window spent in each regime.

A dashboard refresh does the following:

- It runs the pipeline once per watched symbol and reports the symbols that failed.
- It ranks the symbols by score.
- It raises the extreme or stress banner.
- It logs regime flips against the labels of the previous refresh.
- It names the component that drives the focus symbol's score.

## Modules

- **Stats**:
  - undefined-or-real cells (pandas NaN as `None`) and `dropna`;
  - sums, means, and the population variance and standard deviation;
  - a square root that is only assumed to satisfy its laws.
- **Sorting**: a sort by a real key, and facts about permutations.
- **Quantile**: the linear-interpolation quantile at position `(n − 1)·p`, shared by thresholds and crowding.
- **Frames**: a frame is a row count, numeric columns by name, and an optional regime column.
- **Features**: `add_returns`, `add_oi_change`, `rolling_zscore` and `add_zscores`.
- **Scoring**: `compute_clp`, `compute_thresholds` and `add_regime`.
- **Risk**: `crowding_index`.
- **Insights**:
  - `current_regime_streak`, an imperative backward scan modelled as a method with a loop;
  - `regime_time_share`.
- **Pipeline**: `compute_one`, weight renormalisation, and routing of the threshold mode.
- **Dashboard**: the refresh in `main`:
  - the per-symbol loop, modelled as a method;
  - ranking, flags and the banner;
  - the regime-flip state, modelled as a class whose `prevRegimes` map and `flipLog` sequence a method updates in place;
  - the top contributor.

The natural logarithm and the square root are function parameters, and the
market-data download is a parameter that returns a frame or an error.

## Model

| member | source | states |
|---|---|---|
| Stats.Values | src/scoring.py:29 | `dropna` keeps exactly the defined values, never more cells than the input, and on a fully defined series every value in order |
| Stats.ValuesCount | src/scoring.py:29-30 | `dropna` keeps each defined value as often as it occurs, so `len(x)` is the number of defined cells |
| Stats.VarianceZeroIffConstant | src/features.py:22 | the population variance is non-negative, and zero exactly when all values are equal |
| Stats.StdZeroIffConstant | src/features.py:22 | under the square-root laws the population standard deviation is non-negative, and zero exactly on a constant sample |
| Stats.MeanConstant | src/scoring.py:38 | the mean of equal values is that value |
| Sorting.SortBy | app.py:195 | the sort is a permutation of its input, ordered by the key |
| Quantile.QuantileWithinRange | src/scoring.py:35 | a quantile lies between some sample value below it and some sample value above it |
| Quantile.QuantileMonotone | src/scoring.py:35 | a larger probability never gives a smaller quantile |
| Quantile.QuantileConstant | src/risk.py:25 | every quantile of a constant sample is that constant |
| Features.LogReturnsTelescope | src/features.py:9 | over a stretch of defined prices the returns are all defined and sum to the log of the end-to-start price ratio |
| Features.AbsReturns | src/features.py:10 | `abs_ret` has the same length, is defined exactly where `ret` is, and is ±ret and ≥ 0 |
| Features.AddReturns | src/features.py:7-11 | adds exactly `ret` and `abs_ret`, with rows, regime and every other column unchanged |
| Features.OiChange | src/features.py:16 | undefined in row 0; later defined exactly when both values are defined and the previous one is non-zero |
| Features.OiChangeRoundTrip | src/features.py:16 | a defined change rebuilds the value: oi[t] = oi[t−1]·(1 + chg[t]) |
| Features.AddOiChange | src/features.py:14-17 | adds exactly `oi_chg_pct` and keeps everything else |
| Features.RollingZScore | src/features.py:20-23 | one cell per row, each the z-score over the `w` cells ending at that row |
| Features.ZScoreDefinedIff | src/features.py:21-23 | a z-score is defined exactly when the full window exists, is fully defined, and is not constant |
| Features.ZScoreShortSeries | src/features.py:21-23 | a series shorter than the window has no defined z-score |
| Features.ZScoreSign | src/features.py:23 | a defined z-score has the sign of the row's deviation from the window mean |
| Features.ZScoreRoundTrip | src/features.py:21-23 | a defined z-score inverts: x[t] = mean + z·sd |
| Features.AddZScores | src/features.py:26-31 | adds exactly the three z-columns, from funding rate, OI change and absolute return, with one window |
| Scoring.Combine | src/scoring.py:13-17 | a score cell is defined exactly when all three z-scores are, whatever the weights |
| Scoring.CombineMonotone | src/scoring.py:13-17 | with non-negative weights, raising any z-score never lowers the score |
| Scoring.ComputeClp | src/scoring.py:6-18 | adds only `clp`, each cell the weighted sum of the row's z-scores with the weights as given |
| Scoring.ClpUndefinedIff | src/scoring.py:13-17 | a `clp` cell is undefined exactly when one of its z-scores is |
| Scoring.ComputeThresholds | src/scoring.py:21-42 | below 80 defined scores it returns (0.8, 1.8) for any mode; it fails exactly with ≥ 80 scores and a mode other than percentile or std |
| Scoring.PercentileThresholds | src/scoring.py:34-35 | percentile mode returns the two quantiles, each between the sample's extremes, ordered as the probabilities are |
| Scoring.StdThresholds | src/scoring.py:37-40 | std mode returns mean + k·population sd for each k, ordered as the multipliers are |
| Scoring.StdThresholdsConstant | src/scoring.py:37-40 | on equal scores both std thresholds equal that score |
| Scoring.Classify | src/scoring.py:47-49 | Extreme iff score > extreme; Stress iff stress < score ≤ extreme; Normal otherwise, including an undefined score |
| Scoring.ClassifyMonotone | src/scoring.py:47-49 | with ordered thresholds, a higher score never gets a milder label |
| Scoring.AddRegime | src/scoring.py:45-50 | labels every row by `Classify`, leaving rows and numeric columns unchanged |
| Risk.AbsAll | src/risk.py:20 | element-wise absolute value, all non-negative |
| Risk.AtLeast | src/risk.py:26 | the heavy set holds exactly the input's values at or above the cut |
| Risk.AtLeastCount | src/risk.py:26 | the heavy set keeps every copy of each value at or above the cut, ties included, and nothing else |
| Risk.CrowdingIndex | src/risk.py:7-30 | undefined when fewer than `min_n` scores are defined |
| Risk.HeavySetNonEmpty | src/risk.py:25-28 | the cut never exceeds the largest magnitude, so the heavy set is never empty |
| Risk.CrowdingAllZero | src/risk.py:20-23 | all-zero scores give an undefined index |
| Risk.CrowdingEqualMagnitude | src/risk.py:25-30 | scores of one non-zero magnitude give exactly 1 |
| Risk.CrowdingSignInvariant | src/risk.py:16-30 | flipping the sign of any scores leaves the index unchanged |
| Risk.UpperPartMean | src/risk.py:26-30 | the values at or above any cut average at least the overall mean |
| Risk.CrowdingAtLeastOne | src/risk.py:21-30 | whenever defined, the index is ≥ 1 |
| Risk.CrowdingDefined | src/risk.py:16-30 | with enough scores and a positive mean magnitude, the index is defined |
| Insights.CurrentRegimeStreak | src/insights.py:6-21 | ("NA", 0) without rows or labels; otherwise the last label and a streak of 1..n equal labels at the end, preceded by a different label when shorter than n |
| Insights.Tail | src/insights.py:29 | the last min(lookback, n) rows; a negative lookback drops that many rows from the front |
| Insights.Tally | src/insights.py:30 | each reported label comes with its exact count, which is positive |
| Insights.RegimeTimeShare | src/insights.py:24-35 | empty without rows or labels |
| Insights.ShareRows | src/insights.py:34 | pct = count / total · 100 for every row |
| Insights.CountsCoverWindow | src/insights.py:30 | the per-label counts add up to the window length |
| Insights.ShareTotals | src/insights.py:30-34 | counts sum to the window length and percentages to 100 |
| Insights.ShareRowsCount | src/insights.py:30-34 | every row is a label present in the window, with its exact count and percentage |
| Insights.ShareRowsDistinct | src/insights.py:30-33 | no label is reported twice |
| Insights.ShareRowsComplete | src/insights.py:30-33 | every label present in the window is reported |
| Insights.ShareRowsDescending | src/insights.py:30 | counts never increase down the table |
| Pipeline.NormalizeWeights | app.py:140-144 | a non-positive total resets to (0.5, 0.3, 0.2); otherwise each weight is its share of the total |
| Pipeline.NormalizedWeightsTotalOne | app.py:140-144 | the weights used always total 1, and non-negative inputs stay non-negative |
| Pipeline.NormalizeIdempotent | app.py:140-144 | normalising twice equals normalising once |
| Pipeline.RouteMode | app.py:40-47 | percentile stays percentile; every other mode becomes std |
| Pipeline.RoutedModeNeverFails | app.py:40-47 | through the routing, the threshold estimator never reports an unknown mode |
| Pipeline.CompleteRows | app.py:38 | exactly the complete rows, in increasing order |
| Pipeline.DropIncomplete | app.py:38 | `dropna` keeps the columns and only the complete rows, in order, all cells defined |
| Pipeline.LastCompleteRow | app.py:50 | the last kept row is complete, and no later row is |
| Pipeline.LatestComplete | app.py:38-50 | the position of the row `iloc[-1]` reads, complete and with no complete row after it |
| Pipeline.ZFeatures | app.py:34-36 | the feature stages keep rows, labels and the market columns, and add the rolling z-scores of the funding rate, of the open-interest change and of the absolute log return |
| Pipeline.Featurize | app.py:34-37 | the same z-columns of the market columns, and `clp` in every row the weighted sum of that row's z-scores |
| Pipeline.Report | app.py:49-61 | labels every row against the thresholds, and the snapshot is consistent and reads the last row |
| Pipeline.Finish | app.py:38-62 | fails exactly when no complete row remains; otherwise labels the complete rows and reports the last one |
| Pipeline.ComputeOne | app.py:19-62 | fails exactly when no row is complete; a snapshot names its symbol and its label matches its score and thresholds |
| Pipeline.ComputeOneFrame | app.py:38-62 | the returned frame holds only the complete rows, each labelled against the reported thresholds; the snapshot label is the last row's |
| Pipeline.ComputeOneReportsLastCompleteRow | app.py:50-58 | price, funding, open interest and score come from the latest complete row |
| Dashboard.Outcome | app.py:168-179 | a failed download becomes its error; a result names its symbol and is consistent |
| Dashboard.OutcomeNamesItsSymbol | app.py:52-53 | each symbol's computation reports that symbol |
| Dashboard.CollectSnapshots | app.py:165-179 | one entry per symbol in order, loaded exactly when its own computation succeeds; frames for exactly the loaded symbols |
| Dashboard.LoadedSnapshots | app.py:190 | corrected table (see Findings): exactly the snapshots that loaded |
| Dashboard.LoadedCount | app.py:190 | corrected table (see Findings): each loaded snapshot occurs as often as among the entries |
| Dashboard.NoValidData | app.py:191-193 | the early exit happens exactly when no symbol loaded |
| Dashboard.RankingOrdered | app.py:195-196 | corrected table (see Findings): a permutation of the loaded snapshots, scores non-increasing, ranks 1..n |
| Dashboard.ExtremeRows | app.py:203 | exactly the rows with clp > extreme threshold |
| Dashboard.StressRows | app.py:204 | exactly the rows with stress < clp ≤ extreme |
| Dashboard.CalmRows | app.py:203-204 | exactly the rows in neither flag set |
| Dashboard.FlagPartition | app.py:203-204 | each row is in exactly one of the extreme, stress and calm sets |
| Dashboard.FlagsMatchRegime | app.py:203-204 | for consistent snapshots the flags are exactly the Extreme and Stress labels |
| Dashboard.BannerFor | app.py:206-211 | extreme alert if any row is extreme; otherwise stress warning if any is stressed; otherwise all clear |
| Dashboard.RegimeTracker.constructor | app.py:74-77 | the session starts with no previous labels and an empty flip log |
| Dashboard.RegimeTracker.Observe | app.py:212-221 | the map becomes `After`, the changes are `Flips`, and the log is only appended to |
| Dashboard.AfterUntouched | app.py:215-221 | a symbol not in the refresh keeps its previous entry, or stays absent |
| Dashboard.AfterLastRow | app.py:221 | each processed symbol maps to the label of its last row |
| Dashboard.FlipsAgainstPreviousRefresh | app.py:215-220 | with distinct symbols, one message per symbol whose previous label existed and differed |
| Dashboard.StableRefresh | app.py:217 | a refresh with no changed label logs nothing and leaves the map as it was |
| Dashboard.RepeatedRefreshLogsNothing | app.py:212-221 | repeating a refresh with the same labels logs nothing |
| Dashboard.WatchRows | app.py:181-190 | the table as written keeps one row per entry; a loaded entry carries its snapshot's score and label, a failed one neither |
| Dashboard.FailedSymbolLogsFlipsAsWritten | app.py:190 | as written, a symbol that keeps failing logs "Normal → nan" and then "nan → nan" |
| Dashboard.FailuresLogNothing | app.py:212-221 | tracking only the loaded snapshots, failures log nothing when no loaded label changed |
| Dashboard.FailedSymbolKeepsLabel | app.py:212-221 | a failed symbol keeps its last computed label in the corrected tracker |
| Dashboard.ArgMaxAbs | app.py:284 | the first position of the largest magnitude |
| Dashboard.TopContributor | app.py:273-284 | the component with the largest contribution magnitude, the earliest on ties |
| Dashboard.FocusDriver | app.py:273-284 | the main driver's contribution in the focus frame's last row has the largest magnitude, the earliest on ties |
| Dashboard.CombineIsContributionSum | app.py:274-276 | a defined score is the sum of the three contributions |
| Dashboard.ReportContributions | app.py:273-276 | the last row's contributions add up to the reported score |
| Dashboard.ContributionsAddUpToScore | app.py:273-276 | for the focus symbol, the contributions shown add up to the score in its snapshot |

## Left out

- The network download is not modelled; it is a parameter of `Dashboard.Outcome`:
  - its retries, and its alignment of funding and open interest to candles by `merge_asof`;
  - `src/binance_api.py` is not part of this model.
- The figures are not modelled; `src/viz.py` is not part of this model.
- The snapshot history CSV and its timestamps are not modelled; `src/state.py` is not part of this model.
- These Streamlit parts are left out, because they are presentation or caching and have no logic to verify:
  - the widgets;
  - `cache_data` memoisation;
  - auto-refresh;
  - charts, the CSV export, and the History and About tabs;
  - the market-average metric;
  - the crowding-index metric call at app.py:198, whose logic is `Risk.CrowdingIndex`;
  - focus-symbol selection, and the display name of the main driver;
  - the streak-to-minutes display;
  - the display of the last 8 flips.
- Floating point is not modelled: every number is a real.
  - Rounding effects are absent, such as a tiny non-zero sd on a constant window.
  - NaN is `None`.
- The logarithm and square root are uninterpreted parameters. Only the square-root laws are assumed, and only where a lemma needs them.
- Features.OiChange: a zero previous open interest gives an undefined change. pandas gives ±inf, or NaN for 0/0.
- Features.OiChange: the legacy `pct_change` padding of interior gaps is not modelled. Such gaps arise only where a downloaded open-interest value fails to parse.
- Scoring.ComputeThresholds: requires probabilities in [0, 1] in percentile mode. pandas raises outside that range.
- Risk.CrowdingIndex: requires `top_pct` in [0, 1]. numpy raises outside the percentile range.
- Risk.CrowdingIndex: requires `min_n ≥ 1`. With `min_n ≤ 0` and no defined score, the source takes the mean of an empty array.
- Scoring.Classify: an undefined score is labelled Normal, because the code compares NaN as false. In the pipeline this case does not arise: `compute_one` drops the rows with an undefined score before labelling (app.py:38).
- Sorting.SortBy: the order among equal keys is not stated. pandas `sort_values` uses an unstable quicksort, and `value_counts` leaves the order of equal counts unspecified; the model fixes one such order.
- Dashboard.CollectSnapshots: takes the per-symbol computation as a parameter. `Dashboard.OutcomeNamesItsSymbol` shows that the dashboard's computation meets its requirement.
- Dashboard.RankingOrdered: as written, failed symbols are ranked last with an undefined score. `sort_values` puts their NaN scores last, line 196 gives them ranks after the loaded symbols, and the "Tracked Symbols" metric at app.py:202 counts them. The model ranks only the loaded snapshots, as in Findings; the as-written ranking is not modelled.
- Dashboard.WatchRows: keeps the watchlist order. The source sorts the table first, with undefined scores last. This does not change the order in the finding's example.
- Pipeline.ComputeOne: `latest.get` falls back to NaN for a missing funding or open-interest column. The model requires the merged frame to carry those columns.

## Findings

| source | as written | input that shows it | evidently intended | confidence | as-written member | corrected member |
|---|---|---|---|---|---|---|
| app.py:190 | `drop(columns=["error"])` removes the error column, not the failed rows. A failed symbol stays in `good` with NaN score and label, and the flip loop compares NaN (`NaN != x` is true). | ETHUSDT loads as Normal. BTCUSDT was last seen Normal and now fails on two refreshes in a row. The log gets "BTCUSDT: Normal → nan" and then "BTCUSDT: nan → nan". | Only the symbols that loaded are ranked, flagged and tracked. A failed symbol logs nothing and keeps its last label. | not executed | Dashboard.FailedSymbolLogsFlipsAsWritten | Dashboard.FailuresLogNothing |
