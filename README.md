# Weekly equity-selection backtest, modelled in Dafny

This project models the deterministic core of a weekly cross-sectional stock-selection backtest written with pandas, and proves what it computes. Each week a classifier scores every ticker. The top-scoring fraction is held with equal weights. A cost proportional to turnover is charged, and the net return is compared with a benchmark ticker (SPY). The whole evaluation runs walk-forward, one calendar year at a time: each year's model is trained only on rows from earlier years.

A data frame is a `seq<Row>` in frame order, indexed by (Date, Ticker). A missing cell (NaN) is `None`, and every number is an exact `real`. The modules follow the source files:

| module | source file | form |
|---|---|---|
| `Frames` | shared vocabulary | rows, missing values, exceptions, per-date sums, (Date, Ticker) lookup, distinct sorted dates |
| `Backtest` | `src/backtest.py` | pure functions and lemmas |
| `LabelConstruction` | `src/label_construction.py` | pure functions and lemmas |
| `ModelTraining` | `src/model_training.py` | pure functions and lemmas |
| `PerformanceMetrics` | `src/performance_metrics.py` | pure functions and lemmas |
| `WalkForward` | `src/walk_forward.py` | a method with a loop over years, proved equal to a specification function |

How each piece is modelled:
- **Backtest.** Every column `run_backtest` adds is a function of the frame and a row index: `Rank`, `N`, `InPortfolio`, `Weight`, `PrevWeight` and `Turnover`. Every per-date aggregate is a function of the frame and a date.
  - The previous weight is an explicit lookup: the last earlier row of the same ticker.
  - An exception is an `Err` value.
- **Walk-forward.** The classifier is a pair of uninterpreted functions:
  - `fit` takes the fit and validation matrices and labels and returns a model of any type;
  - `predict` takes a model and one feature vector and returns a probability.
- **Performance metrics.** Annualised volatility is a parameter `vol`.

Where the code differs from what its comments and names suggest, the model follows the code:
- The weekly return the backtest earns is each row's `Return_1w`, as written. It is not a separately supplied forward return.
- `PrevWeight` is the ticker's weight on its immediately previous row. That weight is 0 if nothing was held that week; it is not carried forward from the last non-empty portfolio.
- The no-lookahead property holds for rows: fold Y trains only on rows of earlier years. Labels are computed earlier, from the whole frame. A December row's label therefore reads closes up to four rows later, possibly in year Y. The model states the property only for rows.

## Model

| member | source | states |
|---|---|---|
| `Frames.Dates` | src/backtest.py:34 | the dates `groupby("Date")` produces: strictly increasing, and a value is listed iff some row carries that date |
| `Frames.RowOfUnique` | src/backtest.py:46-52 | when (Date, Ticker) keys are unique, the lookup on a key finds exactly the row that carries it |
| `Backtest.RunBacktest` | src/backtest.py:6-54 | raises `KeyError` iff the benchmark is on no row; otherwise one result per distinct date in increasing order; each carries net return, benchmark return and excess; excess is present iff the benchmark is, and then equals net minus benchmark |
| `Backtest.LastWithTicker` | src/backtest.py:38 | the previous row of a ticker: the last earlier row with that ticker, none in between; none at all when the result is missing |
| `Backtest.PrevRow` | src/backtest.py:38 | `groupby("Ticker").shift(1)`: the previous row is an earlier row of the same ticker with none in between, and is missing iff no earlier row has that ticker |
| `Backtest.PrevWeight` | src/backtest.py:38 | the previous weight lies in [0, 1], and is 0 (the `fillna(0.0)`) when the ticker has no earlier row |
| `Backtest.WeightChange` | src/backtest.py:39 | a row's `\|Weight - PrevWeight\|` lies in [0, 1] |
| `Backtest.RankOrder` | src/backtest.py:20 | a higher prediction, or an equal one earlier in the frame, gets a strictly lower rank (`method="first"`) |
| `Backtest.RankDistinct` | src/backtest.py:20 | two different scored rows of one date never share a rank |
| `Backtest.Rank` | src/backtest.py:20-21 | every rank lies in 1..N, where N counts the date's rows that have a prediction |
| `Backtest.Count` | src/backtest.py:21 | `transform("count")`: N is 0 iff no row of the date has a prediction |
| `Backtest.RanksArePermutation` | src/backtest.py:20-21 | within a date the ranks are exactly {1..N}, one distinct rank per scored row |
| `Backtest.QuantileBoundary` | src/backtest.py:22-25 | `rank / N <= q` holds iff rank <= floor(q·N); the boundary is inclusive |
| `Backtest.SelectedIff` | src/backtest.py:22-25 | a scored row is in the portfolio iff its rank is at most floor(q·N) |
| `Backtest.SelectedRankBounded` | src/backtest.py:22-25 | a selected row's rank lies in 1..floor(q·N), clamped to N |
| `Backtest.SelectedRankReached` | src/backtest.py:22-25 | every rank in 1..floor(q·N), clamped to N, belongs to a selected row |
| `Backtest.SelectionCount` | src/backtest.py:22-25 | the number selected on a date is floor(q·N), clamped to 0..N |
| `Backtest.TwoOfTenAtDefaultQuantile` | src/backtest.py:22-25 | with ten scored rows and the default 0.2, exactly two are held |
| `Backtest.WeightOfRow` | src/backtest.py:28-31 | a selected row weighs 1/k (k = number selected on its date), any other row 0; every weight lies in [0, 1] |
| `Backtest.Weight` | src/backtest.py:28-31 | every weight, after the zero-selection guard, lies in [0, 1] |
| `Backtest.WeightsAreIndicator` | src/backtest.py:28-31 | on a date's rows the weight column is 1/k on the selected rows and 0 elsewhere, with the zero-selection guard |
| `Backtest.WeightsSumToOne` | src/backtest.py:28-31 | a date's weights sum to 1, or to 0 when nothing is selected |
| `Backtest.GrossReturnBounds` | src/backtest.py:34 | the gross return lies between any bounds on the selected rows' returns, and is 0 when nothing is selected |
| `Backtest.MissingReturnsEarnNothing` | src/backtest.py:34 | the sum skips a missing `Return_1w`, so a week whose held rows all lack it has gross return 0 |
| `Backtest.ContributionBounds` | src/backtest.py:34 | a row's `Weight * Return_1w` lies between its weight times `lo` and times `hi` when a selected row's return lies in [lo, hi]; an unselected row, of weight 0, contributes 0 |
| `Backtest.Turnover` | src/backtest.py:39-40 | turnover, half the summed absolute weight changes of the date, is never negative |
| `Backtest.Cost` | src/backtest.py:42 | with bps >= 0 the transaction cost is non-negative |
| `Backtest.NetReturn` | src/backtest.py:43 | with bps >= 0 the net return never exceeds the gross return |
| `Backtest.FirstDateHasNoHistory` | src/backtest.py:38 | in a date-sorted frame with unique keys, no row of the first date has an earlier row of its ticker, so its `PrevWeight` is 0 |
| `Backtest.FirstWeekTurnover` | src/backtest.py:38-40 | in the first week of a run that holds anything, turnover is exactly 0.5 |
| `Backtest.UnchangedWeightsNoTurnover` | src/backtest.py:38-40 | when every row of a date keeps its ticker's previous weight, turnover is 0 |
| `Backtest.UnwindTurnover` | src/backtest.py:38-40 | a date that selects nothing while a present ticker held weight on its previous row has positive turnover |
| `Backtest.UnwindIsCharged` | src/backtest.py:38-43 | that unwinding week also has a positive cost when bps > 0 |
| `Backtest.BenchReturnIsJoin` | src/backtest.py:46-52 | the left join: missing when the benchmark has no row that date; with unique keys, the benchmark row's own `Return_1w` otherwise |
| `Backtest.BenchReturn` | src/backtest.py:46-52 | the benchmark return of a date is missing when the benchmark has no row that date, and when present it is the `Return_1w` of a benchmark row of that date |
| `Backtest.TwoTickerSelection` | src/backtest.py:19-25 | A scored 0.9 and B 0.1 in one week, at q = 0.5: N = 2, floor(0.5·2) = 1, so only A, rank 1, is held |
| `Backtest.TwoTickerWeek` | src/backtest.py:19-43 | in that fresh week at 20 bps: gross 0.02 (A's return), turnover 0.5 (A bought from nothing), cost 0.001, net 0.019 |
| `LabelConstruction.ComputeForwardReturns` | src/label_construction.py:17-29 | a copy of the frame: same length, every other column unchanged, `FwdRet_4w` set to the per-ticker shifted growth of each row |
| `LabelConstruction.Growth` | src/label_construction.py:25-28 | `Close[t+h] / Close[t] - 1` is present iff both closes are present and the current one is non-zero, and then compounds the current close into the future one |
| `LabelConstruction.PositionIndex` | src/label_construction.py:26 | a row sits at its own position in its ticker's ordered row list |
| `LabelConstruction.PositionOrder` | src/label_construction.py:26 | within a ticker, positions follow frame order in both directions |
| `LabelConstruction.TickerSplit` | src/label_construction.py:26 | a ticker's rows split into those before a row, the row, and those after; the row's position is the count before it |
| `LabelConstruction.ForwardReturnOfTarget` | src/label_construction.py:25-28 | the forward return is `Close[t+h] / Close[t] - 1`, taking the row `h` places further on in the same ticker, which comes later in the frame when h > 0 |
| `LabelConstruction.ForwardReturnSource` | src/label_construction.py:25-28 | a present forward return was computed from a row of the same ticker `h` places on, with both closes present and the current one non-zero |
| `LabelConstruction.ShiftInRange` | src/label_construction.py:25-28 | the shifted row exists iff the ticker has enough rows after (or before) the row |
| `LabelConstruction.LastRowsMissing` | src/label_construction.py:25-28 | a row with fewer than `h` later rows of its ticker has a missing forward return |
| `LabelConstruction.LastFourWeeksMissing` | src/label_construction.py:17-28 | at the default horizon of 4, a row with fewer than four later rows of its ticker has a missing `FwdRet_4w` |
| `LabelConstruction.ConstructLabels` | src/label_construction.py:32-50 | raises `KeyError` iff the benchmark is on no row; otherwise the inputs are kept and the benchmark forward return of the date is joined; excess is present iff both returns are, and equals their difference; the label is in {0, 1} and is 1 iff the excess is present and strictly above the threshold |
| `LabelConstruction.BenchForwardIsJoin` | src/label_construction.py:42-47 | the date-aligned join: missing when the benchmark has no row that date; with unique keys, the benchmark row's own forward return otherwise |
| `LabelConstruction.BenchForward` | src/label_construction.py:42-47 | the benchmark forward return of a date is missing when the benchmark has no row that date, and when present it is the `FwdRet_4w` of a benchmark row of that date |
| `LabelConstruction.LabelOf` | src/label_construction.py:49 | the label is 0 or 1, and is 1 iff the excess is present and strictly above the threshold (a NaN compares false) |
| `LabelConstruction.BenchmarkLabelledZero` | src/label_construction.py:47-49 | with unique keys and threshold >= 0, the benchmark's own rows are labelled 0 |
| `LabelConstruction.LabelMonotone` | src/label_construction.py:49 | raising the threshold can only turn labels from 1 to 0 |
| `LabelConstruction.DefaultLabelBeatsBenchmark` | src/label_construction.py:32-50 | at the defaults (SPY, threshold 0) a row is labelled 1 iff its forward return and the benchmark's on its date are both present and its own is strictly higher |
| `ModelTraining.KeepComplete` | src/model_training.py:24 | the `dropna`: never longer than the input, and every kept row has all seven features and the label |
| `ModelTraining.KeepCompleteMembers` | src/model_training.py:24 | a row is kept iff it is an input row with all seven features and the label |
| `ModelTraining.KeepAppend` | src/model_training.py:24 | filtering distributes over concatenation, so kept rows stay in input order |
| `ModelTraining.KeepCompleteOrder` | src/model_training.py:24 | of two kept rows, the earlier one comes from an earlier position of the input |
| `ModelTraining.KeepAllComplete` | src/model_training.py:24 | a frame without missing features or labels passes unchanged |
| `ModelTraining.KeepIdempotent` | src/model_training.py:24 | filtering the kept rows again keeps all of them |
| `ModelTraining.FeatureVector` | src/model_training.py:11-25 | a row of X has one entry per `FEATURE_COLS` name, in list order, holding that column's value |
| `ModelTraining.PrepareXY` | src/model_training.py:23-27 | X, y and the key index have the kept rows' length; entry k holds the k-th kept row's key, feature vector and integer label |
| `ModelTraining.XYAligned` | src/model_training.py:25-27 | the k-th key, X row and label all come from one complete input row |
| `PerformanceMetrics.Mean` | src/performance_metrics.py:7 | the mean is missing iff the series is empty |
| `PerformanceMetrics.AnnualizedReturn` | src/performance_metrics.py:6-8 | `(1 + mean)^52 - 1`, missing iff the series is empty |
| `PerformanceMetrics.Pow` | src/performance_metrics.py:8 | `x ** 52` is positive for a positive base and exactly 1 for a base of 1 |
| `PerformanceMetrics.AllZeroAnnualizesToZero` | src/performance_metrics.py:6-8 | an all-zero series annualises to exactly 0 |
| `PerformanceMetrics.AnnualizedReturnSign` | src/performance_metrics.py:6-8 | the annualised return is >= -1; a positive mean gives a positive result; a mean in (-2, 0) gives a negative result |
| `PerformanceMetrics.Excess` | src/performance_metrics.py:17 | the excess series has the same length, with each week lowered by rf/52 |
| `PerformanceMetrics.SumOfShift` | src/performance_metrics.py:17 | lowering every week by w lowers the total by n·w |
| `PerformanceMetrics.ExcessMean` | src/performance_metrics.py:17 | the mean of the excess series is the mean minus rf/52 |
| `PerformanceMetrics.ZeroRiskFreeRate` | src/performance_metrics.py:15-17 | at the default rf = 0 the excess series is the series itself |
| `PerformanceMetrics.SharpeRatio` | src/performance_metrics.py:15-21 | missing iff the series is empty or the excess series has volatility 0; otherwise times that volatility it gives the annualised excess return |
| `PerformanceMetrics.SharpeSign` | src/performance_metrics.py:19-21 | with positive volatility the ratio exists and has the sign of the annualised excess return, in both directions |
| `PerformanceMetrics.EquityCurve` | src/performance_metrics.py:37-38 | `eq[0] = 1 + r[0]` and `eq[t] = eq[t-1]·(1 + r[t])`, with the series' length |
| `PerformanceMetrics.CompoundedAppend` | src/performance_metrics.py:37-38 | compounding one more week multiplies the growth by 1 + r |
| `PerformanceMetrics.EquityIsCompounded` | src/performance_metrics.py:37-38 | each point of the curve is the product of (1 + r) over the weeks up to it |
| `PerformanceMetrics.EquityPositive` | src/performance_metrics.py:37-38 | returns above -100% keep every point of the curve positive |
| `PerformanceMetrics.RunningMax` | src/performance_metrics.py:25 | `cummax`: each entry is at least every earlier point and is one of them |
| `PerformanceMetrics.RunningMaxPositive` | src/performance_metrics.py:25 | the running peak of a positive curve is positive |
| `PerformanceMetrics.MaxDrawdown` | src/performance_metrics.py:24-27 | missing iff the curve is empty; otherwise the least drawdown, and attained at some point |
| `PerformanceMetrics.FirstDrawdownZero` | src/performance_metrics.py:25-26 | the drawdown at the first point is 0 |
| `PerformanceMetrics.Drawdown` | src/performance_metrics.py:25-26 | every drawdown of a positive curve lies in (-1, 0] |
| `PerformanceMetrics.LowestDrawdown` | src/performance_metrics.py:27 | `dd.min()` over the first n points: at most every drawdown among them and equal to one of them |
| `PerformanceMetrics.MaxDrawdownRange` | src/performance_metrics.py:24-27 | the maximum drawdown of a non-empty positive curve lies in (-1, 0] |
| `PerformanceMetrics.AtPeak` | src/performance_metrics.py:25 | a curve that never falls is always at its running peak |
| `PerformanceMetrics.NotBelowPeak` | src/performance_metrics.py:25-26 | a point whose drawdown is not negative is at least every earlier point |
| `PerformanceMetrics.MaxDrawdownZeroIff` | src/performance_metrics.py:24-27 | for a non-empty positive curve the maximum drawdown is 0 iff the curve never falls |
| `PerformanceMetrics.CurveDrawdown` | src/performance_metrics.py:24-27 | the maximum drawdown of a return series' equity curve is present iff the series is non-empty and the curve positive, and then lies in (-1, 0] |
| `PerformanceMetrics.CurveDrawdownDefined` | src/performance_metrics.py:37-38 | a non-empty series of returns above -100% always has a maximum drawdown |
| `PerformanceMetrics.DropMissing` | src/performance_metrics.py:34-35 | `dropna`: never longer than the input, and a value is kept iff it is present in the input |
| `PerformanceMetrics.DropMissingAppend` | src/performance_metrics.py:34-35 | `dropna` distributes over concatenation, so order is kept |
| `PerformanceMetrics.DropMissingComplete` | src/performance_metrics.py:34-35 | a column with no missing value passes unchanged |
| `PerformanceMetrics.SummarizePerformance` | src/performance_metrics.py:30-49 | the eight statistics: the portfolio's annualised return, volatility, Sharpe ratio at rf = 0 and maximum drawdown are those of every week's net return in order (its column is never missing); the benchmark's are those of its column with missing weeks dropped |
| `PerformanceMetrics.PortSeriesIsEveryWeek` | src/performance_metrics.py:34 | the portfolio column is never missing, so its series is every week's net return in order |
| `PerformanceMetrics.PortStatsIgnoreBenchmark` | src/performance_metrics.py:34-35 | the four portfolio statistics do not depend on where the benchmark is missing |
| `WalkForward.YearsBefore` | src/walk_forward.py:39-42 | the training mask: a row is kept iff it is an input row of an earlier year |
| `WalkForward.YearRows` | src/walk_forward.py:40-43 | the test mask: a row is kept iff it is an input row of year Y |
| `WalkForward.NoLookahead` | src/walk_forward.py:39-43 | training rows are from years < Y and test rows from Y, so no row is in both |
| `WalkForward.ValidationSize` | src/walk_forward.py:55-57 | the validation tail is the least v with 5·v >= n, that is ceil(0.2·n), and at most n |
| `WalkForward.FitSize` | src/walk_forward.py:55-57 | the fit part is the rest of the n prepared rows, and is empty iff n <= 1 |
| `WalkForward.SplitTrain` | src/walk_forward.py:49-57 | fit keys, X and y are the first `FitSize` prepared training rows and validation keys, X and y the last `ValidationSize`, in frame order, each entry's features and label from one row |
| `WalkForward.TrainedModel` | src/walk_forward.py:49-59 | no model (the split raises) iff at most one training row survives `dropna`; otherwise `fit` applied to the split's fit and validation parts |
| `WalkForward.SplitIsOrdered` | src/walk_forward.py:55-57 | every fit row comes from an earlier position of the training frame than every validation row |
| `WalkForward.SplitRespectsTime` | src/walk_forward.py:52-57 | on a date-sorted training frame, no fit row is dated after a validation row |
| `WalkForward.YearsBeforeOrdered` | src/walk_forward.py:39-42 | the training mask keeps a frame date-sorted with unique keys |
| `WalkForward.FoldSplitRespectsTime` | src/walk_forward.py:39-57 | on a date-sorted frame with unique keys, fold Y's model is fitted on no row dated after a row it is validated on |
| `WalkForward.Score` | src/walk_forward.py:63-65 | every row keeps all its columns and gets `PredProb` = the model's prediction on its own feature vector |
| `WalkForward.ScoredTestRows` | src/walk_forward.py:63-65 | the scored test frame: the test rows with every feature and the label, in order, each with `PredProb` from its own features; a row is in it iff it is such a test row, scored |
| `WalkForward.ScoredRowsOfFold` | src/walk_forward.py:63-65 | the backtest of fold Y sees exactly the year-Y rows with every feature and the label, in order, each scored from its own features |
| `WalkForward.YearRowsOrdered` | src/walk_forward.py:40-43 | the rows of one year of a date-sorted frame with unique keys are again date-sorted with unique keys |
| `WalkForward.KeepCompleteOrdered` | src/walk_forward.py:63 | the `dropna` keeps a frame date-sorted with unique keys |
| `WalkForward.FoldStartsFresh` | src/walk_forward.py:63-68 | each fold's backtest runs on ordered rows: on its first date no ticker has an earlier row, and a first week that holds anything turns over exactly 0.5; no position carries over from the previous fold |
| `WalkForward.Tag` | src/walk_forward.py:69 | every result of the fold carries `Year = Y`, in order, nothing else changed |
| `WalkForward.ProducedIsTagged` | src/walk_forward.py:69 | every row a fold produces carries that fold's year |
| `WalkForward.OutcomesTagged` | src/walk_forward.py:69 | that holds for every year's fold |
| `WalkForward.Concat` | src/walk_forward.py:72 | a row is in the concatenation iff it is in one of the yearly frames |
| `WalkForward.InsertByDate` | src/walk_forward.py:72 | inserting into a date-sorted list keeps it sorted and adds exactly that row |
| `WalkForward.SortByDate` | src/walk_forward.py:72 | `sort_index`: the result is in date order and is a permutation of the input |
| `WalkForward.RunFold` | src/walk_forward.py:38-46 | a year is skipped iff no row is from an earlier year or none is from that year |
| `WalkForward.FoldOn` | src/walk_forward.py:45-70 | skip iff train or test is empty; raise the split error iff at most one training row survives `dropna`; raise the empty-input `ValueError` of `predict_proba` iff no test row survives `dropna`; raise `KeyError` iff some test row survives but none of them is the benchmark; a produced frame is tagged with its year |
| `WalkForward.BacktestFold` | src/walk_forward.py:62-70 | with a fitted model: the empty-input error iff no test row is complete, `KeyError` iff some is but no complete row is the benchmark, otherwise a frame tagged with its year |
| `WalkForward.BenchmarkScored` | src/walk_forward.py:63-68 | the benchmark is in the scored test frame iff some complete test row holds it |
| `WalkForward.ProducedYears` | src/walk_forward.py:38-70 | the years of the range whose iteration appends a frame, each once, in increasing order |
| `WalkForward.Collect` | src/walk_forward.py:36-70 | `all_results` holds one frame per producing year of the range, so at most one per year |
| `WalkForward.CollectRaises` | src/walk_forward.py:38-70 | the loop raises iff some year fails, and then with the error of the first failing year |
| `WalkForward.CollectIsProduced` | src/walk_forward.py:38-70 | without an exception, `all_results` is exactly the producing years' frames, in year order |
| `WalkForward.CollectFrames` | src/walk_forward.py:38-70 | a frame is collected iff some year of the range produced it, both directions |
| `WalkForward.Finish` | src/walk_forward.py:72 | concat and sort: an earlier error passes through; no frames raises; otherwise the rows are date-sorted and a permutation of the concatenation |
| `WalkForward.RunRaises` | src/walk_forward.py:38-72 | a run raises the error of one of its years or the empty-concat error, and the latter whenever every year is skipped |
| `WalkForward.YearLoop` | src/walk_forward.py:36-73 | for any per-year iteration, the loop over `start..end` returns what `Collect` and `Finish` describe: the first exception raised, or the empty-concat error, or the sorted concatenation of the produced frames |
| `WalkForward.WalkForwardBacktest` | src/walk_forward.py:25-73 | the whole function, running the year loop with `RunFold` as the iteration, returns exactly its specification `WalkForwardSpec` |
| `WalkForward.FailureStops` | src/walk_forward.py:38-70 | once an iteration raises, later years do not change the run's outcome |
| `WalkForward.FramesInYearOrder` | src/walk_forward.py:38-70 | the collected frames come from years in [start, end], in strictly increasing year order |
| `WalkForward.BeforeThrough` | src/walk_forward.py:39 | removing the rows after year t leaves the training rows of any year up to t+1 unchanged |
| `WalkForward.InYearThrough` | src/walk_forward.py:40 | removing the rows after year t leaves the test rows of any year up to t unchanged |
| `WalkForward.FoldIgnoresFuture` | src/walk_forward.py:39-43 | fold Y gives the same outcome whatever the rows of later years hold |
| `WalkForward.ResultsIgnoreFuture` | src/walk_forward.py:38-43 | the frames collected up to year `last` are unchanged by removing every row after `last` |
| `WalkForward.AllSkipped` | src/walk_forward.py:45-46 | when every year is skipped nothing is collected |
| `WalkForward.EmptyFrameRaises` | src/walk_forward.py:45-72 | an empty frame skips every year, so the final `pd.concat` raises |
| `WalkForward.RunResult` | src/walk_forward.py:72 | a successful run is date-sorted, a permutation of the concatenated frames, and every row is tagged with a year in [start, end] |

## Left out

- `src/data_loader.py` and `src/feature_engineering.py` are not part of this model. They do the network download, the resampling and the technical indicators. `Return_1w`, `Close` and the feature columns are opaque inputs per row.
- `train_lgbm`, LightGBM and `roc_auc_score` are foreign library code. The classifier is the pair of uninterpreted functions `fit` and `predict`.
  - A failure inside LightGBM is not modelled, except the `ValueError` of `predict_proba` on a test frame with no row left after `dropna`, which is the error `EmptyTestSet`.
  - The `print` of the validation AUC is not modelled.
  - `predict` is applied to each row's feature vector on its own, which is how `predict_proba` behaves.
- `annualized_vol` (sample standard deviation times √52) is floating-point numerics with a square root. It is the parameter `vol`.
  - The NaN that pandas' `std` gives for a one-row series is not modelled.
- `PerformanceMetrics.SharpeRatio`: the zero-volatility guard is exact equality over reals. A float volatility that is tiny but non-zero is not modelled.
- `WalkForward.TrainedModel`: the validation AUC of `train_lgbm` is not modelled. `roc_auc_score` raises when the validation labels are all one class, which ends the run; with 2 to 5 complete training rows the validation tail is a single row, so this always happens there. The model lets such a fold go on.
- `Backtest.QuantileBoundary`: `Rank / N <= 0.2` is compared over exact reals. Binary rounding of 0.2 and of the quotient is not modelled.
- `LabelConstruction.Growth`: a close of 0 gives a missing forward return. pandas would give ±inf, or NaN for 0/0.
- `PerformanceMetrics.CurveDrawdown`, `MaxDrawdown`, `Drawdown`, `LowestDrawdown`: only positive equity curves are modelled. `max_drawdown` accepts any curve. After a return of -100% or worse the curve is non-positive, and pandas then gives a number, -inf or NaN. For example, returns [0.1, -1.5, 0.1] give -1.55. `CurveDrawdown` returns `None` for such a curve. `MaxDrawdown`, `Drawdown` and `LowestDrawdown` require a positive curve.
- `Backtest.BenchReturn`, `LabelConstruction.BenchForward`: with a duplicated (Date, Ticker) key the lookup takes the first matching row. pandas' join would duplicate rows. The join lemmas state their result for unique keys.
- `WalkForward.SortByDate`: this is a stable insertion sort. pandas' `sort_index` is not stable, but within one run every date belongs to one year's frame and appears there once, so the order of equal dates never arises. This relies on each row's `year` being the calendar year of its `date`, as `get_level_values("Date").year` makes it. In `Row` the two are separate fields, and the model does not enforce that link.
- The second `prepare_xy` call, on the test rows at src/walk_forward.py:50, is not modelled. Its result is overwritten before use.
- Dates are integer keys, with the calendar year carried on each row. Calendar arithmetic is not modelled.
- The `df.copy()` at the start of each function is not modelled separately. Frames are values, so the input is never changed.
- All `load_*` and `save_*` functions, the module-level directory constants, `print` output and the `__main__` drivers are not modelled.
