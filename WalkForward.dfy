/**
 * `walk_forward_backtest`: for each year Y from the start year to the end
 * year, fit the classifier on the rows of earlier years, score the rows of
 * year Y, run a fresh backtest on them and tag its weekly results with Y;
 * finally concatenate the yearly results and sort them by date.
 *
 * The classifier is uninterpreted: `fit` maps (fit X, fit y, validation X,
 * validation y) to a model of any type `M`, and `predict` maps a model and
 * one feature vector to the predicted probability of label 1.
 */
module WalkForward {
  import opened Frames
  import opened ModelTraining
  import opened Backtest

  const DefaultStartYear: int := 2018
  const DefaultEndYear: int := 2024

  /** One output row: a backtest week and the `Year` column of the fold that produced it. */
  datatype YearResult = YearResult(period: PeriodResult, year: int)

  /** What one iteration of the year loop does. */
  datatype FoldOutcome =
    | Skipped                         // the `continue`: no training or no test rows
    | Failed(error: Error)            // an exception ends the whole run
    | Produced(rows: seq<YearResult>) // the frame appended to `all_results`

  // ---------------------------------------------------------------------
  // Masks
  // ---------------------------------------------------------------------

  /** `df[year < Y]`: the training rows. */
  function YearsBefore(df: seq<Row>, y: int): (r: seq<Row>)
    ensures forall x :: x in r <==> x in df && x.year < y
  {
    if df == [] then []
    else
      var last := df[|df| - 1];
      assert df == df[..|df| - 1] + [last];
      YearsBefore(df[..|df| - 1], y) + (if last.year < y then [last] else [])
  }

  /** `df[year == Y]`: the test rows. */
  function YearRows(df: seq<Row>, y: int): (r: seq<Row>)
    ensures forall x :: x in r <==> x in df && x.year == y
  {
    if df == [] then []
    else
      var last := df[|df| - 1];
      assert df == df[..|df| - 1] + [last];
      YearRows(df[..|df| - 1], y) + (if last.year == y then [last] else [])
  }

  /** The rows known by the end of year Y. */
  function YearsThrough(df: seq<Row>, y: int): (r: seq<Row>)
    ensures forall x :: x in r <==> x in df && x.year <= y
  {
    if df == [] then []
    else
      var last := df[|df| - 1];
      assert df == df[..|df| - 1] + [last];
      YearsThrough(df[..|df| - 1], y) + (if last.year <= y then [last] else [])
  }

  // ---------------------------------------------------------------------
  // One fold
  // ---------------------------------------------------------------------

  /**
   * The validation size of `train_test_split(test_size=0.2, shuffle=False)`
   * on n rows: the smallest v with 5 v >= n, that is ceil(0.2 n).
   */
  function ValidationSize(n: nat): (v: nat)
    ensures 5 * v >= n
    ensures n > 0 ==> 5 * (v - 1) < n
    ensures v <= n
  {
    (n + 4) / 5
  }

  /** The prepared training rows minus the validation tail: none are left exactly when n <= 1. */
  function FitSize(n: nat): (f: nat)
    ensures f + ValidationSize(n) == n
    ensures f == 0 <==> n <= 1
  {
    n - ValidationSize(n)
  }

  /** Scores every row: `PredProb` is the model's prediction on the row's own feature vector. */
  function Score<M>(rows: seq<Row>, model: M, predict: (M, seq<real>) -> real): (r: seq<Row>)
    requires forall k :: 0 <= k < |rows| ==> Complete(rows[k])
    ensures |r| == |rows|
    ensures forall k :: 0 <= k < |rows| ==>
      r[k] == rows[k].(predProb := Some(predict(model, FeatureVector(rows[k]))))
  {
    if rows == [] then []
    else
      var n := |rows| - 1;
      Score(rows[..n], model, predict) + [rows[n].(predProb := Some(predict(model, FeatureVector(rows[n]))))]
  }

  /** `year_bt["Year"] = year`. */
  function Tag(periods: seq<PeriodResult>, y: int): (r: seq<YearResult>)
    ensures |r| == |periods|
    ensures forall k :: 0 <= k < |r| ==> r[k] == YearResult(periods[k], y)
  {
    if periods == [] then [] else Tag(periods[..|periods| - 1], y) + [YearResult(periods[|periods| - 1], y)]
  }

  /** The two parts of `train_test_split(X, y, shuffle=False)`, each with its (Date, Ticker) keys. */
  datatype Split = Split(
    fitKeys: seq<(int, string)>, fitX: seq<seq<real>>, fitY: seq<int>,
    valKeys: seq<(int, string)>, valX: seq<seq<real>>, valY: seq<int>)

  /**
   * The split of the prepared training rows: the first `FitSize` of them
   * are fitted on and the last `ValidationSize` validate, each part in
   * frame order and each row's features aligned with its own label.
   */
  function SplitTrain(train: seq<Row>): (s: Split)
    ensures var kept := KeepComplete(train); var nFit := FitSize(|kept|);
      && |s.fitKeys| == |s.fitX| == |s.fitY| == nFit
      && |s.valKeys| == |s.valX| == |s.valY| == ValidationSize(|kept|)
      && (forall k :: 0 <= k < nFit ==>
            && s.fitKeys[k] == (kept[k].date, kept[k].ticker)
            && s.fitX[k] == FeatureVector(kept[k])
            && s.fitY[k] == kept[k].classLabel.value)
      && (forall k :: 0 <= k < |s.valY| ==>
            && s.valKeys[k] == (kept[nFit + k].date, kept[nFit + k].ticker)
            && s.valX[k] == FeatureVector(kept[nFit + k])
            && s.valY[k] == kept[nFit + k].classLabel.value)
  {
    var xy := PrepareXY(train);
    var nFit := FitSize(|xy.y|);
    Split(xy.keys[..nFit], xy.x[..nFit], xy.y[..nFit], xy.keys[nFit..], xy.x[nFit..], xy.y[nFit..])
  }

  /**
   * The model of fold Y, fitted on the leading part of the prepared
   * training rows and validated on their tail; `None` when
   * `train_test_split` raises because no row is left to fit on.
   */
  function TrainedModel<M>(train: seq<Row>, fit: (seq<seq<real>>, seq<int>, seq<seq<real>>, seq<int>) -> M): (m: Option<M>)
    ensures m.None? <==> |KeepComplete(train)| <= 1
    ensures m.Some? ==> m.value == fit(SplitTrain(train).fitX, SplitTrain(train).fitY, SplitTrain(train).valX, SplitTrain(train).valY)
  {
    var s := SplitTrain(train);
    if s.fitY == [] then None else Some(fit(s.fitX, s.fitY, s.valX, s.valY))
  }

  /**
   * The test frame of a fold after `dropna` and scoring: the input to its
   * backtest. It holds every test row that has its features and label,
   * in order, each scored from its own features, and nothing else.
   */
  function ScoredTestRows<M>(test: seq<Row>, model: M, predict: (M, seq<real>) -> real): (r: seq<Row>)
    ensures |r| == |KeepComplete(test)|
    ensures forall k :: 0 <= k < |r| ==>
      r[k] == KeepComplete(test)[k].(predProb := Some(predict(model, FeatureVector(KeepComplete(test)[k]))))
    ensures forall x :: x in r <==>
      exists z :: z in test && Complete(z) && x == z.(predProb := Some(predict(model, FeatureVector(z))))
  {
    var kept := KeepComplete(test);
    var r := Score(kept, model, predict);
    KeepCompleteMembers(test);
    forall x | x in r
      ensures exists z :: z in test && Complete(z) && x == z.(predProb := Some(predict(model, FeatureVector(z))))
    {
      var k :| 0 <= k < |r| && r[k] == x;
      assert kept[k] in kept;
    }
    forall z | z in test && Complete(z)
      ensures z.(predProb := Some(predict(model, FeatureVector(z)))) in r
    {
      assert z in kept;
      var k :| 0 <= k < |kept| && kept[k] == z;
      assert r[k] == z.(predProb := Some(predict(model, FeatureVector(z))));
    }
    r
  }

  /**
   * One iteration of the loop over years: it reads the frame only through
   * its two masks, and skips exactly when no row is from an earlier year or
   * none is from year Y.
   */
  function RunFold<M>(df: seq<Row>, y: int,
                      fit: (seq<seq<real>>, seq<int>, seq<seq<real>>, seq<int>) -> M,
                      predict: (M, seq<real>) -> real): (o: FoldOutcome)
    ensures o.Skipped? <==> (forall x :: x in df ==> x.year >= y) || (forall x :: x in df ==> x.year != y)
  {
    var train := YearsBefore(df, y);
    var test := YearRows(df, y);
    assert train != [] ==> train[0] in train;
    assert test != [] ==> test[0] in test;
    FoldOn(train, test, y, fit, predict)
  }

  /**
   * The iteration on given training and test rows: it skips when either is
   * empty; it raises when at most one training row survives `dropna`, when
   * no test row does (the model is then asked to score an empty frame), or
   * when the benchmark is on no scored test row; otherwise it produces its
   * backtest tagged with Y.
   */
  function FoldOn<M>(train: seq<Row>, test: seq<Row>, y: int,
                     fit: (seq<seq<real>>, seq<int>, seq<seq<real>>, seq<int>) -> M,
                     predict: (M, seq<real>) -> real): (o: FoldOutcome)
    ensures o.Skipped? <==> train == [] || test == []
    ensures o == Failed(EmptyTrainSplit(y)) <==> train != [] && test != [] && |KeepComplete(train)| <= 1
    ensures o == Failed(EmptyTestSet(y)) <==>
      train != [] && test != [] && |KeepComplete(train)| > 1 && KeepComplete(test) == []
    ensures o == Failed(TickerNotInIndex(DefaultBenchmark)) <==>
      && train != [] && test != [] && |KeepComplete(train)| > 1 && KeepComplete(test) != []
      && forall z :: z in test && Complete(z) ==> z.ticker != DefaultBenchmark
    ensures o.Failed? ==>
      o.error in {EmptyTrainSplit(y), EmptyTestSet(y), TickerNotInIndex(DefaultBenchmark)}
    ensures o.Produced? ==> forall x :: x in o.rows ==> x.year == y
  {
    if train == [] || test == [] then Skipped
    else match TrainedModel(train, fit)
      case None => Failed(EmptyTrainSplit(y))
      case Some(model) => BacktestFold(test, y, model, predict)
  }

  /**
   * The second half of an iteration, once the model is fitted: score the
   * complete test rows and backtest them. It raises when no test row is
   * complete or none of the complete ones is the benchmark.
   */
  function BacktestFold<M>(test: seq<Row>, y: int, model: M, predict: (M, seq<real>) -> real): (o: FoldOutcome)
    ensures !o.Skipped?
    ensures o == Failed(EmptyTestSet(y)) <==> KeepComplete(test) == []
    ensures o == Failed(TickerNotInIndex(DefaultBenchmark)) <==>
      KeepComplete(test) != [] && forall z :: z in test && Complete(z) ==> z.ticker != DefaultBenchmark
    ensures o.Failed? ==> o.error == EmptyTestSet(y) || o.error == TickerNotInIndex(DefaultBenchmark)
    ensures o.Produced? ==> forall x :: x in o.rows ==> x.year == y
  {
    if KeepComplete(test) == [] then Failed(EmptyTestSet(y))
    else
      var scored := ScoredTestRows(test, model, predict);
      BenchmarkScored(test, model, predict);
      match RunBacktest(scored, DefaultTopQuantile, DefaultCostBps, DefaultBenchmark)
      case Err(e) => Failed(e)
      case Ok(periods) => Produced(Tag(periods, y))
  }

  /** The benchmark is among the scored test rows exactly when some complete test row holds it. */
  lemma BenchmarkScored<M>(test: seq<Row>, model: M, predict: (M, seq<real>) -> real)
    ensures HasTicker(ScoredTestRows(test, model, predict), DefaultBenchmark) <==>
      exists z :: z in test && Complete(z) && z.ticker == DefaultBenchmark
  {
    var r := ScoredTestRows(test, model, predict);
    if HasTicker(r, DefaultBenchmark) {
      var i :| 0 <= i < |r| && r[i].ticker == DefaultBenchmark;
      assert r[i] in r;
    }
    if exists z :: z in test && Complete(z) && z.ticker == DefaultBenchmark {
      var z :| z in test && Complete(z) && z.ticker == DefaultBenchmark;
      var x := z.(predProb := Some(predict(model, FeatureVector(z))));
      assert x in r;
      var i :| 0 <= i < |r| && r[i] == x;
    }
  }

  // ---------------------------------------------------------------------
  // The whole run
  // ---------------------------------------------------------------------

  /** The outcome of every year's iteration. */
  function Outcomes<M>(df: seq<Row>,
                       fit: (seq<seq<real>>, seq<int>, seq<seq<real>>, seq<int>) -> M,
                       predict: (M, seq<real>) -> real): int -> FoldOutcome
  {
    y => RunFold(df, y, fit, predict)
  }

  /**
   * `all_results` after the iterations for years `start..last`, or the
   * exception one of them raised; at most one frame per year.
   */
  function Collect(outcome: int -> FoldOutcome, start: int, last: int): (r: Result<seq<seq<YearResult>>>)
    ensures r.Ok? ==> |r.value| <= if last < start then 0 else last - start + 1
    ensures r.Ok? ==> |r.value| == |ProducedYears(outcome, start, last)|
    decreases if last < start then 0 else last - start + 1
  {
    if last < start then Ok([])
    else match Collect(outcome, start, last - 1)
      case Err(e) => Err(e)
      case Ok(frames) =>
        match outcome(last)
        case Skipped => Ok(frames)
        case Failed(e) => Err(e)
        case Produced(rows) => Ok(frames + [rows])
  }

  /** The years of `start..last` whose iteration produced a frame, in increasing order. */
  function ProducedYears(outcome: int -> FoldOutcome, start: int, last: int): (ys: seq<int>)
    ensures forall k :: 0 <= k < |ys| ==> start <= ys[k] <= last && outcome(ys[k]).Produced?
    ensures forall z :: start <= z <= last && outcome(z).Produced? ==> z in ys
    ensures forall k, l :: 0 <= k < l < |ys| ==> ys[k] < ys[l]
    decreases if last < start then 0 else last - start + 1
  {
    if last < start then []
    else ProducedYears(outcome, start, last - 1) + (if outcome(last).Produced? then [last] else [])
  }

  /** `pd.concat` of the yearly frames. */
  function Concat(frames: seq<seq<YearResult>>): (r: seq<YearResult>)
    ensures forall x :: x in r <==> exists k :: 0 <= k < |frames| && x in frames[k]
  {
    if frames == [] then []
    else
      var n := |frames| - 1;
      var front := Concat(frames[..n]);
      assert forall k :: 0 <= k < n ==> frames[..n][k] == frames[k];
      front + frames[n]
  }

  predicate DatesAscending(s: seq<YearResult>) {
    forall i, j :: 0 <= i < j < |s| ==> s[i].period.date <= s[j].period.date
  }

  function InsertByDate(x: YearResult, s: seq<YearResult>): (r: seq<YearResult>)
    requires DatesAscending(s)
    ensures DatesAscending(r)
    ensures multiset(r) == multiset(s) + multiset{x}
    ensures forall k :: 0 <= k < |r| ==> r[k] == x || r[k] in s
  {
    if s == [] then [x]
    else if x.period.date <= s[0].period.date then
      ConsAscending(x, s);
      [x] + s
    else
      var rest := InsertByDate(x, s[1..]);
      assert s == [s[0]] + s[1..];
      ConsAscending(s[0], rest);
      [s[0]] + rest
  }

  lemma ConsAscending(a: YearResult, s: seq<YearResult>)
    requires DatesAscending(s)
    requires forall k :: 0 <= k < |s| ==> a.period.date <= s[k].period.date
    ensures DatesAscending([a] + s)
  {
    var r := [a] + s;
    forall i, j | 0 <= i < j < |r|
      ensures r[i].period.date <= r[j].period.date
    {
      assert r[j] == s[j - 1];
      if i > 0 {
        assert r[i] == s[i - 1];
      }
    }
  }

  /** `sort_index()` on the date index. */
  function SortByDate(s: seq<YearResult>): (r: seq<YearResult>)
    ensures DatesAscending(r)
    ensures multiset(r) == multiset(s)
  {
    if s == [] then []
    else
      assert s == [s[0]] + s[1..];
      InsertByDate(s[0], SortByDate(s[1..]))
  }

  /** What `walk_forward_backtest` returns or raises. */
  function WalkForwardSpec<M>(df: seq<Row>, start: int, end: int,
                              fit: (seq<seq<real>>, seq<int>, seq<seq<real>>, seq<int>) -> M,
                              predict: (M, seq<real>) -> real): Result<seq<YearResult>>
  {
    Finish(Collect(Outcomes(df, fit, predict), start, end))
  }

  /**
   * The concatenation and sort after the loop: every collected row, in
   * date order; concatenating no frame raises.
   */
  function Finish(folds: Result<seq<seq<YearResult>>>): (r: Result<seq<YearResult>>)
    ensures folds.Err? ==> r == Err(folds.error)
    ensures folds.Ok? ==> (r.Err? <==> folds.value == [])
    ensures folds.Ok? && r.Err? ==> r.error == NothingToConcatenate
    ensures r.Ok? ==> DatesAscending(r.value) && multiset(r.value) == multiset(Concat(folds.value))
  {
    match folds
    case Err(e) => Err(e)
    case Ok(frames) =>
      if frames == [] then Err(NothingToConcatenate) else Ok(SortByDate(Concat(frames)))
  }

  /** The run raises exactly when some year fails, and then with the error of the first failing year. */
  lemma CollectRaises(outcome: int -> FoldOutcome, start: int, last: int)
    ensures Collect(outcome, start, last).Err? <==> exists z :: start <= z <= last && outcome(z).Failed?
    ensures Collect(outcome, start, last).Err? ==> exists z ::
      && start <= z <= last && outcome(z) == Failed(Collect(outcome, start, last).error)
      && forall w :: start <= w < z ==> !outcome(w).Failed?
  {
    CollectFails(outcome, start, last);
    if Collect(outcome, start, last).Err? {
      CollectFirstFailure(outcome, start, last);
    }
  }

  lemma {:induction false} CollectFails(outcome: int -> FoldOutcome, start: int, last: int)
    ensures Collect(outcome, start, last).Err? <==> exists z :: start <= z <= last && outcome(z).Failed?
    decreases if last < start then 0 else last - start + 1
  {
    if start <= last {
      CollectFails(outcome, start, last - 1);
      if outcome(last).Failed? {
        assert start <= last <= last && outcome(last).Failed?;
      }
    }
  }

  lemma {:induction false} CollectFirstFailure(outcome: int -> FoldOutcome, start: int, last: int)
    requires Collect(outcome, start, last).Err?
    ensures exists z ::
      && start <= z <= last && outcome(z) == Failed(Collect(outcome, start, last).error)
      && forall w :: start <= w < z ==> !outcome(w).Failed?
    decreases if last < start then 0 else last - start + 1
  {
    match Collect(outcome, start, last - 1)
    case Err(e) =>
      CollectFirstFailure(outcome, start, last - 1);
      assert Collect(outcome, start, last) == Err(e);
    case Ok(_) =>
      CollectFails(outcome, start, last - 1);
      assert Collect(outcome, start, last) == Err(outcome(last).error);
      assert forall w :: start <= w < last ==> !outcome(w).Failed?;
  }

  /**
   * Without an exception, `all_results` is exactly the frames the years of
   * the range produced, one per producing year, in year order.
   */
  lemma {:induction false} CollectIsProduced(outcome: int -> FoldOutcome, start: int, last: int)
    requires Collect(outcome, start, last).Ok?
    ensures var frames := Collect(outcome, start, last).value;
      var ys := ProducedYears(outcome, start, last);
      && |frames| == |ys|
      && forall k :: 0 <= k < |frames| ==> frames[k] == outcome(ys[k]).rows
    decreases if last < start then 0 else last - start + 1
  {
    if start <= last {
      CollectIsProduced(outcome, start, last - 1);
    }
  }

  /**
   * Every collected frame is the frame some year of the range produced, and
   * every frame a year of the range produced is collected.
   */
  lemma {:induction false} CollectFrames(outcome: int -> FoldOutcome, start: int, last: int)
    requires Collect(outcome, start, last).Ok?
    ensures var frames := Collect(outcome, start, last).value;
      forall k :: 0 <= k < |frames| ==> exists z :: start <= z <= last && outcome(z) == Produced(frames[k])
    ensures forall z :: start <= z <= last && outcome(z).Produced? ==>
      outcome(z).rows in Collect(outcome, start, last).value
    decreases if last < start then 0 else last - start + 1
  {
    if start <= last {
      CollectFrames(outcome, start, last - 1);
    }
    var frames := Collect(outcome, start, last).value;
    var ys := ProducedYears(outcome, start, last);
    CollectIsProduced(outcome, start, last);
    forall z | start <= z <= last && outcome(z).Produced?
      ensures outcome(z).rows in frames
    {
      var k :| 0 <= k < |ys| && ys[k] == z;
      assert frames[k] == outcome(z).rows;
    }
  }

  /** Once an iteration has raised, the run's outcome is that exception. */
  lemma {:induction false} FailureStops(outcome: int -> FoldOutcome, start: int, year: int, last: int)
    requires start <= year <= last
    requires Collect(outcome, start, year).Err?
    ensures Collect(outcome, start, last) == Collect(outcome, start, year)
    decreases last - year
  {
    if year < last {
      FailureStops(outcome, start, year, last - 1);
    }
  }

  /**
   * The loop of `walk_forward_backtest` over the years `start..end`, where
   * `outcome` is what one iteration does: it stops at the first exception,
   * appends every produced frame, and finally concatenates and sorts.
   */
  method YearLoop(outcome: int -> FoldOutcome, start: int, end: int) returns (r: Result<seq<YearResult>>)
    ensures r == Finish(Collect(outcome, start, end))
  {
    var allResults: seq<seq<YearResult>> := [];
    var year := start;
    while year <= end
      invariant year == start || start < year <= end + 1
      invariant Collect(outcome, start, year - 1) == Ok(allResults)
      decreases end - year
    {
      match outcome(year) {
        case Skipped =>
          assert Collect(outcome, start, year) == Ok(allResults);
        case Failed(e) =>
          FailureStops(outcome, start, year, end);
          return Err(e);
        case Produced(rows) =>
          allResults := allResults + [rows];
          assert Collect(outcome, start, year) == Ok(allResults);
      }
      year := year + 1;
    }
    assert Collect(outcome, start, end) == Ok(allResults);
    if allResults == [] {
      r := Err(NothingToConcatenate);
    } else {
      r := Ok(SortByDate(Concat(allResults)));
    }
  }

  /** `walk_forward_backtest`: the year loop, each iteration being `RunFold` of that year. */
  method WalkForwardBacktest<M>(df: seq<Row>, start: int, end: int,
                                fit: (seq<seq<real>>, seq<int>, seq<seq<real>>, seq<int>) -> M,
                                predict: (M, seq<real>) -> real)
    returns (r: Result<seq<YearResult>>)
    ensures r == WalkForwardSpec(df, start, end, fit, predict)
  {
    r := YearLoop(Outcomes(df, fit, predict), start, end);
  }

  // ---------------------------------------------------------------------
  // The split
  // ---------------------------------------------------------------------

  /**
   * Without shuffling the split is positional: every fit row comes from an
   * earlier position of the training frame than every validation row.
   */
  lemma SplitIsOrdered(train: seq<Row>, a: nat, b: nat)
    requires a < |SplitTrain(train).fitKeys| && b < |SplitTrain(train).valKeys|
    ensures exists i, j ::
      && 0 <= i < j < |train|
      && SplitTrain(train).fitKeys[a] == (train[i].date, train[i].ticker)
      && SplitTrain(train).valKeys[b] == (train[j].date, train[j].ticker)
  {
    var kept := KeepComplete(train);
    var nFit := FitSize(|kept|);
    KeepCompleteOrder(train, a, nFit + b);
  }

  /** On a date-sorted training frame, no row the model is fitted on is later than a row it is validated on. */
  lemma SplitRespectsTime(train: seq<Row>, a: nat, b: nat)
    requires SortedByDate(train)
    requires a < |SplitTrain(train).fitKeys| && b < |SplitTrain(train).valKeys|
    ensures SplitTrain(train).fitKeys[a].0 <= SplitTrain(train).valKeys[b].0
  {
    SplitIsOrdered(train, a, b);
  }

  // ---------------------------------------------------------------------
  // No lookahead
  // ---------------------------------------------------------------------

  /** Training rows come from earlier years, test rows from year Y: the two never share a row. */
  lemma NoLookahead(df: seq<Row>, y: int)
    ensures forall x :: x in YearsBefore(df, y) ==> x.year < y
    ensures forall x :: x in YearRows(df, y) ==> x.year == y
    ensures forall x :: !(x in YearsBefore(df, y) && x in YearRows(df, y))
  {
  }

  /**
   * The backtest of fold Y sees exactly the test-year rows that have every
   * feature and the label, each scored from its own features; nothing from
   * another year, so no weight carries over from the previous fold.
   */
  lemma ScoredRowsOfFold<M>(df: seq<Row>, y: int, model: M, predict: (M, seq<real>) -> real)
    ensures var scored := ScoredTestRows(YearRows(df, y), model, predict);
      var kept := KeepComplete(YearRows(df, y));
      && |scored| == |kept|
      && (forall x :: x in kept <==> x in df && x.year == y && Complete(x))
      && (forall k :: 0 <= k < |scored| ==>
            && scored[k].year == y
            && scored[k] == kept[k].(predProb := Some(predict(model, FeatureVector(kept[k])))))
  {
    KeepCompleteMembers(YearRows(df, y));
  }

  lemma BeforeAppend(s: seq<Row>, x: Row, y: int)
    ensures YearsBefore(s + [x], y) == YearsBefore(s, y) + (if x.year < y then [x] else [])
  {
    assert (s + [x])[..|s|] == s;
  }

  lemma InYearAppend(s: seq<Row>, x: Row, y: int)
    ensures YearRows(s + [x], y) == YearRows(s, y) + (if x.year == y then [x] else [])
  {
    assert (s + [x])[..|s|] == s;
  }

  /** Dropping the rows after year t does not change the training rows of a year up to t + 1. */
  lemma {:induction false} BeforeThrough(df: seq<Row>, y: int, t: int)
    requires y <= t + 1
    ensures YearsBefore(YearsThrough(df, t), y) == YearsBefore(df, y)
  {
    if df != [] {
      var front := df[..|df| - 1];
      var last := df[|df| - 1];
      BeforeThrough(front, y, t);
      assert YearsBefore(df, y) == YearsBefore(front, y) + (if last.year < y then [last] else []);
      if last.year <= t {
        assert YearsThrough(df, t) == YearsThrough(front, t) + [last];
        BeforeAppend(YearsThrough(front, t), last, y);
      } else {
        assert YearsThrough(df, t) == YearsThrough(front, t);
      }
    }
  }

  /** Dropping the rows after year t does not change the test rows of a year up to t. */
  lemma {:induction false} InYearThrough(df: seq<Row>, y: int, t: int)
    requires y <= t
    ensures YearRows(YearsThrough(df, t), y) == YearRows(df, y)
  {
    if df != [] {
      var front := df[..|df| - 1];
      var last := df[|df| - 1];
      InYearThrough(front, y, t);
      assert YearRows(df, y) == YearRows(front, y) + (if last.year == y then [last] else []);
      if last.year <= t {
        assert YearsThrough(df, t) == YearsThrough(front, t) + [last];
        InYearAppend(YearsThrough(front, t), last, y);
      } else {
        assert YearsThrough(df, t) == YearsThrough(front, t);
      }
    }
  }

  /** Fold Y gives the same outcome whatever the rows of years after Y hold. */
  lemma FoldIgnoresFuture<M>(df: seq<Row>, y: int, t: int,
                             fit: (seq<seq<real>>, seq<int>, seq<seq<real>>, seq<int>) -> M,
                             predict: (M, seq<real>) -> real)
    requires y <= t
    ensures RunFold(YearsThrough(df, t), y, fit, predict) == RunFold(df, y, fit, predict)
  {
    BeforeThrough(df, y, t);
    InYearThrough(df, y, t);
  }

  /**
   * No lookahead across the run: the yearly frames collected up to year
   * `last` are the same when every row after `last` is removed.
   */
  lemma {:induction false} ResultsIgnoreFuture<M>(df: seq<Row>, start: int, last: int, t: int,
                                                  fit: (seq<seq<real>>, seq<int>, seq<seq<real>>, seq<int>) -> M,
                                                  predict: (M, seq<real>) -> real)
    requires last <= t
    ensures Collect(Outcomes(YearsThrough(df, t), fit, predict), start, last)
         == Collect(Outcomes(df, fit, predict), start, last)
    decreases if last < start then 0 else last - start + 1
  {
    if start <= last {
      ResultsIgnoreFuture(df, start, last - 1, t, fit, predict);
      FoldIgnoresFuture(df, last, t, fit, predict);
      assert Outcomes(YearsThrough(df, t), fit, predict)(last) == Outcomes(df, fit, predict)(last);
    }
  }

  // ---------------------------------------------------------------------
  // Each fold's backtest starts from nothing
  // ---------------------------------------------------------------------

  /** Sorted by date with one row per (Date, Ticker): the shape of the weekly panel. */
  predicate Ordered(df: seq<Row>) {
    SortedByDate(df) && UniqueKeys(df)
  }

  /** Every row of an ordered frame is no later than its last row and has another key. */
  lemma LastAfterFront(df: seq<Row>)
    requires Ordered(df) && df != []
    ensures Ordered(df[..|df| - 1])
    ensures forall z :: z in df[..|df| - 1] ==>
      z.date <= df[|df| - 1].date && (z.date != df[|df| - 1].date || z.ticker != df[|df| - 1].ticker)
  {
    var front := df[..|df| - 1];
    forall z | z in front
      ensures z.date <= df[|df| - 1].date && (z.date != df[|df| - 1].date || z.ticker != df[|df| - 1].ticker)
    {
      var i :| 0 <= i < |front| && front[i] == z;
      assert df[i] == z;
    }
  }

  lemma SnocOrdered(a: seq<Row>, x: Row)
    requires Ordered(a)
    requires forall z :: z in a ==> z.date <= x.date && (z.date != x.date || z.ticker != x.ticker)
    ensures Ordered(a + [x])
  {
    var b := a + [x];
    forall i, j | 0 <= i < j < |b|
      ensures b[i].date <= b[j].date && (b[i].date != b[j].date || b[i].ticker != b[j].ticker)
    {
      assert b[i] == a[i];
      if j < |a| {
        assert b[j] == a[j];
      } else {
        assert a[i] in a;
      }
    }
  }

  /** The rows of one year of an ordered frame are ordered. */
  lemma {:induction false} YearRowsOrdered(df: seq<Row>, y: int)
    requires Ordered(df)
    ensures Ordered(YearRows(df, y))
  {
    if df != [] {
      var front := df[..|df| - 1];
      var last := df[|df| - 1];
      LastAfterFront(df);
      YearRowsOrdered(front, y);
      if last.year == y {
        SnocOrdered(YearRows(front, y), last);
      }
    }
  }

  /** The rows of the years before Y of an ordered frame are ordered. */
  lemma {:induction false} YearsBeforeOrdered(df: seq<Row>, y: int)
    requires Ordered(df)
    ensures Ordered(YearsBefore(df, y))
  {
    if df != [] {
      var front := df[..|df| - 1];
      var last := df[|df| - 1];
      LastAfterFront(df);
      YearsBeforeOrdered(front, y);
      if last.year < y {
        SnocOrdered(YearsBefore(front, y), last);
      }
    }
  }

  /**
   * On an ordered frame, fold Y's model is fitted on no row later than a
   * row it is validated on.
   */
  lemma FoldSplitRespectsTime(df: seq<Row>, y: int, a: nat, b: nat)
    requires Ordered(df)
    requires a < |SplitTrain(YearsBefore(df, y)).fitKeys| && b < |SplitTrain(YearsBefore(df, y)).valKeys|
    ensures SplitTrain(YearsBefore(df, y)).fitKeys[a].0 <= SplitTrain(YearsBefore(df, y)).valKeys[b].0
  {
    YearsBeforeOrdered(df, y);
    SplitRespectsTime(YearsBefore(df, y), a, b);
  }

  /** The complete rows of an ordered frame are ordered. */
  lemma {:induction false} KeepCompleteOrdered(df: seq<Row>)
    requires Ordered(df)
    ensures Ordered(KeepComplete(df))
  {
    if df != [] {
      var front := df[..|df| - 1];
      var last := df[|df| - 1];
      LastAfterFront(df);
      KeepCompleteOrdered(front);
      KeepCompleteMembers(front);
      if Complete(last) {
        SnocOrdered(KeepComplete(front), last);
      }
    }
  }

  /**
   * The backtest of fold Y runs on ordered rows, so on its first date no
   * ticker has an earlier week: every previous weight is 0, and a first
   * week that holds anything turns over exactly 0.5. No position carries
   * over from the previous fold.
   */
  lemma FoldStartsFresh<M>(df: seq<Row>, y: int, model: M, predict: (M, seq<real>) -> real)
    requires Ordered(df)
    ensures var s := ScoredTestRows(YearRows(df, y), model, predict);
      && Ordered(s)
      && (forall i :: 0 <= i < |s| && s[i].date == s[0].date ==> PrevRow(s, i) == None)
      && (s != [] && |SelectedOn(s, s[0].date, DefaultTopQuantile)| > 0 ==>
            Turnover(s, s[0].date, DefaultTopQuantile) == 0.5)
  {
    var s := ScoredTestRows(YearRows(df, y), model, predict);
    YearRowsOrdered(df, y);
    KeepCompleteOrdered(YearRows(df, y));
    assert Ordered(s);
    forall i | 0 <= i < |s| && s[i].date == s[0].date
      ensures PrevRow(s, i) == None
    {
      FirstDateHasNoHistory(s, i);
    }
    if s != [] && |SelectedOn(s, s[0].date, DefaultTopQuantile)| > 0 {
      FirstWeekTurnover(s, DefaultTopQuantile);
    }
  }

  // ---------------------------------------------------------------------
  // Tags, order and the empty run
  // ---------------------------------------------------------------------

  /** Every frame an outcome produces for year y is tagged y. */
  ghost predicate TaggedByYear(outcome: int -> FoldOutcome) {
    forall y, x :: outcome(y).Produced? && x in outcome(y).rows ==> x.year == y
  }

  lemma OutcomesTagged<M>(df: seq<Row>,
                          fit: (seq<seq<real>>, seq<int>, seq<seq<real>>, seq<int>) -> M,
                          predict: (M, seq<real>) -> real)
    ensures TaggedByYear(Outcomes(df, fit, predict))
  {
    forall y, x | Outcomes(df, fit, predict)(y).Produced? && x in Outcomes(df, fit, predict)(y).rows
      ensures x.year == y
    {
      ProducedIsTagged(df, y, fit, predict, x);
    }
  }

  lemma ProducedIsTagged<M>(df: seq<Row>, y: int,
                            fit: (seq<seq<real>>, seq<int>, seq<seq<real>>, seq<int>) -> M,
                            predict: (M, seq<real>) -> real, x: YearResult)
    requires RunFold(df, y, fit, predict).Produced? && x in RunFold(df, y, fit, predict).rows
    ensures x.year == y
  {
  }

  /**
   * The collected frames come in increasing year order, each from a year
   * in `start..last`.
   */
  lemma {:induction false} FramesInYearOrder(outcome: int -> FoldOutcome, start: int, last: int)
    requires TaggedByYear(outcome)
    requires Collect(outcome, start, last).Ok?
    ensures var frames := Collect(outcome, start, last).value;
      && (forall k, x :: 0 <= k < |frames| && x in frames[k] ==> start <= x.year <= last)
      && (forall k, l, a, b :: 0 <= k < l < |frames| && a in frames[k] && b in frames[l] ==> a.year < b.year)
    decreases if last < start then 0 else last - start + 1
  {
    if start <= last {
      FramesInYearOrder(outcome, start, last - 1);
    }
  }

  /**
   * A run raises the error of a failing year of the range, or the empty
   * concatenation; when every year is skipped it is the latter.
   */
  lemma RunRaises<M>(df: seq<Row>, start: int, end: int,
                     fit: (seq<seq<real>>, seq<int>, seq<seq<real>>, seq<int>) -> M,
                     predict: (M, seq<real>) -> real)
    ensures var r := WalkForwardSpec(df, start, end, fit, predict);
      r.Err? && r.error != NothingToConcatenate ==>
        exists z :: start <= z <= end && RunFold(df, z, fit, predict) == Failed(r.error)
    ensures (forall z :: start <= z <= end ==> RunFold(df, z, fit, predict).Skipped?) ==>
      WalkForwardSpec(df, start, end, fit, predict) == Err(NothingToConcatenate)
  {
    var outcomes := Outcomes(df, fit, predict);
    CollectRaises(outcomes, start, end);
    if forall z :: start <= z <= end ==> RunFold(df, z, fit, predict).Skipped? {
      AllSkipped(outcomes, start, end);
    }
  }

  /** A run in which every year is skipped raises on the empty concatenation. */
  lemma {:induction false} AllSkipped(outcome: int -> FoldOutcome, start: int, last: int)
    requires forall y :: start <= y <= last ==> outcome(y).Skipped?
    ensures Collect(outcome, start, last) == Ok([])
    decreases if last < start then 0 else last - start + 1
  {
    if start <= last {
      AllSkipped(outcome, start, last - 1);
    }
  }

  /** An empty frame skips every year, so the run raises. */
  lemma EmptyFrameRaises<M>(start: int, end: int,
                            fit: (seq<seq<real>>, seq<int>, seq<seq<real>>, seq<int>) -> M,
                            predict: (M, seq<real>) -> real)
    ensures WalkForwardSpec([], start, end, fit, predict) == Err(NothingToConcatenate)
  {
    AllSkipped(Outcomes([], fit, predict), start, end);
  }

  /**
   * A successful run returns every collected row, sorted by date, each
   * tagged with a year of the run.
   */
  lemma RunResult<M>(df: seq<Row>, start: int, end: int,
                     fit: (seq<seq<real>>, seq<int>, seq<seq<real>>, seq<int>) -> M,
                     predict: (M, seq<real>) -> real)
    requires WalkForwardSpec(df, start, end, fit, predict).Ok?
    ensures var r := WalkForwardSpec(df, start, end, fit, predict).value;
      var frames := Collect(Outcomes(df, fit, predict), start, end).value;
      && DatesAscending(r)
      && multiset(r) == multiset(Concat(frames))
      && (forall x :: x in r ==> start <= x.year <= end)
  {
    var frames := Collect(Outcomes(df, fit, predict), start, end).value;
    var r := WalkForwardSpec(df, start, end, fit, predict).value;
    OutcomesTagged(df, fit, predict);
    FramesInYearOrder(Outcomes(df, fit, predict), start, end);
    forall x | x in r
      ensures start <= x.year <= end
    {
      assert x in multiset(Concat(frames));
      assert x in Concat(frames);
    }
  }
}
