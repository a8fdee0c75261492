/**
 * Label construction: the forward return of every row over the next
 * `horizon_weeks` rows of its own ticker, the benchmark's forward return on
 * the same date, their difference, and the binary label "beat the benchmark
 * by more than the threshold".
 *
 * `groupby(level="Ticker")["Close"].shift(-h)` moves each ticker's closes by
 * `h` places within that ticker's rows, taken in frame order. The model makes
 * this explicit: `TickerRows` lists a ticker's rows, `Position` is a row's
 * place in that list, and the shifted close of a row is the close of the row
 * `h` places further on.
 */
module LabelConstruction {
  import opened Frames

  const DefaultHorizonWeeks: int := 4
  const DefaultThreshold: real := 0.0

  // ---------------------------------------------------------------------
  // A ticker's rows
  // ---------------------------------------------------------------------

  /** The rows below `n` whose ticker is `t`, in frame order: the group of `t`. */
  function TickerRows(df: seq<Row>, t: string, n: nat): (p: seq<nat>)
    requires n <= |df|
    ensures forall k :: 0 <= k < |p| ==> p[k] < n && df[p[k]].ticker == t
  {
    if n == 0 then []
    else TickerRows(df, t, n - 1) + (if df[n - 1].ticker == t then [n - 1] else [])
  }

  /** Row `i`'s place within its ticker's rows: the number of earlier rows of that ticker. */
  function Position(df: seq<Row>, i: nat): nat
    requires i < |df|
  {
    |TickerRows(df, df[i].ticker, i)|
  }

  /** The rows of ticker `t` with index in [lo, hi), as a set. */
  function TickerSet(df: seq<Row>, t: string, lo: nat, hi: nat): set<nat>
    requires hi <= |df|
  {
    set j: nat | lo <= j < hi && df[j].ticker == t
  }

  /** The rows of row `i`'s ticker that come before it in the frame. */
  function EarlierRows(df: seq<Row>, i: nat): set<nat>
    requires i < |df|
  {
    TickerSet(df, df[i].ticker, 0, i)
  }

  /** The rows of row `i`'s ticker that come after it in the frame. */
  function LaterRows(df: seq<Row>, i: nat): set<nat>
    requires i < |df|
  {
    TickerSet(df, df[i].ticker, i + 1, |df|)
  }

  // ---------------------------------------------------------------------
  // Forward returns
  // ---------------------------------------------------------------------

  /** `future / now - 1`, missing when either close is missing or the current close is 0. */
  function Growth(future: Option<real>, now: Option<real>): (g: Option<real>)
    ensures g.Some? <==> future.Some? && now.Some? && now.value != 0.0
    ensures g.Some? ==> now.value * (1.0 + g.value) == future.value
  {
    if future.Some? && now.Some? && now.value != 0.0 then Some(future.value / now.value - 1.0)
    else None
  }

  /** The close `h` places further on in row `i`'s ticker, missing when the ticker has no row there. */
  function ShiftedClose(df: seq<Row>, i: nat, h: int): Option<real>
    requires i < |df|
  {
    var rows := TickerRows(df, df[i].ticker, |df|);
    var p := Position(df, i) + h;
    if 0 <= p < |rows| then df[rows[p]].close else None
  }

  /** The `FwdRet_4w` column of row `i` for horizon `h`. */
  function ForwardReturn(df: seq<Row>, i: nat, h: int): Option<real>
    requires i < |df|
  {
    Growth(ShiftedClose(df, i, h), df[i].close)
  }

  /** The columns present before labelling are carried over unchanged. */
  predicate SameInputs(a: Row, b: Row) {
    && a.date == b.date && a.year == b.year && a.ticker == b.ticker
    && a.close == b.close && a.ret1w == b.ret1w && a.features == b.features
    && a.predProb == b.predProb
  }

  /** `compute_forward_returns`: a copy of the frame with the forward return column set. */
  function ComputeForwardReturns(df: seq<Row>, h: int): (r: seq<Row>)
    ensures |r| == |df|
    ensures forall i :: 0 <= i < |df| ==>
      && SameInputs(r[i], df[i])
      && r[i].fwdRet == ForwardReturn(df, i, h)
      && r[i].benchFwdRet == df[i].benchFwdRet
      && r[i].excessFwdRet == df[i].excessFwdRet
      && r[i].classLabel == df[i].classLabel
  {
    var col := ForwardColumn(df, h, |df|);
    WithFwdRet(df, col, |df|)
  }

  function ForwardColumn(df: seq<Row>, h: int, n: nat): (c: seq<Option<real>>)
    requires n <= |df|
    ensures |c| == n
    ensures forall i :: 0 <= i < n ==> c[i] == ForwardReturn(df, i, h)
  {
    if n == 0 then [] else ForwardColumn(df, h, n - 1) + [ForwardReturn(df, n - 1, h)]
  }

  function WithFwdRet(df: seq<Row>, col: seq<Option<real>>, n: nat): (r: seq<Row>)
    requires n <= |df| == |col|
    ensures |r| == n
    ensures forall i :: 0 <= i < n ==> r[i] == df[i].(fwdRet := col[i])
  {
    if n == 0 then [] else WithFwdRet(df, col, n - 1) + [df[n - 1].(fwdRet := col[n - 1])]
  }

  // ---------------------------------------------------------------------
  // Labels
  // ---------------------------------------------------------------------

  /** The benchmark's forward return on date `d`, missing when the benchmark has no row that date. */
  function BenchForward(df: seq<Row>, d: int, bench: string): (b: Option<real>)
    ensures (forall j :: 0 <= j < |df| ==> !(df[j].date == d && df[j].ticker == bench)) ==> b.None?
    ensures b.Some? ==> exists j :: 0 <= j < |df| && df[j].date == d && df[j].ticker == bench && b == df[j].fwdRet
  {
    match RowOf(df, d, bench, 0)
    case None => None
    case Some(j) => df[j].fwdRet
  }

  /** Column subtraction: missing when either side is missing. */
  function Difference(a: Option<real>, b: Option<real>): Option<real> {
    if a.Some? && b.Some? then Some(a.value - b.value) else None
  }

  /** `(excess > threshold).astype(int)`: a missing excess compares false. */
  function LabelOf(excess: Option<real>, threshold: real): (l: int)
    ensures l == 0 || l == 1
    ensures l == 1 <==> excess.Some? && excess.value > threshold
  {
    if excess.Some? && excess.value > threshold then 1 else 0
  }

  function Labelled(df: seq<Row>, i: nat, bench: string, threshold: real): Row
    requires i < |df|
  {
    var b := BenchForward(df, df[i].date, bench);
    var e := Difference(df[i].fwdRet, b);
    df[i].(benchFwdRet := b, excessFwdRet := e, classLabel := Some(LabelOf(e, threshold)))
  }

  function LabelledRows(df: seq<Row>, bench: string, threshold: real, n: nat): (r: seq<Row>)
    requires n <= |df|
    ensures |r| == n
    ensures forall i :: 0 <= i < n ==> r[i] == Labelled(df, i, bench, threshold)
  {
    if n == 0 then [] else LabelledRows(df, bench, threshold, n - 1) + [Labelled(df, n - 1, bench, threshold)]
  }

  /**
   * `construct_labels_binary`: fails as `xs` does when the benchmark is on
   * no row; otherwise every row gets the benchmark's forward return of its
   * date, the excess over it, and a label that is 1 exactly when the excess
   * is present and strictly above the threshold.
   */
  function ConstructLabels(df: seq<Row>, bench: string, threshold: real): (r: Result<seq<Row>>)
    ensures r.Err? <==> !HasTicker(df, bench)
    ensures r.Err? ==> r.error == TickerNotInIndex(bench)
    ensures r.Ok? ==> |r.value| == |df|
    ensures r.Ok? ==> forall i :: 0 <= i < |df| ==>
      && SameInputs(r.value[i], df[i])
      && r.value[i].fwdRet == df[i].fwdRet
      && r.value[i].benchFwdRet == BenchForward(df, df[i].date, bench)
      && (r.value[i].excessFwdRet.Some? <==> df[i].fwdRet.Some? && r.value[i].benchFwdRet.Some?)
      && (r.value[i].excessFwdRet.Some? ==>
            r.value[i].excessFwdRet.value == df[i].fwdRet.value - r.value[i].benchFwdRet.value)
      && (r.value[i].classLabel == Some(0) || r.value[i].classLabel == Some(1))
      && (r.value[i].classLabel == Some(1) <==>
            r.value[i].excessFwdRet.Some? && r.value[i].excessFwdRet.value > threshold)
  {
    if !HasTicker(df, bench) then Err(TickerNotInIndex(bench))
    else Ok(LabelledRows(df, bench, threshold, |df|))
  }

  // ---------------------------------------------------------------------
  // Positions within a ticker
  // ---------------------------------------------------------------------

  /** A ticker's rows up to `n` are a prefix of its rows up to any later `m`. */
  lemma {:induction false} TickerRowsPrefix(df: seq<Row>, t: string, n: nat, m: nat)
    requires n <= m <= |df|
    ensures |TickerRows(df, t, n)| <= |TickerRows(df, t, m)|
    ensures TickerRows(df, t, m)[..|TickerRows(df, t, n)|] == TickerRows(df, t, n)
    decreases m
  {
    if n < m {
      TickerRowsPrefix(df, t, n, m - 1);
      var a := TickerRows(df, t, m - 1);
      var tail := if df[m - 1].ticker == t then [m - 1] else [];
      assert TickerRows(df, t, m) == a + tail;
      assert (a + tail)[..|a|] == a;
    }
  }

  /** Row `i` sits at place `Position(df, i)` of its ticker's rows. */
  lemma PositionIndex(df: seq<Row>, i: nat)
    requires i < |df|
    ensures Position(df, i) < |TickerRows(df, df[i].ticker, |df|)|
    ensures TickerRows(df, df[i].ticker, |df|)[Position(df, i)] == i
  {
    var t := df[i].ticker;
    TickerRowsPrefix(df, t, i + 1, |df|);
    assert TickerRows(df, t, i + 1) == TickerRows(df, t, i) + [i];
  }

  /** The length of a ticker's row list is the number of its rows. */
  lemma {:induction false} TickerRowsCount(df: seq<Row>, t: string, n: nat)
    requires n <= |df|
    ensures |TickerRows(df, t, n)| == |TickerSet(df, t, 0, n)|
  {
    if n > 0 {
      TickerRowsCount(df, t, n - 1);
      var before := TickerSet(df, t, 0, n - 1);
      if df[n - 1].ticker == t {
        assert TickerSet(df, t, 0, n) == before + {n - 1};
        assert n - 1 !in before;
      } else {
        assert TickerSet(df, t, 0, n) == before;
      }
    }
  }

  /** A ticker's rows split into those before row `i`, row `i` itself, and those after it. */
  lemma TickerSplit(df: seq<Row>, i: nat)
    requires i < |df|
    ensures |TickerRows(df, df[i].ticker, |df|)| == |EarlierRows(df, i)| + 1 + |LaterRows(df, i)|
    ensures Position(df, i) == |EarlierRows(df, i)|
  {
    var t := df[i].ticker;
    TickerRowsCount(df, t, |df|);
    TickerRowsCount(df, t, i);
    var a := EarlierRows(df, i);
    var b := LaterRows(df, i);
    assert TickerSet(df, t, 0, |df|) == (a + {i}) + b;
    assert (a + {i}) * b == {};
    assert |a + {i}| == |a| + 1;
  }

  /** Positions follow frame order within a ticker. */
  lemma PositionOrder(df: seq<Row>, i: nat, j: nat)
    requires i < |df| && j < |df| && df[i].ticker == df[j].ticker
    ensures i < j <==> Position(df, i) < Position(df, j)
  {
    PositionIndex(df, i);
    PositionIndex(df, j);
    var t := df[i].ticker;
    if i < j {
      TickerRowsPrefix(df, t, i + 1, j);
      assert TickerRows(df, t, i + 1) == TickerRows(df, t, i) + [i];
    } else if j < i {
      TickerRowsPrefix(df, t, j + 1, i);
      assert TickerRows(df, t, j + 1) == TickerRows(df, t, j) + [j];
    }
  }

  // ---------------------------------------------------------------------
  // What the shift computes
  // ---------------------------------------------------------------------

  /**
   * The forward return of row `i` is the growth from its close to the close
   * of the row of the same ticker `h` places further on.
   */
  lemma ForwardReturnOfTarget(df: seq<Row>, i: nat, j: nat, h: int)
    requires i < |df| && j < |df| && df[i].ticker == df[j].ticker
    requires Position(df, j) == Position(df, i) + h
    ensures ForwardReturn(df, i, h) == Growth(df[j].close, df[i].close)
    ensures h > 0 ==> i < j
  {
    PositionIndex(df, j);
    PositionOrder(df, i, j);
  }

  /**
   * The forward return only reads rows of the same ticker: when it is
   * present, some row of that ticker, `h` places on, supplied the close.
   */
  lemma ForwardReturnSource(df: seq<Row>, i: nat, h: int)
    requires i < |df| && ForwardReturn(df, i, h).Some?
    ensures exists j ::
      && 0 <= j < |df| && df[j].ticker == df[i].ticker
      && Position(df, j) == Position(df, i) + h
      && df[j].close.Some? && df[i].close.Some? && df[i].close.value != 0.0
      && ForwardReturn(df, i, h) == Some(df[j].close.value / df[i].close.value - 1.0)
  {
    var rows := TickerRows(df, df[i].ticker, |df|);
    var j := rows[Position(df, i) + h];
    assert TickerRows(df, df[j].ticker, |df|) == rows;
    var pj := Position(df, j);
    PositionIndex(df, j);
    TickerRowsDistinct(df, df[i].ticker, |df|, pj, Position(df, i) + h);
  }

  /** A ticker's row list has no repeats. */
  lemma {:induction false} TickerRowsDistinct(df: seq<Row>, t: string, n: nat, k: nat, l: nat)
    requires n <= |df|
    requires k < |TickerRows(df, t, n)| && l < |TickerRows(df, t, n)|
    requires TickerRows(df, t, n)[k] == TickerRows(df, t, n)[l]
    ensures k == l
  {
    var prev := TickerRows(df, t, n - 1);
    assert TickerRows(df, t, n) == prev + (if df[n - 1].ticker == t then [n - 1] else []);
    if k < |prev| && l < |prev| {
      TickerRowsDistinct(df, t, n - 1, k, l);
    }
  }

  /**
   * The shifted row exists exactly when the ticker has at least `h` rows
   * after row `i` (for h >= 0), or at least `-h` rows before it (for h < 0).
   * In particular a ticker's last `h` rows have no forward return.
   */
  lemma ShiftInRange(df: seq<Row>, i: nat, h: int)
    requires i < |df|
    ensures (0 <= Position(df, i) + h < |TickerRows(df, df[i].ticker, |df|)|)
        <==> (-|EarlierRows(df, i)| <= h <= |LaterRows(df, i)|)
  {
    TickerSplit(df, i);
  }

  lemma LastRowsMissing(df: seq<Row>, i: nat, h: int)
    requires i < |df| && h >= 0 && |LaterRows(df, i)| < h
    ensures ForwardReturn(df, i, h) == None
  {
    ShiftInRange(df, i, h);
  }

  // ---------------------------------------------------------------------
  // Labels
  // ---------------------------------------------------------------------

  /** The date-aligned join: missing when the benchmark has no row that date, its own value otherwise. */
  lemma BenchForwardIsJoin(df: seq<Row>, d: int, bench: string)
    ensures (forall j :: 0 <= j < |df| ==> !(df[j].date == d && df[j].ticker == bench))
      ==> BenchForward(df, d, bench) == None
    ensures UniqueKeys(df) ==>
      (forall j :: 0 <= j < |df| && df[j].date == d && df[j].ticker == bench ==> BenchForward(df, d, bench) == df[j].fwdRet)
  {
    if UniqueKeys(df) {
      forall j | 0 <= j < |df| && df[j].date == d && df[j].ticker == bench
        ensures BenchForward(df, d, bench) == df[j].fwdRet
      {
        RowOfUnique(df, d, bench, j);
      }
    }
  }

  /** The benchmark never beats itself: its own rows are labelled 0 for any threshold >= 0. */
  lemma BenchmarkLabelledZero(df: seq<Row>, bench: string, threshold: real, i: nat)
    requires UniqueKeys(df) && threshold >= 0.0
    requires i < |df| && df[i].ticker == bench
    ensures ConstructLabels(df, bench, threshold).Ok?
    ensures ConstructLabels(df, bench, threshold).value[i].classLabel == Some(0)
  {
    RowOfUnique(df, df[i].date, bench, i);
  }

  /** Raising the threshold can only turn labels from 1 to 0. */
  lemma LabelMonotone(df: seq<Row>, bench: string, lo: real, hi: real, i: nat)
    requires HasTicker(df, bench) && lo <= hi && i < |df|
    ensures ConstructLabels(df, bench, hi).value[i].classLabel == Some(1)
        ==> ConstructLabels(df, bench, lo).value[i].classLabel == Some(1)
  {
  }

  // ---------------------------------------------------------------------
  // The defaults
  // ---------------------------------------------------------------------

  /** At the default horizon, a ticker's last four rows get no forward return. */
  lemma LastFourWeeksMissing(df: seq<Row>, i: nat)
    requires i < |df| && |LaterRows(df, i)| < DefaultHorizonWeeks
    ensures ComputeForwardReturns(df, DefaultHorizonWeeks)[i].fwdRet == None
  {
    LastRowsMissing(df, i, DefaultHorizonWeeks);
  }

  /**
   * At the default threshold of 0, a row is labelled 1 exactly when both
   * forward returns are present and the row's is strictly above the
   * benchmark's.
   */
  lemma DefaultLabelBeatsBenchmark(df: seq<Row>, i: nat)
    requires HasTicker(df, DefaultBenchmark) && i < |df|
    ensures var b := BenchForward(df, df[i].date, DefaultBenchmark);
      ConstructLabels(df, DefaultBenchmark, DefaultThreshold).value[i].classLabel == Some(1)
      <==> df[i].fwdRet.Some? && b.Some? && df[i].fwdRet.value > b.value
  {
  }
}
