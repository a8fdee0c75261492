/**
 * `run_backtest`: weekly top-quantile selection on model scores, equal
 * weights, a turnover-based trading cost and a left join of the benchmark's
 * weekly return.
 *
 * Every column the source computes (Rank, N, Quantile, InPortfolio, Weight,
 * PrevWeight, Turnover) is a function of the frame and a row index; every
 * per-week aggregate is a function of the frame and a date.
 */
module Backtest {
  import opened Frames

  const DefaultTopQuantile: real := 0.2
  const DefaultCostBps: real := 20.0

  /** One row of the output, indexed by date. */
  datatype PeriodResult = PeriodResult(
    date: int,
    portRet: real,
    benchRet: Option<real>,
    excessRet: Option<real>)

  // ---------------------------------------------------------------------
  // Rank, N and selection
  // ---------------------------------------------------------------------

  /**
   * Row `j` is ranked ahead of row `i` within `i`'s date: both have a
   * prediction and `j`'s is higher, or equal and `j` comes first in the
   * frame (`rank(ascending=False, method="first")`).
   */
  predicate Ahead(df: seq<Row>, j: nat, i: nat)
    requires j < |df| && i < |df|
  {
    && df[j].date == df[i].date
    && df[j].predProb.Some? && df[i].predProb.Some?
    && (df[j].predProb.value > df[i].predProb.value
        || (df[j].predProb.value == df[i].predProb.value && j < i))
  }

  /** The rows of date `d` that have a prediction (rank and count skip NaN). */
  function ScoredOn(df: seq<Row>, d: int): set<nat> {
    set i: nat | i < |df| && df[i].date == d && df[i].predProb.Some?
  }

  function AheadOf(df: seq<Row>, i: nat): set<nat>
    requires i < |df|
  {
    set j: nat | j < |df| && Ahead(df, j, i)
  }

  /** The `Rank` column: 1 plus the number of rows ranked ahead, so a rank in 1..N. */
  function Rank(df: seq<Row>, i: nat): (r: nat)
    requires i < |df| && df[i].predProb.Some?
    ensures 1 <= r <= Count(df, df[i].date)
  {
    var d := df[i].date;
    assert AheadOf(df, i) <= ScoredOn(df, d) - {i};
    SubsetCard(AheadOf(df, i), ScoredOn(df, d) - {i});
    assert i in ScoredOn(df, d);
    |AheadOf(df, i)| + 1
  }

  /** The `N` column: `transform("count")` of the predictions on the date, 0 when none is present. */
  function Count(df: seq<Row>, d: int): (n: nat)
    ensures n == 0 <==> forall i :: 0 <= i < |df| && df[i].date == d ==> df[i].predProb.None?
  {
    var s := ScoredOn(df, d);
    assert (forall i :: 0 <= i < |df| && df[i].date == d ==> df[i].predProb.None?) ==> s == {};
    assert forall i: nat :: i < |df| && df[i].date == d && df[i].predProb.Some? ==> i in s;
    |s|
  }

  /** The `InPortfolio` flag: `Rank / N <= top_quantile`; a NaN quantile compares false. */
  predicate InPortfolio(df: seq<Row>, i: nat, q: real)
    requires i < |df|
  {
    && df[i].predProb.Some?
    && var n := Count(df, df[i].date);
       assert i in ScoredOn(df, df[i].date);
       (Rank(df, i) as real) / (n as real) <= q
  }

  /** The selected rows of date `d`. */
  function SelectedOn(df: seq<Row>, d: int, q: real): set<nat> {
    set i: nat | i < |df| && df[i].date == d && InPortfolio(df, i, q)
  }

  // ---------------------------------------------------------------------
  // Weights and the gross return
  // ---------------------------------------------------------------------

  /**
   * The `Weight` column: `InPortfolio` divided by the number selected on the
   * date, where a count of 0 becomes NaN and then 0.0.
   */
  function Weight(df: seq<Row>, i: nat, q: real): (w: real)
    requires i < |df|
    ensures 0.0 <= w <= 1.0
  {
    var k := |SelectedOn(df, df[i].date, q)|;
    if k == 0 then 0.0
    else (if InPortfolio(df, i, q) then 1.0 else 0.0) / (k as real)
  }

  /** The `Weight` column of the first `n` rows. */
  function Weights(df: seq<Row>, q: real, n: nat): (w: seq<real>)
    requires n <= |df|
    ensures |w| == n
    ensures forall i :: 0 <= i < n ==> w[i] == Weight(df, i, q)
  {
    if n == 0 then [] else Weights(df, q, n - 1) + [Weight(df, n - 1, q)]
  }

  /** `Weight * Return_1w` of row `i`, where a NaN product is skipped by the sum. */
  function Contribution(df: seq<Row>, i: nat, q: real): real
    requires i < |df|
  {
    if df[i].ret1w.Some? then Weight(df, i, q) * df[i].ret1w.value else 0.0
  }

  function Contributions(df: seq<Row>, q: real, n: nat): (c: seq<real>)
    requires n <= |df|
    ensures |c| == n
    ensures forall i :: 0 <= i < n ==> c[i] == Contribution(df, i, q)
  {
    if n == 0 then [] else Contributions(df, q, n - 1) + [Contribution(df, n - 1, q)]
  }

  /** The gross portfolio return of date `d`. */
  function GrossReturn(df: seq<Row>, d: int, q: real): real {
    SumOn(df, d, Contributions(df, q, |df|), |df|)
  }

  // ---------------------------------------------------------------------
  // Previous weight, turnover, cost
  // ---------------------------------------------------------------------

  /** The last row before `n` whose ticker is `t`. */
  function LastWithTicker(df: seq<Row>, t: string, n: nat): (p: Option<nat>)
    requires n <= |df|
    ensures p.Some? ==> p.value < n && df[p.value].ticker == t
    ensures p.Some? ==> forall j :: p.value < j < n ==> df[j].ticker != t
    ensures p.None? ==> forall j :: 0 <= j < n ==> df[j].ticker != t
  {
    if n == 0 then None
    else if df[n - 1].ticker == t then Some(n - 1)
    else LastWithTicker(df, t, n - 1)
  }

  /** The row `groupby("Ticker").shift(1)` reads for row `i`: the same ticker's previous row. */
  function PrevRow(df: seq<Row>, i: nat): (p: Option<nat>)
    requires i < |df|
    ensures p.Some? ==> p.value < i && df[p.value].ticker == df[i].ticker
    ensures p.Some? ==> forall j :: p.value < j < i ==> df[j].ticker != df[i].ticker
    ensures p.None? <==> forall j :: 0 <= j < i ==> df[j].ticker != df[i].ticker
  {
    LastWithTicker(df, df[i].ticker, i)
  }

  /** The `PrevWeight` column, 0.0 on a ticker's first row. */
  function PrevWeight(df: seq<Row>, i: nat, q: real): (w: real)
    requires i < |df|
    ensures 0.0 <= w <= 1.0
    ensures (forall j :: 0 <= j < i ==> df[j].ticker != df[i].ticker) ==> w == 0.0
  {
    match PrevRow(df, i)
    case None => 0.0
    case Some(j) => Weight(df, j, q)
  }

  /** The `Turnover` column: `|Weight - PrevWeight|`. */
  function WeightChange(df: seq<Row>, i: nat, q: real): (c: real)
    requires i < |df|
    ensures 0.0 <= c <= 1.0
  {
    Abs(Weight(df, i, q) - PrevWeight(df, i, q))
  }

  function WeightChanges(df: seq<Row>, q: real, n: nat): (c: seq<real>)
    requires n <= |df|
    ensures |c| == n
    ensures forall i :: 0 <= i < n ==> c[i] == WeightChange(df, i, q)
  {
    if n == 0 then [] else WeightChanges(df, q, n - 1) + [WeightChange(df, n - 1, q)]
  }

  /** Half the summed absolute weight changes of date `d`; never negative. */
  function Turnover(df: seq<Row>, d: int, q: real): (t: real)
    ensures t >= 0.0
  {
    SumOnPositive(df, d, WeightChanges(df, q, |df|), |df|, 0);
    0.5 * SumOn(df, d, WeightChanges(df, q, |df|), |df|)
  }

  /** The cost of date `d` at `bps` basis points; non-negative when the rate is. */
  function Cost(df: seq<Row>, d: int, q: real, bps: real): (c: real)
    ensures bps >= 0.0 ==> c >= 0.0
  {
    var t := Turnover(df, d, q);
    MulNonNegative(t, if bps >= 0.0 then bps / 10000.0 else 0.0);
    t * (bps / 10000.0)
  }

  /** The net return of date `d`; a non-negative cost rate never lifts it above the gross. */
  function NetReturn(df: seq<Row>, d: int, q: real, bps: real): (n: real)
    ensures bps >= 0.0 ==> n <= GrossReturn(df, d, q)
  {
    GrossReturn(df, d, q) - Cost(df, d, q, bps)
  }

  // ---------------------------------------------------------------------
  // Benchmark join and the whole backtest
  // ---------------------------------------------------------------------

  /** The benchmark's `Return_1w` on date `d`, missing when it has no row that date. */
  function BenchReturn(df: seq<Row>, d: int, bench: string): (b: Option<real>)
    ensures (forall j :: 0 <= j < |df| ==> !(df[j].date == d && df[j].ticker == bench)) ==> b.None?
    ensures b.Some? ==> exists j :: 0 <= j < |df| && df[j].date == d && df[j].ticker == bench && b == df[j].ret1w
  {
    match RowOf(df, d, bench, 0)
    case None => None
    case Some(j) => df[j].ret1w
  }

  function Period(df: seq<Row>, d: int, q: real, bps: real, bench: string): PeriodResult {
    var net := NetReturn(df, d, q, bps);
    var b := BenchReturn(df, d, bench);
    PeriodResult(d, net, b, if b.Some? then Some(net - b.value) else None)
  }

  /**
   * `run_backtest`: one result per distinct date, in increasing date order;
   * `DataFrame.xs` raises when the benchmark ticker is on no row.
   */
  function RunBacktest(df: seq<Row>, q: real, bps: real, bench: string): (r: Result<seq<PeriodResult>>)
    ensures r.Err? <==> !HasTicker(df, bench)
    ensures r.Err? ==> r.error == TickerNotInIndex(bench)
    ensures r.Ok? ==> |r.value| == |Dates(df)|
    ensures r.Ok? ==> forall k :: 0 <= k < |r.value| ==>
      && r.value[k].date == Dates(df)[k]
      && r.value[k].portRet == NetReturn(df, r.value[k].date, q, bps)
      && r.value[k].benchRet == BenchReturn(df, r.value[k].date, bench)
      && (r.value[k].excessRet.Some? <==> r.value[k].benchRet.Some?)
      && (r.value[k].excessRet.Some? ==>
            r.value[k].excessRet.value == r.value[k].portRet - r.value[k].benchRet.value)
  {
    if !HasTicker(df, bench) then Err(TickerNotInIndex(bench))
    else
      var dates := Dates(df);
      Ok(seq(|dates|, k requires 0 <= k < |dates| => Period(df, dates[k], q, bps, bench)))
  }

  // ---------------------------------------------------------------------
  // Ranking: a permutation of 1..N per date
  // ---------------------------------------------------------------------

  /** A higher prediction, or an equal one earlier in the frame, gets the lower rank. */
  lemma RankOrder(df: seq<Row>, j: nat, i: nat)
    requires j < |df| && i < |df| && Ahead(df, j, i)
    ensures Rank(df, j) < Rank(df, i)
  {
    assert AheadOf(df, j) <= AheadOf(df, i);
    StrictSubsetCard(AheadOf(df, j), AheadOf(df, i), j);
  }

  /** Two different scored rows of one date never share a rank. */
  lemma RankDistinct(df: seq<Row>, i: nat, j: nat)
    requires i < |df| && j < |df| && i != j
    requires df[i].predProb.Some? && df[j].predProb.Some? && df[i].date == df[j].date
    ensures Rank(df, i) != Rank(df, j)
  {
    if Ahead(df, i, j) {
      RankOrder(df, i, j);
    } else {
      RankOrder(df, j, i);
    }
  }

  /** The ranks taken by the rows of `a`. */
  function RankImage(df: seq<Row>, a: set<nat>): set<int> {
    set i | i in a && i < |df| && df[i].predProb.Some? :: Rank(df, i) as int
  }

  lemma {:induction false} RankImageCard(df: seq<Row>, d: int, a: set<nat>)
    requires a <= ScoredOn(df, d)
    ensures |RankImage(df, a)| == |a|
    decreases a
  {
    if a != {} {
      var x :| x in a;
      var rest := a - {x};
      RankImageCard(df, d, rest);
      assert RankImage(df, a) == RankImage(df, rest) + {Rank(df, x) as int};
      forall y | y in rest
        ensures Rank(df, y) != Rank(df, x)
      {
        RankDistinct(df, x, y);
      }
      assert Rank(df, x) as int !in RankImage(df, rest);
    }
  }

  /** Within one date the ranks are exactly 1..N, one per scored row. */
  lemma RanksArePermutation(df: seq<Row>, d: int)
    ensures RankImage(df, ScoredOn(df, d)) == OneTo(Count(df, d))
    ensures forall i, j :: i in ScoredOn(df, d) && j in ScoredOn(df, d) && i != j ==> Rank(df, i) != Rank(df, j)
  {
    var img := RankImage(df, ScoredOn(df, d));
    forall r | r in img
      ensures r in OneTo(Count(df, d))
    {
      var i :| i in ScoredOn(df, d) && r == Rank(df, i) as int;
    }
    RankImageCard(df, d, ScoredOn(df, d));
    OneToCard(Count(df, d));
    SameCardSubset(img, OneTo(Count(df, d)));
    forall i, j | i in ScoredOn(df, d) && j in ScoredOn(df, d) && i != j
      ensures Rank(df, i) != Rank(df, j)
    {
      RankDistinct(df, i, j);
    }
  }

  // ---------------------------------------------------------------------
  // Quantile selection
  // ---------------------------------------------------------------------

  /** `rank / n <= q` holds exactly for the ranks up to floor(q * n). */
  lemma QuantileBoundary(r: int, n: int, q: real)
    requires n > 0
    ensures (r as real) / (n as real) <= q <==> r <= (q * (n as real)).Floor
  {
    var x := q * (n as real);
    assert (r as real) / (n as real) * (n as real) == r as real;
    if (r as real) / (n as real) <= q {
      assert (r as real) <= x;
    } else {
      assert (r as real) > x;
    }
  }

  /** floor(q * N) clamped to 0..N: the number of selected rows. */
  function SelectionSize(q: real, n: nat): nat {
    var m := (q * (n as real)).Floor;
    if m < 0 then 0 else Min(m, n)
  }

  lemma SelectionSizeOfBound(q: real, n: nat)
    ensures var b := Min((q * (n as real)).Floor, n); SelectionSize(q, n) == if b < 0 then 0 else b
  {
  }

  lemma SelectedAreScored(df: seq<Row>, d: int, q: real)
    ensures SelectedOn(df, d, q) <= ScoredOn(df, d)
  {
  }

  /** A scored row is selected exactly when its rank is at most floor(q * N). */
  lemma SelectedIff(df: seq<Row>, d: int, q: real, i: nat)
    requires i in ScoredOn(df, d)
    ensures i in SelectedOn(df, d, q) <==> Rank(df, i) <= (q * (Count(df, d) as real)).Floor
  {
    assert Count(df, d) > 0;
    QuantileBoundary(Rank(df, i), Count(df, d), q);
  }

  /** The rank of a selected row is at most floor(q * N). */
  lemma SelectedRankBounded(df: seq<Row>, d: int, q: real, i: nat)
    requires i in SelectedOn(df, d, q)
    ensures Rank(df, i) as int in OneTo(SelectionSize(q, Count(df, d)))
  {
    SelectedIff(df, d, q, i);
    SelectionSizeOfBound(q, Count(df, d));
  }

  /** Every rank up to floor(q * N), and at most N, belongs to a selected row. */
  lemma SelectedRankReached(df: seq<Row>, d: int, q: real, r: int)
    requires r in OneTo(SelectionSize(q, Count(df, d)))
    ensures r in RankImage(df, SelectedOn(df, d, q))
  {
    SelectionSizeOfBound(q, Count(df, d));
    RanksArePermutation(df, d);
    assert r in RankImage(df, ScoredOn(df, d));
    var i :| i in ScoredOn(df, d) && r == Rank(df, i) as int;
    SelectedIff(df, d, q, i);
  }

  /** Selection is `Rank / N <= q` with an inclusive boundary: it picks floor(q * N) rows, at most N. */
  lemma SelectionCount(df: seq<Row>, d: int, q: real)
    ensures |SelectedOn(df, d, q)| == SelectionSize(q, Count(df, d))
  {
    var sel := SelectedOn(df, d, q);
    var size := SelectionSize(q, Count(df, d));
    SelectedAreScored(df, d, q);
    RankImageCard(df, d, sel);
    var img := RankImage(df, sel);
    forall r | r in img
      ensures r in OneTo(size)
    {
      var i :| i in sel && r == Rank(df, i) as int;
      SelectedRankBounded(df, d, q, i);
    }
    forall r | r in OneTo(size)
      ensures r in img
    {
      SelectedRankReached(df, d, q, r);
    }
    assert img == OneTo(size);
    OneToCard(size);
  }

  /** With ten scored rows and the default quantile of 0.2, exactly two are held. */
  lemma TwoOfTenAtDefaultQuantile(df: seq<Row>, d: int)
    requires Count(df, d) == 10
    ensures |SelectedOn(df, d, DefaultTopQuantile)| == 2
  {
    SelectionCount(df, d, DefaultTopQuantile);
    assert DefaultTopQuantile * 10.0 == 2.0;
  }

  // ---------------------------------------------------------------------
  // Weights
  // ---------------------------------------------------------------------

  /**
   * A selected row weighs 1/k, where k rows are selected on its date, and
   * any other row 0; every weight lies in [0, 1].
   */
  lemma WeightOfRow(df: seq<Row>, i: nat, q: real)
    requires i < |df|
    ensures var sel := SelectedOn(df, df[i].date, q);
      && 0.0 <= Weight(df, i, q) <= 1.0
      && Weight(df, i, q) == (if i in sel then 1.0 / (|sel| as real) else 0.0)
  {
    var sel := SelectedOn(df, df[i].date, q);
    if i in sel {
      assert |sel| >= 1;
    }
  }

  /** 1/k, or 0 when k is 0: the weight of a selected row among k. */
  function Reciprocal(k: nat): real {
    if k > 0 then 1.0 / (k as real) else 0.0
  }

  lemma ReciprocalTimes(k: nat)
    ensures Reciprocal(k) * (k as real) == if k > 0 then 1.0 else 0.0
  {
    if k > 0 {
      InverseTimes(k, Reciprocal(k));
    }
  }

  lemma WeightIndicator(df: seq<Row>, d: int, q: real, i: nat)
    requires i < |df| && df[i].date == d
    ensures Weight(df, i, q) == if i in SelectedOn(df, d, q) then Reciprocal(|SelectedOn(df, d, q)|) else 0.0
  {
    WeightOfRow(df, i, q);
  }

  /** On the rows of a date, the weight column is 1/k on the k selected rows and 0 elsewhere. */
  lemma WeightsAreIndicator(df: seq<Row>, d: int, q: real)
    ensures forall i :: 0 <= i < |df| && df[i].date == d ==>
      Weights(df, q, |df|)[i] == (if i in SelectedOn(df, d, q) then Reciprocal(|SelectedOn(df, d, q)|) else 0.0)
  {
    forall i | 0 <= i < |df| && df[i].date == d
      ensures Weights(df, q, |df|)[i] == (if i in SelectedOn(df, d, q) then Reciprocal(|SelectedOn(df, d, q)|) else 0.0)
    {
      WeightIndicator(df, d, q, i);
    }
  }

  /** A column that is 1/|a| on the rows of `a` and 0 elsewhere sums to 1, or to 0 when `a` is empty. */
  lemma IndicatorSumsToOne(df: seq<Row>, d: int, w: seq<real>, a: set<nat>)
    requires |w| == |df|
    requires forall i :: i in a ==> i < |df| && df[i].date == d
    requires forall i :: 0 <= i < |df| && df[i].date == d ==> w[i] == (if i in a then Reciprocal(|a|) else 0.0)
    ensures SumOn(df, d, w, |df|) == if |a| > 0 then 1.0 else 0.0
  {
    SumOnIndicatorAll(df, d, w, a, Reciprocal(|a|));
    ReciprocalTimes(|a|);
  }

  /** The weights of one date sum to 1, or to 0 when nothing is selected. */
  lemma WeightsSumToOne(df: seq<Row>, d: int, q: real)
    ensures SumOn(df, d, Weights(df, q, |df|), |df|) == if |SelectedOn(df, d, q)| > 0 then 1.0 else 0.0
  {
    WeightsAreIndicator(df, d, q);
    IndicatorSumsToOne(df, d, Weights(df, q, |df|), SelectedOn(df, d, q));
  }

  /**
   * The gross return is a mean of the selected rows' returns: it lies
   * between any bounds on them, and is 0 when nothing is selected.
   */
  lemma GrossReturnBounds(df: seq<Row>, d: int, q: real, lo: real, hi: real)
    requires forall i :: i in SelectedOn(df, d, q) ==>
      df[i].ret1w.Some? && lo <= df[i].ret1w.value <= hi
    ensures |SelectedOn(df, d, q)| == 0 ==> GrossReturn(df, d, q) == 0.0
    ensures |SelectedOn(df, d, q)| > 0 ==> lo <= GrossReturn(df, d, q) <= hi
  {
    var w := Weights(df, q, |df|);
    var g := Contributions(df, q, |df|);
    ContributionsBetween(df, d, q, lo, hi, w, g);
    SumOnBetween(df, d, w, g, lo, hi, |df|);
    WeightsSumToOne(df, d, q);
    BetweenScaled(lo, hi, SumOn(df, d, w, |df|), SumOn(df, d, g, |df|));
  }

  /** A value between `lo` and `hi` times a total weight t of 1 or 0. */
  lemma BetweenScaled(lo: real, hi: real, t: real, x: real)
    requires Between(lo, hi, t, x)
    requires t == 1.0 || t == 0.0
    ensures t == 1.0 ==> lo <= x <= hi
    ensures t == 0.0 ==> x == 0.0
  {
  }

  /** Row by row on date `d`, each contribution lies between its weight times the bounds. */
  lemma ContributionsBetween(df: seq<Row>, d: int, q: real, lo: real, hi: real, w: seq<real>, g: seq<real>)
    requires w == Weights(df, q, |df|) && g == Contributions(df, q, |df|)
    requires forall i :: i in SelectedOn(df, d, q) ==>
      df[i].ret1w.Some? && lo <= df[i].ret1w.value <= hi
    ensures forall i :: 0 <= i < |df| && df[i].date == d ==> Between(lo, hi, w[i], g[i])
  {
    forall i | 0 <= i < |df| && df[i].date == d
      ensures Between(lo, hi, w[i], g[i])
    {
      ContributionBounds(df, i, q, lo, hi, w[i], g[i]);
    }
  }

  /**
   * `groupby("Date").sum()` skips a NaN product, so a week whose held rows
   * all lack `Return_1w` earns a gross return of 0.
   */
  lemma MissingReturnsEarnNothing(df: seq<Row>, d: int, q: real)
    requires forall i :: i in SelectedOn(df, d, q) ==> df[i].ret1w.None?
    ensures GrossReturn(df, d, q) == 0.0
  {
    var w := Weights(df, q, |df|);
    var g := Contributions(df, q, |df|);
    forall i | 0 <= i < |df| && df[i].date == d
      ensures Between(0.0, 0.0, w[i], g[i])
    {
      WeightOfRow(df, i, q);
    }
    SumOnBetween(df, d, w, g, 0.0, 0.0, |df|);
  }

  /** Row `i`'s contribution `g` lies between its weight `w` times the bounds on a selected row's return. */
  lemma ContributionBounds(df: seq<Row>, i: nat, q: real, lo: real, hi: real, w: real, g: real)
    requires i < |df| && w == Weight(df, i, q) && g == Contribution(df, i, q)
    requires i in SelectedOn(df, df[i].date, q) ==>
      df[i].ret1w.Some? && lo <= df[i].ret1w.value <= hi
    ensures Between(lo, hi, w, g)
  {
    WeightOfRow(df, i, q);
    if i in SelectedOn(df, df[i].date, q) {
      var ret := df[i].ret1w.value;
      MulMonotone(w, lo, ret);
      MulMonotone(w, ret, hi);
    }
  }

  // ---------------------------------------------------------------------
  // Turnover and cost
  // ---------------------------------------------------------------------

  /** The frame is in date order, as `sort_index` leaves it. */
  predicate SortedByDate(df: seq<Row>) {
    forall i, j :: 0 <= i < j < |df| ==> df[i].date <= df[j].date
  }

  /** In a date-sorted frame with unique keys, no row of the first date has an earlier row of its ticker. */
  lemma FirstDateHasNoHistory(df: seq<Row>, i: nat)
    requires SortedByDate(df) && UniqueKeys(df)
    requires i < |df| && df[i].date == df[0].date
    ensures PrevRow(df, i) == None
  {
  }

  /** The first week of a run that holds anything has turnover exactly 0.5: everything is bought from zero. */
  lemma FirstWeekTurnover(df: seq<Row>, q: real)
    requires |df| > 0 && SortedByDate(df) && UniqueKeys(df)
    requires |SelectedOn(df, df[0].date, q)| > 0
    ensures Turnover(df, df[0].date, q) == 0.5
  {
    var d := df[0].date;
    forall i | 0 <= i < |df| && df[i].date == d
      ensures WeightChanges(df, q, |df|)[i] == Weights(df, q, |df|)[i]
    {
      FirstDateHasNoHistory(df, i);
      WeightOfRow(df, i, q);
    }
    SumOnSame(df, d, WeightChanges(df, q, |df|), Weights(df, q, |df|), |df|);
    WeightsSumToOne(df, d, q);
  }

  /** When every row of a date keeps the weight its ticker had on its previous row, nothing trades. */
  lemma UnchangedWeightsNoTurnover(df: seq<Row>, d: int, q: real)
    requires forall i :: 0 <= i < |df| && df[i].date == d ==>
      PrevRow(df, i).Some? && Weight(df, PrevRow(df, i).value, q) == Weight(df, i, q)
    ensures Turnover(df, d, q) == 0.0
  {
    var ch := WeightChanges(df, q, |df|);
    forall i | 0 <= i < |df| && df[i].date == d
      ensures ch[i] == 0.0 * ch[i]
    {
    }
    SumOnScale(df, d, ch, ch, 0.0, |df|);
  }

  /**
   * A date that selects nothing still pays for unwinding: if a present
   * ticker held weight on its previous row, turnover and cost are positive.
   */
  lemma UnwindIsCharged(df: seq<Row>, d: int, q: real, bps: real, i: nat)
    requires i < |df| && df[i].date == d
    requires |SelectedOn(df, d, q)| == 0
    requires PrevWeight(df, i, q) > 0.0 && bps > 0.0
    ensures Turnover(df, d, q) > 0.0
    ensures Cost(df, d, q, bps) > 0.0
  {
    UnwindTurnover(df, d, q, i);
    MulPositive(Turnover(df, d, q), bps / 10000.0);
  }

  lemma UnwindTurnover(df: seq<Row>, d: int, q: real, i: nat)
    requires i < |df| && df[i].date == d
    requires |SelectedOn(df, d, q)| == 0
    requires PrevWeight(df, i, q) > 0.0
    ensures Turnover(df, d, q) > 0.0
  {
    var ch := WeightChanges(df, q, |df|);
    WeightIndicator(df, d, q, i);
    assert ch[i] > 0.0;
    SumOnPositive(df, d, ch, |df|, i);
  }

  // ---------------------------------------------------------------------
  // Benchmark join
  // ---------------------------------------------------------------------

  /** The left join: the benchmark's own row on that date, or missing when it has none. */
  lemma BenchReturnIsJoin(df: seq<Row>, d: int, bench: string)
    ensures (forall j :: 0 <= j < |df| ==> !(df[j].date == d && df[j].ticker == bench))
      ==> BenchReturn(df, d, bench) == None
    ensures UniqueKeys(df) ==>
      (forall j :: 0 <= j < |df| && df[j].date == d && df[j].ticker == bench ==> BenchReturn(df, d, bench) == df[j].ret1w)
  {
    if UniqueKeys(df) {
      forall j | 0 <= j < |df| && df[j].date == d && df[j].ticker == bench
        ensures BenchReturn(df, d, bench) == df[j].ret1w
      {
        RowOfUnique(df, d, bench, j);
      }
    }
  }

  // ---------------------------------------------------------------------
  // A worked week
  // ---------------------------------------------------------------------

  /** A row of a week with a prediction and a weekly return, nothing else. */
  function ScoredRow(d: int, t: string, p: real, ret: real): Row {
    Row(d, 0, t, None, Some(ret), map[], None, None, None, None, Some(p))
  }

  /** One fresh week of two tickers: A scored 0.9 returning 2%, B scored 0.1 returning -1%. */
  function TwoTickers(): seq<Row> {
    [ScoredRow(0, "A", 0.9, 0.02), ScoredRow(0, "B", 0.1, -0.01)]
  }

  /** Held at q = 0.5, only A, the better scored of the two, is bought. */
  lemma TwoTickerSelection()
    ensures SelectedOn(TwoTickers(), 0, 0.5) == {0}
  {
    var df := TwoTickers();
    assert ScoredOn(df, 0) == {0, 1};
    assert AheadOf(df, 0) == {};
    assert Rank(df, 0) == 1;
    SelectionCount(df, 0, 0.5);
    assert 0.5 * (Count(df, 0) as real) == 1.0;
    SelectedIff(df, 0, 0.5, 0);
    assert 0 in SelectedOn(df, 0, 0.5);
    SingletonOfSizeOne(SelectedOn(df, 0, 0.5), 0);
  }

  /**
   * The week's figures: the gross return is A's 0.02, buying A from nothing
   * turns over 0.5, which at 20 bps costs 0.001, leaving a net 0.019.
   */
  lemma TwoTickerWeek()
    ensures var df := TwoTickers();
      && GrossReturn(df, 0, 0.5) == 0.02
      && Turnover(df, 0, 0.5) == 0.5
      && Cost(df, 0, 0.5, DefaultCostBps) == 0.001
      && NetReturn(df, 0, 0.5, DefaultCostBps) == 0.019
  {
    var df := TwoTickers();
    TwoTickerSelection();
    SelectedAreScored(df, 0, 0.5);
    GrossReturnBounds(df, 0, 0.5, 0.02, 0.02);
    assert "A" != "B";
    FirstWeekTurnover(df, 0.5);
  }

  lemma SingletonOfSizeOne(a: set<nat>, x: nat)
    requires |a| == 1 && x in a
    ensures a == {x}
  {
    if a != {x} {
      var y :| y in a && y != x;
      assert {x, y} <= a;
      SubsetCard({x, y}, a);
    }
  }
}
