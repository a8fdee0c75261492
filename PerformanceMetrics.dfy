/**
 * Performance statistics of a weekly return series: annualised return,
 * the Sharpe ratio with its zero-volatility guard, the equity curve
 * (cumulative product of 1 + r) and the maximum drawdown against the
 * running peak, and the eight-entry summary of the portfolio and the
 * benchmark.
 *
 * A NaN result is `None`. Annualised volatility (sample standard deviation
 * times the square root of 52) is not computed here: it is a parameter
 * `vol`, a function from a series to a real.
 */
module PerformanceMetrics {
  import opened Frames
  import opened Backtest

  const WeeksPerYear: nat := 52

  // ---------------------------------------------------------------------
  // Mean and annualised return
  // ---------------------------------------------------------------------

  function Sum(s: seq<real>): real {
    if s == [] then 0.0 else Sum(s[..|s| - 1]) + s[|s| - 1]
  }

  /** `Series.mean()`: NaN on an empty series. */
  function Mean(s: seq<real>): (m: Option<real>)
    ensures m.None? <==> s == []
  {
    if s == [] then None else Some(Sum(s) / (|s| as real))
  }

  /** `x ** n`: positive for a positive base, and 1 for a base of 1. */
  function Pow(x: real, n: nat): (p: real)
    ensures x > 0.0 ==> p > 0.0
    ensures x == 1.0 ==> p == 1.0
  {
    if n == 0 then 1.0
    else
      var rest := Pow(x, n - 1);
      if x > 0.0 then MulPositive(x, rest); x * rest else x * rest
  }

  /** `annualized_return`: `(1 + mean)^52 - 1`, NaN when the series is empty. */
  function AnnualizedReturn(r: seq<real>): (a: Option<real>)
    ensures a.None? <==> r == []
  {
    match Mean(r)
    case None => None
    case Some(m) => Some(Pow(1.0 + m, WeeksPerYear) - 1.0)
  }

  lemma {:induction false} SumOfZeros(s: seq<real>)
    requires forall k :: 0 <= k < |s| ==> s[k] == 0.0
    ensures Sum(s) == 0.0
  {
    if s != [] {
      SumOfZeros(s[..|s| - 1]);
    }
  }

  /** A series of zero weekly returns annualises to exactly 0. */
  lemma AllZeroAnnualizesToZero(r: seq<real>)
    requires r != [] && forall k :: 0 <= k < |r| ==> r[k] == 0.0
    ensures AnnualizedReturn(r) == Some(0.0)
  {
    SumOfZeros(r);
  }

  lemma {:induction false} PowEvenNonNegative(x: real, k: nat)
    ensures Pow(x, 2 * k) >= 0.0
  {
    if k > 0 {
      PowEvenNonNegative(x, k - 1);
      var p := Pow(x, 2 * k - 2);
      assert Pow(x, 2 * k) == x * (x * p);
      assert x * (x * p) == (x * x) * p;
      MulNonNegative(x * x, p);
    }
  }

  lemma {:induction false} PowAboveOne(x: real, n: nat)
    requires x > 1.0 && n >= 1
    ensures Pow(x, n) > 1.0
  {
    if n > 1 {
      PowAboveOne(x, n - 1);
      var p := Pow(x, n - 1);
      assert x * p - x == x * (p - 1.0);
      MulPositive(x, p - 1.0);
    }
  }

  lemma {:induction false} PowMagnitudeBelowOne(x: real, n: nat)
    requires -1.0 < x < 1.0 && n >= 1
    ensures -1.0 < Pow(x, n) < 1.0
  {
    if n > 1 {
      PowMagnitudeBelowOne(x, n - 1);
      var p := Pow(x, n - 1);
      AbsProduct(x, p);
      ProductBelowOne(Abs(x), Abs(p));
    }
  }

  lemma AbsProduct(x: real, y: real)
    ensures Abs(x * y) == Abs(x) * Abs(y)
  {
    if x < 0.0 && y < 0.0 {
      assert x * y == (-x) * (-y);
    } else if x < 0.0 {
      assert -(x * y) == (-x) * y;
    } else if y < 0.0 {
      assert -(x * y) == x * (-y);
    }
  }

  lemma ProductBelowOne(a: real, b: real)
    requires 0.0 <= a < 1.0 && 0.0 <= b < 1.0
    ensures a * b < 1.0
  {
    MulMonotone(b, a, 1.0);
  }

  /**
   * Annualising never loses more than everything (the 52nd power is even),
   * keeps the sign of a positive mean, and turns a mean in (-2, 0) into a loss.
   */
  lemma AnnualizedReturnSign(r: seq<real>)
    requires r != []
    ensures AnnualizedReturn(r).value >= -1.0
    ensures Mean(r).value > 0.0 ==> AnnualizedReturn(r).value > 0.0
    ensures -2.0 < Mean(r).value < 0.0 ==> AnnualizedReturn(r).value < 0.0
  {
    var x := 1.0 + Mean(r).value;
    PowEvenNonNegative(x, 26);
    if x > 1.0 {
      PowAboveOne(x, WeeksPerYear);
    }
    if -1.0 < x < 1.0 {
      PowMagnitudeBelowOne(x, WeeksPerYear);
    }
  }

  // ---------------------------------------------------------------------
  // Sharpe ratio
  // ---------------------------------------------------------------------

  /** `weekly_returns - rf / 52`. */
  function Excess(r: seq<real>, rf: real): (x: seq<real>)
    ensures |x| == |r|
    ensures forall k :: 0 <= k < |r| ==> x[k] == r[k] - rf / (WeeksPerYear as real)
  {
    Shift(r, rf / (WeeksPerYear as real))
  }

  /** Every value lowered by `w`. */
  function Shift(r: seq<real>, w: real): (x: seq<real>)
    ensures |x| == |r|
    ensures forall k :: 0 <= k < |r| ==> x[k] == r[k] - w
  {
    if r == [] then [] else Shift(r[..|r| - 1], w) + [r[|r| - 1] - w]
  }

  /**
   * `sharpe_ratio`: NaN when the volatility of the excess series is 0 (or
   * the series is empty); otherwise the annualised excess return per unit
   * of volatility.
   */
  function SharpeRatio(r: seq<real>, rf: real, vol: seq<real> -> real): (s: Option<real>)
    ensures s.Some? <==> r != [] && vol(Excess(r, rf)) != 0.0
    ensures s.Some? ==> s.value * vol(Excess(r, rf)) == AnnualizedReturn(Excess(r, rf)).value
  {
    var excess := Excess(r, rf);
    var v := vol(excess);
    if v == 0.0 then None
    else match AnnualizedReturn(excess)
      case None => None
      case Some(a) => Some(a / v)
  }

  /** `w` added to itself `k` times. */
  function Repeated(k: nat, w: real): real {
    if k == 0 then 0.0 else Repeated(k - 1, w) + w
  }

  lemma {:induction false} RepeatedIsProduct(k: nat, w: real)
    ensures Repeated(k, w) == (k as real) * w
  {
    if k > 0 {
      RepeatedIsProduct(k - 1, w);
      ScaleSuccessor(w, k - 1);
    }
  }

  lemma SumSnoc(s: seq<real>, v: real)
    ensures Sum(s + [v]) == Sum(s) + v
  {
    assert (s + [v])[..|s|] == s;
  }

  lemma {:induction false} SumOfShiftRepeated(r: seq<real>, w: real)
    ensures Sum(Shift(r, w)) == Sum(r) - Repeated(|r|, w)
  {
    if r != [] {
      var front := r[..|r| - 1];
      SumOfShiftRepeated(front, w);
      SumSnoc(Shift(front, w), r[|r| - 1] - w);
    }
  }

  /** Shifting every week by `w` lowers the total by `w` per week. */
  lemma SumOfShift(r: seq<real>, w: real)
    ensures Sum(Shift(r, w)) == Sum(r) - (|r| as real) * w
  {
    SumOfShiftRepeated(r, w);
    RepeatedIsProduct(|r|, w);
  }

  /** Subtracting the weekly risk-free rate lowers the mean by exactly that rate. */
  lemma ExcessMean(r: seq<real>, rf: real)
    requires r != []
    ensures Mean(Excess(r, rf)).value == Mean(r).value - rf / (WeeksPerYear as real)
  {
    SumOfShift(r, rf / (WeeksPerYear as real));
    var n := |r| as real;
    var w := rf / (WeeksPerYear as real);
    DivideDifference(Sum(r), n * w, n, w);
  }

  lemma DivideDifference(a: real, b: real, n: real, w: real)
    requires n > 0.0 && b == n * w
    ensures (a - b) / n == a / n - w
  {
  }

  /** A zero risk-free rate leaves the series as it is. */
  lemma ZeroRiskFreeRate(r: seq<real>)
    ensures Excess(r, 0.0) == r
  {
  }

  /** With positive volatility the Sharpe ratio has the sign of the annualised excess return. */
  lemma SharpeSign(r: seq<real>, rf: real, vol: seq<real> -> real)
    requires r != [] && vol(Excess(r, rf)) > 0.0
    ensures SharpeRatio(r, rf, vol).Some?
    ensures SharpeRatio(r, rf, vol).value > 0.0 <==> AnnualizedReturn(Excess(r, rf)).value > 0.0
    ensures SharpeRatio(r, rf, vol).value < 0.0 <==> AnnualizedReturn(Excess(r, rf)).value < 0.0
  {
    var s := SharpeRatio(r, rf, vol).value;
    var v := vol(Excess(r, rf));
    if s > 0.0 {
      MulPositive(s, v);
    } else if s < 0.0 {
      MulPositive(-s, v);
    }
  }

  // ---------------------------------------------------------------------
  // Equity curve and drawdown
  // ---------------------------------------------------------------------

  /** `(1 + r).cumprod()`. */
  function EquityCurve(r: seq<real>): (e: seq<real>)
    ensures |e| == |r|
    ensures r != [] ==> e[0] == 1.0 + r[0]
    ensures forall t :: 1 <= t < |r| ==> e[t] == e[t - 1] * (1.0 + r[t])
  {
    if r == [] then []
    else
      var front := EquityCurve(r[..|r| - 1]);
      var prev := if front == [] then 1.0 else front[|front| - 1];
      front + [prev * (1.0 + r[|r| - 1])]
  }

  /** The growth of one unit over the whole series, multiplied out from the front. */
  function Compounded(s: seq<real>): real {
    if s == [] then 1.0 else (1.0 + s[0]) * Compounded(s[1..])
  }

  lemma {:induction false} CompoundedAppend(s: seq<real>, x: real)
    ensures Compounded(s + [x]) == Compounded(s) * (1.0 + x)
  {
    if s != [] {
      assert (s + [x])[1..] == s[1..] + [x];
      CompoundedAppend(s[1..], x);
      var c := Compounded(s[1..]);
      assert (1.0 + s[0]) * (c * (1.0 + x)) == ((1.0 + s[0]) * c) * (1.0 + x);
    }
  }

  /** Each point of the curve is the compounded growth of the returns up to it. */
  lemma {:induction false} EquityIsCompounded(r: seq<real>, t: nat)
    requires t < |r|
    ensures EquityCurve(r)[t] == Compounded(r[..t + 1])
  {
    if t == 0 {
      assert r[..1] == [r[0]];
      assert r[..1][1..] == [];
    } else {
      EquityIsCompounded(r, t - 1);
      assert r[..t + 1] == r[..t] + [r[t]];
      CompoundedAppend(r[..t], r[t]);
    }
  }

  predicate AllPositive(e: seq<real>) {
    forall t :: 0 <= t < |e| ==> e[t] > 0.0
  }

  /** Returns above -100% keep the equity curve positive. */
  lemma {:induction false} EquityPositive(r: seq<real>)
    requires forall t :: 0 <= t < |r| ==> r[t] > -1.0
    ensures AllPositive(EquityCurve(r))
  {
    var e := EquityCurve(r);
    forall t | 0 <= t < |r|
      ensures e[t] > 0.0
    {
      EquityPointPositive(r, t);
    }
  }

  lemma {:induction false} EquityPointPositive(r: seq<real>, t: nat)
    requires t < |r| && forall k :: 0 <= k < |r| ==> r[k] > -1.0
    ensures EquityCurve(r)[t] > 0.0
  {
    if t > 0 {
      EquityPointPositive(r, t - 1);
      MulPositive(EquityCurve(r)[t - 1], 1.0 + r[t]);
    }
  }

  function Max(a: real, b: real): real {
    if a >= b then a else b
  }

  /** `cummax()`: the highest point so far, which is one of the points so far. */
  function RunningMax(e: seq<real>): (m: seq<real>)
    ensures |m| == |e|
    ensures forall t, k :: 0 <= k <= t < |e| ==> e[k] <= m[t]
    ensures forall t :: 0 <= t < |e| ==> m[t] in e[..t + 1]
  {
    if e == [] then []
    else
      var n := |e| - 1;
      var front := RunningMax(e[..n]);
      var top := if front == [] then e[n] else Max(front[n - 1], e[n]);
      assert e[n] in e[..n + 1];
      assert front != [] ==> front[n - 1] in e[..n];
      front + [top]
  }

  /** `equity / cummax - 1` at point `t`: never below -100%, never above 0. */
  function Drawdown(e: seq<real>, t: nat): (d: real)
    requires AllPositive(e) && t < |e|
    ensures -1.0 < d <= 0.0
  {
    RunningMaxPositive(e, t);
    QuotientFacts(e[t], RunningMax(e)[t]);
    e[t] / RunningMax(e)[t] - 1.0
  }

  lemma RunningMaxPositive(e: seq<real>, t: nat)
    requires AllPositive(e) && t < |e|
    ensures RunningMax(e)[t] > 0.0
  {
    assert e[t] <= RunningMax(e)[t];
  }

  /** The smallest drawdown among the first `n` points. */
  function LowestDrawdown(e: seq<real>, n: nat): (d: real)
    requires AllPositive(e) && 0 < n <= |e|
    ensures forall t :: 0 <= t < n ==> d <= Drawdown(e, t)
    ensures exists t :: 0 <= t < n && d == Drawdown(e, t)
  {
    if n == 1 then Drawdown(e, 0)
    else
      var rest := LowestDrawdown(e, n - 1);
      var last := Drawdown(e, n - 1);
      if last < rest then last else rest
  }

  /**
   * `max_drawdown`: the minimum of the drawdown series, NaN for an empty
   * curve. Defined for a positive curve, the curve of returns above -100%.
   */
  function MaxDrawdown(e: seq<real>): (d: Option<real>)
    requires AllPositive(e)
    ensures d.None? <==> e == []
    ensures d.Some? ==> (forall t :: 0 <= t < |e| ==> d.value <= Drawdown(e, t))
    ensures d.Some? ==> exists t :: 0 <= t < |e| && d.value == Drawdown(e, t)
  {
    if e == [] then None else Some(LowestDrawdown(e, |e|))
  }

  predicate NonDecreasing(e: seq<real>) {
    forall t :: 1 <= t < |e| ==> e[t - 1] <= e[t]
  }

  lemma QuotientFacts(a: real, b: real)
    requires a > 0.0 && b > 0.0
    ensures a / b > 0.0
    ensures a <= b ==> a / b <= 1.0
    ensures a / b >= 1.0 ==> a >= b
    ensures a == b ==> a / b == 1.0
  {
  }

  /** The first point is its own peak: the drawdown there is 0. */
  lemma FirstDrawdownZero(e: seq<real>)
    requires AllPositive(e) && e != []
    ensures Drawdown(e, 0) == 0.0
  {
    assert RunningMax(e)[0] in e[..1];
    assert e[..1] == [e[0]];
    QuotientFacts(e[0], e[0]);
  }

  /** The maximum drawdown of a non-empty positive curve lies in (-1, 0]. */
  lemma MaxDrawdownRange(e: seq<real>)
    requires AllPositive(e) && e != []
    ensures -1.0 < MaxDrawdown(e).value <= 0.0
  {
    FirstDrawdownZero(e);
    var d := MaxDrawdown(e).value;
    var t :| 0 <= t < |e| && d == Drawdown(e, t);
  }

  /** A curve that never falls is always at its peak. */
  lemma AtPeak(e: seq<real>, t: nat)
    requires AllPositive(e) && NonDecreasing(e) && t < |e|
    ensures RunningMax(e)[t] == e[t]
  {
    var m := RunningMax(e)[t];
    assert m in e[..t + 1];
    var k :| 0 <= k <= t && e[k] == m;
    MonotoneUpTo(e, k, t);
  }

  lemma {:induction false} MonotoneUpTo(e: seq<real>, k: nat, t: nat)
    requires NonDecreasing(e) && k <= t < |e|
    ensures e[k] <= e[t]
    decreases t - k
  {
    if k < t {
      MonotoneUpTo(e, k + 1, t);
    }
  }

  /** The maximum drawdown of a positive curve is 0 exactly when the curve never falls. */
  lemma MaxDrawdownZeroIff(e: seq<real>)
    requires AllPositive(e) && e != []
    ensures MaxDrawdown(e).value == 0.0 <==> NonDecreasing(e)
  {
    if NonDecreasing(e) {
      RisingCurveNoDrawdown(e);
    }
    if MaxDrawdown(e).value == 0.0 {
      NoDrawdownRisingCurve(e);
    }
  }

  lemma RisingCurveNoDrawdown(e: seq<real>)
    requires AllPositive(e) && e != [] && NonDecreasing(e)
    ensures MaxDrawdown(e).value == 0.0
  {
    var d := MaxDrawdown(e).value;
    var t :| 0 <= t < |e| && d == Drawdown(e, t);
    AtPeak(e, t);
    QuotientFacts(e[t], e[t]);
  }

  lemma NoDrawdownRisingCurve(e: seq<real>)
    requires AllPositive(e) && e != [] && MaxDrawdown(e).value == 0.0
    ensures NonDecreasing(e)
  {
    forall t | 1 <= t < |e|
      ensures e[t - 1] <= e[t]
    {
      NotBelowPeak(e, t);
    }
  }

  /** A point whose drawdown is not negative is at least every earlier point. */
  lemma NotBelowPeak(e: seq<real>, t: nat)
    requires AllPositive(e) && t < |e| && Drawdown(e, t) >= 0.0
    ensures forall k :: 0 <= k <= t ==> e[k] <= e[t]
  {
    RunningMaxPositive(e, t);
    QuotientFacts(e[t], RunningMax(e)[t]);
  }

  // ---------------------------------------------------------------------
  // Summary
  // ---------------------------------------------------------------------

  /** `Series.dropna()`: the present values, in order. */
  function DropMissing(s: seq<Option<real>>): (r: seq<real>)
    ensures |r| <= |s|
    ensures forall x :: x in r <==> Some(x) in s
  {
    if s == [] then []
    else
      var last := s[|s| - 1];
      assert s == s[..|s| - 1] + [last];
      DropMissing(s[..|s| - 1]) + (if last.Some? then [last.value] else [])
  }

  lemma {:induction false} DropMissingAppend(a: seq<Option<real>>, b: seq<Option<real>>)
    ensures DropMissing(a + b) == DropMissing(a) + DropMissing(b)
    decreases |b|
  {
    if b == [] {
      assert a + b == a;
    } else {
      var b0 := b[..|b| - 1];
      assert (a + b)[..|a + b| - 1] == a + b0;
      assert (a + b)[|a + b| - 1] == b[|b| - 1];
      DropMissingAppend(a, b0);
    }
  }

  /** A column without missing values passes unchanged. */
  lemma {:induction false} DropMissingComplete(s: seq<Option<real>>)
    requires forall k :: 0 <= k < |s| ==> s[k].Some?
    ensures |DropMissing(s)| == |s|
    ensures forall k :: 0 <= k < |s| ==> DropMissing(s)[k] == s[k].value
  {
    if s != [] {
      DropMissingComplete(s[..|s| - 1]);
    }
  }

  function PortColumn(results: seq<PeriodResult>): (c: seq<Option<real>>)
    ensures |c| == |results|
    ensures forall k :: 0 <= k < |c| ==> c[k] == Some(results[k].portRet)
  {
    if results == [] then [] else PortColumn(results[..|results| - 1]) + [Some(results[|results| - 1].portRet)]
  }

  function BenchColumn(results: seq<PeriodResult>): (c: seq<Option<real>>)
    ensures |c| == |results|
    ensures forall k :: 0 <= k < |c| ==> c[k] == results[k].benchRet
  {
    if results == [] then [] else BenchColumn(results[..|results| - 1]) + [results[|results| - 1].benchRet]
  }

  /** The eight statistics, one field per key of the returned dictionary. */
  datatype Summary = Summary(
    portAnnRet: Option<real>, portAnnVol: real, portSharpe: Option<real>, portMaxDD: Option<real>,
    benchAnnRet: Option<real>, benchAnnVol: real, benchSharpe: Option<real>, benchMaxDD: Option<real>)

  /**
   * The maximum drawdown of the curve of `r`, in (-1, 0]; missing when the
   * series is empty or a return of -100% or worse leaves the curve
   * non-positive.
   */
  function CurveDrawdown(r: seq<real>): (d: Option<real>)
    ensures d.Some? <==> r != [] && AllPositive(EquityCurve(r))
    ensures d.Some? ==> -1.0 < d.value <= 0.0
  {
    var e := EquityCurve(r);
    if r != [] && AllPositive(e) then MaxDrawdownRange(e); MaxDrawdown(e) else None
  }

  /** A non-empty series of returns above -100% always has a maximum drawdown. */
  lemma CurveDrawdownDefined(r: seq<real>)
    requires r != [] && forall t :: 0 <= t < |r| ==> r[t] > -1.0
    ensures CurveDrawdown(r).Some?
  {
    EquityPositive(r);
  }

  /** Every week's net return, in order. */
  function NetReturns(results: seq<PeriodResult>): seq<real> {
    seq(|results|, k requires 0 <= k < |results| => results[k].portRet)
  }

  /**
   * `summarize_performance`: the portfolio and benchmark columns each drop
   * their own missing values, then each gets the same four statistics
   * (Sharpe ratio at a zero risk-free rate). The portfolio column is never
   * missing, so its statistics are those of every week's net return.
   */
  function SummarizePerformance(results: seq<PeriodResult>, vol: seq<real> -> real): (s: Summary)
    ensures s.portAnnRet == AnnualizedReturn(NetReturns(results))
    ensures s.portAnnVol == vol(NetReturns(results))
    ensures s.portSharpe == SharpeRatio(NetReturns(results), 0.0, vol)
    ensures s.portMaxDD == CurveDrawdown(NetReturns(results))
    ensures s.benchAnnRet == AnnualizedReturn(DropMissing(BenchColumn(results)))
    ensures s.benchAnnVol == vol(DropMissing(BenchColumn(results)))
    ensures s.benchSharpe == SharpeRatio(DropMissing(BenchColumn(results)), 0.0, vol)
    ensures s.benchMaxDD == CurveDrawdown(DropMissing(BenchColumn(results)))
  {
    var port := DropMissing(PortColumn(results));
    var bench := DropMissing(BenchColumn(results));
    PortSeriesIsEveryWeek(results);
    assert port == NetReturns(results);
    Summary(
      AnnualizedReturn(port), vol(port), SharpeRatio(port, 0.0, vol), CurveDrawdown(port),
      AnnualizedReturn(bench), vol(bench), SharpeRatio(bench, 0.0, vol), CurveDrawdown(bench))
  }

  /** The portfolio column is never missing: its series is every week's net return, in order. */
  lemma PortSeriesIsEveryWeek(results: seq<PeriodResult>)
    ensures |DropMissing(PortColumn(results))| == |results|
    ensures forall k :: 0 <= k < |results| ==> DropMissing(PortColumn(results))[k] == results[k].portRet
  {
    DropMissingComplete(PortColumn(results));
  }

  /**
   * The two columns are cleaned independently: the portfolio statistics do
   * not depend on where the benchmark is missing.
   */
  lemma PortStatsIgnoreBenchmark(a: seq<PeriodResult>, b: seq<PeriodResult>, vol: seq<real> -> real)
    requires |a| == |b| && forall k :: 0 <= k < |a| ==> a[k].portRet == b[k].portRet
    ensures SummarizePerformance(a, vol).portAnnRet == SummarizePerformance(b, vol).portAnnRet
    ensures SummarizePerformance(a, vol).portAnnVol == SummarizePerformance(b, vol).portAnnVol
    ensures SummarizePerformance(a, vol).portSharpe == SummarizePerformance(b, vol).portSharpe
    ensures SummarizePerformance(a, vol).portMaxDD == SummarizePerformance(b, vol).portMaxDD
  {
    assert PortColumn(a) == PortColumn(b);
  }
}
