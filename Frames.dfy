/**
 * The shared vocabulary of the model: the rows of a weekly (Date, Ticker)
 * indexed data frame, missing values, the exceptions the modelled code can
 * raise, and the per-date sums that pandas writes as `groupby("Date").sum()`.
 *
 * A frame is a `seq<Row>` in frame order. A date is an integer key (a day
 * number); `year` is the calendar year of that date, carried alongside it.
 */
module Frames {

  /** A cell that may be missing: pandas' NaN. */
  datatype Option<+T> = None | Some(value: T)

  /** The exceptions raised by the modelled code. */
  datatype Error =
    | TickerNotInIndex(ticker: string)   // KeyError from DataFrame.xs on the Ticker level
    | EmptyTrainSplit(year: int)          // ValueError from train_test_split: no row left to fit on
    | EmptyTestSet(year: int)             // ValueError from predict_proba: no test row survives dropna
    | NothingToConcatenate                // ValueError from pd.concat on an empty list

  datatype Result<+T> = Ok(value: T) | Err(error: Error)

  /**
   * One row of the frame. `features` holds the feature columns that are
   * present on this row; a column absent from the map is NaN on this row.
   */
  datatype Row = Row(
    date: int,
    year: int,
    ticker: string,
    close: Option<real>,
    ret1w: Option<real>,
    features: map<string, real>,
    fwdRet: Option<real>,
    benchFwdRet: Option<real>,
    excessFwdRet: Option<real>,
    classLabel: Option<int>,
    predProb: Option<real>)

  function Abs(x: real): real {
    if x < 0.0 then -x else x
  }

  function Min(a: int, b: int): int {
    if a <= b then a else b
  }

  lemma InverseTimes(k: nat, c: real)
    requires k > 0 && c == 1.0 / (k as real)
    ensures c * (k as real) == 1.0
  {
  }

  // ---------------------------------------------------------------------
  // Sums over the rows of one date
  // ---------------------------------------------------------------------

  /**
   * The sum of column `v` over the first `n` rows whose date is `d`. A
   * missing product has already been replaced by 0 in `v`, as pandas'
   * `sum` skips NaN.
   */
  function SumOn(df: seq<Row>, d: int, v: seq<real>, n: nat): real
    requires |v| == |df| && n <= |df|
  {
    if n == 0 then 0.0
    else SumOn(df, d, v, n - 1) + (if df[n - 1].date == d then v[n - 1] else 0.0)
  }

  /** The rows below `n` that lie on date `d` and belong to `a`. */
  function RowsIn(df: seq<Row>, d: int, a: set<nat>, n: nat): set<nat>
    requires n <= |df|
  {
    set i: nat | i < n && df[i].date == d && i in a
  }

  lemma {:induction false} SumOnMono(df: seq<Row>, d: int, u: seq<real>, v: seq<real>, n: nat)
    requires |u| == |df| && |v| == |df| && n <= |df|
    requires forall i :: 0 <= i < n && df[i].date == d ==> u[i] <= v[i]
    ensures SumOn(df, d, u, n) <= SumOn(df, d, v, n)
  {
    if n > 0 {
      SumOnMono(df, d, u, v, n - 1);
    }
  }

  lemma SumOnSame(df: seq<Row>, d: int, u: seq<real>, v: seq<real>, n: nat)
    requires |u| == |df| && |v| == |df| && n <= |df|
    requires forall i :: 0 <= i < n && df[i].date == d ==> u[i] == v[i]
    ensures SumOn(df, d, u, n) == SumOn(df, d, v, n)
  {
    SumOnMono(df, d, u, v, n);
    SumOnMono(df, d, v, u, n);
  }

  lemma {:induction false} SumOnScale(df: seq<Row>, d: int, u: seq<real>, v: seq<real>, c: real, n: nat)
    requires |u| == |df| && |v| == |df| && n <= |df|
    requires forall i :: 0 <= i < n && df[i].date == d ==> v[i] == c * u[i]
    ensures SumOn(df, d, v, n) == c * SumOn(df, d, u, n)
  {
    if n > 0 {
      SumOnScale(df, d, u, v, c, n - 1);
    }
  }

  /** `g` lies between `lo` and `hi` times the weight `w`. */
  predicate Between(lo: real, hi: real, w: real, g: real) {
    lo * w <= g <= hi * w
  }

  /** A column squeezed between `lo` and `hi` times a weight column sums between `lo` and `hi` times the weights' sum. */
  lemma {:induction false} SumOnBetween(df: seq<Row>, d: int, w: seq<real>, g: seq<real>, lo: real, hi: real, n: nat)
    requires |w| == |df| && |g| == |df| && n <= |df|
    requires forall i :: 0 <= i < n && df[i].date == d ==> Between(lo, hi, w[i], g[i])
    ensures Between(lo, hi, SumOn(df, d, w, n), SumOn(df, d, g, n))
  {
    if n > 0 {
      SumOnBetween(df, d, w, g, lo, hi, n - 1);
      var a := SumOn(df, d, w, n - 1);
      var x := if df[n - 1].date == d then w[n - 1] else 0.0;
      assert SumOn(df, d, w, n) == a + x;
      assert lo * (a + x) == lo * a + lo * x;
      assert hi * (a + x) == hi * a + hi * x;
    }
  }

  lemma MulPositive(a: real, b: real)
    requires a > 0.0 && b > 0.0
    ensures a * b > 0.0
  {
  }

  lemma MulNonNegative(a: real, b: real)
    requires a >= 0.0 && b >= 0.0
    ensures a * b >= 0.0
  {
  }

  /** Multiplying by a non-negative weight keeps an order. */
  lemma MulMonotone(w: real, x: real, y: real)
    requires w >= 0.0 && x <= y
    ensures w * x <= w * y
  {
  }

  /** A sum of non-negative terms is non-negative, and positive when one term is. */
  lemma {:induction false} SumOnPositive(df: seq<Row>, d: int, v: seq<real>, n: nat, k: nat)
    requires |v| == |df| && n <= |df|
    requires forall i :: 0 <= i < n && df[i].date == d ==> v[i] >= 0.0
    ensures SumOn(df, d, v, n) >= 0.0
    ensures k < n && df[k].date == d && v[k] > 0.0 ==> SumOn(df, d, v, n) > 0.0
  {
    if n > 0 {
      SumOnPositive(df, d, v, n - 1, k);
    }
  }

  /** A column that is `c` on the rows of `a` and 0 elsewhere sums to `c` times their number. */
  lemma {:induction false} SumOnIndicator(df: seq<Row>, d: int, v: seq<real>, a: set<nat>, c: real, n: nat)
    requires |v| == |df| && n <= |df|
    requires forall i :: 0 <= i < n && df[i].date == d ==> v[i] == (if i in a then c else 0.0)
    ensures SumOn(df, d, v, n) == c * (|RowsIn(df, d, a, n)| as real)
  {
    if n > 0 {
      SumOnIndicator(df, d, v, a, c, n - 1);
      var before := RowsIn(df, d, a, n - 1);
      assert SumOn(df, d, v, n) == SumOn(df, d, v, n - 1) + (if df[n - 1].date == d then v[n - 1] else 0.0);
      if df[n - 1].date == d && n - 1 in a {
        RowsInStep(df, d, a, n);
        ScaleSuccessor(c, |before|);
      } else {
        assert RowsIn(df, d, a, n) == before;
      }
    }
  }

  lemma RowsInStep(df: seq<Row>, d: int, a: set<nat>, n: nat)
    requires 0 < n <= |df| && df[n - 1].date == d && n - 1 in a
    ensures |RowsIn(df, d, a, n)| == |RowsIn(df, d, a, n - 1)| + 1
  {
    var before := RowsIn(df, d, a, n - 1);
    assert RowsIn(df, d, a, n) == before + {n - 1};
    assert n - 1 !in before;
  }

  lemma ScaleSuccessor(c: real, k: nat)
    ensures c * ((k + 1) as real) == c * (k as real) + c
  {
  }

  /** The same, when `a` holds only rows of date `d`. */
  lemma SumOnIndicatorAll(df: seq<Row>, d: int, v: seq<real>, a: set<nat>, c: real)
    requires |v| == |df|
    requires forall i :: i in a ==> i < |df| && df[i].date == d
    requires forall i :: 0 <= i < |df| && df[i].date == d ==> v[i] == (if i in a then c else 0.0)
    ensures SumOn(df, d, v, |df|) == c * (|a| as real)
  {
    SumOnIndicator(df, d, v, a, c, |df|);
    assert RowsIn(df, d, a, |df|) == a;
  }

  // ---------------------------------------------------------------------
  // Cardinalities
  // ---------------------------------------------------------------------

  lemma SubsetCard<T>(a: set<T>, b: set<T>)
    requires a <= b
    ensures |a| <= |b|
  {
    assert b == a + (b - a);
  }

  lemma StrictSubsetCard<T>(a: set<T>, b: set<T>, x: T)
    requires a <= b && x in b && x !in a
    ensures |a| < |b|
  {
    assert b == a + (b - a);
    assert x in b - a;
  }

  lemma SameCardSubset<T>(a: set<T>, b: set<T>)
    requires a <= b && |a| == |b|
    ensures a == b
  {
    assert b == a + (b - a);
    assert |b - a| == 0;
  }

  /** The integers 1..m. */
  function OneTo(m: int): (s: set<int>)
    ensures forall r :: r in s <==> 1 <= r <= m
    decreases if m < 0 then 0 else m
  {
    if m <= 0 then {} else OneTo(m - 1) + {m}
  }

  lemma {:induction false} OneToCard(m: int)
    ensures |OneTo(m)| == if m < 0 then 0 else m
    decreases if m < 0 then 0 else m
  {
    if m > 0 {
      OneToCard(m - 1);
      assert m !in OneTo(m - 1);
    }
  }

  // ---------------------------------------------------------------------
  // Sorted distinct keys: the index of a groupby result
  // ---------------------------------------------------------------------

  predicate StrictlyIncreasing(s: seq<int>) {
    forall i, j :: 0 <= i < j < |s| ==> s[i] < s[j]
  }

  function Elems(s: seq<int>): set<int> {
    set x | x in s
  }

  function InsertSorted(s: seq<int>, x: int): (r: seq<int>)
    requires StrictlyIncreasing(s)
    ensures StrictlyIncreasing(r)
    ensures Elems(r) == Elems(s) + {x}
  {
    if s == [] then [x]
    else if x < s[0] then
      ConsIncreasing(x, s);
      ElemsCons(x, s);
      [x] + s
    else if x == s[0] then
      HeadInElems(s);
      s
    else
      var rest := InsertSorted(s[1..], x);
      InsertBehindHead(s, x, rest);
      [s[0]] + rest
  }

  lemma HeadInElems(s: seq<int>)
    requires s != []
    ensures Elems(s) == Elems(s) + {s[0]}
  {
    assert s[0] in s;
  }

  /** Putting the head back in front of the tail's insertion result. */
  lemma InsertBehindHead(s: seq<int>, x: int, rest: seq<int>)
    requires StrictlyIncreasing(s) && s != [] && s[0] < x
    requires StrictlyIncreasing(rest) && Elems(rest) == Elems(s[1..]) + {x}
    ensures StrictlyIncreasing([s[0]] + rest)
    ensures Elems([s[0]] + rest) == Elems(s) + {x}
  {
    ElemsCons(s[0], s[1..]);
    assert [s[0]] + s[1..] == s;
    ElemsCons(s[0], rest);
    forall k | 0 <= k < |rest|
      ensures s[0] < rest[k]
    {
      assert rest[k] in Elems(rest);
    }
    ConsIncreasing(s[0], rest);
  }

  lemma ElemsCons(a: int, s: seq<int>)
    ensures Elems([a] + s) == {a} + Elems(s)
  {
    assert forall y :: y in [a] + s <==> y == a || y in s;
  }

  lemma ConsIncreasing(a: int, s: seq<int>)
    requires StrictlyIncreasing(s)
    requires forall k :: 0 <= k < |s| ==> a < s[k]
    ensures StrictlyIncreasing([a] + s)
  {
    var r := [a] + s;
    forall i, j | 0 <= i < j < |r|
      ensures r[i] < r[j]
    {
      assert r[j] == s[j - 1];
      if i > 0 {
        assert r[i] == s[i - 1];
      }
    }
  }

  /** The distinct dates of the first `n` rows, in increasing order. */
  function DatesUpTo(df: seq<Row>, n: nat): (r: seq<int>)
    requires n <= |df|
    ensures StrictlyIncreasing(r)
    ensures Elems(r) == set i | 0 <= i < n :: df[i].date
  {
    if n == 0 then []
    else
      var r := InsertSorted(DatesUpTo(df, n - 1), df[n - 1].date);
      assert (set i | 0 <= i < n :: df[i].date) == (set i | 0 <= i < n - 1 :: df[i].date) + {df[n - 1].date};
      r
  }

  /** The distinct dates of the frame in increasing order: the index `groupby("Date")` produces. */
  function Dates(df: seq<Row>): (r: seq<int>)
    ensures StrictlyIncreasing(r)
    ensures forall x :: x in r <==> exists i :: 0 <= i < |df| && df[i].date == x
  {
    var r := DatesUpTo(df, |df|);
    assert forall x :: x in r <==> x in Elems(r);
    r
  }

  // ---------------------------------------------------------------------
  // Lookup by (Date, Ticker) key
  // ---------------------------------------------------------------------

  /** The benchmark ticker, the default of both the backtest and the labelling. */
  const DefaultBenchmark: string := "SPY"

  /** The ticker appears on some row: otherwise `xs(ticker, level="Ticker")` raises `KeyError`. */
  predicate HasTicker(df: seq<Row>, t: string) {
    exists i :: 0 <= i < |df| && df[i].ticker == t
  }

  /** No (Date, Ticker) key appears twice. */
  predicate UniqueKeys(df: seq<Row>) {
    forall i, j :: 0 <= i < j < |df| ==> df[i].date != df[j].date || df[i].ticker != df[j].ticker
  }

  /** The first row at or after `from` on date `d` with ticker `t`. */
  function RowOf(df: seq<Row>, d: int, t: string, from: nat): (p: Option<nat>)
    requires from <= |df|
    ensures p.Some? ==> from <= p.value < |df| && df[p.value].date == d && df[p.value].ticker == t
    ensures p.None? ==> forall j :: from <= j < |df| ==> !(df[j].date == d && df[j].ticker == t)
    decreases |df| - from
  {
    if from == |df| then None
    else if df[from].date == d && df[from].ticker == t then Some(from)
    else RowOf(df, d, t, from + 1)
  }

  /** With unique keys, the lookup finds exactly the row that carries the key. */
  lemma RowOfUnique(df: seq<Row>, d: int, t: string, j: nat)
    requires UniqueKeys(df)
    requires j < |df| && df[j].date == d && df[j].ticker == t
    ensures RowOf(df, d, t, 0) == Some(j)
  {
    var p := RowOf(df, d, t, 0);
    assert p.Some?;
  }
}
