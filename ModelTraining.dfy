/**
 * `prepare_xy`: the rows the classifier sees. Rows missing any feature
 * column or the label are dropped (`dropna(subset=FEATURE_COLS + ["Label"])`),
 * order is kept, and what is left is projected onto the feature matrix X
 * and the integer label vector y, both still keyed by (Date, Ticker).
 */
module ModelTraining {
  import opened Frames

  /** The feature columns, in the order X lists them. */
  const FeatureCols: seq<string> :=
    ["Mom_12_1", "Vol_4w", "Vol_12w", "Px_SMA4", "Px_SMA12", "RSI_14", "ATR_14"]

  /** The row has every feature column and the label: it survives the `dropna`. */
  predicate Complete(r: Row) {
    && (forall k :: 0 <= k < |FeatureCols| ==> FeatureCols[k] in r.features)
    && r.classLabel.Some?
  }

  /** The rows that survive the `dropna`, in frame order. */
  function KeepComplete(df: seq<Row>): (r: seq<Row>)
    ensures |r| <= |df|
    ensures forall k :: 0 <= k < |r| ==> Complete(r[k])
  {
    if df == [] then []
    else
      var last := df[|df| - 1];
      KeepComplete(df[..|df| - 1]) + (if Complete(last) then [last] else [])
  }

  /** The kept rows are exactly the input rows that have every feature and the label. */
  lemma {:induction false} KeepCompleteMembers(df: seq<Row>)
    ensures forall x :: x in KeepComplete(df) <==> x in df && Complete(x)
  {
    if df != [] {
      var front := df[..|df| - 1];
      var last := df[|df| - 1];
      KeepCompleteMembers(front);
      assert df == front + [last];
      assert KeepComplete(df) == KeepComplete(front) + (if Complete(last) then [last] else []);
    }
  }

  /**
   * The filter keeps frame order: of two kept rows, the earlier one comes
   * from an earlier position of the input.
   */
  lemma {:induction false} KeepCompleteOrder(df: seq<Row>, a: nat, b: nat)
    requires a < b < |KeepComplete(df)|
    ensures exists i, j :: 0 <= i < j < |df| && df[i] == KeepComplete(df)[a] && df[j] == KeepComplete(df)[b]
  {
    var front := df[..|df| - 1];
    var last := df[|df| - 1];
    var kept := KeepComplete(front);
    assert KeepComplete(df) == kept + (if Complete(last) then [last] else []);
    if b < |kept| {
      KeepCompleteOrder(front, a, b);
      var i, j :| 0 <= i < j < |front| && front[i] == kept[a] && front[j] == kept[b];
      assert df[i] == front[i] && df[j] == front[j];
    } else {
      KeepCompleteMembers(front);
      assert kept[a] in kept;
      var i :| 0 <= i < |front| && front[i] == kept[a];
      assert df[i] == front[i] && df[|df| - 1] == KeepComplete(df)[b];
    }
  }

  /** One row of X: the feature values in `FeatureCols` order. */
  function FeatureVector(r: Row): (v: seq<real>)
    requires Complete(r)
    ensures |v| == |FeatureCols|
    ensures forall k :: 0 <= k < |v| ==> v[k] == r.features[FeatureCols[k]]
  {
    FeatureValues(r, |FeatureCols|)
  }

  function FeatureValues(r: Row, n: nat): (v: seq<real>)
    requires n <= |FeatureCols| && Complete(r)
    ensures |v| == n
    ensures forall k :: 0 <= k < n ==> v[k] == r.features[FeatureCols[k]]
  {
    if n == 0 then [] else FeatureValues(r, n - 1) + [r.features[FeatureCols[n - 1]]]
  }

  /** The pair (X, y) with its (Date, Ticker) index. */
  datatype Prepared = Prepared(keys: seq<(int, string)>, x: seq<seq<real>>, y: seq<int>)

  /** `prepare_xy`. `astype(int)` leaves the integer labels as they are. */
  function PrepareXY(df: seq<Row>): (r: Prepared)
    ensures |r.keys| == |r.x| == |r.y| == |KeepComplete(df)|
    ensures forall k :: 0 <= k < |r.y| ==>
      && r.keys[k] == (KeepComplete(df)[k].date, KeepComplete(df)[k].ticker)
      && r.x[k] == FeatureVector(KeepComplete(df)[k])
      && r.y[k] == KeepComplete(df)[k].classLabel.value
  {
    var kept := KeepComplete(df);
    Prepared(Keys(kept), Matrix(kept), Labels(kept))
  }

  function Keys(rows: seq<Row>): (r: seq<(int, string)>)
    ensures |r| == |rows|
    ensures forall k :: 0 <= k < |r| ==> r[k] == (rows[k].date, rows[k].ticker)
  {
    if rows == [] then [] else Keys(rows[..|rows| - 1]) + [(rows[|rows| - 1].date, rows[|rows| - 1].ticker)]
  }

  function Matrix(rows: seq<Row>): (r: seq<seq<real>>)
    requires forall k :: 0 <= k < |rows| ==> Complete(rows[k])
    ensures |r| == |rows|
    ensures forall k :: 0 <= k < |r| ==> r[k] == FeatureVector(rows[k])
  {
    if rows == [] then [] else Matrix(rows[..|rows| - 1]) + [FeatureVector(rows[|rows| - 1])]
  }

  function Labels(rows: seq<Row>): (r: seq<int>)
    requires forall k :: 0 <= k < |rows| ==> rows[k].classLabel.Some?
    ensures |r| == |rows|
    ensures forall k :: 0 <= k < |r| ==> r[k] == rows[k].classLabel.value
  {
    if rows == [] then [] else Labels(rows[..|rows| - 1]) + [rows[|rows| - 1].classLabel.value]
  }

  // ---------------------------------------------------------------------
  // Properties of the filter
  // ---------------------------------------------------------------------

  /** Filtering distributes over concatenation: kept rows stay in their input order. */
  lemma {:induction false} KeepAppend(a: seq<Row>, b: seq<Row>)
    ensures KeepComplete(a + b) == KeepComplete(a) + KeepComplete(b)
    decreases |b|
  {
    if b == [] {
      assert a + b == a;
    } else {
      var b0 := b[..|b| - 1];
      var last := b[|b| - 1];
      assert (a + b)[..|a + b| - 1] == a + b0;
      assert (a + b)[|a + b| - 1] == last;
      KeepAppend(a, b0);
    }
  }

  /** Applying the filter to its own output keeps every row. */
  lemma KeepIdempotent(df: seq<Row>)
    ensures KeepComplete(KeepComplete(df)) == KeepComplete(df)
  {
    KeepAllComplete(KeepComplete(df));
  }

  /** A frame without missing features or labels passes unchanged. */
  lemma {:induction false} KeepAllComplete(df: seq<Row>)
    requires forall k :: 0 <= k < |df| ==> Complete(df[k])
    ensures KeepComplete(df) == df
  {
    if df != [] {
      var front := df[..|df| - 1];
      KeepAllComplete(front);
      assert KeepComplete(df) == KeepComplete(front) + [df[|df| - 1]];
      assert front + [df[|df| - 1]] == df;
    }
  }

  /** X and y of the same frame are row-aligned: y's k-th label belongs to X's k-th row key. */
  lemma XYAligned(df: seq<Row>, k: nat)
    requires k < |PrepareXY(df).y|
    ensures exists i ::
      && 0 <= i < |df| && Complete(df[i])
      && PrepareXY(df).keys[k] == (df[i].date, df[i].ticker)
      && PrepareXY(df).x[k] == FeatureVector(df[i])
      && PrepareXY(df).y[k] == df[i].classLabel.value
  {
    var row := KeepComplete(df)[k];
    KeepCompleteMembers(df);
    assert row in KeepComplete(df);
    var i :| 0 <= i < |df| && df[i] == row;
  }
}
