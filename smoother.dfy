/**
 * `smoothen_sdg_values`: a trailing rolling mean down each goal column of
 * one document's score table (`DataFrame.rolling(window).mean()`).
 * A cell whose window is not yet full is NaN in the source and `None` here.
 */
module Smoother {
  import opened Wrappers

  /** Documents with fewer rows than this literal are averaged over all their rows. */
  const ShortDocumentRows: nat := 5

  /** Every row of the table has the width of the first. */
  predicate IsRectangular(rows: seq<seq<real>>) {
    forall i :: 0 <= i < |rows| ==> |rows[i]| == |rows[0]|
  }

  /** The window actually used: the row count when it is below 5, else `window_size`. */
  function EffectiveWindow(rows: nat, windowSize: int): int {
    if rows < ShortDocumentRows then rows else windowSize
  }

  /** Sum of column `j` over rows `lo .. hi-1`. */
  function ColumnSum(rows: seq<seq<real>>, j: nat, lo: nat, hi: nat): real
    requires lo <= hi <= |rows|
    requires forall i :: lo <= i < hi ==> j < |rows[i]|
    decreases hi - lo
  {
    if lo == hi then 0.0 else ColumnSum(rows, j, lo, hi - 1) + rows[hi - 1][j]
  }

  /** Mean of column `j` over rows `lo .. hi-1`. */
  function WindowMean(rows: seq<seq<real>>, j: nat, lo: nat, hi: nat): real
    requires lo < hi <= |rows|
    requires forall i :: lo <= i < hi ==> j < |rows[i]|
  {
    ColumnSum(rows, j, lo, hi) / (hi - lo) as real
  }

  /**
   * Same shape as the input. With `w` the effective window, cell (i, j)
   * is defined exactly when `i >= w - 1`, and is then the mean of column
   * `j` over rows `i-w+1 .. i`.
   */
  function Smoothen(rows: seq<seq<real>>, windowSize: int): (r: seq<seq<Option<real>>>)
    requires |rows| >= 1 && IsRectangular(rows)
    requires |rows| < ShortDocumentRows || windowSize >= 1
    ensures |r| == |rows|
    ensures forall i :: 0 <= i < |r| ==> |r[i]| == |rows[0]|
    ensures forall i, j :: 0 <= i < |r| && 0 <= j < |rows[0]| ==>
      (r[i][j].Some? <==> i >= EffectiveWindow(|rows|, windowSize) - 1)
    ensures forall i, j :: 0 <= i < |r| && 0 <= j < |rows[0]| && r[i][j].Some? ==>
      var w := EffectiveWindow(|rows|, windowSize);
      r[i][j].value == WindowMean(rows, j, i + 1 - w, i + 1)
  {
    var w := EffectiveWindow(|rows|, windowSize);
    seq(|rows|, i requires 0 <= i < |rows| =>
      seq(|rows[0]|, j requires 0 <= j < |rows[0]| =>
        if i + 1 >= w then Some(WindowMean(rows, j, i + 1 - w, i + 1)) else None))
  }

  /**
   * A document of fewer than 5 rows has only its last row defined, and
   * that row is the column mean of the whole document.
   */
  lemma ShortDocumentAverage(rows: seq<seq<real>>, windowSize: int)
    requires 1 <= |rows| < ShortDocumentRows && IsRectangular(rows)
    ensures var r := Smoothen(rows, windowSize);
      (forall i, j :: 0 <= i < |rows| - 1 && 0 <= j < |rows[0]| ==> r[i][j] == None) &&
      (forall j :: 0 <= j < |rows[0]| ==>
         r[|rows| - 1][j] == Some(ColumnSum(rows, j, 0, |rows|) / |rows| as real))
  {
  }

  /** Bounds on the cells of a column carry over to its sums. */
  lemma {:induction false} ColumnSumBounds(rows: seq<seq<real>>, j: nat, lo: nat, hi: nat, low: real, high: real)
    requires lo <= hi <= |rows|
    requires forall i :: lo <= i < hi ==> j < |rows[i]| && low <= rows[i][j] <= high
    ensures (hi - lo) as real * low <= ColumnSum(rows, j, lo, hi) <= (hi - lo) as real * high
    decreases hi - lo
  {
    if lo < hi {
      ColumnSumBounds(rows, j, lo, hi - 1, low, high);
      assert (hi - lo) as real * low == (hi - 1 - lo) as real * low + low;
      assert (hi - lo) as real * high == (hi - 1 - lo) as real * high + high;
    }
  }

  /** A window mean lies within the bounds of the cells it averages. */
  lemma WindowMeanBounds(rows: seq<seq<real>>, j: nat, lo: nat, hi: nat, low: real, high: real)
    requires lo < hi <= |rows|
    requires forall i :: lo <= i < hi ==> j < |rows[i]| && low <= rows[i][j] <= high
    ensures low <= WindowMean(rows, j, lo, hi) <= high
  {
    ColumnSumBounds(rows, j, lo, hi, low, high);
    var n := (hi - lo) as real;
    var s := ColumnSum(rows, j, lo, hi);
    assert n * low <= s <= n * high;
    assert s / n >= low by { assert s / n * n == s; }
    assert s / n <= high by { assert s / n * n == s; }
  }

  /**
   * Smoothing keeps every defined cell within the bounds of the input: in
   * particular probabilities in [0, 1] stay in [0, 1].
   */
  lemma SmoothingKeepsBounds(rows: seq<seq<real>>, windowSize: int, low: real, high: real)
    requires |rows| >= 1 && IsRectangular(rows)
    requires |rows| < ShortDocumentRows || windowSize >= 1
    requires forall i, j :: 0 <= i < |rows| && 0 <= j < |rows[i]| ==> low <= rows[i][j] <= high
    ensures var r := Smoothen(rows, windowSize);
      forall i, j :: 0 <= i < |r| && 0 <= j < |r[i]| && r[i][j].Some? ==> low <= r[i][j].value <= high
  {
    var r: seq<seq<Option<real>>> := Smoothen(rows, windowSize);
    var w := EffectiveWindow(|rows|, windowSize);
    forall i, j | 0 <= i < |r| && 0 <= j < |r[i]| && r[i][j].Some?
      ensures low <= r[i][j].value <= high
    {
      WindowMeanBounds(rows, j, i + 1 - w, i + 1, low, high);
    }
  }

  /** A column that is constant is left unchanged wherever it is defined. */
  lemma ConstantColumnIsFixed(rows: seq<seq<real>>, windowSize: int, j: nat, v: real)
    requires |rows| >= 1 && IsRectangular(rows) && j < |rows[0]|
    requires |rows| < ShortDocumentRows || windowSize >= 1
    requires forall i :: 0 <= i < |rows| ==> rows[i][j] == v
    ensures var r := Smoothen(rows, windowSize);
      forall i :: 0 <= i < |r| && r[i][j].Some? ==> r[i][j].value == v
  {
    var r: seq<seq<Option<real>>> := Smoothen(rows, windowSize);
    var w := EffectiveWindow(|rows|, windowSize);
    forall i | 0 <= i < |r| && r[i][j].Some? ensures r[i][j].value == v {
      WindowMeanBounds(rows, j, i + 1 - w, i + 1, v, v);
    }
  }

  /** A one-row document is smoothed with window 1: its row comes back unchanged. */
  lemma SingleRowUnchanged(row: seq<real>, windowSize: int)
    ensures Smoothen([row], windowSize) == [seq(|row|, j requires 0 <= j < |row| => Some(row[j]))]
  {
    var r: seq<seq<Option<real>>> := Smoothen([row], windowSize);
    var expected := seq(|row|, j requires 0 <= j < |row| => Some(row[j]));
    forall j | 0 <= j < |row| ensures r[0][j] == expected[j] {
      assert ColumnSum([row], j, 0, 1) == ColumnSum([row], j, 0, 0) + row[j];
    }
    assert r[0] == expected;
    assert r == [expected];
  }

  /** Smoothing keeps a column's defined cells within that column's bounds. */
  lemma ColumnKeepsBounds(rows: seq<seq<real>>, windowSize: int, j: nat, low: real, high: real)
    requires |rows| >= 1 && IsRectangular(rows) && j < |rows[0]|
    requires |rows| < ShortDocumentRows || windowSize >= 1
    requires forall i :: 0 <= i < |rows| ==> low <= rows[i][j] <= high
    ensures var r := Smoothen(rows, windowSize);
      forall i :: 0 <= i < |r| && r[i][j].Some? ==> low <= r[i][j].value <= high
  {
    var r: seq<seq<Option<real>>> := Smoothen(rows, windowSize);
    var w := EffectiveWindow(|rows|, windowSize);
    forall i | 0 <= i < |r| && r[i][j].Some? ensures low <= r[i][j].value <= high {
      WindowMeanBounds(rows, j, i + 1 - w, i + 1, low, high);
    }
  }

  /**
   * Cells become defined row by row: a row is defined in every column or
   * in none, and a window no wider than the document defines the last row.
   */
  lemma DefinedRows(rows: seq<seq<real>>, windowSize: int)
    requires |rows| >= 1 && IsRectangular(rows)
    requires |rows| < ShortDocumentRows || windowSize >= 1
    ensures var r := Smoothen(rows, windowSize);
      forall i, j, k :: 0 <= i < |r| && 0 <= j < |rows[0]| && 0 <= k < |rows[0]| ==>
        (r[i][j].Some? <==> r[i][k].Some?)
    ensures var last := Smoothen(rows, windowSize)[|rows| - 1];
      (|rows| < ShortDocumentRows || windowSize <= |rows|) ==>
        forall j :: 0 <= j < |rows[0]| ==> last[j].Some?
  {
  }

}
