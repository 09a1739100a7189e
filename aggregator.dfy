/**
 * `aggregated_sdg_score`: the smoothed score table of one document to
 * per-goal scores, the index of the top goal and the number of valid
 * chunks. A cell that smoothing left undefined (NaN) is `None`; pandas
 * skips NaN in its sums and row maxima, and so does this model.
 */
module Aggregator {
  import opened Wrappers
  import opened Goals

  const DefaultConfidence: real := 0.5

  /** A table of smoothed scores: one row per chunk, one cell per goal. */
  type Table = seq<seq<Option<real>>>

  predicate IsScoreTable(m: Table) {
    forall i :: 0 <= i < |m| ==> |m[i]| == NumGoals
  }

  /**
   * The two masks written into the copied frame: cells below the
   * confidence become 0, then cells at or above it become 1. With a
   * positive confidence the threshold is inclusive; with a confidence of
   * 0 or less the second mask also turns the zeros into ones.
   */
  function Binarize(v: real, confidence: real): (b: real)
    ensures b == 0.0 || b == 1.0
    ensures confidence > 0.0 ==> (b == 1.0 <==> v >= confidence)
    ensures confidence <= 0.0 ==> b == 1.0
  {
    var afterFirstMask := if v < confidence then 0.0 else v;
    if afterFirstMask >= confidence then 1.0 else afterFirstMask
  }

  /** A defined cell whose binarised value is 1. */
  predicate Hit(cell: Option<real>, confidence: real) {
    cell.Some? && Binarize(cell.value, confidence) == 1.0
  }

  /** A row with at least one goal set: its maximum is 1. */
  predicate IsValidRow(row: seq<Option<real>>, confidence: real) {
    exists g :: 0 <= g < |row| && Hit(row[g], confidence)
  }

  /** A row with at least one defined cell: its maximum is not NaN. */
  predicate IsDefinedRow(row: seq<Option<real>>) {
    exists g :: 0 <= g < |row| && row[g].Some?
  }

  /** `sdg_count[g]`: the column sum of the binarised table. */
  function GoalCount(m: Table, g: nat, confidence: real): nat
    requires IsScoreTable(m) && g < NumGoals
    decreases |m|
  {
    if m == [] then 0
    else GoalCount(m[..|m| - 1], g, confidence) + (if Hit(m[|m| - 1][g], confidence) then 1 else 0)
  }

  /** `num_valid_chunks`: the sum of the row maxima of the binarised table. */
  function ValidCount(m: Table, confidence: real): nat
    decreases |m|
  {
    if m == [] then 0
    else ValidCount(m[..|m| - 1], confidence) + (if IsValidRow(m[|m| - 1], confidence) then 1 else 0)
  }

  /** Number of rows that are not entirely undefined. */
  function DefinedCount(m: Table): nat
    decreases |m|
  {
    if m == [] then 0
    else DefinedCount(m[..|m| - 1]) + (if IsDefinedRow(m[|m| - 1]) then 1 else 0)
  }

  /** `np.argmax`: the first index holding the maximum. */
  function FirstArgMax(s: seq<real>): (k: nat)
    requires |s| > 0
    ensures k < |s|
    ensures forall j :: 0 <= j < |s| ==> s[j] <= s[k]
    ensures forall j :: 0 <= j < k ==> s[j] < s[k]
    decreases |s|
  {
    if |s| == 1 then 0
    else
      var k := FirstArgMax(s[..|s| - 1]);
      if s[|s| - 1] > s[k] then |s| - 1 else k
  }

  datatype Aggregate = Aggregate(scores: seq<Option<real>>, topIndex: nat, numValidChunks: nat)

  /**
   * The document's scores, top goal and valid-chunk count. Scores are
   * `count / num_valid_chunks`; when there is no valid chunk that is 0/0,
   * undefined in every goal, and the top index is the sentinel 17. Then
   * `max(scores) > 0` fails and the sentinel is chosen too; otherwise
   * the top index is the first goal with the highest score.
   */
  function AggregatedScore(m: Table, confidence: real): (r: Aggregate)
    requires IsScoreTable(m)
    ensures |r.scores| == NumGoals && r.numValidChunks == ValidCount(m, confidence)
    ensures r.numValidChunks == 0 <==> r.topIndex == UnknownIndex
    ensures r.numValidChunks == 0 ==> forall g :: 0 <= g < NumGoals ==> r.scores[g] == None
    ensures r.numValidChunks > 0 ==> forall g :: 0 <= g < NumGoals ==>
      r.scores[g] == Some(GoalCount(m, g, confidence) as real / r.numValidChunks as real)
    ensures r.numValidChunks > 0 ==> (r.topIndex < NumGoals &&
      (forall g :: 0 <= g < NumGoals ==> r.scores[g].value <= r.scores[r.topIndex].value) &&
      (forall g :: 0 <= g < r.topIndex ==> r.scores[g].value < r.scores[r.topIndex].value))
  {
    var numValid := ValidCount(m, confidence);
    if numValid == 0 then
      Aggregate(seq(NumGoals, _ => None), UnknownIndex, 0)
    else
      var scores := Fractions(m, confidence, numValid);
      var best := FirstArgMax(scores);
      BestScoreIsPositive(m, confidence);
      var top := if scores[best] > 0.0 then best else UnknownIndex;
      Aggregate(Defined(scores), top, numValid)
  }

  /** `sdg_count / num_valid_chunks` for a positive divisor. */
  function Fractions(m: Table, confidence: real, numValid: nat): (s: seq<real>)
    requires IsScoreTable(m) && numValid > 0
    ensures |s| == NumGoals
  {
    seq(NumGoals, g requires 0 <= g < NumGoals => GoalCount(m, g, confidence) as real / numValid as real)
  }

  function Defined(s: seq<real>): (r: seq<Option<real>>)
    ensures |r| == |s| && forall g :: 0 <= g < |s| ==> r[g] == Some(s[g])
  {
    seq(|s|, g requires 0 <= g < |s| => Some(s[g]))
  }

  lemma PositiveFraction(c: real, n: real)
    requires 0.0 < c && n > 0.0
    ensures c / n > 0.0
  {
    assert c / n * n == c;
  }

  lemma FractionAtMostOne(c: real, n: real)
    requires 0.0 <= c <= n && n > 0.0
    ensures c / n <= 1.0
  {
    var q := c / n;
    assert q * n == c;
  }

  /** With a valid row the highest score is positive, so `max(scores) > 0` holds. */
  lemma BestScoreIsPositive(m: Table, confidence: real)
    requires IsScoreTable(m) && ValidCount(m, confidence) > 0
    ensures var s := Fractions(m, confidence, ValidCount(m, confidence)); s[FirstArgMax(s)] > 0.0
  {
    var s := Fractions(m, confidence, ValidCount(m, confidence));
    ValidTableHasHit(m, confidence);
    var g :| 0 <= g < NumGoals && GoalCount(m, g, confidence) > 0;
    PositiveFraction(GoalCount(m, g, confidence) as real, ValidCount(m, confidence) as real);
    assert s[g] > 0.0;
  }

  /** A table with a valid row has a goal with a positive count. */
  lemma {:induction false} ValidTableHasHit(m: Table, confidence: real)
    requires IsScoreTable(m) && ValidCount(m, confidence) > 0
    ensures exists g :: 0 <= g < NumGoals && GoalCount(m, g, confidence) > 0
    decreases |m|
  {
    var init := m[..|m| - 1];
    var last := m[|m| - 1];
    if ValidCount(init, confidence) > 0 {
      ValidTableHasHit(init, confidence);
      var g :| 0 <= g < NumGoals && GoalCount(init, g, confidence) > 0;
      assert GoalCount(m, g, confidence) >= GoalCount(init, g, confidence);
    } else {
      assert IsValidRow(last, confidence);
      var g :| 0 <= g < |last| && Hit(last[g], confidence);
      assert GoalCount(m, g, confidence) > 0;
    }
  }

  /**
   * For every goal, count <= num_valid_chunks <= number of defined rows:
   * a row that sets a goal is valid, and a valid row is defined.
   */
  lemma {:induction false} CountsWithinValid(m: Table, confidence: real)
    requires IsScoreTable(m)
    ensures forall g :: 0 <= g < NumGoals ==> GoalCount(m, g, confidence) <= ValidCount(m, confidence)
    ensures ValidCount(m, confidence) <= DefinedCount(m) <= |m|
    decreases |m|
  {
    if m != [] {
      var init := m[..|m| - 1];
      var last := m[|m| - 1];
      CountsWithinValid(init, confidence);
      forall g | 0 <= g < NumGoals && Hit(last[g], confidence)
        ensures IsValidRow(last, confidence)
      {
      }
      if IsValidRow(last, confidence) {
        var g :| 0 <= g < |last| && Hit(last[g], confidence);
        assert IsDefinedRow(last);
      }
    }
  }

  /** `sum(sdg_count[0 .. n-1])`. */
  function CountSum(m: Table, n: nat, confidence: real): nat
    requires IsScoreTable(m) && n <= NumGoals
  {
    if n == 0 then 0 else CountSum(m, n - 1, confidence) + GoalCount(m, n - 1, confidence)
  }

  /** Number of goals among the first `n` that row `row` sets. */
  function RowHits(row: seq<Option<real>>, n: nat, confidence: real): nat
    requires n <= |row|
  {
    if n == 0 then 0 else RowHits(row, n - 1, confidence) + (if Hit(row[n - 1], confidence) then 1 else 0)
  }

  lemma {:induction false} CountSumSnoc(m: Table, n: nat, confidence: real)
    requires IsScoreTable(m) && m != [] && n <= NumGoals
    ensures CountSum(m, n, confidence) == CountSum(m[..|m| - 1], n, confidence) + RowHits(m[|m| - 1], n, confidence)
  {
    if n > 0 {
      CountSumSnoc(m, n - 1, confidence);
    }
  }

  lemma {:induction false} ValidRowHits(row: seq<Option<real>>, n: nat, confidence: real, g: nat)
    requires g < n <= |row| && Hit(row[g], confidence)
    ensures RowHits(row, n, confidence) >= 1
  {
    if g < n - 1 {
      ValidRowHits(row, n - 1, confidence, g);
    }
  }

  /**
   * The goal counts add up to at least the number of valid rows: every
   * valid row sets at least one goal, possibly several.
   */
  lemma {:induction false} CountsCoverValid(m: Table, confidence: real)
    requires IsScoreTable(m)
    ensures CountSum(m, NumGoals, confidence) >= ValidCount(m, confidence)
    decreases |m|
  {
    if m == [] {
      assert CountSum(m, NumGoals, confidence) >= 0;
    } else {
      var init := m[..|m| - 1];
      var last := m[|m| - 1];
      CountsCoverValid(init, confidence);
      CountSumSnoc(m, NumGoals, confidence);
      if IsValidRow(last, confidence) {
        var g :| 0 <= g < |last| && Hit(last[g], confidence);
        ValidRowHits(last, NumGoals, confidence, g);
      }
    }
  }

  /** With at least one valid chunk every score is a fraction in [0, 1]. */
  lemma ScoresAreFractions(m: Table, confidence: real)
    requires IsScoreTable(m)
    ensures var r := AggregatedScore(m, confidence);
      r.numValidChunks > 0 ==>
        forall g :: 0 <= g < NumGoals ==> r.scores[g].Some? && 0.0 <= r.scores[g].value <= 1.0
  {
    var r := AggregatedScore(m, confidence);
    if r.numValidChunks > 0 {
      CountsWithinValid(m, confidence);
      forall g | 0 <= g < NumGoals ensures 0.0 <= r.scores[g].value <= 1.0 {
        var c := GoalCount(m, g, confidence) as real;
        var n := r.numValidChunks as real;
        assert c <= n;
        FractionAtMostOne(c, n);
      }
    }
  }

  /** A row that smoothing left wholly undefined. */
  predicate IsUndefinedRow(row: seq<Option<real>>) {
    |row| == NumGoals && forall g :: 0 <= g < NumGoals ==> row[g] == None
  }

  /** An undefined row, wherever it stands, adds to no count. */
  lemma {:induction false} UndefinedRowCounts(a: Table, row: seq<Option<real>>, b: Table, confidence: real)
    requires IsScoreTable(a + b) && IsUndefinedRow(row)
    ensures IsScoreTable(a + [row] + b)
    ensures ValidCount(a + [row] + b, confidence) == ValidCount(a + b, confidence)
    ensures DefinedCount(a + [row] + b) == DefinedCount(a + b)
    ensures forall g :: 0 <= g < NumGoals ==>
      GoalCount(a + [row] + b, g, confidence) == GoalCount(a + b, g, confidence)
    decreases |b|
  {
    var m := a + [row] + b;
    assert forall i :: 0 <= i < |m| ==> m[i] == row || m[i] in a + b;
    if b == [] {
      assert m == a + [row] && m[..|m| - 1] == a && a + b == a;
      assert !IsValidRow(row, confidence) && !IsDefinedRow(row);
      forall g | 0 <= g < NumGoals ensures GoalCount(m, g, confidence) == GoalCount(a, g, confidence) {
        assert !Hit(row[g], confidence);
      }
    } else {
      var init := b[..|b| - 1];
      var last := b[|b| - 1];
      assert (a + b)[..|a + b| - 1] == a + init;
      assert m[..|m| - 1] == a + [row] + init;
      assert m[|m| - 1] == last == (a + b)[|a + b| - 1];
      UndefinedRowCounts(a, row, init, confidence);
    }
  }

  /** Tables with the same counts have the same aggregate. */
  lemma SameCountsSameAggregate(m: Table, m': Table, confidence: real)
    requires IsScoreTable(m) && IsScoreTable(m')
    requires ValidCount(m, confidence) == ValidCount(m', confidence)
    requires forall g :: 0 <= g < NumGoals ==> GoalCount(m, g, confidence) == GoalCount(m', g, confidence)
    ensures AggregatedScore(m, confidence) == AggregatedScore(m', confidence)
  {
    var n := ValidCount(m, confidence);
    if n > 0 {
      assert Fractions(m, confidence, n) == Fractions(m', confidence, n);
    }
  }

  /** Inserting a wholly undefined row anywhere changes no count, score or top index. */
  lemma UndefinedRowIgnored(a: Table, row: seq<Option<real>>, b: Table, confidence: real)
    requires IsScoreTable(a + b) && IsUndefinedRow(row)
    ensures IsScoreTable(a + [row] + b)
    ensures AggregatedScore(a + [row] + b, confidence) == AggregatedScore(a + b, confidence)
  {
    UndefinedRowCounts(a, row, b, confidence);
    SameCountsSameAggregate(a + [row] + b, a + b, confidence);
  }

  /** Undefined rows at the head of a table do not change its aggregate. */
  lemma UndefinedPrefixIgnored(r: Table, k: nat, confidence: real)
    requires IsScoreTable(r) && k <= |r|
    requires forall i :: 0 <= i < k ==> IsUndefinedRow(r[i])
    ensures AggregatedScore(r, confidence) == AggregatedScore(r[k..], confidence)
  {
    var u := r[..k];
    assert forall i :: 0 <= i < |u| ==> u[i] == r[i];
    assert IsScoreTable(r[k..]) by {
      assert forall i :: 0 <= i < |r| - k ==> r[k..][i] == r[k + i];
    }
    LeadingUndefinedRowsIgnored(u, r[k..], confidence);
    assert u + r[k..] == r;
  }

  /**
   * The undefined rows smoothing leaves at the head of a table do not
   * change its aggregate: it is the aggregate of the rows after them.
   */
  lemma {:induction false} LeadingUndefinedRowsIgnored(u: Table, m: Table, confidence: real)
    requires IsScoreTable(m) && forall i :: 0 <= i < |u| ==> IsUndefinedRow(u[i])
    ensures IsScoreTable(u + m)
    ensures AggregatedScore(u + m, confidence) == AggregatedScore(m, confidence)
    decreases |u|
  {
    if u != [] {
      var rest := u[1..];
      LeadingUndefinedRowsIgnored(rest, m, confidence);
      assert [] + (rest + m) == rest + m;
      assert [] + [u[0]] + (rest + m) == u + m by {
        assert u == [u[0]] + rest;
      }
      UndefinedRowIgnored([], u[0], rest + m, confidence);
    } else {
      assert u + m == m;
    }
  }

  /** With a confidence of 0 or less every defined row is valid. */
  lemma {:induction false} NonPositiveConfidenceSetsAll(m: Table, confidence: real)
    requires IsScoreTable(m) && confidence <= 0.0
    ensures ValidCount(m, confidence) == DefinedCount(m)
    decreases |m|
  {
    if m != [] {
      var last := m[|m| - 1];
      NonPositiveConfidenceSetsAll(m[..|m| - 1], confidence);
      if IsDefinedRow(last) {
        var g :| 0 <= g < |last| && last[g].Some?;
        assert Hit(last[g], confidence);
      }
    }
  }

  /** A goal set in every defined row is counted in every valid row, and every defined row is valid. */
  lemma {:induction false} GoalInEveryDefinedRow(m: Table, g: nat, confidence: real)
    requires IsScoreTable(m) && g < NumGoals
    requires forall i :: 0 <= i < |m| && IsDefinedRow(m[i]) ==> Hit(m[i][g], confidence)
    ensures GoalCount(m, g, confidence) == ValidCount(m, confidence) == DefinedCount(m)
    decreases |m|
  {
    if m != [] {
      var init := m[..|m| - 1];
      var last := m[|m| - 1];
      assert forall i :: 0 <= i < |init| ==> init[i] == m[i];
      GoalInEveryDefinedRow(init, g, confidence);
      if IsDefinedRow(last) {
        assert Hit(last[g], confidence);
      } else {
        assert !Hit(last[g], confidence);
      }
      if IsValidRow(last, confidence) {
        var h :| 0 <= h < |last| && Hit(last[h], confidence);
        assert IsDefinedRow(last);
      }
    }
  }

  lemma {:induction false} DefinedRowCounted(m: Table, i: int)
    requires 0 <= i < |m| && IsDefinedRow(m[i])
    ensures DefinedCount(m) >= 1
    decreases |m|
  {
    if i < |m| - 1 {
      assert m[..|m| - 1][i] == m[i];
      DefinedRowCounted(m[..|m| - 1], i);
    }
  }

  lemma WholeFraction(n: real)
    requires n > 0.0
    ensures n / n == 1.0
  {
  }

  /**
   * A goal set in every defined row of a table with a defined row scores
   * 1, and no later goal can be the document's top goal.
   */
  lemma DominantGoal(m: Table, g: nat, confidence: real, i: int)
    requires IsScoreTable(m) && g < NumGoals && 0 <= i < |m| && IsDefinedRow(m[i])
    requires forall i :: 0 <= i < |m| && IsDefinedRow(m[i]) ==> Hit(m[i][g], confidence)
    ensures var r := AggregatedScore(m, confidence);
      r.numValidChunks >= 1 && r.scores[g] == Some(1.0) && r.topIndex <= g
  {
    GoalInEveryDefinedRow(m, g, confidence);
    DefinedRowCounted(m, i);
    var r := AggregatedScore(m, confidence);
    var n := r.numValidChunks as real;
    assert r.scores[g] == Some(n / n);
    WholeFraction(n);
    ScoresAreFractions(m, confidence);
    assert r.scores[r.topIndex].value <= 1.0;
  }
}
