/**
 Per-trim bookkeeping of `TrimReport.__unfold_across_trims`: trim counts found
 by first/last-index search in the sorted spectrum, one spacing evaluation per
 smoothing configuration, and the dense table layout with `3 + 3k` columns.

 The smoother's `fit_all` is foreign: it enters as a function from trimmed
 eigenvalues to one unfolded column per configuration, in the order of the
 configuration names its dry run reports.
 */
module Report {
  import opened Outcomes
  import opened Search
  import opened Sorting
  import opened Spacing

  /** One table row: how much was trimmed, then (mean, variance, score) per configuration. */
  datatype Row = Row(trimPercent: real, trimLow: real, trimHigh: real, stats: seq<Stats>)

  datatype ReportError =
    | EmptyTrim(trim: nat)                       // indexing the first eigenvalue of an empty snapshot
    | EmptySpectrum                              // division by the length of an empty spectrum
    | UndefinedStatistics(trim: nat, config: nat) // fewer than three unfolded values: NaN cells

  const ScoreSuffix: string := "--score"
  const MeanSuffix: string := "--mean_spacing"
  const VarSuffix: string := "--var_spacing"

  /** Points of the original spectrum strictly before the first and strictly after the last retained eigenvalue. */
  function TrimLengths(eigs: seq<real>, trimmed: seq<real>): (r: (int, int))
    requires |trimmed| > 0
    ensures trimmed[0] in eigs ==> 0 <= r.0 < |eigs| && eigs[r.0] == trimmed[0] && trimmed[0] !in eigs[..r.0]
    ensures trimmed[|trimmed| - 1] in eigs ==>
      && 0 <= r.1 < |eigs| && eigs[|eigs| - 1 - r.1] == trimmed[|trimmed| - 1]
      && trimmed[|trimmed| - 1] !in eigs[|eigs| - r.1..]
  {
    (FindFirst(eigs, trimmed[0]), |eigs| - 1 - FindLast(eigs, trimmed[|trimmed| - 1]))
  }

  /**
   For a contiguous slice `eigs[lo..hi]` of a strictly sorted spectrum the
   searches recover the slice bounds, so the two trim lengths and the retained
   length add up to the spectrum's length.
   */
  lemma TrimLengthsOfSlice(eigs: seq<real>, lo: nat, hi: nat)
    requires StrictlySorted(eigs) && lo < hi <= |eigs|
    ensures TrimLengths(eigs, eigs[lo..hi]) == (lo, |eigs| - hi)
    ensures TrimLengths(eigs, eigs[lo..hi]).0 + TrimLengths(eigs, eigs[lo..hi]).1 + (hi - lo) == |eigs|
  {
    var first := FindFirst(eigs, eigs[lo]);
    var last := FindLast(eigs, eigs[hi - 1]);
    assert eigs[lo..hi][0] == eigs[lo] && eigs[lo..hi][hi - lo - 1] == eigs[hi - 1];
    assert first == lo;
    assert last == hi - 1;
  }

  /** Share of the original `n` points removed when `kept` remain, in percent (before rounding). */
  function TrimPercent(kept: nat, n: nat): real
    requires n > 0
  {
    100.0 * (1.0 - (kept as real) / (n as real))
  }

  function Percent(count: int, n: nat): real
    requires n > 0
  {
    100.0 * (count as real) / (n as real)
  }

  /** Evaluates every configuration's unfolded column; the first undefined one is an error. */
  function EvaluateColumns(trim: nat, columns: seq<seq<real>>, expMean: real, expVar: real)
    : (r: Result<seq<Stats>, ReportError>)
    requires expMean > 0.0 && expVar > 0.0
    ensures r.Ok? <==> forall j :: 0 <= j < |columns| ==> |columns[j]| >= 3
    ensures r.Ok? ==> |r.value| == |columns|
    ensures r.Ok? ==> forall j :: 0 <= j < |columns| ==>
      Evaluate(columns[j], expMean, expVar) == Some(r.value[j])
    ensures r.Err? ==>
      exists j :: 0 <= j < |columns| && r.error == UndefinedStatistics(trim, j) && |columns[j]| < 3
  {
    var short := seq(|columns|, j requires 0 <= j < |columns| => |columns[j]| < 3);
    var bad := FindFirst(short, true);
    if bad >= 0 then Err(UndefinedStatistics(trim, bad))
    else
      assert forall j :: 0 <= j < |columns| ==> short[j] == (|columns[j]| < 3) && short[j] != true;
      Ok(seq(|columns|, j requires 0 <= j < |columns| => Evaluate(columns[j], expMean, expVar).value))
  }

  /** The report row of trim `trim`, whose eigenvalues are `trimmed` and whose unfoldings are `columns`. */
  function ReportRow(eigs: seq<real>, trim: nat, trimmed: seq<real>, columns: seq<seq<real>>,
                     expMean: real, expVar: real): (r: Result<Row, ReportError>)
    requires expMean > 0.0 && expVar > 0.0
    ensures r.Ok? <==>
      |trimmed| > 0 && |eigs| > 0 && forall j :: 0 <= j < |columns| ==> |columns[j]| >= 3
    ensures r.Ok? ==> |r.value.stats| == |columns|
    ensures r.Ok? ==> forall j :: 0 <= j < |columns| ==>
      Evaluate(columns[j], expMean, expVar) == Some(r.value.stats[j])
    ensures r.Ok? ==> (r.value.trimPercent, r.value.trimLow, r.value.trimHigh) == TrimColumns(eigs, trimmed)
    ensures r.Err? ==> (r.error == EmptyTrim(trim) <==> |trimmed| == 0)
    ensures r.Err? ==> (r.error == EmptySpectrum <==> |trimmed| > 0 && |eigs| == 0)
  {
    if |trimmed| == 0 then Err(EmptyTrim(trim))
    else if |eigs| == 0 then Err(EmptySpectrum)
    else
      var t := TrimColumns(eigs, trimmed);
      match EvaluateColumns(trim, columns, expMean, expVar)
      case Err(e) => Err(e)
      case Ok(stats) => Ok(Row(t.0, t.1, t.2, stats))
  }

  /** The three trim columns of a row: total, lower and upper trim percentages. */
  function TrimColumns(eigs: seq<real>, trimmed: seq<real>): (real, real, real)
    requires |trimmed| > 0 && |eigs| > 0
  {
    var (lower, upper) := TrimLengths(eigs, trimmed);
    (TrimPercent(|trimmed|, |eigs|), Percent(lower, |eigs|), Percent(upper, |eigs|))
  }

  /** The untrimmed spectrum has all three trim percentages at zero, repeated eigenvalues or not. */
  lemma FullTrimColumns(eigs: seq<real>)
    requires |eigs| > 0
    ensures TrimColumns(eigs, eigs) == (0.0, 0.0, 0.0)
  {
    var n := |eigs| as real;
    assert FindFirst(eigs, eigs[0]) == 0;
    assert FindLast(eigs, eigs[|eigs| - 1]) == |eigs| - 1;
    assert n / n == 1.0;
    assert TrimPercent(|eigs|, |eigs|) == 0.0;
  }

  /**
   For a contiguous slice of a strictly sorted spectrum the lower and upper
   trim percentages are the shares cut before and after the slice and add up
   to the total trim percentage; the untrimmed spectrum has all three at zero.
   */
  lemma SliceTrimColumns(eigs: seq<real>, lo: nat, hi: nat)
    requires StrictlySorted(eigs) && lo < hi <= |eigs|
    ensures var (total, low, high) := TrimColumns(eigs, eigs[lo..hi]);
      && low == Percent(lo, |eigs|)
      && high == Percent(|eigs| - hi, |eigs|)
      && low + high == total
      && (lo == 0 && hi == |eigs| ==> total == 0.0 && low == 0.0 && high == 0.0)
  {
    TrimLengthsOfSlice(eigs, lo, hi);
    PercentsAddUp(lo as real, (|eigs| - hi) as real, (hi - lo) as real, |eigs| as real);
  }

  lemma PercentsAddUp(low: real, high: real, kept: real, n: real)
    requires n > 0.0 && low + high + kept == n
    ensures 100.0 * low / n + 100.0 * high / n == 100.0 * (1.0 - kept / n)
  {
    calc {
      100.0 * low / n + 100.0 * high / n;
      (100.0 * low + 100.0 * high) / n;
      100.0 * (n - kept) / n;
      { assert 100.0 * (n - kept) == 100.0 * n - 100.0 * kept; }
      (100.0 * n - 100.0 * kept) / n;
      100.0 * n / n - 100.0 * kept / n;
      100.0 - 100.0 * kept / n;
      { assert (kept / n) * n == kept; }
      100.0 - 100.0 * (kept / n);
      100.0 * (1.0 - kept / n);
    }
  }

  /** The dense row: trim percent, low, high, then mean, variance and score of each configuration. */
  function Dense(row: Row): (r: seq<real>)
    ensures |r| == 3 + 3 * |row.stats|
    ensures r[0] == row.trimPercent && r[1] == row.trimLow && r[2] == row.trimHigh
    ensures forall j :: 0 <= j < |row.stats| ==>
      && r[3 * j + 3] == row.stats[j].mean
      && r[3 * j + 4] == row.stats[j].variance
      && r[3 * j + 5] == row.stats[j].score
  {
    [row.trimPercent, row.trimLow, row.trimHigh] + Flatten(row.stats)
  }

  function Flatten(stats: seq<Stats>): (r: seq<real>)
    ensures |r| == 3 * |stats|
    ensures forall j :: 0 <= j < |stats| ==>
      r[3 * j] == stats[j].mean && r[3 * j + 1] == stats[j].variance && r[3 * j + 2] == stats[j].score
    decreases |stats|
  {
    if |stats| == 0 then []
    else [stats[0].mean, stats[0].variance, stats[0].score] + Flatten(stats[1..])
  }

  /** Column names of the dense table for the configuration names of the smoother's dry run. */
  function ColumnNames(names: seq<string>): (r: seq<string>)
    ensures |r| == 3 + 3 * |names|
    ensures r[0] == "trim_percent" && r[1] == "trim_low" && r[2] == "trim_high"
    ensures forall j :: 0 <= j < |names| ==>
      && r[3 * j + 3] == names[j] + MeanSuffix
      && r[3 * j + 4] == names[j] + VarSuffix
      && r[3 * j + 5] == names[j] + ScoreSuffix
  {
    ["trim_percent", "trim_low", "trim_high"] + ConfigColumns(names)
  }

  function ConfigColumns(names: seq<string>): (r: seq<string>)
    ensures |r| == 3 * |names|
    ensures forall j :: 0 <= j < |names| ==>
      && r[3 * j] == names[j] + MeanSuffix
      && r[3 * j + 1] == names[j] + VarSuffix
      && r[3 * j + 2] == names[j] + ScoreSuffix
    decreases |names|
  {
    if |names| == 0 then []
    else [names[0] + MeanSuffix, names[0] + VarSuffix, names[0] + ScoreSuffix] + ConfigColumns(names[1..])
  }

  /** Which statistic a configuration column holds. */
  datatype Field = MeanSpacing | VarSpacing | ScoreField

  /** Column index of statistic `f` of configuration `j` in the dense layout. */
  function ColumnOf(j: nat, f: Field): nat
  {
    3 * j + 3 + (match f case MeanSpacing => 0 case VarSpacing => 1 case ScoreField => 2)
  }

  /** The configuration and statistic a column at index 3 or more holds. */
  function FieldOf(c: nat): (nat, Field)
    requires c >= 3
  {
    var q := (c - 3) / 3;
    var m := (c - 3) % 3;
    (q, if m == 0 then MeanSpacing else if m == 1 then VarSpacing else ScoreField)
  }

  /** The layout is a bijection between (configuration, statistic) pairs and columns 3.. of the table. */
  lemma LayoutRoundTrip(j: nat, f: Field, c: nat)
    ensures ColumnOf(j, f) >= 3 && FieldOf(ColumnOf(j, f)) == (j, f)
    ensures c >= 3 ==> ColumnOf(FieldOf(c).0, FieldOf(c).1) == c
  {
  }

  /** Suffix of the column name holding statistic `f`. */
  function SuffixOf(f: Field): string
  {
    match f
    case MeanSpacing => MeanSuffix
    case VarSpacing => VarSuffix
    case ScoreField => ScoreSuffix
  }

  /** Statistic `f` of a configuration's triple. */
  function ValueOf(s: Stats, f: Field): real
  {
    match f
    case MeanSpacing => s.mean
    case VarSpacing => s.variance
    case ScoreField => s.score
  }

  /**
   Column `ColumnOf(j, f)` of the table is named after configuration `j` with
   the suffix of `f`, and holds that configuration's statistic `f`.
   */
  lemma DenseLayout(names: seq<string>, row: Row, j: nat, f: Field)
    requires j < |names| && |row.stats| == |names|
    ensures ColumnOf(j, f) < |ColumnNames(names)| == |Dense(row)|
    ensures ColumnNames(names)[ColumnOf(j, f)] == names[j] + SuffixOf(f)
    ensures Dense(row)[ColumnOf(j, f)] == ValueOf(row.stats[j], f)
  {
    var names' := ColumnNames(names);
    var dense := Dense(row);
    match f
    case MeanSpacing => assert names'[3 * j + 3] == names[j] + MeanSuffix && dense[3 * j + 3] == row.stats[j].mean;
    case VarSpacing => assert names'[3 * j + 4] == names[j] + VarSuffix && dense[3 * j + 4] == row.stats[j].variance;
    case ScoreField => assert names'[3 * j + 5] == names[j] + ScoreSuffix && dense[3 * j + 5] == row.stats[j].score;
  }

  /** Removes a trailing `suffix`, leaving other names unchanged. */
  function StripSuffix(s: string, suffix: string): (r: string)
    ensures r == s || r + suffix == s
  {
    if |suffix| <= |s| && s[|s| - |suffix|..] == suffix then s[..|s| - |suffix|] else s
  }

  /**
   Dropping the score suffix from a score column's name gives back its
   configuration name, and the column holds that configuration's score.
   */
  lemma ScoreColumnNames(names: seq<string>, row: Row, j: nat)
    requires j < |names| && |row.stats| == |names|
    ensures ColumnOf(j, ScoreField) < |ColumnNames(names)| == |Dense(row)|
    ensures StripSuffix(ColumnNames(names)[ColumnOf(j, ScoreField)], ScoreSuffix) == names[j]
    ensures Dense(row)[ColumnOf(j, ScoreField)] == row.stats[j].score
  {
    var c := names[j] + ScoreSuffix;
    assert c[|c| - |ScoreSuffix|..] == ScoreSuffix;
    assert c[..|c| - |ScoreSuffix|] == names[j];
  }

  /** `rows` are the report rows of the first `|rows|` trims, each with `width` configurations. */
  predicate RowsOf(eigs: seq<real>, trims: seq<seq<real>>, fitAll: seq<real> -> seq<seq<real>>,
                   expMean: real, expVar: real, rows: seq<Row>, width: nat)
    requires expMean > 0.0 && expVar > 0.0
  {
    && |rows| <= |trims|
    && forall k :: 0 <= k < |rows| ==>
      && ReportRow(eigs, k, trims[k], fitAll(trims[k]), expMean, expVar) == Ok(rows[k])
      && |rows[k].stats| == width
  }

  lemma RowsOfExtend(eigs: seq<real>, trims: seq<seq<real>>, fitAll: seq<real> -> seq<seq<real>>,
                     expMean: real, expVar: real, rows: seq<Row>, width: nat, row: Row)
    requires expMean > 0.0 && expVar > 0.0
    requires RowsOf(eigs, trims, fitAll, expMean, expVar, rows, width) && |rows| < |trims|
    requires ReportRow(eigs, |rows|, trims[|rows|], fitAll(trims[|rows|]), expMean, expVar) == Ok(row)
    requires |fitAll(trims[|rows|])| == width
    ensures RowsOf(eigs, trims, fitAll, expMean, expVar, rows + [row], width)
  {
    var r' := rows + [row];
    assert forall k :: 0 <= k < |rows| ==> r'[k] == rows[k];
    assert r'[|rows|] == row;
  }

  /**
   Builds the report, one row per snapshot in order; `fitAll` gives the unfolded
   column of each configuration for a snapshot's eigenvalues. Also returns the
   unfoldings of the last snapshot, the only ones the source retains.
   */
  method BuildReport(eigs: seq<real>, trims: seq<seq<real>>, names: seq<string>,
                     fitAll: seq<real> -> seq<seq<real>>, expMean: real, expVar: real)
    returns (r: Result<seq<Row>, ReportError>, lastUnfolds: seq<seq<real>>)
    requires expMean > 0.0 && expVar > 0.0
    requires forall t :: |fitAll(t)| == |names|
    ensures r.Ok? ==> |r.value| == |trims|
    ensures r.Ok? ==> forall i :: 0 <= i < |trims| ==>
      && ReportRow(eigs, i, trims[i], fitAll(trims[i]), expMean, expVar) == Ok(r.value[i])
      && |r.value[i].stats| == |names|
    ensures r.Err? ==>
      exists i :: 0 <= i < |trims| && ReportRow(eigs, i, trims[i], fitAll(trims[i]), expMean, expVar) == Err(r.error)
    ensures r.Ok? && |trims| > 0 ==> lastUnfolds == fitAll(trims[|trims| - 1])
  {
    var rows: seq<Row> := [];
    lastUnfolds := [];
    var i := 0;
    while i < |trims|
      invariant 0 <= i <= |trims| && |rows| == i
      invariant RowsOf(eigs, trims, fitAll, expMean, expVar, rows, |names|)
      invariant i > 0 ==> lastUnfolds == fitAll(trims[i - 1])
    {
      lastUnfolds := fitAll(trims[i]);
      var row := ReportRow(eigs, i, trims[i], lastUnfolds, expMean, expVar);
      if row.Err? {
        assert ReportRow(eigs, i, trims[i], fitAll(trims[i]), expMean, expVar) == Err(row.error);
        return Err(row.error), lastUnfolds;
      }
      RowsOfExtend(eigs, trims, fitAll, expMean, expVar, rows, |names|, row.value);
      rows := rows + [row.value];
      i := i + 1;
    }
    return Ok(rows), lastUnfolds;
  }
}
