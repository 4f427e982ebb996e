/**
 The `TrimReport` object as a value: construction sorts the spectrum, runs
 the trim loop and builds the report; recomputing with another smoother grid
 rebuilds the report over the same snapshots; the summary ranks the
 configurations of the current report.

 The smoother grid (polynomial degrees, spline smoothing factors and degrees,
 the Gompertz switch) enters as the configuration names of its dry run and
 the function `fitAll` giving one unfolded column per configuration.
 */
module Session {
  import opened Outcomes
  import opened Sorting
  import opened Search
  import opened Spacing
  import opened EdgeCorrection
  import opened TrimIters
  import opened Report
  import opened Selection

  /** The state of a trim report after construction or recomputation. */
  datatype TrimReport = TrimReport(
    untrimmed: seq<real>,
    trimSteps: seq<Snapshot>,
    unfoldInfo: seq<Row>,
    names: seq<string>,
    allUnfolds: seq<seq<real>>)

  /** Shape of a report: one row per snapshot, one triple per configuration in each row, one retained unfolding per configuration. */
  predicate WellFormed(t: TrimReport)
  {
    && |t.unfoldInfo| > 0
    && |t.unfoldInfo| == |t.trimSteps|
    && Rectangular(t.unfoldInfo, |t.names|)
    && |t.allUnfolds| == |t.names|
  }

  /** The last snapshot, whose unfoldings the report retains. */
  function Last(snaps: seq<Snapshot>): Snapshot
    requires |snaps| > 0
  {
    snaps[|snaps| - 1]
  }

  /** The report rows of the snapshots `trims` with smoother grid `names`/`fitAll`. */
  ghost predicate ReportOf(untrimmed: seq<real>, trims: seq<Snapshot>, rows: seq<Row>,
                           fitAll: seq<real> -> seq<seq<real>>, expMean: real, expVar: real)
    requires expMean > 0.0 && expVar > 0.0
  {
    && |rows| == |trims|
    && forall i :: 0 <= i < |trims| ==>
      ReportRow(untrimmed, i, trims[i].eigs, fitAll(trims[i].eigs), expMean, expVar) == Ok(rows[i])
  }

  /** Evaluates the smoother grid over the given snapshots. */
  method UnfoldAcrossTrims(untrimmed: seq<real>, trimSteps: seq<Snapshot>, names: seq<string>,
                           fitAll: seq<real> -> seq<seq<real>>, expMean: real, expVar: real)
    returns (r: Result<TrimReport, ReportError>)
    requires |trimSteps| > 0
    requires expMean > 0.0 && expVar > 0.0
    requires forall t :: |fitAll(t)| == |names|
    ensures r.Ok? ==> r.value.untrimmed == untrimmed && r.value.trimSteps == trimSteps
    ensures r.Ok? ==> r.value.names == names && WellFormed(r.value)
    ensures r.Ok? ==> ReportOf(untrimmed, trimSteps, r.value.unfoldInfo, fitAll, expMean, expVar)
    ensures r.Ok? ==> r.value.allUnfolds == fitAll(Last(r.value.trimSteps).eigs)
    ensures r.Err? ==> exists i :: 0 <= i < |trimSteps| && ReportRow(untrimmed, i, trimSteps[i].eigs, fitAll(trimSteps[i].eigs), expMean, expVar) == Err(r.error)
  {
    var trims := seq(|trimSteps|, i requires 0 <= i < |trimSteps| => trimSteps[i].eigs);
    var rows, lastUnfolds := BuildReport(untrimmed, trims, names, fitAll, expMean, expVar);
    match rows
    case Err(e) =>
      r := Err(e);
    case Ok(rs) =>
      assert trims[|trims| - 1] == Last(trimSteps).eigs;
      RowsOfSnapshots(untrimmed, trimSteps, trims, rs, names, fitAll, expMean, expVar);
      r := Ok(TrimReport(untrimmed, trimSteps, rs, names, lastUnfolds));
  }

  /** Rows built from the snapshots' eigenvalue columns are the report rows of the snapshots. */
  lemma RowsOfSnapshots(untrimmed: seq<real>, trimSteps: seq<Snapshot>, trims: seq<seq<real>>, rows: seq<Row>,
                        names: seq<string>, fitAll: seq<real> -> seq<seq<real>>, expMean: real, expVar: real)
    requires expMean > 0.0 && expVar > 0.0
    requires |trims| == |trimSteps| && forall i :: 0 <= i < |trims| ==> trims[i] == trimSteps[i].eigs
    requires |rows| == |trims|
    requires forall i :: 0 <= i < |trims| ==>
      && ReportRow(untrimmed, i, trims[i], fitAll(trims[i]), expMean, expVar) == Ok(rows[i])
      && |rows[i].stats| == |names|
    ensures ReportOf(untrimmed, trimSteps, rows, fitAll, expMean, expVar)
    ensures Rectangular(rows, |names|)
  {
  }

  /** Runs the trim loop on a sorted, non-empty spectrum and evaluates the smoother grid over every snapshot. */
  method TrimAndUnfold(untrimmed: seq<real>, o: Oracles, names: seq<string>,
                       fitAll: seq<real> -> seq<seq<real>>, expMean: real, expVar: real,
                       maxTrim: real, maxIters: int, tolerance: real)
    returns (r: Result<TrimReport, ReportError>)
    requires |untrimmed| > 0 && ValidOracles(o)
    requires expMean > 0.0 && expVar > 0.0
    requires forall t :: |fitAll(t)| == |names|
    ensures r.Err? ==> r.error != EmptySpectrum
    ensures r.Ok? ==> r.value.untrimmed == untrimmed && r.value.names == names && WellFormed(r.value)
    ensures r.Ok? ==> TrimRun(r.value.trimSteps, untrimmed, o, tolerance, maxTrim, maxIters)
    ensures r.Ok? ==> ReportOf(untrimmed, r.value.trimSteps, r.value.unfoldInfo, fitAll, expMean, expVar)
    ensures r.Ok? ==> r.value.allUnfolds == fitAll(Last(r.value.trimSteps).eigs)
  {
    var snaps := GetTrimIters(untrimmed, o, tolerance, maxTrim, maxIters);
    assert TrimRun(snaps, untrimmed, o, tolerance, maxTrim, maxIters);
    r := UnfoldAcrossTrims(untrimmed, snaps, names, fitAll, expMean, expVar);
    if r.Err? {
      ghost var i :| 0 <= i < |snaps| &&
        ReportRow(untrimmed, i, snaps[i].eigs, fitAll(snaps[i].eigs), expMean, expVar) == Err(r.error);
    }
  }

  /**
   Constructs a trim report: sorts the eigenvalues, runs the trim loop with the
   given detector tolerance, trim fraction and iteration cap, then evaluates
   the smoother grid over every snapshot. The constructor's defaults are
   `DefaultTolerance`, `DefaultMaxTrim` and `DefaultMaxIters`.
   */
  method NewTrimReport(eigenvalues: seq<real>, o: Oracles, names: seq<string>,
                       fitAll: seq<real> -> seq<seq<real>>, expMean: real, expVar: real,
                       maxTrim: real, maxIters: int, tolerance: real)
    returns (r: Result<TrimReport, ReportError>)
    requires ValidOracles(o)
    requires expMean > 0.0 && expVar > 0.0
    requires forall t :: |fitAll(t)| == |names|
    ensures |eigenvalues| == 0 <==> r == Err(EmptySpectrum)
    ensures r.Ok? ==> Sorted(r.value.untrimmed) && multiset(r.value.untrimmed) == multiset(eigenvalues)
    ensures r.Ok? ==> r.value.names == names && WellFormed(r.value)
    ensures r.Ok? ==> |r.value.untrimmed| > 0 && TrimRun(r.value.trimSteps, r.value.untrimmed, o, tolerance, maxTrim, maxIters)
    ensures r.Ok? ==> ReportOf(r.value.untrimmed, r.value.trimSteps, r.value.unfoldInfo, fitAll, expMean, expVar)
    ensures r.Ok? ==> r.value.allUnfolds == fitAll(Last(r.value.trimSteps).eigs)
  {
    if |eigenvalues| == 0 {
      return Err(EmptySpectrum);
    }
    var untrimmed := Sort(eigenvalues);
    r := TrimAndUnfold(untrimmed, o, names, fitAll, expMean, expVar, maxTrim, maxIters, tolerance);
    if r.Ok? {
      var t := r.value;
      assert t.untrimmed == untrimmed;
      assert Sorted(t.untrimmed) && multiset(t.untrimmed) == multiset(eigenvalues);
    }
  }

  /** Re-evaluates an existing report's snapshots under another smoother grid. */
  method CompareTrimUnfolds(t: TrimReport, names: seq<string>, fitAll: seq<real> -> seq<seq<real>>,
                            expMean: real, expVar: real)
    returns (r: Result<TrimReport, ReportError>)
    requires WellFormed(t)
    requires expMean > 0.0 && expVar > 0.0
    requires forall e :: |fitAll(e)| == |names|
    ensures r.Ok? ==> r.value.untrimmed == t.untrimmed && r.value.trimSteps == t.trimSteps
    ensures r.Ok? ==> r.value.names == names && WellFormed(r.value)
    ensures r.Ok? ==> ReportOf(t.untrimmed, t.trimSteps, r.value.unfoldInfo, fitAll, expMean, expVar)
    ensures r.Ok? ==> r.value.allUnfolds == fitAll(Last(t.trimSteps).eigs)
  {
    r := UnfoldAcrossTrims(t.untrimmed, t.trimSteps, names, fitAll, expMean, expVar);
    if r.Ok? {
      assert r.value.trimSteps == t.trimSteps;
    }
  }

  /**
   The first row is the untrimmed spectrum: all three trim percentages are
   zero, whether or not eigenvalues repeat.
   */
  lemma FirstRowUntrimmed(untrimmed: seq<real>, trims: seq<Snapshot>, rows: seq<Row>,
                          fitAll: seq<real> -> seq<seq<real>>, expMean: real, expVar: real)
    requires expMean > 0.0 && expVar > 0.0
    requires |trims| > 0 && trims[0].eigs == untrimmed
    requires ReportOf(untrimmed, trims, rows, fitAll, expMean, expVar)
    ensures rows[0].trimPercent == 0.0 && rows[0].trimLow == 0.0 && rows[0].trimHigh == 0.0
  {
    var row := ReportRow(untrimmed, 0, trims[0].eigs, fitAll(trims[0].eigs), expMean, expVar);
    assert row == Ok(rows[0]);
    FullTrimColumns(untrimmed);
  }

  /**
   For a spectrum without repeated eigenvalues every row's lower and upper trim
   percentages add up to its total trim percentage.
   */
  lemma TrimPercentsAddUp(untrimmed: seq<real>, steps: seq<real>, trims: seq<Snapshot>, rows: seq<Row>,
                          fitAll: seq<real> -> seq<seq<real>>, expMean: real, expVar: real)
    requires expMean > 0.0 && expVar > 0.0
    requires StrictlySorted(untrimmed)
    requires forall i :: 0 <= i < |trims| ==> IsSliceOf(trims[i], untrimmed, steps)
    requires ReportOf(untrimmed, trims, rows, fitAll, expMean, expVar)
    ensures forall i :: 0 <= i < |rows| ==> rows[i].trimLow + rows[i].trimHigh == rows[i].trimPercent
  {
    forall i | 0 <= i < |rows|
      ensures rows[i].trimLow + rows[i].trimHigh == rows[i].trimPercent
    {
      RowPercentsAddUp(untrimmed, steps, i, trims[i], rows[i], fitAll(trims[i].eigs), expMean, expVar);
    }
  }

  lemma RowPercentsAddUp(untrimmed: seq<real>, steps: seq<real>, i: nat, trim: Snapshot, row: Row,
                         columns: seq<seq<real>>, expMean: real, expVar: real)
    requires expMean > 0.0 && expVar > 0.0
    requires StrictlySorted(untrimmed) && IsSliceOf(trim, untrimmed, steps)
    requires ReportRow(untrimmed, i, trim.eigs, columns, expMean, expVar) == Ok(row)
    ensures row.trimLow + row.trimHigh == row.trimPercent
  {
    var w: Window :| SliceAt(trim, untrimmed, steps, w);
    SliceTrimColumns(untrimmed, w.lo, w.hi);
  }

  /**
   The `unfold_info` table: a header and one dense row per snapshot, the trim
   percentages first, then the mean spacing, spacing variance and score of
   each configuration under that configuration's name.
   */
  function UnfoldInfo(t: TrimReport): (table: (seq<string>, seq<seq<real>>))
    requires WellFormed(t)
    ensures |table.0| == 3 + 3 * |t.names|
    ensures table.0[..3] == ["trim_percent", "trim_low", "trim_high"]
    ensures |table.1| == |t.trimSteps|
    ensures forall i :: 0 <= i < |table.1| ==>
      && |table.1[i]| == |table.0|
      && table.1[i][..3] == [t.unfoldInfo[i].trimPercent, t.unfoldInfo[i].trimLow, t.unfoldInfo[i].trimHigh]
    ensures forall j: nat, f: Field :: j < |t.names| ==>
      table.0[ColumnOf(j, f)] == t.names[j] + SuffixOf(f)
    ensures forall i: int, j: nat, f: Field :: 0 <= i < |table.1| && j < |t.names| ==>
      table.1[i][ColumnOf(j, f)] == ValueOf(t.unfoldInfo[i].stats[j], f)
  {
    var header := ColumnNames(t.names);
    var body := seq(|t.unfoldInfo|, i requires 0 <= i < |t.unfoldInfo| => Dense(t.unfoldInfo[i]));
    TableLayout(t.names, t.unfoldInfo, header, body);
    (header, body)
  }

  lemma TableLayout(names: seq<string>, rows: seq<Row>, header: seq<string>, body: seq<seq<real>>)
    requires |rows| > 0 && Rectangular(rows, |names|) && header == ColumnNames(names)
    requires |body| == |rows| && forall i :: 0 <= i < |rows| ==> body[i] == Dense(rows[i])
    ensures header[..3] == ["trim_percent", "trim_low", "trim_high"]
    ensures forall i :: 0 <= i < |body| ==>
      && |body[i]| == |header|
      && body[i][..3] == [rows[i].trimPercent, rows[i].trimLow, rows[i].trimHigh]
    ensures forall j: nat, f: Field :: j < |names| ==> header[ColumnOf(j, f)] == names[j] + SuffixOf(f)
    ensures forall i: int, j: nat, f: Field :: 0 <= i < |body| && j < |names| ==>
      body[i][ColumnOf(j, f)] == ValueOf(rows[i].stats[j], f)
  {
    forall j: nat, f: Field | j < |names|
      ensures header[ColumnOf(j, f)] == names[j] + SuffixOf(f)
    {
      DenseLayout(names, rows[0], j, f);
    }
    forall i: int, j: nat, f: Field | 0 <= i < |body| && j < |names|
      ensures body[i][ColumnOf(j, f)] == ValueOf(rows[i].stats[j], f)
    {
      DenseLayout(names, rows[i], j, f);
    }
    forall i | 0 <= i < |body|
      ensures body[i][..3] == [rows[i].trimPercent, rows[i].trimLow, rows[i].trimHigh]
    {
      assert body[i] == Dense(rows[i]);
    }
  }
}
