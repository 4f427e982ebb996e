/**
 The trim iteration loop of `TrimReport.__get_trim_iters`: repeated outlier
 detection on the surviving inliers, building a chain of snapshots.

 The histogram outlier detector, the default smoother fit and the empirical
 step function are foreign code; they enter as the function parameters of
 `Oracles`, constrained only in the lengths of what they return.
 */
module TrimIters {
  import opened EdgeCorrection

  /**
   One snapshot: the candidate eigenvalues of one iteration with their step
   values, default unfolding, squared unfolding error and outlier labels.
   */
  datatype Snapshot = Snapshot(
    eigs: seq<real>,
    steps: seq<real>,
    unfolded: seq<real>,
    sqe: seq<real>,
    outlier: seq<bool>)

  /** The foreign collaborators of the loop. */
  datatype Oracles = Oracles(
    /** empirical step function: for each query point, the count of sample points at or below it */
    step: (seq<real>, seq<real>) -> seq<real>,
    /** default smoother fit of a sequence of eigenvalues: (unfolded, steps) */
    fit: seq<real> -> (seq<real>, seq<real>),
    /** histogram outlier detector on (eigenvalue, step) rows at a tolerance: true = outlier */
    detect: (seq<(real, real)>, real) -> seq<bool>)

  /** Each collaborator answers with one value per point it was given. */
  ghost predicate ValidOracles(o: Oracles)
  {
    && (forall sample, queries :: |o.step(sample, queries)| == |queries|)
    && (forall eigs :: |o.fit(eigs).0| == |eigs| && |o.fit(eigs).1| == |eigs|)
    && (forall rows, tol :: |o.detect(rows, tol)| == |rows|)
  }

  /** The constructor's defaults for `outlier_tol`, `max_trim` and `max_iters` (trim.py:30). */
  const DefaultTolerance: real := 0.1
  const DefaultMaxTrim: real := 0.5
  const DefaultMaxIters: int := 7

  function Zip(xs: seq<real>, ys: seq<real>): (r: seq<(real, real)>)
    requires |xs| == |ys|
    ensures |r| == |xs|
  {
    seq(|xs|, i requires 0 <= i < |xs| => (xs[i], ys[i]))
  }

  /** Point-wise squared difference of an unfolding and step values. */
  function SquaredError(unfolded: seq<real>, steps: seq<real>): (r: seq<real>)
    requires |unfolded| == |steps|
    ensures |r| == |unfolded|
  {
    seq(|unfolded|, i requires 0 <= i < |unfolded| =>
      (unfolded[i] - steps[i]) * (unfolded[i] - steps[i]))
  }

  /** All columns of a snapshot have one entry per candidate eigenvalue, and there is one. */
  predicate WellShaped(s: Snapshot)
  {
    && |s.eigs| > 0
    && |s.steps| == |s.eigs|
    && |s.unfolded| == |s.eigs|
    && |s.sqe| == |s.eigs|
    && |s.outlier| == |s.eigs|
  }

  /**
   The loop guard: the length of the last snapshot, outliers included, is still
   above the allowed fraction of the spectrum, and iterations remain.
   */
  predicate Continue(lastLength: nat, n: nat, maxTrim: real, itersRun: int, maxIters: int)
    requires n > 0
  {
    (lastLength as real) / (n as real) > maxTrim && itersRun < maxIters
  }

  /** The loop goes on exactly while the last snapshot holds more than `maxTrim` times the spectrum's points and passes remain. */
  lemma ContinueScaled(lastLength: nat, n: nat, maxTrim: real, itersRun: int, maxIters: int)
    requires n > 0
    ensures Continue(lastLength, n, maxTrim, itersRun, maxIters) <==>
      (lastLength as real) > maxTrim * (n as real) && itersRun < maxIters
  {
    var q := (lastLength as real) / (n as real);
    assert q * (n as real) == lastLength as real;
  }

  /** The eigenvalues and step values of `s` are the same contiguous slice of the original columns. */
  ghost predicate IsSliceOf(s: Snapshot, eigs: seq<real>, steps: seq<real>)
  {
    exists w: Window :: SliceAt(s, eigs, steps, w)
  }

  /** The eigenvalues and step values of `s` are the slice `w` of the original columns. */
  ghost predicate SliceAt(s: Snapshot, eigs: seq<real>, steps: seq<real>, w: Window)
  {
    w.lo < w.hi <= |eigs| && w.hi <= |steps| &&
    s.eigs == eigs[w.lo..w.hi] && s.steps == steps[w.lo..w.hi]
  }

  /** Snapshot `i > 0` is the detector pass over the inliers of snapshot `i - 1`. */
  ghost predicate Follows(prev: Snapshot, next: Snapshot, o: Oracles, tolerance: real)
    requires ValidOracles(o)
  {
    && WellShaped(prev)
    && WellShaped(next)
    && next.eigs == Keep(prev.eigs, prev.outlier)
    && next.steps == Keep(prev.steps, prev.outlier)
    && next.outlier == Corrected(o.detect(Zip(next.eigs, next.steps), tolerance))
    && next.unfolded == o.fit(next.eigs).0
    && next.sqe == SquaredError(o.fit(next.eigs).0, o.fit(next.eigs).1)
  }

  /** A slice of a slice is a slice of the original. */
  lemma SliceOfSlice(xs: seq<real>, outer: Window, inner: Window)
    requires outer.lo <= outer.hi <= |xs|
    requires inner.lo <= inner.hi <= outer.hi - outer.lo
    ensures xs[outer.lo..outer.hi][inner.lo..inner.hi] == xs[outer.lo + inner.lo..outer.lo + inner.hi]
  {
  }

  /**
   One pass of the loop body: the inliers of `prev` (its labels leave the window
   `local`), the detector's labels on them after edge correction, and a new fit.
   */
  method NextSnapshot(prev: Snapshot, o: Oracles, tolerance: real, ghost local: Window)
    returns (next: Snapshot)
    requires WellShaped(prev) && ValidOracles(o)
    requires local.lo < local.hi <= |prev.eigs|
    requires prev.outlier == OutsideWindow(|prev.eigs|, local)
    ensures WellShaped(next)
    ensures Follows(prev, next, o, tolerance)
    ensures next.eigs == prev.eigs[local.lo..local.hi]
    ensures next.steps == prev.steps[local.lo..local.hi]
    ensures next.outlier == OutsideWindow(|next.eigs|, InlierWindow(o.detect(Zip(next.eigs, next.steps), tolerance)))
    ensures !AllInlier(prev.outlier) ==> |next.eigs| < |prev.eigs|
  {
    var eigsIn := Keep(prev.eigs, prev.outlier);
    var stepsIn := Keep(prev.steps, prev.outlier);
    KeepWindow(prev.eigs, local);
    KeepWindow(prev.steps, local);
    var labels := o.detect(Zip(eigsIn, stepsIn), tolerance);
    labels := CorrectEdges(labels);
    var fitted := o.fit(eigsIn);
    next := Snapshot(eigsIn, stepsIn, fitted.0, SquaredError(fitted.0, fitted.1), labels);
  }

  /** Well-shaped snapshots, each located at window `wins[i]` of the original columns. */
  ghost predicate ChainLocated(snaps: seq<Snapshot>, wins: seq<Window>, eigs: seq<real>, steps: seq<real>)
  {
    && |wins| == |snaps|
    && (forall i :: 0 <= i < |snaps| ==> WellShaped(snaps[i]) && SliceAt(snaps[i], eigs, steps, wins[i]))
  }

  /** Each snapshot after the first is the detector pass over its predecessor. */
  ghost predicate ChainFollows(snaps: seq<Snapshot>, o: Oracles, tolerance: real)
    requires ValidOracles(o)
  {
    forall i :: 0 <= i < |snaps| - 1 ==> Follows(snaps[i], snaps[i + 1], o, tolerance)
  }

  /** Every snapshot but the last was extended under the loop guard. */
  ghost predicate ChainGuards(snaps: seq<Snapshot>, n: nat, maxTrim: real, maxIters: int)
    requires n > 0
  {
    forall i :: 0 <= i < |snaps| - 1 ==> Continue(|snaps[i].eigs|, n, maxTrim, i, maxIters)
  }

  /** Every snapshot strictly between the first and the last carries an outlier and so shrinks. */
  ghost predicate ChainShrinks(snaps: seq<Snapshot>)
  {
    forall i :: 0 < i < |snaps| - 1 ==>
      !AllInlier(snaps[i].outlier) && |snaps[i + 1].eigs| < |snaps[i].eigs|
  }

  /** The facts every prefix of the snapshot chain keeps. */
  ghost predicate Chain(snaps: seq<Snapshot>, wins: seq<Window>, eigs: seq<real>, steps: seq<real>,
                        o: Oracles, tolerance: real, maxTrim: real, maxIters: int)
    requires |eigs| > 0 && ValidOracles(o)
  {
    && |snaps| >= 1
    && ChainLocated(snaps, wins, eigs, steps)
    && ChainFollows(snaps, o, tolerance)
    && ChainGuards(snaps, |eigs|, maxTrim, maxIters)
    && ChainShrinks(snaps)
  }

  lemma ExtendSlices(snaps: seq<Snapshot>, wins: seq<Window>, eigs: seq<real>, steps: seq<real>,
                     next: Snapshot, nextWin: Window)
    requires ChainLocated(snaps, wins, eigs, steps)
    requires WellShaped(next) && SliceAt(next, eigs, steps, nextWin)
    ensures ChainLocated(snaps + [next], wins + [nextWin], eigs, steps)
  {
    var s' := snaps + [next];
    var w' := wins + [nextWin];
    assert forall i :: 0 <= i < |snaps| ==> s'[i] == snaps[i] && w'[i] == wins[i];
  }

  lemma ExtendFollows(snaps: seq<Snapshot>, o: Oracles, tolerance: real, next: Snapshot)
    requires ValidOracles(o) && |snaps| >= 1
    requires ChainFollows(snaps, o, tolerance)
    requires Follows(snaps[|snaps| - 1], next, o, tolerance)
    ensures ChainFollows(snaps + [next], o, tolerance)
  {
    var s' := snaps + [next];
    assert forall i :: 0 <= i < |snaps| ==> s'[i] == snaps[i];
  }

  lemma ExtendGuards(snaps: seq<Snapshot>, n: nat, maxTrim: real, maxIters: int, next: Snapshot)
    requires n > 0 && |snaps| >= 1
    requires ChainGuards(snaps, n, maxTrim, maxIters)
    requires Continue(|snaps[|snaps| - 1].eigs|, n, maxTrim, |snaps| - 1, maxIters)
    ensures ChainGuards(snaps + [next], n, maxTrim, maxIters)
  {
    var s' := snaps + [next];
    assert forall i :: 0 <= i < |snaps| ==> s'[i] == snaps[i];
  }

  lemma ExtendShrinks(snaps: seq<Snapshot>, next: Snapshot)
    requires |snaps| >= 1
    requires ChainShrinks(snaps)
    requires |snaps| > 1 ==>
      !AllInlier(snaps[|snaps| - 1].outlier) && |next.eigs| < |snaps[|snaps| - 1].eigs|
    ensures ChainShrinks(snaps + [next])
  {
    var s' := snaps + [next];
    assert forall i :: 0 <= i < |snaps| ==> s'[i] == snaps[i];
  }

  /** Appending one more pass, entered under the loop guard, keeps the chain facts. */
  lemma ChainExtend(snaps: seq<Snapshot>, wins: seq<Window>, eigs: seq<real>, steps: seq<real>,
                    o: Oracles, tolerance: real, maxTrim: real, maxIters: int,
                    next: Snapshot, nextWin: Window)
    requires |eigs| > 0 && ValidOracles(o)
    requires Chain(snaps, wins, eigs, steps, o, tolerance, maxTrim, maxIters)
    requires Follows(snaps[|snaps| - 1], next, o, tolerance)
    requires SliceAt(next, eigs, steps, nextWin)
    requires Continue(|snaps[|snaps| - 1].eigs|, |eigs|, maxTrim, |snaps| - 1, maxIters)
    requires |snaps| > 1 ==>
      !AllInlier(snaps[|snaps| - 1].outlier) && |next.eigs| < |snaps[|snaps| - 1].eigs|
    ensures Chain(snaps + [next], wins + [nextWin], eigs, steps, o, tolerance, maxTrim, maxIters)
  {
    ExtendSlices(snaps, wins, eigs, steps, next, nextWin);
    ExtendFollows(snaps, o, tolerance, next);
    ExtendGuards(snaps, |eigs|, maxTrim, maxIters, next);
    ExtendShrinks(snaps, next);
  }

  /** The untrimmed snapshot starts the chain, located at the whole spectrum. */
  lemma ChainStart(s0: Snapshot, eigs: seq<real>, o: Oracles, tolerance: real, maxTrim: real, maxIters: int)
    requires |eigs| > 0 && ValidOracles(o)
    requires WellShaped(s0) && s0.eigs == eigs && s0.steps == o.step(eigs, eigs)
    requires AllInlier(s0.outlier)
    ensures Chain([s0], [Window(0, |eigs|)], eigs, o.step(eigs, eigs), o, tolerance, maxTrim, maxIters)
    ensures s0.outlier == OutsideWindow(|eigs|, Window(0, |eigs|))
  {
    var steps := o.step(eigs, eigs);
    assert eigs[0..|eigs|] == eigs && steps[0..|eigs|] == steps;
  }

  /** Every snapshot of a chain is a contiguous slice of the original columns. */
  lemma ChainSlices(snaps: seq<Snapshot>, wins: seq<Window>, eigs: seq<real>, steps: seq<real>,
                    o: Oracles, tolerance: real, maxTrim: real, maxIters: int)
    requires |eigs| > 0 && ValidOracles(o)
    requires Chain(snaps, wins, eigs, steps, o, tolerance, maxTrim, maxIters)
    ensures forall i :: 0 <= i < |snaps| ==> IsSliceOf(snaps[i], eigs, steps)
  {
    forall i | 0 <= i < |snaps|
      ensures IsSliceOf(snaps[i], eigs, steps)
    {
      assert SliceAt(snaps[i], eigs, steps, wins[i]);
    }
  }

  /**
   The loop's ghost bookkeeping: the chain so far, located by `wins`, starting at
   the whole spectrum, with the last snapshot's inliers forming the window `local`.
   */
  ghost predicate Tracked(snaps: seq<Snapshot>, wins: seq<Window>, local: Window,
                          eigs: seq<real>, steps: seq<real>,
                          o: Oracles, tolerance: real, maxTrim: real, maxIters: int)
    requires |eigs| > 0 && ValidOracles(o)
  {
    && Chain(snaps, wins, eigs, steps, o, tolerance, maxTrim, maxIters)
    && snaps[0].eigs == eigs && snaps[0].steps == steps && AllInlier(snaps[0].outlier)
    && local.lo < local.hi <= |snaps[|snaps| - 1].eigs|
    && snaps[|snaps| - 1].outlier == OutsideWindow(|snaps[|snaps| - 1].eigs|, local)
  }

  /** The slice `local` of a snapshot located at `win` is located at the composed window. */
  lemma InnerSlice(prev: Snapshot, next: Snapshot, eigs: seq<real>, steps: seq<real>, win: Window, local: Window)
    requires SliceAt(prev, eigs, steps, win)
    requires local.lo < local.hi <= |prev.eigs|
    requires next.eigs == prev.eigs[local.lo..local.hi] && next.steps == prev.steps[local.lo..local.hi]
    ensures SliceAt(next, eigs, steps, Window(win.lo + local.lo, win.lo + local.hi))
  {
    SliceOfSlice(eigs, win, local);
    SliceOfSlice(steps, win, local);
  }

  /** One more pass under the loop guard keeps the bookkeeping, at the window it finds. */
  lemma Advance(snaps: seq<Snapshot>, wins: seq<Window>, local: Window,
                eigs: seq<real>, steps: seq<real>,
                o: Oracles, tolerance: real, maxTrim: real, maxIters: int, next: Snapshot)
    returns (nextWin: Window)
    requires |eigs| > 0 && ValidOracles(o)
    requires Tracked(snaps, wins, local, eigs, steps, o, tolerance, maxTrim, maxIters)
    requires Continue(|snaps[|snaps| - 1].eigs|, |eigs|, maxTrim, |snaps| - 1, maxIters)
    requires |snaps| > 1 ==> !AllInlier(snaps[|snaps| - 1].outlier)
    requires Follows(snaps[|snaps| - 1], next, o, tolerance)
    requires next.eigs == snaps[|snaps| - 1].eigs[local.lo..local.hi]
    requires next.steps == snaps[|snaps| - 1].steps[local.lo..local.hi]
    requires next.outlier == OutsideWindow(|next.eigs|, InlierWindow(o.detect(Zip(next.eigs, next.steps), tolerance)))
    requires !AllInlier(snaps[|snaps| - 1].outlier) ==> |next.eigs| < |snaps[|snaps| - 1].eigs|
    ensures Tracked(snaps + [next], wins + [nextWin], InlierWindow(o.detect(Zip(next.eigs, next.steps), tolerance)),
                    eigs, steps, o, tolerance, maxTrim, maxIters)
  {
    var win := wins[|wins| - 1];
    assert SliceAt(snaps[|snaps| - 1], eigs, steps, win);
    nextWin := Window(win.lo + local.lo, win.lo + local.hi);
    InnerSlice(snaps[|snaps| - 1], next, eigs, steps, win, local);
    ChainExtend(snaps, wins, eigs, steps, o, tolerance, maxTrim, maxIters, next, nextWin);
    var s' := snaps + [next];
    assert s'[0] == snaps[0] && s'[|s'| - 1] == next;
  }

  /**
   The trim loop. Snapshot 0 is the whole spectrum with every point an inlier;
   each later snapshot is the previous one's inliers with corrected detector labels.
   */
  method GetTrimIters(eigs: seq<real>, o: Oracles, tolerance: real, maxTrim: real, maxIters: int)
    returns (snaps: seq<Snapshot>)
    requires |eigs| > 0
    requires ValidOracles(o)
    ensures 1 <= |snaps|
    ensures |snaps| == 1 || |snaps| <= maxIters + 1
    ensures forall i :: 0 <= i < |snaps| ==> WellShaped(snaps[i])
    ensures snaps[0].eigs == eigs && snaps[0].steps == o.step(eigs, eigs)
    ensures AllInlier(snaps[0].outlier)
    ensures ChainFollows(snaps, o, tolerance)
    ensures forall i :: 0 <= i < |snaps| ==> IsSliceOf(snaps[i], eigs, o.step(eigs, eigs))
    ensures ChainGuards(snaps, |eigs|, maxTrim, maxIters)
    ensures ChainShrinks(snaps)
    ensures || (|snaps| > 1 && AllInlier(snaps[|snaps| - 1].outlier))
            || !Continue(|snaps[|snaps| - 1].eigs|, |eigs|, maxTrim, |snaps| - 1, maxIters)
  {
    var n := |eigs|;
    var steps0 := o.step(eigs, eigs);
    var unfolded0 := o.fit(eigs).0;
    snaps := [Snapshot(eigs, steps0, unfolded0, SquaredError(unfolded0, steps0), seq(n, _ => false))];
    var itersRun := 0;
    ghost var wins := [Window(0, n)];
    ghost var local := Window(0, n);
    ChainStart(snaps[0], eigs, o, tolerance, maxTrim, maxIters);
    while Continue(|snaps[|snaps| - 1].eigs|, n, maxTrim, itersRun, maxIters)
      invariant 1 <= |snaps| == itersRun + 1
      invariant itersRun == 0 || itersRun <= maxIters
      invariant Tracked(snaps, wins, local, eigs, steps0, o, tolerance, maxTrim, maxIters)
      invariant |snaps| > 1 ==> !AllInlier(snaps[|snaps| - 1].outlier)
      decreases maxIters - itersRun
    {
      itersRun := itersRun + 1;
      var next := NextSnapshot(snaps[|snaps| - 1], o, tolerance, local);
      ghost var nextWin := Advance(snaps, wins, local, eigs, steps0, o, tolerance, maxTrim, maxIters, next);
      local := InlierWindow(o.detect(Zip(next.eigs, next.steps), tolerance));
      snaps := snaps + [next];
      wins := wins + [nextWin];
      if AllInlier(next.outlier) {
        break;
      }
    }
    ChainSlices(snaps, wins, eigs, steps0, o, tolerance, maxTrim, maxIters);
  }

  /**
   Everything the trim loop guarantees about the snapshots it returns for the
   sorted spectrum `eigs`: the postconditions of `GetTrimIters`, gathered so
   that callers can pass them on.
   */
  ghost predicate TrimRun(snaps: seq<Snapshot>, eigs: seq<real>, o: Oracles,
                          tolerance: real, maxTrim: real, maxIters: int)
    requires |eigs| > 0 && ValidOracles(o)
  {
    && 1 <= |snaps|
    && (|snaps| == 1 || |snaps| <= maxIters + 1)
    && (forall i :: 0 <= i < |snaps| ==> WellShaped(snaps[i]))
    && snaps[0].eigs == eigs && snaps[0].steps == o.step(eigs, eigs)
    && AllInlier(snaps[0].outlier)
    && ChainFollows(snaps, o, tolerance)
    && (forall i :: 0 <= i < |snaps| ==> IsSliceOf(snaps[i], eigs, o.step(eigs, eigs)))
    && ChainGuards(snaps, |eigs|, maxTrim, maxIters)
    && ChainShrinks(snaps)
    && (|| (|snaps| > 1 && AllInlier(snaps[|snaps| - 1].outlier))
        || !Continue(|snaps[|snaps| - 1].eigs|, |eigs|, maxTrim, |snaps| - 1, maxIters))
  }
}
