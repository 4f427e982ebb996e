/**
 Edge correction of the outlier detector's labels (`TrimReport.__get_trim_iters`).

 Labels are `true` for a point the detector flags as an outlier. The spectrum is
 sorted, so only a run of points at one end may be trimmed; the correction
 turns whatever the detector reports into such a run, or into no outliers at all.
 The code is not symmetric: when the first point is flagged it keeps the leading
 run only and clears everything from the first inlier on, a trailing run included.
 */
module EdgeCorrection {
  import opened Search

  predicate AllInlier(labels: seq<bool>)
  {
    forall i :: 0 <= i < |labels| ==> !labels[i]
  }

  predicate HasInlier(labels: seq<bool>)
  {
    exists i :: 0 <= i < |labels| && !labels[i]
  }

  /** Outliers form a prefix (closed downwards) or a suffix (closed upwards): no interior outlier. */
  predicate EdgeRun(labels: seq<bool>)
  {
    || (forall i, j :: 0 <= i <= j < |labels| && labels[j] ==> labels[i])
    || (forall i, j :: 0 <= i <= j < |labels| && labels[i] ==> labels[j])
  }

  /** Length of the leading run of flagged points. */
  function LeadingRun(labels: seq<bool>): (k: nat)
    ensures k <= |labels|
    ensures forall i :: 0 <= i < k ==> labels[i]
    ensures k < |labels| ==> !labels[k]
    decreases |labels|
  {
    if |labels| == 0 || !labels[0] then 0 else 1 + LeadingRun(labels[1..])
  }

  /** Length of the trailing run of flagged points. */
  function TrailingRun(labels: seq<bool>): (k: nat)
    ensures k <= |labels|
    ensures forall i :: |labels| - k <= i < |labels| ==> labels[i]
    ensures k < |labels| ==> !labels[|labels| - 1 - k]
    decreases |labels|
  {
    if |labels| == 0 || !labels[|labels| - 1] then 0
    else 1 + TrailingRun(labels[..|labels| - 1])
  }

  /** Half-open index range [lo, hi) of the points kept as inliers. */
  datatype Window = Window(lo: nat, hi: nat)

  /** Labels flagging exactly the points outside window `w`. */
  function OutsideWindow(n: nat, w: Window): (r: seq<bool>)
    ensures |r| == n
  {
    seq(n, i => !(w.lo <= i < w.hi))
  }

  /**
   The inlier window the correction leaves: after a flagged leading run when the
   first point is flagged and some point is not; before a flagged trailing run
   when only the last point is flagged; everything otherwise.
   */
  function InlierWindow(labels: seq<bool>): (w: Window)
    requires |labels| > 0
    ensures w.lo < w.hi <= |labels|
  {
    var n := |labels|;
    if labels[0] && LeadingRun(labels) < n then Window(LeadingRun(labels), n)
    else if !labels[0] && labels[n - 1] then Window(0, n - TrailingRun(labels))
    else Window(0, n)
  }

  /** Reference definition of the corrected labels. */
  function Corrected(labels: seq<bool>): (r: seq<bool>)
    requires |labels| > 0
    ensures |r| == |labels|
  {
    OutsideWindow(|labels|, InlierWindow(labels))
  }

  /** The position a Python index `i` (possibly negative) denotes in a sequence of length `n`. */
  function PyIndex(i: int, n: nat): int
  {
    if i < 0 then i + n else i
  }

  /**
   The correction as the trim loop performs it, on the detector's output:
   two index loops driven by the first/last-inlier searches, then the forced
   all-inlier fallback. When every point is flagged the search answers -1 and
   the first loop starts at Python index -1, i.e. at the last point.
   */
  method CorrectEdges(isOutlier: seq<bool>) returns (r: seq<bool>)
    requires |isOutlier| > 0
    ensures r == Corrected(isOutlier)
  {
    var n := |isOutlier|;
    r := isOutlier;
    if r[0] {
      var start := FindFirst(r, false);
      var i := start;
      while i < n
        invariant start <= i <= n
        invariant |r| == n
        invariant forall j :: 0 <= j < n ==>
          r[j] == (isOutlier[j] && !(start <= j < i) && !(start <= j - n < i))
      {
        r := r[PyIndex(i, n) := false];
        i := i + 1;
      }
    }
    ghost var mid := r;
    if r[n - 1] {
      var stop := FindLast(r, false);
      var i := 0;
      while i < stop
        invariant 0 <= i <= if stop < 0 then 0 else stop
        invariant |r| == n
        invariant forall j :: 0 <= j < n ==> r[j] == (mid[j] && !(j < i))
      {
        r := r[i := false];
        i := i + 1;
      }
    }
    if !r[0] && !r[n - 1] {
      r := seq(n, _ => false);
    }
  }

  /** The inliers of `xs` under `outlier`, in order. */
  function Keep<T>(xs: seq<T>, outlier: seq<bool>): (r: seq<T>)
    requires |xs| == |outlier|
    ensures |r| <= |xs|
    ensures AllInlier(outlier) ==> r == xs
    ensures forall x :: x in r ==> x in xs
    decreases |xs|
  {
    if |xs| == 0 then []
    else (if outlier[0] then [] else [xs[0]]) + Keep(xs[1..], outlier[1..])
  }

  /**
   Shape of the correction when the detector leaves at least one inlier: the
   flagged leading run alone when the first point is flagged, else the flagged
   trailing run when the last point is, else no outlier at all.
   */
  lemma CorrectedShape(labels: seq<bool>)
    requires |labels| > 0 && HasInlier(labels)
    ensures labels[0] ==>
      forall i :: 0 <= i < |labels| ==> (Corrected(labels)[i] <==> i < LeadingRun(labels))
    ensures !labels[0] && labels[|labels| - 1] ==>
      forall i :: 0 <= i < |labels| ==>
        (Corrected(labels)[i] <==> |labels| - TrailingRun(labels) <= i)
    ensures !labels[0] && !labels[|labels| - 1] ==> AllInlier(Corrected(labels))
  {
    if labels[0] {
      var k :| 0 <= k < |labels| && !labels[k];
      assert LeadingRun(labels) <= k;
    }
  }

  /** With every point flagged the correction falls back to no outlier at all. */
  lemma CorrectedAllFlagged(labels: seq<bool>)
    requires |labels| > 0 && !HasInlier(labels)
    ensures AllInlier(Corrected(labels))
  {
    assert labels[|labels| - 1];
  }

  /**
   Whatever the detector reports, the corrected outliers are an edge run the
   detector itself flagged, and at least one point stays an inlier.
   */
  lemma CorrectedIsEdgeRun(labels: seq<bool>)
    requires |labels| > 0
    ensures EdgeRun(Corrected(labels))
    ensures HasInlier(Corrected(labels))
    ensures forall i :: 0 <= i < |labels| && Corrected(labels)[i] ==> labels[i]
  {
    var w := InlierWindow(labels);
    assert !Corrected(labels)[w.lo];
  }

  /**
   The trim loop stops after a correction that leaves no outlier; that happens
   exactly when the detector flagged every point or flagged neither end.
   */
  lemma CorrectedStops(labels: seq<bool>)
    requires |labels| > 0
    ensures AllInlier(Corrected(labels)) <==>
      (!HasInlier(labels) || (!labels[0] && !labels[|labels| - 1]))
  {
    var n := |labels|;
    var r := Corrected(labels);
    if !HasInlier(labels) {
      CorrectedAllFlagged(labels);
    } else if labels[0] {
      CorrectedShape(labels);
      assert r[0];
    } else if labels[n - 1] {
      CorrectedShape(labels);
      assert r[n - 1];
    }
  }

  /** Keeping the inliers of labels that flag everything outside `w` leaves exactly the slice `w`. */
  lemma {:induction false} KeepWindow<T>(xs: seq<T>, w: Window)
    requires w.lo <= w.hi <= |xs|
    ensures Keep(xs, OutsideWindow(|xs|, w)) == xs[w.lo..w.hi]
    decreases |xs|
  {
    var l := OutsideWindow(|xs|, w);
    if |xs| > 0 {
      var w' := if w.lo > 0 then Window(w.lo - 1, w.hi - 1)
                else if w.hi > 0 then Window(0, w.hi - 1)
                else Window(0, 0);
      assert l[1..] == OutsideWindow(|xs| - 1, w');
      KeepWindow(xs[1..], w');
      if w.lo > 0 {
        assert xs[1..][w'.lo..w'.hi] == xs[w.lo..w.hi];
      } else if w.hi > 0 {
        assert [xs[0]] + xs[1..][w'.lo..w'.hi] == xs[w.lo..w.hi];
      }
    }
  }

  /** Outliers outside a window strictly shorten the kept sequence. */
  lemma KeepWindowShrinks<T>(xs: seq<T>, w: Window)
    requires w.lo <= w.hi <= |xs|
    requires !AllInlier(OutsideWindow(|xs|, w))
    ensures |Keep(xs, OutsideWindow(|xs|, w))| < |xs|
  {
    KeepWindow(xs, w);
  }
}
