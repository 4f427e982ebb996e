/**
 Spacing statistics of one unfolding and its GOE score (`TrimReport.__evaluate_unfolding`).

 Arithmetic is over `real`; the source computes in floating point and stores
 the results as 32-bit floats. The expected GOE spacing mean and variance are
 positive constants of the library, taken here as parameters.
 */
module Spacing {
  import opened Outcomes

  /** Differences of neighbouring unfolded values (`unfolded[1:] - unfolded[:-1]`). */
  function Spacings(u: seq<real>): (s: seq<real>)
    ensures |s| == if |u| == 0 then 0 else |u| - 1
    ensures forall i :: 0 <= i < |s| ==> s[i] == u[i + 1] - u[i]
  {
    if |u| == 0 then [] else seq(|u| - 1, i requires 0 <= i < |u| - 1 => u[i + 1] - u[i])
  }

  function Sum(s: seq<real>): real
    decreases |s|
  {
    if |s| == 0 then 0.0 else s[0] + Sum(s[1..])
  }

  function Mean(s: seq<real>): real
    requires |s| > 0
  {
    Sum(s) / (|s| as real)
  }

  function SquaredDeviations(s: seq<real>, centre: real): (d: seq<real>)
    ensures |d| == |s|
  {
    seq(|s|, i requires 0 <= i < |s| => (s[i] - centre) * (s[i] - centre))
  }

  /** Sample variance with one degree of freedom removed (`ddof=1`). */
  function SampleVariance(s: seq<real>): real
    requires |s| >= 2
  {
    Sum(SquaredDeviations(s, Mean(s))) / ((|s| - 1) as real)
  }

  /** Weight of the mean deviation relative to the variance deviation. */
  const MeanWeight: real := 0.05

  /** Relative deviation of the variance plus a twentieth of the relative deviation of the mean. */
  function Score(mean: real, variance: real, expMean: real, expVar: real): real
    requires expMean > 0.0 && expVar > 0.0
  {
    (variance - expVar) / expVar + MeanWeight * ((mean - expMean) / expMean)
  }

  datatype Stats = Stats(mean: real, variance: real, score: real)

  /** The spacings of an unfolding are its first spacing followed by the spacings of its tail. */
  lemma SpacingsTail(u: seq<real>)
    requires |u| > 1
    ensures Spacings(u) == [u[1] - u[0]] + Spacings(u[1..])
  {
    var a := Spacings(u);
    var b := [u[1] - u[0]] + Spacings(u[1..]);
    assert |a| == |b|;
    forall i | 0 <= i < |a|
      ensures a[i] == b[i]
    {
      if i > 0 {
        assert b[i] == Spacings(u[1..])[i - 1] == u[1..][i] - u[1..][i - 1];
      }
    }
  }

  /** The spacings of an unfolding telescope: their sum is the span of the unfolding. */
  lemma {:induction false} SpacingsTelescope(u: seq<real>)
    requires |u| > 0
    ensures Sum(Spacings(u)) == u[|u| - 1] - u[0]
    decreases |u|
  {
    if |u| > 1 {
      SpacingsTail(u);
      assert Sum(Spacings(u)) == (u[1] - u[0]) + Sum(Spacings(u[1..]));
      SpacingsTelescope(u[1..]);
    }
  }

  /** A sum of non-negative terms is non-negative. */
  lemma {:induction false} SumNonNegative(s: seq<real>)
    requires forall i :: 0 <= i < |s| ==> s[i] >= 0.0
    ensures Sum(s) >= 0.0
    decreases |s|
  {
    if |s| > 0 {
      SumNonNegative(s[1..]);
    }
  }

  lemma SquareNonNegative(x: real)
    ensures x * x >= 0.0
  {
    if x < 0.0 {
      assert x * x == (-x) * (-x);
    }
  }

  /** The mean spacing spreads the span of the unfolding evenly over its spacings. */
  lemma MeanSpacingSpan(u: seq<real>)
    requires |u| >= 2
    ensures Mean(Spacings(u)) * ((|u| - 1) as real) == u[|u| - 1] - u[0]
  {
    var s := Spacings(u);
    SpacingsTelescope(u);
    var m := |s| as real;
    assert Mean(s) == Sum(s) / m;
    assert (Sum(s) / m) * m == Sum(s);
  }

  /** A sample variance is never negative. */
  lemma VarianceNonNegative(s: seq<real>)
    requires |s| >= 2
    ensures SampleVariance(s) >= 0.0
  {
    var d := SquaredDeviations(s, Mean(s));
    forall i | 0 <= i < |d|
      ensures d[i] >= 0.0
    {
      SquareNonNegative(s[i] - Mean(s));
    }
    SumNonNegative(d);
    var k := (|s| - 1) as real;
    assert SampleVariance(s) == Sum(d) / k;
  }

  /**
   Mean, sample variance and score of the spacings of an unfolding. With fewer
   than three unfolded values there are fewer than two spacings and the sample
   variance is undefined (numpy yields NaN); the model answers `None`.
   */
  function Evaluate(unfolded: seq<real>, expMean: real, expVar: real): (r: Option<Stats>)
    requires expMean > 0.0 && expVar > 0.0
    ensures r.Some? <==> |unfolded| >= 3
    ensures r.Some? ==>
      r.value.mean * ((|unfolded| - 1) as real) == unfolded[|unfolded| - 1] - unfolded[0]
    ensures r.Some? ==> r.value.variance >= 0.0
    ensures r.Some? ==> r.value.score == Score(r.value.mean, r.value.variance, expMean, expVar)
  {
    if |unfolded| < 3 then None
    else
      var s := Spacings(unfolded);
      var mean := Mean(s);
      var variance := SampleVariance(s);
      MeanSpacingSpan(unfolded);
      VarianceNonNegative(s);
      Some(Stats(mean, variance, Score(mean, variance, expMean, expVar)))
  }

  /** A sum of `|s|` equal terms `c` is `|s| * c`. */
  lemma {:induction false} SumConstant(s: seq<real>, c: real)
    requires forall i :: 0 <= i < |s| ==> s[i] == c
    ensures Sum(s) == (|s| as real) * c
    decreases |s|
  {
    if |s| > 0 {
      SumConstant(s[1..], c);
    }
  }

  lemma MeanOfConstant(s: seq<real>, c: real)
    requires |s| > 0 && forall i :: 0 <= i < |s| ==> s[i] == c
    ensures Mean(s) == c
  {
    SumConstant(s, c);
    var m := |s| as real;
    assert (m * c) / m == c;
  }

  lemma VarianceOfConstant(s: seq<real>, c: real)
    requires |s| >= 2 && forall i :: 0 <= i < |s| ==> s[i] == c
    ensures SampleVariance(s) == 0.0
  {
    MeanOfConstant(s, c);
    var sq := SquaredDeviations(s, Mean(s));
    assert forall i :: 0 <= i < |sq| ==> sq[i] == 0.0;
    SumConstant(sq, 0.0);
  }

  /**
   An evenly spaced unfolding, every spacing `d`, has mean spacing `d` and
   spacing variance zero.
   */
  lemma EvenlySpaced(u: seq<real>, d: real, expMean: real, expVar: real)
    requires expMean > 0.0 && expVar > 0.0
    requires |u| >= 3 && forall i :: 0 <= i < |u| - 1 ==> u[i + 1] - u[i] == d
    ensures Evaluate(u, expMean, expVar) == Some(Stats(d, 0.0, Score(d, 0.0, expMean, expVar)))
  {
    var s := Spacings(u);
    MeanOfConstant(s, d);
    VarianceOfConstant(s, d);
  }

  /** The ideal unfolding, with the GOE mean and variance, scores exactly zero. */
  lemma ScoreIdeal(expMean: real, expVar: real)
    requires expMean > 0.0 && expVar > 0.0
    ensures Score(expMean, expVar, expMean, expVar) == 0.0
  {
  }

  /** At the GOE mean the sign of the score is the sign of the variance excess. */
  lemma ScoreSign(variance: real, expMean: real, expVar: real)
    requires expMean > 0.0 && expVar > 0.0
    ensures Score(expMean, variance, expMean, expVar) > 0.0 <==> variance > expVar
    ensures Score(expMean, variance, expMean, expVar) < 0.0 <==> variance < expVar
    ensures Score(expMean, variance, expMean, expVar) == 0.0 <==> variance == expVar
  {
    var d := (variance - expVar) / expVar;
    assert d * expVar == variance - expVar;
  }

  /** At a fixed mean the score strictly increases with the spacing variance. */
  lemma ScoreMonotone(mean: real, v1: real, v2: real, expMean: real, expVar: real)
    requires expMean > 0.0 && expVar > 0.0
    requires v1 < v2
    ensures Score(mean, v1, expMean, expVar) < Score(mean, v2, expMean, expVar)
  {
    assert (v2 - expVar) / expVar - (v1 - expVar) / expVar == (v2 - v1) / expVar;
  }
}
