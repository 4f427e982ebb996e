/**
 Selection of the best smoothing configurations from the report
 (`TrimReport.summarize_trim_unfoldings`).

 Scores enter as absolute values. The top three configurations by column
 minimum give the "best", "second" and "third" picks, each at the first trim
 row attaining that minimum; separately, the top three by median and by mean
 are intersected to give the consistent configurations. The source sorts with
 an unspecified tie order; the model breaks ties towards the lower index.
 */
module Selection {
  import opened Report
  import opened Sorting
  import opened Spacing

  /** How many configurations the summary ranks. */
  const TopCount: nat := 3

  function Abs(x: real): real
  {
    if x < 0.0 then -x else x
  }

  /** Every row holds one statistics triple per configuration. */
  predicate Rectangular(rows: seq<Row>, k: nat)
  {
    forall r :: 0 <= r < |rows| ==> |rows[r].stats| == k
  }

  /** Absolute scores of configuration `j` down the trim rows. */
  function AbsScores(rows: seq<Row>, k: nat, j: nat): (c: seq<real>)
    requires Rectangular(rows, k) && j < k
    ensures |c| == |rows|
    ensures forall r :: 0 <= r < |rows| ==> c[r] == Abs(rows[r].stats[j].score)
  {
    seq(|rows|, r requires 0 <= r < |rows| => Abs(rows[r].stats[j].score))
  }

  /** Least element of a non-empty sequence. */
  function Minimum(s: seq<real>): (m: real)
    requires |s| > 0
    ensures forall i :: 0 <= i < |s| ==> m <= s[i]
    ensures exists i :: 0 <= i < |s| && s[i] == m
    decreases |s|
  {
    if |s| == 1 then s[0]
    else
      var rest := Minimum(s[1..]);
      if s[0] <= rest then s[0] else rest
  }

  /** Greatest element of a non-empty sequence. */
  function Maximum(s: seq<real>): (m: real)
    requires |s| > 0
    ensures forall i :: 0 <= i < |s| ==> s[i] <= m
    ensures exists i :: 0 <= i < |s| && s[i] == m
    decreases |s|
  {
    if |s| == 1 then s[0]
    else
      var rest := Maximum(s[1..]);
      if rest <= s[0] then s[0] else rest
  }

  /** Median of a non-empty sequence: the middle of its sorted order, or the average of the two middle values. */
  function Median(s: seq<real>): real
    requires |s| > 0
  {
    Middle(Sort(s))
  }

  function Middle(t: seq<real>): real
    requires |t| > 0
  {
    if |t| % 2 == 1 then t[|t| / 2] else (t[|t| / 2 - 1] + t[|t| / 2]) / 2.0
  }

  /** Any element of a permutation of `s` lies between the least and the greatest element of `s`. */
  lemma PermutationBounds(s: seq<real>, t: seq<real>, i: nat)
    requires |s| > 0 && multiset(t) == multiset(s) && i < |t|
    ensures Minimum(s) <= t[i] <= Maximum(s)
  {
    assert t[i] in multiset(s);
  }

  /** The median lies between the least and the greatest value. */
  lemma MedianBounds(s: seq<real>)
    requires |s| > 0
    ensures Minimum(s) <= Median(s) <= Maximum(s)
  {
    MiddleBounds(s, Sort(s));
  }

  lemma MiddleBounds(s: seq<real>, t: seq<real>)
    requires |s| > 0 && multiset(t) == multiset(s) && |t| == |s|
    ensures Minimum(s) <= Middle(t) <= Maximum(s)
  {
    var h := |t| / 2;
    PermutationBounds(s, t, h);
    if |t| % 2 == 0 {
      PermutationBounds(s, t, h - 1);
      AverageBounds(Minimum(s), t[h - 1], t[h], Maximum(s));
    }
  }

  lemma AverageBounds(lo: real, a: real, b: real, hi: real)
    requires lo <= a <= hi && lo <= b <= hi
    ensures lo <= (a + b) / 2.0 <= hi
  {
  }

  /** First index attaining the minimum, as `idxmin` reports it. */
  method FirstArgMin(s: seq<real>) returns (k: nat)
    requires |s| > 0
    ensures k < |s|
    ensures forall i :: 0 <= i < |s| ==> s[k] <= s[i]
    ensures forall i :: 0 <= i < k ==> s[k] < s[i]
  {
    k := 0;
    var i := 1;
    while i < |s|
      invariant 1 <= i <= |s| && k < i
      invariant forall t :: 0 <= t < i ==> s[k] <= s[t]
      invariant forall t :: 0 <= t < k ==> s[k] < s[t]
    {
      if s[i] < s[k] {
        k := i;
      }
      i := i + 1;
    }
  }

  predicate Distinct(s: seq<nat>)
  {
    forall a, b :: 0 <= a < b < |s| ==> s[a] != s[b]
  }

  predicate Below(s: seq<nat>, n: nat)
  {
    forall a :: 0 <= a < |s| ==> s[a] < n
  }

  /** Position in `cands` of the first candidate with the least key. */
  function ArgMinAmong(keys: seq<real>, cands: seq<nat>): (p: nat)
    requires |cands| > 0 && Below(cands, |keys|)
    ensures p < |cands|
    ensures forall c :: 0 <= c < |cands| ==> keys[cands[p]] <= keys[cands[c]]
    decreases |cands|
  {
    if |cands| == 1 then 0
    else
      var p := ArgMinAmong(keys, cands[1..]) + 1;
      if keys[cands[0]] <= keys[cands[p]] then 0 else p
  }

  function Remove(s: seq<nat>, p: nat): (r: seq<nat>)
    requires p < |s|
    ensures |r| == |s| - 1
  {
    s[..p] + s[p + 1..]
  }

  /** Removing position `p` of a distinct sequence removes exactly the element `s[p]`. */
  lemma RemoveFacts(s: seq<nat>, p: nat)
    requires p < |s| && Distinct(s)
    ensures Distinct(Remove(s, p))
    ensures forall x :: x in Remove(s, p) <==> x in s && x != s[p]
  {
    var r := Remove(s, p);
    assert forall a :: 0 <= a < |r| ==> r[a] == if a < p then s[a] else s[a + 1];
    forall x | x in s && x != s[p]
      ensures x in r
    {
      var a :| 0 <= a < |s| && s[a] == x;
      if a < p { assert r[a] == x; } else { assert r[a - 1] == x; }
    }
  }

  /**
   The `k` candidates with the least keys, in non-decreasing order of key,
   repeatedly taking the first candidate with the least remaining key.
   */
  function SmallestAmong(keys: seq<real>, cands: seq<nat>, k: nat): (r: seq<nat>)
    requires Below(cands, |keys|)
    ensures |r| == if k < |cands| then k else |cands|
    decreases k
  {
    if k == 0 || |cands| == 0 then []
    else
      var p := ArgMinAmong(keys, cands);
      RemoveBelow(cands, p, |keys|);
      [cands[p]] + SmallestAmong(keys, Remove(cands, p), k - 1)
  }

  lemma RemoveBelow(s: seq<nat>, p: nat, n: nat)
    requires p < |s| && Below(s, n)
    ensures Below(Remove(s, p), n)
  {
    var r := Remove(s, p);
    assert forall a :: 0 <= a < |r| ==> r[a] == if a < p then s[a] else s[a + 1];
  }

  /** Every member of `r` is a member of `s`. */
  predicate MembersOf(r: seq<nat>, s: seq<nat>)
  {
    forall a :: 0 <= a < |r| ==> r[a] in s
  }

  /** The keys of `r` never decrease. */
  predicate KeysAscend(keys: seq<real>, r: seq<nat>)
    requires Below(r, |keys|)
  {
    forall a, b :: 0 <= a < b < |r| ==> keys[r[a]] <= keys[r[b]]
  }

  /** No candidate outside `r` has a key strictly below a key of `r`. */
  predicate NoneSmallerOutside(keys: seq<real>, r: seq<nat>, cands: seq<nat>)
    requires Below(r, |keys|) && Below(cands, |keys|)
  {
    forall a, u :: 0 <= a < |r| && u in cands && u !in r ==> keys[r[a]] <= keys[u]
  }

  /** The first candidate with the least key has a key no greater than any candidate's. */
  lemma ArgMinLeast(keys: seq<real>, cands: seq<nat>)
    requires |cands| > 0 && Below(cands, |keys|)
    ensures forall u :: u in cands ==> u < |keys| && keys[cands[ArgMinAmong(keys, cands)]] <= keys[u]
  {
    forall u | u in cands
      ensures u < |keys| && keys[cands[ArgMinAmong(keys, cands)]] <= keys[u]
    {
      var c :| 0 <= c < |cands| && cands[c] == u;
    }
  }

  lemma {:induction false} SmallestAmongFacts(keys: seq<real>, cands: seq<nat>, k: nat)
    requires Below(cands, |keys|) && Distinct(cands)
    ensures var r := SmallestAmong(keys, cands, k);
      && Distinct(r) && MembersOf(r, cands) && Below(r, |keys|)
      && KeysAscend(keys, r) && NoneSmallerOutside(keys, r, cands)
    decreases k
  {
    if k == 0 || |cands| == 0 {
    } else {
      var p := ArgMinAmong(keys, cands);
      RemoveFacts(cands, p);
      RemoveBelow(cands, p, |keys|);
      ArgMinLeast(keys, cands);
      SmallestAmongFacts(keys, Remove(cands, p), k - 1);
      PrependLeast(keys, cands, p, SmallestAmong(keys, Remove(cands, p), k - 1));
    }
  }

  /**
   Putting a least candidate in front of a ranking of the other candidates
   gives a ranking of all of them.
   */
  lemma PrependLeast(keys: seq<real>, cands: seq<nat>, p: nat, t: seq<nat>)
    requires Below(cands, |keys|) && Distinct(cands) && p < |cands|
    requires forall u :: u in cands ==> u < |keys| && keys[cands[p]] <= keys[u]
    requires forall x :: x in Remove(cands, p) <==> x in cands && x != cands[p]
    requires Distinct(t) && MembersOf(t, Remove(cands, p)) && Below(t, |keys|)
    requires KeysAscend(keys, t) && NoneSmallerOutside(keys, t, Remove(cands, p))
    ensures var r := [cands[p]] + t;
      && Distinct(r) && MembersOf(r, cands) && Below(r, |keys|)
      && KeysAscend(keys, r) && NoneSmallerOutside(keys, r, cands)
  {
    var c := cands[p];
    var rest := Remove(cands, p);
    var r := [c] + t;
    assert forall a :: 0 < a < |r| ==> r[a] == t[a - 1] && r[a] in rest;
    assert Distinct(r);
    assert MembersOf(r, cands);
    forall a, u | 0 <= a < |r| && u in cands && u !in r
      ensures keys[r[a]] <= keys[u]
    {
      assert u in rest;
      if a > 0 {
        assert u !in t;
      }
    }
  }

  function Indices(n: nat): (r: seq<nat>)
    ensures |r| == n && Distinct(r) && Below(r, n)
    ensures forall u :: 0 <= u < n ==> u in r
  {
    var r := seq(n, i requires 0 <= i < n => i);
    forall u | 0 <= u < n
      ensures u in r
    {
      assert r[u] == u;
    }
    r
  }

  /**
   The indices of the three least keys (fewer when there are fewer keys), in
   non-decreasing order of key; no index left out has a strictly smaller key.
   */
  function TopThree(keys: seq<real>): (r: seq<nat>)
    ensures |r| == if |keys| < TopCount then |keys| else TopCount
    ensures Distinct(r) && Below(r, |keys|)
    ensures forall a, b :: 0 <= a < b < |r| ==> keys[r[a]] <= keys[r[b]]
    ensures forall a, u :: 0 <= a < |r| && 0 <= u < |keys| && u !in r ==> keys[r[a]] <= keys[u]
  {
    SmallestAmongFacts(keys, Indices(|keys|), TopCount);
    SmallestAmong(keys, Indices(|keys|), TopCount)
  }

  /** Least absolute score of each configuration over the trims. */
  function ColumnMinima(rows: seq<Row>, k: nat): (m: seq<real>)
    requires |rows| > 0 && Rectangular(rows, k)
    ensures |m| == k
    ensures forall i, j :: 0 <= i < |rows| && 0 <= j < k ==> m[j] <= AbsScores(rows, k, j)[i]
    ensures forall j :: 0 <= j < k ==> m[j] in AbsScores(rows, k, j)
  {
    var m := seq(k, j requires 0 <= j < k => Minimum(AbsScores(rows, k, j)));
    assert forall j :: 0 <= j < k ==> m[j] == Minimum(AbsScores(rows, k, j));
    m
  }

  /** Median absolute score of each configuration over the trims. */
  function ColumnMedians(rows: seq<Row>, k: nat): (m: seq<real>)
    requires |rows| > 0 && Rectangular(rows, k)
    ensures |m| == k
  {
    seq(k, j requires 0 <= j < k => Median(AbsScores(rows, k, j)))
  }

  /** Mean absolute score of each configuration over the trims. */
  function ColumnMeans(rows: seq<Row>, k: nat): (m: seq<real>)
    requires |rows| > 0 && Rectangular(rows, k)
    ensures |m| == k
  {
    seq(k, j requires 0 <= j < k => Mean(AbsScores(rows, k, j)))
  }

  /** The configurations ranked best, second and third by their least absolute score. */
  function BestConfigs(rows: seq<Row>, k: nat): seq<nat>
    requires |rows| > 0 && Rectangular(rows, k)
  {
    TopThree(ColumnMinima(rows, k))
  }

  function SetOf(s: seq<nat>): set<nat>
  {
    set x | x in s
  }

  /** Configurations among the top three both by median and by mean absolute score. */
  function Consistent(rows: seq<Row>, k: nat): set<nat>
    requires |rows| > 0 && Rectangular(rows, k)
  {
    TopBoth(ColumnMedians(rows, k), ColumnMeans(rows, k))
  }

  /** Indices among the three least keys of `a` and among the three least keys of `b`. */
  function TopBoth(a: seq<real>, b: seq<real>): set<nat>
  {
    SetOf(TopThree(a)) * SetOf(TopThree(b))
  }

  lemma {:induction false} SetOfCard(s: seq<nat>)
    ensures |SetOf(s)| <= |s|
    decreases |s|
  {
    if |s| > 0 {
      SetOfCard(s[1..]);
      assert SetOf(s) == {s[0]} + SetOf(s[1..]);
    }
  }

  /**
   The best configuration has the least column minimum of all; no configuration
   left out of the ranking has a strictly smaller column minimum than a ranked one.
   */
  lemma BestConfigsRanked(rows: seq<Row>, k: nat)
    requires |rows| > 0 && Rectangular(rows, k)
    ensures |BestConfigs(rows, k)| == if k < TopCount then k else TopCount
    ensures k > 0 ==> forall j :: 0 <= j < k ==>
      ColumnMinima(rows, k)[BestConfigs(rows, k)[0]] <= ColumnMinima(rows, k)[j]
    ensures forall a, j :: 0 <= a < |BestConfigs(rows, k)| && 0 <= j < k && j !in BestConfigs(rows, k) ==>
      ColumnMinima(rows, k)[BestConfigs(rows, k)[a]] <= ColumnMinima(rows, k)[j]
  {
    var m := ColumnMinima(rows, k);
    var best := BestConfigs(rows, k);
    if k > 0 {
      forall j | 0 <= j < k
        ensures m[best[0]] <= m[j]
      {
        if j in best {
          var b :| 0 <= b < |best| && best[b] == j;
          if b > 0 {
            assert m[best[0]] <= m[best[b]];
          }
        }
      }
    }
  }

  /**
   The indices in both top-three sets are a subset of each, hence at most three,
   and index both key sequences.
   */
  lemma TopBothBounds(a: seq<real>, b: seq<real>)
    ensures TopBoth(a, b) <= SetOf(TopThree(a)) && TopBoth(a, b) <= SetOf(TopThree(b))
    ensures |TopBoth(a, b)| <= TopCount
    ensures forall j :: j in TopBoth(a, b) ==> j < |a| && j < |b|
  {
    SetOfCard(TopThree(a));
    SubsetCard(TopBoth(a, b), SetOf(TopThree(a)));
  }

  lemma SubsetCard(a: set<nat>, b: set<nat>)
    requires a <= b
    ensures |a| <= |b|
  {
    assert b == a + (b - a);
  }

  /** One summary entry: a configuration, the trim row of its least absolute score, and that row's figures. */
  datatype Pick = Pick(config: nat, row: nat, trimPercent: real, trimLow: real, trimHigh: real,
                       mean: real, variance: real, score: real)

  function PickAt(rows: seq<Row>, k: nat, j: nat, r: nat): Pick
    requires Rectangular(rows, k) && j < k && r < |rows|
  {
    var row := rows[r];
    Pick(j, r, row.trimPercent, row.trimLow, row.trimHigh,
         row.stats[j].mean, row.stats[j].variance, row.stats[j].score)
  }

  /**
   The summary: the ranked picks, the last trim's unfoldings of the picked
   configurations, and the names of the consistent configurations.
   */
  datatype Summary = Summary(best: seq<Pick>, bestUnfolded: seq<seq<real>>, consistent: set<string>)

  function NamesOf(names: seq<string>, configs: set<nat>): set<string>
    requires forall j :: j in configs ==> j < |names|
  {
    set j | j in configs :: names[j]
  }

  lemma {:induction false} NamesOfCard(names: seq<string>, configs: set<nat>)
    requires forall j :: j in configs ==> j < |names|
    ensures |NamesOf(names, configs)| <= |configs|
    decreases |configs|
  {
    if configs != {} {
      var j :| j in configs;
      var rest := configs - {j};
      NamesOfCard(names, rest);
      assert NamesOf(names, configs) == NamesOf(names, rest) + {names[j]};
    }
  }

  /**
   `p` is the pick of configuration `j`: the first trim row where the absolute
   score of `j` reaches its least value, with that row's figures.
   */
  predicate IsBestPick(rows: seq<Row>, k: nat, j: nat, p: Pick)
    requires |rows| > 0 && Rectangular(rows, k) && j < k
  {
    && p.config == j && p.row < |rows|
    && p == PickAt(rows, k, j, p.row)
    && Abs(p.score) == ColumnMinima(rows, k)[j]
    && forall r :: 0 <= r < p.row ==> Abs(rows[r].stats[j].score) > Abs(p.score)
  }

  method PickFor(rows: seq<Row>, k: nat, j: nat) returns (p: Pick)
    requires |rows| > 0 && Rectangular(rows, k) && j < k
    ensures IsBestPick(rows, k, j, p)
  {
    var column := AbsScores(rows, k, j);
    var r := FirstArgMin(column);
    MinimumAttained(column, r);
    assert forall t :: 0 <= t < |rows| ==> column[t] == Abs(rows[t].stats[j].score);
    p := PickAt(rows, k, j, r);
    assert Abs(p.score) == column[r];
  }

  /** The picks of `configs`, in order, with the last trim's unfolding of each. */
  method PickAll(rows: seq<Row>, k: nat, configs: seq<nat>, lastUnfolds: seq<seq<real>>)
    returns (best: seq<Pick>, unfolded: seq<seq<real>>)
    requires |rows| > 0 && Rectangular(rows, k) && Below(configs, k) && |lastUnfolds| == k
    ensures |best| == |configs| && |unfolded| == |configs|
    ensures forall t :: 0 <= t < |configs| ==>
      IsBestPick(rows, k, configs[t], best[t]) && unfolded[t] == lastUnfolds[configs[t]]
  {
    best, unfolded := [], [];
    var i := 0;
    while i < |configs|
      invariant 0 <= i <= |configs| && |best| == i && |unfolded| == i
      invariant forall t :: 0 <= t < i ==>
        IsBestPick(rows, k, configs[t], best[t]) && unfolded[t] == lastUnfolds[configs[t]]
    {
      var p := PickFor(rows, k, configs[i]);
      best := best + [p];
      unfolded := unfolded + [lastUnfolds[configs[i]]];
      i := i + 1;
    }
  }

  /**
   Summarises a report whose configurations are named `names`, given the
   unfoldings of the last trim (one column per configuration).
   */
  method Summarize(rows: seq<Row>, names: seq<string>, lastUnfolds: seq<seq<real>>) returns (s: Summary)
    requires |rows| > 0 && Rectangular(rows, |names|) && |lastUnfolds| == |names|
    ensures |s.best| == |BestConfigs(rows, |names|)| && |s.bestUnfolded| == |s.best|
    ensures forall i :: 0 <= i < |s.best| ==>
      && BestConfigs(rows, |names|)[i] < |names|
      && IsBestPick(rows, |names|, BestConfigs(rows, |names|)[i], s.best[i])
      && s.bestUnfolded[i] == lastUnfolds[BestConfigs(rows, |names|)[i]]
    ensures forall j :: j in Consistent(rows, |names|) ==> j < |names|
    ensures s.consistent == NamesOf(names, Consistent(rows, |names|))
    ensures |s.consistent| <= TopCount
  {
    var k := |names|;
    var best, unfolded := PickAll(rows, k, BestConfigs(rows, k), lastUnfolds);
    TopBothBounds(ColumnMedians(rows, k), ColumnMeans(rows, k));
    NamesOfCard(names, Consistent(rows, k));
    s := Summary(best, unfolded, NamesOf(names, Consistent(rows, k)));
  }

  /** A position holding a value no greater than every element holds the minimum. */
  lemma MinimumAttained(s: seq<real>, r: nat)
    requires r < |s| && forall i :: 0 <= i < |s| ==> s[r] <= s[i]
    ensures s[r] == Minimum(s)
  {
  }
}
