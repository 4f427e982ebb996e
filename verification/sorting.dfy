/**
 Ordering of real sequences: the ascending sort applied to the raw eigenvalues
 when a trim report is created, and reused for column medians.
 */
module Sorting {

  predicate Sorted(s: seq<real>)
  {
    forall i, j :: 0 <= i < j < |s| ==> s[i] <= s[j]
  }

  /** No two eigenvalues coincide: the spectrum the trim bookkeeping assumes. */
  predicate StrictlySorted(s: seq<real>)
  {
    forall i, j :: 0 <= i < j < |s| ==> s[i] < s[j]
  }

  /** Inserts `x` into the sorted sequence `s` at its ordered position. */
  function Insert(x: real, s: seq<real>): (r: seq<real>)
    requires Sorted(s)
    ensures Sorted(r)
    ensures multiset(r) == multiset(s) + multiset{x}
    ensures |r| == |s| + 1
    decreases |s|
  {
    if |s| == 0 then [x]
    else if x <= s[0] then [x] + s
    else
      var t := Insert(x, s[1..]);
      InsertStep(x, s, t);
      [s[0]] + t
  }

  /** A lower bound of every element of `u` bounds every element of a permutation of `u`. */
  lemma LowerBound(b: real, t: seq<real>, u: seq<real>)
    requires multiset(t) == multiset(u)
    requires forall i :: 0 <= i < |u| ==> b <= u[i]
    ensures forall i :: 0 <= i < |t| ==> b <= t[i]
  {
    forall i | 0 <= i < |t|
      ensures b <= t[i]
    {
      assert t[i] in multiset(u);
    }
  }

  /** The recursive case of `Insert`: `s[0]` goes in front of the insertion into the tail. */
  lemma InsertStep(x: real, s: seq<real>, t: seq<real>)
    requires Sorted(s) && |s| > 0 && s[0] < x
    requires multiset(t) == multiset(s[1..]) + multiset{x}
    ensures forall i :: 0 <= i < |t| ==> s[0] <= t[i]
    ensures multiset([s[0]] + t) == multiset(s) + multiset{x}
  {
    assert s == [s[0]] + s[1..];
    LowerBound(s[0], t, s[1..] + [x]);
  }

  /** Ascending sort: a sorted permutation of `s`. */
  function Sort(s: seq<real>): (r: seq<real>)
    ensures Sorted(r)
    ensures multiset(r) == multiset(s)
    ensures |r| == |s|
    decreases |s|
  {
    if |s| == 0 then []
    else
      assert s == [s[0]] + s[1..];
      Insert(s[0], Sort(s[1..]))
  }
}
