/**
 First- and last-occurrence search over a sequence, as the trim code uses it
 both on the detector's boolean labels and on the sorted spectrum.
 The helper module that defines these searches is not part of this model; the
 model assumes a linear scan that answers -1 when the value does not occur.
 */
module Search {

  /** Index of the first occurrence of `v` in `s`, or -1 when `v` does not occur. */
  function FindFirst<T(==)>(s: seq<T>, v: T): (r: int)
    ensures -1 <= r < |s|
    ensures r == -1 <==> v !in s
    ensures 0 <= r ==> s[r] == v && forall i :: 0 <= i < r ==> s[i] != v
    decreases |s|
  {
    if |s| == 0 then -1
    else if s[0] == v then 0
    else
      var k := FindFirst(s[1..], v);
      if k == -1 then -1 else k + 1
  }

  /** Index of the last occurrence of `v` in `s`, or -1 when `v` does not occur. */
  function FindLast<T(==)>(s: seq<T>, v: T): (r: int)
    ensures -1 <= r < |s|
    ensures r == -1 <==> v !in s
    ensures 0 <= r ==> s[r] == v && forall i :: r < i < |s| ==> s[i] != v
    decreases |s|
  {
    if |s| == 0 then -1
    else if s[|s| - 1] == v then |s| - 1
    else FindLast(s[..|s| - 1], v)
  }
}
