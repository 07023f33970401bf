/** Searching, removing and inserting by position. */
module Sequences {

  /** The first position of `x`, or the length when it is absent. */
  function Find<T(==)>(s: seq<T>, x: T): (i: nat)
    ensures i <= |s|
    ensures i < |s| ==> s[i] == x
    ensures x !in s[..i]
    ensures i < |s| <==> x in s
  {
    if s == [] || s[0] == x then 0
    else
      assert s == [s[0]] + s[1..];
      1 + Find(s[1..], x)
  }

  lemma {:induction false} FirstFound<T>(s: seq<T>, x: T, j: nat)
    requires j < |s| && s[j] == x && forall i :: 0 <= i < j ==> s[i] != x
    ensures Find(s, x) == j
  {
    assert x !in s[..j];
    assert s[j] in s;
    assert Find(s, x) <= j;
  }

  function RemoveAt<T>(s: seq<T>, i: nat): (r: seq<T>)
    requires i < |s|
    ensures |r| == |s| - 1
    ensures forall j :: 0 <= j < i ==> r[j] == s[j]
    ensures forall j :: i <= j < |r| ==> r[j] == s[j + 1]
  {
    s[..i] + s[i + 1..]
  }

  function InsertAt<T>(s: seq<T>, i: nat, x: T): (r: seq<T>)
    requires i <= |s|
    ensures |r| == |s| + 1
    ensures r[i] == x
    ensures forall j :: 0 <= j < i ==> r[j] == s[j]
    ensures forall j :: i < j < |r| ==> r[j] == s[j - 1]
  {
    s[..i] + [x] + s[i..]
  }

  ghost predicate Distinct<T>(s: seq<T>) {
    forall i, j :: 0 <= i < j < |s| ==> s[i] != s[j]
  }

  lemma DistinctInsert<T>(s: seq<T>, i: nat, x: T)
    requires i <= |s| && Distinct(s) && x !in s
    ensures Distinct(InsertAt(s, i, x))
  {}

  lemma DistinctRemove<T>(s: seq<T>, i: nat)
    requires i < |s| && Distinct(s)
    ensures Distinct(RemoveAt(s, i))
  {}

  /** Moving the last element into the place of the first drops the first. */
  lemma LastToFront<T>(h: seq<T>, g: seq<T>)
    requires |h| > 1 && g == h[..|h| - 1][0 := h[|h| - 1]]
    ensures multiset(h) == multiset{h[0]} + multiset(g)
  {
    var mid, last := h[1..|h| - 1], h[|h| - 1];
    assert h == [h[0]] + (mid + [last]);
    assert g == [last] + mid;
    assert multiset(mid + [last]) == multiset([last] + mid);
  }
}
