/** Python's sorted() on distinct offsets. */
module Sorting {
  ghost predicate Distinct(s: seq<nat>) {
    forall i, j :: 0 <= i < j < |s| ==> s[i] != s[j]
  }

  ghost predicate Ascending(s: seq<nat>) {
    forall i, j :: 0 <= i < j < |s| ==> s[i] < s[j]
  }

  function Insert(x: nat, s: seq<nat>): (r: seq<nat>)
    requires Ascending(s) && x !in s
    ensures Ascending(r) && |r| == |s| + 1 && forall y :: y in r <==> y == x || y in s
  {
    if s == [] then [x]
    else
      assert s == [s[0]] + s[1..];
      Prepend(s[0], s[1..]);
      if x < s[0] then
        Prepend(x, s);
        [x] + s
      else
        var tail := Insert(x, s[1..]);
        Prepend(s[0], tail);
        [s[0]] + tail
  }

  lemma Prepend(x: nat, s: seq<nat>)
    ensures forall y :: y in [x] + s <==> y == x || y in s
    ensures Ascending([x] + s) <==> Ascending(s) && forall y :: y in s ==> x < y
  {
    if Ascending([x] + s) {
      TailAscends(x, s);
    }
    if Ascending(s) && forall y :: y in s ==> x < y {
      var r := [x] + s;
      forall i, j | 0 <= i < j < |r|
        ensures r[i] < r[j]
      {
        assert r[j] == s[j - 1] && s[j - 1] in s && (i > 0 ==> r[i] == s[i - 1]);
      }
    }
  }

  lemma TailAscends(x: nat, s: seq<nat>)
    requires Ascending([x] + s)
    ensures Ascending(s) && forall y :: y in s ==> x < y
  {
    var r := [x] + s;
    forall i, j | 0 <= i < j < |s|
      ensures s[i] < s[j]
    {
      assert r[i + 1] < r[j + 1];
    }
    forall k | 0 <= k < |s|
      ensures x < s[k]
    {
      assert r[0] < r[k + 1];
    }
  }

  function Sorted(s: seq<nat>): (r: seq<nat>)
    requires Distinct(s)
    ensures Ascending(r) && |r| == |s| && forall y :: y in r <==> y in s
  {
    if s == [] then []
    else
      assert s == [s[0]] + s[1..];
      Insert(s[0], Sorted(s[1..]))
  }
}
