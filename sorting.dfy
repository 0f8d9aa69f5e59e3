/** Index-preserving sorts: pandas' sort_values on a slice of the hourly table, seen as a
    reordering of the original hour indices by one column. Equal keys keep their original
    relative order in this model; the source's sort leaves the order of ties unspecified. */
module Sorting {

  /** Key order used by an ascending (descending = false) or descending sort. */
  predicate InOrder(a: real, b: real, descending: bool)
  {
    if descending then a >= b else a <= b
  }

  /** a goes strictly before b. */
  predicate Precedes(a: real, b: real, descending: bool)
  {
    if descending then a > b else a < b
  }

  predicate IndicesIn(s: seq<nat>, n: nat)
  {
    forall k :: 0 <= k < |s| ==> s[k] < n
  }

  /** Adjacent elements of s are in key order. */
  predicate SortedBy(s: seq<nat>, key: seq<real>, descending: bool)
    requires IndicesIn(s, |key|)
  {
    forall k :: 0 <= k < |s| - 1 ==> InOrder(key[s[k]], key[s[k + 1]], descending)
  }

  /** Insert x after every element that it does not strictly precede. */
  function Insert(x: nat, s: seq<nat>, key: seq<real>, descending: bool): seq<nat>
    decreases |s|
  {
    if s == [] then [x]
    else if x < |key| && s[0] < |key| && Precedes(key[x], key[s[0]], descending) then [x] + s
    else [s[0]] + Insert(x, s[1..], key, descending)
  }

  /** Insert adds x to the multiset of s; the first element is x or the old first. */
  lemma {:induction false} InsertCounts(x: nat, s: seq<nat>, key: seq<real>, descending: bool)
    ensures multiset(Insert(x, s, key, descending)) == multiset(s) + multiset{x}
    ensures |Insert(x, s, key, descending)| == |s| + 1
    ensures Insert(x, s, key, descending)[0] == x || Insert(x, s, key, descending)[0] == s[0]
    decreases |s|
  {
    if s != [] && !(x < |key| && s[0] < |key| && Precedes(key[x], key[s[0]], descending)) {
      InsertCounts(x, s[1..], key, descending);
      assert s == [s[0]] + s[1..];
    }
  }

  /** Insert adds x and nothing else. */
  lemma InsertMembers(x: nat, s: seq<nat>, key: seq<real>, descending: bool)
    ensures |Insert(x, s, key, descending)| == |s| + 1
    ensures forall y :: y in Insert(x, s, key, descending) <==> y == x || y in s
  {
    InsertCounts(x, s, key, descending);
    var r := Insert(x, s, key, descending);
    forall y
      ensures y in r <==> y == x || y in s
    {
      assert y in r <==> y in multiset(r);
      assert y in s <==> y in multiset(s);
    }
  }

  /** Inserting into a sorted list keeps it sorted. */
  lemma {:induction false} InsertSorted(x: nat, s: seq<nat>, key: seq<real>, descending: bool)
    requires x < |key| && IndicesIn(s, |key|)
    requires SortedBy(s, key, descending)
    ensures IndicesIn(Insert(x, s, key, descending), |key|)
    ensures SortedBy(Insert(x, s, key, descending), key, descending)
    decreases |s|
  {
    InsertMembers(x, s, key, descending);
    if s != [] && !Precedes(key[x], key[s[0]], descending) {
      var tail := s[1..];
      assert SortedBy(tail, key, descending) by {
        forall k | 0 <= k < |tail| - 1
          ensures InOrder(key[tail[k]], key[tail[k + 1]], descending)
        {
          assert tail[k] == s[k + 1] && tail[k + 1] == s[k + 2];
        }
      }
      InsertSorted(x, tail, key, descending);
      InsertCounts(x, tail, key, descending);
      var rest := Insert(x, tail, key, descending);
      var r := [s[0]] + rest;
      assert r == Insert(x, s, key, descending);
      assert InOrder(key[s[0]], key[rest[0]], descending);
      forall k | 0 <= k < |r| - 1
        ensures InOrder(key[r[k]], key[r[k + 1]], descending)
      {
        if k > 0 {
          assert r[k] == rest[k - 1] && r[k + 1] == rest[k];
        }
      }
    }
  }

  /** The hour indices of s reordered by their key: what sort_values(...).index yields. */
  function SortBy(s: seq<nat>, key: seq<real>, descending: bool): (r: seq<nat>)
    requires IndicesIn(s, |key|)
    ensures |r| == |s| && IndicesIn(r, |key|)
    ensures forall k :: 0 <= k < |r| ==> r[k] in s
  {
    if s == [] then []
    else
      var last := |s| - 1;
      assert s == s[..last] + [s[last]];
      var sorted := SortBy(s[..last], key, descending);
      InsertMembers(s[last], sorted, key, descending);
      var r := Insert(s[last], sorted, key, descending);
      assert forall k :: 0 <= k < |r| ==> r[k] in r;
      assert forall y :: y in sorted ==> y in s[..last];
      r
  }

  /** sort_values(...).index is a permutation of the hours it sorts, in key order. */
  lemma {:induction false} SortByMeaning(s: seq<nat>, key: seq<real>, descending: bool)
    requires IndicesIn(s, |key|)
    ensures multiset(SortBy(s, key, descending)) == multiset(s)
    ensures SortedBy(SortBy(s, key, descending), key, descending)
    decreases |s|
  {
    if s != [] {
      var last := |s| - 1;
      assert s == s[..last] + [s[last]];
      SortByMeaning(s[..last], key, descending);
      InsertCounts(s[last], SortBy(s[..last], key, descending), key, descending);
      InsertSorted(s[last], SortBy(s[..last], key, descending), key, descending);
    }
  }

  /** Every index of s survives sorting. */
  lemma SortByKeeps(s: seq<nat>, key: seq<real>, descending: bool, x: nat)
    requires IndicesIn(s, |key|) && x in s
    ensures x in SortBy(s, key, descending)
  {
    SortByMeaning(s, key, descending);
    assert x in multiset(s);
  }

  /** Sorting keeps the indices inside any range that held them all. */
  lemma SortByWithin(s: seq<nat>, key: seq<real>, descending: bool, lo: nat, hi: nat)
    requires IndicesIn(s, |key|)
    requires forall j :: 0 <= j < |s| ==> lo <= s[j] < hi
    ensures forall j :: 0 <= j < |SortBy(s, key, descending)| ==> lo <= SortBy(s, key, descending)[j] < hi
  {
    var r := SortBy(s, key, descending);
    forall j | 0 <= j < |r|
      ensures lo <= r[j] < hi
    {
      var i :| 0 <= i < |s| && s[i] == r[j];
    }
  }

  /** The indices lo, lo + 1, ..., hi - 1. */
  function Range(lo: nat, hi: nat): (r: seq<nat>)
    ensures |r| == if lo <= hi then hi - lo else 0
    ensures forall k :: 0 <= k < |r| ==> r[k] == lo + k
    ensures forall x :: x in r <==> lo <= x < hi
    decreases hi - lo
  {
    if lo >= hi then [] else [lo] + Range(lo + 1, hi)
  }
}
