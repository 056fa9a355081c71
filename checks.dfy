/**
 * The distinct-values rule of src/popconn/utils/checks.py: a comparison needs a
 * group column with exactly two distinct labels, reported in first-seen order.
 */
module Checks {
  import opened Wrappers
  import opened Frames

  predicate NoDuplicates<T(==)>(s: seq<T>)
  {
    forall i, j :: 0 <= i < j < |s| ==> s[i] != s[j]
  }

  /** The distinct values of s in order of first appearance, as pandas' `unique` returns them. */
  function Unique<T(==,!new)>(s: seq<T>): (u: seq<T>)
    ensures NoDuplicates(u)
    ensures forall x :: x in u <==> x in s
    decreases |s|
  {
    if s == [] then []
    else
      var p := Unique(s[..|s| - 1]);
      var last := s[|s| - 1];
      assert s == s[..|s| - 1] + [last];
      if last in p then p else p + [last]
  }

  /** The position where x first occurs in s. */
  function FirstIndex<T(==,!new)>(s: seq<T>, x: T): (k: nat)
    requires x in s
    ensures k < |s| && s[k] == x
    ensures forall j :: 0 <= j < k ==> s[j] != x
    decreases |s|
  {
    assert s == s[..|s| - 1] + [s[|s| - 1]];
    if x in s[..|s| - 1] then FirstIndex(s[..|s| - 1], x) else |s| - 1
  }

  /** Unique lists the values in the order in which they first occur. */
  lemma {:induction false} UniqueInFirstSeenOrder<T(!new)>(s: seq<T>)
    ensures forall i, j :: 0 <= i < j < |Unique(s)| ==> FirstIndex(s, Unique(s)[i]) < FirstIndex(s, Unique(s)[j])
    decreases |s|
  {
    if s != [] {
      var prefix := s[..|s| - 1];
      UniqueInFirstSeenOrder(prefix);
      var p := Unique(prefix);
      assert forall x :: x in prefix ==> FirstIndex(s, x) == FirstIndex(prefix, x) < |prefix|;
    }
  }

  lemma {:induction false} NoDuplicatesCardinality<T>(u: seq<T>)
    requires NoDuplicates(u)
    ensures |set x | x in u| == |u|
    decreases |u|
  {
    if u != [] {
      var p := u[..|u| - 1];
      NoDuplicatesCardinality(p);
      assert u == p + [u[|u| - 1]];
      assert (set x | x in u) == (set x | x in p) + {u[|u| - 1]};
    }
  }

  /** Unique returns exactly as many values as s has distinct values. */
  lemma DistinctCount<T(!new)>(s: seq<T>)
    ensures |Unique(s)| == |set x | x in s|
  {
    NoDuplicatesCardinality(Unique(s));
    assert (set x | x in Unique(s)) == (set x | x in s);
  }

  /** validate_two_group_comparison: the two group labels, or an error unless there are exactly two. */
  function ValidateTwoGroupComparison(column: seq<string>): (r: Result<seq<string>, Error>)
    ensures r.Failure? <==> |set x | x in column| != 2
    ensures r.Failure? ==> r.error == TwoGroupsRequired
    ensures r.Success? ==> |r.value| == 2 && r.value[0] != r.value[1]
    ensures r.Success? ==> forall x :: x in column <==> x == r.value[0] || x == r.value[1]
    ensures r.Success? ==> FirstIndex(column, r.value[0]) < FirstIndex(column, r.value[1])
  {
    var groups := Unique(column);
    DistinctCount(column);
    UniqueInFirstSeenOrder(column);
    if |groups| != 2 then Failure(TwoGroupsRequired) else Success(groups)
  }
}
