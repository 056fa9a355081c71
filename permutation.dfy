/**
 * Label shuffling (src/popconn/permute/permutation.py). The random generator is
 * replaced by its draws: numpy shuffles by Fisher-Yates, walking i from n-1 down
 * to 1 and swapping position i with a drawn position j in [0, i]. The draws for
 * one shuffle are d[0], d[1], ... for i = n-1, n-2, ...; any such draws are allowed,
 * and every rearrangement of the input is reached by some of them.
 */
module Permutation {
  import opened Frames

  /** d holds one Fisher-Yates draw per position n-1 down to 1, each within range. */
  predicate ValidDraws(n: nat, d: seq<nat>)
  {
    |d| == (if n == 0 then 0 else n - 1) &&
    forall k :: 0 <= k < |d| ==> d[k] < n - k
  }

  function Swap<T>(s: seq<T>, i: nat, j: nat): (r: seq<T>)
    requires i < |s| && j < |s|
    ensures |r| == |s| && multiset(r) == multiset(s)
    ensures r[i] == s[j] && r[j] == s[i]
    ensures forall k :: 0 <= k < |s| && k != i && k != j ==> r[k] == s[k]
  {
    s[i := s[j]][j := s[i]]
  }

  /** The rearrangement of s that the draws d produce. */
  function Shuffle<T>(s: seq<T>, d: seq<nat>): (r: seq<T>)
    requires ValidDraws(|s|, d)
    ensures |r| == |s|
    ensures multiset(r) == multiset(s)
    decreases |s|
  {
    if |s| <= 1 then s
    else
      var n := |s|;
      var t := Swap(s, d[0], n - 1);
      assert t == t[..n - 1] + [t[n - 1]];
      Shuffle(t[..n - 1], d[1..]) + [t[n - 1]]
  }

  /** A sequence is its prefix plus its last element; a separate lemma keeps callers' proofs small. */
  lemma DropLast<T>(x: seq<T>)
    requires x != []
    ensures x == x[..|x| - 1] + [x[|x| - 1]]
  {
  }

  lemma DropLastMultiset<T>(x: seq<T>)
    requires x != []
    ensures multiset(x) == multiset(x[..|x| - 1]) + multiset{x[|x| - 1]}
  {
    DropLast(x);
  }

  lemma SameLastSamePrefixMultiset<T>(u: seq<T>, t: seq<T>)
    requires |u| == |t| > 0 && multiset(u) == multiset(t) && u[|u| - 1] == t[|t| - 1]
    ensures multiset(u[..|u| - 1]) == multiset(t[..|t| - 1])
  {
    var x := u[|u| - 1];
    var a := multiset(u[..|u| - 1]);
    var b := multiset(t[..|t| - 1]);
    DropLastMultiset(u);
    DropLastMultiset(t);
    assert a + multiset{x} == b + multiset{x};
    assert a == (a + multiset{x}) - multiset{x};
    assert b == (b + multiset{x}) - multiset{x};
  }

  lemma MultisetLength<T>(s: seq<T>, t: seq<T>)
    requires multiset(t) == multiset(s)
    ensures |t| == |s|
  {
    assert |multiset(t)| == |multiset(s)|;
  }

  /** One Fisher-Yates step: the draw j puts s[j] last, and the rest is shuffled by the remaining draws. */
  lemma ShuffleStep<T>(s: seq<T>, j: nat, d': seq<nat>)
    requires |s| > 1 && j < |s| && ValidDraws(|s| - 1, d')
    ensures ValidDraws(|s|, [j] + d')
    ensures Shuffle(s, [j] + d') == Shuffle(Swap(s, j, |s| - 1)[..|s| - 1], d') + [s[j]]
  {
    var d := [j] + d';
    assert d[1..] == d';
  }

  /** The top draw j, followed by draws that arrange the rest, arranges the whole. */
  lemma DrawsForStep<T>(s: seq<T>, t: seq<T>, j: nat, d': seq<nat>)
    requires |s| == |t| > 1 && j < |s| && s[j] == t[|t| - 1]
    requires ValidDraws(|s| - 1, d') && Shuffle(Swap(s, j, |s| - 1)[..|s| - 1], d') == t[..|t| - 1]
    ensures ValidDraws(|s|, [j] + d') && Shuffle(s, [j] + d') == t
  {
    ShuffleStep(s, j, d');
    DropLast(t);
  }

  /** Lists with the same single member are equal. */
  lemma SingletonsEqual<T>(s: seq<T>, t: seq<T>)
    requires |s| == 1 && multiset(t) == multiset(s)
    ensures t == s
  {
    assert t[0] in multiset(s);
  }

  /** A first draw that brings t's last element to the top, leaving the same elements below it. */
  lemma TopDraw<T>(s: seq<T>, t: seq<T>) returns (j: nat)
    requires |s| == |t| > 1 && multiset(t) == multiset(s)
    ensures j < |s| && s[j] == t[|t| - 1]
    ensures multiset(Swap(s, j, |s| - 1)[..|s| - 1]) == multiset(t[..|t| - 1])
  {
    DropLastMultiset(t);
    assert t[|t| - 1] in multiset(s);
    j :| 0 <= j < |s| && s[j] == t[|t| - 1];
    SameLastSamePrefixMultiset(Swap(s, j, |s| - 1), t);
  }

  /** Draws that rearrange s into t, built position by position from the top. */
  lemma {:induction false} DrawsFor<T>(s: seq<T>, t: seq<T>) returns (d: seq<nat>)
    requires multiset(t) == multiset(s)
    ensures ValidDraws(|s|, d) && Shuffle(s, d) == t
    decreases |s|
  {
    MultisetLength(s, t);
    d := [];
    if |s| == 1 {
      SingletonsEqual(s, t);
    } else if |s| > 1 {
      var j := TopDraw(s, t);
      var d' := DrawsFor(Swap(s, j, |s| - 1)[..|s| - 1], t[..|t| - 1]);
      DrawsForStep(s, t, j, d');
      d := [j] + d';
    }
  }

  /** Every rearrangement of s is the outcome of some draws: the model leaves the permutation arbitrary. */
  lemma ShuffleReachesEveryRearrangement<T>(s: seq<T>, t: seq<T>)
    requires multiset(t) == multiset(s)
    ensures exists d :: ValidDraws(|s|, d) && Shuffle(s, d) == t
  {
    var d := DrawsFor(s, t);
  }

  /** A long-format frame with its row index. */
  datatype LongFrame = LongFrame(index: seq<int>, rows: seq<Observation>)

  /** A pandas Series: values on an index. */
  datatype Series = Series(index: seq<int>, values: seq<string>)

  /** permute_labels: a new Series holding a rearrangement of the group column, on the frame's own index. */
  function PermuteLabels(df: LongFrame, draws: seq<nat>): (r: Series)
    requires |df.index| == |df.rows|
    requires ValidDraws(|df.rows|, draws)
    ensures r.index == df.index
    ensures |r.values| == |df.rows|
    ensures multiset(r.values) == multiset(Labels(df.rows))
  {
    Series(df.index, Shuffle(Labels(df.rows), draws))
  }

  /** Conversely every rearrangement of the group column is a possible result of permute_labels. */
  lemma PermuteLabelsReachesEveryRearrangement(df: LongFrame, labels: seq<string>)
    requires |df.index| == |df.rows|
    requires multiset(labels) == multiset(Labels(df.rows))
    ensures exists draws :: ValidDraws(|df.rows|, draws) && PermuteLabels(df, draws).values == labels
  {
    ShuffleReachesEveryRearrangement(Labels(df.rows), labels);
  }
}
