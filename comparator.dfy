/**
 * GroupComparator of src/popconn/stats/comparator.py: a two-group permutation
 * test on long-format data. The observed statistic compares the correlation
 * matrices of the two groups; each trial shuffles the per-subject group labels,
 * recomputes the statistic, and the p-value of an entry is the share of trials
 * whose statistic is at least as large in absolute value as the observed one.
 * The random generator is replaced by the Fisher-Yates draws of each trial.
 */
module Comparator {
  import opened Wrappers
  import opened Frames
  import opened Checks
  import opened Permutation
  import opened Metrics
  import opened Core
  import opened StringOrder

  // ---------------------------------------------------------------------------
  // Splitting the data by group label
  // ---------------------------------------------------------------------------

  /** data[data[group_col] == label]: the rows carrying that label, in their original order. */
  function Filter(rows: seq<Observation>, wanted: string): (r: seq<Observation>)
    ensures forall o :: o in r <==> o in rows && o.group == wanted
    ensures |r| <= |rows|
    decreases |rows|
  {
    if rows == [] then []
    else
      assert forall o :: o in rows <==> o == rows[0] || o in rows[1..];
      (if rows[0].group == wanted then [rows[0]] else []) + Filter(rows[1..], wanted)
  }

  /** rows is xs and ys shuffled together without reordering either: every row comes from exactly one of them. */
  predicate Interleaves(rows: seq<Observation>, xs: seq<Observation>, ys: seq<Observation>)
    decreases |rows|
  {
    if rows == [] then xs == [] && ys == []
    else
      (xs != [] && xs[0] == rows[0] && Interleaves(rows[1..], xs[1..], ys)) ||
      (ys != [] && ys[0] == rows[0] && Interleaves(rows[1..], xs, ys[1..]))
  }

  lemma {:induction false} InterleavesMultiset(rows: seq<Observation>, xs: seq<Observation>, ys: seq<Observation>)
    requires Interleaves(rows, xs, ys)
    ensures multiset(rows) == multiset(xs) + multiset(ys)
    decreases |rows|
  {
    if rows != [] {
      assert rows == [rows[0]] + rows[1..];
      if xs != [] && xs[0] == rows[0] && Interleaves(rows[1..], xs[1..], ys) {
        InterleavesMultiset(rows[1..], xs[1..], ys);
        assert xs == [xs[0]] + xs[1..];
      } else {
        InterleavesMultiset(rows[1..], xs, ys[1..]);
        assert ys == [ys[0]] + ys[1..];
      }
    }
  }

  /**
   * When every row carries one of two different labels, the two filtered groups
   * split the rows between them, each keeping the rows' relative order.
   */
  lemma {:induction false} SplitInterleaves(rows: seq<Observation>, a: string, b: string)
    requires a != b
    requires forall o :: o in rows ==> o.group == a || o.group == b
    ensures Interleaves(rows, Filter(rows, a), Filter(rows, b))
    ensures multiset(rows) == multiset(Filter(rows, a)) + multiset(Filter(rows, b))
    decreases |rows|
  {
    var fa, fb := Filter(rows, a), Filter(rows, b);
    if rows != [] {
      assert forall o :: o in rows[1..] ==> o in rows;
      SplitInterleaves(rows[1..], a, b);
      assert rows[0] in rows;
      if rows[0].group == a {
        assert fa == [rows[0]] + Filter(rows[1..], a);
        assert fa[0] == rows[0] && fa[1..] == Filter(rows[1..], a);
        assert fb == Filter(rows[1..], b);
      } else {
        assert fb == [rows[0]] + Filter(rows[1..], b);
        assert fb[0] == rows[0] && fb[1..] == Filter(rows[1..], b);
        assert fa == Filter(rows[1..], a);
      }
    }
    InterleavesMultiset(rows, fa, fb);
  }

  /** Filtering keeps (subject, region) keys unique. */
  lemma {:induction false} FilterKeepsUniqueKeys(rows: seq<Observation>, wanted: string)
    requires UniqueKeys(rows)
    ensures UniqueKeys(Filter(rows, wanted))
    decreases |rows|
  {
    if rows != [] {
      FilterKeepsUniqueKeys(rows[1..], wanted);
      var rest := Filter(rows[1..], wanted);
      assert KeySet(rest) <= KeySet(rows[1..]);
      var f := Filter(rows, wanted);
      if rows[0].group == wanted {
        assert f == [rows[0]] + rest;
        assert f[0] == rows[0] && f[1..] == rest;
        assert Key(rows[0]) !in KeySet(rest);
      } else {
        assert f == rest;
      }
    }
  }

  /** Filtering keeps each row carrying the label as often as it occurs, and drops the others. */
  lemma {:induction false} FilterCount(rows: seq<Observation>, wanted: string, o: Observation)
    ensures multiset(Filter(rows, wanted))[o] == if o.group == wanted then multiset(rows)[o] else 0
    decreases |rows|
  {
    if rows != [] {
      FilterCount(rows[1..], wanted, o);
      assert rows == [rows[0]] + rows[1..];
    }
  }

  /** Rows that are rearrangements of each other have groups that are rearrangements of each other. */
  lemma FilterKeepsMultisets(rows1: seq<Observation>, rows2: seq<Observation>, wanted: string)
    requires multiset(rows1) == multiset(rows2)
    ensures multiset(Filter(rows1, wanted)) == multiset(Filter(rows2, wanted))
  {
    forall o ensures multiset(Filter(rows1, wanted))[o] == multiset(Filter(rows2, wanted))[o] {
      FilterCount(rows1, wanted, o);
      FilterCount(rows2, wanted, o);
    }
  }

  // ---------------------------------------------------------------------------
  // Per-subject labels and their permutation
  // ---------------------------------------------------------------------------

  /** A row of the (subject, group) table. */
  datatype SubjectLabel = SubjectLabel(subject: string, group: string)

  function Pairs(rows: seq<Observation>): (p: seq<SubjectLabel>)
    ensures |p| == |rows|
  {
    seq(|rows|, i requires 0 <= i < |rows| => SubjectLabel(rows[i].subject, rows[i].group))
  }

  function SubjectsOf(labels: seq<SubjectLabel>): (s: seq<string>)
    ensures |s| == |labels|
  {
    seq(|labels|, i requires 0 <= i < |labels| => labels[i].subject)
  }

  function GroupsOf(labels: seq<SubjectLabel>): (g: seq<string>)
    ensures |g| == |labels|
  {
    seq(|labels|, i requires 0 <= i < |labels| => labels[i].group)
  }

  /**
   * data[[subject_col, group_col]].drop_duplicates(): each distinct
   * (subject, group) pair once, in order of first appearance.
   */
  function SubjectLabels(rows: seq<Observation>): (u: seq<SubjectLabel>)
    ensures NoDuplicates(u)
    ensures forall p :: p in u <==> p in Pairs(rows)
  {
    Unique(Pairs(rows))
  }

  /** Every subject carries a single group label on all of its rows. */
  predicate Consistent(rows: seq<Observation>)
  {
    forall i, j :: 0 <= i < |rows| && 0 <= j < |rows| && rows[i].subject == rows[j].subject ==>
      rows[i].group == rows[j].group
  }

  predicate DistinctSubjects(labels: seq<SubjectLabel>)
  {
    forall p, q :: 0 <= p < |labels| && 0 <= q < |labels| && labels[p].subject == labels[q].subject ==> p == q
  }

  /** With consistent labels the subject table lists every subject of the data exactly once, with its label. */
  lemma ConsistentSubjectLabels(rows: seq<Observation>)
    requires Consistent(rows)
    ensures DistinctSubjects(SubjectLabels(rows))
    ensures forall o :: o in rows ==> SubjectLabel(o.subject, o.group) in SubjectLabels(rows)
    ensures forall o :: o in rows ==> o.subject in SubjectsOf(SubjectLabels(rows))
  {
    var u := SubjectLabels(rows);
    forall p, q | 0 <= p < |u| && 0 <= q < |u| && u[p].subject == u[q].subject
      ensures p == q
    {
      assert u[p] in Pairs(rows) && u[q] in Pairs(rows);
      var i :| 0 <= i < |rows| && Pairs(rows)[i] == u[p];
      var j :| 0 <= j < |rows| && Pairs(rows)[j] == u[q];
      assert u[p] == u[q];
    }
    forall o | o in rows
      ensures SubjectLabel(o.subject, o.group) in u && o.subject in SubjectsOf(u)
    {
      var i :| 0 <= i < |rows| && rows[i] == o;
      assert Pairs(rows)[i] == SubjectLabel(o.subject, o.group);
      assert Pairs(rows)[i] in Pairs(rows);
      var p :| 0 <= p < |u| && u[p] == SubjectLabel(o.subject, o.group);
      assert SubjectsOf(u)[p] == o.subject;
    }
  }

  /** The subject table labels with its group column replaced by g. */
  function Relabel(labels: seq<SubjectLabel>, g: seq<string>): (r: seq<SubjectLabel>)
    requires |g| == |labels|
    ensures |r| == |labels|
    ensures SubjectsOf(r) == SubjectsOf(labels) && GroupsOf(r) == g
  {
    var r := seq(|labels|, i requires 0 <= i < |labels| => SubjectLabel(labels[i].subject, g[i]));
    assert GroupsOf(r) == g;
    r
  }

  /**
   * _permutation_subject_labels: a copy of the subject table whose group column
   * is replaced by the rearrangement of that column that the draws d produce.
   */
  function PermutedSubjectLabels(rows: seq<Observation>, d: seq<nat>): (r: seq<SubjectLabel>)
    requires ValidDraws(|SubjectLabels(rows)|, d)
    ensures |r| == |SubjectLabels(rows)|
    ensures SubjectsOf(r) == SubjectsOf(SubjectLabels(rows))
    ensures GroupsOf(r) == Shuffle(GroupsOf(SubjectLabels(rows)), d)
    ensures multiset(GroupsOf(r)) == multiset(GroupsOf(SubjectLabels(rows)))
  {
    var u := SubjectLabels(rows);
    Relabel(u, Shuffle(GroupsOf(u), d))
  }

  /** Every rearrangement of the label column is the outcome of some draws. */
  lemma PermutedLabelsReachEveryRearrangement(rows: seq<Observation>, groups: seq<string>)
    requires multiset(groups) == multiset(GroupsOf(SubjectLabels(rows)))
    ensures exists d :: ValidDraws(|SubjectLabels(rows)|, d) && GroupsOf(PermutedSubjectLabels(rows, d)) == groups
  {
    var u := SubjectLabels(rows);
    var d := DrawsFor(GroupsOf(u), groups);
    assert GroupsOf(PermutedSubjectLabels(rows, d)) == groups;
  }

  /** The label the subject table gives subject s (its first entry for s). */
  function LabelOf(labels: seq<SubjectLabel>, s: string): string
    requires s in SubjectsOf(labels)
    decreases |labels|
  {
    if labels[0].subject == s then labels[0].group
    else
      assert SubjectsOf(labels[1..]) == SubjectsOf(labels)[1..];
      LabelOf(labels[1..], s)
  }

  lemma {:induction false} LabelOfDistinct(labels: seq<SubjectLabel>, p: nat)
    requires DistinctSubjects(labels) && p < |labels|
    ensures labels[p].subject in SubjectsOf(labels)
    ensures LabelOf(labels, labels[p].subject) == labels[p].group
    decreases |labels|
  {
    assert SubjectsOf(labels)[p] == labels[p].subject;
    if p > 0 {
      assert SubjectsOf(labels[1..]) == SubjectsOf(labels)[1..];
      LabelOfDistinct(labels[1..], p - 1);
    }
  }

  // ---------------------------------------------------------------------------
  // Merging permuted labels back onto the rows
  // ---------------------------------------------------------------------------

  /** Row o, with its group replaced by each label entry for its subject, in table order. */
  function Matches(o: Observation, labels: seq<SubjectLabel>): (r: seq<Observation>)
    decreases |labels|
  {
    if labels == [] then []
    else
      (if labels[0].subject == o.subject then [o.(group := labels[0].group)] else []) + Matches(o, labels[1..])
  }

  /**
   * _get_shuffled_data: data.drop(columns=[group_col]).merge(permuted, on=subject_col),
   * an inner join on the subject, taken in the order of the data rows.
   */
  function Merge(rows: seq<Observation>, labels: seq<SubjectLabel>): (r: seq<Observation>)
    decreases |rows|
  {
    if rows == [] then [] else Matches(rows[0], labels) + Merge(rows[1..], labels)
  }

  lemma {:induction false} NoMatches(o: Observation, labels: seq<SubjectLabel>)
    requires o.subject !in SubjectsOf(labels)
    ensures Matches(o, labels) == []
    decreases |labels|
  {
    if labels != [] {
      assert SubjectsOf(labels)[0] == labels[0].subject;
      assert SubjectsOf(labels[1..]) == SubjectsOf(labels)[1..];
      NoMatches(o, labels[1..]);
    }
  }

  /** A row whose subject is listed exactly once is matched exactly once, taking that subject's label. */
  lemma {:induction false} SingleMatch(o: Observation, labels: seq<SubjectLabel>)
    requires DistinctSubjects(labels) && o.subject in SubjectsOf(labels)
    ensures Matches(o, labels) == [o.(group := LabelOf(labels, o.subject))]
    decreases |labels|
  {
    assert SubjectsOf(labels[1..]) == SubjectsOf(labels)[1..];
    if labels[0].subject == o.subject {
      forall q | 0 <= q < |labels[1..]| ensures SubjectsOf(labels[1..])[q] != o.subject {
        assert labels[1..][q] == labels[q + 1];
      }
      NoMatches(o, labels[1..]);
    } else {
      SingleMatch(o, labels[1..]);
    }
  }

  /**
   * When the subject table lists each subject of the data exactly once, the
   * merge keeps every row, in place, with its subject, region and value, and
   * gives it its subject's label from the table.
   */
  lemma {:induction false} MergeRelabels(rows: seq<Observation>, labels: seq<SubjectLabel>)
    requires DistinctSubjects(labels)
    requires forall o :: o in rows ==> o.subject in SubjectsOf(labels)
    ensures |Merge(rows, labels)| == |rows|
    ensures forall i :: 0 <= i < |rows| ==>
              rows[i].subject in SubjectsOf(labels) &&
              Merge(rows, labels)[i] == rows[i].(group := LabelOf(labels, rows[i].subject))
    decreases |rows|
  {
    if rows != [] {
      assert rows[0] in rows;
      assert forall o :: o in rows[1..] ==> o in rows;
      SingleMatch(rows[0], labels);
      MergeRelabels(rows[1..], labels);
      forall i | 0 < i < |rows| ensures rows[i] == rows[1..][i - 1] && rows[i] in rows {
      }
    }
  }

  /** Rows with the same keys position by position: unique keys carry over. */
  lemma {:induction false} SameKeysUniqueKeys(a: seq<Observation>, b: seq<Observation>)
    requires |a| == |b| && forall i :: 0 <= i < |a| ==> Key(a[i]) == Key(b[i])
    requires UniqueKeys(a)
    ensures UniqueKeys(b)
    decreases |a|
  {
    if a != [] {
      SameKeysUniqueKeys(a[1..], b[1..]);
      forall x | x in KeySet(b[1..]) ensures x in KeySet(a[1..]) {
        var o :| o in b[1..] && Key(o) == x;
        var k :| 0 <= k < |b[1..]| && b[1..][k] == o;
        assert Key(a[1..][k]) == x;
      }
    }
  }

  /**
   * The shuffled data of one trial: every row keeps its subject, region and
   * value, in place, and takes its subject's permuted label.
   */
  function ShuffledData(rows: seq<Observation>, d: seq<nat>): (r: seq<Observation>)
    requires Consistent(rows) && ValidDraws(|SubjectLabels(rows)|, d)
    ensures |r| == |rows|
    ensures forall i :: 0 <= i < |rows| ==>
              rows[i].subject in SubjectsOf(PermutedSubjectLabels(rows, d)) &&
              r[i] == rows[i].(group := LabelOf(PermutedSubjectLabels(rows, d), rows[i].subject))
    ensures UniqueKeys(rows) ==> UniqueKeys(r)
  {
    var permuted := PermutedSubjectLabels(rows, d);
    ConsistentSubjectLabels(rows);
    MergeRelabels(rows, permuted);
    var r := Merge(rows, permuted);
    if UniqueKeys(rows) then
      SameKeysUniqueKeys(rows, r);
      r
    else
      r
  }

  /** Under a shuffle, each label is carried by as many subjects as before. */
  lemma PermutationKeepsGroupSizes(rows: seq<Observation>, d: seq<nat>, wanted: string)
    requires ValidDraws(|SubjectLabels(rows)|, d)
    ensures multiset(GroupsOf(PermutedSubjectLabels(rows, d)))[wanted] == multiset(GroupsOf(SubjectLabels(rows)))[wanted]
  {
  }

  // ---------------------------------------------------------------------------
  // Statistics of the observed split and of the trials
  // ---------------------------------------------------------------------------

  /**
   * A statistic over two correlation matrices. The functions of metrics.py enter
   * as Metrics.DifferenceStatistic, FrobeniusStatistic and StrengthStatistic.
   */
  type Statistic = (Frame, Frame) -> Frame

  /** _compute_covariance as a value: the correlation matrix of a group's pivoted rows. */
  function GroupCorrelation(coef: Coefficient, rows: seq<Observation>): (m: Frame)
    requires UniqueKeys(rows)
    ensures Wf(m) && m.index == m.columns == Pivot(rows).columns
  {
    Correlation(coef, Pivot(rows))
  }

  /** The correlation matrix of the rows carrying one label. */
  function GroupMatrix(rows: seq<Observation>, wanted: string, coef: Coefficient): Frame
    requires UniqueKeys(rows)
  {
    FilterKeepsUniqueKeys(rows, wanted);
    GroupCorrelation(coef, Filter(rows, wanted))
  }

  /** The statistic of the split of rows by the two labels, first label first. */
  function SplitStatistic(rows: seq<Observation>, labels: (string, string), stat: Statistic, coef: Coefficient): Frame
    requires UniqueKeys(rows)
  {
    stat(GroupMatrix(rows, labels.0, coef), GroupMatrix(rows, labels.1, coef))
  }

  /** The statistic of a split depends only on which rows there are, not on their order. */
  lemma SplitStatisticIgnoresOrder(rows1: seq<Observation>, rows2: seq<Observation>, labels: (string, string),
                                   stat: Statistic, coef: Coefficient)
    requires UniqueKeys(rows1) && UniqueKeys(rows2) && multiset(rows1) == multiset(rows2)
    ensures SplitStatistic(rows1, labels, stat, coef) == SplitStatistic(rows2, labels, stat, coef)
  {
    GroupIgnoresOrder(rows1, rows2, labels.0);
    GroupIgnoresOrder(rows1, rows2, labels.1);
  }

  lemma GroupIgnoresOrder(rows1: seq<Observation>, rows2: seq<Observation>, wanted: string)
    requires UniqueKeys(rows1) && UniqueKeys(rows2) && multiset(rows1) == multiset(rows2)
    ensures UniqueKeys(Filter(rows1, wanted)) && UniqueKeys(Filter(rows2, wanted))
    ensures Pivot(Filter(rows1, wanted)) == Pivot(Filter(rows2, wanted))
  {
    FilterKeepsUniqueKeys(rows1, wanted);
    FilterKeepsUniqueKeys(rows2, wanted);
    FilterKeepsMultisets(rows1, rows2, wanted);
    PivotIgnoresRowOrder(Filter(rows1, wanted), Filter(rows2, wanted));
  }

  /** Two row lists that measure the same regions. */
  predicate SameRegions(rows1: seq<Observation>, rows2: seq<Observation>)
  {
    (forall g :: g in Regions(rows1) ==> g in Regions(rows2)) &&
    (forall g :: g in Regions(rows2) ==> g in Regions(rows1))
  }

  /** Groups that measure the same regions have correlation matrices with the same labels in the same order. */
  lemma SameRegionsAligned(coef: Coefficient, rows1: seq<Observation>, rows2: seq<Observation>)
    requires UniqueKeys(rows1) && UniqueKeys(rows2) && SameRegions(rows1, rows2)
    ensures Aligned(GroupCorrelation(coef, rows1), GroupCorrelation(coef, rows2))
  {
    SortedSameElementsEqual(Pivot(rows1).columns, Pivot(rows2).columns);
  }

  /**
   * When the two groups of a split measure the same regions, the metrics of
   * metrics.py applied to the split are the metrics of the two groups' matrices;
   * in particular the difference statistic is the entry-wise difference. A trial
   * is the split of its shuffled data, so this holds for trials too.
   */
  lemma MetricsOfSplit(rows: seq<Observation>, labels: (string, string), coef: Coefficient)
    requires UniqueKeys(rows) && SameRegions(Filter(rows, labels.0), Filter(rows, labels.1))
    ensures Aligned(GroupMatrix(rows, labels.0, coef), GroupMatrix(rows, labels.1, coef))
    ensures SplitStatistic(rows, labels, DifferenceStatistic, coef) ==
              CorrelationMatrixDifference(GroupMatrix(rows, labels.0, coef), GroupMatrix(rows, labels.1, coef))
    ensures SplitStatistic(rows, labels, FrobeniusStatistic, coef) ==
              FrobeniusNormDifferenceSquared(GroupMatrix(rows, labels.0, coef), GroupMatrix(rows, labels.1, coef))
    ensures SplitStatistic(rows, labels, StrengthStatistic, coef) ==
              StrengthDifference(GroupMatrix(rows, labels.0, coef), GroupMatrix(rows, labels.1, coef))
  {
    FilterKeepsUniqueKeys(rows, labels.0);
    FilterKeepsUniqueKeys(rows, labels.1);
    SameRegionsAligned(coef, Filter(rows, labels.0), Filter(rows, labels.1));
  }

  /** The statistic of one trial: the split of the data under the trial's permuted labels. */
  function TrialStatistic(rows: seq<Observation>, labels: (string, string), stat: Statistic, coef: Coefficient, d: seq<nat>): Frame
    requires Consistent(rows) && UniqueKeys(rows) && ValidDraws(|SubjectLabels(rows)|, d)
  {
    SplitStatistic(ShuffledData(rows, d), labels, stat, coef)
  }

  /** The draws that leave every position where it is. */
  function IdentityDraws(n: nat): (d: seq<nat>)
    ensures ValidDraws(n, d)
  {
    seq(if n == 0 then 0 else n - 1, k requires 0 <= k < (if n == 0 then 0 else n - 1) => n - 1 - k)
  }

  lemma {:induction false} ShuffleIdentity<T>(s: seq<T>)
    ensures Shuffle(s, IdentityDraws(|s|)) == s
    decreases |s|
  {
    if |s| > 1 {
      var n := |s|;
      var d' := IdentityDraws(n - 1);
      assert IdentityDraws(n) == [n - 1] + d';
      ShuffleStep(s, n - 1, d');
      assert Swap(s, n - 1, n - 1) == s;
      ShuffleIdentity(s[..n - 1]);
      DropLast(s);
    }
  }

  /** Draws that move nothing leave the subject table as it is. */
  lemma IdentityPermutation(rows: seq<Observation>)
    ensures PermutedSubjectLabels(rows, IdentityDraws(|SubjectLabels(rows)|)) == SubjectLabels(rows)
  {
    var u := SubjectLabels(rows);
    ShuffleIdentity(GroupsOf(u));
    var permuted := PermutedSubjectLabels(rows, IdentityDraws(|u|));
    assert forall i :: 0 <= i < |u| ==> permuted[i] == SubjectLabel(u[i].subject, GroupsOf(u)[i]);
  }

  /** Shuffling with draws that move nothing gives back the data. */
  lemma IdentityShuffledData(rows: seq<Observation>)
    requires Consistent(rows)
    ensures ShuffledData(rows, IdentityDraws(|SubjectLabels(rows)|)) == rows
  {
    var u := SubjectLabels(rows);
    IdentityPermutation(rows);
    ConsistentSubjectLabels(rows);
    var shuffled := ShuffledData(rows, IdentityDraws(|u|));
    forall i | 0 <= i < |rows| ensures shuffled[i] == rows[i] {
      assert rows[i] in rows;
      var p :| 0 <= p < |u| && u[p] == SubjectLabel(rows[i].subject, rows[i].group);
      LabelOfDistinct(u, p);
    }
  }

  /** A trial whose draws move nothing reproduces the observed statistic. */
  lemma IdentityTrialIsObserved(rows: seq<Observation>, labels: (string, string), stat: Statistic, coef: Coefficient)
    requires Consistent(rows) && UniqueKeys(rows)
    ensures TrialStatistic(rows, labels, stat, coef, IdentityDraws(|SubjectLabels(rows)|)) == SplitStatistic(rows, labels, stat, coef)
  {
    IdentityShuffledData(rows);
  }

  // ---------------------------------------------------------------------------
  // p-values
  // ---------------------------------------------------------------------------

  /** Every trial's statistic is a rows x cols matrix. */
  predicate Shaped(nulls: seq<seq<seq<real>>>, rows: nat, cols: nat)
  {
    forall k :: 0 <= k < |nulls| ==> HasShape(nulls[k], rows, cols)
  }

  /** The trials k whose entry (i, j) is at least t in absolute value. */
  function Reaching(nulls: seq<seq<seq<real>>>, i: nat, j: nat, t: real): set<nat>
    requires forall k :: 0 <= k < |nulls| ==> i < |nulls[k]| && j < |nulls[k][i]|
  {
    set k: nat | k < |nulls| && Abs(nulls[k][i][j]) >= t
  }

  /** How many trials reach t at entry (i, j). */
  function CountAtLeast(nulls: seq<seq<seq<real>>>, i: nat, j: nat, t: real): (c: nat)
    requires forall k :: 0 <= k < |nulls| ==> i < |nulls[k]| && j < |nulls[k][i]|
    ensures c == |Reaching(nulls, i, j, t)|
    ensures c <= |nulls|
    decreases |nulls|
  {
    if nulls == [] then
      assert Reaching(nulls, i, j, t) == {};
      0
    else
      var n := |nulls| - 1;
      var prefix := nulls[..n];
      var c := CountAtLeast(prefix, i, j, t);
      ReachingStep(nulls, i, j, t);
      if Abs(nulls[n][i][j]) >= t then c + 1 else c
  }

  /** The trials reaching t are those of all but the last trial, plus the last one if it reaches t. */
  lemma ReachingStep(nulls: seq<seq<seq<real>>>, i: nat, j: nat, t: real)
    requires nulls != [] && forall k :: 0 <= k < |nulls| ==> i < |nulls[k]| && j < |nulls[k][i]|
    ensures var n := |nulls| - 1;
      Reaching(nulls, i, j, t) == Reaching(nulls[..n], i, j, t) + (if Abs(nulls[n][i][j]) >= t then {n} else {})
      && n !in Reaching(nulls[..n], i, j, t)
  {
    var n := |nulls| - 1;
    assert forall k :: 0 <= k < n ==> nulls[..n][k] == nulls[k];
  }

  lemma {:induction false} CountAtLeastZero(nulls: seq<seq<seq<real>>>, i: nat, j: nat, t: real)
    requires forall k :: 0 <= k < |nulls| ==> i < |nulls[k]| && j < |nulls[k][i]|
    ensures CountAtLeast(nulls, i, j, t) == 0 <==> forall k :: 0 <= k < |nulls| ==> Abs(nulls[k][i][j]) < t
  {
    if exists k :: 0 <= k < |nulls| && Abs(nulls[k][i][j]) >= t {
      var k :| 0 <= k < |nulls| && Abs(nulls[k][i][j]) >= t;
      assert k in Reaching(nulls, i, j, t);
    }
  }

  lemma {:induction false} CountAtLeastAll(nulls: seq<seq<seq<real>>>, i: nat, j: nat, t: real)
    requires forall k :: 0 <= k < |nulls| ==> i < |nulls[k]| && j < |nulls[k][i]|
    ensures CountAtLeast(nulls, i, j, t) == |nulls| <==> forall k :: 0 <= k < |nulls| ==> Abs(nulls[k][i][j]) >= t
    decreases |nulls|
  {
    if nulls != [] {
      var n := |nulls| - 1;
      var prefix := nulls[..n];
      assert forall k :: 0 <= k < n ==> prefix[k] == nulls[k];
      CountAtLeastAll(prefix, i, j, t);
    }
  }

  /**
   * _compute_p_values: entry (i, j) is the share of trials whose statistic at
   * (i, j) is at least the observed one in absolute value.
   */
  function PValues(observed: Frame, nulls: seq<seq<seq<real>>>): (p: seq<seq<real>>)
    requires Wf(observed) && |nulls| > 0 && Shaped(nulls, |observed.index|, |observed.columns|)
    ensures HasShape(p, |observed.index|, |observed.columns|)
    ensures forall i, j :: 0 <= i < |observed.index| && 0 <= j < |observed.columns| ==>
              0.0 <= p[i][j] <= 1.0 &&
              p[i][j] == (|Reaching(nulls, i, j, Abs(observed.values[i][j]))| as real) / (|nulls| as real)
  {
    seq(|observed.index|, i requires 0 <= i < |observed.index| =>
      seq(|observed.columns|, j requires 0 <= j < |observed.columns| =>
        Fraction(CountAtLeast(nulls, i, j, Abs(observed.values[i][j])), |nulls|)))
  }

  function Fraction(c: nat, n: nat): (f: real)
    requires 0 < n && c <= n
    ensures 0.0 <= f <= 1.0
    ensures f == (c as real) / (n as real)
  {
    (c as real) / (n as real)
  }

  /** An entry's p-value is 0 exactly when no trial reaches the observed value there. */
  lemma PValueZero(observed: Frame, nulls: seq<seq<seq<real>>>, i: nat, j: nat)
    requires Wf(observed) && |nulls| > 0 && Shaped(nulls, |observed.index|, |observed.columns|)
    requires i < |observed.index| && j < |observed.columns|
    ensures PValues(observed, nulls)[i][j] == 0.0 <==>
              forall k :: 0 <= k < |nulls| ==> Abs(nulls[k][i][j]) < Abs(observed.values[i][j])
  {
    CountAtLeastZero(nulls, i, j, Abs(observed.values[i][j]));
  }

  /** An entry's p-value is 1 exactly when every trial reaches the observed value there. */
  lemma PValueOne(observed: Frame, nulls: seq<seq<seq<real>>>, i: nat, j: nat)
    requires Wf(observed) && |nulls| > 0 && Shaped(nulls, |observed.index|, |observed.columns|)
    requires i < |observed.index| && j < |observed.columns|
    ensures PValues(observed, nulls)[i][j] == 1.0 <==>
              forall k :: 0 <= k < |nulls| ==> Abs(nulls[k][i][j]) >= Abs(observed.values[i][j])
  {
    CountAtLeastAll(nulls, i, j, Abs(observed.values[i][j]));
  }

  /**
   * The test run on a squared statistic (such as the squared Frobenius distance)
   * gives the same p-values as on its non-negative square root.
   */
  lemma PValuesUnchangedBySquaring(observed: Frame, nulls: seq<seq<seq<real>>>, squared: Frame, squaredNulls: seq<seq<seq<real>>>)
    requires Wf(observed) && |nulls| > 0 && Shaped(nulls, |observed.index|, |observed.columns|)
    requires squared.index == observed.index && squared.columns == observed.columns && Wf(squared)
    requires |squaredNulls| == |nulls| && Shaped(squaredNulls, |observed.index|, |observed.columns|)
    requires forall i, j :: 0 <= i < |observed.index| && 0 <= j < |observed.columns| ==>
               observed.values[i][j] >= 0.0 && squared.values[i][j] == Square(observed.values[i][j])
    requires forall k, i, j :: 0 <= k < |nulls| && 0 <= i < |observed.index| && 0 <= j < |observed.columns| ==>
               nulls[k][i][j] >= 0.0 && squaredNulls[k][i][j] == Square(nulls[k][i][j])
    ensures PValues(squared, squaredNulls) == PValues(observed, nulls)
  {
    forall i, j | 0 <= i < |observed.index| && 0 <= j < |observed.columns|
      ensures Reaching(squaredNulls, i, j, Abs(squared.values[i][j])) == Reaching(nulls, i, j, Abs(observed.values[i][j]))
    {
      forall k | 0 <= k < |nulls|
        ensures Abs(squaredNulls[k][i][j]) >= Abs(squared.values[i][j]) <==> Abs(nulls[k][i][j]) >= Abs(observed.values[i][j])
      {
        SquareNonNegative(nulls[k][i][j]);
        SquareNonNegative(observed.values[i][j]);
        SquareMonotone(observed.values[i][j], nulls[k][i][j]);
      }
    }
    var p1, p2 := PValues(squared, squaredNulls), PValues(observed, nulls);
    assert forall i :: 0 <= i < |p1| ==> p1[i] == p2[i];
  }

  // ---------------------------------------------------------------------------
  // The trial loop and the test
  // ---------------------------------------------------------------------------

  /** range(n_permutations) runs this many times. */
  function Trials(n: int): nat
  {
    if n > 0 then n else 0
  }

  /** One valid set of Fisher-Yates draws per trial: what the random generator supplies. */
  predicate TrialDraws(rows: seq<Observation>, n: int, draws: seq<seq<nat>>)
  {
    |draws| == Trials(n) && forall t :: 0 <= t < |draws| ==> ValidDraws(|SubjectLabels(rows)|, draws[t])
  }

  /** The null distribution: the statistic of every trial, in trial order. */
  function NullDistribution(rows: seq<Observation>, labels: (string, string), stat: Statistic, coef: Coefficient,
                            n: int, draws: seq<seq<nat>>): (nulls: seq<seq<seq<real>>>)
    requires Consistent(rows) && UniqueKeys(rows) && TrialDraws(rows, n, draws)
    ensures |nulls| == Trials(n)
  {
    seq(Trials(n), t requires 0 <= t < Trials(n) => TrialStatistic(rows, labels, stat, coef, draws[t]).values)
  }

  /** The permuted subject table of every trial, in trial order. */
  function LabelHistory(rows: seq<Observation>, n: int, draws: seq<seq<nat>>): (h: seq<seq<SubjectLabel>>)
    requires TrialDraws(rows, n, draws)
    ensures |h| == Trials(n)
  {
    seq(Trials(n), t requires 0 <= t < Trials(n) => PermutedSubjectLabels(rows, draws[t]))
  }

  /** A prefix grows by one element; a separate lemma keeps the trial loop's proof small. */
  lemma PrefixStep<T>(s: seq<T>, t: nat)
    requires t < |s|
    ensures s[..t + 1] == s[..t] + [s[t]]
  {
  }

  /** What run_permutation_test returns. */
  datatype PermutationResult = PermutationResult(
    observed: Frame,
    pValues: Frame,
    nullDistributions: Option<seq<seq<seq<real>>>>,
    permutationLabels: seq<seq<SubjectLabel>>)

  class GroupComparator {
    const data: seq<Observation>
    /** The two distinct labels of the group column, in order of first appearance. */
    const groupLabels: (string, string)
    const group1Data: seq<Observation>
    const group2Data: seq<Observation>

    predicate Valid()
    {
      ValidateTwoGroupComparison(Labels(data)) == Success([groupLabels.0, groupLabels.1]) &&
      group1Data == Filter(data, groupLabels.0) && group2Data == Filter(data, groupLabels.1)
    }

    /** __init__ once the group column is known to hold exactly two labels. */
    constructor (data: seq<Observation>)
      requires ValidateTwoGroupComparison(Labels(data)).Success?
      ensures this.data == data && Valid()
    {
      var groups := ValidateTwoGroupComparison(Labels(data)).value;
      assert groups == [groups[0], groups[1]];
      this.data := data;
      groupLabels := (groups[0], groups[1]);
      group1Data := Filter(data, groups[0]);
      group2Data := Filter(data, groups[1]);
    }

    /** _compute_covariance: a CovConn over the group's long rows, and its correlation matrix. */
    method ComputeCovariance(df: seq<Observation>, coef: Coefficient) returns (m: Frame)
      requires UniqueKeys(df)
      ensures m == GroupCorrelation(coef, df)
    {
      var conn := new CovConn(LongData(df));
      m := conn.ComputeCovariance(coef);
    }

    /** _compute_observed_statistic: the statistic of the two groups as labelled. */
    method ComputeObservedStatistic(stat: Statistic, coef: Coefficient) returns (observed: Frame)
      requires Valid() && UniqueKeys(data)
      ensures observed == SplitStatistic(data, groupLabels, stat, coef)
    {
      FilterKeepsUniqueKeys(data, groupLabels.0);
      FilterKeepsUniqueKeys(data, groupLabels.1);
      var cov1 := ComputeCovariance(group1Data, coef);
      var cov2 := ComputeCovariance(group2Data, coef);
      observed := stat(cov1, cov2);
    }

    /** One pass of the trial loop: permute the labels, merge them back, and compare the new groups. */
    method Trial(stat: Statistic, coef: Coefficient, d: seq<nat>) returns (nullStat: Frame, permuted: seq<SubjectLabel>)
      requires Valid() && Consistent(data) && UniqueKeys(data) && ValidDraws(|SubjectLabels(data)|, d)
      ensures nullStat == TrialStatistic(data, groupLabels, stat, coef, d)
      ensures permuted == PermutedSubjectLabels(data, d)
    {
      permuted := PermutedSubjectLabels(data, d);
      var shuffled := Merge(data, permuted);
      assert shuffled == ShuffledData(data, d);
      FilterKeepsUniqueKeys(shuffled, groupLabels.0);
      FilterKeepsUniqueKeys(shuffled, groupLabels.1);
      var g1 := Filter(shuffled, groupLabels.0);
      var g2 := Filter(shuffled, groupLabels.1);
      var cov1 := ComputeCovariance(g1, coef);
      var cov2 := ComputeCovariance(g2, coef);
      nullStat := stat(cov1, cov2);
    }

    /** _compute_null_distribution: one statistic and one permuted subject table per trial, in trial order. */
    method ComputeNullDistribution(stat: Statistic, coef: Coefficient, n: int, draws: seq<seq<nat>>)
      returns (nullDiffs: seq<seq<seq<real>>>, labelHistory: seq<seq<SubjectLabel>>)
      requires Valid() && Consistent(data) && UniqueKeys(data) && TrialDraws(data, n, draws)
      ensures nullDiffs == NullDistribution(data, groupLabels, stat, coef, n, draws)
      ensures labelHistory == LabelHistory(data, n, draws)
    {
      ghost var nulls := NullDistribution(data, groupLabels, stat, coef, n, draws);
      ghost var history := LabelHistory(data, n, draws);
      nullDiffs := [];
      labelHistory := [];
      for t := 0 to Trials(n)
        invariant nullDiffs == nulls[..t]
        invariant labelHistory == history[..t]
      {
        var nullStat, permuted := Trial(stat, coef, draws[t]);
        PrefixStep(nulls, t);
        PrefixStep(history, t);
        nullDiffs := nullDiffs + [nullStat.values];
        labelHistory := labelHistory + [permuted];
      }
      assert nulls[..|nulls|] == nulls && history[..|history|] == history;
    }

    /**
     * run_permutation_test. Stacking the trial statistics fails when there are
     * none or when one of them does not have the observed statistic's shape.
     */
    method RunPermutationTest(stat: Statistic, coef: Coefficient, n: int, returnDistribution: bool, draws: seq<seq<nat>>)
      returns (r: Result<PermutationResult, Error>)
      requires Valid() && Consistent(data) && UniqueKeys(data) && TrialDraws(data, n, draws)
      requires forall a, b :: Wf(stat(a, b))
      ensures var observed := SplitStatistic(data, groupLabels, stat, coef);
              var nulls := NullDistribution(data, groupLabels, stat, coef, n, draws);
              (r.Failure? <==> n <= 0 || !Shaped(nulls, |observed.index|, |observed.columns|)) &&
              (r.Failure? ==> r.error == if n <= 0 then NothingToStack else ShapeMismatch) &&
              (r.Success? ==>
                 r.value.observed == observed &&
                 r.value.pValues == Frame(observed.index, observed.columns, PValues(observed, nulls)) &&
                 r.value.nullDistributions == (if returnDistribution then Some(nulls) else None) &&
                 r.value.permutationLabels == LabelHistory(data, n, draws))
    {
      var observed := ComputeObservedStatistic(stat, coef);
      var nullDiffs, labelHistory := ComputeNullDistribution(stat, coef, n, draws);
      if |nullDiffs| == 0 {
        return Failure(NothingToStack);
      }
      if !Shaped(nullDiffs, |observed.index|, |observed.columns|) {
        return Failure(ShapeMismatch);
      }
      var pValues := PValues(observed, nullDiffs);
      var distribution := if returnDistribution then Some(nullDiffs) else None;
      r := Success(PermutationResult(observed, Frame(observed.index, observed.columns, pValues), distribution, labelHistory));
    }
  }

  /** GroupComparator(data, group_col): fails unless the group column holds exactly two labels. */
  method NewGroupComparator(data: seq<Observation>) returns (r: Result<GroupComparator, Error>)
    ensures r.Failure? <==> |set x | x in Labels(data)| != 2
    ensures r.Failure? ==> r.error == TwoGroupsRequired
    ensures r.Success? ==> fresh(r.value) && r.value.data == data && r.value.Valid()
  {
    var groups := ValidateTwoGroupComparison(Labels(data));
    if groups.Failure? {
      return Failure(groups.error);
    }
    var c := new GroupComparator(data);
    r := Success(c);
  }

  /**
   * A comparator's labels are distinct and in first-seen order, each group is
   * non-empty, and the two groups split the rows between them without
   * reordering either. Valid() ties a comparator to this lemma: its labels are
   * (a, b) and its groups are Filter(data, a) and Filter(data, b).
   */
  lemma GroupsSplitData(data: seq<Observation>, a: string, b: string)
    requires ValidateTwoGroupComparison(Labels(data)) == Success([a, b])
    ensures a != b && a in Labels(data) && b in Labels(data)
    ensures FirstIndex(Labels(data), a) < FirstIndex(Labels(data), b)
    ensures Filter(data, a) != [] && Filter(data, b) != []
    ensures Interleaves(data, Filter(data, a), Filter(data, b))
    ensures multiset(data) == multiset(Filter(data, a)) + multiset(Filter(data, b))
  {
    var column := Labels(data);
    assert a in column && b in column;
    var i :| 0 <= i < |data| && column[i] == a;
    var j :| 0 <= j < |data| && column[j] == b;
    assert data[i] in Filter(data, a) && data[j] in Filter(data, b);
    forall o | o in data ensures o.group == a || o.group == b {
      var k :| 0 <= k < |data| && data[k] == o;
      assert column[k] in column;
    }
    SplitInterleaves(data, a, b);
  }
}
