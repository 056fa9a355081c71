# popconn in Dafny

A model of the two-group permutation test of popconn. popconn builds population
covariance connectomes: region x region correlation matrices computed over the
subjects of a group. It then asks whether two groups' connectomes differ more than
chance would allow.

The model covers these parts of the library:

- **CovConn** (`Core`). It pivots long-format rows (subject, region, value) into a
  subject x region table. It computes the correlation matrix of that table and
  caches it. Reading the cache before anything was computed is an error.
- **The metrics** (`Metrics`). These are the element-wise difference of two
  matrices, the Frobenius distance (stated through its square), and the per-region
  strength difference.
- **The two-group check** (`Checks`). The group column must hold exactly two
  distinct labels, reported in first-seen order.
- **Label shuffling** (`Permutation`). A new label column is a rearrangement of the
  old one on the same index.
- **GroupComparator** (`Comparator`). The observed statistic compares the two
  groups' correlation matrices. Each trial shuffles the per-subject labels, merges
  them back onto the rows, splits the rows again and recomputes the statistic. An
  entry's p-value is the share of trials at least as extreme as the observed value.

Two things are supplied from outside instead of being computed:

- **Randomness.** Each shuffle, whether by the global `np.random.permutation`
  (`src/popconn/permute/permutation.py:21`) or by a Generator's `rng.permutation`
  (`src/popconn/stats/comparator.py:198`), is replaced by the Fisher-Yates draws
  both make. These are one draw `d[k] < n - k` per position, from the last
  position down. Any such draws may be supplied, and
  `Permutation.ShuffleReachesEveryRearrangement` shows every rearrangement is the
  outcome of some draws.
- **The correlation coefficient.** pandas' `corr` is a `Coefficient` parameter: a
  function from two columns, with missing cells as `None`, to a real number.

Supporting modules:

- `Frames` holds the shared records.
- `StringOrder` holds the lexicographic order pandas uses when it sorts the pivot's
  labels.
- `Wrappers` holds `Option` and `Result`.

Two points on how the code behaves:

- **p-values.** The code divides the count of reaching trials by the number of
  trials (`src/popconn/stats/comparator.py:241`). There is no +1 term, so a
  p-value can be 0.
- **Errors.** The code raises plain `ValueError`s. The model has one `Error` case
  for each cause:
  - too few or too many groups;
  - nothing to stack;
  - mismatched shapes;
  - covariance not computed.

## Model

| member | source | states |
|---|---|---|
| Checks.Unique | src/popconn/utils/checks.py:2 | the distinct values of a column, each exactly once, holding exactly the column's values |
| Checks.UniqueInFirstSeenOrder | src/popconn/utils/checks.py:2 | the distinct values are listed in the order of their first occurrence in the column |
| Checks.DistinctCount | src/popconn/utils/checks.py:2-3 | the number of values listed equals the number of distinct values in the column |
| Checks.ValidateTwoGroupComparison | src/popconn/utils/checks.py:1-5 | fails (TwoGroupsRequired) exactly when the column does not have two distinct values; otherwise returns two distinct values, in first-seen order, that together make up the whole column |
| StringOrder.SortedDistinct | src/popconn/core/core.py:41-44 | the labels of a pivot axis: strictly increasing in lexicographic order, holding exactly the values of the column |
| StringOrder.SortedSameElementsEqual | src/popconn/core/core.py:41-44 | two strictly sorted label lists with the same members are equal, so the pivot's axes do not depend on row order |
| Permutation.Shuffle | src/popconn/permute/permutation.py:21 | the Fisher-Yates rearrangement keeps the length and the multiset of values |
| Permutation.ShuffleReachesEveryRearrangement | src/popconn/permute/permutation.py:21 | every rearrangement of the values is produced by some valid draws |
| Permutation.PermuteLabels | src/popconn/permute/permutation.py:5-21 | the result lies on the frame's own index, has one value per row, and its values are a rearrangement of the group column |
| Permutation.PermuteLabelsReachesEveryRearrangement | src/popconn/permute/permutation.py:21 | every rearrangement of the group column is a possible result |
| Metrics.CorrelationMatrixDifference | src/popconn/stats/metrics.py:6-22 | a matrix of the inputs' shape and labels whose entry (i, j) is mat1[i][j] - mat2[i][j] |
| Metrics.DifferenceAntisymmetric | src/popconn/stats/metrics.py:22 | swapping the operands negates every entry |
| Metrics.DifferenceWithSelfIsZero | src/popconn/stats/metrics.py:22 | a matrix minus itself is all zeros |
| Metrics.DifferencePreservesSymmetry | src/popconn/stats/metrics.py:22 | the difference of two symmetric matrices is symmetric |
| Metrics.SquareMonotone | src/popconn/stats/metrics.py:40 | on non-negative numbers, comparing squares is the same as comparing the numbers |
| Metrics.SumSquaresZero | src/popconn/stats/metrics.py:40 | a sum of squares is zero exactly when every term is zero |
| Metrics.MatrixSumSquaresZero | src/popconn/stats/metrics.py:40 | the sum of squared entries of a matrix is zero exactly when every entry is zero |
| Metrics.FrobeniusNormDifferenceSquared | src/popconn/stats/metrics.py:25-41 | a 1 x 1 frame labelled ("frobenius", "norm") whose entry, the square of the norm, is non-negative |
| Metrics.FrobeniusZeroIffEqual | src/popconn/stats/metrics.py:39-41 | the Frobenius distance is zero exactly when the two matrices are equal |
| Metrics.FrobeniusSymmetric | src/popconn/stats/metrics.py:39-41 | the Frobenius distance does not depend on the order of the operands |
| Metrics.AbsSum | src/popconn/stats/metrics.py:86-87 | a node's strength, the sum of absolute weights in its row, is non-negative |
| Metrics.StrengthDifference | src/popconn/stats/metrics.py:70-88 | one row per region, on the regions of mat1, with a single "strength_diff" column |
| Metrics.StrengthDifferenceWithSelfIsZero | src/popconn/stats/metrics.py:86-88 | a matrix has zero strength difference with itself |
| Metrics.AbsSumDifferenceBound | src/popconn/stats/metrics.py:86-88 | two rows' strengths differ by at most the strength of their entry-wise difference |
| Metrics.DifferenceStatistic | src/popconn/stats/metrics.py:6-22 | on operands with the same labels, exactly correlation_matrix_difference; otherwise the empty frame |
| Metrics.FrobeniusStatistic | src/popconn/stats/metrics.py:25-41 | on operands with the same labels, exactly the squared Frobenius distance; otherwise the empty frame |
| Metrics.StrengthStatistic | src/popconn/stats/metrics.py:70-88 | on operands with the same labels, exactly strength_difference; otherwise the empty frame |
| Metrics.StrengthDifferenceBounded | src/popconn/stats/metrics.py:86-88 | each region's strength difference is bounded by that region's row of the difference matrix, so it is zero wherever the row does not change |
| Core.Lookup | src/popconn/core/core.py:42-44 | a cell's value is missing exactly when no row has that (subject, region) key, and is otherwise the value of such a row |
| Core.LookupFindsRow | src/popconn/core/core.py:42-44 | with unique keys, each row's value is the value found for its key |
| Core.Pivot | src/popconn/core/core.py:41-44 | a rectangular table whose index holds exactly the subjects and whose columns hold exactly the regions, both strictly sorted |
| Core.PivotAxesDistinct | src/popconn/core/core.py:41-44 | the index lists every subject once and the columns list every region once |
| Core.PivotHoldsEveryObservation | src/popconn/core/core.py:41-44 | every row's value sits in the cell of its subject and region |
| Core.PivotMissingCells | src/popconn/core/core.py:41-44 | a cell is missing exactly when no row has its subject and region |
| Core.PivotPresentCells | src/popconn/core/core.py:41-44 | a present cell holds the value of the row with its subject and region |
| Core.PivotIgnoresRowOrder | src/popconn/core/core.py:41-44 | the wide table depends only on which rows there are, not on their order |
| Core.Correlation | src/popconn/core/core.py:60 | the correlation matrix is square, and both axes carry the table's region labels in order |
| Core.CorrelationEntries | src/popconn/core/core.py:60 | entry (a, b) is the coefficient of region a's column and region b's column |
| Core.CorrelationSymmetric | src/popconn/core/core.py:60 | a symmetric coefficient gives a symmetric matrix |
| Core.WideFormOf | src/popconn/core/core.py:38 | wide input is kept as it is, and long input becomes its pivot over the same subjects and regions |
| Core.CovConn.constructor | src/popconn/core/core.py:24-39 | keeps the data, records whether it is long, builds the wide form, and caches no matrix yet, so reading the covariance fails |
| Core.CovConn.ComputeCovariance | src/popconn/core/core.py:46-61 | returns the correlation matrix of the wide data and caches exactly that matrix; data and wide data are constants and cannot change |
| Core.CovConn.Covariance | src/popconn/core/core.py:70-79 | fails with CovarianceNotComputed exactly when nothing is cached, and otherwise returns the cached matrix |
| Comparator.Filter | src/popconn/stats/comparator.py:64-65 | the rows carrying a label, and only those |
| Comparator.SplitInterleaves | src/popconn/stats/comparator.py:64-65 | when every row carries one of two different labels, the two groups split the rows between them, each in the rows' relative order, and together they hold every row |
| Comparator.InterleavesMultiset | src/popconn/stats/comparator.py:64-65 | two groups interleaved into the rows hold exactly the rows' multiset |
| Comparator.FilterKeepsUniqueKeys | src/popconn/stats/comparator.py:64-65 | a group keeps the unique (subject, region) keys that pivoting needs |
| Comparator.FilterKeepsMultisets | src/popconn/stats/comparator.py:148-149 | rows that are rearrangements of each other give groups that are rearrangements of each other |
| Comparator.SameRegionsAligned | src/popconn/stats/comparator.py:160-180 | two groups that measure the same regions get correlation matrices with the same labels in the same order |
| Comparator.MetricsOfSplit | src/popconn/stats/comparator.py:148-153 | when the two groups measure the same regions, running the comparator with a metric of metrics.py gives that metric of the two groups' matrices, e.g. their entry-wise difference |
| Comparator.SplitStatisticIgnoresOrder | src/popconn/stats/comparator.py:146-153 | a trial's statistic depends only on which rows the shuffled data holds, not on their order |
| Comparator.GroupsSplitData | src/popconn/stats/comparator.py:59-65 | when validation returns the labels (a, b), as a valid comparator holds them: the labels are distinct, in first-seen order, and each occurs in the data; both filtered groups are non-empty and split the rows in order |
| Comparator.NewGroupComparator | src/popconn/stats/comparator.py:59-65 | fails with TwoGroupsRequired exactly when the group column does not have two distinct values; otherwise returns a new comparator on the data |
| Comparator.GroupComparator.constructor | src/popconn/stats/comparator.py:42-65 | stores the data, the two labels in first-seen order, and the rows of each label |
| Comparator.SubjectLabels | src/popconn/stats/comparator.py:196 | each (subject, label) pair of the data exactly once |
| Comparator.ConsistentSubjectLabels | src/popconn/stats/comparator.py:196 | when every subject has one label, the subject table lists every subject of the data exactly once, with its label |
| Comparator.PermutedSubjectLabels | src/popconn/stats/comparator.py:196-201 | the same subjects in the same order, with a label column that is the draws' rearrangement of the original one, so each label keeps its count |
| Comparator.PermutationKeepsGroupSizes | src/popconn/stats/comparator.py:196-201 | under a shuffle each label is carried by as many subjects as before |
| Comparator.PermutedLabelsReachEveryRearrangement | src/popconn/stats/comparator.py:198-200 | every rearrangement of the label column is produced by some draws |
| Comparator.LabelOfDistinct | src/popconn/stats/comparator.py:217-219 | with one entry per subject, a subject's label is the label of its entry |
| Comparator.SingleMatch | src/popconn/stats/comparator.py:217-219 | a row whose subject has exactly one entry in the subject table is joined exactly once and takes that entry's label |
| Comparator.MergeRelabels | src/popconn/stats/comparator.py:217-219 | the merge keeps every row in place, with its subject, region and value, and gives it its subject's label |
| Comparator.SameKeysUniqueKeys | src/popconn/stats/comparator.py:217-219 | rows keyed alike position by position keep unique keys |
| Comparator.ShuffledData | src/popconn/stats/comparator.py:203-219 | one row per data row, in place, changed only in its label, which is its subject's permuted label; keys stay unique |
| Comparator.GroupCorrelation | src/popconn/stats/comparator.py:160-180 | a group's correlation matrix is square and labelled on both axes by the group's regions |
| Comparator.IdentityShuffledData | src/popconn/stats/comparator.py:182-219 | draws that move nothing give back the data unchanged |
| Comparator.IdentityTrialIsObserved | src/popconn/stats/comparator.py:116-158 | a trial whose draws move nothing computes exactly the observed statistic |
| Comparator.CountAtLeast | src/popconn/stats/comparator.py:241 | the number of trials whose entry reaches a threshold in absolute value, at most the number of trials |
| Comparator.CountAtLeastZero | src/popconn/stats/comparator.py:241 | the count is zero exactly when no trial reaches the threshold |
| Comparator.CountAtLeastAll | src/popconn/stats/comparator.py:241 | the count equals the number of trials exactly when every trial reaches the threshold |
| Comparator.PValues | src/popconn/stats/comparator.py:221-241 | a matrix of the observed statistic's shape whose entries lie in [0, 1], each being the number of trials reaching the observed absolute value divided by the number of trials |
| Comparator.PValueZero | src/popconn/stats/comparator.py:241 | a p-value is 0 exactly when no trial reaches the observed absolute value |
| Comparator.PValueOne | src/popconn/stats/comparator.py:241 | a p-value is 1 exactly when every trial reaches the observed absolute value |
| Comparator.PValuesUnchangedBySquaring | src/popconn/stats/comparator.py:241 | for a non-negative statistic such as the Frobenius norm, the p-values of the squared statistic are those of the statistic itself |
| Comparator.NullDistribution | src/popconn/stats/comparator.py:144-157 | one trial statistic per permutation, in trial order |
| Comparator.LabelHistory | src/popconn/stats/comparator.py:144-157 | one permuted subject table per permutation, in trial order |
| Comparator.GroupComparator.ComputeCovariance | src/popconn/stats/comparator.py:160-180 | builds a CovConn over the group's long rows and returns its correlation matrix |
| Comparator.GroupComparator.ComputeObservedStatistic | src/popconn/stats/comparator.py:116-123 | the statistic of the first group's matrix against the second group's, as labelled |
| Comparator.GroupComparator.Trial | src/popconn/stats/comparator.py:145-155 | one trial's statistic and its permuted subject table |
| Comparator.GroupComparator.ComputeNullDistribution | src/popconn/stats/comparator.py:125-158 | exactly the trial statistics and the permuted tables of the trials, in order, with as many trials as range(n_permutations) runs |
| Comparator.GroupComparator.RunPermutationTest | src/popconn/stats/comparator.py:67-114 | fails with NothingToStack when there are no trials and with ShapeMismatch when a trial's statistic does not have the observed shape; otherwise returns the observed statistic, the p-values on its labels, the null distribution exactly when requested, and the label history |

## Left out

- The correlation numerics. pandas' `corr` (`src/popconn/core/matrix.py:22`) is a
  supplied `Coefficient`. The `method` argument (pearson, spearman or kendall)
  therefore only selects which coefficient is passed.
- The square root in `frobenius_norm_difference`. There is no real square root in
  the model.
  - Metrics.FrobeniusNormDifferenceSquared returns the square of the source's
    value, the sum of squared differences.
  - `Comparator.PValuesUnchangedBySquaring` shows the p-values are the same either
    way.
- `degree_difference` and `global_efficiency_difference`. They call graph
  algorithms of networkx, which is not part of this model.
- The random generator and its seed (`random_state`). Each shuffle is given as
  Fisher-Yates draws, so which permutation a given seed yields is not modelled.
- Wide-format input to GroupComparator, and the column-name parameters.
  - The comparator takes long-format rows with fixed subject, region, value and
    group fields.
  - CovConn accepts both forms.
- pandas label alignment and broadcasting. `Metrics` takes two matrices with the
  same labels in the same order. Misaligned matrices would be aligned by pandas and
  filled with NaN; the model does not do that.
- Metrics.CorrelationMatrixDifference: requires aligned inputs rather than
  modelling pandas' union-of-labels alignment.
- Metrics.DifferenceStatistic, Metrics.FrobeniusStatistic and
  Metrics.StrengthStatistic return the empty frame `Unaligned` for operands with
  different labels. pandas would align them and fill gaps with NaN. In the
  comparator this arises when the two groups measure different sets of regions.
- Comparator.GroupComparator.RunPermutationTest: reports ShapeMismatch whenever a
  trial's matrix differs in shape from the observed one. numpy would broadcast
  some such shapes, for example a single row against many.
- Comparator.GroupComparator.RunPermutationTest:
  - requires every subject to carry a single group label;
  - requires unique (subject, region) keys;
  - requires the statistic to return rectangular frames.

  Without the first condition, the merge duplicates a subject's rows and pandas'
  pivot can raise on the resulting duplicate keys.
- Core.Pivot: requires unique (subject, region) keys instead of modelling pandas'
  duplicate-entry error.
- Floating point. Values are exact reals, and NaN is modelled only as a missing
  pivot cell.
- `src/popconn/stats/group_comparison.py`, a forwarding wrapper (its `method`
  argument is never passed on), and `src/popconn/stats/__init__.py`, a table of
  names. Neither is part of this model.
- Row order of the inner merge. pandas' order for inner merges has varied between
  versions. The model keeps the rows of the data in order.
  `Comparator.SplitStatisticIgnoresOrder` shows that the statistic computed from
  the merged rows is the same for any order of them.
