/**
 * The two-matrix statistics of src/popconn/stats/metrics.py. Both inputs are
 * region x region frames with the same labels in the same order (pandas would
 * align them by label; the model takes them aligned).
 */
module Metrics {
  import opened Frames

  predicate Aligned(mat1: Frame, mat2: Frame)
  {
    Wf(mat1) && Wf(mat2) && mat1.index == mat2.index && mat1.columns == mat2.columns
  }

  /** correlation_matrix_difference: mat1 - mat2, entry by entry, on mat1's labels. */
  function CorrelationMatrixDifference(mat1: Frame, mat2: Frame): (r: Frame)
    requires Aligned(mat1, mat2)
    ensures Wf(r) && r.index == mat1.index && r.columns == mat1.columns
    ensures forall i, j :: 0 <= i < |r.index| && 0 <= j < |r.columns| ==>
              r.values[i][j] == mat1.values[i][j] - mat2.values[i][j]
  {
    Frame(mat1.index, mat1.columns,
      seq(|mat1.index|, i requires 0 <= i < |mat1.index| =>
        seq(|mat1.columns|, j requires 0 <= j < |mat1.columns| => mat1.values[i][j] - mat2.values[i][j])))
  }

  /** Swapping the operands negates every entry of the difference. */
  lemma DifferenceAntisymmetric(mat1: Frame, mat2: Frame)
    requires Aligned(mat1, mat2)
    ensures forall i, j :: 0 <= i < |mat1.index| && 0 <= j < |mat1.columns| ==>
              CorrelationMatrixDifference(mat1, mat2).values[i][j] == -CorrelationMatrixDifference(mat2, mat1).values[i][j]
  {
  }

  /** A matrix minus itself is all zeros. */
  lemma DifferenceWithSelfIsZero(mat: Frame)
    requires Wf(mat)
    ensures forall i, j :: 0 <= i < |mat.index| && 0 <= j < |mat.columns| ==>
              CorrelationMatrixDifference(mat, mat).values[i][j] == 0.0
  {
  }

  /** The difference of two symmetric matrices is symmetric. */
  lemma DifferencePreservesSymmetry(mat1: Frame, mat2: Frame)
    requires Aligned(mat1, mat2) && Symmetric(mat1) && Symmetric(mat2)
    ensures Symmetric(CorrelationMatrixDifference(mat1, mat2))
  {
  }

  /**
   * x itself, as a separate term. It exists only for the solver: Square multiplies
   * x by SeparateFactor(x) so that the solver keeps a product of two terms instead
   * of rewriting x * x into a power, whose comparisons with zero it does not decide.
   */
  function SeparateFactor(x: real): real { x }

  /** x squared (see SeparateFactor for why it is not written x * x). */
  function Square(x: real): real { x * SeparateFactor(x) }

  lemma SquareNonNegative(x: real)
    ensures Square(x) >= 0.0
  {
  }

  lemma SquareZero(x: real)
    ensures Square(x) == 0.0 <==> x == 0.0
  {
  }

  lemma MulPositive(a: real, b: real)
    requires a > 0.0 && b > 0.0
    ensures a * b > 0.0
  {
  }

  /** Squaring is strictly increasing on the non-negative reals. */
  lemma SquareStrictlyIncreasing(x: real, y: real)
    requires 0.0 <= x < y
    ensures Square(x) < Square(y)
  {
    MulPositive(y - x, y + x);
    assert Square(y) - Square(x) == (y - x) * (y + x);
  }

  /** On non-negative reals, comparing squares is comparing the numbers. */
  lemma SquareMonotone(x: real, y: real)
    requires 0.0 <= x && 0.0 <= y
    ensures x <= y <==> Square(x) <= Square(y)
  {
    if x < y {
      SquareStrictlyIncreasing(x, y);
    } else if y < x {
      SquareStrictlyIncreasing(y, x);
    }
  }

  /** The sum of the squares of a row. */
  function SumSquares(row: seq<real>): (r: real)
    ensures r >= 0.0
    decreases |row|
  {
    if row == [] then 0.0
    else
      SquareNonNegative(row[0]);
      Square(row[0]) + SumSquares(row[1..])
  }

  /** The sum of the squares of every entry of a matrix. */
  function MatrixSumSquares(m: seq<seq<real>>): (r: real)
    ensures r >= 0.0
    decreases |m|
  {
    if m == [] then 0.0 else SumSquares(m[0]) + MatrixSumSquares(m[1..])
  }

  /**
   * frobenius_norm_difference, stated through its square: a 1 x 1 frame labelled
   * ("frobenius", "norm") holding the sum of squared entries of mat1 - mat2.
   */
  function FrobeniusNormDifferenceSquared(mat1: Frame, mat2: Frame): (r: Frame)
    requires Aligned(mat1, mat2)
    ensures Wf(r) && r.index == ["frobenius"] && r.columns == ["norm"]
    ensures r.values[0][0] >= 0.0
  {
    Frame(["frobenius"], ["norm"], [[MatrixSumSquares(CorrelationMatrixDifference(mat1, mat2).values)]])
  }

  lemma {:induction false} SumSquaresZero(row: seq<real>)
    ensures SumSquares(row) == 0.0 <==> forall k :: 0 <= k < |row| ==> row[k] == 0.0
    decreases |row|
  {
    if row != [] {
      SumSquaresZero(row[1..]);
      SquareZero(row[0]);
      assert forall k :: 1 <= k < |row| ==> row[k] == row[1..][k - 1];
    }
  }

  lemma {:induction false} MatrixSumSquaresZero(m: seq<seq<real>>)
    ensures MatrixSumSquares(m) == 0.0 <==>
              forall i, k :: 0 <= i < |m| && 0 <= k < |m[i]| ==> m[i][k] == 0.0
    decreases |m|
  {
    if m != [] {
      MatrixSumSquaresZero(m[1..]);
      SumSquaresZero(m[0]);
      assert forall i :: 1 <= i < |m| ==> m[i] == m[1..][i - 1];
    }
  }

  /** The (squared) Frobenius norm of the difference is zero exactly when the matrices are equal. */
  lemma FrobeniusZeroIffEqual(mat1: Frame, mat2: Frame)
    requires Aligned(mat1, mat2)
    ensures FrobeniusNormDifferenceSquared(mat1, mat2).values[0][0] == 0.0 <==> mat1.values == mat2.values
  {
    var diff := CorrelationMatrixDifference(mat1, mat2);
    MatrixSumSquaresZero(diff.values);
    if MatrixSumSquares(diff.values) == 0.0 {
      forall i | 0 <= i < |mat1.values|
        ensures mat1.values[i] == mat2.values[i]
      {
        assert forall k :: 0 <= k < |mat1.values[i]| ==> diff.values[i][k] == 0.0;
      }
    }
  }

  lemma {:induction false} SumSquaresOfNegation(row: seq<real>, neg: seq<real>)
    requires |neg| == |row| && forall k :: 0 <= k < |row| ==> neg[k] == -row[k]
    ensures SumSquares(neg) == SumSquares(row)
    decreases |row|
  {
    if row != [] {
      SumSquaresOfNegation(row[1..], neg[1..]);
      assert Square(neg[0]) == Square(row[0]);
    }
  }

  lemma {:induction false} MatrixSumSquaresOfNegation(m: seq<seq<real>>, neg: seq<seq<real>>)
    requires |neg| == |m|
    requires forall i :: 0 <= i < |m| ==> |neg[i]| == |m[i]| && forall k :: 0 <= k < |m[i]| ==> neg[i][k] == -m[i][k]
    ensures MatrixSumSquares(neg) == MatrixSumSquares(m)
    decreases |m|
  {
    if m != [] {
      SumSquaresOfNegation(m[0], neg[0]);
      MatrixSumSquaresOfNegation(m[1..], neg[1..]);
    }
  }

  /** The Frobenius distance does not depend on the order of its operands. */
  lemma FrobeniusSymmetric(mat1: Frame, mat2: Frame)
    requires Aligned(mat1, mat2)
    ensures FrobeniusNormDifferenceSquared(mat1, mat2) == FrobeniusNormDifferenceSquared(mat2, mat1)
  {
    MatrixSumSquaresOfNegation(CorrelationMatrixDifference(mat1, mat2).values, CorrelationMatrixDifference(mat2, mat1).values);
  }

  /** A node's strength: the sum of the absolute weights in its row. */
  function AbsSum(row: seq<real>): (r: real)
    ensures r >= 0.0
    decreases |row|
  {
    if row == [] then 0.0 else Abs(row[0]) + AbsSum(row[1..])
  }

  /** strength_difference: one row per region holding mat1's strength minus mat2's, in a "strength_diff" column. */
  function StrengthDifference(mat1: Frame, mat2: Frame): (r: Frame)
    requires Aligned(mat1, mat2)
    ensures Wf(r) && r.index == mat1.index && r.columns == ["strength_diff"]
  {
    Frame(mat1.index, ["strength_diff"],
      seq(|mat1.index|, i requires 0 <= i < |mat1.index| => [AbsSum(mat1.values[i]) - AbsSum(mat2.values[i])]))
  }

  /** A matrix has no strength difference with itself. */
  lemma StrengthDifferenceWithSelfIsZero(mat: Frame)
    requires Wf(mat)
    ensures forall i :: 0 <= i < |mat.index| ==> StrengthDifference(mat, mat).values[i][0] == 0.0
  {
  }

  lemma {:induction false} AbsSumDifferenceBound(a: seq<real>, b: seq<real>, diff: seq<real>)
    requires |a| == |b| == |diff| && forall k :: 0 <= k < |a| ==> diff[k] == a[k] - b[k]
    ensures Abs(AbsSum(a) - AbsSum(b)) <= AbsSum(diff)
    decreases |a|
  {
    if a != [] {
      AbsSumDifferenceBound(a[1..], b[1..], diff[1..]);
    }
  }

  /**
   * Each strength difference is at most the row's total absolute change in the
   * difference matrix: the two metrics agree on "no change".
   */
  lemma StrengthDifferenceBounded(mat1: Frame, mat2: Frame)
    requires Aligned(mat1, mat2)
    ensures forall i :: 0 <= i < |mat1.index| ==>
              Abs(StrengthDifference(mat1, mat2).values[i][0]) <= AbsSum(CorrelationMatrixDifference(mat1, mat2).values[i])
  {
    var diff := CorrelationMatrixDifference(mat1, mat2);
    forall i | 0 <= i < |mat1.index|
      ensures Abs(StrengthDifference(mat1, mat2).values[i][0]) <= AbsSum(diff.values[i])
    {
      AbsSumDifferenceBound(mat1.values[i], mat2.values[i], diff.values[i]);
    }
  }

  // ---------------------------------------------------------------------------
  // The metrics as statistics a comparator can take
  // ---------------------------------------------------------------------------

  /**
   * The frame the statistics below return for operands with different labels.
   * pandas would align such operands on the union of their labels and fill the
   * gaps with NaN; the model does not represent that frame.
   */
  const Unaligned: Frame := Frame([], [], [])

  /** correlation_matrix_difference for any two frames. */
  function DifferenceStatistic(mat1: Frame, mat2: Frame): (r: Frame)
    ensures Aligned(mat1, mat2) ==> r == CorrelationMatrixDifference(mat1, mat2)
    ensures !Aligned(mat1, mat2) ==> r == Unaligned
  {
    if Aligned(mat1, mat2) then CorrelationMatrixDifference(mat1, mat2) else Unaligned
  }

  /** frobenius_norm_difference (squared) for any two frames. */
  function FrobeniusStatistic(mat1: Frame, mat2: Frame): (r: Frame)
    ensures Aligned(mat1, mat2) ==> r == FrobeniusNormDifferenceSquared(mat1, mat2)
    ensures !Aligned(mat1, mat2) ==> r == Unaligned
  {
    if Aligned(mat1, mat2) then FrobeniusNormDifferenceSquared(mat1, mat2) else Unaligned
  }

  /** strength_difference for any two frames. */
  function StrengthStatistic(mat1: Frame, mat2: Frame): (r: Frame)
    ensures Aligned(mat1, mat2) ==> r == StrengthDifference(mat1, mat2)
    ensures !Aligned(mat1, mat2) ==> r == Unaligned
  {
    if Aligned(mat1, mat2) then StrengthDifference(mat1, mat2) else Unaligned
  }
}
