/**
 * Adjacency-matrix utilities (NetComp/matrices.py): padding a matrix with
 * isolated nodes, the degree matrix and the combinatorial Laplacian. A matrix
 * is a sequence of rows; its column count is passed beside it because a
 * matrix with no rows still has a width.
 */
module Matrices {
  import opened Common

  type Matrix = seq<seq<real>>

  /** `A` has `n` rows of `m` entries each. */
  predicate IsShape(A: Matrix, n: nat, m: nat)
  {
    |A| == n && forall i :: 0 <= i < n ==> |A[i]| == m
  }

  function Zeros(n: nat, m: nat): (Z: Matrix)
    ensures IsShape(Z, n, m)
    ensures forall i, j :: 0 <= i < n && 0 <= j < m ==> Z[i][j] == 0.0
  {
    seq(n, i => seq(m, j => 0.0))
  }

  /** `sps.hstack`: row i of the result is row i of A followed by row i of B. */
  function HStack(A: Matrix, B: Matrix): (C: Matrix)
    requires |A| == |B|
    ensures |C| == |A|
    ensures forall i :: 0 <= i < |A| ==> C[i] == A[i] + B[i]
  {
    seq(|A|, i requires 0 <= i < |A| => A[i] + B[i])
  }

  /**
   * `_pad(A, N)` for an n x m matrix A. Returned unchanged when both
   * dimensions reach N; otherwise zero rows are stacked below (up to N rows)
   * and zero columns to the right (up to N columns). When A has more than N
   * rows but fewer than N columns the column block has N rows and the stack
   * fails.
   */
  function Pad(A: Matrix, m: nat, N: nat): (r: Result<Matrix>)
    requires IsShape(A, |A|, m)
    ensures r.Err? <==> |A| > N && m < N
    ensures |A| >= N && m >= N ==> r == Ok(A)
    ensures r.Ok? ==> IsShape(r.value, Max(|A|, N), Max(m, N))
    ensures r.Ok? ==> forall i, j :: 0 <= i < Max(|A|, N) && 0 <= j < Max(m, N) ==>
      r.value[i][j] == if i < |A| && j < m then A[i][j] else 0.0
  {
    var n := |A|;
    if n >= N && m >= N then Ok(A)
    else
      var padBottom := if n < N then N - n else 0;
      var padRight := if m < N then N - m else 0;
      var stacked := if padBottom > 0 then A + Zeros(padBottom, m) else A;
      assert IsShape(stacked, Max(n, N), m);
      if padRight > 0 then
        if |stacked| != N then Err(ValueError("blocks must have compatible dimensions"))
        else Ok(HStack(stacked, Zeros(N, padRight)))
      else Ok(stacked)
  }

  /** The sum of a row (`A.sum(axis=1)` for one row). */
  function RowSum(row: seq<real>): real
  {
    if row == [] then 0.0 else RowSum(row[..|row| - 1]) + row[|row| - 1]
  }

  lemma {:induction false} RowSumAppend(a: seq<real>, b: seq<real>)
    ensures RowSum(a + b) == RowSum(a) + RowSum(b)
  {
    if b == [] {
      assert a + b == a;
    } else {
      assert (a + b)[..|a + b| - 1] == a + b[..|b| - 1];
      RowSumAppend(a, b[..|b| - 1]);
    }
  }

  /** A row of zeros sums to zero. */
  lemma {:induction false} RowSumZero(row: seq<real>)
    requires forall j :: 0 <= j < |row| ==> row[j] == 0.0
    ensures RowSum(row) == 0.0
  {
    if row != [] {
      RowSumZero(row[..|row| - 1]);
    }
  }

  /** Entrywise a - b sums to the difference of the sums. */
  lemma {:induction false} RowSumSub(a: seq<real>, b: seq<real>, c: seq<real>)
    requires |a| == |b| == |c|
    requires forall j :: 0 <= j < |c| ==> c[j] == a[j] - b[j]
    ensures RowSum(c) == RowSum(a) - RowSum(b)
  {
    if c != [] {
      var k := |c| - 1;
      RowSumSub(a[..k], b[..k], c[..k]);
    }
  }

  /** A row that is zero except at position k sums to its entry at k. */
  lemma {:induction false} RowSumUnit(row: seq<real>, k: nat)
    requires k < |row|
    requires forall j :: 0 <= j < |row| && j != k ==> row[j] == 0.0
    ensures RowSum(row) == row[k]
  {
    var last := |row| - 1;
    if k == last {
      RowSumZero(row[..last]);
    } else {
      RowSumUnit(row[..last], k);
    }
  }

  /**
   * Padding adds isolated nodes: every added row sums to 0, and every
   * original row keeps its sum, so no degree changes.
   */
  lemma PadRowSums(A: Matrix, n: nat, N: nat, i: nat)
    requires IsShape(A, n, n) && n <= N && i < N
    ensures Pad(A, n, N).Ok?
    ensures i < n ==> RowSum(Pad(A, n, N).value[i]) == RowSum(A[i])
    ensures i >= n ==> RowSum(Pad(A, n, N).value[i]) == 0.0
  {
    var P := Pad(A, n, N).value;
    if i < n {
      assert P[i] == A[i] + P[i][n..];
      RowSumAppend(A[i], P[i][n..]);
      RowSumZero(P[i][n..]);
    } else {
      RowSumZero(P[i]);
    }
  }

  /**
   * Padding to N and then to a larger N' is padding to N' at once: the
   * isolated nodes added in two steps are the ones added in one.
   */
  lemma PadTwice(A: Matrix, n: nat, N: nat, N': nat)
    requires IsShape(A, n, n) && n <= N <= N'
    ensures Pad(A, n, N).Ok?
    ensures Pad(Pad(A, n, N).value, N, N') == Pad(A, n, N')
  {
    var P := Pad(A, n, N).value;
    var Q := Pad(P, N, N').value;
    var R := Pad(A, n, N').value;
    forall i | 0 <= i < N'
      ensures Q[i] == R[i]
    {
      assert |Q[i]| == |R[i]| == N';
      assert forall j :: 0 <= j < N' ==> Q[i][j] == R[i][j];
    }
    assert Q == R;
  }

  /** `degree_matrix`: the row sums of A on the diagonal, zeros elsewhere. */
  function DegreeMatrix(A: Matrix, m: nat): (D: Matrix)
    requires IsShape(A, |A|, m)
    ensures IsShape(D, |A|, |A|)
  {
    seq(|A|, i requires 0 <= i < |A| => seq(|A|, j => if i == j then RowSum(A[i]) else 0.0))
  }

  /** Each row of the degree matrix holds that node's degree and nothing else. */
  lemma DegreeMatrixRow(A: Matrix, m: nat, i: nat)
    requires IsShape(A, |A|, m) && i < |A|
    ensures DegreeMatrix(A, m)[i][i] == RowSum(A[i])
    ensures forall j :: 0 <= j < |A| && j != i ==> DegreeMatrix(A, m)[i][j] == 0.0
    ensures RowSum(DegreeMatrix(A, m)[i]) == RowSum(A[i])
  {
    RowSumUnit(DegreeMatrix(A, m)[i], i);
  }

  /**
   * `laplacian_matrix(A)` (unnormalised): D - A for a sparse A. The sparse
   * subtraction needs A to be square; otherwise the shapes do not match and
   * it fails.
   */
  function Laplacian(A: Matrix, m: nat): (r: Result<Matrix>)
    requires IsShape(A, |A|, m)
    ensures r.Ok? <==> |A| == m
    ensures r.Ok? ==> IsShape(r.value, m, m)
  {
    if |A| != m then Err(ValueError("inconsistent shapes"))
    else
      var D := DegreeMatrix(A, m);
      Ok(seq(m, i requires 0 <= i < m => seq(m, j requires 0 <= j < m => D[i][j] - A[i][j])))
  }

  /**
   * The Laplacian is D - A: off the diagonal it is -A, on the diagonal the
   * degree minus the self-loop weight, and every row sums to 0.
   */
  lemma LaplacianRows(A: Matrix, n: nat, i: nat)
    requires IsShape(A, n, n) && i < n
    ensures Laplacian(A, n).Ok?
    ensures Laplacian(A, n).value[i][i] == RowSum(A[i]) - A[i][i]
    ensures forall j :: 0 <= j < n && j != i ==> Laplacian(A, n).value[i][j] == -A[i][j]
    ensures RowSum(Laplacian(A, n).value[i]) == 0.0
  {
    var D := DegreeMatrix(A, n);
    var L := Laplacian(A, n).value;
    DegreeMatrixRow(A, n, i);
    RowSumSub(D[i], A[i], L[i]);
  }

  /** A symmetric adjacency matrix has a symmetric Laplacian. */
  lemma LaplacianSymmetric(A: Matrix, n: nat)
    requires IsShape(A, n, n)
    requires forall i, j :: 0 <= i < n && 0 <= j < n ==> A[i][j] == A[j][i]
    ensures Laplacian(A, n).Ok?
    ensures forall i, j :: 0 <= i < n && 0 <= j < n ==>
      Laplacian(A, n).value[i][j] == Laplacian(A, n).value[j][i]
  {
  }
}
