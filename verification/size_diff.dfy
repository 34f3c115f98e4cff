/**
 * The size-difference metrics of two AIGs (sim_scores/size_diff_metrics.py),
 * on their gate counts.
 */
module SizeDiff {
  import opened Common
  import opened Characteristics

  /** `absolute_size_diff_metric`: |size1 - size2| on the gate counts. */
  function AbsoluteSizeDiff(size1: nat, size2: nat): (d: nat)
    ensures d == AbsoluteGateCount(AigCounts(size1, 0, 0), AigCounts(size2, 0, 0))
  {
    if size1 >= size2 then size1 - size2 else size2 - size1
  }

  /**
   * `relative_size_diff_metric`: 0.0 when both sizes are 0, otherwise
   * |size1 - size2| / max(size1, size2), which lies in [0, 1].
   */
  function RelativeSizeDiff(size1: nat, size2: nat): (r: real)
    ensures 0.0 <= r <= 1.0
    ensures r == 0.0 <==> size1 == size2
    ensures size1 + size2 > 0 ==> r * Max(size1, size2) as real == AbsoluteSizeDiff(size1, size2) as real
  {
    if size1 == 0 && size2 == 0 then 0.0
    else
      Ratio(AbsoluteSizeDiff(size1, size2) as real, Max(size1, size2) as real);
      AbsoluteSizeDiff(size1, size2) as real / Max(size1, size2) as real
  }

  /**
   * Both size metrics are symmetric, and dividing by the larger size instead
   * of the total never gives a smaller relative difference.
   */
  lemma SizeDiffProperties(size1: nat, size2: nat)
    ensures AbsoluteSizeDiff(size1, size2) == AbsoluteSizeDiff(size2, size1)
    ensures RelativeSizeDiff(size1, size2) == RelativeSizeDiff(size2, size1)
    ensures RelativeDiff(size1, size2) <= RelativeSizeDiff(size1, size2)
  {
    if size1 + size2 > 0 {
      var d := AbsoluteSizeDiff(size1, size2) as real;
      var m := Max(size1, size2) as real;
      var t := (size1 + size2) as real;
      assert 0.0 < m <= t;
      DivideByLarger(d, m, t);
    }
  }

  lemma DivideByLarger(d: real, m: real, t: real)
    requires d >= 0.0 && 0.0 < m <= t
    ensures d / t <= d / m
  {
    assert d / t * t == d && d / m * m == d;
    assert d / t * m <= d / t * t;
  }

  /** The unit tests' sizes 3 and 8: absolute 5, relative 0.625. */
  lemma SizeDiffExample()
    ensures AbsoluteSizeDiff(3, 8) == 5 && RelativeSizeDiff(3, 8) == 0.625
  {
  }
}
