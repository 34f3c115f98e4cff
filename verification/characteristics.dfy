/**
 * Count-based comparisons of two AIGs: the gate, edge and level count
 * metrics (sim_scores/characteristics_metrics.py, and the same six functions
 * in characteristics_metrics.py). An AIG enters only through its counts.
 */
module Characteristics {
  import opened Common

  /** `num_gates()`, `len(to_edge_list(aig))` and `num_levels()` of one AIG. */
  datatype AigCounts = AigCounts(gates: nat, edges: nat, levels: nat)

  /** `abs(x1 - x2)` on two counts. */
  function AbsDiff(x1: nat, x2: nat): (d: nat)
    ensures d as int == x1 - x2 || d as int == x2 - x1
    ensures d == 0 <==> x1 == x2
    ensures d <= x1 + x2
  {
    if x1 >= x2 then x1 - x2 else x2 - x1
  }

  /** `abs(x1 - x2) / (x1 + x2)`, 0.0 when both counts are 0. */
  function RelativeDiff(x1: nat, x2: nat): (r: real)
    ensures 0.0 <= r <= 1.0
    ensures r == 0.0 <==> x1 == x2
    ensures x1 + x2 > 0 ==> r * (x1 + x2) as real == AbsDiff(x1, x2) as real
  {
    var total := x1 + x2;
    if total == 0 then 0.0
    else
      Ratio(AbsDiff(x1, x2) as real, total as real);
      AbsDiff(x1, x2) as real / total as real
  }

  /** `absolute_gate_count_metric`: the distance between the two gate counts. */
  function AbsoluteGateCount(aig1: AigCounts, aig2: AigCounts): (d: nat)
    ensures d as int == aig1.gates - aig2.gates || d as int == aig2.gates - aig1.gates
    ensures d == 0 <==> aig1.gates == aig2.gates
  {
    AbsDiff(aig1.gates, aig2.gates)
  }

  /**
   * `relative_gate_count_metric`: the gate count difference as a share of
   * the total, 0.0 for a zero total.
   */
  function RelativeGateCount(aig1: AigCounts, aig2: AigCounts): (r: real)
    ensures 0.0 <= r <= 1.0
    ensures r == 0.0 <==> aig1.gates == aig2.gates
    ensures aig1.gates + aig2.gates > 0 ==>
      r * (aig1.gates + aig2.gates) as real == AbsoluteGateCount(aig1, aig2) as real
  {
    RelativeDiff(aig1.gates, aig2.gates)
  }

  /** `absolute_edge_count_metric`: the distance between the two edge counts. */
  function AbsoluteEdgeCount(aig1: AigCounts, aig2: AigCounts): (d: nat)
    ensures d as int == aig1.edges - aig2.edges || d as int == aig2.edges - aig1.edges
    ensures d == 0 <==> aig1.edges == aig2.edges
  {
    AbsDiff(aig1.edges, aig2.edges)
  }

  /**
   * `relative_edge_count_metric`: the edge count difference as a share of
   * the total, 0.0 for a zero total.
   */
  function RelativeEdgeCount(aig1: AigCounts, aig2: AigCounts): (r: real)
    ensures 0.0 <= r <= 1.0
    ensures r == 0.0 <==> aig1.edges == aig2.edges
    ensures aig1.edges + aig2.edges > 0 ==>
      r * (aig1.edges + aig2.edges) as real == AbsoluteEdgeCount(aig1, aig2) as real
  {
    RelativeDiff(aig1.edges, aig2.edges)
  }

  /** `absolute_level_count_metric`: the distance between the two level counts. */
  function AbsoluteLevelCount(aig1: AigCounts, aig2: AigCounts): (d: nat)
    ensures d as int == aig1.levels - aig2.levels || d as int == aig2.levels - aig1.levels
    ensures d == 0 <==> aig1.levels == aig2.levels
  {
    AbsDiff(aig1.levels, aig2.levels)
  }

  /**
   * `relative_level_count_metric`: the level count difference as a share of
   * the total, 0.0 for a zero total.
   */
  function RelativeLevelCount(aig1: AigCounts, aig2: AigCounts): (r: real)
    ensures 0.0 <= r <= 1.0
    ensures r == 0.0 <==> aig1.levels == aig2.levels
    ensures aig1.levels + aig2.levels > 0 ==>
      r * (aig1.levels + aig2.levels) as real == AbsoluteLevelCount(aig1, aig2) as real
  {
    RelativeDiff(aig1.levels, aig2.levels)
  }

  /** Every count metric is symmetric in the two AIGs. */
  lemma CountMetricsSymmetric(aig1: AigCounts, aig2: AigCounts)
    ensures AbsoluteGateCount(aig1, aig2) == AbsoluteGateCount(aig2, aig1)
    ensures RelativeGateCount(aig1, aig2) == RelativeGateCount(aig2, aig1)
    ensures AbsoluteEdgeCount(aig1, aig2) == AbsoluteEdgeCount(aig2, aig1)
    ensures RelativeEdgeCount(aig1, aig2) == RelativeEdgeCount(aig2, aig1)
    ensures AbsoluteLevelCount(aig1, aig2) == AbsoluteLevelCount(aig2, aig1)
    ensures RelativeLevelCount(aig1, aig2) == RelativeLevelCount(aig2, aig1)
  {
  }

  /** AIGs with equal counts (two empty AIGs among them) score 0 on all six metrics. */
  lemma EqualCountsScoreZero(aig1: AigCounts, aig2: AigCounts)
    requires aig1 == aig2
    ensures AbsoluteGateCount(aig1, aig2) == 0 && RelativeGateCount(aig1, aig2) == 0.0
    ensures AbsoluteEdgeCount(aig1, aig2) == 0 && RelativeEdgeCount(aig1, aig2) == 0.0
    ensures AbsoluteLevelCount(aig1, aig2) == 0 && RelativeLevelCount(aig1, aig2) == 0.0
  {
  }

  /** 3 against 8 gates: absolute 5, relative 5/11. */
  lemma GateCountExample(aig1: AigCounts, aig2: AigCounts)
    requires aig1.gates == 3 && aig2.gates == 8
    ensures AbsoluteGateCount(aig1, aig2) == 5
    ensures RelativeGateCount(aig1, aig2) == 5.0 / 11.0
  {
  }
}
