/**
 * The Canberra distance between two attribute lists
 * (sim_scores/canberra_distance_metric.py): the sum over positions of
 * |a1 - a2| / (|a1| + |a2|), where a position with both values 0 adds 0.
 */
module CanberraMetric {
  import opened Common

  /**
   * The contribution of one pair of attributes: |a1 - a2| / (|a1| + |a2|),
   * 0 exactly for equal values.
   */
  function Term(a1: real, a2: real): (t: real)
    ensures 0.0 <= t <= 1.0
    ensures (a1 != 0.0 || a2 != 0.0) ==> t * (Abs(a1) + Abs(a2)) == Abs(a1 - a2)
    ensures t == 0.0 <==> a1 == a2
  {
    if a1 != 0.0 || a2 != 0.0 then
      AbsDiffLeSum(a1, a2);
      Ratio(Abs(a1 - a2), Abs(a1) + Abs(a2));
      Abs(a1 - a2) / (Abs(a1) + Abs(a2))
    else 0.0
  }

  /** The sum of the terms over the zipped lists. */
  function TermSum(attrs1: seq<real>, attrs2: seq<real>): (d: real)
    requires |attrs1| == |attrs2|
    ensures 0.0 <= d <= |attrs1| as real
  {
    if attrs1 == [] then 0.0
    else
      var k := |attrs1| - 1;
      TermSum(attrs1[..k], attrs2[..k]) + Term(attrs1[k], attrs2[k])
  }

  /**
   * `canberra_distance_metric`: ValueError for lists of different lengths,
   * otherwise the sum of the terms, between 0 and the list length.
   */
  function CanberraDistanceMetric(attrs1: seq<real>, attrs2: seq<real>): (r: Result<real>)
    ensures r.Err? <==> |attrs1| != |attrs2|
    ensures r.Ok? ==> 0.0 <= r.value <= |attrs1| as real
  {
    if |attrs1| != |attrs2| then Err(ValueError("Both attribute lists must have the same length."))
    else Ok(TermSum(attrs1, attrs2))
  }

  lemma TermSymmetric(a1: real, a2: real)
    ensures Term(a1, a2) == Term(a2, a1)
  {
    AbsDiffLeSum(a1, a2);
  }

  /** Swapping the two lists leaves the distance unchanged. */
  lemma {:induction false} TermSumSymmetric(attrs1: seq<real>, attrs2: seq<real>)
    requires |attrs1| == |attrs2|
    ensures TermSum(attrs1, attrs2) == TermSum(attrs2, attrs1)
  {
    if attrs1 != [] {
      var k := |attrs1| - 1;
      TermSumSymmetric(attrs1[..k], attrs2[..k]);
      TermSymmetric(attrs1[k], attrs2[k]);
    }
  }

  /** A list compared with itself is at distance 0. */
  lemma {:induction false} TermSumSelf(attrs: seq<real>)
    ensures TermSum(attrs, attrs) == 0.0
  {
    if attrs != [] {
      TermSumSelf(attrs[..|attrs| - 1]);
    }
  }

  /** The sum is 0 exactly for identical lists. */
  lemma {:induction false} TermSumZero(attrs1: seq<real>, attrs2: seq<real>)
    requires |attrs1| == |attrs2|
    ensures TermSum(attrs1, attrs2) == 0.0 <==> attrs1 == attrs2
  {
    if attrs1 != [] {
      var k := |attrs1| - 1;
      TermSumZero(attrs1[..k], attrs2[..k]);
      assert attrs1 == attrs1[..k] + [attrs1[k]];
      assert attrs2 == attrs2[..k] + [attrs2[k]];
    }
  }

  lemma CanberraSymmetric(attrs1: seq<real>, attrs2: seq<real>)
    ensures CanberraDistanceMetric(attrs1, attrs2) == CanberraDistanceMetric(attrs2, attrs1)
  {
    if |attrs1| == |attrs2| {
      TermSumSymmetric(attrs1, attrs2);
    }
  }

  lemma CanberraSelf(attrs: seq<real>)
    ensures CanberraDistanceMetric(attrs, attrs) == Ok(0.0)
  {
    TermSumSelf(attrs);
  }

  /** The metric is Ok(0.0) exactly for identical lists; lists of different lengths are an error. */
  lemma CanberraZero(attrs1: seq<real>, attrs2: seq<real>)
    ensures CanberraDistanceMetric(attrs1, attrs2) == Ok(0.0) <==> attrs1 == attrs2
  {
    if |attrs1| == |attrs2| {
      TermSumZero(attrs1, attrs2);
    }
  }
}
