/**
 * The Bray-Curtis dissimilarity of two attribute lists
 * (sim_scores/bray_curtis_dissimilarity_metric.py): the summed absolute
 * differences over the summed magnitudes, 0.0 when every value is 0.
 */
module BrayCurtis {
  import opened Common

  /** The denominator: the sum of |a1| + |a2| over the zipped lists. */
  function SumMagnitudes(attrs1: seq<real>, attrs2: seq<real>): (s: real)
    requires |attrs1| == |attrs2|
    ensures s >= 0.0
    ensures s == 0.0 <==> forall i :: 0 <= i < |attrs1| ==> attrs1[i] == 0.0 && attrs2[i] == 0.0
  {
    if attrs1 == [] then 0.0
    else
      var k := |attrs1| - 1;
      SumMagnitudes(attrs1[..k], attrs2[..k]) + Abs(attrs1[k]) + Abs(attrs2[k])
  }

  /** The numerator: the sum of |a1 - a2|, never above the denominator. */
  function SumDifferences(attrs1: seq<real>, attrs2: seq<real>): (s: real)
    requires |attrs1| == |attrs2|
    ensures 0.0 <= s <= SumMagnitudes(attrs1, attrs2)
  {
    if attrs1 == [] then 0.0
    else
      var k := |attrs1| - 1;
      AbsDiffLeSum(attrs1[k], attrs2[k]);
      SumDifferences(attrs1[..k], attrs2[..k]) + Abs(attrs1[k] - attrs2[k])
  }

  /**
   * numerator / denominator for 0 <= numerator <= denominator and a positive
   * denominator: the number in [0, 1] that, times the denominator, gives the
   * numerator.
   */
  function Quotient(numerator: real, denominator: real): (q: real)
    requires 0.0 <= numerator <= denominator && denominator > 0.0
    ensures 0.0 <= q <= 1.0
    ensures q * denominator == numerator
  {
    Ratio(numerator, denominator);
    numerator / denominator
  }

  /**
   * `bray_curtis_dissimilarity_metric`: ValueError for lists of different
   * lengths; 0.0 when both lists are all zeros; otherwise the summed
   * differences over the summed magnitudes, which lies in [0, 1].
   */
  function BrayCurtisDissimilarity(attrs1: seq<real>, attrs2: seq<real>): (r: Result<real>)
    ensures r.Err? <==> |attrs1| != |attrs2|
    ensures r.Ok? ==> 0.0 <= r.value <= 1.0
    ensures r.Ok? && (forall i :: 0 <= i < |attrs1| ==> attrs1[i] == 0.0 && attrs2[i] == 0.0) ==>
      r.value == 0.0
    ensures r.Ok? && SumMagnitudes(attrs1, attrs2) != 0.0 ==>
      r.value == Quotient(SumDifferences(attrs1, attrs2), SumMagnitudes(attrs1, attrs2))
  {
    if |attrs1| != |attrs2| then Err(ValueError("Both attribute lists must have the same length."))
    else
      var numerator := SumDifferences(attrs1, attrs2);
      var denominator := SumMagnitudes(attrs1, attrs2);
      if denominator == 0.0 then Ok(0.0) else Ok(Quotient(numerator, denominator))
  }

  /** Swapping the lists changes neither sum. */
  lemma {:induction false} SumsSymmetric(attrs1: seq<real>, attrs2: seq<real>)
    requires |attrs1| == |attrs2|
    ensures SumDifferences(attrs1, attrs2) == SumDifferences(attrs2, attrs1)
    ensures SumMagnitudes(attrs1, attrs2) == SumMagnitudes(attrs2, attrs1)
  {
    if attrs1 != [] {
      var k := |attrs1| - 1;
      SumsSymmetric(attrs1[..k], attrs2[..k]);
      AbsDiffLeSum(attrs1[k], attrs2[k]);
    }
  }

  /** Identical lists have no difference at all. */
  lemma {:induction false} SumDifferencesSelf(attrs: seq<real>)
    ensures SumDifferences(attrs, attrs) == 0.0
  {
    if attrs != [] {
      SumDifferencesSelf(attrs[..|attrs| - 1]);
    }
  }

  /** The numerator is 0 exactly for identical lists. */
  lemma {:induction false} SumDifferencesZero(attrs1: seq<real>, attrs2: seq<real>)
    requires |attrs1| == |attrs2|
    ensures SumDifferences(attrs1, attrs2) == 0.0 <==> attrs1 == attrs2
  {
    if attrs1 != [] {
      var k := |attrs1| - 1;
      SumDifferencesZero(attrs1[..k], attrs2[..k]);
      assert attrs1 == attrs1[..k] + [attrs1[k]];
      assert attrs2 == attrs2[..k] + [attrs2[k]];
    }
  }

  lemma BrayCurtisSymmetric(attrs1: seq<real>, attrs2: seq<real>)
    ensures BrayCurtisDissimilarity(attrs1, attrs2) == BrayCurtisDissimilarity(attrs2, attrs1)
  {
    if |attrs1| == |attrs2| {
      SumsSymmetric(attrs1, attrs2);
    }
  }

  lemma BrayCurtisSelf(attrs: seq<real>)
    ensures BrayCurtisDissimilarity(attrs, attrs) == Ok(0.0)
  {
    SumDifferencesSelf(attrs);
  }

  /** The dissimilarity is Ok(0.0) exactly for identical lists; lists of different lengths are an error. */
  lemma BrayCurtisZero(attrs1: seq<real>, attrs2: seq<real>)
    ensures BrayCurtisDissimilarity(attrs1, attrs2) == Ok(0.0) <==> attrs1 == attrs2
  {
    if |attrs1| == |attrs2| {
      SumDifferencesZero(attrs1, attrs2);
      if SumMagnitudes(attrs1, attrs2) == 0.0 {
        assert forall i :: 0 <= i < |attrs1| ==> attrs1[i] == attrs2[i];
      }
    }
  }
}
