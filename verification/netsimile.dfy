/**
 * The NetSimile distance (NetComp/netsimile.py): the Canberra distance
 * between the aggregated feature descriptions of two graphs, where a
 * position holding NaN, or two values whose magnitudes sum below 1e-15,
 * adds nothing.
 */
module Netsimile {
  import opened Common
  import opened Features

  /** `eps` of `_canberra_dist`. */
  const Eps: real := 0.000000000000001

  /** The contribution `d_update` of one pair of entries. */
  function Term(u: Float, w: Float): (t: real)
    ensures 0.0 <= t <= 1.0
    ensures t == 0.0 <==>
      u.NaN? || w.NaN? || Abs(u.x) + Abs(w.x) < Eps || u.x == w.x
    ensures !u.NaN? && !w.NaN? && Abs(u.x) + Abs(w.x) >= Eps ==>
      t * (Abs(u.x) + Abs(w.x)) == Abs(u.x - w.x)
  {
    if u.NaN? || w.NaN? then 0.0
    else
      var denom := Abs(u.x) + Abs(w.x);
      if denom < Eps then 0.0
      else
        AbsDiffLeSum(u.x, w.x);
        Ratio(Abs(u.x - w.x), denom);
        Abs(u.x - w.x) / denom
  }

  function Min(a: nat, b: nat): (r: nat)
    ensures r <= a && r <= b && (r == a || r == b)
  {
    if a <= b then a else b
  }

  /** The terms of the first k zipped pairs, summed. */
  function PrefixSum(v1: seq<Float>, v2: seq<Float>, k: nat): (d: real)
    requires k <= |v1| && k <= |v2|
    ensures 0.0 <= d <= k as real
  {
    if k == 0 then 0.0 else PrefixSum(v1, v2, k - 1) + Term(v1[k - 1], v2[k - 1])
  }

  /** The Canberra distance over `zip(v1, v2)`, which stops at the shorter vector. */
  function CanberraSum(v1: seq<Float>, v2: seq<Float>): real
  {
    PrefixSum(v1, v2, Min(|v1|, |v2|))
  }

  /**
   * `_canberra_dist`: the loop accumulating `d_update` over the zipped
   * entries; the result lies between 0 and the number of pairs.
   */
  method CanberraDist(v1: seq<Float>, v2: seq<Float>) returns (dCan: real)
    ensures dCan == CanberraSum(v1, v2)
    ensures 0.0 <= dCan <= Min(|v1|, |v2|) as real
  {
    dCan := 0.0;
    var n := if |v1| <= |v2| then |v1| else |v2|;
    for k := 0 to n
      invariant dCan == PrefixSum(v1, v2, k)
    {
      var u, w := v1[k], v2[k];
      var dUpdate: real;
      if u.NaN? || w.NaN? {
        dUpdate := 0.0;
      } else {
        var denom := Abs(u.x) + Abs(w.x);
        if denom < Eps {
          dUpdate := 0.0;
        } else {
          dUpdate := Abs(u.x - w.x) / denom;
        }
      }
      dCan := dCan + dUpdate;
    }
  }

  lemma TermSymmetric(u: Float, w: Float)
    ensures Term(u, w) == Term(w, u)
  {
    if !u.NaN? && !w.NaN? {
      AbsDiffLeSum(u.x, w.x);
    }
  }

  lemma {:induction false} PrefixSumSymmetric(v1: seq<Float>, v2: seq<Float>, k: nat)
    requires k <= |v1| && k <= |v2|
    ensures PrefixSum(v1, v2, k) == PrefixSum(v2, v1, k)
  {
    if k > 0 {
      PrefixSumSymmetric(v1, v2, k - 1);
      TermSymmetric(v1[k - 1], v2[k - 1]);
    }
  }

  /** The first k pairs sum to 0 exactly when each of them contributes 0. */
  lemma {:induction false} PrefixSumZero(v1: seq<Float>, v2: seq<Float>, k: nat)
    requires k <= |v1| && k <= |v2|
    ensures PrefixSum(v1, v2, k) == 0.0 <==> forall j :: 0 <= j < k ==> Term(v1[j], v2[j]) == 0.0
  {
    if k > 0 {
      PrefixSumZero(v1, v2, k - 1);
    }
  }

  /** Swapping the vectors leaves the distance unchanged. */
  lemma CanberraSumSymmetric(v1: seq<Float>, v2: seq<Float>)
    ensures CanberraSum(v1, v2) == CanberraSum(v2, v1)
  {
    PrefixSumSymmetric(v1, v2, Min(|v1|, |v2|));
  }

  /**
   * The distance is 0 exactly when every zipped pair is equal, holds a NaN,
   * or has magnitudes summing below `eps`.
   */
  lemma CanberraSumZero(v1: seq<Float>, v2: seq<Float>)
    ensures CanberraSum(v1, v2) == 0.0 <==>
      forall j :: 0 <= j < |v1| && j < |v2| ==>
        v1[j].NaN? || v2[j].NaN? || Abs(v1[j].x) + Abs(v2[j].x) < Eps || v1[j].x == v2[j].x
  {
    PrefixSumZero(v1, v2, Min(|v1|, |v2|));
  }

  /** A vector is at distance 0 from itself. */
  lemma CanberraSumSelf(v: seq<Float>)
    ensures CanberraSum(v, v) == 0.0
  {
    CanberraSumZero(v, v);
  }

  /** The aggregated description of one graph: 5 statistics for each of the 7 features. */
  function Signature(g: Graph, clust: seq<real>, stats: Stats): (d: seq<Float>)
    requires Valid(g) && |clust| == |g.adj|
    ensures |d| == 5 * NumFeatures
  {
    Aggregate(FeatureMatrix(g, clust), NumFeatures, stats)
  }

  /**
   * `netsimile`: features, then aggregation, for each graph, then the
   * Canberra distance of the two descriptions, which lies in [0, 35].
   */
  method NetsimileDistance(g1: Graph, clust1: seq<real>, g2: Graph, clust2: seq<real>, stats: Stats)
    returns (dCan: real)
    requires Valid(g1) && |clust1| == |g1.adj|
    requires Valid(g2) && |clust2| == |g2.adj|
    ensures dCan == CanberraSum(Signature(g1, clust1, stats), Signature(g2, clust2, stats))
    ensures 0.0 <= dCan <= (5 * NumFeatures) as real
  {
    var feat1 := GetFeatures(g1, clust1);
    var feat2 := GetFeatures(g2, clust2);
    var agg1 := AggregateFeatures(feat1, NumFeatures, stats);
    var agg2 := AggregateFeatures(feat2, NumFeatures, stats);
    dCan := CanberraDist(agg1, agg2);
  }

  /** NetSimile is symmetric, and a graph is at distance 0 from itself. */
  lemma NetsimileProperties(g1: Graph, clust1: seq<real>, g2: Graph, clust2: seq<real>, stats: Stats)
    requires Valid(g1) && |clust1| == |g1.adj|
    requires Valid(g2) && |clust2| == |g2.adj|
    ensures CanberraSum(Signature(g1, clust1, stats), Signature(g2, clust2, stats))
         == CanberraSum(Signature(g2, clust2, stats), Signature(g1, clust1, stats))
    ensures CanberraSum(Signature(g1, clust1, stats), Signature(g1, clust1, stats)) == 0.0
  {
    CanberraSumSymmetric(Signature(g1, clust1, stats), Signature(g2, clust2, stats));
    CanberraSumSelf(Signature(g1, clust1, stats));
  }
}
