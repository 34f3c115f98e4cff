/**
 * The vertex-edge overlap variant of veo.py: twice the common nodes and
 * edges over the total number of nodes and edges of both graphs, with two
 * empty graphs counted as identical.
 */
module Veo {
  import opened Common
  import opened VertexEdge

  /** |V| + |V'| + |E| + |E'| */
  function Total(g: SetGraph, h: SetGraph): nat
  {
    |g.nodes| + |h.nodes| + |g.edges| + |h.edges|
  }

  /** Twice the common part is bounded by the total, and reaches it only for equal graphs. */
  lemma SharedTotalBound(g: SetGraph, h: SetGraph)
    ensures 2 * Shared(g, h) <= Total(g, h)
    ensures 2 * Shared(g, h) == Total(g, h) <==> g == h
  {
    IntersectionBound(g.nodes, h.nodes);
    IntersectionBound(g.edges, h.edges);
  }

  /**
   * `vertex_edge_overlap` of veo.py: 2 * (common / total), and 1.0 when both
   * graphs have neither nodes nor edges.
   */
  function VertexEdgeOverlap(g: SetGraph, h: SetGraph): (r: real)
    ensures 0.0 <= r <= 1.0
    ensures r == 1.0 <==> g == h
    ensures Total(g, h) > 0 ==> r * Total(g, h) as real == 2.0 * Shared(g, h) as real
  {
    var numerator, denominator := Shared(g, h), Total(g, h);
    SharedTotalBound(g, h);
    if denominator == 0 then 1.0
    else
      Ratio(2.0 * numerator as real, denominator as real);
      assert 2.0 * (numerator as real / denominator as real) == 2.0 * numerator as real / denominator as real;
      2.0 * (numerator as real / denominator as real)
  }

  /** The score does not depend on which graph comes first. */
  lemma VeoSymmetric(g: SetGraph, h: SetGraph)
    ensures VertexEdgeOverlap(g, h) == VertexEdgeOverlap(h, g)
  {
    assert g.nodes * h.nodes == h.nodes * g.nodes && g.edges * h.edges == h.edges * g.edges;
  }

  /** Two empty graphs score 1.0 through the guard. */
  lemma VeoBothEmpty()
    ensures VertexEdgeOverlap(SetGraph({}, {}), SetGraph({}, {})) == 1.0
  {
  }
}
