/**
 * Vertex/edge overlap similarity (NetComp/vertex_edge.py): the share of
 * nodes and edges two graphs have in common, and the distance derived from it.
 * A graph is given by its node set and its edge set, as `set(G.nodes())`
 * and `set(G.edges())` read it.
 */
module VertexEdge {
  import opened Common

  datatype SetGraph = SetGraph(nodes: set<int>, edges: set<(int, int)>)

  /** |V1 ∩ V2| + |E1 ∩ E2| */
  function Shared(g1: SetGraph, g2: SetGraph): nat
  {
    |g1.nodes * g2.nodes| + |g1.edges * g2.edges|
  }

  /** |V1 ∪ V2| + |E1 ∪ E2| */
  function Union(g1: SetGraph, g2: SetGraph): nat
  {
    |g1.nodes + g2.nodes| + |g1.edges + g2.edges|
  }

  /** Neither graph has a node or an edge. */
  predicate BothEmpty(g1: SetGraph, g2: SetGraph)
  {
    g1.nodes == {} && g2.nodes == {} && g1.edges == {} && g2.edges == {}
  }

  /** The common part is bounded by the union, and reaches it only for equal graphs. */
  lemma CommonUnionBound(g1: SetGraph, g2: SetGraph)
    ensures Shared(g1, g2) <= Union(g1, g2)
    ensures Shared(g1, g2) == Union(g1, g2) <==> g1 == g2
    ensures Union(g1, g2) == 0 <==> BothEmpty(g1, g2)
  {
    IntersectionUnionBound(g1.nodes, g2.nodes);
    IntersectionUnionBound(g1.edges, g2.edges);
    if Union(g1, g2) == 0 {
      assert |g1.nodes + g2.nodes| == 0 && |g1.edges + g2.edges| == 0;
      assert g1.nodes + g2.nodes == {} && g1.edges + g2.edges == {};
    }
  }

  /**
   * `vertex_edge_overlap`: (|V1 ∩ V2| + |E1 ∩ E2|) / (|V1 ∪ V2| + |E1 ∪ E2|).
   * The division is unguarded, so two graphs with no nodes and no edges
   * raise ZeroDivisionError.
   */
  function VertexEdgeOverlap(g1: SetGraph, g2: SetGraph): (r: Result<real>)
    ensures r.Err? <==> BothEmpty(g1, g2)
    ensures r.Ok? ==> 0.0 <= r.value <= 1.0
    ensures r.Ok? ==> (r.value == 1.0 <==> g1 == g2)
    ensures r.Ok? ==> (r.value == 0.0 <==> Shared(g1, g2) == 0)
    ensures r.Ok? ==> r.value * Union(g1, g2) as real == Shared(g1, g2) as real
  {
    CommonUnionBound(g1, g2);
    var c, u := Shared(g1, g2), Union(g1, g2);
    if u == 0 then Err(ZeroDivisionError)
    else
      Ratio(c as real, u as real);
      Ok(c as real / u as real)
  }

  /** Overlap does not depend on the order of the two graphs. */
  lemma OverlapSymmetric(g1: SetGraph, g2: SetGraph)
    ensures VertexEdgeOverlap(g1, g2) == VertexEdgeOverlap(g2, g1)
  {
    assert g1.nodes * g2.nodes == g2.nodes * g1.nodes && g1.nodes + g2.nodes == g2.nodes + g1.nodes;
    assert g1.edges * g2.edges == g2.edges * g1.edges && g1.edges + g2.edges == g2.edges + g1.edges;
  }

  /**
   * `vertex_edge_distance`: (1 - sim) / sim, or infinity when the graphs
   * share nothing (sim = 0); the overlap's ZeroDivisionError propagates.
   */
  function VertexEdgeDistance(g1: SetGraph, g2: SetGraph): (r: Result<Ext>)
    ensures r.Err? <==> BothEmpty(g1, g2)
    ensures r == Ok(Inf) <==> !BothEmpty(g1, g2) && Shared(g1, g2) == 0
    ensures r.Ok? && r.value.Finite? ==> r.value.r >= 0.0
    ensures r.Ok? ==> (r.value == Finite(0.0) <==> g1 == g2)
    ensures r.Ok? && r.value.Finite? ==>
      r.value.r * VertexEdgeOverlap(g1, g2).value == 1.0 - VertexEdgeOverlap(g1, g2).value
  {
    match VertexEdgeOverlap(g1, g2)
    case Err(e) => Err(e)
    case Ok(sim) =>
      if sim == 0.0 then Ok(Inf)
      else
        var d := (1.0 - sim) / sim;
        assert d * sim == 1.0 - sim;
        Ok(Finite(d))
  }

  /** The distance, like the overlap, is symmetric. */
  lemma DistanceSymmetric(g1: SetGraph, g2: SetGraph)
    ensures VertexEdgeDistance(g1, g2) == VertexEdgeDistance(g2, g1)
  {
    OverlapSymmetric(g1, g2);
  }

  /** A graph compared with itself: overlap 1 and distance 0, a single node included. */
  lemma SelfComparison(g: SetGraph)
    requires g.nodes != {} || g.edges != {}
    ensures VertexEdgeOverlap(g, g) == Ok(1.0)
    ensures VertexEdgeDistance(g, g) == Ok(Finite(0.0))
  {
  }
}
