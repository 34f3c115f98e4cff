/**
 * Edge lists of an And-Inverter Graph and the graphs built from them
 * (graph_utils.py). An AIG edge is a (source, target, weight) triple whose
 * weight marks an inverted connection; `transform_edge_list` turns every
 * inverted edge into the reversed, unweighted pair, and `get_graph` chooses
 * the edge form from the `directed` / `weighted` flags and rejects graphs
 * without nodes.
 */
module GraphUtils {
  import opened Common

  /** One element of the edge list produced for an AIG. */
  datatype SignedEdge = SignedEdge(source: int, target: int, weight: int)

  type Pair = (int, int)

  /** The weight that marks an inverted edge. */
  const InvertedWeight: int := -1

  /** Where one signed edge lands: reversed when inverted, as is otherwise. */
  function Orient(e: SignedEdge): Pair
  {
    if e.weight == InvertedWeight then (e.target, e.source) else (e.source, e.target)
  }

  /** The transformed list, one oriented pair per input edge, in input order. */
  function Transformed(edges: seq<SignedEdge>): (r: seq<Pair>)
    ensures |r| == |edges|
    ensures forall i :: 0 <= i < |edges| ==>
      r[i] == (if edges[i].weight == InvertedWeight
               then (edges[i].target, edges[i].source)
               else (edges[i].source, edges[i].target))
  {
    if edges == [] then []
    else Transformed(edges[..|edges| - 1]) + [Orient(edges[|edges| - 1])]
  }

  /** The weights dropped, direction kept: the undirected, unweighted form. */
  function Stripped(edges: seq<SignedEdge>): (r: seq<Pair>)
    ensures |r| == |edges|
    ensures forall i :: 0 <= i < |edges| ==> r[i] == (edges[i].source, edges[i].target)
  {
    if edges == [] then []
    else Stripped(edges[..|edges| - 1]) + [(edges[|edges| - 1].source, edges[|edges| - 1].target)]
  }

  /**
   * `transform_edge_list`: builds the output by appending one pair per input
   * edge. The input is a value and is left as it was.
   */
  method TransformEdgeList(edges: seq<SignedEdge>) returns (transformed: seq<Pair>)
    ensures transformed == Transformed(edges)
  {
    transformed := [];
    for k := 0 to |edges|
      invariant transformed == Transformed(edges[..k])
    {
      var e := edges[k];
      if e.weight == InvertedWeight {
        transformed := transformed + [(e.target, e.source)];
      } else {
        transformed := transformed + [(e.source, e.target)];
      }
      assert edges[..k + 1][..k] == edges[..k];
    }
    assert edges[..|edges|] == edges;
  }

  /** The transformation works edge by edge, so it distributes over concatenation. */
  lemma {:induction false} TransformedAppend(a: seq<SignedEdge>, b: seq<SignedEdge>)
    ensures Transformed(a + b) == Transformed(a) + Transformed(b)
  {
    if b == [] {
      assert a + b == a;
    } else {
      var b' := b[..|b| - 1];
      assert (a + b)[..|a + b| - 1] == a + b';
      TransformedAppend(a, b');
    }
  }

  /** With no inverted edge the transformation only drops the weights. */
  lemma {:induction false} TransformedWithoutInversion(edges: seq<SignedEdge>)
    requires forall i :: 0 <= i < |edges| ==> edges[i].weight != InvertedWeight
    ensures Transformed(edges) == Stripped(edges)
  {
    if edges != [] {
      TransformedWithoutInversion(edges[..|edges| - 1]);
    }
  }

  /**
   * Transformed and stripped lists differ exactly at the inverted edges, where
   * the transformed pair is the stripped pair reversed.
   */
  lemma TransformedVersusStripped(edges: seq<SignedEdge>, i: nat)
    requires i < |edges|
    ensures Transformed(edges)[i] == Stripped(edges)[i] <==>
            (edges[i].weight != InvertedWeight || edges[i].source == edges[i].target)
    ensures edges[i].weight == InvertedWeight ==>
            Transformed(edges)[i] == (Stripped(edges)[i].1, Stripped(edges)[i].0)
  {
  }

  /** The edge form handed to networkx. */
  datatype EdgeForm =
    | Pairs(pairs: seq<Pair>)
    | Triples(triples: seq<SignedEdge>)

  /** A networkx graph, represented by the edges it was built from. */
  datatype NxGraph = NxGraph(directed: bool, edges: EdgeForm)

  /** The nodes `add_edges_from` creates: every endpoint of every edge. */
  function Nodes(g: NxGraph): set<int>
  {
    match g.edges
    case Pairs(ps) => (set i | 0 <= i < |ps| :: ps[i].0) + (set i | 0 <= i < |ps| :: ps[i].1)
    case Triples(ts) => (set i | 0 <= i < |ts| :: ts[i].source) + (set i | 0 <= i < |ts| :: ts[i].target)
  }

  /** Every source and every target of the edge list. */
  function Endpoints(edges: seq<SignedEdge>): set<int>
  {
    (set i | 0 <= i < |edges| :: edges[i].source) + (set i | 0 <= i < |edges| :: edges[i].target)
  }

  /**
   * One graph of `get_graph`, built from one AIG's edge list. Whatever the
   * flags, its nodes are the endpoints of the AIG's edges: reversing an
   * inverted edge changes its direction, not its nodes.
   */
  function BuildGraph(edges: seq<SignedEdge>, directed: bool, weighted: bool): (g: NxGraph)
    ensures g.directed == directed
    ensures Nodes(g) == Endpoints(edges)
  {
    if weighted then NxGraph(directed, Triples(edges))
    else if directed then NxGraph(directed, Pairs(Transformed(edges)))
    else NxGraph(directed, Pairs(Stripped(edges)))
  }

  /** A graph built from an edge list has nodes exactly when the list is not empty. */
  lemma BuildGraphEmpty(edges: seq<SignedEdge>, directed: bool, weighted: bool)
    ensures Nodes(BuildGraph(edges, directed, weighted)) == {} <==> edges == []
  {
    var g := BuildGraph(edges, directed, weighted);
    if edges != [] {
      match g.edges
      case Pairs(ps) => assert ps[0].0 in Nodes(g);
      case Triples(ts) => assert ts[0].source in Nodes(g);
    }
  }

  /**
   * `get_graph` on the two edge lists `to_edge_list` returns: fails with
   * `ValueError` when either graph has no node, otherwise returns both graphs.
   */
  function GetGraph(edges1: seq<SignedEdge>, edges2: seq<SignedEdge>, directed: bool, weighted: bool)
    : (r: Result<(NxGraph, NxGraph)>)
    ensures r.Err? <==> edges1 == [] || edges2 == []
    ensures r.Ok? ==> Nodes(r.value.0) != {} && Nodes(r.value.1) != {}
    ensures r.Ok? ==> r.value.0.directed == directed && r.value.1.directed == directed
    ensures r.Ok? && !directed && !weighted ==>
      r.value.0.edges == Pairs(Stripped(edges1)) && r.value.1.edges == Pairs(Stripped(edges2))
    ensures r.Ok? && directed && !weighted ==>
      r.value.0.edges == Pairs(Transformed(edges1)) && r.value.1.edges == Pairs(Transformed(edges2))
    ensures r.Ok? && weighted ==>
      r.value.0.edges == Triples(edges1) && r.value.1.edges == Triples(edges2)
  {
    var g1 := BuildGraph(edges1, directed, weighted);
    var g2 := BuildGraph(edges2, directed, weighted);
    BuildGraphEmpty(edges1, directed, weighted);
    BuildGraphEmpty(edges2, directed, weighted);
    if Nodes(g1) == {} || Nodes(g2) == {} then
      Err(ValueError("Resistance distance is undefined for empty graphs."))
    else
      Ok((g1, g2))
  }

  /** The unit tests' mixed example: inverted edges reversed, the others kept. */
  lemma MixedExample()
    ensures Transformed([SignedEdge(1, 2, -1), SignedEdge(2, 3, 1), SignedEdge(3, 4, -1)])
            == [(2, 1), (2, 3), (4, 3)]
  {
  }
}
