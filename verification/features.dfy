/**
 * NetSimile's per-node features and their aggregation (NetComp/features.py).
 *
 * A graph is a simple undirected graph on the nodes 0..n-1, given by one
 * neighbour list per node (`G.neighbors(node)`). The clustering coefficients
 * (`nx.clustering`) and the summary statistics (numpy / scipy mean, median,
 * std, skew, kurtosis) are inputs: only the feature layout, the averaging
 * guards and the skewness / kurtosis guards are modelled.
 */
module Features {
  import opened Common

  datatype Graph = Graph(adj: seq<seq<nat>>)

  function Size(g: Graph): nat
  {
    |g.adj|
  }

  /** Every neighbour is a node of the graph. */
  predicate Closed(g: Graph)
  {
    forall i, k :: 0 <= i < |g.adj| && 0 <= k < |g.adj[i]| ==> g.adj[i][k] < |g.adj|
  }

  /**
   * A simple undirected graph: neighbours are nodes of the graph, no node is
   * its own neighbour, no neighbour is listed twice, and adjacency is
   * symmetric.
   */
  predicate Valid(g: Graph)
  {
    && Closed(g)
    && (forall i :: 0 <= i < |g.adj| ==> i !in g.adj[i])
    && (forall i, j :: 0 <= i < |g.adj| && 0 <= j < |g.adj| ==> (j in g.adj[i] <==> i in g.adj[j]))
    && (forall i, k, l :: 0 <= i < |g.adj| && 0 <= k < l < |g.adj[i]| ==> g.adj[i][k] != g.adj[i][l])
  }

  /** Every listed node is a node of g. */
  predicate InRange(g: Graph, nodes: seq<nat>)
  {
    forall k :: 0 <= k < |nodes| ==> nodes[k] < |g.adj|
  }

  function SetOf(nodes: seq<nat>): set<nat>
  {
    set w | w in nodes
  }

  /** The degree vector `d_vec`: one entry per node, the length of its neighbour list. */
  function Degrees(g: Graph): (d: seq<real>)
    ensures |d| == Size(g)
    ensures forall i :: 0 <= i < |d| ==> d[i] == |g.adj[i]| as real
  {
    seq(|g.adj|, i requires 0 <= i < |g.adj| => |g.adj[i]| as real)
  }

  /** `vals[idx].sum()` */
  function SumAt(vals: seq<real>, idx: seq<nat>): real
    requires forall k :: 0 <= k < |idx| ==> idx[k] < |vals|
  {
    if idx == [] then 0.0 else SumAt(vals, idx[..|idx| - 1]) + vals[idx[|idx| - 1]]
  }

  /** The average of `vals` over the neighbours `idx`, 0 for a node without neighbours. */
  function NeighborAverage(vals: seq<real>, idx: seq<nat>): real
    requires forall k :: 0 <= k < |idx| ==> idx[k] < |vals|
  {
    if idx == [] then 0.0 else SumAt(vals, idx) / |idx| as real
  }

  lemma {:induction false} SumAtBounds(vals: seq<real>, idx: seq<nat>, lo: real, hi: real)
    requires forall k :: 0 <= k < |idx| ==> idx[k] < |vals| && lo <= vals[idx[k]] <= hi
    ensures |idx| as real * lo <= SumAt(vals, idx) <= |idx| as real * hi
  {
    if idx != [] {
      var k := |idx| - 1;
      SumAtBounds(vals, idx[..k], lo, hi);
      assert k as real * lo + lo == |idx| as real * lo;
      assert k as real * hi + hi == |idx| as real * hi;
    }
  }

  /**
   * A neighbour average lies between the least and the greatest value it
   * averages, and is 0 for a node without neighbours.
   */
  lemma NeighborAverageBetween(vals: seq<real>, idx: seq<nat>, lo: real, hi: real)
    requires forall k :: 0 <= k < |idx| ==> idx[k] < |vals| && lo <= vals[idx[k]] <= hi
    ensures idx == [] ==> NeighborAverage(vals, idx) == 0.0
    ensures idx != [] ==> lo <= NeighborAverage(vals, idx) <= hi
  {
    if idx != [] {
      var total, n := SumAt(vals, idx), |idx| as real;
      SumAtBounds(vals, idx, lo, hi);
      DivBetween(total, n, lo, hi);
    }
  }

  lemma DivBetween(s: real, n: real, lo: real, hi: real)
    requires n > 0.0 && n * lo <= s <= n * hi
    ensures lo <= s / n <= hi
  {
  }

  /** The nodes of the ego network of i (`nx.ego_graph(G, i)`, radius 1), center first. */
  function EgoList(g: Graph, i: nat): seq<nat>
    requires i < |g.adj|
  {
    [i] + g.adj[i]
  }

  function EgoSet(g: Graph, i: nat): set<nat>
    requires i < |g.adj|
  {
    SetOf(EgoList(g, i))
  }

  /** The edges of the ego network of i, each as (smaller end, larger end). */
  function EgoEdges(g: Graph, i: nat): set<(nat, nat)>
    requires i < |g.adj|
  {
    var ego := EgoSet(g, i);
    set u, w | u in ego && w in ego && u < w && u < |g.adj| && w in g.adj[u] :: (u, w)
  }

  /** `egonet.number_of_edges()`: the edges with both ends in the ego network. */
  function EgoEdgeCount(g: Graph, i: nat): nat
    requires i < |g.adj|
  {
    |EgoEdges(g, i)|
  }

  /** The edge {i, w} as the ordered pair (smaller end, larger end) that `EgoEdgeCount` counts. */
  function EdgeOf(i: nat, w: nat): (nat, nat)
  {
    if i < w then (i, w) else (w, i)
  }

  /** The union of the neighbourhoods of the listed nodes (`all_neighbors`). */
  function UnionAdj(g: Graph, nodes: seq<nat>): set<nat>
    requires InRange(g, nodes)
  {
    if nodes == [] then {}
    else UnionAdj(g, nodes[..|nodes| - 1]) + SetOf(g.adj[nodes[|nodes| - 1]])
  }

  /** A node is in the union exactly when it is a neighbour of some listed node. */
  lemma {:induction false} UnionAdjMembers(g: Graph, nodes: seq<nat>, w: nat)
    requires InRange(g, nodes)
    ensures w in UnionAdj(g, nodes) <==> exists k :: 0 <= k < |nodes| && w in g.adj[nodes[k]]
  {
    if nodes != [] {
      var k := |nodes| - 1;
      UnionAdjMembers(g, nodes[..k], w);
      if w in UnionAdj(g, nodes[..k]) {
        var k' :| 0 <= k' < k && w in g.adj[nodes[..k][k']];
        assert w in g.adj[nodes[k']];
      }
      if exists k' :: 0 <= k' < |nodes| && w in g.adj[nodes[k']] {
        var k' :| 0 <= k' < |nodes| && w in g.adj[nodes[k']];
        if k' < k {
          assert nodes[..k][k'] == nodes[k'];
        }
      }
    }
  }

  lemma EgoInRange(g: Graph, i: nat)
    requires Closed(g) && i < |g.adj|
    ensures InRange(g, EgoList(g, i))
  {
  }

  lemma UnionAdjStep(g: Graph, nodes: seq<nat>, k: nat)
    requires InRange(g, nodes) && k < |nodes|
    ensures UnionAdj(g, nodes[..k + 1]) == UnionAdj(g, nodes[..k]) + SetOf(g.adj[nodes[k]])
  {
    assert nodes[..k + 1][..k] == nodes[..k];
  }

  /** The number of listed nodes outside `ego`. */
  function CountOutside(ns: seq<nat>, ego: set<nat>): nat
  {
    if ns == [] then 0
    else CountOutside(ns[..|ns| - 1], ego) + (if ns[|ns| - 1] !in ego then 1 else 0)
  }

  /** The number of (u, w) with u listed, w a neighbour of u and w outside `ego`. */
  function SumOutside(g: Graph, nodes: seq<nat>, ego: set<nat>): nat
    requires InRange(g, nodes)
  {
    if nodes == [] then 0
    else
      var k := |nodes| - 1;
      SumOutside(g, nodes[..k], ego) + CountOutside(g.adj[nodes[k]], ego)
  }

  /** The ego network's external neighbours: nodes next to the ego network but outside it. */
  function EgoNeighbors(g: Graph, i: nat): nat
    requires Closed(g) && i < |g.adj|
  {
    |UnionAdj(g, EgoList(g, i)) - EgoSet(g, i)|
  }

  /** The edges leaving the ego network, counted from their inside end. */
  function OutgoingEdges(g: Graph, i: nat): nat
    requires Closed(g) && i < |g.adj|
  {
    SumOutside(g, EgoList(g, i), EgoSet(g, i))
  }

  lemma {:induction false} SetOfPrefix(ns: seq<nat>)
    requires ns != []
    ensures SetOf(ns) == SetOf(ns[..|ns| - 1]) + {ns[|ns| - 1]}
  {
    assert ns == ns[..|ns| - 1] + [ns[|ns| - 1]];
  }

  /** Distinct outside nodes are at most as many as the outside entries of the list. */
  lemma {:induction false} OutsideSetBound(ns: seq<nat>, ego: set<nat>)
    ensures |SetOf(ns) - ego| <= CountOutside(ns, ego)
  {
    if ns != [] {
      var k := |ns| - 1;
      SetOfPrefix(ns);
      OutsideSetBound(ns[..k], ego);
      if ns[k] in ego {
        assert SetOf(ns) - ego == SetOf(ns[..k]) - ego;
      } else {
        assert SetOf(ns) - ego <= (SetOf(ns[..k]) - ego) + {ns[k]};
        SubsetCard(SetOf(ns) - ego, (SetOf(ns[..k]) - ego) + {ns[k]});
      }
    }
  }

  lemma SubsetCard<T>(a: set<T>, b: set<T>)
    requires a <= b
    ensures |a| <= |b|
  {
    assert b == a + (b - a);
  }

  lemma {:induction false} UnionOutsideBound(g: Graph, nodes: seq<nat>, ego: set<nat>)
    requires InRange(g, nodes)
    ensures |UnionAdj(g, nodes) - ego| <= SumOutside(g, nodes, ego)
  {
    if nodes != [] {
      var k := |nodes| - 1;
      UnionOutsideBound(g, nodes[..k], ego);
      OutsideSetBound(g.adj[nodes[k]], ego);
      var a, b := UnionAdj(g, nodes[..k]) - ego, SetOf(g.adj[nodes[k]]) - ego;
      assert UnionAdj(g, nodes) - ego == a + b;
      assert |a + b| <= |a| + |b| by {
        assert |a + b| + |a * b| == |a| + |b|;
      }
    }
  }

  /** A list without repetitions has as many distinct members as entries. */
  lemma {:induction false} DistinctCard(ns: seq<nat>)
    requires forall k, l :: 0 <= k < l < |ns| ==> ns[k] != ns[l]
    ensures |SetOf(ns)| == |ns|
  {
    if ns != [] {
      var k := |ns| - 1;
      SetOfPrefix(ns);
      DistinctCard(ns[..k]);
      assert ns[k] !in SetOf(ns[..k]);
    }
  }

  /** In a simple graph the degree of a node is the number of distinct nodes adjacent to it. */
  lemma DegreeCountsNeighbours(g: Graph, i: nat)
    requires Valid(g) && i < |g.adj|
    ensures Degrees(g)[i] == |SetOf(g.adj[i])| as real
  {
    DistinctCard(g.adj[i]);
  }

  /** Distinct neighbours w of i give distinct edges {i, w}. */
  lemma {:induction false} StarCard(i: nat, nbrs: set<nat>)
    requires i !in nbrs
    ensures |set w | w in nbrs :: EdgeOf(i, w)| == |nbrs|
    decreases nbrs
  {
    if nbrs != {} {
      var w :| w in nbrs;
      var rest := nbrs - {w};
      StarCard(i, rest);
      var img := set x | x in nbrs :: EdgeOf(i, x);
      var imgRest := set x | x in rest :: EdgeOf(i, x);
      assert img == imgRest + {EdgeOf(i, w)};
      assert EdgeOf(i, w) !in imgRest;
    }
  }

  /** The edge from i to a neighbour w is an edge of the ego network of i. */
  lemma StarEdgeInEgo(g: Graph, i: nat, w: nat)
    requires Valid(g) && i < |g.adj| && w in g.adj[i]
    ensures EdgeOf(i, w) in EgoEdges(g, i)
  {
    var ego := EgoSet(g, i);
    assert i in ego && w in ego;
    if w < i {
      assert i in g.adj[w];
    }
  }

  /**
   * Each neighbour w of node i contributes the edge {i, w} to the ego
   * network of i, so the ego network has at least as many edges as i has
   * neighbours.
   */
  lemma EgoEdgesAtLeastDegree(g: Graph, i: nat)
    requires Valid(g) && i < |g.adj|
    ensures |g.adj[i]| <= EgoEdgeCount(g, i)
  {
    var nbrs := SetOf(g.adj[i]);
    var star := set w | w in nbrs :: EdgeOf(i, w);
    forall e | e in star
      ensures e in EgoEdges(g, i)
    {
      var w :| w in nbrs && e == EdgeOf(i, w);
      StarEdgeInEgo(g, i, w);
    }
    SubsetCard(star, EgoEdges(g, i));
    StarCard(i, nbrs);
    DistinctCard(g.adj[i]);
  }

  /**
   * Every external neighbour of an ego network is reached by at least one
   * outgoing edge, so the outgoing-edge count is at least the
   * external-neighbour count.
   */
  lemma ExternalNeighborsAtMostOutgoing(g: Graph, i: nat)
    requires Closed(g) && i < |g.adj|
    ensures EgoNeighbors(g, i) <= OutgoingEdges(g, i)
  {
    UnionOutsideBound(g, EgoList(g, i), EgoSet(g, i));
  }

  /**
   * The external neighbours are exactly the nodes adjacent to some node of
   * the ego network that are not in it.
   */
  lemma EgoNeighborsAreExternal(g: Graph, i: nat, w: nat)
    requires Closed(g) && i < |g.adj|
    ensures w in UnionAdj(g, EgoList(g, i)) - EgoSet(g, i) <==>
      (w != i && w !in g.adj[i] && exists u :: u in EgoSet(g, i) && u < |g.adj| && w in g.adj[u])
  {
    var ego := EgoList(g, i);
    EgoInRange(g, i);
    UnionAdjMembers(g, ego, w);
    if exists u :: u in EgoSet(g, i) && u < |g.adj| && w in g.adj[u] {
      var u :| u in EgoSet(g, i) && u < |g.adj| && w in g.adj[u];
      var k :| 0 <= k < |ego| && ego[k] == u;
      assert w in g.adj[ego[k]];
    }
  }

  /** One feature row, in the column order of `feature_mat`. */
  function FeatureRow(g: Graph, clust: seq<real>, i: nat): (row: seq<real>)
    requires Valid(g) && |clust| == |g.adj| && i < |g.adj|
  {
    [ |g.adj[i]| as real,
      clust[i],
      NeighborAverage(Degrees(g), g.adj[i]),
      NeighborAverage(clust, g.adj[i]),
      EgoEdgeCount(g, i) as real,
      EgoNeighbors(g, i) as real,
      OutgoingEdges(g, i) as real ]
  }

  /** The feature matrix: one row per node, seven columns. */
  function FeatureMatrix(g: Graph, clust: seq<real>): (m: seq<seq<real>>)
    requires Valid(g) && |clust| == |g.adj|
    ensures |m| == |g.adj| && Rectangular(m, NumFeatures)
  {
    seq(|g.adj|, i requires 0 <= i < |g.adj| => FeatureRow(g, clust, i))
  }

  /** The number of feature columns. */
  const NumFeatures: nat := 7

  /** The `neighbor_deg` / `neighbor_clust` loops: one neighbour average per node. */
  method NeighborAverages(g: Graph, vals: seq<real>) returns (avgs: seq<real>)
    requires Valid(g) && |vals| == |g.adj|
    ensures |avgs| == |g.adj|
    ensures forall i :: 0 <= i < |g.adj| ==> avgs[i] == NeighborAverage(vals, g.adj[i])
  {
    avgs := [];
    for i := 0 to |g.adj|
      invariant |avgs| == i
      invariant forall j :: 0 <= j < i ==> avgs[j] == NeighborAverage(vals, g.adj[j])
    {
      var neighborNodes := g.adj[i];
      var avg: real;
      if neighborNodes != [] {
        var total := SumAt(vals, neighborNodes);
        avg := total / |neighborNodes| as real;
      } else {
        avg := 0.0;
      }
      avgs := avgs + [avg];
    }
  }

  /** The `all_neighbors` loop: the union of the listed nodes' neighbourhoods. */
  method NeighborUnion(g: Graph, nodes: seq<nat>) returns (allNeighbors: set<nat>)
    requires InRange(g, nodes)
    ensures allNeighbors == UnionAdj(g, nodes)
  {
    allNeighbors := {};
    for k := 0 to |nodes|
      invariant allNeighbors == UnionAdj(g, nodes[..k])
    {
      allNeighbors := allNeighbors + SetOf(g.adj[nodes[k]]);
      UnionAdjStep(g, nodes, k);
    }
    assert nodes[..|nodes|] == nodes;
  }

  /** One step of the `ego_neighbors` loop: the external neighbours of the ego network of i. */
  method EgoNeighborCount(g: Graph, i: nat) returns (count: nat)
    requires Closed(g) && i < |g.adj|
    ensures count == EgoNeighbors(g, i)
  {
    var egoNodes := EgoList(g, i);
    EgoInRange(g, i);
    var allNeighbors := NeighborUnion(g, egoNodes);
    count := |allNeighbors - EgoSet(g, i)|;
  }

  /** The `ego_neighbors` loop: the union of the ego nodes' neighbourhoods, minus the ego network. */
  method EgoNeighborCounts(g: Graph) returns (counts: seq<nat>)
    requires Closed(g)
    ensures |counts| == |g.adj|
    ensures forall i :: 0 <= i < |g.adj| ==> counts[i] == EgoNeighbors(g, i)
  {
    ghost var target := seq(|g.adj|, j requires 0 <= j < |g.adj| => EgoNeighbors(g, j));
    counts := [];
    for i := 0 to |g.adj|
      invariant counts == target[..i]
    {
      var count := EgoNeighborCount(g, i);
      PrefixStep(target, counts, i, count);
      counts := counts + [count];
    }
    assert counts == target;
  }

  /** The `outgoing_edges` loop: count the neighbours of ego nodes that lie outside the ego network. */
  method OutgoingEdgeCounts(g: Graph) returns (counts: seq<nat>)
    requires Closed(g)
    ensures |counts| == |g.adj|
    ensures forall i :: 0 <= i < |g.adj| ==> counts[i] == OutgoingEdges(g, i)
  {
    counts := [];
    for i := 0 to |g.adj|
      invariant |counts| == i
      invariant forall j :: 0 <= j < i ==> counts[j] == OutgoingEdges(g, j)
    {
      var egoNodes := EgoList(g, i);
      var ego := EgoSet(g, i);
      var count := 0;
      for k := 0 to |egoNodes|
        invariant count == SumOutside(g, egoNodes[..k], ego)
      {
        var node := egoNodes[k];
        var neighbors := g.adj[node];
        ghost var before := count;
        for l := 0 to |neighbors|
          invariant count == before + CountOutside(neighbors[..l], ego)
        {
          if neighbors[l] !in ego {
            count := count + 1;
          }
          assert neighbors[..l + 1][..l] == neighbors[..l];
        }
        assert neighbors[..|neighbors|] == neighbors;
        assert egoNodes[..k + 1][..k] == egoNodes[..k];
      }
      assert egoNodes[..|egoNodes|] == egoNodes;
      counts := counts + [count];
    }
  }

  /**
   * `get_features`: the n x 7 feature matrix (degree, clustering, average
   * neighbour degree, average neighbour clustering, ego edges, ego external
   * neighbours, ego outgoing edges); no rows for a graph without nodes.
   */
  method GetFeatures(g: Graph, clust: seq<real>) returns (featureMat: seq<seq<real>>)
    requires Valid(g) && |clust| == |g.adj|
    ensures featureMat == FeatureMatrix(g, clust)
    ensures |featureMat| == |g.adj|
    ensures forall i :: 0 <= i < |g.adj| ==> |featureMat[i]| == NumFeatures
  {
    var n := |g.adj|;
    if n == 0 {
      return [];
    }
    var dVec := Degrees(g);
    var neighborDeg := NeighborAverages(g, dVec);
    var neighborClust := NeighborAverages(g, clust);
    var egoSize := seq(n, i requires 0 <= i < n => EgoEdgeCount(g, i));
    var egoNeighbors := EgoNeighborCounts(g);
    var outgoingEdges := OutgoingEdgeCounts(g);
    featureMat := seq(n, i requires 0 <= i < n =>
      [dVec[i], clust[i], neighborDeg[i], neighborClust[i],
       egoSize[i] as real, egoNeighbors[i] as real, outgoingEdges[i] as real]);
  }

  /** The summary statistics numpy and scipy compute on one column. */
  datatype Stats = Stats(
    mean: seq<real> -> Float,
    median: seq<real> -> Float,
    std: seq<real> -> Float,
    skew: seq<real> -> Float,
    kurtosis: seq<real> -> Float)

  predicate Rectangular(mat: seq<seq<real>>, cols: nat)
  {
    forall r :: 0 <= r < |mat| ==> |mat[r]| == cols
  }

  /** `feature_mat[:, j]` */
  function Column(mat: seq<seq<real>>, cols: nat, j: nat): (c: seq<real>)
    requires Rectangular(mat, cols) && j < cols
    ensures |c| == |mat|
    ensures forall r :: 0 <= r < |mat| ==> c[r] == mat[r][j]
  {
    seq(|mat|, r requires 0 <= r < |mat| => mat[r][j])
  }

  function MaxOf(s: seq<real>): (m: real)
    requires s != []
    ensures forall k :: 0 <= k < |s| ==> s[k] <= m
    ensures exists k :: 0 <= k < |s| && s[k] == m
  {
    if |s| == 1 then s[0]
    else
      var m' := MaxOf(s[..|s| - 1]);
      if s[|s| - 1] > m' then s[|s| - 1] else m'
  }

  function MinOf(s: seq<real>): (m: real)
    requires s != []
    ensures forall k :: 0 <= k < |s| ==> m <= s[k]
    ensures exists k :: 0 <= k < |s| && s[k] == m
  {
    if |s| == 1 then s[0]
    else
      var m' := MinOf(s[..|s| - 1]);
      if s[|s| - 1] < m' then s[|s| - 1] else m'
  }

  /** The threshold below which a column counts as constant. */
  const Delta: real := 0.00000001

  /** Too few or too uniform data for a meaningful higher moment. */
  predicate NearlyConstant(data: seq<real>)
  {
    data == [] || MaxOf(data) - MinOf(data) < Delta
  }

  /** Skewness or kurtosis of one column, forced to 0 on an empty or nearly constant column. */
  function GuardedMoment(data: seq<real>, moment: seq<real> -> Float): Float
  {
    if NearlyConstant(data) then Num(0.0) else moment(data)
  }

  /** One statistic per column. */
  function PerColumn(mat: seq<seq<real>>, cols: nat, stat: seq<real> -> Float): (v: seq<Float>)
    requires Rectangular(mat, cols)
    ensures |v| == cols
  {
    seq(cols, j requires 0 <= j < cols => stat(Column(mat, cols, j)))
  }

  function GuardedPerColumn(mat: seq<seq<real>>, cols: nat, moment: seq<real> -> Float): (v: seq<Float>)
    requires Rectangular(mat, cols)
    ensures |v| == cols
  {
    seq(cols, j requires 0 <= j < cols => GuardedMoment(Column(mat, cols, j), moment))
  }

  /** The flattened description [means, medians, stds, skews, kurtoses]. */
  function Aggregate(mat: seq<seq<real>>, cols: nat, stats: Stats): (d: seq<Float>)
    requires Rectangular(mat, cols)
    ensures |d| == 5 * cols
  {
    PerColumn(mat, cols, stats.mean) + PerColumn(mat, cols, stats.median) + PerColumn(mat, cols, stats.std)
      + GuardedPerColumn(mat, cols, stats.skew) + GuardedPerColumn(mat, cols, stats.kurtosis)
  }

  /**
   * The loop of `aggregate_features`: skewness and kurtosis arrays that
   * start as zeros and receive the guarded moments column by column.
   */
  method GuardedMoments(featureMat: seq<seq<real>>, numFeatures: nat, stats: Stats)
    returns (skewness: array<Float>, kurtosis: array<Float>)
    requires Rectangular(featureMat, numFeatures)
    ensures fresh(skewness) && fresh(kurtosis)
    ensures skewness[..] == GuardedPerColumn(featureMat, numFeatures, stats.skew)
    ensures kurtosis[..] == GuardedPerColumn(featureMat, numFeatures, stats.kurtosis)
  {
    skewness := new Float[numFeatures](_ => Num(0.0));
    kurtosis := new Float[numFeatures](_ => Num(0.0));
    ghost var skewTarget := GuardedPerColumn(featureMat, numFeatures, stats.skew);
    ghost var kurtTarget := GuardedPerColumn(featureMat, numFeatures, stats.kurtosis);
    for i := 0 to numFeatures
      invariant forall j :: 0 <= j < i ==> skewness[j] == skewTarget[j]
      invariant forall j :: 0 <= j < i ==> kurtosis[j] == kurtTarget[j]
    {
      var data := Column(featureMat, numFeatures, i);
      if |data| == 0 {
        skewness[i] := Num(0.0);
        kurtosis[i] := Num(0.0);
      } else {
        var dataRange := MaxOf(data) - MinOf(data);
        if dataRange < Delta {
          skewness[i] := Num(0.0);
          kurtosis[i] := Num(0.0);
        } else {
          skewness[i] := stats.skew(data);
          kurtosis[i] := stats.kurtosis(data);
        }
      }
    }
  }

  /**
   * `aggregate_features` (column-wise, flattened): five statistics per
   * column, grouped by statistic. Skewness and kurtosis start as zeros and
   * are computed only for columns that are neither empty nor nearly constant.
   */
  method AggregateFeatures(featureMat: seq<seq<real>>, numFeatures: nat, stats: Stats)
    returns (description: seq<Float>)
    requires Rectangular(featureMat, numFeatures)
    ensures description == Aggregate(featureMat, numFeatures, stats)
  {
    var mean := PerColumn(featureMat, numFeatures, stats.mean);
    var median := PerColumn(featureMat, numFeatures, stats.median);
    var std := PerColumn(featureMat, numFeatures, stats.std);
    var skewness, kurtosis := GuardedMoments(featureMat, numFeatures, stats);
    description := mean + median + std + skewness[..] + kurtosis[..];
  }

  /**
   * The layout of the description: for column j, its mean, median, standard
   * deviation, guarded skewness and guarded kurtosis sit at j, cols + j,
   * 2 cols + j, 3 cols + j and 4 cols + j.
   */
  lemma AggregateLayout(mat: seq<seq<real>>, cols: nat, stats: Stats, j: nat)
    requires Rectangular(mat, cols) && j < cols
    ensures Aggregate(mat, cols, stats)[j] == stats.mean(Column(mat, cols, j))
    ensures Aggregate(mat, cols, stats)[cols + j] == stats.median(Column(mat, cols, j))
    ensures Aggregate(mat, cols, stats)[2 * cols + j] == stats.std(Column(mat, cols, j))
    ensures Aggregate(mat, cols, stats)[3 * cols + j] == GuardedMoment(Column(mat, cols, j), stats.skew)
    ensures Aggregate(mat, cols, stats)[4 * cols + j] == GuardedMoment(Column(mat, cols, j), stats.kurtosis)
  {
    var d := Aggregate(mat, cols, stats);
    assert d[j] == PerColumn(mat, cols, stats.mean)[j];
    assert d[cols + j] == PerColumn(mat, cols, stats.median)[j];
    assert d[2 * cols + j] == PerColumn(mat, cols, stats.std)[j];
    assert d[3 * cols + j] == GuardedPerColumn(mat, cols, stats.skew)[j];
    assert d[4 * cols + j] == GuardedPerColumn(mat, cols, stats.kurtosis)[j];
  }

  /**
   * A column whose values are all equal (a single node, or no node at all)
   * gets skewness and kurtosis 0, whatever the statistics would give.
   */
  lemma ConstantColumnMoments(mat: seq<seq<real>>, cols: nat, stats: Stats, j: nat)
    requires Rectangular(mat, cols) && j < cols
    requires forall r :: 0 <= r < |mat| ==> mat[r][j] == mat[0][j]
    ensures Aggregate(mat, cols, stats)[3 * cols + j] == Num(0.0)
    ensures Aggregate(mat, cols, stats)[4 * cols + j] == Num(0.0)
  {
    AggregateLayout(mat, cols, stats, j);
    ConstantIsNearlyConstant(Column(mat, cols, j));
  }

  /** A sequence of equal values is nearly constant: its range is 0. */
  lemma ConstantIsNearlyConstant(data: seq<real>)
    requires forall k :: 0 <= k < |data| ==> data[k] == data[0]
    ensures NearlyConstant(data)
  {
    if data != [] {
      var kmax :| 0 <= kmax < |data| && data[kmax] == MaxOf(data);
      var kmin :| 0 <= kmin < |data| && data[kmin] == MinOf(data);
    }
  }
}
