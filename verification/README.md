# aig-similarity in Dafny

This project models the core of aig-similarity, a Python toolkit that
compares And-Inverter Graphs (AIGs). Before comparing two AIGs it turns
them into graphs, and then scores the pair with several measures:

- count metrics and vector metrics on AIG characteristics: gate, edge and
  level counts, size differences, the Canberra distance and the Bray-Curtis
  dissimilarity;
- set overlaps of the node and edge sets: the vertex-edge overlap, its
  distance form, and the VEO variant;
- NetSimile: seven structural features per node, aggregated into a
  35-value signature that is compared with a guarded Canberra distance;
- the resistance distance: per-component effective resistances, assembled
  into a matrix, renormalised with r/(r+β), padded to a common size and
  compared entrywise.

The modules follow the source files:

| module | source file |
|---|---|
| `Common` | shared datatypes: `Option`, `Result`, `Error`, `Ext` (finite or ∞), `Float` (number or NaN) |
| `GraphUtils` | graph_utils.py |
| `Matrices` | NetComp/matrices.py |
| `VertexEdge` | NetComp/vertex_edge.py |
| `Veo` | veo.py |
| `Features` | NetComp/features.py |
| `Netsimile` | NetComp/netsimile.py |
| `Resistance` | NetComp/resistance_distance.py |
| `CanberraMetric` | sim_scores/canberra_distance_metric.py |
| `BrayCurtis` | sim_scores/bray_curtis_dissimilarity_metric.py |
| `SizeDiff` | sim_scores/size_diff_metrics.py |
| `Characteristics` | sim_scores/characteristics_metrics.py and characteristics_metrics.py |

How the Python maps onto Dafny:

- Code that only computes a value is written as functions with their
  contracts.
- Where the source works step by step, the model keeps that form: loops
  become methods proved against a specification function. This covers:
  - `transform_edge_list`, `_canberra_dist` and the feature loops in
    `get_features`;
  - the per-column loop in `aggregate_features` that fills the skewness and
    kurtosis arrays;
  - the node-to-component map;
  - the matrices that `resistance_matrix` and `renormalized_res_mat` fill
    in place, which become `array2` values.
- Python exceptions become `Err` values of a `Result`.
- An infinite float becomes `Ext.Inf`, and a NaN becomes `Float.NaN`.
- Floating-point numbers are modelled as exact reals.

## Model

| member | source | states |
|---|---|---|
| GraphUtils.Transformed | graph_utils.py:23-29 | the output is as long as the input; position i is the reversed pair (v, u) exactly when edge i has weight -1, and (u, v) otherwise, with the weight dropped |
| GraphUtils.TransformEdgeList | graph_utils.py:5-31 | the loop builds exactly the transformed list, one pair per input edge, in input order |
| GraphUtils.TransformedAppend | graph_utils.py:23-29 | the transformation works edge by edge: transforming a concatenation concatenates the transformed parts |
| GraphUtils.TransformedWithoutInversion | graph_utils.py:24-29 | a list with no inverted edge is only stripped of its weights |
| GraphUtils.TransformedVersusStripped | graph_utils.py:24-29 | an output pair differs from the plain (source, target) pair exactly when the edge is inverted and not a self-loop, and an inverted edge gives (target, source) |
| GraphUtils.Stripped | graph_utils.py:41-43 | the undirected, unweighted form keeps (source, target) at every position, with no reversal |
| GraphUtils.BuildGraph | graph_utils.py:48-64 | the graph has the requested directedness, and its nodes are exactly the endpoints of the edge list, whichever of the three branches adds the edges |
| GraphUtils.BuildGraphEmpty | graph_utils.py:55-64 | a graph built from an edge list has no nodes exactly when the list is empty |
| GraphUtils.GetGraph | graph_utils.py:34-70 | ValueError exactly when either edge list is empty (so either graph has no nodes); otherwise both graphs have the requested directedness, and their edges are stripped (undirected, unweighted), transformed (directed, unweighted) or kept as weighted triples (weighted) |
| GraphUtils.MixedExample | unittests/utils_tests.py:21-26 | [(1,2,-1), (2,3,1), (3,4,-1)] becomes [(2,1), (2,3), (4,3)] |
| Matrices.Pad | NetComp/matrices.py:14-48 | returns A unchanged when both dimensions are at least N; fails exactly when A has more than N rows but fewer than N columns, where the column and row stacks do not fit; otherwise the result is max(n,N) by max(m,N), with A in the top-left block and zeros elsewhere |
| Matrices.PadRowSums | NetComp/matrices.py:41-42 | padding a square matrix keeps the row sums of existing rows, and every added row sums to 0, so padded nodes have degree 0 |
| Matrices.PadTwice | NetComp/matrices.py:33-46 | padding to N and then to N' is padding to N' |
| Matrices.DegreeMatrix | NetComp/matrices.py:89-91 | the degree matrix of an n-row matrix is n by n |
| Matrices.DegreeMatrixRow | NetComp/matrices.py:76-92 | row i of the degree matrix has the row sum of A at (i, i) and 0 elsewhere, so the degree matrix has the same row sums as A |
| Matrices.Laplacian | NetComp/matrices.py:51-73 | the unnormalised Laplacian D - A of a sparse A (the form `nx.laplacian_matrix` works on) exists exactly for a square A, and is square of the same size; a non-square sparse A gives the inconsistent-shapes error |
| Matrices.LaplacianRows | NetComp/matrices.py:66-68 | the diagonal of L is the degree minus A[i][i], the off-diagonal entries are -A[i][j], and each row of L sums to 0 |
| Matrices.LaplacianSymmetric | NetComp/matrices.py:66-68 | a symmetric adjacency matrix gives a symmetric Laplacian |
| VertexEdge.CommonUnionBound | NetComp/vertex_edge.py:20-26 | the common node and edge count is at most the union count, equals it exactly for equal graphs, and the union is empty exactly when both graphs are empty |
| VertexEdge.VertexEdgeOverlap | NetComp/vertex_edge.py:1-27 | ZeroDivisionError exactly when both graphs are empty; otherwise sim times union equals common, sim lies in [0, 1], sim is 1 exactly for equal graphs, and sim is 0 exactly when nothing is shared |
| VertexEdge.VertexEdgeDistance | NetComp/vertex_edge.py:30-50 | the error case is that of the overlap; the distance is +inf exactly when the graphs share nothing; a finite distance D is at least 0, is 0 exactly for equal graphs, and satisfies D · sim = 1 - sim for the overlap sim, that is D = 1/sim - 1 |
| VertexEdge.OverlapSymmetric | NetComp/vertex_edge.py:20-26 | the overlap is symmetric in G1 and G2 |
| VertexEdge.DistanceSymmetric | NetComp/vertex_edge.py:46-50 | the distance is symmetric in G1 and G2 |
| VertexEdge.SelfComparison | NetComp/vertex_edge.py:20-50 | a non-empty graph compared with itself has overlap 1 and distance 0 |
| Veo.SharedTotalBound | veo.py:37-38 | twice the common count is at most the total count, with equality exactly for equal graphs |
| Veo.VertexEdgeOverlap | veo.py:4-45 | the score times the total equals twice the common count; the score lies in [0, 1] and is 1 exactly for equal graphs, two empty graphs included |
| Veo.VeoSymmetric | veo.py:23-43 | the score is symmetric in G and G_prime |
| Veo.VeoBothEmpty | veo.py:40-41 | two graphs with neither nodes nor edges score 1.0 |
| Features.Degrees | NetComp/features.py:25-26 | one degree per node, in node order: the length of the node's neighbour list |
| Features.DegreeCountsNeighbours | NetComp/features.py:25-26 | in a graph without repeated neighbours, a node's degree is the number of distinct nodes adjacent to it |
| Features.EgoEdgesAtLeastDegree | NetComp/features.py:59-63 | the edge count of a node's ego network is at least the node's degree, because every edge to a neighbour lies in the ego network |
| Features.NeighborAverageBetween | NetComp/features.py:36-57 | a node without neighbours averages to 0; otherwise the neighbour average lies between the smallest and the largest neighbour value |
| Features.NeighborAverages | NetComp/features.py:36-57 | one average per node, namely the neighbour-value sum over the neighbour count, or 0 for an isolated node |
| Features.UnionAdjMembers | NetComp/features.py:69-71 | a node is in the union of the ego nodes' neighbourhoods exactly when it neighbours some ego node |
| Features.NeighborUnion | NetComp/features.py:69-71 | the loop collects exactly that union |
| Features.EgoNeighborsAreExternal | NetComp/features.py:66-73 | a node is counted as an ego external neighbour exactly when it neighbours some ego node and is neither the node nor one of its neighbours |
| Features.EgoNeighborCount | NetComp/features.py:66-73 | for one node, the loop's count equals the size of that set of external neighbours |
| Features.EgoNeighborCounts | NetComp/features.py:66-73 | one external-neighbour count per node |
| Features.OutgoingEdgeCounts | NetComp/features.py:76-84 | one outgoing-edge count per node: the pairs (u, w) with u in the ego network and w outside it |
| Features.ExternalNeighborsAtMostOutgoing | NetComp/features.py:66-84 | a node's ego external-neighbour count never exceeds its outgoing-edge count |
| Features.FeatureMatrix | NetComp/features.py:87-95 | one row of seven features per node, so a graph without nodes has no rows |
| Features.GetFeatures | NetComp/features.py:16-100 | the method assembles exactly the feature matrix, with rows [degree, clustering, average neighbour degree, average neighbour clustering, ego edges, ego external neighbours, ego outgoing edges] |
| Features.MaxOf | NetComp/features.py:160 | the largest value of a non-empty column, which occurs in the column |
| Features.MinOf | NetComp/features.py:160 | the smallest value of a non-empty column, which occurs in the column |
| Features.Aggregate | NetComp/features.py:170-174 | the description has five values per feature column |
| Features.AggregateFeatures | NetComp/features.py:103-174 | the mean, median and std come from whole-matrix per-column calls, the skewness and kurtosis from the guarded loop, and their concatenation is exactly the aggregate description |
| Features.AggregateLayout | NetComp/features.py:170-174 | for column j: position j holds the mean, cols + j the median, 2 cols + j the std, 3 cols + j the guarded skewness and 4 cols + j the guarded kurtosis |
| Features.GuardedMoments | NetComp/features.py:137-168 | the loop fills skewness and kurtosis with the column's moment, or 0.0 for an empty or nearly constant column |
| Features.ConstantIsNearlyConstant | NetComp/features.py:160-161 | a column whose values are all equal has range 0 and so takes the nearly-constant branch |
| Features.ConstantColumnMoments | NetComp/features.py:155-163 | a constant column gets skewness 0 and kurtosis 0 |
| Netsimile.Term | NetComp/netsimile.py:13-20 | each dimension contributes a value in [0, 1]; when neither value is NaN and \|u\| + \|w\| >= 1e-15, the value times \|u\| + \|w\| is \|u - w\|; it contributes 0 exactly when either value is NaN, or \|u\| + \|w\| < 1e-15, or u == w |
| Netsimile.PrefixSum | NetComp/netsimile.py:11-21 | after k dimensions the running distance lies in [0, k] |
| Netsimile.CanberraDist | NetComp/netsimile.py:7-22 | the loop over the zipped vectors computes the Canberra sum, which lies between 0 and the number of zipped dimensions |
| Netsimile.TermSymmetric | NetComp/netsimile.py:13-20 | each term is symmetric in u and w |
| Netsimile.CanberraSumSymmetric | NetComp/netsimile.py:11-21 | the distance is symmetric in v1 and v2 |
| Netsimile.CanberraSumZero | NetComp/netsimile.py:11-21 | the distance is 0 exactly when every zipped dimension contributes 0 |
| Netsimile.CanberraSumSelf | NetComp/netsimile.py:11-21 | a vector compared with itself is at distance 0 |
| Netsimile.Signature | NetComp/netsimile.py:47-48 | the aggregated signature of a graph has 35 values |
| Netsimile.NetsimileDistance | NetComp/netsimile.py:24-51 | the distance is the Canberra sum of the two graphs' signatures, between 0 and 35 |
| Netsimile.NetsimileProperties | unittests/netsimile_tests.py:49-54 | the NetSimile distance is symmetric, and a graph compared with itself is at distance 0 |
| Resistance.LastIndex | NetComp/resistance_distance.py:59-64 | the index a node gets within its component: a position holding it, and none exactly when the node is absent |
| Resistance.Locate | NetComp/resistance_distance.py:34-37 | the component and position a node is mapped to; none exactly when no component contains it |
| Resistance.PartitionListsOnce | NetComp/resistance_distance.py:33 | the components of a graph on 0..n-1 list every node exactly once: a partition names no node twice, and bounded covering lists that name every node once are a partition |
| Resistance.SameComponent | NetComp/resistance_distance.py:38-41 | two nodes are mapped to the same component exactly when some component contains both |
| Resistance.NodeToComponent | NetComp/resistance_distance.py:33-37 | the map built by the loop has exactly the nodes of the components as keys, each mapped to its component |
| Resistance.Effective | NetComp/resistance_distance.py:28-30 | the effective resistance M[i][i] + M[j][j] - M[i][j] - M[j][i] between i and j, which is 0 from a node to itself |
| Resistance.ResistanceMatrix | NetComp/resistance_distance.py:8-43 | every entry of the fresh n by n matrix is the effective resistance M[i][i] + M[j][j] - M[i][j] - M[j][i] when i and j share a component, and inf otherwise |
| Resistance.ResistanceEntryProperties | NetComp/resistance_distance.py:28-42 | an entry is inf exactly when no component holds both nodes; the diagonal is 0; the matrix is symmetric |
| Resistance.MaskAcrossComponents | NetComp/resistance_distance.py:39-42 | the double loop leaves the effective resistance where nodes i and j share a component index and writes inf everywhere else |
| Resistance.MaskRow | NetComp/resistance_distance.py:40-42 | one pass of the outer loop sets row i to inf exactly at the nodes of other components and leaves every other row unchanged |
| Resistance.SingleComponentFinite | NetComp/resistance_distance.py:28-30 | in a connected graph every entry is the finite effective resistance |
| Resistance.Renorm | NetComp/resistance_distance.py:68-70 | inf becomes 1.0; a finite r becomes the value x with x (r + beta) = r; for r >= 0 and beta > 0 the value lies in [0, 1) |
| Resistance.RenormMonotone | NetComp/resistance_distance.py:68-70 | renormalisation preserves the order of resistances and maps every finite one below inf's 1.0 |
| Resistance.AssembledAt | NetComp/resistance_distance.py:59-65 | the pair at positions i, j of component c gets the component's effective resistance between those positions |
| Resistance.WriteRow | NetComp/resistance_distance.py:64-65 | the inner loop writes r_sub[i, j] at (u, v_j) for every j and leaves every other entry unchanged, given distinct v_j |
| Resistance.CopiedRowStep | NetComp/resistance_distance.py:63-65 | finishing row i of a component adds exactly the pairs of its node with the component's nodes to the copied pairs |
| Resistance.CopyRow | NetComp/resistance_distance.py:63-65 | copying row i of the component's matrix writes exactly the pairs of that row and leaves every other entry as it was |
| Resistance.CopyComponent | NetComp/resistance_distance.py:58-65 | after one component, exactly its pairs hold the assembled values and every other entry is unchanged |
| Resistance.AssembleComponents | NetComp/resistance_distance.py:54-65 | starting from all inf, the fresh full matrix holds the per-component resistance for same-component pairs and inf for the rest |
| Resistance.FillDiagonal | NetComp/resistance_distance.py:73 | the diagonal becomes 0 and nothing else changes |
| Resistance.RenormalizedResMat | NetComp/resistance_distance.py:46-75 | every entry of the fresh matrix is the renormalised assembled resistance, and the diagonal is 0 |
| Resistance.RenormEntryProperties | NetComp/resistance_distance.py:54-73 | the renormalised diagonal is 0, the matrix is symmetric, and a pair in no common component gets 1.0 |
| Resistance.RenormEntryRange | NetComp/resistance_distance.py:68-70 | for beta > 0 and non-negative resistances, an off-diagonal entry lies in [0, 1] and is 1 exactly for a cross-component pair |
| Resistance.PowAbs | NetComp/resistance_distance.py:85 | \|x\|^p is non-negative and, for p >= 1, is 0 exactly when x is 0 |
| Resistance.DiffSum | NetComp/resistance_distance.py:85-86 | the summed entrywise \|R1 - R2\|^p is non-negative |
| Resistance.DiffSumSymmetric | NetComp/resistance_distance.py:85-86 | the sum is symmetric in R1 and R2 |
| Resistance.DiffSumZero | NetComp/resistance_distance.py:85-86 | for p >= 1 the sum is 0 exactly when the two matrices are equal |
| Resistance.Padded | NetComp/resistance_distance.py:80-82 | both adjacency matrices are padded to N by N |
| Resistance.EntriesOfRenormalized | NetComp/resistance_distance.py:84 | the entries of the renormalised array are the renormalised matrix |
| Resistance.ResistanceDistance | NetComp/resistance_distance.py:76-87 | ZeroDivisionError exactly for p = 0, from the exponent 1 / p; otherwise pads both inputs to N = max(n1, n2), renormalises both, and returns the summed entrywise \|R1 - R2\|^p, which is non-negative |
| Resistance.PartitionWithSingletons | NetComp/resistance_distance.py:56 | the components of a graph padded from n to n' nodes are the old components followed by one singleton per added isolated node |
| Resistance.RenormMatrixPadded | NetComp/resistance_distance.py:54-73 | after padding further from N to N', the renormalised matrix keeps its N x N block, and every entry involving an added node is 0 on the diagonal and 1.0 elsewhere |
| Resistance.DiffSumPadded | NetComp/resistance_distance.py:83-84 | two N' x N' matrices that agree with an N x N pair on its block, and with each other outside it, have the same summed differences for p >= 1 |
| Resistance.PaddingInvariance | NetComp/resistance_distance.py:78-84 | padding both graphs to any common order N' >= max(n1, n2) leaves the summed differences unchanged, for p >= 1 |
| Resistance.ResistanceDistanceProperties | unittests/dist_tests.py:95-105 | the distance is symmetric, is 0 exactly when the renormalised matrices agree, and is 0 for identical inputs |
| CanberraMetric.Term | sim_scores/canberra_distance_metric.py:18 | each pair contributes a value in [0, 1]; unless both values are 0, the value times \|a1\| + \|a2\| is \|a1 - a2\|; the value is 0 exactly when a1 == a2 |
| CanberraMetric.TermSum | sim_scores/canberra_distance_metric.py:17-20 | the sum over n pairs lies in [0, n] |
| CanberraMetric.CanberraDistanceMetric | sim_scores/canberra_distance_metric.py:1-23 | ValueError exactly for lists of different lengths; otherwise a value between 0 and the list length |
| CanberraMetric.TermSumZero | sim_scores/canberra_distance_metric.py:17-20 | for lists of equal length the sum is 0 exactly when the lists are equal |
| CanberraMetric.CanberraZero | sim_scores/canberra_distance_metric.py:13-23 | the metric returns 0.0 exactly for equal lists |
| CanberraMetric.TermSymmetric | sim_scores/canberra_distance_metric.py:18 | each term is symmetric |
| CanberraMetric.TermSumSymmetric | sim_scores/canberra_distance_metric.py:17-20 | swapping the lists leaves the sum unchanged |
| CanberraMetric.TermSumSelf | sim_scores/canberra_distance_metric.py:17-20 | a list compared with itself sums to 0 |
| CanberraMetric.CanberraSymmetric | sim_scores/canberra_distance_metric.py:13-20 | the metric, including its error case, is symmetric |
| CanberraMetric.CanberraSelf | sim_scores/canberra_distance_metric.py:13-20 | a list compared with itself gives 0 |
| BrayCurtis.SumMagnitudes | sim_scores/bray_curtis_dissimilarity_metric.py:19 | the denominator is non-negative, and it is 0 exactly when both lists are all zeros |
| BrayCurtis.SumDifferences | sim_scores/bray_curtis_dissimilarity_metric.py:18 | the numerator lies between 0 and the denominator |
| BrayCurtis.Quotient | sim_scores/bray_curtis_dissimilarity_metric.py:26 | for 0 <= numerator <= denominator and a positive denominator, the quotient lies in [0, 1] and times the denominator gives the numerator |
| BrayCurtis.BrayCurtisDissimilarity | sim_scores/bray_curtis_dissimilarity_metric.py:1-28 | ValueError exactly for lists of different lengths; otherwise a value in [0, 1], which is 0.0 when both lists are all zeros and otherwise the quotient of Σ\|a1 - a2\| by Σ(\|a1\| + \|a2\|), so the value times Σ(\|a1\| + \|a2\|) is Σ\|a1 - a2\| |
| BrayCurtis.SumDifferencesZero | sim_scores/bray_curtis_dissimilarity_metric.py:18 | for lists of equal length the numerator is 0 exactly when the lists are equal |
| BrayCurtis.BrayCurtisZero | sim_scores/bray_curtis_dissimilarity_metric.py:14-28 | the metric returns 0.0 exactly for equal lists |
| BrayCurtis.SumsSymmetric | sim_scores/bray_curtis_dissimilarity_metric.py:18-19 | both sums are symmetric in the two lists |
| BrayCurtis.SumDifferencesSelf | sim_scores/bray_curtis_dissimilarity_metric.py:18 | identical lists have numerator 0 |
| BrayCurtis.BrayCurtisSymmetric | sim_scores/bray_curtis_dissimilarity_metric.py:14-26 | the metric, including its error case, is symmetric |
| BrayCurtis.BrayCurtisSelf | sim_scores/bray_curtis_dissimilarity_metric.py:18-26 | a list compared with itself gives 0 |
| SizeDiff.AbsoluteSizeDiff | sim_scores/size_diff_metrics.py:5-20 | the size difference is the absolute count difference, the same measure as the gate count metric |
| SizeDiff.RelativeSizeDiff | sim_scores/size_diff_metrics.py:23-42 | the value lies in [0, 1] and is 0 exactly for equal sizes (both 0 included); for a non-zero total, the value times the larger size is the absolute difference |
| SizeDiff.SizeDiffProperties | sim_scores/size_diff_metrics.py:5-42 | both metrics are symmetric, and dividing by the larger size never gives less than dividing by the sum |
| SizeDiff.SizeDiffExample | unittests/test_size_diff_metrics.py:84-90 | sizes 3 and 8 give 5 and 0.625 |
| Characteristics.AbsDiff | sim_scores/characteristics_metrics.py:18 | \|x1 - x2\|, 0 exactly for equal counts, and at most their sum |
| Characteristics.RelativeDiff | sim_scores/characteristics_metrics.py:33-37 | the value lies in [0, 1] and is 0 exactly for equal counts; for a non-zero total, the value times the total is the absolute difference |
| Characteristics.AbsoluteGateCount | sim_scores/characteristics_metrics.py:7-18 | the absolute gate count difference, 0 exactly for equal gate counts |
| Characteristics.RelativeGateCount | sim_scores/characteristics_metrics.py:21-37 | the gate difference relative to the total, in [0, 1], 0 exactly for equal gate counts |
| Characteristics.AbsoluteEdgeCount | sim_scores/characteristics_metrics.py:40-51 | the absolute edge count difference, 0 exactly for equal edge counts |
| Characteristics.RelativeEdgeCount | sim_scores/characteristics_metrics.py:54-73 | the edge difference relative to the total, in [0, 1], 0 exactly for equal edge counts |
| Characteristics.AbsoluteLevelCount | sim_scores/characteristics_metrics.py:76-87 | the absolute level count difference, 0 exactly for equal level counts |
| Characteristics.RelativeLevelCount | sim_scores/characteristics_metrics.py:90-106 | the level difference relative to the total, in [0, 1], 0 exactly for equal level counts |
| Characteristics.CountMetricsSymmetric | sim_scores/characteristics_metrics.py:7-106 | all six count metrics are symmetric |
| Characteristics.EqualCountsScoreZero | unittests/test_characteristics_metrics.py:11-38 | AIGs with equal counts score 0 on all six metrics |
| Characteristics.GateCountExample | unittests/test_characteristics_metrics.py:116-122 | 3 against 8 gates gives 5 and 5/11 |

## Left out

- `to_edge_list`, the networkx graph objects and AIG parsing are outside the model. An AIG enters as its signed edge list or as its counts.
- `get_graph`'s `weights` argument only shapes the input edge list, which `to_edge_list` builds. The model's inverted weight is the constant -1. The callers that pass `weights=(1,1)` (sim_scores/netcomp_distances.py:27,50) produce an edge list without a -1 weight, which `GraphUtils.TransformedWithoutInversion` covers.
- The input list cannot be mutated in the model, and repeated calls are equal by construction, because Dafny sequences are values.
- Self-loops are outside the NetSimile graph model: a `Features.Graph` is a simple undirected graph on the nodes 0..n-1.
- The directed NetSimile variants `get_ns_dir_inverted` and `get_ns_dir_uninverted` (sim_scores/netcomp_distances.py:45-51, listed in utils.py:20-21) are not part of this model. They pass a DiGraph to `netsimile`. There the degree counts in- and out-edges, while neighbours and ego networks follow successors only. The symmetric `Features.Graph` does not capture either of these.
- NetSimile treats node order as the order of the neighbour lists.
- `nx.clustering` is an input to the feature computation.
- The mean, median, std, skew and kurtosis functions of numpy and scipy are function-valued inputs. Only the layout around them and the guards are modelled.
- `np.nan_to_num` on the feature matrix is the identity, because the model's features are exact reals.
- The NaN filter in `aggregate_features` is also the identity, for the same reason.
- A NumPy 0 by 7 matrix is modelled as the empty list of rows.
- `nx.connected_components` is an input to the resistance distance: each padded graph comes with its component lists, which must partition its nodes.
- The component order is taken as the order in which `G.subgraph` lists the nodes.
- The Moore-Penrose pseudo-inverse (`scipy.linalg.pinv`, imported at NetComp/resistance_distance.py:4) is an input function: it is only assumed to return a matrix of the input's shape. So the value of an effective resistance, and its non-negativity, are not derived.
- `Resistance.ResistanceMatrix` takes the pseudo-inverse M of the Laplacian as its input matrix.
- In `renormalized_res_mat`, each component's subgraph is connected, so the model computes `resistance_matrix(subgraph)` with the single component as the subgraph's partition, and the mask then writes no inf.
- `Resistance.ResistanceDistance`: returns the sum of the entrywise \|R1 - R2\|^p before the final p-th root, because real roots are not available. The exponent p is a natural number, and p = 0 gives the ZeroDivisionError of `1 / p`.
- `Resistance.Renorm`: models beta as an exact real. The `nan_to_num` mapping of -inf for the case r + beta = 0 uses the largest double as a constant.
- `Features.NeighborAverageBetween`: states bounds on the neighbour average rather than the exact product identity between average, count and sum.
- `Features.Aggregate`: only its length is stated here. The position of each statistic is stated by `Features.AggregateLayout`.
- The normalised Laplacian branch of `laplacian_matrix` and the helper `_flat` are not part of this model.
- `aggregate_features` is modelled with its defaults: per-column statistics (`axis=0`) and a flattened description (`as_matrix=False`).
- `row_var` and the other dense-matrix conversions are not part of this model.
- Floating-point rounding, overflow and the 1e-8 and 1e-15 tolerances are modelled as exact real comparisons against those constants.
- The spectral distances, DeltaCon, graph kernels, sqrt metrics, optimisation-script metrics, plotting and the command-line glue are not part of this model.
- The root `characteristics_metrics.py` holds the same six count metrics as `sim_scores/characteristics_metrics.py` (lines 7-106 of each), so they are modelled once. Its further similarity scores are not part of this model.
