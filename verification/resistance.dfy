/**
 * Resistance distance (NetComp/resistance_distance.py). The nodes of a graph
 * are 0..n-1 in `G.nodes()` order; its connected components and the
 * Laplacian pseudo-inverse (`pinv`) are inputs. Modelled: the masking of
 * cross-component pairs, the assembly of per-component resistances, the
 * renormalisation r / (r + beta) with its `nan_to_num` corner cases, the zero
 * diagonal, the padding of both inputs and the summed p-th powers of the
 * differences.
 */
module Resistance {
  import opened Common
  import opened Matrices

  /** The last position of u in s, if any. */
  function LastIndex(s: seq<nat>, u: nat): (r: Option<nat>)
    ensures r.Some? ==> r.value < |s| && s[r.value] == u
    ensures r.None? <==> u !in s
  {
    if s == [] then None
    else if s[|s| - 1] == u then Some(|s| - 1)
    else
      assert s == s[..|s| - 1] + [s[|s| - 1]];
      LastIndex(s[..|s| - 1], u)
  }

  /**
   * The component index and the position within it that the source's
   * dictionaries record for u: the last component listing u wins, as in
   * `node_to_component[node] = idx`.
   */
  function Locate(comps: seq<seq<nat>>, u: nat): (r: Option<(nat, nat)>)
    ensures r.Some? ==> r.value.0 < |comps| && r.value.1 < |comps[r.value.0]|
    ensures r.Some? ==> comps[r.value.0][r.value.1] == u
    ensures r.None? <==> forall c :: 0 <= c < |comps| ==> u !in comps[c]
  {
    if comps == [] then None
    else
      var c := |comps| - 1;
      var k := LastIndex(comps[c], u);
      if k.Some? then Some((c, k.value))
      else
        var r := Locate(comps[..c], u);
        assert forall c' :: 0 <= c' < c ==> comps[..c][c'] == comps[c'];
        r
  }

  /**
   * `nx.connected_components` of a graph on 0..n-1: every listed node is a
   * node, every node is listed, and each listed entry is located at its own
   * position, so no node is listed twice (see `PartitionListsOnce`).
   */
  predicate IsPartition(comps: seq<seq<nat>>, n: nat)
  {
    && (forall c, k :: 0 <= c < |comps| && 0 <= k < |comps[c]| ==> comps[c][k] < n)
    && (forall u :: 0 <= u < n ==> Locate(comps, u).Some?)
    && (forall c, k :: 0 <= c < |comps| && 0 <= k < |comps[c]| ==> Locate(comps, comps[c][k]) == Some((c, k)))
  }

  /** In a partition, the entry at (c, k) is located at (c, k). */
  lemma LocateFinds(comps: seq<seq<nat>>, n: nat, c: nat, k: nat)
    requires IsPartition(comps, n) && c < |comps| && k < |comps[c]|
    ensures Locate(comps, comps[c][k]) == Some((c, k))
  {
  }

  /** No node appears at two different positions of `comps`. */
  predicate ListedOnce(comps: seq<seq<nat>>)
  {
    forall c, k, c', k' ::
      (0 <= c < |comps| && 0 <= k < |comps[c]| && 0 <= c' < |comps| && 0 <= k' < |comps[c']| &&
       comps[c][k] == comps[c'][k']) ==> c == c' && k == k'
  }

  /**
   * `IsPartition` is the usual notion: a partition lists every node once, and
   * bounded, covering lists that name every node once form a partition.
   */
  lemma PartitionListsOnce(comps: seq<seq<nat>>, n: nat)
    ensures IsPartition(comps, n) ==> ListedOnce(comps)
    ensures (&& (forall c, k :: 0 <= c < |comps| && 0 <= k < |comps[c]| ==> comps[c][k] < n)
             && (forall u :: 0 <= u < n ==> Locate(comps, u).Some?)
             && ListedOnce(comps)) ==> IsPartition(comps, n)
  {
    if IsPartition(comps, n) {
      forall c, k, c', k' |
        0 <= c < |comps| && 0 <= k < |comps[c]| && 0 <= c' < |comps| && 0 <= k' < |comps[c']| &&
        comps[c][k] == comps[c'][k']
        ensures c == c' && k == k'
      {
        LocateFinds(comps, n, c, k);
        LocateFinds(comps, n, c', k');
      }
    }
    if ListedOnce(comps) {
      forall c, k | 0 <= c < |comps| && 0 <= k < |comps[c]|
        ensures Locate(comps, comps[c][k]) == Some((c, k))
      {
        var u := comps[c][k];
        assert u in comps[c];
        var r := Locate(comps, u);
        assert comps[r.value.0][r.value.1] == u;
      }
    }
  }

  /** The component index of node u. */
  function CompOf(comps: seq<seq<nat>>, n: nat, u: nat): nat
    requires IsPartition(comps, n) && u < n
  {
    Locate(comps, u).value.0
  }

  /** Nodes u and v lie in the same component exactly when some component lists both. */
  lemma SameComponent(comps: seq<seq<nat>>, n: nat, u: nat, v: nat)
    requires IsPartition(comps, n) && u < n && v < n
    ensures CompOf(comps, n, u) == CompOf(comps, n, v) <==>
      exists c :: 0 <= c < |comps| && u in comps[c] && v in comps[c]
  {
    if exists c :: 0 <= c < |comps| && u in comps[c] && v in comps[c] {
      var c :| 0 <= c < |comps| && u in comps[c] && v in comps[c];
      var k :| 0 <= k < |comps[c]| && comps[c][k] == u;
      var l :| 0 <= l < |comps[c]| && comps[c][l] == v;
      LocateFinds(comps, n, c, k);
      LocateFinds(comps, n, c, l);
    }
  }

  /** `node_to_component`: the loop over the components and their nodes. */
  method NodeToComponent(comps: seq<seq<nat>>) returns (nodeToComponent: map<nat, nat>)
    ensures forall u :: u in nodeToComponent <==> Locate(comps, u).Some?
    ensures forall u :: u in nodeToComponent ==> nodeToComponent[u] == Locate(comps, u).value.0
  {
    nodeToComponent := map[];
    for idx := 0 to |comps|
      invariant forall u :: u in nodeToComponent <==> Locate(comps[..idx], u).Some?
      invariant forall u :: u in nodeToComponent ==> nodeToComponent[u] == Locate(comps[..idx], u).value.0
    {
      var comp := comps[idx];
      for k := 0 to |comp|
        invariant forall u :: u in nodeToComponent <==> Locate(comps[..idx], u).Some? || u in comp[..k]
        invariant forall u :: u in nodeToComponent ==>
          nodeToComponent[u] == if u in comp[..k] then idx else Locate(comps[..idx], u).value.0
      {
        nodeToComponent := nodeToComponent[comp[k] := idx];
        assert comp[..k + 1] == comp[..k] + [comp[k]];
      }
      assert comp[..|comp|] == comp;
      assert comps[..idx + 1][..idx] == comps[..idx];
    }
    assert comps[..|comps|] == comps;
  }

  /** Under a partition of 0..n-1, the component map holds every node, with its component. */
  lemma ComponentMapTotal(comps: seq<seq<nat>>, n: nat, nodeToComponent: map<nat, nat>)
    requires IsPartition(comps, n)
    requires forall u :: u in nodeToComponent <==> Locate(comps, u).Some?
    requires forall u :: u in nodeToComponent ==> nodeToComponent[u] == Locate(comps, u).value.0
    ensures forall u :: 0 <= u < n ==> u in nodeToComponent && nodeToComponent[u] == CompOf(comps, n, u)
  {
  }

  /**
   * `d 1^T + 1 d^T - M - M^T` at (i, j), d the diagonal of M: the effective
   * resistance between nodes i and j, 0 from a node to itself.
   */
  function Effective(M: Matrix, i: nat, j: nat): (r: real)
    requires IsShape(M, |M|, |M|) && i < |M| && j < |M|
    ensures i == j ==> r == 0.0
  {
    M[i][i] + M[j][j] - M[i][j] - M[j][i]
  }

  /** Entry (i, j) of `resistance_matrix` for the component index `compOf[u]` of every node u. */
  function Masked(M: Matrix, compOf: seq<nat>, i: nat, j: nat): Ext
    requires IsShape(M, |M|, |M|) && |compOf| == |M| && i < |M| && j < |M|
  {
    if compOf[i] != compOf[j] then Inf else Finite(Effective(M, i, j))
  }

  /** Entry (i, j) of `resistance_matrix`: infinite across components. */
  function ResistanceEntry(M: Matrix, comps: seq<seq<nat>>, i: nat, j: nat): Ext
    requires IsShape(M, |M|, |M|) && IsPartition(comps, |M|) && i < |M| && j < |M|
  {
    if CompOf(comps, |M|, i) != CompOf(comps, |M|, j) then Inf else Finite(Effective(M, i, j))
  }

  /**
   * `resistance_matrix`, with M the pseudo-inverse of the Laplacian: the
   * effective resistances, then infinity for every pair of nodes in
   * different components.
   */
  method ResistanceMatrix(M: Matrix, comps: seq<seq<nat>>) returns (R: array2<Ext>)
    requires IsShape(M, |M|, |M|) && IsPartition(comps, |M|)
    ensures fresh(R) && R.Length0 == |M| && R.Length1 == |M|
    ensures forall i, j :: 0 <= i < |M| && 0 <= j < |M| ==> R[i, j] == ResistanceEntry(M, comps, i, j)
  {
    var n := |M|;
    var nodeToComponent := NodeToComponent(comps);
    ComponentMapTotal(comps, n, nodeToComponent);
    ghost var compOf: seq<nat> := seq(n, u requires 0 <= u < n => CompOf(comps, n, u));
    R := MaskAcrossComponents(M, compOf, nodeToComponent);
    forall i, j | 0 <= i < n && 0 <= j < n
      ensures Masked(M, compOf, i, j) == ResistanceEntry(M, comps, i, j)
    {
    }
  }

  /** The loops of `resistance_matrix`: the effective resistances, masked row by row. */
  method MaskAcrossComponents(M: Matrix, ghost compOf: seq<nat>, nodeToComponent: map<nat, nat>)
    returns (R: array2<Ext>)
    requires IsShape(M, |M|, |M|) && |compOf| == |M|
    requires forall u :: 0 <= u < |M| ==> u in nodeToComponent && nodeToComponent[u] == compOf[u]
    ensures fresh(R) && R.Length0 == |M| && R.Length1 == |M|
    ensures forall i, j :: 0 <= i < |M| && 0 <= j < |M| ==> R[i, j] == Masked(M, compOf, i, j)
  {
    var n := |M|;
    R := new Ext[n, n]((i: nat, j: nat) requires i < n && j < n => Finite(Effective(M, i, j)));
    for i := 0 to n
      invariant forall i', j :: 0 <= i' < i && 0 <= j < n ==> R[i', j] == Masked(M, compOf, i', j)
      invariant forall i', j :: i <= i' < n && 0 <= j < n ==> R[i', j] == Finite(Effective(M, i', j))
    {
      MaskRow(R, M, compOf, nodeToComponent, i);
    }
  }

  /** Row i of the masking loop: infinity wherever node j lies in another component than node i. */
  method MaskRow(R: array2<Ext>, M: Matrix, ghost compOf: seq<nat>, nodeToComponent: map<nat, nat>, i: nat)
    requires IsShape(M, |M|, |M|) && |compOf| == |M| && i < |M|
    requires R.Length0 == |M| && R.Length1 == |M|
    requires forall u :: 0 <= u < |M| ==> u in nodeToComponent && nodeToComponent[u] == compOf[u]
    requires forall j :: 0 <= j < |M| ==> R[i, j] == Finite(Effective(M, i, j))
    modifies R
    ensures forall j :: 0 <= j < |M| ==> R[i, j] == Masked(M, compOf, i, j)
    ensures forall i', j :: 0 <= i' < |M| && i' != i && 0 <= j < |M| ==> R[i', j] == old(R[i', j])
  {
    var n := |M|;
    for j := 0 to n
      invariant forall j' :: 0 <= j' < j ==> R[i, j'] == Masked(M, compOf, i, j')
      invariant forall j' :: j <= j' < n ==> R[i, j'] == old(R[i, j'])
      invariant forall i', j' :: 0 <= i' < n && i' != i && 0 <= j' < n ==> R[i', j'] == old(R[i', j'])
    {
      if nodeToComponent[i] != nodeToComponent[j] {
        R[i, j] := Inf;
      }
    }
  }

  /** The nodes 0..m-1 in order. */
  function Range(m: nat): (r: seq<nat>)
    ensures |r| == m && forall k :: 0 <= k < m ==> r[k] == k
  {
    seq(m, k => k)
  }

  /** A connected graph on 0..m-1 has the single component [0, .., m-1]. */
  lemma SinglePartition(m: nat)
    ensures IsPartition([Range(m)], m)
  {
    forall u | 0 <= u < m
      ensures Locate([Range(m)], u).Some?
    {
      assert Range(m)[u] == u;
    }
  }

  /** Inside one component no entry of the resistance matrix is infinite. */
  lemma SingleComponentFinite(M: Matrix, i: nat, j: nat)
    requires IsShape(M, |M|, |M|) && i < |M| && j < |M|
    ensures IsPartition([Range(|M|)], |M|)
    ensures ResistanceEntry(M, [Range(|M|)], i, j) == Finite(Effective(M, i, j))
  {
    SinglePartition(|M|);
    LocateFinds([Range(|M|)], |M|, 0, i);
    LocateFinds([Range(|M|)], |M|, 0, j);
  }

  /**
   * The masking is exactly the component test: R[i, j] is infinite when i
   * and j lie in different components and finite (the effective resistance)
   * otherwise; the diagonal is 0 and the matrix is symmetric.
   */
  lemma ResistanceEntryProperties(M: Matrix, comps: seq<seq<nat>>, i: nat, j: nat)
    requires IsShape(M, |M|, |M|) && IsPartition(comps, |M|) && i < |M| && j < |M|
    ensures ResistanceEntry(M, comps, i, j) == Inf <==>
      !exists c :: 0 <= c < |comps| && i in comps[c] && j in comps[c]
    ensures ResistanceEntry(M, comps, i, i) == Finite(0.0)
    ensures ResistanceEntry(M, comps, i, j) == ResistanceEntry(M, comps, j, i)
  {
    SameComponent(comps, |M|, i, j);
  }

  /** The largest finite double, which `nan_to_num` puts in place of -inf. */
  const LargestFloat: real := 17976931348623157.0 * TenTo(292) as real

  function TenTo(k: nat): (r: nat)
    ensures r >= 1
  {
    if k == 0 then 1 else 10 * TenTo(k - 1)
  }

  /**
   * One entry of `R / (R + beta)` followed by
   * `nan_to_num(nan=1.0, posinf=1.0)`: inf / inf is NaN and becomes 1.0; a
   * zero denominator gives +inf (1.0), NaN (1.0) or -inf (the most negative
   * double); otherwise r / (r + beta).
   */
  function Renorm(x: Ext, beta: real): (r: real)
    ensures x.Inf? ==> r == 1.0
    ensures x.Finite? && x.r + beta != 0.0 ==> r * (x.r + beta) == x.r
    ensures x.Finite? && x.r >= 0.0 && beta > 0.0 ==> 0.0 <= r < 1.0
  {
    match x
    case Inf => 1.0
    case Finite(v) =>
      if v + beta != 0.0 then
        RenormInUnit(v, beta);
        v / (v + beta)
      else if v < 0.0 then -LargestFloat
      else 1.0
  }

  lemma RenormInUnit(v: real, beta: real)
    requires v + beta != 0.0
    ensures v / (v + beta) * (v + beta) == v
    ensures v >= 0.0 && beta > 0.0 ==> 0.0 <= v / (v + beta) < 1.0
  {
    if v >= 0.0 && beta > 0.0 {
      Ratio(v, v + beta);
    }
  }

  /**
   * With beta > 0 renormalisation keeps the order of non-negative
   * resistances, and every finite resistance ends below the 1.0 that an
   * infinite one becomes.
   */
  lemma RenormMonotone(r1: real, r2: real, beta: real)
    requires beta > 0.0 && 0.0 <= r1 <= r2
    ensures Renorm(Finite(r1), beta) <= Renorm(Finite(r2), beta) < Renorm(Inf, beta)
  {
    assert r1 * beta <= r2 * beta;
    assert r1 * (r2 + beta) <= r2 * (r1 + beta);
    CrossMultiply(r1, r1 + beta, r2, r2 + beta);
  }

  lemma CrossMultiply(a: real, b: real, c: real, d: real)
    requires b > 0.0 && d > 0.0 && a * d <= c * b
    ensures a / b <= c / d
  {
    assert a / b * b == a && c / d * d == c;
    assert (a / b) * (b * d) <= (c / d) * (b * d);
  }

  /** The adjacency matrix of `G.subgraph(comp)`, rows and columns in the order of comp. */
  function SubMatrix(A: Matrix, comp: seq<nat>): (S: Matrix)
    requires IsShape(A, |A|, |A|) && forall k :: 0 <= k < |comp| ==> comp[k] < |A|
    ensures IsShape(S, |comp|, |comp|)
  {
    seq(|comp|, i requires 0 <= i < |comp| => seq(|comp|, j requires 0 <= j < |comp| => A[comp[i]][comp[j]]))
  }

  /** `pinv` maps an m x m matrix to an m x m matrix. */
  ghost predicate PinvShapes(pinv: Matrix -> Matrix)
  {
    forall L: Matrix :: IsShape(L, |L|, |L|) ==> IsShape(pinv(L), |L|, |L|)
  }

  /** `pinv(nx.laplacian_matrix(subgraph))` for component c. */
  function ComponentPinv(A: Matrix, comps: seq<seq<nat>>, pinv: Matrix -> Matrix, c: nat): (M: Matrix)
    requires IsShape(A, |A|, |A|) && IsPartition(comps, |A|) && PinvShapes(pinv) && c < |comps|
    ensures IsShape(M, |comps[c]|, |comps[c]|)
  {
    var m := |comps[c]|;
    var L := Laplacian(SubMatrix(A, comps[c]), m).value;
    pinv(L)
  }

  /**
   * Entry (u, v) after the assembly loop of `renormalized_res_mat`: the
   * resistance inside the common component, infinite across components.
   */
  function Assembled(A: Matrix, comps: seq<seq<nat>>, pinv: Matrix -> Matrix, u: nat, v: nat): Ext
    requires IsShape(A, |A|, |A|) && IsPartition(comps, |A|) && PinvShapes(pinv)
    requires u < |A| && v < |A|
  {
    var lu, lv := Locate(comps, u).value, Locate(comps, v).value;
    if lu.0 != lv.0 then Inf
    else Finite(Effective(ComponentPinv(A, comps, pinv, lu.0), lu.1, lv.1))
  }

  /**
   * The pair (u, v) has been copied once the copy loops have reached
   * component c and row i of it.
   */
  predicate Copied(comps: seq<seq<nat>>, n: nat, u: nat, v: nat, c: nat, i: nat)
    requires IsPartition(comps, n) && u < n && v < n
  {
    var lu, lv := Locate(comps, u).value, Locate(comps, v).value;
    lu.0 == lv.0 && (lu.0 < c || (lu.0 == c && lu.1 < i))
  }

  /** Finishing component c copies nothing beyond its rows. */
  lemma CopiedComponentDone(comps: seq<seq<nat>>, n: nat, c: nat)
    requires IsPartition(comps, n) && c < |comps|
    ensures forall u, v :: 0 <= u < n && 0 <= v < n ==>
      (Copied(comps, n, u, v, c, |comps[c]|) <==> Copied(comps, n, u, v, c + 1, 0))
  {
  }

  /** The entry of component c's resistance matrix at (i, j) is the assembled entry of its nodes. */
  lemma AssembledAt(A: Matrix, comps: seq<seq<nat>>, pinv: Matrix -> Matrix, c: nat, i: nat, j: nat)
    requires IsShape(A, |A|, |A|) && IsPartition(comps, |A|) && PinvShapes(pinv)
    requires c < |comps| && i < |comps[c]| && j < |comps[c]|
    ensures Assembled(A, comps, pinv, comps[c][i], comps[c][j])
         == Finite(Effective(ComponentPinv(A, comps, pinv, c), i, j))
  {
    LocateFinds(comps, |A|, c, i);
    LocateFinds(comps, |A|, c, j);
  }

  /** Finishing row i of component c copies the pairs of that row and nothing else. */
  lemma CopiedRowStep(comps: seq<seq<nat>>, n: nat, c: nat, i: nat, u: nat, v: nat)
    requires IsPartition(comps, n) && c < |comps| && i < |comps[c]| && u < n && v < n
    ensures Copied(comps, n, u, v, c, i + 1) <==>
      Copied(comps, n, u, v, c, i) || (u == comps[c][i] && v in comps[c])
  {
    LocateFinds(comps, n, c, i);
    if v in comps[c] {
      var j :| 0 <= j < |comps[c]| && comps[c][j] == v;
      LocateFinds(comps, n, c, j);
    }
  }

  /** The inner copy loop: `R[u0, cols[j]] = r_sub[i, j]` for every j, nothing else written. */
  method WriteRow(R: array2<Ext>, rSub: array2<Ext>, i: nat, u0: nat, cols: seq<nat>)
    requires R != rSub && u0 < R.Length0 && i < rSub.Length0 && |cols| <= rSub.Length1
    requires forall j :: 0 <= j < |cols| ==> cols[j] < R.Length1
    requires forall j, j' :: 0 <= j < j' < |cols| ==> cols[j] != cols[j']
    modifies R
    ensures forall j :: 0 <= j < |cols| ==> R[u0, cols[j]] == rSub[i, j]
    ensures forall u, v :: 0 <= u < R.Length0 && 0 <= v < R.Length1 && (u != u0 || v !in cols) ==>
      R[u, v] == old(R[u, v])
  {
    for j := 0 to |cols|
      invariant forall j' :: 0 <= j' < j ==> R[u0, cols[j']] == rSub[i, j']
      invariant forall u, v :: 0 <= u < R.Length0 && 0 <= v < R.Length1 && (u != u0 || v !in cols[..j]) ==>
        R[u, v] == old(R[u, v])
    {
      R[u0, cols[j]] := rSub[i, j];
    }
  }

  /** Row i of component c: `R[u, v] = r_sub[i, j]` for every j. */
  method CopyRow(R: array2<Ext>, rSub: array2<Ext>, A: Matrix, comps: seq<seq<nat>>, pinv: Matrix -> Matrix,
                 c: nat, i: nat)
    requires IsShape(A, |A|, |A|) && IsPartition(comps, |A|) && PinvShapes(pinv)
    requires c < |comps| && i < |comps[c]|
    requires R.Length0 == |A| && R.Length1 == |A| && R != rSub
    requires rSub.Length0 == |comps[c]| && rSub.Length1 == |comps[c]|
    requires forall i', j :: 0 <= i' < |comps[c]| && 0 <= j < |comps[c]| ==>
      rSub[i', j] == Finite(Effective(ComponentPinv(A, comps, pinv, c), i', j))
    requires forall u, v :: 0 <= u < |A| && 0 <= v < |A| ==>
      R[u, v] == if Copied(comps, |A|, u, v, c, i) then Assembled(A, comps, pinv, u, v) else Inf
    modifies R
    ensures forall u, v :: 0 <= u < |A| && 0 <= v < |A| ==>
      R[u, v] == if Copied(comps, |A|, u, v, c, i + 1) then Assembled(A, comps, pinv, u, v) else Inf
  {
    var n, comp := |A|, comps[c];
    forall j, j' | 0 <= j < j' < |comp|
      ensures comp[j] != comp[j']
    {
      LocateFinds(comps, n, c, j);
      LocateFinds(comps, n, c, j');
    }
    WriteRow(R, rSub, i, comp[i], comp);
    forall u, v | 0 <= u < n && 0 <= v < n
      ensures R[u, v] == if Copied(comps, n, u, v, c, i + 1) then Assembled(A, comps, pinv, u, v) else Inf
    {
      CopiedRowStep(comps, n, c, i, u, v);
      if u == comp[i] && v in comp {
        var j :| 0 <= j < |comp| && comp[j] == v;
        AssembledAt(A, comps, pinv, c, i, j);
      }
    }
  }

  /**
   * One pass of the loop over the components: `resistance_matrix` of the
   * component's subgraph, copied into R at the component's nodes.
   */
  method CopyComponent(R: array2<Ext>, A: Matrix, comps: seq<seq<nat>>, pinv: Matrix -> Matrix, c: nat)
    requires IsShape(A, |A|, |A|) && IsPartition(comps, |A|) && PinvShapes(pinv) && c < |comps|
    requires R.Length0 == |A| && R.Length1 == |A|
    requires forall u, v :: 0 <= u < |A| && 0 <= v < |A| ==>
      R[u, v] == if Copied(comps, |A|, u, v, c, 0) then Assembled(A, comps, pinv, u, v) else Inf
    modifies R
    ensures forall u, v :: 0 <= u < |A| && 0 <= v < |A| ==>
      R[u, v] == if Copied(comps, |A|, u, v, c + 1, 0) then Assembled(A, comps, pinv, u, v) else Inf
  {
    var n, comp := |A|, comps[c];
    var M := ComponentPinv(A, comps, pinv, c);
    SinglePartition(|comp|);
    var rSub := ResistanceMatrix(M, [Range(|comp|)]);
    forall i', j | 0 <= i' < |comp| && 0 <= j < |comp|
      ensures rSub[i', j] == Finite(Effective(M, i', j))
    {
      SingleComponentFinite(M, i', j);
    }
    for i := 0 to |comp|
      invariant forall i', j :: 0 <= i' < |comp| && 0 <= j < |comp| ==> rSub[i', j] == Finite(Effective(M, i', j))
      invariant forall u, v :: 0 <= u < n && 0 <= v < n ==>
        R[u, v] == if Copied(comps, n, u, v, c, i) then Assembled(A, comps, pinv, u, v) else Inf
    {
      CopyRow(R, rSub, A, comps, pinv, c, i);
    }
    CopiedComponentDone(comps, n, c);
  }

  /** The `np.full(..., np.inf)` start and the copy loop over all components. */
  method AssembleComponents(A: Matrix, comps: seq<seq<nat>>, pinv: Matrix -> Matrix) returns (full: array2<Ext>)
    requires IsShape(A, |A|, |A|) && IsPartition(comps, |A|) && PinvShapes(pinv)
    ensures fresh(full) && full.Length0 == |A| && full.Length1 == |A|
    ensures forall u, v :: 0 <= u < |A| && 0 <= v < |A| ==> full[u, v] == Assembled(A, comps, pinv, u, v)
  {
    var n := |A|;
    full := new Ext[n, n]((u: nat, v: nat) => Inf);
    for c := 0 to |comps|
      invariant forall u, v :: 0 <= u < n && 0 <= v < n ==>
        full[u, v] == if Copied(comps, n, u, v, c, 0) then Assembled(A, comps, pinv, u, v) else Inf
    {
      CopyComponent(full, A, comps, pinv, c);
    }
  }

  /** `np.fill_diagonal(R, 0)` */
  method FillDiagonal(R: array2<real>)
    requires R.Length0 == R.Length1
    modifies R
    ensures forall u, v :: 0 <= u < R.Length0 && 0 <= v < R.Length1 ==>
      R[u, v] == if u == v then 0.0 else old(R[u, v])
  {
    for u := 0 to R.Length0
      invariant forall u', v :: 0 <= u' < R.Length0 && 0 <= v < R.Length1 ==>
        R[u', v] == if u' == v && u' < u then 0.0 else old(R[u', v])
    {
      R[u, u] := 0.0;
    }
  }

  /** Entry (u, v) of `renormalized_res_mat`. */
  function RenormEntry(A: Matrix, comps: seq<seq<nat>>, pinv: Matrix -> Matrix, beta: real, u: nat, v: nat): real
    requires IsShape(A, |A|, |A|) && IsPartition(comps, |A|) && PinvShapes(pinv)
    requires u < |A| && v < |A|
  {
    if u == v then 0.0 else Renorm(Assembled(A, comps, pinv, u, v), beta)
  }

  /**
   * `renormalized_res_mat`: start from an all-infinite matrix, copy in each
   * component's resistances, renormalise every entry, and zero the diagonal.
   */
  method RenormalizedResMat(A: Matrix, comps: seq<seq<nat>>, pinv: Matrix -> Matrix, beta: real)
    returns (R: array2<real>)
    requires IsShape(A, |A|, |A|) && IsPartition(comps, |A|) && PinvShapes(pinv)
    ensures fresh(R) && R.Length0 == |A| && R.Length1 == |A|
    ensures forall u, v :: 0 <= u < |A| && 0 <= v < |A| ==> R[u, v] == RenormEntry(A, comps, pinv, beta, u, v)
  {
    var n := |A|;
    var full := AssembleComponents(A, comps, pinv);
    R := new real[n, n]((u: nat, v: nat) reads full requires u < n && v < n => Renorm(full[u, v], beta));
    FillDiagonal(R);
  }

  /**
   * Every entry of the renormalised matrix: 0 on the diagonal, symmetric,
   * and 1.0 for two nodes that no component holds together.
   */
  lemma RenormEntryProperties(A: Matrix, comps: seq<seq<nat>>, pinv: Matrix -> Matrix, beta: real, u: nat, v: nat)
    requires IsShape(A, |A|, |A|) && IsPartition(comps, |A|) && PinvShapes(pinv)
    requires u < |A| && v < |A|
    ensures RenormEntry(A, comps, pinv, beta, u, u) == 0.0
    ensures RenormEntry(A, comps, pinv, beta, u, v) == RenormEntry(A, comps, pinv, beta, v, u)
    ensures u != v && !(exists c :: 0 <= c < |comps| && u in comps[c] && v in comps[c]) ==>
      RenormEntry(A, comps, pinv, beta, u, v) == 1.0
  {
    SameComponent(comps, |A|, u, v);
    var lu, lv := Locate(comps, u).value, Locate(comps, v).value;
    if lu.0 == lv.0 {
      var M := ComponentPinv(A, comps, pinv, lu.0);
      assert Effective(M, lu.1, lv.1) == Effective(M, lv.1, lu.1);
    }
  }

  /**
   * With beta > 0, a pair whose resistance is non-negative or infinite ends
   * in [0, 1], and at 1.0 exactly when it is infinite.
   */
  lemma RenormEntryRange(A: Matrix, comps: seq<seq<nat>>, pinv: Matrix -> Matrix, beta: real, u: nat, v: nat)
    requires IsShape(A, |A|, |A|) && IsPartition(comps, |A|) && PinvShapes(pinv)
    requires u < |A| && v < |A| && u != v && beta > 0.0
    requires Assembled(A, comps, pinv, u, v).Finite? ==> Assembled(A, comps, pinv, u, v).r >= 0.0
    ensures 0.0 <= RenormEntry(A, comps, pinv, beta, u, v) <= 1.0
    ensures RenormEntry(A, comps, pinv, beta, u, v) == 1.0 <==> Assembled(A, comps, pinv, u, v).Inf?
  {
  }

  /** The renormalised resistance matrix of A as a value. */
  function RenormMatrix(A: Matrix, comps: seq<seq<nat>>, pinv: Matrix -> Matrix, beta: real): (R: Matrix)
    requires IsShape(A, |A|, |A|) && IsPartition(comps, |A|) && PinvShapes(pinv)
    ensures IsShape(R, |A|, |A|)
  {
    seq(|A|, u requires 0 <= u < |A| =>
      seq(|A|, v requires 0 <= v < |A| => RenormEntry(A, comps, pinv, beta, u, v)))
  }

  /** `np.abs(x) ** p` for an integer exponent p. */
  function PowAbs(x: real, p: nat): (r: real)
    ensures r >= 0.0
    ensures p >= 1 ==> (r == 0.0 <==> x == 0.0)
  {
    if p == 0 then 1.0
    else
      var rest := PowAbs(x, p - 1);
      assert Abs(x) > 0.0 && rest > 0.0 ==> Abs(x) * rest > 0.0;
      Abs(x) * rest
  }

  /** The sum of `np.abs(x - y) ** p` along one row. */
  function RowDiff(x: seq<real>, y: seq<real>, p: nat): (s: real)
    requires |x| == |y|
    ensures s >= 0.0
  {
    if x == [] then 0.0
    else
      var k := |x| - 1;
      RowDiff(x[..k], y[..k], p) + PowAbs(x[k] - y[k], p)
  }

  /** `np.nansum(np.abs(X - Y) ** p)` over two matrices of the same shape. */
  function DiffSum(X: Matrix, Y: Matrix, p: nat): (s: real)
    requires |X| == |Y| && forall i :: 0 <= i < |X| ==> |X[i]| == |Y[i]|
    ensures s >= 0.0
  {
    if X == [] then 0.0
    else
      var k := |X| - 1;
      DiffSum(X[..k], Y[..k], p) + RowDiff(X[k], Y[k], p)
  }

  lemma {:induction false} RowDiffSymmetric(x: seq<real>, y: seq<real>, p: nat)
    requires |x| == |y|
    ensures RowDiff(x, y, p) == RowDiff(y, x, p)
  {
    if x != [] {
      var k := |x| - 1;
      RowDiffSymmetric(x[..k], y[..k], p);
      AbsDiffLeSum(x[k], y[k]);
      PowAbsNegate(x[k] - y[k], p);
    }
  }

  lemma {:induction false} PowAbsNegate(x: real, p: nat)
    ensures PowAbs(x, p) == PowAbs(-x, p)
  {
    if p > 0 {
      PowAbsNegate(x, p - 1);
    }
  }

  /** For p >= 1 a row difference vanishes exactly when the rows are equal. */
  lemma {:induction false} RowDiffZero(x: seq<real>, y: seq<real>, p: nat)
    requires |x| == |y| && p >= 1
    ensures RowDiff(x, y, p) == 0.0 <==> x == y
  {
    if x != [] {
      var k := |x| - 1;
      RowDiffZero(x[..k], y[..k], p);
      assert x == x[..k] + [x[k]] && y == y[..k] + [y[k]];
    }
  }

  lemma {:induction false} DiffSumSymmetric(X: Matrix, Y: Matrix, p: nat)
    requires |X| == |Y| && forall i :: 0 <= i < |X| ==> |X[i]| == |Y[i]|
    ensures DiffSum(X, Y, p) == DiffSum(Y, X, p)
  {
    if X != [] {
      var k := |X| - 1;
      DiffSumSymmetric(X[..k], Y[..k], p);
      RowDiffSymmetric(X[k], Y[k], p);
    }
  }

  /** For p >= 1 the summed differences vanish exactly when the matrices are equal. */
  lemma {:induction false} DiffSumZero(X: Matrix, Y: Matrix, p: nat)
    requires |X| == |Y| && forall i :: 0 <= i < |X| ==> |X[i]| == |Y[i]|
    requires p >= 1
    ensures DiffSum(X, Y, p) == 0.0 <==> X == Y
  {
    if X != [] {
      var k := |X| - 1;
      DiffSumZero(X[..k], Y[..k], p);
      RowDiffZero(X[k], Y[k], p);
      assert X == X[..k] + [X[k]] && Y == Y[..k] + [Y[k]];
    }
  }

  /** A square adjacency matrix padded with isolated nodes up to N >= its size. */
  function Padded(A: Matrix, N: nat): (P: Matrix)
    requires IsShape(A, |A|, |A|) && |A| <= N
    ensures IsShape(P, N, N)
  {
    Pad(A, |A|, N).value
  }

  /** The entries of a two-dimensional array as a matrix. */
  function Entries(R: array2<real>): (S: Matrix)
    reads R
    ensures IsShape(S, R.Length0, R.Length1)
    ensures forall u, v :: 0 <= u < R.Length0 && 0 <= v < R.Length1 ==> S[u][v] == R[u, v]
  {
    seq(R.Length0, u requires 0 <= u < R.Length0 reads R =>
      seq(R.Length1, v requires 0 <= v < R.Length1 reads R => R[u, v]))
  }

  lemma EntriesOfRenormalized(R: array2<real>, A: Matrix, comps: seq<seq<nat>>, pinv: Matrix -> Matrix, beta: real)
    requires IsShape(A, |A|, |A|) && IsPartition(comps, |A|) && PinvShapes(pinv)
    requires R.Length0 == |A| && R.Length1 == |A|
    requires forall u, v :: 0 <= u < |A| && 0 <= v < |A| ==> R[u, v] == RenormEntry(A, comps, pinv, beta, u, v)
    ensures Entries(R) == RenormMatrix(A, comps, pinv, beta)
  {
    var S, T := Entries(R), RenormMatrix(A, comps, pinv, beta);
    forall u | 0 <= u < |A|
      ensures S[u] == T[u]
    {
    }
  }

  /**
   * `resistance_distance` up to its final p-th root: both adjacency
   * matrices padded to N = max(n1, n2), renormalised, and the p-th powers
   * of the entrywise differences summed. `comps1` and `comps2` are the
   * components of the padded graphs. The exponent `1 / p` of the root
   * raises ZeroDivisionError for p = 0.
   */
  method ResistanceDistance(A1: Matrix, A2: Matrix, comps1: seq<seq<nat>>, comps2: seq<seq<nat>>,
                            pinv: Matrix -> Matrix, p: nat, beta: real)
    returns (distance: Result<real>)
    requires IsShape(A1, |A1|, |A1|) && IsShape(A2, |A2|, |A2|)
    requires IsPartition(comps1, Max(|A1|, |A2|)) && IsPartition(comps2, Max(|A1|, |A2|))
    requires PinvShapes(pinv)
    ensures distance.Err? <==> p == 0
    ensures distance.Err? ==> distance.error == ZeroDivisionError
    ensures distance.Ok? ==>
      distance.value == DiffSum(RenormMatrix(Padded(A1, Max(|A1|, |A2|)), comps1, pinv, beta),
                                RenormMatrix(Padded(A2, Max(|A1|, |A2|)), comps2, pinv, beta), p)
    ensures distance.Ok? ==> distance.value >= 0.0
  {
    var n1, n2 := |A1|, |A2|;
    var N := Max(n1, n2);
    var P1, P2 := Padded(A1, N), Padded(A2, N);
    var R1 := RenormalizedResMat(P1, comps1, pinv, beta);
    var R2 := RenormalizedResMat(P2, comps2, pinv, beta);
    EntriesOfRenormalized(R1, P1, comps1, pinv, beta);
    EntriesOfRenormalized(R2, P2, comps2, pinv, beta);
    var sum := DiffSum(Entries(R1), Entries(R2), p);
    if p == 0 {
      distance := Err(ZeroDivisionError);
    } else {
      distance := Ok(sum);
    }
  }

  /**
   * The distance (before the root) is symmetric, and for p >= 1 it is 0
   * exactly when the two renormalised matrices agree; two identical inputs
   * are at distance 0.
   */
  lemma ResistanceDistanceProperties(A1: Matrix, A2: Matrix, comps1: seq<seq<nat>>, comps2: seq<seq<nat>>,
                                     pinv: Matrix -> Matrix, p: nat, beta: real)
    requires IsShape(A1, |A1|, |A1|) && IsShape(A2, |A2|, |A2|)
    requires IsPartition(comps1, Max(|A1|, |A2|)) && IsPartition(comps2, Max(|A1|, |A2|))
    requires PinvShapes(pinv) && p >= 1
    ensures var R1 := RenormMatrix(Padded(A1, Max(|A1|, |A2|)), comps1, pinv, beta);
            var R2 := RenormMatrix(Padded(A2, Max(|A1|, |A2|)), comps2, pinv, beta);
            && DiffSum(R1, R2, p) == DiffSum(R2, R1, p)
            && (DiffSum(R1, R2, p) == 0.0 <==> R1 == R2)
    ensures A1 == A2 && comps1 == comps2 ==>
      DiffSum(RenormMatrix(Padded(A1, Max(|A1|, |A2|)), comps1, pinv, beta),
              RenormMatrix(Padded(A2, Max(|A1|, |A2|)), comps2, pinv, beta), p) == 0.0
  {
    var N := Max(|A1|, |A2|);
    var R1 := RenormMatrix(Padded(A1, N), comps1, pinv, beta);
    var R2 := RenormMatrix(Padded(A2, N), comps2, pinv, beta);
    DiffSumSymmetric(R1, R2, p);
    DiffSumZero(R1, R2, p);
  }

  /** The isolated nodes lo..hi-1, each its own component: [[lo], .., [hi-1]]. */
  function Singletons(lo: nat, hi: nat): seq<seq<nat>>
    requires lo <= hi
  {
    seq(hi - lo, c => [lo + c])
  }

  /**
   * Locating in `a + b`: a node listed in b is found there, shifted by the
   * components of a; any other node is found where a puts it.
   */
  lemma {:induction false} LocateAppend(a: seq<seq<nat>>, b: seq<seq<nat>>, u: nat)
    ensures Locate(b, u).Some? ==> Locate(a + b, u) == Some((|a| + Locate(b, u).value.0, Locate(b, u).value.1))
    ensures Locate(b, u).None? ==> Locate(a + b, u) == Locate(a, u)
  {
    if b == [] {
      assert a + b == a;
    } else {
      var ab, k := a + b, |b| - 1;
      assert ab[|ab| - 1] == b[k];
      var last := LastIndex(b[k], u);
      if last.Some? {
        assert Locate(ab, u) == Some((|a| + k, last.value));
        assert Locate(b, u) == Some((k, last.value));
      } else {
        assert ab[..|ab| - 1] == a + b[..k];
        LocateAppend(a, b[..k], u);
      }
    }
  }

  /** In the singleton components of lo..hi-1, node u sits alone in component u - lo. */
  lemma {:induction false} LocateSingletons(lo: nat, hi: nat, u: nat)
    requires lo <= hi
    ensures lo <= u < hi ==> Locate(Singletons(lo, hi), u) == Some(((u - lo) as nat, 0))
    ensures u < lo || hi <= u ==> Locate(Singletons(lo, hi), u) == None
    decreases hi - lo
  {
    if lo < hi {
      assert Singletons(lo, hi)[..hi - lo - 1] == Singletons(lo, hi - 1);
      LocateSingletons(lo, hi - 1, u);
    }
  }

  /**
   * Appending the singleton components of lo..hi-1 locates each of those
   * nodes in its own component and leaves every other node where it was.
   */
  lemma LocateWithSingletons(comps: seq<seq<nat>>, lo: nat, hi: nat, u: nat)
    requires lo <= hi
    ensures u < lo || hi <= u ==> Locate(comps + Singletons(lo, hi), u) == Locate(comps, u)
    ensures lo <= u < hi ==> Locate(comps + Singletons(lo, hi), u) == Some(((|comps| + u - lo) as nat, 0))
  {
    LocateAppend(comps, Singletons(lo, hi), u);
    LocateSingletons(lo, hi, u);
  }

  /**
   * The components of a graph padded from n to n' nodes: the old ones, then
   * each added isolated node on its own.
   */
  lemma PartitionWithSingletons(comps: seq<seq<nat>>, n: nat, n': nat)
    requires IsPartition(comps, n) && n <= n'
    ensures IsPartition(comps + Singletons(n, n'), n')
  {
    var cs := comps + Singletons(n, n');
    forall u | 0 <= u < n'
      ensures Locate(cs, u).Some?
    {
      LocateWithSingletons(comps, n, n', u);
    }
    forall c, k | 0 <= c < |cs| && 0 <= k < |cs[c]|
      ensures cs[c][k] < n' && Locate(cs, cs[c][k]) == Some((c, k))
    {
      if c < |comps| {
        assert cs[c] == comps[c];
      } else {
        assert cs[c] == [n + (c - |comps|)];
      }
      LocateWithSingletons(comps, n, n', cs[c][k]);
    }
  }

  /** Nodes below N induce the same subgraph before and after padding further to N'. */
  lemma SubMatrixPadded(A: Matrix, comp: seq<nat>, N: nat, N': nat)
    requires IsShape(A, |A|, |A|) && |A| <= N <= N'
    requires forall k :: 0 <= k < |comp| ==> comp[k] < N
    ensures SubMatrix(Padded(A, N'), comp) == SubMatrix(Padded(A, N), comp)
  {
    var S, S' := SubMatrix(Padded(A, N), comp), SubMatrix(Padded(A, N'), comp);
    forall i | 0 <= i < |comp|
      ensures S'[i] == S[i]
    {
      assert forall j :: 0 <= j < |comp| ==> S'[i][j] == S[i][j];
    }
  }

  /** An old component has the same subgraph, and so the same pseudo-inverse, after further padding. */
  lemma ComponentPinvPadded(A: Matrix, comps: seq<seq<nat>>, pinv: Matrix -> Matrix, N: nat, N': nat, c: nat)
    requires IsShape(A, |A|, |A|) && |A| <= N <= N' && IsPartition(comps, N) && PinvShapes(pinv)
    requires c < |comps|
    ensures IsPartition(comps + Singletons(N, N'), N')
    ensures ComponentPinv(Padded(A, N'), comps + Singletons(N, N'), pinv, c)
         == ComponentPinv(Padded(A, N), comps, pinv, c)
  {
    PartitionWithSingletons(comps, N, N');
    assert (comps + Singletons(N, N'))[c] == comps[c];
    SubMatrixPadded(A, comps[c], N, N');
  }

  /**
   * Padding from N to N' with the added nodes as singleton components keeps
   * every renormalised entry among the old nodes, and gives every entry
   * that involves an added node 0 on the diagonal and 1.0 elsewhere,
   * whatever the graph.
   */
  lemma RenormEntryPadded(A: Matrix, comps: seq<seq<nat>>, pinv: Matrix -> Matrix, beta: real,
                          N: nat, N': nat, u: nat, v: nat)
    requires IsShape(A, |A|, |A|) && |A| <= N <= N' && IsPartition(comps, N) && PinvShapes(pinv)
    requires u < N' && v < N'
    ensures IsPartition(comps + Singletons(N, N'), N')
    ensures u < N && v < N ==>
      RenormEntry(Padded(A, N'), comps + Singletons(N, N'), pinv, beta, u, v)
      == RenormEntry(Padded(A, N), comps, pinv, beta, u, v)
    ensures N <= u || N <= v ==>
      RenormEntry(Padded(A, N'), comps + Singletons(N, N'), pinv, beta, u, v) == if u == v then 0.0 else 1.0
  {
    PartitionWithSingletons(comps, N, N');
    LocateWithSingletons(comps, N, N', u);
    LocateWithSingletons(comps, N, N', v);
    if u < N && v < N {
      var lu, lv := Locate(comps, u).value, Locate(comps, v).value;
      if lu.0 == lv.0 {
        ComponentPinvPadded(A, comps, pinv, N, N', lu.0);
      }
    } else if u != v {
      assert Assembled(Padded(A, N'), comps + Singletons(N, N'), pinv, u, v) == Inf;
    }
  }

  /** Extra positions where both rows agree add nothing to a row difference, for p >= 1. */
  lemma {:induction false} RowDiffExtend(x: seq<real>, y: seq<real>, x': seq<real>, y': seq<real>, p: nat)
    requires |x| == |y| <= |x'| == |y'| && p >= 1
    requires forall j :: 0 <= j < |x| ==> x'[j] == x[j] && y'[j] == y[j]
    requires forall j :: |x| <= j < |x'| ==> x'[j] == y'[j]
    ensures RowDiff(x', y', p) == RowDiff(x, y, p)
    decreases |x'|
  {
    if |x'| > |x| {
      var k := |x'| - 1;
      RowDiffExtend(x, y, x'[..k], y'[..k], p);
    } else {
      assert x' == x && y' == y;
    }
  }

  /**
   * Extra rows on which both matrices agree add nothing to the summed
   * differences, for p >= 1, when the old rows keep their row differences.
   */
  lemma {:induction false} DiffSumExtend(X: Matrix, Y: Matrix, X': Matrix, Y': Matrix, p: nat)
    requires |X| == |Y| <= |X'| == |Y'| && p >= 1
    requires forall i :: 0 <= i < |X| ==> |X[i]| == |Y[i]|
    requires forall i :: 0 <= i < |X'| ==> |X'[i]| == |Y'[i]|
    requires forall i :: 0 <= i < |X| ==> RowDiff(X'[i], Y'[i], p) == RowDiff(X[i], Y[i], p)
    requires forall i :: |X| <= i < |X'| ==> X'[i] == Y'[i]
    ensures DiffSum(X', Y', p) == DiffSum(X, Y, p)
    decreases |X'|
  {
    if X' != [] {
      var k := |X'| - 1;
      assert DiffSum(X', Y', p) == DiffSum(X'[..k], Y'[..k], p) + RowDiff(X'[k], Y'[k], p);
      if k >= |X| {
        RowDiffZero(X'[k], Y'[k], p);
        DiffSumExtend(X, Y, X'[..k], Y'[..k], p);
      } else {
        assert DiffSum(X, Y, p) == DiffSum(X[..k], Y[..k], p) + RowDiff(X[k], Y[k], p);
        DiffSumExtend(X[..k], Y[..k], X'[..k], Y'[..k], p);
      }
    }
  }

  /**
   * Two pairs of square matrices, the second pair N' x N' and agreeing with
   * the first on the top-left N x N block, and with each other everywhere
   * outside it: for p >= 1 both pairs have the same summed differences.
   */
  lemma DiffSumPadded(X: Matrix, Y: Matrix, X': Matrix, Y': Matrix, N: nat, N': nat, p: nat)
    requires IsShape(X, N, N) && IsShape(Y, N, N) && IsShape(X', N', N') && IsShape(Y', N', N')
    requires N <= N' && p >= 1
    requires forall u, v :: 0 <= u < N && 0 <= v < N ==> X'[u][v] == X[u][v] && Y'[u][v] == Y[u][v]
    requires forall u, v :: 0 <= u < N' && 0 <= v < N' && (N <= u || N <= v) ==> X'[u][v] == Y'[u][v]
    ensures DiffSum(X', Y', p) == DiffSum(X, Y, p)
  {
    forall i | 0 <= i < N
      ensures RowDiff(X'[i], Y'[i], p) == RowDiff(X[i], Y[i], p)
    {
      RowDiffExtend(X[i], Y[i], X'[i], Y'[i], p);
    }
    forall i | N <= i < N'
      ensures X'[i] == Y'[i]
    {
      assert forall v :: 0 <= v < N' ==> X'[i][v] == Y'[i][v];
    }
    DiffSumExtend(X, Y, X', Y', p);
  }

  /**
   * The renormalised matrix of a graph padded further from N to N', the
   * added nodes being singleton components: its top-left N x N block is the
   * old matrix, and outside it every entry is 0 on the diagonal and 1.0
   * elsewhere.
   */
  lemma RenormMatrixPadded(A: Matrix, comps: seq<seq<nat>>, pinv: Matrix -> Matrix, beta: real, N: nat, N': nat)
    requires IsShape(A, |A|, |A|) && |A| <= N <= N' && IsPartition(comps, N) && PinvShapes(pinv)
    ensures IsPartition(comps + Singletons(N, N'), N')
    ensures forall u, v :: 0 <= u < N && 0 <= v < N ==>
      RenormMatrix(Padded(A, N'), comps + Singletons(N, N'), pinv, beta)[u][v]
      == RenormMatrix(Padded(A, N), comps, pinv, beta)[u][v]
    ensures forall u, v :: 0 <= u < N' && 0 <= v < N' && (N <= u || N <= v) ==>
      RenormMatrix(Padded(A, N'), comps + Singletons(N, N'), pinv, beta)[u][v] == if u == v then 0.0 else 1.0
  {
    PartitionWithSingletons(comps, N, N');
    var R, R' := RenormMatrix(Padded(A, N), comps, pinv, beta),
                 RenormMatrix(Padded(A, N'), comps + Singletons(N, N'), pinv, beta);
    forall u, v | 0 <= u < N' && 0 <= v < N'
      ensures u < N && v < N ==> R'[u][v] == R[u][v]
      ensures N <= u || N <= v ==> R'[u][v] == if u == v then 0.0 else 1.0
    {
      RenormEntryPadded(A, comps, pinv, beta, N, N', u, v);
    }
  }

  /**
   * Padding both graphs further, to any common order N' >= N = max(n1, n2),
   * adds nodes that are isolated singleton components in both: they are at
   * renormalised distance 1.0 from every other node in both matrices, so
   * for p >= 1 the distance does not change.
   */
  lemma PaddingInvariance(A1: Matrix, A2: Matrix, comps1: seq<seq<nat>>, comps2: seq<seq<nat>>,
                          pinv: Matrix -> Matrix, p: nat, beta: real, N': nat)
    requires IsShape(A1, |A1|, |A1|) && IsShape(A2, |A2|, |A2|)
    requires IsPartition(comps1, Max(|A1|, |A2|)) && IsPartition(comps2, Max(|A1|, |A2|))
    requires PinvShapes(pinv) && p >= 1 && Max(|A1|, |A2|) <= N'
    ensures IsPartition(comps1 + Singletons(Max(|A1|, |A2|), N'), N')
    ensures IsPartition(comps2 + Singletons(Max(|A1|, |A2|), N'), N')
    ensures var N := Max(|A1|, |A2|);
      DiffSum(RenormMatrix(Padded(A1, N'), comps1 + Singletons(N, N'), pinv, beta),
              RenormMatrix(Padded(A2, N'), comps2 + Singletons(N, N'), pinv, beta), p)
      == DiffSum(RenormMatrix(Padded(A1, N), comps1, pinv, beta),
                 RenormMatrix(Padded(A2, N), comps2, pinv, beta), p)
  {
    var N := Max(|A1|, |A2|);
    RenormMatrixPadded(A1, comps1, pinv, beta, N, N');
    RenormMatrixPadded(A2, comps2, pinv, beta, N, N');
    DiffSumPadded(RenormMatrix(Padded(A1, N), comps1, pinv, beta),
                  RenormMatrix(Padded(A2, N), comps2, pinv, beta),
                  RenormMatrix(Padded(A1, N'), comps1 + Singletons(N, N'), pinv, beta),
                  RenormMatrix(Padded(A2, N'), comps2 + Singletons(N, N'), pinv, beta), N, N', p);
  }
}
