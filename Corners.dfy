/** Last two stages of graph construction: node normals
    (calculate_normals) and corner classification (setup_corners). */
module Corners {
  import opened Geometry
  import opened Graph

  /** The left-hand perpendicular of edge `l` of polygon `p`, normalised. */
  function EdgeNormal(level: seq<Polygon>, num: Numerics, p: nat, l: nat): Vec2
    requires IsEdge(level, p, l)
  {
    var line := Sub(level[p].points[l + 1], level[p].points[l]);
    num.normalizeOrZero(Vec2(-line.y, line.x))
  }

  /** The sum of the edge normals of edges `ls` of polygon `p`. */
  function NormalSum(level: seq<Polygon>, num: Numerics, p: nat, ls: seq<nat>): Vec2
    requires forall m :: 0 <= m < |ls| ==> IsEdge(level, p, ls[m])
  {
    if ls == [] then Zero
    else Add(NormalSum(level, num, p, ls[..|ls| - 1]), EdgeNormal(level, num, p, ls[|ls| - 1]))
  }

  /** The normal of a node: the normalised sum of the normals of its edges. */
  function NodeNormal(level: seq<Polygon>, num: Numerics, n: GraphNode): Vec2
    requires forall m :: 0 <= m < |n.lineIndices| ==> IsEdge(level, n.polygonIndex, n.lineIndices[m])
  {
    num.normalizeOrZero(NormalSum(level, num, n.polygonIndex, n.lineIndices))
  }

  function WithNormals(ns: seq<GraphNode>, level: seq<Polygon>, num: Numerics): (r: seq<GraphNode>)
    requires LinesAreEdges(level, ns)
    ensures |r| == |ns|
  {
    seq(|ns|, k requires 0 <= k < |ns| => ns[k].(normal := NodeNormal(level, num, ns[k])))
  }

  /** The sum over a merged node's edges is the sum over its first edges
      plus the sum over the ones it absorbed: the order in which
      duplicates were merged does not matter to the sum. */
  lemma {:induction false} NormalSumAppend(level: seq<Polygon>, num: Numerics, p: nat, ls: seq<nat>, ms: seq<nat>)
    requires forall m :: 0 <= m < |ls| ==> IsEdge(level, p, ls[m])
    requires forall m :: 0 <= m < |ms| ==> IsEdge(level, p, ms[m])
    ensures forall m :: 0 <= m < |ls + ms| ==> IsEdge(level, p, (ls + ms)[m])
    ensures NormalSum(level, num, p, ls + ms) == Add(NormalSum(level, num, p, ls), NormalSum(level, num, p, ms))
    decreases |ms|
  {
    var lms := ls + ms;
    assert forall m :: 0 <= m < |lms| ==> IsEdge(level, p, lms[m]) by {
      forall m | 0 <= m < |lms|
        ensures IsEdge(level, p, lms[m])
      {
        if m < |ls| {
          assert lms[m] == ls[m];
        } else {
          assert lms[m] == ms[m - |ls|];
        }
      }
    }
    if ms == [] {
      assert lms == ls;
    } else {
      var init := ms[..|ms| - 1];
      NormalSumAppend(level, num, p, ls, init);
      assert lms[..|lms| - 1] == ls + init;
      assert lms[|lms| - 1] == ms[|ms| - 1];
    }
  }

  /** Only the normals change. */
  lemma WithNormalsFrame(ns: seq<GraphNode>, level: seq<Polygon>, num: Numerics)
    requires LinesAreEdges(level, ns)
    ensures var r := WithNormals(ns, level, num);
      forall k :: 0 <= k < |ns| ==> r[k] == ns[k].(normal := r[k].normal)
  {
  }

  /** calculate_normals. */
  method CalculateNormals(pf: Pathfinding, level: seq<Polygon>, num: Numerics)
    requires LinesAreEdges(level, pf.nodes)
    modifies pf`nodes
    ensures pf.nodes == WithNormals(old(pf.nodes), level, num)
  {
    ghost var ns := pf.nodes;
    for nodeIndex := 0 to |pf.nodes|
      invariant |pf.nodes| == |ns|
      invariant forall k :: 0 <= k < nodeIndex ==> pf.nodes[k] == WithNormals(ns, level, num)[k]
      invariant forall k :: nodeIndex <= k < |ns| ==> pf.nodes[k] == ns[k]
    {
      var node := pf.nodes[nodeIndex];
      assert forall m :: 0 <= m < |node.lineIndices| ==> IsEdge(level, node.polygonIndex, node.lineIndices[m]);
      var normal := Zero;
      for m := 0 to |node.lineIndices|
        invariant normal == NormalSum(level, num, node.polygonIndex, node.lineIndices[..m])
      {
        var lineIndex := node.lineIndices[m];
        var line := Sub(level[node.polygonIndex].points[lineIndex + 1], level[node.polygonIndex].points[lineIndex]);
        var lineNormal := num.normalizeOrZero(Vec2(-line.y, line.x));
        assert node.lineIndices[..m + 1][..m] == node.lineIndices[..m];
        normal := Add(normal, lineNormal);
      }
      assert node.lineIndices[..|node.lineIndices|] == node.lineIndices;
      pf.nodes := pf.nodes[nodeIndex := pf.nodes[nodeIndex].(normal := num.normalizeOrZero(normal))];
    }
  }

  // ---------------------------------------------------------------------
  // setup_corners.

  /** The sum of the vectors from node `k` to the targets of its first `n`
      walkable connections. */
  function LineDir(ns: seq<GraphNode>, k: nat, n: nat): Vec2
    requires k < |ns| && WalkableInRange(ns) && n <= |ns[k].walkable|
  {
    if n == 0 then Zero
    else Add(LineDir(ns, k, n - 1), Sub(ns[ns[k].walkable[n - 1].nodeId].position, ns[k].position))
  }

  function CornerNode(ns: seq<GraphNode>, k: nat): GraphNode
    requires k < |ns| && WalkableInRange(ns)
  {
    var n := ns[k];
    if |n.lineIndices| > 1 then
      n.(isCorner := true,
         isExternalCorner := Some(Dot(LineDir(ns, k, |n.walkable|), n.normal) < 0.0))
    else n.(isCorner := false)
  }

  function WithCorners(ns: seq<GraphNode>): (r: seq<GraphNode>)
    requires WalkableInRange(ns)
    ensures |r| == |ns|
  {
    seq(|ns|, k requires 0 <= k < |ns| => CornerNode(ns, k))
  }

  /** The sum of the projections on `v` of the vectors from node `k` to the
      targets of its first `n` walkable connections. */
  function ProjectionSum(ns: seq<GraphNode>, k: nat, n: nat, v: Vec2): real
    requires k < |ns| && WalkableInRange(ns) && n <= |ns[k].walkable|
  {
    if n == 0 then 0.0
    else ProjectionSum(ns, k, n - 1, v) + Dot(Sub(ns[ns[k].walkable[n - 1].nodeId].position, ns[k].position), v)
  }

  /** The dot product of the summed direction with a vector is the sum of
      the projections. */
  lemma {:induction false} LineDirProjection(ns: seq<GraphNode>, k: nat, n: nat, v: Vec2)
    requires k < |ns| && WalkableInRange(ns) && n <= |ns[k].walkable|
    ensures Dot(LineDir(ns, k, n), v) == ProjectionSum(ns, k, n, v)
  {
    if n > 0 {
      LineDirProjection(ns, k, n - 1, v);
      var a := LineDir(ns, k, n - 1);
      var b := Sub(ns[ns[k].walkable[n - 1].nodeId].position, ns[k].position);
      assert Dot(Add(a, b), v) == Dot(a, v) + Dot(b, v) by {
        assert (a.x + b.x) * v.x == a.x * v.x + b.x * v.x;
        assert (a.y + b.y) * v.y == a.y * v.y + b.y * v.y;
      }
    }
  }

  /** A node is a corner exactly when it lies on more than one edge. A
      corner is external exactly when the projections on its normal of the
      vectors to its walkable neighbours sum to a negative number; any other
      node keeps the external flag it had. Nothing else changes. */
  lemma CornersSpec(ns: seq<GraphNode>, k: nat)
    requires WalkableInRange(ns) && k < |ns|
    ensures var r := WithCorners(ns);
      && (r[k].isCorner <==> |ns[k].lineIndices| > 1)
      && (r[k].isCorner ==>
            r[k].isExternalCorner == Some(ProjectionSum(ns, k, |ns[k].walkable|, ns[k].normal) < 0.0))
      && (!r[k].isCorner ==> r[k].isExternalCorner == ns[k].isExternalCorner)
      && r[k] == ns[k].(isCorner := r[k].isCorner, isExternalCorner := r[k].isExternalCorner)
  {
    LineDirProjection(ns, k, |ns[k].walkable|, ns[k].normal);
  }

  /** Nodes that enter with no external flag leave with one exactly when
      they are corners. */
  lemma CornerFlagsConsistent(ns: seq<GraphNode>)
    requires WalkableInRange(ns)
    requires forall k :: 0 <= k < |ns| ==> ns[k].isExternalCorner == None
    ensures var r := WithCorners(ns);
      forall k :: 0 <= k < |r| ==>
        && (r[k].isCorner <==> |r[k].lineIndices| > 1)
        && (r[k].isExternalCorner.Some? <==> r[k].isCorner)
  {
  }

  /** setup_corners. */
  method SetupCorners(pf: Pathfinding)
    requires WalkableInRange(pf.nodes)
    modifies pf`nodes
    ensures pf.nodes == WithCorners(old(pf.nodes))
  {
    ghost var ns := pf.nodes;
    for nodeIndex := 0 to |pf.nodes|
      invariant |pf.nodes| == |ns|
      invariant forall k :: 0 <= k < nodeIndex ==> pf.nodes[k] == CornerNode(ns, k)
      invariant forall k :: nodeIndex <= k < |ns| ==> pf.nodes[k] == ns[k]
    {
      pf.nodes := pf.nodes[nodeIndex := pf.nodes[nodeIndex].(isCorner := |pf.nodes[nodeIndex].lineIndices| > 1)];
      if pf.nodes[nodeIndex].isCorner {
        var lineDir := SumLineDir(pf, nodeIndex, ns);
        pf.nodes := pf.nodes[nodeIndex := pf.nodes[nodeIndex].(
          isExternalCorner := Some(Dot(lineDir, pf.nodes[nodeIndex].normal) < 0.0))];
      }
    }
  }

  /** The loop over the walkable connections of a corner. Earlier nodes have
      been updated already, but only in their corner flags, so the positions
      read are those of `ns`. */
  method SumLineDir(pf: Pathfinding, nodeIndex: nat, ghost ns: seq<GraphNode>) returns (lineDir: Vec2)
    requires WalkableInRange(ns) && |pf.nodes| == |ns| && nodeIndex < |ns|
    requires forall k :: 0 <= k < |ns| ==> pf.nodes[k].position == ns[k].position
    requires pf.nodes[nodeIndex].walkable == ns[nodeIndex].walkable
    ensures lineDir == LineDir(ns, nodeIndex, |ns[nodeIndex].walkable|)
  {
    lineDir := Zero;
    var walkable := pf.nodes[nodeIndex].walkable;
    for c := 0 to |walkable|
      invariant lineDir == LineDir(ns, nodeIndex, c)
    {
      var line := Sub(pf.nodes[walkable[c].nodeId].position, pf.nodes[nodeIndex].position);
      lineDir := Add(lineDir, line);
    }
  }
}
