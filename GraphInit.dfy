/** init_pathfinding_graph: the seven construction stages run in order on
    the empty node array, and the graph they leave behind. */
module GraphInit {
  import opened Geometry
  import opened Graph
  import opened Placement
  import WalkableLinks
  import Dedup
  import Renumber
  import JumpLinks
  import Corners

  /** The level fact the pipeline relies on: a node sampled on an edge
      place_nodes processes in one polygon is never a duplicate of one
      sampled on such an edge of another. */
  ghost predicate FloorsApart(level: seq<Polygon>, num: Numerics)
    requires CountsPositive(level, num)
  {
    forall p: nat, l: nat, q: nat, m: nat, x: Vec2, y: Vec2 ::
      && Processed(level, num, p, l) && Processed(level, num, q, m) && p != q
      && OnEdgeSample(level, num, p, l, x) && OnEdgeSample(level, num, q, m, y)
      ==> DistSquared(x, y) >= DuplicateTolerance
  }

  /** No node carries an external-corner flag yet. */
  predicate NoCornerFlags(ns: seq<GraphNode>) {
    forall k :: 0 <= k < |ns| ==> ns[k].isExternalCorner == None
  }

  /** What every stage before setup_corners keeps: every node lies on at
      least one edge, its line indices name edges of its own polygon, nodes
      of different polygons are never duplicates, and no corner flag is
      set. */
  predicate Shape(level: seq<Polygon>, ns: seq<GraphNode>) {
    && OnSomeEdge(ns)
    && LinesAreEdges(level, ns)
    && Dedup.ApartAcrossPolygons(ns)
    && NoCornerFlags(ns)
  }

  /** `r` agrees with `ns` node by node on everything `Shape` and
      `Separated` look at. */
  predicate SameGeometry(r: seq<GraphNode>, ns: seq<GraphNode>) {
    && |r| == |ns|
    && forall k :: 0 <= k < |ns| ==>
         && r[k].position == ns[k].position
         && r[k].polygonIndex == ns[k].polygonIndex
         && r[k].lineIndices == ns[k].lineIndices
         && r[k].isExternalCorner == ns[k].isExternalCorner
  }

  lemma GeometryKeepsShape(level: seq<Polygon>, ns: seq<GraphNode>, r: seq<GraphNode>)
    requires SameGeometry(r, ns)
    ensures Shape(level, ns) ==> Shape(level, r)
    ensures Separated(ns) ==> Separated(r)
  {
  }

  /** `r` has as many nodes as `ns`, with the same walkable connections. */
  predicate SameWalks(r: seq<GraphNode>, ns: seq<GraphNode>) {
    && |r| == |ns|
    && forall k :: 0 <= k < |ns| ==> r[k].walkable == ns[k].walkable
  }

  lemma WalksKeepSymmetry(ns: seq<GraphNode>, r: seq<GraphNode>)
    requires SameWalks(r, ns)
    ensures WalkableSymmetric(ns) ==> WalkableSymmetric(r)
  {
  }

  /** The placed array has the shape, its ids are its indices, and its
      connections are walkable ones of effort 0 that lead to earlier nodes. */
  lemma PlacedShape(level: seq<Polygon>, num: Numerics, ns: seq<GraphNode>)
    requires CountsPositive(level, num) && FloorsApart(level, num)
    requires PlacedFrom(level, num, ns, 0)
    ensures Shape(level, ns) && IdsAreIndices(ns) && WalkableInRange(ns) && AllWalkableZero(ns)
  {
    forall k | 0 <= k < |ns|
      ensures && ns[k].id == k && |ns[k].lineIndices| == 1 && ns[k].isExternalCorner == None
              && IsEdge(level, ns[k].polygonIndex, ns[k].lineIndices[0])
    {
      assert PlacedNode(level, num, ns, k);
    }
    forall a, b | 0 <= a < |ns| && 0 <= b < |ns| && ns[a].polygonIndex != ns[b].polygonIndex
      ensures !Dedup.Close(ns[a].position, ns[b].position)
    {
      assert PlacedNode(level, num, ns, a) && PlacedNode(level, num, ns, b);
      var p, l := ns[a].polygonIndex, ns[a].lineIndices[0];
      var q, m := ns[b].polygonIndex, ns[b].lineIndices[0];
      assert OnEdgeSample(level, num, p, l, ns[a].position);
      assert OnEdgeSample(level, num, q, m, ns[b].position);
    }
    forall a, c | 0 <= a < |ns| && 0 <= c < |ns[a].walkable|
      ensures ns[a].walkable[c].nodeId < |ns|
      ensures ns[a].walkable[c].kind == Walkable && ns[a].walkable[c].effort == 0.0
    {
      assert PlacedNode(level, num, ns, a);
    }
  }

  /** Mirroring only appends walkable connections, so the shape and the
      ids survive, with ids equal to indices every target is an id, and
      walking becomes symmetric. */
  lemma AfterTwoWay(level: seq<Polygon>, ns: seq<GraphNode>)
    requires Shape(level, ns) && IdsAreIndices(ns) && WalkableInRange(ns) && AllWalkableZero(ns)
    ensures var r := WalkableLinks.TwoWay(ns);
      && Shape(level, r) && DistinctIds(r) && WalkableNamesIds(r) && WalkableSymmetricById(r)
  {
    var r := WalkableLinks.TwoWay(ns);
    WalkableLinks.TwoWayUpToExtends(ns, |ns|);
    GeometryKeepsShape(level, ns, r);
    WalkableLinks.TwoWaySymmetric(ns);
    assert IdsAreIndices(r);
    SymmetricById(r);
    forall a, c | 0 <= a < |r| && 0 <= c < |r[a].walkable|
      ensures HasId(r, r[a].walkable[c].nodeId)
    {
      var t := r[a].walkable[c].nodeId;
      assert r[t].id == t;
    }
  }

  /** Merging keeps the shape, leaves no duplicates, keeps ids distinct and
      every target an id, and keeps walking symmetric by id. */
  lemma AfterDedup(level: seq<Polygon>, ns: seq<GraphNode>)
    requires Shape(level, ns) && DistinctIds(ns) && WalkableNamesIds(ns) && WalkableSymmetricById(ns)
    ensures var r := Dedup.Dedup(ns);
      && Shape(level, r) && Separated(r) && DistinctIds(r) && WalkableNamesIds(r) && WalkableSymmetricById(r)
  {
    var r := Dedup.Dedup(ns);
    Dedup.DedupSymmetric(ns);
    Dedup.DedupLines(level, ns);
    Dedup.DedupSeparated(ns);
    Dedup.DedupIds(ns);
    Dedup.DedupKeepsOrder(ns);
    var f :| Dedup.KeptAt(r, ns, f);
    forall k | 0 <= k < |r|
      ensures r[k].isExternalCorner == None
    {
      assert Dedup.SameNode(r[k], ns[f[k]]);
    }
  }

  /** Renumbering changes ids and connection targets only; afterwards ids
      are indices, targets are in range and walking is symmetric by index. */
  lemma AfterRenumber(level: seq<Polygon>, ns: seq<GraphNode>)
    requires Shape(level, ns) && Separated(ns) && DistinctIds(ns) && WalkableNamesIds(ns) && WalkableSymmetricById(ns)
    ensures var r := Renumber.Renumber(ns);
      && Shape(level, r) && Separated(r) && IdsAreIndices(r) && WalkableInRange(r) && WalkableSymmetric(r)
  {
    var r := Renumber.Renumber(ns);
    Renumber.RenumberIndexes(ns);
    Renumber.RenumberSymmetric(ns);
    forall k | 0 <= k < |ns|
      ensures r[k] == ns[k].(id := k, walkable := r[k].walkable)
    {
      assert r[k] == Renumber.RenumberNode(ns, k);
    }
    GeometryKeepsShape(level, ns, r);
  }

  /** Jumpable lists are the only change, and their targets are in range. */
  lemma AfterJumps(level: seq<Polygon>, num: Numerics, ns: seq<GraphNode>)
    requires Shape(level, ns) && Separated(ns) && IdsAreIndices(ns) && WalkableSymmetric(ns)
    ensures var r := JumpLinks.WithJumps(ns, level, num, AgentRadius);
      && Shape(level, r) && Separated(r) && IdsAreIndices(r) && WalkableSymmetric(r) && JumpableInRange(r)
  {
    var r := JumpLinks.WithJumps(ns, level, num, AgentRadius);
    JumpLinks.WithJumpsFrame(ns, level, num, AgentRadius);
    GeometryKeepsShape(level, ns, r);
    WalksKeepSymmetry(ns, r);
  }

  /** Normals are the only change. */
  lemma AfterNormals(level: seq<Polygon>, num: Numerics, ns: seq<GraphNode>)
    requires Shape(level, ns) && Separated(ns) && IdsAreIndices(ns) && WalkableSymmetric(ns) && JumpableInRange(ns)
    ensures var r := Corners.WithNormals(ns, level, num);
      && Shape(level, r) && Separated(r) && IdsAreIndices(r) && WalkableSymmetric(r) && JumpableInRange(r)
  {
    var r := Corners.WithNormals(ns, level, num);
    Corners.WithNormalsFrame(ns, level, num);
    GeometryKeepsShape(level, ns, r);
    WalksKeepSymmetry(ns, r);
  }

  /** Corner flags become consistent with line membership; nothing else the
      graph promises changes. */
  lemma AfterCorners(level: seq<Polygon>, ns: seq<GraphNode>)
    requires Shape(level, ns) && Separated(ns) && IdsAreIndices(ns) && WalkableSymmetric(ns) && JumpableInRange(ns)
    ensures var r := Corners.WithCorners(ns);
      && IdsAreIndices(r) && WalkableSymmetric(r) && JumpableInRange(r) && Separated(r)
      && OnSomeEdge(r) && LinesAreEdges(level, r)
      && forall k :: 0 <= k < |r| ==>
           && (r[k].isCorner <==> |r[k].lineIndices| > 1)
           && (r[k].isExternalCorner.Some? <==> r[k].isCorner)
  {
    var r := Corners.WithCorners(ns);
    forall k | 0 <= k < |ns|
      ensures r[k] == ns[k].(isCorner := r[k].isCorner, isExternalCorner := r[k].isExternalCorner)
    {
      Corners.CornersSpec(ns, k);
    }
    Corners.CornerFlagsConsistent(ns);
    WalksKeepSymmetry(ns, r);
  }

  /** The graph the seven stages build from a level: placement on the empty
      array, two-way walking, duplicate removal, renumbering, jumps,
      normals and corners, each applied to what the one before left. It
      has ids equal to indices, every connection target in range, walking
      symmetric, no two nodes within the duplicate tolerance, every line
      index naming an edge of the node's polygon, and corner flags set
      exactly on the nodes that lie on more than one edge. */
  function Built(level: seq<Polygon>, num: Numerics): (r: seq<GraphNode>)
    requires CountsPositive(level, num) && FloorsApart(level, num)
    ensures IdsAreIndices(r)
    ensures WalkableInRange(r) && JumpableInRange(r)
    ensures WalkableSymmetric(r)
    ensures Separated(r)
    ensures OnSomeEdge(r) && LinesAreEdges(level, r)
    ensures forall k :: 0 <= k < |r| ==>
      && (r[k].isCorner <==> |r[k].lineIndices| > 1)
      && (r[k].isExternalCorner.Some? <==> r[k].isCorner)
  {
    var placed := PlacedAll(level, num, 0);
    var empty: seq<GraphNode> := [];
    assert placed == empty + Placed(level, num, |level|, |empty|);
    PlacedPlaced(level, num, |level|, empty, placed);
    PlacedShape(level, num, placed);
    AfterTwoWay(level, placed);
    var mirrored := WalkableLinks.TwoWay(placed);
    AfterDedup(level, mirrored);
    var merged := Dedup.Dedup(mirrored);
    AfterRenumber(level, merged);
    var renumbered := Renumber.Renumber(merged);
    AfterJumps(level, num, renumbered);
    var jumps := JumpLinks.WithJumps(renumbered, level, num, AgentRadius);
    AfterNormals(level, num, jumps);
    var normals := Corners.WithNormals(jumps, level, num);
    AfterCorners(level, normals);
    Corners.WithCorners(normals)
  }

  /** init_pathfinding_graph on the resource as the plugin inserts it: when
      nodes of different polygons are never duplicates, it leaves exactly
      the graph Built describes, whose properties are restated here. */
  method InitPathfindingGraph(pf: Pathfinding, level: seq<Polygon>, num: Numerics)
    requires pf.nodes == []
    requires CountsPositive(level, num) && FloorsApart(level, num)
    modifies pf`nodes
    ensures pf.nodes == Built(level, num)
    ensures IdsAreIndices(pf.nodes)
    ensures WalkableInRange(pf.nodes) && JumpableInRange(pf.nodes)
    ensures WalkableSymmetric(pf.nodes)
    ensures Separated(pf.nodes)
    ensures OnSomeEdge(pf.nodes) && LinesAreEdges(level, pf.nodes)
    ensures forall k :: 0 <= k < |pf.nodes| ==>
      && (pf.nodes[k].isCorner <==> |pf.nodes[k].lineIndices| > 1)
      && (pf.nodes[k].isExternalCorner.Some? <==> pf.nodes[k].isCorner)
  {
    PlaceNodes(pf, level, num);
    assert pf.nodes == PlacedAll(level, num, 0);
    PlacedPlaced(level, num, |level|, [], pf.nodes);
    PlacedShape(level, num, pf.nodes);
    AfterTwoWay(level, pf.nodes);
    WalkableLinks.MakeWalkableConnectionsTwoWay(pf);
    AfterDedup(level, pf.nodes);
    Dedup.RemoveDuplicateNodes(pf);
    AfterRenumber(level, pf.nodes);
    Renumber.MakeNodeIdsIndices(pf);
    AfterJumps(level, num, pf.nodes);
    JumpLinks.MakeJumpableConnections(pf, level, AgentRadius, num);
    AfterNormals(level, num, pf.nodes);
    Corners.CalculateNormals(pf, level, num);
    AfterCorners(level, pf.nodes);
    Corners.SetupCorners(pf);
  }
}
