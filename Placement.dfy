/** First stage of graph construction: nodes along the walkable edges of the
    level polygons (place_nodes). */
module Placement {
  import opened Geometry
  import opened Graph
  import opened Runs

  /** The `outer_container_seen` flag after the first `n` polygons: every
      container polygon toggles it. */
  function SeenAfter(level: seq<Polygon>, n: nat): bool
    requires n <= |level|
  {
    if n == 0 then false
    else if level[n - 1].isContainer then !SeenAfter(level, n - 1)
    else SeenAfter(level, n - 1)
  }

  /** Polygon `p` is skipped: it is a container and the flag is set once it
      has been toggled for `p`. */
  predicate Skipped(level: seq<Polygon>, p: nat)
    requires p < |level|
  {
    level[p].isContainer && SeenAfter(level, p + 1)
  }

  /** Number of container polygons in `ps`. */
  function ContainerCount(ps: seq<Polygon>): nat {
    if ps == [] then 0
    else ContainerCount(ps[..|ps| - 1]) + (if ps[|ps| - 1].isContainer then 1 else 0)
  }

  /** The flag is set exactly when an odd number of containers has been seen. */
  lemma {:induction false} SeenIsOddContainerCount(level: seq<Polygon>, n: nat)
    requires n <= |level|
    ensures SeenAfter(level, n) <==> ContainerCount(level[..n]) % 2 == 1
  {
    if n > 0 {
      SeenIsOddContainerCount(level, n - 1);
      assert level[..n][..n - 1] == level[..n - 1];
    }
  }

  /** The 1st, 3rd, 5th, ... container polygons are skipped, and no other
      polygon is. */
  lemma SkippedIffOddContainer(level: seq<Polygon>, p: nat)
    requires p < |level|
    ensures Skipped(level, p) <==> level[p].isContainer && ContainerCount(level[..p + 1]) % 2 == 1
    ensures !level[p].isContainer ==> !Skipped(level, p)
  {
    SeenIsOddContainerCount(level, p + 1);
  }

  function EdgeVector(level: seq<Polygon>, p: nat, l: nat): Vec2
    requires IsEdge(level, p, l)
  {
    Sub(level[p].points[l + 1], level[p].points[l])
  }

  /** `nodes_on_line_count`: the edge length divided by the spacing, rounded up. */
  function EdgeNodeCount(level: seq<Polygon>, num: Numerics, p: nat, l: nat): int
    requires IsEdge(level, p, l)
  {
    var length := num.length(EdgeVector(level, p, l));
    num.ceil((if length < 0.0 then -length else length) / NodeSpacing)
  }

  /** Edge `l` of polygon `p` is one place_nodes puts nodes on: its polygon
      is not skipped and the edge is a floor. */
  predicate Processed(level: seq<Polygon>, num: Numerics, p: nat, l: nat) {
    IsEdge(level, p, l) && !Skipped(level, p) && EdgeIsFloor(level, num, p, l)
  }

  /** Every edge place_nodes puts nodes on gets at least one sample. (A
      zero-length edge fails the floor test in the game, since normalising
      it gives NaN.) */
  predicate CountsPositive(level: seq<Polygon>, num: Numerics) {
    forall p: nat, l: nat :: p < |level| && l + 1 < |level[p].points| && Processed(level, num, p, l) ==>
      EdgeNodeCount(level, num, p, l) >= 1
  }

  /** `dist_between_nodes_on_line`. */
  function EdgeSpacing(level: seq<Polygon>, num: Numerics, p: nat, l: nat): real
    requires IsEdge(level, p, l) && EdgeNodeCount(level, num, p, l) >= 1
  {
    num.length(EdgeVector(level, p, l)) / (EdgeNodeCount(level, num, p, l) as real)
  }

  function EdgeDirection(level: seq<Polygon>, num: Numerics, p: nat, l: nat): Vec2
    requires IsEdge(level, p, l)
  {
    num.normalize(EdgeVector(level, p, l))
  }

  /** The edge is a floor or a slope: its unit direction is not near-vertical
      or leftward. */
  predicate EdgeIsFloor(level: seq<Polygon>, num: Numerics, p: nat, l: nat)
    requires IsEdge(level, p, l)
  {
    Dot(EdgeDirection(level, num, p, l), Vec2(1.0, 0.0)) > WalkableSlope
  }

  /** The `j`-th evenly spaced point of the edge, counted from its start. */
  function SamplePoint(level: seq<Polygon>, num: Numerics, p: nat, l: nat, j: int): Vec2
    requires IsEdge(level, p, l) && EdgeNodeCount(level, num, p, l) >= 1
  {
    Add(level[p].points[l], Scale(EdgeDirection(level, num, p, l), (j as real) * EdgeSpacing(level, num, p, l)))
  }

  /** `pos` is one of the points placement puts on the edge: a sample or its end. */
  predicate OnEdgeSample(level: seq<Polygon>, num: Numerics, p: nat, l: nat, pos: Vec2)
    requires IsEdge(level, p, l) && EdgeNodeCount(level, num, p, l) >= 1
  {
    || pos == level[p].points[l + 1]
    || exists j :: 0 <= j < EdgeNodeCount(level, num, p, l) && pos == SamplePoint(level, num, p, l, j)
  }

  /** What placement promises of the node at index `k`: its id is its index,
      it comes from a processed edge, it lies on that edge, carries no
      jump, drop, normal or corner data yet, and at most one walkable
      connection, which leads to the node placed just before it on the same
      edge at the edge's spacing. */
  predicate PlacedNode(level: seq<Polygon>, num: Numerics, ns: seq<GraphNode>, k: nat)
    requires CountsPositive(level, num)
    requires k < |ns|
  {
    var n := ns[k];
    && n.id == k
    && |n.lineIndices| == 1
    && Processed(level, num, n.polygonIndex, n.lineIndices[0])
    && OnEdgeSample(level, num, n.polygonIndex, n.lineIndices[0], n.position)
    && n.jumpable == [] && n.droppable == []
    && n.normal == Zero && !n.isCorner && n.isExternalCorner == None
    && (|| n.walkable == []
        || (&& k > 0
            && n.walkable == [Connection(k - 1, EdgeSpacing(level, num, n.polygonIndex, n.lineIndices[0]), Walkable, 0.0)]
            && ns[k - 1].polygonIndex == n.polygonIndex
            && ns[k - 1].lineIndices == n.lineIndices))
  }

  /** Every node of `ns` from index `base` on is a placed node. */
  predicate PlacedFrom(level: seq<Polygon>, num: Numerics, ns: seq<GraphNode>, base: nat)
    requires CountsPositive(level, num)
  {
    forall k :: base <= k < |ns| ==> PlacedNode(level, num, ns, k)
  }

  // ---------------------------------------------------------------------
  // Exactly what placement appends.

  /** The number of edges of a polygon. */
  function EdgeCount(polygon: Polygon): nat {
    if |polygon.points| == 0 then 0 else |polygon.points| - 1
  }

  /** Node `j` of the run placement appends along a processed edge when the
      array already holds `base` nodes: the `j`-th sample for j < count and
      the edge's end for j == count, with id base + j. Every node but the
      first connects back to the node before it at the edge's spacing. */
  function RunNode(level: seq<Polygon>, num: Numerics, p: nat, l: nat, base: nat, j: nat): GraphNode
    requires CountsPositive(level, num) && Processed(level, num, p, l) && j <= EdgeNodeCount(level, num, p, l)
  {
    var count := EdgeNodeCount(level, num, p, l);
    GraphNode(base + j,
              if j < count then SamplePoint(level, num, p, l, j) else level[p].points[l + 1],
              p, [l],
              if j == 0 then [] else [Connection(base + j - 1, EdgeSpacing(level, num, p, l), Walkable, 0.0)],
              [], [], Zero, false, None)
  }

  /** What place_nodes appends for edge `l` of a polygon that is not
      skipped, when the array holds `base` nodes: the run of count samples
      and the end point for a floor edge, nothing for any other edge. */
  function EdgeRun(level: seq<Polygon>, num: Numerics, p: nat, l: nat, base: nat): seq<GraphNode>
    requires CountsPositive(level, num) && IsEdge(level, p, l) && !Skipped(level, p)
  {
    if EdgeIsFloor(level, num, p, l) then
      var count := EdgeNodeCount(level, num, p, l);
      seq(count + 1, j requires 0 <= j <= count => RunNode(level, num, p, l, base, j))
    else []
  }

  /** What place_nodes appends for the first `n` edges of polygon `p`. */
  function PolygonRuns(level: seq<Polygon>, num: Numerics, p: nat, n: nat, base: nat): seq<GraphNode>
    requires CountsPositive(level, num) && p < |level| && !Skipped(level, p) && n <= EdgeCount(level[p])
  {
    if n == 0 then []
    else
      var prev := PolygonRuns(level, num, p, n - 1, base);
      prev + EdgeRun(level, num, p, n - 1, base + |prev|)
  }

  /** What place_nodes appends for polygon `p` from `base` on: nothing for
      a skipped polygon, the runs of all its edges otherwise. */
  function PolygonPart(level: seq<Polygon>, num: Numerics, p: nat, base: nat): seq<GraphNode>
    requires CountsPositive(level, num) && p < |level|
  {
    if Skipped(level, p) then [] else PolygonRuns(level, num, p, EdgeCount(level[p]), base)
  }

  /** What place_nodes appends for the first `n` polygons, starting from
      an array of `base` nodes. */
  function Placed(level: seq<Polygon>, num: Numerics, n: nat, base: nat): seq<GraphNode>
    requires CountsPositive(level, num) && n <= |level|
  {
    if n == 0 then []
    else
      var prev := Placed(level, num, n - 1, base);
      prev + PolygonPart(level, num, n - 1, base + |prev|)
  }

  /** What place_nodes appends for the whole level, starting from an array
      of `base` nodes. */
  function PlacedAll(level: seq<Polygon>, num: Numerics, base: nat): seq<GraphNode>
    requires CountsPositive(level, num)
  {
    Placed(level, num, |level|, base)
  }

  /** A floor edge gives count + 1 nodes and any other edge none. Their ids
      count up from `base`; they lie on the edge, at the samples in order
      and then at its end; the first has no walkable connection and each
      other one has exactly one, to the node before it, at the spacing. */
  lemma EdgeRunShape(level: seq<Polygon>, num: Numerics, p: nat, l: nat, base: nat)
    requires CountsPositive(level, num) && IsEdge(level, p, l) && !Skipped(level, p)
    ensures var r := EdgeRun(level, num, p, l, base);
      && |r| == (if EdgeIsFloor(level, num, p, l) then EdgeNodeCount(level, num, p, l) + 1 else 0)
      && forall j :: 0 <= j < |r| ==>
           && r[j].id == base + j && r[j].polygonIndex == p && r[j].lineIndices == [l]
           && r[j].position == (if j < |r| - 1 then SamplePoint(level, num, p, l, j) else level[p].points[l + 1])
           && (r[j].walkable == [] <==> j == 0)
           && (j > 0 ==> r[j].walkable == [Connection(base + j - 1, EdgeSpacing(level, num, p, l), Walkable, 0.0)])
  {
  }

  /** One step of Placed: the part of polygon n-1, from `partBase` on,
      follows the parts before it. */
  lemma PlacedStep(level: seq<Polygon>, num: Numerics, n: nat, base: nat, partBase: nat)
    requires CountsPositive(level, num) && 0 < n <= |level|
    requires partBase == base + |Placed(level, num, n - 1, base)|
    ensures Placed(level, num, n, base) == Placed(level, num, n - 1, base) + PolygonPart(level, num, n - 1, partBase)
  {
  }

  /** The part of a polygon that is not skipped is the runs of all its edges. */
  lemma PolygonPartRuns(level: seq<Polygon>, num: Numerics, p: nat, base: nat)
    requires CountsPositive(level, num) && p < |level| && !Skipped(level, p)
    ensures PolygonPart(level, num, p, base) == PolygonRuns(level, num, p, EdgeCount(level[p]), base)
  {
  }

  /** One step of PolygonRuns: the run of edge n-1, from `runBase` on,
      follows those before it. */
  lemma PolygonRunsStep(level: seq<Polygon>, num: Numerics, p: nat, n: nat, base: nat, runBase: nat)
    requires CountsPositive(level, num) && p < |level| && !Skipped(level, p) && 0 < n <= EdgeCount(level[p])
    requires runBase == base + |PolygonRuns(level, num, p, n - 1, base)|
    ensures PolygonRuns(level, num, p, n, base)
              == PolygonRuns(level, num, p, n - 1, base) + EdgeRun(level, num, p, n - 1, runBase)
  {
  }

  /** The run of an edge is shaped as one run, whatever the edge. */
  lemma EdgeRunLinks(level: seq<Polygon>, num: Numerics, p: nat, l: nat, base: nat)
    requires CountsPositive(level, num) && IsEdge(level, p, l) && !Skipped(level, p)
    ensures RunShaped(EdgeRun(level, num, p, l, base), base, p, l)
  {
    EdgeRunShape(level, num, p, l, base);
  }

  /** Within a polygon's runs, ids count up from `base`, every node lies on
      one of the first `n` edges of polygon `p`, and a node has no walkable
      connection exactly when it starts a run. */
  lemma {:induction false} PolygonRunsShape(level: seq<Polygon>, num: Numerics, p: nat, n: nat, base: nat)
    requires CountsPositive(level, num) && p < |level| && !Skipped(level, p) && n <= EdgeCount(level[p])
    ensures EdgeRunsShaped(PolygonRuns(level, num, p, n, base), base, p, n)
  {
    if n > 0 {
      var prev := PolygonRuns(level, num, p, n - 1, base);
      PolygonRunsShape(level, num, p, n - 1, base);
      PolygonRunsStep(level, num, p, n, base, base + |prev|);
      EdgeRunShaped(level, num, p, n - 1, prev, PolygonRuns(level, num, p, n, base), base);
    }
  }

  /** Appending the run of edge `l` to nodes shaped as the runs of the
      edges before it gives nodes `r` shaped as the runs of the first l + 1
      edges. */
  lemma EdgeRunShaped(level: seq<Polygon>, num: Numerics, p: nat, l: nat, prev: seq<GraphNode>, r: seq<GraphNode>, base: nat)
    requires CountsPositive(level, num) && IsEdge(level, p, l) && !Skipped(level, p)
    requires r == prev + EdgeRun(level, num, p, l, base + |prev|)
    ensures EdgeRunsShaped(prev, base, p, l) ==> EdgeRunsShaped(r, base, p, l + 1)
  {
    if EdgeRunsShaped(prev, base, p, l) {
      EdgeRunLinks(level, num, p, l, base + |prev|);
      RunsAppend(prev, EdgeRun(level, num, p, l, base + |prev|), r, base, p, l + 1);
    }
  }

  /** Across all the runs placement appends for the first `n` polygons,
      ids count up from `base`, every node lies on one of those polygons,
      and a node has no walkable connection exactly when it starts a run. */
  lemma {:induction false} PlacedRunsShape(level: seq<Polygon>, num: Numerics, n: nat, base: nat)
    requires CountsPositive(level, num) && n <= |level|
    ensures PolygonRunsShaped(Placed(level, num, n, base), base, n)
  {
    if n > 0 {
      var prev := Placed(level, num, n - 1, base);
      PlacedRunsShape(level, num, n - 1, base);
      PlacedShapeStep(level, num, n, base);
    }
  }

  /** If the parts of the polygons before n-1 are shaped, so are the parts
      of the first `n` polygons. */
  lemma PlacedShapeStep(level: seq<Polygon>, num: Numerics, n: nat, base: nat)
    requires CountsPositive(level, num) && 0 < n <= |level|
    requires PolygonRunsShaped(Placed(level, num, n - 1, base), base, n - 1)
    ensures PolygonRunsShaped(Placed(level, num, n, base), base, n)
  {
    var prev := Placed(level, num, n - 1, base);
    var part := PolygonPart(level, num, n - 1, base + |prev|);
    PolygonPartShape(level, num, n - 1, base + |prev|);
    PolygonsAppend(prev, part, Placed(level, num, n, base), base, n, EdgeCount(level[n - 1]));
  }

  /** The part of one polygon has the shape of its runs; a skipped
      polygon's part is empty. */
  lemma PolygonPartShape(level: seq<Polygon>, num: Numerics, p: nat, base: nat)
    requires CountsPositive(level, num) && p < |level|
    ensures EdgeRunsShaped(PolygonPart(level, num, p, base), base, p, EdgeCount(level[p]))
  {
    if !Skipped(level, p) {
      PolygonRunsShape(level, num, p, EdgeCount(level[p]), base);
    }
  }

  /** place_nodes: appends exactly the runs of every processed edge, in
      polygon and edge order, keeping what was there before (PlacedPlaced
      and PlacedRunsShape say what those nodes are). */
  method PlaceNodes(pf: Pathfinding, level: seq<Polygon>, num: Numerics)
    requires CountsPositive(level, num)
    modifies pf`nodes
    ensures pf.nodes == old(pf.nodes) + PlacedAll(level, num, |old(pf.nodes)|)
  {
    ghost var start := pf.nodes;
    var seen := false;
    assert Placed(level, num, 0, |start|) == [];
    assert pf.nodes == start + [];
    for p := 0 to |level|
      invariant seen == SeenAfter(level, p)
      invariant pf.nodes == start + Placed(level, num, p, |start|)
    {
      if level[p].isContainer {
        seen := !seen;
      }
      ghost var before := pf.nodes;
      PlacePart(pf, level, num, p, seen);
      PartAppended(level, num, p, start, before, pf.nodes);
    }
  }

  /** One pass of the polygon loop of place_nodes: a container polygon met
      while the flag is set is skipped, every other polygon has its edges
      placed. */
  method PlacePart(pf: Pathfinding, level: seq<Polygon>, num: Numerics, p: nat, seen: bool)
    requires CountsPositive(level, num) && p < |level|
    requires seen == SeenAfter(level, p + 1)
    modifies pf`nodes
    ensures pf.nodes == old(pf.nodes) + PolygonPart(level, num, p, |old(pf.nodes)|)
  {
    if seen && level[p].isContainer {
      assert old(pf.nodes) + PolygonPart(level, num, p, |old(pf.nodes)|) == old(pf.nodes);
      return;
    }
    PlacePolygon(pf, level, num, p);
  }

  /** Appending the part of polygon `p` to the nodes placed for the polygons
      before it gives the nodes placed for the first p + 1 polygons. */
  lemma PartAppended(level: seq<Polygon>, num: Numerics, p: nat, ns: seq<GraphNode>, before: seq<GraphNode>, r: seq<GraphNode>)
    requires CountsPositive(level, num) && p < |level|
    requires before == ns + Placed(level, num, p, |ns|)
    requires r == before + PolygonPart(level, num, p, |before|)
    ensures r == ns + Placed(level, num, p + 1, |ns|)
  {
    PlacedStep(level, num, p + 1, |ns|, |before|);
    AppendStep(before, ns, Placed(level, num, p, |ns|), PolygonPart(level, num, p, |before|), Placed(level, num, p + 1, |ns|));
  }

  /** Appending the run of edge l-1 to the runs of the edges before it
      gives the runs of the first l edges. */
  lemma RunAppended(level: seq<Polygon>, num: Numerics, p: nat, l: nat, start: seq<GraphNode>, mid: seq<GraphNode>, r: seq<GraphNode>)
    requires CountsPositive(level, num) && p < |level| && !Skipped(level, p) && 0 < l <= EdgeCount(level[p])
    requires mid == start + PolygonRuns(level, num, p, l - 1, |start|)
    requires r == mid + EdgeRun(level, num, p, l - 1, |mid|)
    ensures r == start + PolygonRuns(level, num, p, l, |start|)
  {
    PolygonRunsStep(level, num, p, l, |start|, |mid|);
    AppendStep(mid, start, PolygonRuns(level, num, p, l - 1, |start|),
               EdgeRun(level, num, p, l - 1, |mid|), PolygonRuns(level, num, p, l, |start|));
  }

  /** The edge loop of place_nodes for polygon `p`, which is not skipped: it
      appends the runs of the polygon's edges in order. */
  method PlacePolygon(pf: Pathfinding, level: seq<Polygon>, num: Numerics, p: nat)
    requires CountsPositive(level, num) && p < |level| && !Skipped(level, p)
    modifies pf`nodes
    ensures pf.nodes == old(pf.nodes) + PolygonPart(level, num, p, |old(pf.nodes)|)
  {
    var polygon := level[p];
    ghost var start := pf.nodes;
    var l := 1;
    while l < |polygon.points|
      invariant 1 <= l && l - 1 <= EdgeCount(level[p])
      invariant pf.nodes == start + PolygonRuns(level, num, p, l - 1, |start|)
    {
      ghost var mid := pf.nodes;
      PlaceEdge(pf, level, num, p, l - 1);
      RunAppended(level, num, p, l, start, mid, pf.nodes);
      l := l + 1;
    }
    assert l - 1 == EdgeCount(level[p]);
    PolygonPartRuns(level, num, p, |start|);
  }

  /** The body of place_nodes for edge `l` of polygon `p`: it appends that
      edge's run. */
  method PlaceEdge(pf: Pathfinding, level: seq<Polygon>, num: Numerics, p: nat, l: nat)
    requires CountsPositive(level, num) && IsEdge(level, p, l) && !Skipped(level, p)
    modifies pf`nodes
    ensures pf.nodes == old(pf.nodes) + EdgeRun(level, num, p, l, |old(pf.nodes)|)
  {
    var start := level[p].points[l];
    var end := level[p].points[l + 1];
    var startToEnd := Sub(end, start);
    var length := num.length(startToEnd);
    var count := num.ceil((if length < 0.0 then -length else length) / NodeSpacing);
    startToEnd := num.normalize(startToEnd);
    if Dot(startToEnd, Vec2(1.0, 0.0)) > WalkableSlope {
      assert Processed(level, num, p, l);
      assert count == EdgeNodeCount(level, num, p, l) >= 1;
      // The spacing is only used on floor edges, whose count is positive.
      var spacing := length / (count as real);
      ghost var before := pf.nodes;
      ghost var run := EdgeRun(level, num, p, l, |before|);
      for j := 0 to count
        invariant pf.nodes == before + run[..j]
      {
        var position := Add(start, Scale(startToEnd, (j as real) * spacing));
        var walkable := if j > 0 then [Connection(|pf.nodes| - 1, spacing, Walkable, 0.0)] else [];
        var node := GraphNode(|pf.nodes|, position, p, [l], walkable, [], [], Zero, false, None);
        assert node == RunNode(level, num, p, l, |before|, j) == run[j];
        PrefixStep(pf.nodes, before, run, j, node);
        pf.nodes := pf.nodes + [node];
      }
      var node := GraphNode(|pf.nodes|, end, p, [l], [Connection(|pf.nodes| - 1, spacing, Walkable, 0.0)],
                            [], [], Zero, false, None);
      assert node == RunNode(level, num, p, l, |before|, count) == run[count];
      PrefixStep(pf.nodes, before, run, count, node);
      pf.nodes := pf.nodes + [node];
      assert run[..count + 1] == run;
    }
  }

  /** Appending the run of a processed edge to nodes that are placed nodes
      from `base` on gives nodes `r` that are placed nodes from `base` on. */
  lemma EdgeRunPlaced(level: seq<Polygon>, num: Numerics, ns: seq<GraphNode>, r: seq<GraphNode>, p: nat, l: nat, base: nat)
    requires CountsPositive(level, num) && IsEdge(level, p, l) && !Skipped(level, p) && base <= |ns|
    requires r == ns + EdgeRun(level, num, p, l, |ns|) && PlacedFrom(level, num, ns, base)
    ensures PlacedFrom(level, num, r, base)
  {
    var run := EdgeRun(level, num, p, l, |ns|);
    EdgeRunShape(level, num, p, l, |ns|);
    forall k | base <= k < |r|
      ensures PlacedNode(level, num, r, k)
    {
      if k < |ns| {
        assert PlacedNode(level, num, ns, k);
        assert r[k] == ns[k];
        if k > 0 {
          assert r[k - 1] == ns[k - 1];
        }
      } else {
        var j := k - |ns|;
        assert r[k] == run[j];
        if j < |run| - 1 {
          assert OnEdgeSample(level, num, p, l, run[j].position);
        }
        if j > 0 {
          assert r[k - 1] == run[j - 1];
        }
      }
    }
  }

  /** Appending the runs of the first `n` edges of polygon `p` to `ns`
      keeps every node from `base` on a placed node. */
  lemma {:induction false} RunsPlaced(level: seq<Polygon>, num: Numerics, p: nat, n: nat, ns: seq<GraphNode>, r: seq<GraphNode>, base: nat)
    requires CountsPositive(level, num) && p < |level| && !Skipped(level, p) && n <= EdgeCount(level[p])
    requires base <= |ns| && PlacedFrom(level, num, ns, base)
    requires r == ns + PolygonRuns(level, num, p, n, |ns|)
    ensures PlacedFrom(level, num, r, base)
  {
    if n == 0 {
      assert r == ns;
    } else {
      var mid := ns + PolygonRuns(level, num, p, n - 1, |ns|);
      RunsPlaced(level, num, p, n - 1, ns, mid, base);
      RunAppended(level, num, p, n, ns, mid, mid + EdgeRun(level, num, p, n - 1, |mid|));
      EdgeRunPlaced(level, num, mid, r, p, n - 1, base);
    }
  }

  /** Appending the part of polygon `p` to `ns` keeps every node from `base`
      on a placed node. */
  lemma PartPlaced(level: seq<Polygon>, num: Numerics, p: nat, ns: seq<GraphNode>, r: seq<GraphNode>, base: nat)
    requires CountsPositive(level, num) && p < |level|
    requires base <= |ns| && PlacedFrom(level, num, ns, base)
    requires r == ns + PolygonPart(level, num, p, |ns|)
    ensures PlacedFrom(level, num, r, base)
  {
    if Skipped(level, p) {
      assert r == ns;
    } else {
      PolygonPartRuns(level, num, p, |ns|);
      RunsPlaced(level, num, p, EdgeCount(level[p]), ns, r, base);
    }
  }

  /** Every node placement appends after `ns` is a placed node. */
  lemma {:induction false} PlacedPlaced(level: seq<Polygon>, num: Numerics, n: nat, ns: seq<GraphNode>, r: seq<GraphNode>)
    requires CountsPositive(level, num) && n <= |level|
    requires r == ns + Placed(level, num, n, |ns|)
    ensures PlacedFrom(level, num, r, |ns|)
  {
    if n == 0 {
      assert r == ns;
    } else {
      var mid := ns + Placed(level, num, n - 1, |ns|);
      PlacedPlaced(level, num, n - 1, ns, mid);
      PartAppended(level, num, n - 1, ns, mid, mid + PolygonPart(level, num, n - 1, |mid|));
      PartPlaced(level, num, n - 1, mid, r, |ns|);
    }
  }
}
