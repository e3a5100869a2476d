/** Fifth stage of graph construction: jumpable connections between nodes
    of different polygons (make_jumpable_connections, jumpability_check).
    The flight time, launch velocity and sampled sweep are floating-point
    numerics and stay uninterpreted (`Numerics.launchSpeed`,
    `Numerics.sweepHits`); the discriminant test and the structure of the
    edge scans are modelled exactly. */
module JumpLinks {
  import opened Geometry
  import opened Graph

  /** Node `n` lies on edge `l` of polygon `p`. */
  predicate OnLine(n: GraphNode, p: nat, l: nat) {
    n.polygonIndex == p && l in n.lineIndices
  }

  /** Edge `l` of polygon `p` is examined when scanning between `a` and `b`:
      it exists and neither node lies on it. */
  predicate Tested(level: seq<Polygon>, a: GraphNode, b: GraphNode, p: nat, l: nat) {
    IsEdge(level, p, l) && !OnLine(a, p, l) && !OnLine(b, p, l)
  }

  /** A tested edge on which `hit` holds. */
  predicate HitsAt(level: seq<Polygon>, a: GraphNode, b: GraphNode, hit: (Vec2, Vec2) -> bool, p: nat, l: nat) {
    Tested(level, a, b, p, l) && hit(level[p].points[l], level[p].points[l + 1])
  }

  predicate AnyHit(level: seq<Polygon>, a: GraphNode, b: GraphNode, hit: (Vec2, Vec2) -> bool) {
    exists p: nat, l: nat :: p < |level| && l + 1 < |level[p].points| && HitsAt(level, a, b, hit, p, l)
  }

  /** The straight line between the two nodes crosses the edge. */
  function SightHit(num: Numerics, a: GraphNode, b: GraphNode): (Vec2, Vec2) -> bool {
    (s, e) => num.lineIntersects(s, e, a.position, b.position)
  }

  /** The agent's swept trajectory from `a` to `b` touches the edge. */
  function SweepHit(num: Numerics, radius: real, a: GraphNode, b: GraphNode): (Vec2, Vec2) -> bool {
    (s, e) => num.sweepHits(a.position, b.position, s, e, radius)
  }

  /** The discriminant of the launch-speed equation for displacement `dp`
      under gravity with the largest jump speed; negative means no launch
      at that speed reaches `dp`. */
  function Discriminant(dp: Vec2): real {
    var a := Gravity();
    var b1 := Dot(dp, a) + JumpForce * JumpForce;
    b1 * b1 - Dot(a, a) * Dot(dp, dp)
  }

  /** jumpability_check: the launch speed of the jump from `s` to `g`, or
      None when the discriminant is negative or the sweep touches a tested
      edge. */
  function Jumpability(level: seq<Polygon>, num: Numerics, radius: real, s: GraphNode, g: GraphNode): Option<real> {
    var dp := Sub(g.position, s.position);
    if Discriminant(dp) < 0.0 then None
    else if AnyHit(level, s, g, SweepHit(num, radius, s, g)) then None
    else Some(num.launchSpeed(dp))
  }

  /** Node `j` gets a jumpable connection from node `i`. */
  predicate Qualifies(ns: seq<GraphNode>, level: seq<Polygon>, num: Numerics, radius: real, i: nat, j: nat)
    requires i < |ns| && j < |ns|
  {
    && j != i
    && ns[i].polygonIndex != ns[j].polygonIndex
    && !AnyHit(level, ns[i], ns[j], SightHit(num, ns[i], ns[j]))
    && Jumpability(level, num, radius, ns[i], ns[j]).Some?
  }

  /** The jumpable connections of node `i` to the candidates 0 .. n-1. */
  function JumpList(ns: seq<GraphNode>, level: seq<Polygon>, num: Numerics, radius: real, i: nat, n: nat): seq<Connection>
    requires i < |ns| && n <= |ns|
  {
    if n == 0 then []
    else
      var j := n - 1;
      JumpList(ns, level, num, radius, i, j)
      + if Qualifies(ns, level, num, radius, i, j)
        then [Connection(j, num.length(Sub(ns[i].position, ns[j].position)), Jumpable,
                         Jumpability(level, num, radius, ns[i], ns[j]).value)]
        else []
  }

  function WithJumps(ns: seq<GraphNode>, level: seq<Polygon>, num: Numerics, radius: real): (r: seq<GraphNode>)
    ensures |r| == |ns|
  {
    seq(|ns|, i requires 0 <= i < |ns| => ns[i].(jumpable := JumpList(ns, level, num, radius, i, |ns|)))
  }

  // ---------------------------------------------------------------------
  // Properties.

  /** Node `i`'s jumpable list holds, in increasing order of target, exactly
      the qualifying nodes, each with its launch speed as effort. */
  lemma {:induction false} JumpListExact(ns: seq<GraphNode>, level: seq<Polygon>, num: Numerics, radius: real, i: nat, n: nat)
    requires i < |ns| && n <= |ns|
    ensures var r := JumpList(ns, level, num, radius, i, n);
      && (forall q :: 0 <= q < |r| ==>
            && r[q].nodeId < n && r[q].kind == Jumpable
            && Qualifies(ns, level, num, radius, i, r[q].nodeId)
            && Jumpability(level, num, radius, ns[i], ns[r[q].nodeId]) == Some(r[q].effort))
      && (forall q, q' :: 0 <= q < q' < |r| ==> r[q].nodeId < r[q'].nodeId)
      && (forall j :: 0 <= j < n && Qualifies(ns, level, num, radius, i, j) ==>
            exists q :: 0 <= q < |r| && r[q].nodeId == j)
  {
    if n > 0 {
      var j := n - 1;
      JumpListExact(ns, level, num, radius, i, j);
      var r0 := JumpList(ns, level, num, radius, i, j);
      var tail := if Qualifies(ns, level, num, radius, i, j)
        then [Connection(j, num.length(Sub(ns[i].position, ns[j].position)), Jumpable,
                         Jumpability(level, num, radius, ns[i], ns[j]).value)]
        else [];
      var r := JumpList(ns, level, num, radius, i, n);
      assert r == r0 + tail;
      forall q | 0 <= q < |r|
        ensures r[q].nodeId < n && r[q].kind == Jumpable
        ensures Qualifies(ns, level, num, radius, i, r[q].nodeId)
        ensures Jumpability(level, num, radius, ns[i], ns[r[q].nodeId]) == Some(r[q].effort)
      {
        if q < |r0| {
          assert r[q] == r0[q];
        } else {
          assert r[q] == tail[0];
        }
      }
      forall q, q' | 0 <= q < q' < |r|
        ensures r[q].nodeId < r[q'].nodeId
      {
        if q' < |r0| {
          assert r[q] == r0[q] && r[q'] == r0[q'];
        } else {
          assert r[q] == r0[q] && r[q'] == tail[0];
        }
      }
      forall k | 0 <= k < n && Qualifies(ns, level, num, radius, i, k)
        ensures exists q :: 0 <= q < |r| && r[q].nodeId == k
      {
        if k < j {
          var q :| 0 <= q < |r0| && r0[q].nodeId == k;
          assert r[q] == r0[q];
        } else {
          assert r[|r0|] == tail[0];
        }
      }
    }
  }

  /** Only the jumpable lists change, and every jumpable target is in range. */
  lemma WithJumpsFrame(ns: seq<GraphNode>, level: seq<Polygon>, num: Numerics, radius: real)
    ensures var r := WithJumps(ns, level, num, radius);
      && JumpableInRange(r)
      && forall k :: 0 <= k < |ns| ==> r[k] == ns[k].(jumpable := r[k].jumpable)
  {
    var r := WithJumps(ns, level, num, radius);
    forall a, c | 0 <= a < |r| && 0 <= c < |r[a].jumpable|
      ensures r[a].jumpable[c].nodeId < |r|
    {
      assert r[a].jumpable == JumpList(ns, level, num, radius, a, |ns|);
      JumpListExact(ns, level, num, radius, a, |ns|);
    }
  }

  /** A negative discriminant rules the jump out; an accepted jump has a
      non-negative discriminant and a sweep that touches no tested edge. */
  lemma JumpabilityCases(level: seq<Polygon>, num: Numerics, radius: real, s: GraphNode, g: GraphNode)
    ensures Discriminant(Sub(g.position, s.position)) < 0.0 ==> Jumpability(level, num, radius, s, g) == None
    ensures Jumpability(level, num, radius, s, g).Some? <==>
      && Discriminant(Sub(g.position, s.position)) >= 0.0
      && forall p: nat, l: nat :: !HitsAt(level, s, g, SweepHit(num, radius, s, g), p, l)
  {
  }

  /** The scan only looks at the polygon and line indices of its two nodes
      and at `hit` on the edges it tests. */
  lemma AnyHitAgree(level: seq<Polygon>, a: GraphNode, b: GraphNode, a': GraphNode, b': GraphNode,
                    h: (Vec2, Vec2) -> bool, h': (Vec2, Vec2) -> bool)
    requires a.polygonIndex == a'.polygonIndex && a.lineIndices == a'.lineIndices
    requires b.polygonIndex == b'.polygonIndex && b.lineIndices == b'.lineIndices
    requires forall p: nat, l: nat :: Tested(level, a, b, p, l) ==>
      h(level[p].points[l], level[p].points[l + 1]) == h'(level[p].points[l], level[p].points[l + 1])
    ensures AnyHit(level, a, b, h) == AnyHit(level, a', b', h')
  {
    if AnyHit(level, a, b, h) {
      var p: nat, l: nat :| p < |level| && l + 1 < |level[p].points| && HitsAt(level, a, b, h, p, l);
      assert HitsAt(level, a', b', h', p, l);
    }
    if AnyHit(level, a', b', h') {
      var p: nat, l: nat :| p < |level| && l + 1 < |level[p].points| && HitsAt(level, a', b', h', p, l);
      assert Tested(level, a, b, p, l);
      assert HitsAt(level, a, b, h, p, l);
    }
  }

  /** The edges the start or goal node lies on are never tested: two sweep
      tests that agree on every other edge give the same answer. */
  lemma JumpabilityIgnoresOwnEdges(level: seq<Polygon>, num: Numerics, num': Numerics, radius: real, s: GraphNode, g: GraphNode)
    requires num.launchSpeed == num'.launchSpeed
    requires forall p: nat, l: nat :: Tested(level, s, g, p, l) ==>
      num.sweepHits(s.position, g.position, level[p].points[l], level[p].points[l + 1], radius)
      == num'.sweepHits(s.position, g.position, level[p].points[l], level[p].points[l + 1], radius)
    ensures Jumpability(level, num, radius, s, g) == Jumpability(level, num', radius, s, g)
  {
    AnyHitAgree(level, s, g, s, g, SweepHit(num, radius, s, g), SweepHit(num', radius, s, g));
  }

  /** On level ground the jump reaches at most 128 units either way
      (v^2 / g with v = 8, g = 0.5). */
  lemma HorizontalReach(dx: real)
    ensures Discriminant(Vec2(dx, 0.0)) >= 0.0 <==> -128.0 <= dx <= 128.0
  {
    assert Discriminant(Vec2(dx, 0.0)) == 4096.0 - 0.25 * (dx * dx);
    if -128.0 <= dx <= 128.0 {
      SquareBound(dx);
    } else if dx > 128.0 {
      assert dx * dx > 128.0 * dx > 128.0 * 128.0;
    } else {
      assert dx * dx > -128.0 * dx > 128.0 * 128.0;
    }
  }

  lemma SquareBound(x: real)
    requires -128.0 <= x <= 128.0
    ensures x * x <= 16384.0
  {
    if x >= 0.0 {
      assert x * x <= 128.0 * x;
    } else {
      assert x * x <= -128.0 * x;
    }
  }

  /** Straight up the jump reaches at most 64 units (v^2 / 2g). */
  lemma VerticalReach(dy: real)
    ensures Discriminant(Vec2(0.0, dy)) >= 0.0 <==> dy <= 64.0
  {
    assert Discriminant(Vec2(0.0, dy)) == 4096.0 - 64.0 * dy;
  }

  /** Nothing but the jumpable lists is read by the stage, so arrays that
      agree on everything else get the same jumpable lists. */
  lemma {:induction false} JumpListFrame(ns: seq<GraphNode>, ms: seq<GraphNode>, level: seq<Polygon>, num: Numerics, radius: real, i: nat, n: nat)
    requires |ns| == |ms| && i < |ns| && n <= |ns|
    requires forall k :: 0 <= k < |ns| ==> ms[k] == ns[k].(jumpable := ms[k].jumpable)
    ensures JumpList(ms, level, num, radius, i, n) == JumpList(ns, level, num, radius, i, n)
  {
    if n > 0 {
      JumpListFrame(ns, ms, level, num, radius, i, n - 1);
      var j := n - 1;
      assert ms[i] == ns[i].(jumpable := ms[i].jumpable) && ms[j] == ns[j].(jumpable := ms[j].jumpable);
      assert SightHit(num, ms[i], ms[j]) == SightHit(num, ns[i], ns[j]);
      assert SweepHit(num, radius, ms[i], ms[j]) == SweepHit(num, radius, ns[i], ns[j]);
      AnyHitAgree(level, ms[i], ms[j], ns[i], ns[j], SightHit(num, ms[i], ms[j]), SightHit(num, ns[i], ns[j]));
      AnyHitAgree(level, ms[i], ms[j], ns[i], ns[j], SweepHit(num, radius, ms[i], ms[j]), SweepHit(num, radius, ns[i], ns[j]));
    }
  }

  // ---------------------------------------------------------------------
  // The imperative code.

  /** make_jumpable_connections: node `i`'s jumpable list is replaced by the
      connections to the candidates that qualify, in increasing order. */
  method MakeJumpableConnections(pf: Pathfinding, level: seq<Polygon>, radius: real, num: Numerics)
    modifies pf`nodes
    ensures pf.nodes == WithJumps(old(pf.nodes), level, num, radius)
  {
    ghost var ns := pf.nodes;
    for i := 0 to |pf.nodes|
      invariant |pf.nodes| == |ns|
      invariant forall k :: 0 <= k < |ns| ==> pf.nodes[k] == ns[k].(jumpable := pf.nodes[k].jumpable)
      invariant forall k :: 0 <= k < i ==> pf.nodes[k].jumpable == JumpList(ns, level, num, radius, k, |ns|)
    {
      var jumpableConnections := NodeJumps(pf.nodes, level, radius, num, i);
      JumpListFrame(ns, pf.nodes, level, num, radius, i, |ns|);
      pf.nodes := pf.nodes[i := pf.nodes[i].(jumpable := jumpableConnections)];
    }
  }

  /** The 'other_nodes loop for node `i`. */
  method NodeJumps(nodes: seq<GraphNode>, level: seq<Polygon>, radius: real, num: Numerics, i: nat)
    returns (jumps: seq<Connection>)
    requires i < |nodes|
    ensures jumps == JumpList(nodes, level, num, radius, i, |nodes|)
  {
    jumps := [];
    var mainNode := nodes[i];
    for j := 0 to |nodes|
      invariant jumps == JumpList(nodes, level, num, radius, i, j)
    {
      if i == j {
        continue;
      }
      var otherNode := nodes[j];
      if mainNode.polygonIndex == otherNode.polygonIndex {
        continue;
      }
      var blocked := ScanEdges(level, mainNode, otherNode, SightHit(num, mainNode, otherNode));
      if blocked {
        continue;
      }
      var jumpableVelocity := JumpabilityCheck(mainNode, otherNode, level, radius, num);
      if jumpableVelocity.None? {
        continue;
      }
      jumps := jumps + [Connection(j, num.length(Sub(mainNode.position, otherNode.position)), Jumpable,
                                   jumpableVelocity.value)];
    }
  }

  /** jumpability_check. */
  method JumpabilityCheck(startNode: GraphNode, goalNode: GraphNode, level: seq<Polygon>, radius: real, num: Numerics)
    returns (r: Option<real>)
    ensures r == Jumpability(level, num, radius, startNode, goalNode)
  {
    var deltaP := Sub(goalNode.position, startNode.position);
    var acceleration := Vec2(0.0, -GravityStrength);
    var vMax := JumpForce;
    var b1 := Dot(deltaP, acceleration) + vMax * vMax;
    var discriminant := b1 * b1 - Dot(acceleration, acceleration) * Dot(deltaP, deltaP);
    assert acceleration == Gravity();
    assert discriminant == Discriminant(deltaP);
    var jumpPossible := discriminant >= 0.0;
    if jumpPossible {
      var hit := ScanEdges(level, startNode, goalNode, SweepHit(num, radius, startNode, goalNode));
      jumpPossible := !hit;
    }
    r := if jumpPossible then Some(num.launchSpeed(deltaP)) else None;
  }

  /** The labelled polygon/line scan shared by both functions: every edge
      that neither node lies on is tested in order, stopping at the first
      hit. */
  method ScanEdges(level: seq<Polygon>, a: GraphNode, b: GraphNode, hit: (Vec2, Vec2) -> bool) returns (found: bool)
    ensures found == AnyHit(level, a, b, hit)
  {
    found := false;
    var polygonIndex := 0;
    while polygonIndex < |level| && !found
      invariant polygonIndex <= |level|
      invariant !found ==> forall p: nat, l: nat :: p < polygonIndex ==> !HitsAt(level, a, b, hit, p, l)
      invariant found ==> AnyHit(level, a, b, hit)
    {
      found := ScanPolygon(level, a, b, hit, polygonIndex);
      polygonIndex := polygonIndex + 1;
    }
    if !found {
      forall p: nat, l: nat
        ensures !HitsAt(level, a, b, hit, p, l)
      {
        if p >= |level| {
          assert !IsEdge(level, p, l);
        }
      }
    }
  }

  /** The 'line loop over the edges of polygon `p`. */
  method ScanPolygon(level: seq<Polygon>, a: GraphNode, b: GraphNode, hit: (Vec2, Vec2) -> bool, p: nat)
    returns (found: bool)
    requires p < |level|
    ensures found <==> exists l: nat :: HitsAt(level, a, b, hit, p, l)
  {
    var polygon := level[p];
    found := false;
    ghost var hitLine: nat := 0;
    var lineIndex := 1;
    while lineIndex < |polygon.points| && !found
      invariant 1 <= lineIndex
      invariant !found ==> forall l: nat :: l < lineIndex - 1 ==> !HitsAt(level, a, b, hit, p, l)
      invariant found ==> HitsAt(level, a, b, hit, p, hitLine)
      decreases |polygon.points| - lineIndex
    {
      var startOnLine := a.polygonIndex == p && (lineIndex - 1) in a.lineIndices;
      var goalOnLine := b.polygonIndex == p && (lineIndex - 1) in b.lineIndices;
      if !(startOnLine || goalOnLine) && hit(polygon.points[lineIndex - 1], polygon.points[lineIndex]) {
        found := true;
        hitLine := lineIndex - 1;
      }
      lineIndex := lineIndex + 1;
    }
    if !found {
      forall l: nat
        ensures !HitsAt(level, a, b, hit, p, l)
      {
        if l + 1 >= |polygon.points| {
          assert !IsEdge(level, p, l);
        }
      }
    }
  }
}
