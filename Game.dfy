/** The game's own state outside the navigation graph: the agent's physics
    record and transform, and the goal tracking that follows the arrow
    keys and the Space toggle. */
module Game {
  import opened Geometry
  import opened Graph

  /** The agent's physics component. `walled` is the side of the wall the
      agent touches (0 when none), an 8-bit integer in the game. */
  class Physics {
    var prevPosition: Vec2
    var velocity: Vec2
    var acceleration: Vec2
    var radius: real
    var normal: Vec2
    var grounded: bool
    var walled: int
    var hasWallJumped: bool

    /** The component as the agent is spawned. */
    constructor ()
      ensures prevPosition == Zero && velocity == Zero && acceleration == Zero
      ensures radius == AgentRadius && normal == Zero
      ensures !grounded && walled == 0 && !hasWallJumped
    {
      prevPosition := Zero;
      velocity := Zero;
      acceleration := Zero;
      radius := AgentRadius;
      normal := Zero;
      grounded := false;
      walled := 0;
      hasWallJumped := false;
    }
  }

  /** The agent's transform, reduced to the plane it moves in. */
  class Transform {
    var translation: Vec2

    /** The transform as the agent is spawned. */
    constructor ()
      ensures translation == SpawnPoint
    {
      translation := SpawnPoint;
    }
  }

  /** Where the agent is spawned. */
  const SpawnPoint: Vec2 := Vec2(0.0, -250.0)

  /** How far the goal point moves per tick along the input direction. */
  const GoalSpeed: real := 4.0

  // ---------------------------------------------------------------------
  // The nearest-node scan of s_move_goal_point and of the Space toggle.

  /** The index the running-minimum scan over the first `n` nodes ends on:
      a node replaces the current choice only when strictly nearer to `p`.
      None stands for the scan's infinite starting distance. */
  function Nearest(ns: seq<GraphNode>, p: Vec2, n: nat): (r: Option<nat>)
    requires n <= |ns|
    ensures r.Some? ==> r.value < n
  {
    if n == 0 then None
    else
      var prev := Nearest(ns, p, n - 1);
      if prev.None? || DistSquared(p, ns[n - 1].position) < DistSquared(p, ns[prev.value].position)
      then Some(n - 1)
      else prev
  }

  /** Node `i` is no farther from `p` than any node, and strictly nearer
      than every node before it. */
  predicate FirstNearest(ns: seq<GraphNode>, p: Vec2, i: nat) {
    && i < |ns|
    && (forall j :: 0 <= j < |ns| ==> DistSquared(p, ns[i].position) <= DistSquared(p, ns[j].position))
    && (forall j :: 0 <= j < i ==> DistSquared(p, ns[i].position) < DistSquared(p, ns[j].position))
  }

  /** The scan finds a node exactly when there is one; the node it finds is
      no farther from `p` than any node, and strictly nearer than every node
      before it, so ties go to the lowest index. */
  lemma {:induction false} NearestIsFirstMinimum(ns: seq<GraphNode>, p: Vec2, n: nat)
    requires n <= |ns|
    ensures Nearest(ns, p, n).Some? <==> n > 0
    ensures Nearest(ns, p, n).Some? ==>
      var i := Nearest(ns, p, n).value;
      && (forall j :: 0 <= j < n ==> DistSquared(p, ns[i].position) <= DistSquared(p, ns[j].position))
      && (forall j :: 0 <= j < i ==> DistSquared(p, ns[i].position) < DistSquared(p, ns[j].position))
  {
    if n > 0 {
      NearestIsFirstMinimum(ns, p, n - 1);
    }
  }

  /** Exactly one index is a first minimum, so the scan's choice is
      determined by the distances alone. */
  lemma NearestUnique(ns: seq<GraphNode>, p: Vec2, i: nat)
    requires FirstNearest(ns, p, i)
    ensures Nearest(ns, p, |ns|) == Some(i)
  {
    NearestIsFirstMinimum(ns, p, |ns|);
    var k := Nearest(ns, p, |ns|).value;
    assert DistSquared(p, ns[k].position) <= DistSquared(p, ns[i].position);
    assert DistSquared(p, ns[i].position) <= DistSquared(p, ns[k].position);
  }

  /** The goal node after a scan: the first nearest node to `p`, or the
      previous goal node when there are no nodes. */
  function ScannedGoal(ns: seq<GraphNode>, p: Vec2, previous: Option<GraphNode>): (r: Option<GraphNode>)
    ensures |ns| == 0 ==> r == previous
    ensures |ns| > 0 ==> r.Some?
    ensures |ns| > 0 ==> exists i: nat :: FirstNearest(ns, p, i) && r == Some(ns[i])
  {
    NearestIsFirstMinimum(ns, p, |ns|);
    match Nearest(ns, p, |ns|)
    case None => previous
    case Some(i) => Some(ns[i])
  }

  /** The loop both systems run: over the nodes in order, a strictly nearer
      node becomes the goal node. */
  method ScanGoalNode(pf: Pathfinding)
    modifies pf`goalGraphNode
    ensures pf.goalGraphNode == ScannedGoal(pf.nodes, pf.goalPosition, old(pf.goalGraphNode))
  {
    var closestDistance: Option<real> := None;
    ghost var closest: Option<nat> := None;
    ghost var previous := pf.goalGraphNode;
    for nodeIndex := 0 to |pf.nodes|
      invariant closest == Nearest(pf.nodes, pf.goalPosition, nodeIndex)
      invariant closest.None? ==> closestDistance.None? && pf.goalGraphNode == previous
      invariant closest.Some? ==>
        && closestDistance == Some(DistSquared(pf.goalPosition, pf.nodes[closest.value].position))
        && pf.goalGraphNode == Some(pf.nodes[closest.value])
    {
      var node := pf.nodes[nodeIndex];
      var distance := LengthSquared(Sub(pf.goalPosition, node.position));
      if closestDistance.None? || distance < closestDistance.value {
        closestDistance := Some(distance);
        pf.goalGraphNode := Some(node);
        closest := Some(nodeIndex);
      }
    }
  }

  /** s_move_goal_point: the goal point always moves by the input direction
      times four; while pathfinding is active the goal node is then
      re-chosen as the node nearest the new goal point. */
  method MoveGoalPoint(pf: Pathfinding, inputDir: Vec2)
    modifies pf`goalPosition, pf`goalGraphNode
    ensures pf.goalPosition == Add(old(pf.goalPosition), Scale(inputDir, GoalSpeed))
    ensures pf.goalGraphNode ==
      if pf.active then ScannedGoal(pf.nodes, pf.goalPosition, old(pf.goalGraphNode))
      else old(pf.goalGraphNode)
  {
    pf.goalPosition := Add(pf.goalPosition, Scale(inputDir, GoalSpeed));
    if pf.active {
      ScanGoalNode(pf);
    }
  }

  /** The Space branch of s_input: flips `active`; switching off forgets the
      goal node, switching on chooses the node nearest the goal point. */
  method ToggleGoal(pf: Pathfinding)
    modifies pf`active, pf`goalGraphNode
    ensures pf.active == !old(pf.active)
    ensures pf.goalGraphNode ==
      if pf.active then ScannedGoal(pf.nodes, pf.goalPosition, old(pf.goalGraphNode))
      else None
  {
    pf.active := !pf.active;
    if pf.active {
      ScanGoalNode(pf);
    } else {
      pf.goalGraphNode := None;
    }
  }
}
