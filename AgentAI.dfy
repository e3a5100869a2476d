/** The platformer agent: the path-following decision taken every tick
    from the path the search returns (get_move_inputs), the sign-crossing
    test it uses, and the per-tick update of the agent's physics record
    (steering acceleration, gravity, the jump and Euler integration). */
module AgentAI {
  import opened Geometry
  import opened Graph
  import opened AStar
  import opened Game

  /** What the agent steers toward. Only three of these are ever chosen;
      `NoStrategy` is the game's `None` variant. */
  datatype PathFollowingStrategy =
    | CurrentNodeToNextNode
    | CurrentNodeOffsetToNextNodeOffset
    | AgentToCurrentNode
    | AgentToCurrentNodeOffset
    | AgentToNextNode
    | AgentToNextNodeOffset
    | AgentToGoal
    | NoStrategy

  /** The four results of get_move_inputs. */
  datatype MoveInputs = MoveInputs(moveDir: Vec2, jumpVelocity: Vec2, jumpFrom: Option<Vec2>, jumpTo: Option<Vec2>)

  const NoInputs: MoveInputs := MoveInputs(Zero, Zero, None, None)

  /** The agent counts as on a wall while its normal's y-component is above this. */
  const OnWallNormalY: real := -0.01
  /** Below this squared speed the agent counts as standing still. */
  const NotMovingSpeedSquared: real := 0.1

  /** The agent's per-agent AI component. */
  class PlatformerAI {
    var currentTargetNode: Option<nat>
    var jumpFromPos: Option<Vec2>
    var jumpToPos: Option<Vec2>

    constructor ()
      ensures currentTargetNode == None && jumpFromPos == None && jumpToPos == None
    {
      currentTargetNode := None;
      jumpFromPos := None;
      jumpToPos := None;
    }
  }

  // ---------------------------------------------------------------------
  // agent_on_other_side_next_frame.

  /** f32::signum on the values the game feeds it: zero counts as positive. */
  function Signum(x: real): (r: int)
    ensures r == -1 || r == 1
    ensures r == -1 <==> x < 0.0
  {
    if x < 0.0 then -1 else 1
  }

  /** Whether one tick at `agentVelocity` takes the agent across the node's
      coordinate: the y-coordinate when `vertical`, the x-coordinate
      otherwise. The agent is on the other side exactly when it crosses the
      node's coordinate in the direction it moves, so a velocity without
      that component never crosses. */
  function OtherSide(agentPosition: Vec2, agentVelocity: Vec2, nodePosition: Vec2, vertical: bool): (r: bool)
    ensures var d := if vertical then 1 else 0;
      var a, v, n := Component(agentPosition, d), Component(agentVelocity, d), Component(nodePosition, d);
      && (r <==> (a < n && n <= a + v) || (n <= a && a + v < n))
      && (v == 0.0 ==> !r)
  {
    var d := if vertical then 1 else 0;
    var next := Add(agentPosition, agentVelocity);
    Signum(Component(agentPosition, d) - Component(nodePosition, d))
      != Signum(Component(next, d) - Component(nodePosition, d))
  }

  // ---------------------------------------------------------------------
  // get_move_inputs.

  /** The first two path entries name nodes of the graph, so the decision
      can look them up by index. */
  predicate HeadInGraph(ns: seq<GraphNode>, path: seq<PathNode>) {
    |path| > 1 ==> path[0].id < |ns| && path[1].id < |ns|
  }

  /** A path node pushed out along its graph node's normal by the agent's
      radius: where the agent's centre is when it stands on that node. */
  function Offset(ns: seq<GraphNode>, p: PathNode, radius: real): Vec2
    requires p.id < |ns|
  {
    Add(p.position, Scale(ns[p.id].normal, radius))
  }

  /** The current node has a jumpable connection to the next one. */
  predicate JumpableStep(ns: seq<GraphNode>, current: PathNode, next: PathNode)
    requires current.id < |ns|
  {
    exists m :: 0 <= m < |ns[current.id].jumpable| && ns[current.id].jumpable[m].nodeId == next.id
  }

  /** The agent touches nothing. */
  predicate Falling(normal: Vec2) {
    LengthSquared(normal) <= 0.0
  }

  /** The decision table for a path of at least two nodes. */
  function SelectStrategy(ns: seq<GraphNode>, current: PathNode, next: PathNode, agentPosition: Vec2,
                          velocity: Vec2, normal: Vec2, radius: real): (s: PathFollowingStrategy)
    requires current.id < |ns| && next.id < |ns|
    ensures s == AgentToNextNodeOffset || s == AgentToCurrentNodeOffset || s == AgentToNextNode
    ensures Falling(normal) ==> s == AgentToNextNodeOffset
    ensures !Falling(normal) && JumpableStep(ns, current, next) ==>
      (s == AgentToNextNodeOffset <==>
        OtherSide(agentPosition, velocity, current.position, normal.y > OnWallNormalY)
        || LengthSquared(velocity) < NotMovingSpeedSquared)
    ensures s == AgentToNextNode <==>
      !Falling(normal) && !JumpableStep(ns, current, next) && ns[current.id].isExternalCorner.Some?
    ensures !Falling(normal) && !JumpableStep(ns, current, next) && ns[current.id].isExternalCorner.None? ==>
      (s == AgentToNextNodeOffset <==>
        DistSquared(Offset(ns, next, radius), agentPosition)
          <= DistSquared(Offset(ns, next, radius), Offset(ns, current, radius)))
  {
    if !Falling(normal) then
      if JumpableStep(ns, current, next) then
        var agentOnWall := normal.y > OnWallNormalY;
        if OtherSide(agentPosition, velocity, current.position, agentOnWall)
           || LengthSquared(velocity) < NotMovingSpeedSquared
        then AgentToNextNodeOffset
        else AgentToCurrentNodeOffset
      else if ns[current.id].isExternalCorner.Some? then
        AgentToNextNode
      else
        var offsetCurrent := Offset(ns, current, radius);
        var offsetNext := Offset(ns, next, radius);
        if LengthSquared(Sub(offsetNext, agentPosition)) <= LengthSquared(Sub(offsetNext, offsetCurrent))
        then AgentToNextNodeOffset
        else AgentToCurrentNodeOffset
    else
      AgentToNextNodeOffset
  }

  /** The vector a strategy steers along, before normalisation. */
  function Steer(s: PathFollowingStrategy, ns: seq<GraphNode>, current: PathNode, next: PathNode,
                 agentPosition: Vec2, goalPosition: Vec2, radius: real): Vec2
    requires current.id < |ns| && next.id < |ns|
  {
    match s
    case CurrentNodeToNextNode => Sub(next.position, current.position)
    case CurrentNodeOffsetToNextNodeOffset => Sub(Offset(ns, next, radius), Offset(ns, current, radius))
    case AgentToCurrentNode => Sub(current.position, agentPosition)
    case AgentToCurrentNodeOffset => Sub(Offset(ns, current, radius), agentPosition)
    case AgentToNextNode => Sub(next.position, agentPosition)
    case AgentToNextNodeOffset => Sub(Offset(ns, next, radius), agentPosition)
    case AgentToGoal => Sub(goalPosition, agentPosition)
    case NoStrategy => Zero
  }

  /** The strategy heads for the next node, with or without the offset. */
  predicate TargetsNext(s: PathFollowingStrategy) {
    s == AgentToNextNodeOffset || s == AgentToNextNode
  }

  /** get_move_inputs once the path is known. With no path or a path of one
      node nothing is produced. Otherwise the agent steers along the chosen
      strategy's vector, and jump data (the launch velocity for the step
      and the two offset points) is produced exactly when the strategy
      heads for the next node over a jumpable connection. */
  function MoveInputsFor(ns: seq<GraphNode>, goalPosition: Vec2, path: Option<seq<PathNode>>, agentPosition: Vec2,
                         velocity: Vec2, normal: Vec2, radius: real, num: Numerics): (r: MoveInputs)
    requires path.Some? ==> HeadInGraph(ns, path.value)
    ensures path.None? || |path.value| <= 1 ==> r == NoInputs
    ensures r.jumpFrom.Some? <==> r.jumpTo.Some?
    ensures r.jumpFrom.None? ==> r.jumpVelocity == Zero
    ensures path.Some? && |path.value| > 1 ==>
      var current, next := path.value[0], path.value[1];
      var s := SelectStrategy(ns, current, next, agentPosition, velocity, normal, radius);
      && r.moveDir == num.normalizeOrZero(Steer(s, ns, current, next, agentPosition, goalPosition, radius))
      && (r.jumpFrom.Some? <==> TargetsNext(s) && JumpableStep(ns, current, next))
      && (r.jumpFrom.Some? ==>
            && r.jumpVelocity == num.launchVelocity(Sub(next.position, current.position))
            && r.jumpFrom == Some(Offset(ns, current, radius))
            && r.jumpTo == Some(Offset(ns, next, radius)))
  {
    if path.None? || |path.value| <= 1 then NoInputs
    else
      var current, next := path.value[0], path.value[1];
      var s := SelectStrategy(ns, current, next, agentPosition, velocity, normal, radius);
      var moveDir := num.normalizeOrZero(Steer(s, ns, current, next, agentPosition, goalPosition, radius));
      if TargetsNext(s) && JumpableStep(ns, current, next) then
        MoveInputs(moveDir, num.launchVelocity(Sub(next.position, current.position)),
                   Some(Offset(ns, current, radius)), Some(Offset(ns, next, radius)))
      else
        MoveInputs(moveDir, Zero, None, None)
  }

  /** When jump data is produced: over a jumpable connection, while falling,
      once the agent is about to cross the current node, or when it has
      (nearly) stopped. A corner never turns a jumpable step into a plain
      walk. */
  lemma JumpDataWhen(ns: seq<GraphNode>, goalPosition: Vec2, path: seq<PathNode>, agentPosition: Vec2,
                     velocity: Vec2, normal: Vec2, radius: real, num: Numerics)
    requires |path| > 1 && HeadInGraph(ns, path)
    ensures MoveInputsFor(ns, goalPosition, Some(path), agentPosition, velocity, normal, radius, num).jumpFrom.Some?
      <==> JumpableStep(ns, path[0], path[1]) &&
           (Falling(normal)
            || OtherSide(agentPosition, velocity, path[0].position, normal.y > OnWallNormalY)
            || LengthSquared(velocity) < NotMovingSpeedSquared)
  {
    var s := SelectStrategy(ns, path[0], path[1], agentPosition, velocity, normal, radius);
    if JumpableStep(ns, path[0], path[1]) {
      assert s != AgentToNextNode;
    }
  }

  /** On a flat stretch, once the agent stands at the current node's offset
      point or at the next one, it heads for the next node: it never turns
      back toward a node it has reached. */
  lemma FlatStretchAdvances(ns: seq<GraphNode>, current: PathNode, next: PathNode, agentPosition: Vec2,
                            velocity: Vec2, normal: Vec2, radius: real)
    requires current.id < |ns| && next.id < |ns|
    requires !JumpableStep(ns, current, next) && ns[current.id].isExternalCorner.None?
    requires agentPosition == Offset(ns, current, radius) || agentPosition == Offset(ns, next, radius)
    ensures SelectStrategy(ns, current, next, agentPosition, velocity, normal, radius) == AgentToNextNodeOffset
  {
    var d := Sub(Offset(ns, next, radius), Offset(ns, current, radius));
    assert d.x * d.x + d.y * d.y >= 0.0 by {
      assert d.x * d.x >= 0.0 && d.y * d.y >= 0.0;
    }
  }

  /** The path search and the decision together: the nodes' ids are their
      indices, so the first two entries of any returned path can be looked
      up by id. */
  lemma ValidPathHeadInGraph(ns: seq<GraphNode>, startId: nat, goalId: nat, path: seq<PathNode>)
    requires IdsAreIndices(ns) && ValidPath(ns, startId, goalId, path)
    ensures HeadInGraph(ns, path)
  {
    if |path| > 1 {
      assert OnGraph(ns, path[0]) && OnGraph(ns, path[1]);
      var t0 :| 0 <= t0 < |ns| && ns[t0].id == path[0].id && ns[t0].position == path[0].position;
      var t1 :| 0 <= t1 < |ns| && ns[t1].id == path[1].id && ns[t1].position == path[1].position;
    }
  }

  /** get_move_inputs: searches for a path from the agent and decides on it. */
  method GetMoveInputs(pf: Pathfinding, agentPosition: Vec2, physics: Physics, num: Numerics)
    returns (path: Option<seq<PathNode>>, r: MoveInputs)
    requires TargetsInRange(pf.nodes) && IdsAreIndices(pf.nodes)
    ensures path.Some? ==> pf.goalGraphNode.Some?
    ensures path.Some? && pf.goalGraphNode.Some? ==>
      ValidPath(pf.nodes, StartNode(pf.nodes, agentPosition, pf.goalPosition, num).id, pf.goalGraphNode.value.id, path.value)
    ensures path.Some? ==> HeadInGraph(pf.nodes, path.value)
    ensures pf.goalGraphNode.None? ==> path == None && r == NoInputs
    ensures r == MoveInputsFor(pf.nodes, pf.goalPosition, path, agentPosition,
                               physics.velocity, physics.normal, physics.radius, num)
  {
    var found := FindPath(pf, agentPosition, num);
    if found.Some? {
      ValidPathHeadInGraph(pf.nodes, StartNode(pf.nodes, agentPosition, pf.goalPosition, num).id,
                           pf.goalGraphNode.value.id, found.value);
    }
    path := found;
    r := MoveInputsFor(pf.nodes, pf.goalPosition, found, agentPosition,
                       physics.velocity, physics.normal, physics.radius, num);
  }

  // ---------------------------------------------------------------------
  // The per-tick update of s_platformer_ai_movement.

  /** The state one tick of movement reads and writes: the transform's
      position and the physics record. */
  datatype Body = Body(position: Vec2, prevPosition: Vec2, velocity: Vec2, acceleration: Vec2,
                       normal: Vec2, grounded: bool, walled: int, hasWallJumped: bool)

  function BodyOf(physics: Physics, transform: Transform): Body
    reads physics, transform
  {
    Body(transform.translation, physics.prevPosition, physics.velocity, physics.acceleration,
         physics.normal, physics.grounded, physics.walled, physics.hasWallJumped)
  }

  /** The smoothing constant of the steering blend. */
  function Scaler(noMoveDir: bool): real {
    if noMoveDir then DecelerateScaler else AccelerateScaler
  }

  /** apply_movement_acceleration: none while falling, otherwise a fraction
      of the gap between the wander velocity along `moveDir` and the
      current velocity. */
  function MovementAcceleration(velocity: Vec2, moveDir: Vec2, falling: bool, noMoveDir: bool): Vec2 {
    if falling then Zero
    else Scale(Sub(Scale(moveDir, WanderMaxSpeed), velocity), Scaler(noMoveDir))
  }

  /** apply_gravity_toward_normal: while falling only the vertical part is
      replaced by plain gravity; otherwise gravity pulls toward the surface
      the agent touches. */
  function GravityTowardNormal(acceleration: Vec2, normal: Vec2, falling: bool): Vec2 {
    if falling then Vec2(acceleration.x, -GravityStrength)
    else Add(acceleration, Scale(normal, GravityStrength))
  }

  /** The jump fires for a non-zero jump velocity, when not falling, from the
      ground or from a wall. */
  predicate JumpFires(b: Body, jumpVelocity: Vec2, falling: bool) {
    LengthSquared(jumpVelocity) > 0.0 && !falling && (b.grounded || b.walled != 0)
  }

  /** The jump block: the launch velocity replaces the velocity, plain
      gravity the acceleration, and the agent leaves the ground and the
      wall; a jump from the ground clears the wall-jump flag and a jump from
      a wall sets it. */
  function Jumped(b: Body, jumpVelocity: Vec2, falling: bool): Body {
    if JumpFires(b, jumpVelocity, falling) then
      b.(velocity := jumpVelocity, acceleration := Gravity(), grounded := false, walled := 0,
         hasWallJumped := !b.grounded)
    else b
  }

  /** update_physics_and_transform: explicit Euler with the new velocity. */
  function Integrated(b: Body): Body {
    var velocity := Add(b.velocity, b.acceleration);
    b.(velocity := velocity, prevPosition := b.position, position := Add(b.position, velocity))
  }

  /** One tick of s_platformer_ai_movement for given move inputs. */
  function Tick(b: Body, inputs: MoveInputs): Body {
    var falling := LengthSquared(b.normal) == 0.0;
    var noMoveDir := LengthSquared(inputs.moveDir) == 0.0;
    var acceleration := MovementAcceleration(b.velocity, inputs.moveDir, falling, noMoveDir);
    var b1 := b.(acceleration := GravityTowardNormal(acceleration, b.normal, falling));
    Integrated(Jumped(b1, inputs.jumpVelocity, falling))
  }

  /** A squared length is never negative, so the decision's test for falling
      (at most zero) and the movement system's test (exactly zero) agree. */
  lemma FallingTestsAgree(normal: Vec2)
    ensures Falling(normal) <==> LengthSquared(normal) == 0.0
  {
    assert normal.x * normal.x >= 0.0 && normal.y * normal.y >= 0.0;
  }

  /** A falling agent just accelerates downward: no steering and no jump. */
  lemma FallingTick(b: Body, inputs: MoveInputs)
    requires Falling(b.normal)
    ensures var t := Tick(b, inputs);
      && t.acceleration == Gravity()
      && t.velocity == Add(b.velocity, Gravity())
      && t.prevPosition == b.position
      && t.position == Add(b.position, t.velocity)
      && t.grounded == b.grounded && t.walled == b.walled && t.hasWallJumped == b.hasWallJumped
  {
    FallingTestsAgree(b.normal);
  }

  /** Touching a surface and not jumping, the velocity moves toward the
      wander velocity along `moveDir`: apart from gravity toward the
      surface, the gap to it shrinks by the factor 1 - k, with k = 0.4 when
      there is no direction and 0.2 otherwise. */
  lemma SteeringTick(b: Body, inputs: MoveInputs)
    requires !Falling(b.normal)
    requires !JumpFires(b, inputs.jumpVelocity, false)
    ensures var t := Tick(b, inputs);
      var k := Scaler(LengthSquared(inputs.moveDir) == 0.0);
      var target := Scale(inputs.moveDir, WanderMaxSpeed);
      && t.acceleration == Add(Scale(Sub(target, b.velocity), k), Scale(b.normal, GravityStrength))
      && Sub(Sub(t.velocity, Scale(b.normal, GravityStrength)), target) == Scale(Sub(b.velocity, target), 1.0 - k)
      && t.position == Add(b.position, t.velocity)
      && t.grounded == b.grounded && t.walled == b.walled && t.hasWallJumped == b.hasWallJumped
  {
    FallingTestsAgree(b.normal);
  }

  /** A jump from the ground takes precedence over a wall jump; either way
      the agent leaves with the launch velocity plus one tick of gravity. */
  lemma JumpTick(b: Body, inputs: MoveInputs)
    requires !Falling(b.normal)
    requires JumpFires(b, inputs.jumpVelocity, false)
    ensures var t := Tick(b, inputs);
      && t.velocity == Add(inputs.jumpVelocity, Gravity())
      && t.acceleration == Gravity()
      && t.position == Add(b.position, t.velocity)
      && !t.grounded && t.walled == 0
      && (t.hasWallJumped <==> !b.grounded && b.walled != 0)
  {
    FallingTestsAgree(b.normal);
  }

  /** The agent only ever jumps along a jumpable connection of its path, and
      then its jump points are the offsets of the connection's two ends. */
  lemma JumpsFollowJumpableSteps(ns: seq<GraphNode>, goalPosition: Vec2, path: seq<PathNode>, b: Body,
                                 radius: real, num: Numerics)
    requires HeadInGraph(ns, path)
    requires var inputs := MoveInputsFor(ns, goalPosition, Some(path), b.position, b.velocity, b.normal, radius, num);
      JumpFires(b, inputs.jumpVelocity, LengthSquared(b.normal) == 0.0)
    ensures |path| > 1 && JumpableStep(ns, path[0], path[1])
    ensures var inputs := MoveInputsFor(ns, goalPosition, Some(path), b.position, b.velocity, b.normal, radius, num);
      inputs.jumpFrom == Some(Offset(ns, path[0], radius)) && inputs.jumpTo == Some(Offset(ns, path[1], radius))
  {
    var inputs := MoveInputsFor(ns, goalPosition, Some(path), b.position, b.velocity, b.normal, radius, num);
    assert inputs.jumpVelocity != Zero;
  }

  method ApplyMovementAcceleration(physics: Physics, moveDir: Vec2, falling: bool, noMoveDir: bool)
    modifies physics`acceleration
    ensures physics.acceleration == MovementAcceleration(physics.velocity, moveDir, falling, noMoveDir)
  {
    if falling {
      physics.acceleration := Zero;
      return;
    }
    physics.acceleration := Scale(Sub(Scale(moveDir, WanderMaxSpeed), physics.velocity),
                                  if noMoveDir then DecelerateScaler else AccelerateScaler);
  }

  method ApplyGravityTowardNormal(physics: Physics, falling: bool)
    modifies physics`acceleration
    ensures physics.acceleration == GravityTowardNormal(old(physics.acceleration), physics.normal, falling)
  {
    if falling {
      physics.acceleration := physics.acceleration.(y := -GravityStrength);
    } else {
      var gravityNormalDir := Scale(physics.normal, GravityStrength);
      physics.acceleration := Add(physics.acceleration, gravityNormalDir);
    }
  }

  /** The jump block; a jump also records its jump points on the AI. */
  method Jump(physics: Physics, transform: Transform, ai: PlatformerAI, jumpVelocity: Vec2, falling: bool,
              jumpFrom: Option<Vec2>, jumpTo: Option<Vec2>)
    modifies physics`velocity, physics`acceleration, physics`grounded, physics`walled, physics`hasWallJumped
    modifies ai`jumpFromPos, ai`jumpToPos
    ensures BodyOf(physics, transform) == Jumped(old(BodyOf(physics, transform)), jumpVelocity, falling)
    ensures JumpFires(old(BodyOf(physics, transform)), jumpVelocity, falling) ==>
      ai.jumpFromPos == jumpFrom && ai.jumpToPos == jumpTo
    ensures !JumpFires(old(BodyOf(physics, transform)), jumpVelocity, falling) ==>
      ai.jumpFromPos == old(ai.jumpFromPos) && ai.jumpToPos == old(ai.jumpToPos)
  {
    if LengthSquared(jumpVelocity) > 0.0 && !falling {
      if physics.grounded {
        physics.velocity := jumpVelocity;
        physics.acceleration := physics.acceleration.(x := 0.0);
        physics.acceleration := physics.acceleration.(y := -GravityStrength);
        physics.grounded := false;
        physics.hasWallJumped := false;
        physics.walled := 0;
        ai.jumpFromPos := jumpFrom;
        ai.jumpToPos := jumpTo;
      } else if physics.walled != 0 {
        physics.velocity := jumpVelocity;
        physics.acceleration := physics.acceleration.(x := 0.0);
        physics.acceleration := physics.acceleration.(y := -GravityStrength);
        physics.walled := 0;
        physics.grounded := false;
        physics.hasWallJumped := true;
        ai.jumpFromPos := jumpFrom;
        ai.jumpToPos := jumpTo;
      }
    }
  }

  method UpdatePhysicsAndTransform(physics: Physics, transform: Transform)
    modifies physics`velocity, physics`prevPosition, transform`translation
    ensures BodyOf(physics, transform) == Integrated(old(BodyOf(physics, transform)))
  {
    var newVelocity := Add(physics.velocity, physics.acceleration);
    physics.velocity := newVelocity;
    physics.prevPosition := transform.translation;
    transform.translation := Add(transform.translation, physics.velocity);
  }

  /** The body of s_platformer_ai_movement for one agent once its move
      inputs are known. */
  method Move(physics: Physics, transform: Transform, ai: PlatformerAI, inputs: MoveInputs)
    modifies physics, transform`translation, ai`jumpFromPos, ai`jumpToPos
    ensures BodyOf(physics, transform) == Tick(old(BodyOf(physics, transform)), inputs)
    ensures physics.radius == old(physics.radius)
    ensures JumpFires(old(BodyOf(physics, transform)), inputs.jumpVelocity, LengthSquared(old(physics.normal)) == 0.0) ==>
      ai.jumpFromPos == inputs.jumpFrom && ai.jumpToPos == inputs.jumpTo
    ensures !JumpFires(old(BodyOf(physics, transform)), inputs.jumpVelocity, LengthSquared(old(physics.normal)) == 0.0) ==>
      ai.jumpFromPos == old(ai.jumpFromPos) && ai.jumpToPos == old(ai.jumpToPos)
  {
    var falling := LengthSquared(physics.normal) == 0.0;
    var noMoveDir := LengthSquared(inputs.moveDir) == 0.0;
    ApplyMovementAcceleration(physics, inputs.moveDir, falling, noMoveDir);
    ApplyGravityTowardNormal(physics, falling);
    Jump(physics, transform, ai, inputs.jumpVelocity, falling, inputs.jumpFrom, inputs.jumpTo);
    UpdatePhysicsAndTransform(physics, transform);
  }

  /** s_platformer_ai_movement for one agent: decide on the path from the
      agent's position, then move. */
  method PlatformerAIMovement(pf: Pathfinding, physics: Physics, transform: Transform, ai: PlatformerAI,
                              num: Numerics)
    returns (ghost path: Option<seq<PathNode>>, ghost inputs: MoveInputs)
    requires TargetsInRange(pf.nodes) && IdsAreIndices(pf.nodes)
    modifies physics, transform`translation, ai`jumpFromPos, ai`jumpToPos
    ensures pf.goalGraphNode.None? ==> path == None && inputs == NoInputs
    ensures path.Some? ==> pf.goalGraphNode.Some? && HeadInGraph(pf.nodes, path.value)
    ensures path.Some? && pf.goalGraphNode.Some? ==>
      ValidPath(pf.nodes, StartNode(pf.nodes, old(transform.translation), pf.goalPosition, num).id,
                pf.goalGraphNode.value.id, path.value)
    ensures inputs == MoveInputsFor(pf.nodes, pf.goalPosition, path, old(transform.translation),
                                    old(physics.velocity), old(physics.normal), old(physics.radius), num)
    ensures BodyOf(physics, transform) == Tick(old(BodyOf(physics, transform)), inputs)
    ensures JumpFires(old(BodyOf(physics, transform)), inputs.jumpVelocity, LengthSquared(old(physics.normal)) == 0.0) ==>
      ai.jumpFromPos == inputs.jumpFrom && ai.jumpToPos == inputs.jumpTo
  {
    ghost var before := BodyOf(physics, transform);
    var found, r := GetMoveInputs(pf, transform.translation, physics, num);
    path := found;
    inputs := r;
    assert inputs == MoveInputsFor(pf.nodes, pf.goalPosition, path, before.position,
                                   before.velocity, before.normal, physics.radius, num);
    Move(physics, transform, ai, r);
  }
}
