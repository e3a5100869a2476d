/** Two-dimensional vectors over the reals, the constants shared by the
    navigation graph, the search and the agent, and the floating-point
    operations the model does not interpret (square roots, rounding up,
    normalisation, segment intersection). */
module Geometry {

  datatype Option<T> = None | Some(value: T)

  /** A point or a displacement in the plane (bevy's Vec2). */
  datatype Vec2 = Vec2(x: real, y: real)

  const Zero: Vec2 := Vec2(0.0, 0.0)

  /** Downward acceleration applied to the agent every tick. */
  const GravityStrength: real := 0.5
  /** Largest launch speed the agent can jump with. */
  const JumpForce: real := 8.0
  /** Radius of the agent's collision circle. */
  const AgentRadius: real := 8.0
  /** Speed the agent steers toward while wandering. */
  const WanderMaxSpeed: real := 3.0
  /** Smoothing constant used while a movement direction is present. */
  const AccelerateScaler: real := 0.2
  /** Smoothing constant used while no movement direction is present. */
  const DecelerateScaler: real := 0.4
  /** Nodes whose squared distance is below this are merged. */
  const DuplicateTolerance: real := 1.0
  /** Target spacing of nodes along a walkable edge. */
  const NodeSpacing: real := 20.0
  /** An edge whose unit direction has an x-component at or below this is a wall. */
  const WalkableSlope: real := -0.1

  function Add(a: Vec2, b: Vec2): Vec2 { Vec2(a.x + b.x, a.y + b.y) }

  function Sub(a: Vec2, b: Vec2): Vec2 { Vec2(a.x - b.x, a.y - b.y) }

  function Scale(a: Vec2, k: real): Vec2 { Vec2(a.x * k, a.y * k) }

  function Dot(a: Vec2, b: Vec2): real { a.x * b.x + a.y * b.y }

  function LengthSquared(a: Vec2): real { Dot(a, a) }

  /** Squared Euclidean distance between two points. */
  function DistSquared(a: Vec2, b: Vec2): real { LengthSquared(Sub(a, b)) }

  /** Component `d` of a vector: 0 is x, 1 is y (bevy's `v[d]`). */
  function Component(a: Vec2, d: nat): real
    requires d < 2
  {
    if d == 0 then a.x else a.y
  }

  /** The gravity vector, pointing down. */
  function Gravity(): Vec2 { Vec2(0.0, -GravityStrength) }

  /** The floating-point operations the model leaves uninterpreted. Every
      member that needs one of them takes this record, so whatever a
      contract states holds for every choice of these functions. */
  datatype Numerics = Numerics(
    length: Vec2 -> real,                       // Vec2::length
    normalize: Vec2 -> Vec2,                    // Vec2::normalize
    normalizeOrZero: Vec2 -> Vec2,              // Vec2::normalize_or_zero
    ceil: real -> int,                          // f32::ceil followed by `as i32`
    lineIntersects: (Vec2, Vec2, Vec2, Vec2) -> bool,  // utils::line_intersect(..).is_some()
    // The length of the low-energy launch velocity for a displacement
    // (the quartic-root flight time and the velocity derived from it).
    launchSpeed: Vec2 -> real,
    // The launch velocity get_move_inputs computes for a displacement
    // between two path nodes (flight time from a double square root).
    launchVelocity: Vec2 -> Vec2,
    // The sampled capsule sweep of that trajectory from the first point to
    // the second, with the given radius, hits the edge from the third point
    // to the fourth.
    sweepHits: (Vec2, Vec2, Vec2, Vec2, real) -> bool
  )
}
