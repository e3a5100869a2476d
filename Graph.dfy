/** The navigation graph: nodes placed on level edges, typed connections
    between them by integer id, and the process-wide `Pathfinding`
    resource that owns the node array and the goal-tracking fields. */
module Graph {
  import opened Geometry

  datatype ConnectionType = Walkable | Jumpable | Droppable

  /** A directed edge to the node whose id is `nodeId`. */
  datatype Connection = Connection(nodeId: nat, dist: real, kind: ConnectionType, effort: real)

  datatype GraphNode = GraphNode(
    id: nat,
    position: Vec2,
    polygonIndex: nat,
    lineIndices: seq<nat>,
    walkable: seq<Connection>,
    jumpable: seq<Connection>,
    droppable: seq<Connection>,
    normal: Vec2,
    isCorner: bool,
    isExternalCorner: Option<bool>)

  /** A level polygon: an ordered point list whose consecutive points are
      its edges (edge `l` runs from point `l` to point `l + 1`). */
  datatype Polygon = Polygon(points: seq<Vec2>, isContainer: bool)

  /** The shared navigation resource. Every stage of graph construction
      rewrites `nodes`; the goal tracker writes the other three fields. */
  class Pathfinding {
    var nodes: seq<GraphNode>
    var goalGraphNode: Option<GraphNode>
    var goalPosition: Vec2
    var active: bool

    /** The resource as the plugin inserts it. */
    constructor ()
      ensures nodes == [] && goalGraphNode == None
      ensures goalPosition == Zero && !active
    {
      nodes := [];
      goalGraphNode := None;
      goalPosition := Zero;
      active := false;
    }
  }

  /** Edge `l` of polygon `p` exists in the level. */
  predicate IsEdge(level: seq<Polygon>, p: nat, l: nat) {
    p < |level| && l + 1 < |level[p].points|
  }

  /** Every node's id is its index in the array. */
  predicate IdsAreIndices(ns: seq<GraphNode>) {
    forall k :: 0 <= k < |ns| ==> ns[k].id == k
  }

  /** No two nodes carry the same id. */
  predicate DistinctIds(ns: seq<GraphNode>) {
    forall a, b :: 0 <= a < b < |ns| ==> ns[a].id != ns[b].id
  }

  predicate HasId(ns: seq<GraphNode>, id: nat) {
    exists k :: 0 <= k < |ns| && ns[k].id == id
  }

  /** Every walkable connection names an index of the array. */
  predicate WalkableInRange(ns: seq<GraphNode>) {
    forall a, c :: 0 <= a < |ns| && 0 <= c < |ns[a].walkable| ==> ns[a].walkable[c].nodeId < |ns|
  }

  /** Every jumpable connection names an index of the array. */
  predicate JumpableInRange(ns: seq<GraphNode>) {
    forall a, c :: 0 <= a < |ns| && 0 <= c < |ns[a].jumpable| ==> ns[a].jumpable[c].nodeId < |ns|
  }

  /** Every walkable connection names the id of a node of the array. */
  predicate WalkableNamesIds(ns: seq<GraphNode>) {
    forall a, c :: 0 <= a < |ns| && 0 <= c < |ns[a].walkable| ==> HasId(ns, ns[a].walkable[c].nodeId)
  }

  /** `conns` holds a walkable connection to `target` of length `d`. */
  predicate HasWalkableTo(conns: seq<Connection>, target: nat, d: real) {
    exists c :: 0 <= c < |conns| && conns[c] == Connection(target, d, Walkable, 0.0)
  }

  /** Walking is undirected (by index): every walkable connection a -> b of
      length d is matched by a walkable connection b -> a of length d. */
  predicate WalkableSymmetric(ns: seq<GraphNode>) {
    && WalkableInRange(ns)
    && forall a, c :: 0 <= a < |ns| && 0 <= c < |ns[a].walkable| ==>
         var e := ns[a].walkable[c];
         e.kind == Walkable && e.effort == 0.0 && HasWalkableTo(ns[e.nodeId].walkable, a, e.dist)
  }

  /** Every walkable connection is of kind Walkable with effort 0, as
      placement creates them. */
  predicate AllWalkableZero(ns: seq<GraphNode>) {
    forall a, c :: 0 <= a < |ns| && 0 <= c < |ns[a].walkable| ==>
      ns[a].walkable[c].kind == Walkable && ns[a].walkable[c].effort == 0.0
  }

  /** Walking is undirected by id: every walkable connection a -> t of
      length d is Walkable with effort 0, and every node whose id is t has
      a walkable connection back to a's id of length d. (That some node
      has id t is `WalkableNamesIds`; with distinct ids it is the only
      one.) */
  predicate WalkableSymmetricById(ns: seq<GraphNode>) {
    && AllWalkableZero(ns)
    && forall a, c, b ::
         0 <= a < |ns| && 0 <= c < |ns[a].walkable| && 0 <= b < |ns| && ns[b].id == ns[a].walkable[c].nodeId ==>
         HasWalkableTo(ns[b].walkable, ns[a].id, ns[a].walkable[c].dist)
  }

  /** Once ids are indices, symmetry by index is symmetry by id. */
  lemma SymmetricById(ns: seq<GraphNode>)
    requires IdsAreIndices(ns) && WalkableSymmetric(ns)
    ensures WalkableSymmetricById(ns)
  {
    forall a, c, b | 0 <= a < |ns| && 0 <= c < |ns[a].walkable| && 0 <= b < |ns| && ns[b].id == ns[a].walkable[c].nodeId
      ensures HasWalkableTo(ns[b].walkable, ns[a].id, ns[a].walkable[c].dist)
    {
      assert ns[b].id == b && ns[a].id == a;
    }
  }

  /** The partner of connection `c` of node `a` at node `b`, which carries
      the id the connection names: connection `c2` of `b`. */
  lemma PartnerAt(ns: seq<GraphNode>, a: nat, c: nat, b: nat) returns (c2: nat)
    requires WalkableSymmetricById(ns) && a < |ns| && c < |ns[a].walkable|
    requires b < |ns| && ns[b].id == ns[a].walkable[c].nodeId
    ensures c2 < |ns[b].walkable|
    ensures ns[b].walkable[c2] == Connection(ns[a].id, ns[a].walkable[c].dist, Walkable, 0.0)
    ensures ns[a].walkable[c].kind == Walkable && ns[a].walkable[c].effort == 0.0
  {
    c2 :| 0 <= c2 < |ns[b].walkable| && ns[b].walkable[c2] == Connection(ns[a].id, ns[a].walkable[c].dist, Walkable, 0.0);
  }

  /** No two nodes lie within the duplicate tolerance of each other. */
  predicate Separated(ns: seq<GraphNode>) {
    forall a, b :: 0 <= a < b < |ns| ==> DistSquared(ns[a].position, ns[b].position) >= DuplicateTolerance
  }

  /** Every node lies on at least one edge. */
  predicate OnSomeEdge(ns: seq<GraphNode>) {
    forall k :: 0 <= k < |ns| ==> |ns[k].lineIndices| > 0
  }

  /** Every line index of every node names an edge of that node's polygon. */
  predicate LinesAreEdges(level: seq<Polygon>, ns: seq<GraphNode>) {
    forall k, m :: 0 <= k < |ns| && 0 <= m < |ns[k].lineIndices| ==>
      IsEdge(level, ns[k].polygonIndex, ns[k].lineIndices[m])
  }
}
