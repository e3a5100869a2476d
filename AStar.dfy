/** A* search over the navigation graph (a_star.rs): the open list is a
    binary heap ordered by reversed f-cost, the closed list a vector
    searched linearly, and the path is rebuilt through parent ids. */
module AStar {
  import opened Geometry
  import opened Graph

  /** An entry of the open or closed list. */
  datatype AStarNode = AStarNode(
    position: Vec2,
    id: nat,
    connections: seq<Connection>,
    gCost: real,
    hCost: real,
    parent: Option<nat>,
    isCorner: bool,
    isExternalCorner: Option<bool>)

  /** One step of a returned path. */
  datatype PathNode = PathNode(id: nat, position: Vec2)

  datatype Ordering = Less | Equal | Greater

  /** What the search needs to know besides its lists: the graph, the goal
      node's id and the goal position, the numerics and the start entry. */
  datatype Context = Context(ns: seq<GraphNode>, goalId: nat, goalPosition: Vec2, num: Numerics, start: AStarNode)

  // ---------------------------------------------------------------------
  // AStarNode::new, get_f_cost and the reversed Ord.

  /** A node's connections as the search follows them: walkable, then jumpable. */
  function Connections(n: GraphNode): seq<Connection> {
    n.walkable + n.jumpable
  }

  /** AStarNode::new: no costs and no parent yet. */
  function NewNode(n: GraphNode): AStarNode {
    AStarNode(n.position, n.id, Connections(n), 0.0, 0.0, None, n.isCorner, n.isExternalCorner)
  }

  /** A fresh entry follows exactly the node's walkable and jumpable
      connections, in that order, and starts with no cost and no parent. */
  lemma NewNodeSpec(n: GraphNode)
    ensures var e := NewNode(n);
      && e.id == n.id && e.position == n.position
      && |e.connections| == |n.walkable| + |n.jumpable|
      && (forall c :: c in e.connections <==> c in n.walkable || c in n.jumpable)
      && e.connections[..|n.walkable|] == n.walkable
      && e.gCost == 0.0 && e.hCost == 0.0 && e.parent == None
  {
    var e := NewNode(n);
    assert e.connections[..|n.walkable|] == n.walkable;
  }

  function FCost(n: AStarNode): real {
    n.gCost + n.hCost
  }

  /** The heap order: the comparison of f-costs, reversed, so that the
      greatest entry is the cheapest. */
  function Compare(a: AStarNode, b: AStarNode): Ordering {
    if FCost(a) < FCost(b) then Greater
    else if FCost(a) > FCost(b) then Less
    else Equal
  }

  function Flip(o: Ordering): Ordering {
    match o
    case Less => Greater
    case Equal => Equal
    case Greater => Less
  }

  /** The order is total and antisymmetric, and greater means cheaper. */
  lemma CompareSpec(a: AStarNode, b: AStarNode)
    ensures Compare(a, b) == Greater <==> FCost(a) < FCost(b)
    ensures Compare(a, b) == Equal <==> FCost(a) == FCost(b)
    ensures Compare(b, a) == Flip(Compare(a, b))
  {
  }

  /** Entry `i` is a greatest element of the heap, one `pop` may return. */
  predicate IsTop(open: seq<AStarNode>, i: nat) {
    i < |open| && forall j :: 0 <= j < |open| ==> Compare(open[i], open[j]) != Less
  }

  /** The index of a cheapest entry among the first `n`. */
  function Cheapest(open: seq<AStarNode>, n: nat): (i: nat)
    requires 0 < n <= |open|
    ensures i < n && forall j :: 0 <= j < n ==> FCost(open[i]) <= FCost(open[j])
  {
    if n == 1 then 0
    else
      var i := Cheapest(open, n - 1);
      if FCost(open[n - 1]) < FCost(open[i]) then n - 1 else i
  }

  /** The heap pops exactly the cheapest entries, and a non-empty heap has one. */
  lemma TopIsCheapest(open: seq<AStarNode>, i: nat)
    requires i < |open|
    ensures IsTop(open, i) <==> forall j :: 0 <= j < |open| ==> FCost(open[i]) <= FCost(open[j])
    ensures IsTop(open, Cheapest(open, |open|))
  {
  }

  // ---------------------------------------------------------------------
  // get_start_node.

  /** The node `get_start_node` starts from when the graph is empty. */
  const Placeholder: GraphNode := GraphNode(0, Zero, 0, [], [], [], [], Zero, false, None)

  /** The running choice of start node after the first `n` nodes. A nearer
      node replaces the choice; an equally near one replaces it unless it
      is farther from the goal than the start position itself is. */
  function StartPick(ns: seq<GraphNode>, sp: Vec2, gp: Vec2, n: nat): (r: Option<nat>)
    requires n <= |ns|
    ensures r.Some? ==> r.value < n
  {
    if n == 0 then None
    else
      match StartPick(ns, sp, gp, n - 1)
      case None => Some(n - 1)
      case Some(m) =>
        var d := DistSquared(sp, ns[n - 1].position);
        var dm := DistSquared(sp, ns[m].position);
        if d > dm then Some(m)
        else if d == dm && DistSquared(gp, ns[n - 1].position) > DistSquared(gp, sp) then Some(m)
        else Some(n - 1)
  }

  /** Index `m` satisfies the tie rule among the first `n` nodes: it is
      nearest to `sp`; every later node as near is farther from `gp` than
      `sp` is; and it is the first nearest node or not farther from `gp`
      than `sp`. */
  predicate StartRule(ns: seq<GraphNode>, sp: Vec2, gp: Vec2, n: nat, m: nat)
    requires n <= |ns|
  {
    && m < n
    && (forall j :: 0 <= j < n ==> DistSquared(sp, ns[m].position) <= DistSquared(sp, ns[j].position))
    && (forall j :: m < j < n && DistSquared(sp, ns[j].position) == DistSquared(sp, ns[m].position) ==>
          DistSquared(gp, ns[j].position) > DistSquared(gp, sp))
    && (DistSquared(gp, ns[m].position) <= DistSquared(gp, sp) ||
        forall j :: 0 <= j < m ==> DistSquared(sp, ns[j].position) > DistSquared(sp, ns[m].position))
  }

  /** The running choice is the node the tie rule describes, and there is
      one exactly when the graph is not empty. */
  lemma {:induction false} StartPickRule(ns: seq<GraphNode>, sp: Vec2, gp: Vec2, n: nat)
    requires n <= |ns|
    ensures StartPick(ns, sp, gp, n).Some? <==> n > 0
    ensures n > 0 ==> StartRule(ns, sp, gp, n, StartPick(ns, sp, gp, n).value)
  {
    if n > 1 {
      StartPickRule(ns, sp, gp, n - 1);
    }
  }

  /** The tie rule allows only one node. */
  lemma StartRuleUnique(ns: seq<GraphNode>, sp: Vec2, gp: Vec2, n: nat, m: nat, m': nat)
    requires n <= |ns|
    requires StartRule(ns, sp, gp, n, m) && StartRule(ns, sp, gp, n, m')
    ensures m == m'
  {
  }

  /** The node the search starts from. */
  function StartGraphNode(ns: seq<GraphNode>, sp: Vec2, gp: Vec2): GraphNode {
    match StartPick(ns, sp, gp, |ns|)
    case None => Placeholder
    case Some(m) => ns[m]
  }

  /** The start entry: a fresh entry with its h-cost set. */
  function StartNode(ns: seq<GraphNode>, sp: Vec2, gp: Vec2, num: Numerics): AStarNode {
    var g := StartGraphNode(ns, sp, gp);
    NewNode(g).(hCost := num.length(Sub(gp, g.position)))
  }

  /** get_start_node. The f32::MAX starting distance is `None`. */
  method GetStartNode(pf: Pathfinding, startPosition: Vec2, num: Numerics) returns (s: AStarNode)
    ensures s == StartNode(pf.nodes, startPosition, pf.goalPosition, num)
  {
    ghost var ns := pf.nodes;
    var startGraphNode := Placeholder;
    var startGraphNodeDistance: Option<real> := None;
    for k := 0 to |pf.nodes|
      invariant match StartPick(ns, startPosition, pf.goalPosition, k)
        case None => startGraphNode == Placeholder && startGraphNodeDistance == None
        case Some(m) => startGraphNode == ns[m] && startGraphNodeDistance == Some(DistSquared(startPosition, ns[m].position))
    {
      var node := pf.nodes[k];
      var distance := LengthSquared(Sub(startPosition, node.position));
      if startGraphNodeDistance.Some? && distance > startGraphNodeDistance.value {
        continue;
      }
      if startGraphNodeDistance.Some? && distance == startGraphNodeDistance.value {
        var startNodeToGoal := LengthSquared(Sub(pf.goalPosition, startPosition));
        var currentNodeToGoal := LengthSquared(Sub(pf.goalPosition, node.position));
        if currentNodeToGoal > startNodeToGoal {
          continue;
        }
      }
      startGraphNodeDistance := Some(distance);
      startGraphNode := node;
    }
    s := NewNode(startGraphNode);
    s := s.(hCost := num.length(Sub(pf.goalPosition, s.position)));
  }

  // ---------------------------------------------------------------------
  // find_path: connections between ids, walks and returned paths.

  /** Some node with id `a` has a walkable or jumpable connection to a node
      with id `b`. */
  predicate Linked(ns: seq<GraphNode>, a: nat, b: nat) {
    exists t, k :: 0 <= t < |ns| && 0 <= k < |Connections(ns[t])| && ns[t].id == a
      && Connections(ns[t])[k].nodeId < |ns| && ns[Connections(ns[t])[k].nodeId].id == b
  }

  /** Once ids are indices, `a` is linked to `b` exactly when node `a` has a
      connection naming `b`. */
  lemma LinkedByIndex(ns: seq<GraphNode>, a: nat, b: nat)
    requires IdsAreIndices(ns)
    ensures Linked(ns, a, b) <==>
      a < |ns| && exists k :: 0 <= k < |Connections(ns[a])| && Connections(ns[a])[k].nodeId == b && b < |ns|
  {
    if a < |ns| && exists k :: 0 <= k < |Connections(ns[a])| && Connections(ns[a])[k].nodeId == b && b < |ns| {
      var k :| 0 <= k < |Connections(ns[a])| && Connections(ns[a])[k].nodeId == b && b < |ns|;
      assert ns[a].id == a && ns[b].id == b;
    }
  }

  /** A sequence of ids each linked to the next. */
  predicate Walk(ns: seq<GraphNode>, w: seq<nat>) {
    forall k :: 0 <= k < |w| - 1 ==> Linked(ns, w[k], w[k + 1])
  }

  /** No walk leads from `a` to `b`. */
  ghost predicate Unreachable(ns: seq<GraphNode>, a: nat, b: nat) {
    forall w :: Walk(ns, w) && |w| > 0 && w[0] == a ==> w[|w| - 1] != b
  }

  /** The step names a node of the graph and that node's position. */
  predicate OnGraph(ns: seq<GraphNode>, p: PathNode) {
    exists t :: 0 <= t < |ns| && ns[t].id == p.id && ns[t].position == p.position
  }

  /** What a returned path promises: it starts at the start node, each step
      is linked to the next and the last to the goal, every step is a node
      of the graph other than the goal, and no node repeats. */
  predicate ValidPath(ns: seq<GraphNode>, startId: nat, goalId: nat, path: seq<PathNode>) {
    && (|path| > 0 ==> path[0].id == startId && Linked(ns, path[|path| - 1].id, goalId))
    && (forall k :: 0 <= k < |path| - 1 ==> Linked(ns, path[k].id, path[k + 1].id))
    && (forall k :: 0 <= k < |path| ==> path[k].id != goalId && OnGraph(ns, path[k]))
    && (forall a, b :: 0 <= a < b < |path| ==> path[a].id != path[b].id)
  }

  function PathIds(path: seq<PathNode>): (r: seq<nat>)
    ensures |r| == |path| && forall k :: 0 <= k < |path| ==> r[k] == path[k].id
  {
    seq(|path|, k requires 0 <= k < |path| => path[k].id)
  }

  /** A returned path followed by the goal is a walk from the start to the
      goal that visits no node twice. */
  lemma ValidPathWalks(ns: seq<GraphNode>, startId: nat, goalId: nat, path: seq<PathNode>)
    requires ValidPath(ns, startId, goalId, path) && |path| > 0
    ensures var w := PathIds(path) + [goalId];
      Walk(ns, w) && w[0] == startId && w[|w| - 1] == goalId
    ensures var w := PathIds(path) + [goalId];
      forall a, b :: 0 <= a < b < |w| ==> w[a] != w[b]
  {
    var w := PathIds(path) + [goalId];
    forall k | 0 <= k < |w| - 1
      ensures Linked(ns, w[k], w[k + 1])
    {
      if k < |path| - 1 {
        assert w[k] == path[k].id && w[k + 1] == path[k + 1].id;
      } else {
        assert w[k] == path[|path| - 1].id && w[k + 1] == goalId;
      }
    }
  }

  /** Every node of a walk from a set closed under links stays in the set. */
  lemma {:induction false} WalkStaysIn(ns: seq<GraphNode>, ids: set<nat>, w: seq<nat>, n: nat)
    requires Walk(ns, w) && 0 < |w| && w[0] in ids && n < |w|
    requires forall u, v :: u in ids && Linked(ns, u, v) ==> v in ids
    ensures w[n] in ids
  {
    if n > 0 {
      WalkStaysIn(ns, ids, w, n - 1);
      assert Linked(ns, w[n - 1], w[n]);
    }
  }

  /** A set of ids that holds `a`, not `b`, and is closed under links
      separates `a` from `b`. */
  lemma ClosedSetSeparates(ns: seq<GraphNode>, ids: set<nat>, a: nat, b: nat)
    requires a in ids && b !in ids
    requires forall u, v :: u in ids && Linked(ns, u, v) ==> v in ids
    ensures Unreachable(ns, a, b)
  {
    forall w | Walk(ns, w) && |w| > 0 && w[0] == a
      ensures w[|w| - 1] != b
    {
      WalkStaysIn(ns, ids, w, |w| - 1);
    }
  }

  // ---------------------------------------------------------------------
  // find_path: the entries the search creates.

  /** Every connection of every node names an index of the array. */
  predicate TargetsInRange(ns: seq<GraphNode>) {
    WalkableInRange(ns) && JumpableInRange(ns)
  }

  lemma ConnectionsInRange(ns: seq<GraphNode>, t: nat)
    requires TargetsInRange(ns) && t < |ns|
    ensures forall k :: 0 <= k < |Connections(ns[t])| ==> Connections(ns[t])[k].nodeId < |ns|
  {
    forall k | 0 <= k < |Connections(ns[t])|
      ensures Connections(ns[t])[k].nodeId < |ns|
    {
      if k < |ns[t].walkable| {
        assert Connections(ns[t])[k] == ns[t].walkable[k];
      } else {
        assert Connections(ns[t])[k] == ns[t].jumpable[k - |ns[t].walkable|];
      }
    }
  }

  /** The entry was built from a node of the graph. */
  predicate Drawn(ns: seq<GraphNode>, e: AStarNode) {
    exists t :: 0 <= t < |ns| && ns[t].id == e.id && ns[t].position == e.position && Connections(ns[t]) == e.connections
  }

  /** The entry was built from a node of the graph, or the graph is empty
      and the entry has no connections (the placeholder start). */
  predicate Sourced(ns: seq<GraphNode>, e: AStarNode) {
    Drawn(ns, e) || (|ns| == 0 && e.connections == [])
  }

  /** Every connection of the entry names an index of the array. */
  predicate Expandable(x: Context, e: AStarNode) {
    forall k :: 0 <= k < |e.connections| ==> e.connections[k].nodeId < |x.ns|
  }

  lemma SourcedExpandable(x: Context, e: AStarNode)
    requires TargetsInRange(x.ns) && Sourced(x.ns, e)
    ensures Expandable(x, e)
  {
    if Drawn(x.ns, e) {
      var t :| 0 <= t < |x.ns| && x.ns[t].id == e.id && x.ns[t].position == e.position && Connections(x.ns[t]) == e.connections;
      ConnectionsInRange(x.ns, t);
    }
  }

  /** The start entry comes from the graph (or is the placeholder of an
      empty graph) and has no parent. */
  lemma StartSourced(ns: seq<GraphNode>, sp: Vec2, gp: Vec2, num: Numerics)
    ensures Sourced(ns, StartNode(ns, sp, gp, num)) && StartNode(ns, sp, gp, num).parent == None
  {
    StartPickRule(ns, sp, gp, |ns|);
    var s := StartNode(ns, sp, gp, num);
    if |ns| > 0 {
      var m := StartPick(ns, sp, gp, |ns|).value;
      assert ns[m].id == s.id && ns[m].position == s.position && Connections(ns[m]) == s.connections;
    }
  }

  /** The entry pushed for connection `c` of `cur`. */
  function Child(x: Context, cur: AStarNode, c: Connection): AStarNode
    requires c.nodeId < |x.ns|
  {
    var n := NewNode(x.ns[c.nodeId]);
    var costed :=
      if n.id != x.goalId then n.(gCost := c.dist + cur.gCost, hCost := x.num.length(Sub(x.goalPosition, n.position)))
      else n;
    costed.(parent := Some(cur.id))
  }

  /** A pushed entry is the connected node with `cur` as parent; a goal
      entry keeps zero costs, any other gets the parent's cost plus the
      connection's length and the distance to the goal position. */
  lemma ChildSpec(x: Context, cur: AStarNode, c: Connection)
    requires c.nodeId < |x.ns|
    ensures var e := Child(x, cur, c); var g := x.ns[c.nodeId];
      && e.parent == Some(cur.id) && e.id == g.id && e.position == g.position
      && e.connections == Connections(g)
      && (e.id == x.goalId ==> e.gCost == 0.0 && e.hCost == 0.0)
      && (e.id != x.goalId ==> e.gCost == cur.gCost + c.dist && e.hCost == x.num.length(Sub(x.goalPosition, g.position)))
  {
  }

  /** The entries pushed when `cur` is closed, one per connection, in order. */
  function Children(x: Context, cur: AStarNode): (r: seq<AStarNode>)
    requires Expandable(x, cur)
    ensures |r| == |cur.connections|
  {
    seq(|cur.connections|, k requires 0 <= k < |cur.connections| => Child(x, cur, cur.connections[k]))
  }

  /** Entry `e` is the child pushed for connection `k` of closed entry `m`. */
  predicate ChildAt(x: Context, closed: seq<AStarNode>, m: nat, k: nat, e: AStarNode) {
    && m < |closed| && k < |closed[m].connections| && closed[m].connections[k].nodeId < |x.ns|
    && e == Child(x, closed[m], closed[m].connections[k])
  }

  /** A child is linked to its parent, which is a node of the graph. */
  lemma ChildLinked(x: Context, closed: seq<AStarNode>, m: nat, k: nat, e: AStarNode)
    requires ChildAt(x, closed, m, k, e) && Sourced(x.ns, closed[m])
    ensures e.parent == Some(closed[m].id) && Drawn(x.ns, e)
    ensures Linked(x.ns, closed[m].id, e.id) && OnGraph(x.ns, PathNode(closed[m].id, closed[m].position))
  {
    var c := closed[m].connections[k];
    var t :| 0 <= t < |x.ns| && x.ns[t].id == closed[m].id && x.ns[t].position == closed[m].position
      && Connections(x.ns[t]) == closed[m].connections;
    assert Connections(x.ns[t])[k] == c;
    assert x.ns[c.nodeId].id == e.id && x.ns[c.nodeId].position == e.position;
  }

  // ---------------------------------------------------------------------
  // find_path: the invariant of the search loop.

  /** Every id the search can meet: those of the graph and the start's. */
  function Universe(x: Context): set<nat> {
    (set t | 0 <= t < |x.ns| :: x.ns[t].id) + {x.start.id}
  }

  predicate InClosed(closed: seq<AStarNode>, id: nat) {
    exists k :: 0 <= k < |closed| && closed[k].id == id
  }

  predicate InOpen(open: seq<AStarNode>, id: nat) {
    exists i :: 0 <= i < |open| && open[i].id == id
  }

  predicate ContextOk(x: Context) {
    TargetsInRange(x.ns) && x.start.parent == None && Sourced(x.ns, x.start)
  }

  /** The closed list: the start first, then children of earlier entries,
      never the goal, never an id twice. `cp` and `cc` record each entry's
      parent index and connection index. */
  predicate ClosedShape(x: Context, closed: seq<AStarNode>, cp: seq<nat>, cc: seq<nat>) {
    && |cp| == |closed| && |cc| == |closed|
    && (|closed| > 0 ==> closed[0] == x.start)
    && (forall k :: 0 < k < |closed| ==> cp[k] < k && ChildAt(x, closed, cp[k], cc[k], closed[k]))
    && (forall a, b :: 0 <= a < b < |closed| ==> closed[a].id != closed[b].id)
    && (forall k :: 0 <= k < |closed| ==> closed[k].id != x.goalId && Sourced(x.ns, closed[k]))
  }

  /** `closedIds` is the set of ids of the closed list. */
  predicate IdsTracked(x: Context, closed: seq<AStarNode>, closedIds: set<nat>) {
    && (forall k :: 0 <= k < |closed| ==> closed[k].id in closedIds)
    && (forall id :: id in closedIds ==> InClosed(closed, id))
    && closedIds <= Universe(x)
  }

  /** The open list: the start alone before anything is closed, children
      of closed entries afterwards. */
  predicate OpenShape(x: Context, closed: seq<AStarNode>, open: seq<AStarNode>, op: seq<nat>, oc: seq<nat>) {
    && |op| == |open| && |oc| == |open|
    && (|closed| == 0 ==> open == [x.start])
    && (|closed| > 0 ==> forall i :: 0 <= i < |open| ==> ChildAt(x, closed, op[i], oc[i], open[i]))
  }

  /** Every node a closed entry connects to is closed or waiting in the
      open list. */
  predicate Frontier(x: Context, closed: seq<AStarNode>, closedIds: set<nat>, open: seq<AStarNode>) {
    forall m, k :: 0 <= m < |closed| && 0 <= k < |closed[m].connections| && closed[m].connections[k].nodeId < |x.ns| ==>
      Reached(closedIds, open, x.ns[closed[m].connections[k].nodeId].id)
  }

  predicate Reached(closedIds: set<nat>, open: seq<AStarNode>, id: nat) {
    id in closedIds || InOpen(open, id)
  }

  predicate SearchInv(x: Context, closed: seq<AStarNode>, cp: seq<nat>, cc: seq<nat>, closedIds: set<nat>,
                      open: seq<AStarNode>, op: seq<nat>, oc: seq<nat>) {
    && ContextOk(x)
    && ClosedShape(x, closed, cp, cc)
    && IdsTracked(x, closed, closedIds)
    && OpenShape(x, closed, open, op, oc)
    && Frontier(x, closed, closedIds, open)
  }

  // ---------------------------------------------------------------------
  // find_path: how each step of the loop keeps the invariant.

  /** `pop` at index `i` of the heap. */
  function Remove<T>(s: seq<T>, i: nat): (r: seq<T>)
    requires i < |s|
    ensures |r| == |s| - 1
    ensures forall j :: 0 <= j < i ==> r[j] == s[j]
    ensures forall j :: i <= j < |r| ==> r[j] == s[j + 1]
  {
    s[..i] + s[i + 1..]
  }

  /** `n` copies of `v`: the parent index of a batch of children. */
  function Repeat(n: nat, v: nat): (r: seq<nat>)
    ensures |r| == n && forall k :: 0 <= k < n ==> r[k] == v
  {
    seq(n, _ => v)
  }

  /** 0, 1, ..., n - 1: the connection indices of a batch of children. */
  function Upto(n: nat): (r: seq<nat>)
    ensures |r| == n && forall k :: 0 <= k < n ==> r[k] == k
  {
    seq(n, k => k)
  }

  lemma InOpenAfterPop(open: seq<AStarNode>, i: nat, id: nat, extra: seq<AStarNode>)
    requires i < |open| && InOpen(open, id) && open[i].id != id
    ensures InOpen(Remove(open, i) + extra, id)
  {
    var j :| 0 <= j < |open| && open[j].id == id;
    var r := Remove(open, i) + extra;
    if j < i {
      assert r[j] == open[j];
    } else {
      assert r[j - 1] == open[j];
    }
  }

  lemma InitInv(x: Context)
    requires ContextOk(x)
    ensures SearchInv(x, [], [], [], {}, [x.start], [0], [0])
  {
  }

  /** An entry of the open list can be expanded. */
  lemma OpenExpandable(x: Context, closed: seq<AStarNode>, cp: seq<nat>, cc: seq<nat>, closedIds: set<nat>,
                       open: seq<AStarNode>, op: seq<nat>, oc: seq<nat>, i: nat)
    requires SearchInv(x, closed, cp, cc, closedIds, open, op, oc) && i < |open|
    ensures Sourced(x.ns, open[i]) && Expandable(x, open[i])
    ensures |closed| == 0 ==> open[i] == x.start
    ensures |closed| > 0 ==> ChildAt(x, closed, op[i], oc[i], open[i])
  {
    if |closed| > 0 {
      ChildLinked(x, closed, op[i], oc[i], open[i]);
    }
    SourcedExpandable(x, open[i]);
  }

  /** Popping an entry whose id is already closed keeps the invariant. */
  lemma SkipStep(x: Context, closed: seq<AStarNode>, cp: seq<nat>, cc: seq<nat>, closedIds: set<nat>,
                 open: seq<AStarNode>, op: seq<nat>, oc: seq<nat>, i: nat)
    requires SearchInv(x, closed, cp, cc, closedIds, open, op, oc)
    requires i < |open| && InClosed(closed, open[i].id)
    ensures SearchInv(x, closed, cp, cc, closedIds, Remove(open, i), Remove(op, i), Remove(oc, i))
  {
    var open', op', oc' := Remove(open, i), Remove(op, i), Remove(oc, i);
    forall j | 0 <= j < |open'|
      ensures ChildAt(x, closed, op'[j], oc'[j], open'[j])
    {
      if j < i {
        assert ChildAt(x, closed, op[j], oc[j], open[j]);
      } else {
        assert ChildAt(x, closed, op[j + 1], oc[j + 1], open[j + 1]);
      }
    }
    forall m, k | 0 <= m < |closed| && 0 <= k < |closed[m].connections| && closed[m].connections[k].nodeId < |x.ns|
      ensures Reached(closedIds, open', x.ns[closed[m].connections[k].nodeId].id)
    {
      var id := x.ns[closed[m].connections[k].nodeId].id;
      assert Reached(closedIds, open, id);
      if id !in closedIds {
        var w :| 0 <= w < |closed| && closed[w].id == open[i].id;
        assert open[i].id in closedIds;
        InOpenAfterPop(open, i, id, []);
        assert open' + [] == open';
      }
    }
  }

  lemma ChildAtExtend(x: Context, closed: seq<AStarNode>, e: AStarNode, m: nat, k: nat, c: AStarNode)
    requires ChildAt(x, closed, m, k, c)
    ensures ChildAt(x, closed + [e], m, k, c)
  {
    assert (closed + [e])[m] == closed[m];
  }

  /** Closing a popped entry that is neither closed nor the goal keeps the
      shape of the closed list. `pm` and `pk` say whose child it is. */
  lemma CloseShape(x: Context, closed: seq<AStarNode>, cp: seq<nat>, cc: seq<nat>, e: AStarNode, pm: nat, pk: nat)
    requires ClosedShape(x, closed, cp, cc) && Sourced(x.ns, e)
    requires !InClosed(closed, e.id) && e.id != x.goalId
    requires |closed| == 0 ==> e == x.start
    requires |closed| > 0 ==> ChildAt(x, closed, pm, pk, e)
    ensures ClosedShape(x, closed + [e], cp + [pm], cc + [pk])
  {
    var closed' := closed + [e];
    var cp', cc' := cp + [pm], cc + [pk];
    forall k | 0 < k < |closed'|
      ensures cp'[k] < k && ChildAt(x, closed', cp'[k], cc'[k], closed'[k])
    {
      if k < |closed| {
        ChildAtExtend(x, closed, e, cp[k], cc[k], closed[k]);
      } else {
        ChildAtExtend(x, closed, e, pm, pk, e);
      }
    }
    forall a, b | 0 <= a < b < |closed'|
      ensures closed'[a].id != closed'[b].id
    {
      assert closed'[a] == closed[a];
      if b == |closed| {
        assert closed'[b] == e;
      } else {
        assert closed'[b] == closed[b];
      }
    }
    forall k | 0 <= k < |closed'|
      ensures closed'[k].id != x.goalId && Sourced(x.ns, closed'[k])
    {
      if k < |closed| {
        assert closed'[k] == closed[k];
      }
    }
    assert |closed| > 0 ==> closed'[0] == closed[0];
  }

  /** ... and the set of closed ids follows the list. */
  lemma CloseIds(x: Context, closed: seq<AStarNode>, closedIds: set<nat>, e: AStarNode, pm: nat, pk: nat)
    requires IdsTracked(x, closed, closedIds) && !InClosed(closed, e.id)
    requires |closed| == 0 ==> e == x.start
    requires |closed| > 0 ==> ChildAt(x, closed, pm, pk, e)
    ensures IdsTracked(x, closed + [e], closedIds + {e.id})
    ensures e.id in Universe(x) - closedIds
  {
    var closed' := closed + [e];
    forall id | id in closedIds + {e.id}
      ensures InClosed(closed', id)
    {
      if id in closedIds {
        var w :| 0 <= w < |closed| && closed[w].id == id;
        assert closed'[w] == closed[w];
      } else {
        assert closed'[|closed|] == e;
      }
    }
    if |closed| > 0 {
      var c := closed[pm].connections[pk];
      assert e.id == x.ns[c.nodeId].id;
    }
  }

  /** ... and, with its children pushed, the shape of the open list. */
  lemma CloseOpen(x: Context, closed: seq<AStarNode>, open: seq<AStarNode>, op: seq<nat>, oc: seq<nat>, i: nat)
    requires OpenShape(x, closed, open, op, oc)
    requires i < |open| && Expandable(x, open[i])
    ensures var e := open[i]; var n := |e.connections|;
      OpenShape(x, closed + [e], Remove(open, i) + Children(x, e),
                Remove(op, i) + Repeat(n, |closed|), Remove(oc, i) + Upto(n))
  {
    var e := open[i];
    var n := |e.connections|;
    var closed' := closed + [e];
    var r := Remove(open, i);
    var open' := r + Children(x, e);
    var op' := Remove(op, i) + Repeat(n, |closed|);
    var oc' := Remove(oc, i) + Upto(n);
    forall j | 0 <= j < |r|
      ensures ChildAt(x, closed', op'[j], oc'[j], open'[j])
    {
      var j' := if j < i then j else j + 1;
      assert open'[j] == open[j'] && op'[j] == op[j'] && oc'[j] == oc[j'];
      ChildAtExtend(x, closed, e, op[j'], oc[j'], open[j']);
    }
    forall j | |r| <= j < |open'|
      ensures ChildAt(x, closed', op'[j], oc'[j], open'[j])
    {
      var k := j - |r|;
      assert open'[j] == Child(x, e, e.connections[k]);
      assert op'[j] == |closed| && oc'[j] == k && closed'[|closed|] == e;
    }
  }

  /** ... and keeps every connection of a closed entry reached. */
  lemma CloseFrontier(x: Context, closed: seq<AStarNode>, closedIds: set<nat>, open: seq<AStarNode>, i: nat)
    requires Frontier(x, closed, closedIds, open)
    requires i < |open| && Expandable(x, open[i])
    ensures Frontier(x, closed + [open[i]], closedIds + {open[i].id}, Remove(open, i) + Children(x, open[i]))
  {
    var e := open[i];
    var closed' := closed + [e];
    var ids' := closedIds + {e.id};
    var r := Remove(open, i);
    var open' := r + Children(x, e);
    forall m, k | 0 <= m < |closed'| && 0 <= k < |closed'[m].connections| && closed'[m].connections[k].nodeId < |x.ns|
      ensures Reached(ids', open', x.ns[closed'[m].connections[k].nodeId].id)
    {
      var id := x.ns[closed'[m].connections[k].nodeId].id;
      if m < |closed| {
        assert closed'[m] == closed[m];
        assert Reached(closedIds, open, id);
        if id !in ids' {
          InOpenAfterPop(open, i, id, Children(x, e));
        }
      } else {
        assert open'[|r| + k] == Child(x, e, e.connections[k]);
      }
    }
  }

  /** When the open list runs dry and ids are indices, the closed ids hold
      the start, not the goal, and every node linked to one of them: no
      walk leads from the start to the goal. */
  lemma OpenEmptyUnreachable(x: Context, closed: seq<AStarNode>, cp: seq<nat>, cc: seq<nat>, closedIds: set<nat>)
    requires SearchInv(x, closed, cp, cc, closedIds, [], [], [])
    requires IdsAreIndices(x.ns)
    ensures Unreachable(x.ns, x.start.id, x.goalId)
  {
    assert closed[0].id == x.start.id;
    forall u, v | u in closedIds && Linked(x.ns, u, v)
      ensures v in closedIds
    {
      LinkFromClosed(x.ns, closed, closedIds, u, v);
    }
    ClosedSetSeparates(x.ns, closedIds, x.start.id, x.goalId);
  }

  /** One link out of a closed node, once the open list is empty: the
      closed entry for `u` was drawn from node `u`, so the link is one of
      its connections, which the frontier says is closed. */
  lemma LinkFromClosed(ns: seq<GraphNode>, closed: seq<AStarNode>, closedIds: set<nat>, u: nat, v: nat)
    requires IdsAreIndices(ns)
    requires forall k :: 0 <= k < |closed| ==> Sourced(ns, closed[k])
    requires forall id :: id in closedIds ==> InClosed(closed, id)
    requires forall m, k :: 0 <= m < |closed| && 0 <= k < |closed[m].connections| && closed[m].connections[k].nodeId < |ns| ==>
      Reached(closedIds, [], ns[closed[m].connections[k].nodeId].id)
    requires u in closedIds && Linked(ns, u, v)
    ensures v in closedIds
  {
    var m :| 0 <= m < |closed| && closed[m].id == u;
    var t, k :| 0 <= t < |ns| && 0 <= k < |Connections(ns[t])| && ns[t].id == u
      && Connections(ns[t])[k].nodeId < |ns| && ns[Connections(ns[t])[k].nodeId].id == v;
    assert Drawn(ns, closed[m]);
    var t' :| 0 <= t' < |ns| && ns[t'].id == closed[m].id && ns[t'].position == closed[m].position
      && Connections(ns[t']) == closed[m].connections;
    assert t == t';
    assert Reached(closedIds, [], ns[closed[m].connections[k].nodeId].id);
  }

  // ---------------------------------------------------------------------
  // find_path: path reconstruction.

  /** `path.reverse()`. */
  function Reversed<T>(s: seq<T>): (r: seq<T>)
    ensures |r| == |s| && forall k :: 0 <= k < |s| ==> r[k] == s[|s| - 1 - k]
  {
    seq(|s|, k requires 0 <= k < |s| => s[|s| - 1 - k])
  }

  /** A valid path read from the goal end back to the start. */
  predicate RevPath(ns: seq<GraphNode>, startId: nat, goalId: nat, rev: seq<PathNode>) {
    && (|rev| > 0 ==> rev[|rev| - 1].id == startId && Linked(ns, rev[0].id, goalId))
    && (forall j :: 0 <= j < |rev| - 1 ==> Linked(ns, rev[j + 1].id, rev[j].id))
    && (forall j :: 0 <= j < |rev| ==> rev[j].id != goalId && OnGraph(ns, rev[j]))
    && (forall a, b :: 0 <= a < b < |rev| ==> rev[a].id != rev[b].id)
  }

  lemma ReversedValid(ns: seq<GraphNode>, startId: nat, goalId: nat, rev: seq<PathNode>)
    requires RevPath(ns, startId, goalId, rev)
    ensures ValidPath(ns, startId, goalId, Reversed(rev))
  {
    var path := Reversed(rev);
    forall k | 0 <= k < |path| - 1
      ensures Linked(ns, path[k].id, path[k + 1].id)
    {
      var j := |rev| - 2 - k;
      assert path[k] == rev[j + 1] && path[k + 1] == rev[j];
    }
    forall a, b | 0 <= a < b < |path|
      ensures path[a].id != path[b].id
    {
      assert path[a] == rev[|rev| - 1 - a] && path[b] == rev[|rev| - 1 - b];
    }
  }

  /** `closed_list.iter().find(|n| n.id == id).unwrap()`, as an index. */
  method FindClosed(closed: seq<AStarNode>, id: nat) returns (k: nat)
    requires InClosed(closed, id)
    ensures k < |closed| && closed[k].id == id
    ensures forall j :: 0 <= j < k ==> closed[j].id != id
  {
    ghost var w :| 0 <= w < |closed| && closed[w].id == id;
    k := 0;
    while closed[k].id != id
      invariant k <= w
      invariant forall j :: 0 <= j < k ==> closed[j].id != id
      decreases w - k
    {
      k := k + 1;
    }
  }

  /** The state of the parent walk: `rev` records the parents met so far,
      `idxs` their indices in the closed list, and `cur` is the last of
      them (or the goal entry before the first step), at index `idx`. */
  predicate Trail(x: Context, closed: seq<AStarNode>, goalEntry: AStarNode,
                  rev: seq<PathNode>, idxs: seq<nat>, idx: nat, cur: AStarNode) {
    && idx <= |closed| && |idxs| == |rev|
    && (rev == [] ==> cur == goalEntry && idx == |closed|)
    && (rev != [] ==> idx < |closed| && cur == closed[idx] && idxs[|rev| - 1] == idx)
    && (forall j :: 0 <= j < |rev| ==>
          idx <= idxs[j] < |closed| && rev[j] == PathNode(closed[idxs[j]].id, closed[idxs[j]].position))
    && (rev != [] ==> Linked(x.ns, rev[0].id, x.goalId))
    && (forall j :: 0 <= j < |rev| - 1 ==> Linked(x.ns, rev[j + 1].id, rev[j].id))
    && (forall j :: 0 <= j < |rev| ==> OnGraph(x.ns, rev[j]))
    && (forall a, b :: 0 <= a < b < |rev| ==> rev[a].id != rev[b].id)
  }

  /** One step of the walk: the current entry's parent is an earlier
      closed entry, linked to it and new to the record. */
  lemma TrailStep(x: Context, closed: seq<AStarNode>, cp: seq<nat>, cc: seq<nat>, pm: nat, pk: nat, goalEntry: AStarNode,
                  rev: seq<PathNode>, idxs: seq<nat>, idx: nat, cur: AStarNode) returns (p: nat)
    requires ContextOk(x) && ClosedShape(x, closed, cp, cc) && goalEntry.id == x.goalId
    requires |closed| == 0 ==> goalEntry == x.start
    requires |closed| > 0 ==> ChildAt(x, closed, pm, pk, goalEntry)
    requires Trail(x, closed, goalEntry, rev, idxs, idx, cur) && cur.parent.Some?
    ensures p < idx && closed[p].id == cur.parent.value
    ensures Trail(x, closed, goalEntry, rev + [PathNode(closed[p].id, closed[p].position)], idxs + [p], p, closed[p])
  {
    var pc: nat;
    if rev == [] {
      p, pc := pm, pk;
    } else {
      assert idx != 0;
      p, pc := cp[idx], cc[idx];
    }
    ChildLinked(x, closed, p, pc, cur);
    TrailExtend(x, closed, goalEntry, rev, idxs, idx, cur, p);
  }

  /** Recording an earlier closed entry linked to the current one, whose id
      differs from every later closed entry's, extends the walk. */
  lemma TrailExtend(x: Context, closed: seq<AStarNode>, goalEntry: AStarNode,
                    rev: seq<PathNode>, idxs: seq<nat>, idx: nat, cur: AStarNode, p: nat)
    requires goalEntry.id == x.goalId && Trail(x, closed, goalEntry, rev, idxs, idx, cur)
    requires p < idx && Linked(x.ns, closed[p].id, cur.id)
    requires OnGraph(x.ns, PathNode(closed[p].id, closed[p].position))
    requires forall a, b :: 0 <= a < b < |closed| ==> closed[a].id != closed[b].id
    ensures Trail(x, closed, goalEntry, rev + [PathNode(closed[p].id, closed[p].position)], idxs + [p], p, closed[p])
  {
    var rev' := rev + [PathNode(closed[p].id, closed[p].position)];
    var idxs' := idxs + [p];
    forall j | 0 <= j < |rev'|
      ensures p <= idxs'[j] < |closed| && rev'[j] == PathNode(closed[idxs'[j]].id, closed[idxs'[j]].position)
    {
      if j < |rev| {
        assert rev'[j] == rev[j] && idxs'[j] == idxs[j];
      }
    }
    assert Linked(x.ns, rev'[0].id, x.goalId) by {
      if rev != [] {
        assert rev'[0] == rev[0];
      }
    }
    forall j | 0 <= j < |rev'| - 1
      ensures Linked(x.ns, rev'[j + 1].id, rev'[j].id)
    {
      if j < |rev| - 1 {
        assert rev'[j + 1] == rev[j + 1] && rev'[j] == rev[j];
      } else {
        assert j == |rev| - 1 && idxs[j] == idx;
        assert rev'[j] == rev[j] && rev[j].id == closed[idx].id == cur.id;
        assert rev'[j + 1] == PathNode(closed[p].id, closed[p].position);
      }
    }
    forall j | 0 <= j < |rev'|
      ensures OnGraph(x.ns, rev'[j])
    {
      if j < |rev| {
        assert rev'[j] == rev[j];
      }
    }
    forall a, b | 0 <= a < b < |rev'|
      ensures rev'[a].id != rev'[b].id
    {
      if b == |rev| {
        var ia := idxs[a];
        assert rev'[a] == rev[a] && rev[a].id == closed[ia].id;
        assert p < idx <= ia < |closed|;
        assert closed[p].id != closed[ia].id;
        assert rev'[b].id == closed[p].id;
      } else {
        assert rev'[a] == rev[a] && rev'[b] == rev[b];
      }
    }
  }

  /** When the walk stops it has reached the start entry: the record is a
      valid path read backwards, empty exactly when nothing was closed. */
  lemma TrailEnd(x: Context, closed: seq<AStarNode>, cp: seq<nat>, cc: seq<nat>, pm: nat, pk: nat, goalEntry: AStarNode,
                 rev: seq<PathNode>, idxs: seq<nat>, idx: nat, cur: AStarNode)
    requires ContextOk(x) && ClosedShape(x, closed, cp, cc) && goalEntry.id == x.goalId
    requires |closed| == 0 ==> goalEntry == x.start
    requires |closed| > 0 ==> ChildAt(x, closed, pm, pk, goalEntry)
    requires Trail(x, closed, goalEntry, rev, idxs, idx, cur) && cur.parent.None?
    ensures RevPath(x.ns, x.start.id, x.goalId, rev)
    ensures rev == [] <==> |closed| == 0
  {
    forall j | 0 <= j < |rev|
      ensures rev[j].id != x.goalId
    {
      assert closed[idxs[j]].id != x.goalId;
    }
  }

  /** The parent walk from the popped goal entry. Each parent is looked up
      in the closed list by id and recorded; the record is reversed. */
  method ReconstructPath(goalEntry: AStarNode, closed: seq<AStarNode>,
                         ghost x: Context, ghost cp: seq<nat>, ghost cc: seq<nat>, ghost pm: nat, ghost pk: nat)
    returns (path: seq<PathNode>)
    requires ContextOk(x) && ClosedShape(x, closed, cp, cc) && goalEntry.id == x.goalId
    requires |closed| == 0 ==> goalEntry == x.start
    requires |closed| > 0 ==> ChildAt(x, closed, pm, pk, goalEntry)
    ensures ValidPath(x.ns, x.start.id, x.goalId, path)
    ensures path == [] <==> |closed| == 0
  {
    var rev: seq<PathNode> := [];
    var currentNode := goalEntry;
    ghost var idx: nat := |closed|;
    ghost var idxs: seq<nat> := [];
    while currentNode.parent.Some?
      invariant Trail(x, closed, goalEntry, rev, idxs, idx, currentNode)
      decreases idx
    {
      var parentId := currentNode.parent.value;
      ghost var p := TrailStep(x, closed, cp, cc, pm, pk, goalEntry, rev, idxs, idx, currentNode);
      var k := FindClosed(closed, parentId);
      assert k == p;
      rev := rev + [PathNode(parentId, closed[k].position)];
      idxs := idxs + [k];
      currentNode := closed[k];
      idx := k;
    }
    TrailEnd(x, closed, cp, cc, pm, pk, goalEntry, rev, idxs, idx, currentNode);
    ReversedValid(x.ns, x.start.id, x.goalId, rev);
    path := Reversed(rev);
  }

  /** Closing a popped entry that is neither closed nor the goal and
      pushing its children keeps the invariant and closes a new id. */
  lemma CloseStep(x: Context, closed: seq<AStarNode>, cp: seq<nat>, cc: seq<nat>, closedIds: set<nat>,
                  open: seq<AStarNode>, op: seq<nat>, oc: seq<nat>, i: nat)
    requires SearchInv(x, closed, cp, cc, closedIds, open, op, oc)
    requires i < |open| && !InClosed(closed, open[i].id) && open[i].id != x.goalId
    ensures Expandable(x, open[i])
    ensures var e := open[i]; var n := |e.connections|;
      SearchInv(x, closed + [e], cp + [op[i]], cc + [oc[i]], closedIds + {e.id},
                Remove(open, i) + Children(x, e), Remove(op, i) + Repeat(n, |closed|), Remove(oc, i) + Upto(n))
    ensures |Universe(x) - (closedIds + {open[i].id})| < |Universe(x) - closedIds|
  {
    var e := open[i];
    OpenExpandable(x, closed, cp, cc, closedIds, open, op, oc, i);
    CloseShape(x, closed, cp, cc, e, op[i], oc[i]);
    CloseIds(x, closed, closedIds, e, op[i], oc[i]);
    CloseOpen(x, closed, open, op, oc, i);
    CloseFrontier(x, closed, closedIds, open, i);
    var u := Universe(x);
    assert u - (closedIds + {e.id}) == (u - closedIds) - {e.id};
  }

  /** The goal is popped with nothing closed exactly when the start node is
      the goal node. */
  lemma GoalPopped(x: Context, closed: seq<AStarNode>, cp: seq<nat>, cc: seq<nat>, closedIds: set<nat>,
                   open: seq<AStarNode>, op: seq<nat>, oc: seq<nat>, i: nat)
    requires SearchInv(x, closed, cp, cc, closedIds, open, op, oc)
    requires i < |open| && open[i].id == x.goalId
    ensures |closed| == 0 <==> x.start.id == x.goalId
    ensures |closed| == 0 ==> open[i] == x.start
    ensures |closed| > 0 ==> ChildAt(x, closed, op[i], oc[i], open[i])
  {
    OpenExpandable(x, closed, cp, cc, closedIds, open, op, oc, i);
  }

  // ---------------------------------------------------------------------
  // find_path.

  /** The index of the entry `BinaryHeap::pop` returns: the caller learns
      only that it is a greatest entry, so any of several equally cheap
      entries may be the one. */
  method PeekTop(open: seq<AStarNode>) returns (i: nat)
    requires |open| > 0
    ensures IsTop(open, i)
  {
    i := Cheapest(open, |open|);
    TopIsCheapest(open, i);
  }

  /** The loop over the connections of a newly closed entry: one child is
      pushed per connection, in order. */
  method PushChildren(pf: Pathfinding, goalId: nat, currentNode: AStarNode, num: Numerics,
                      openList: seq<AStarNode>, ghost x: Context)
    returns (open: seq<AStarNode>)
    requires x.ns == pf.nodes && x.goalId == goalId && x.goalPosition == pf.goalPosition && x.num == num
    requires Expandable(x, currentNode)
    ensures open == openList + Children(x, currentNode)
  {
    open := openList;
    for k := 0 to |currentNode.connections|
      invariant |open| == |openList| + k && open[..|openList|] == openList
      invariant forall j :: 0 <= j < k ==> open[|openList| + j] == Child(x, currentNode, currentNode.connections[j])
    {
      var connection := currentNode.connections[k];
      var connectedGraphNode := pf.nodes[connection.nodeId];
      var newNode := NewNode(connectedGraphNode);
      if newNode.id != goalId {
        newNode := newNode.(gCost := connection.dist + currentNode.gCost);
        newNode := newNode.(hCost := num.length(Sub(pf.goalPosition, newNode.position)));
      }
      newNode := newNode.(parent := Some(currentNode.id));
      open := open + [newNode];
    }
  }

  /** find_path. Without a goal node there is no search. Otherwise a
      returned path is valid, empty exactly when the start node is the
      goal node, and when ids are indices no path is returned only if no
      walk leads from the start node to the goal node. */
  method FindPath(pf: Pathfinding, startPosition: Vec2, num: Numerics) returns (r: Option<seq<PathNode>>)
    requires TargetsInRange(pf.nodes)
    ensures pf.goalGraphNode.None? ==> r == None
    ensures r.Some? ==>
      pf.goalGraphNode.Some? &&
      var startId := StartNode(pf.nodes, startPosition, pf.goalPosition, num).id;
      && ValidPath(pf.nodes, startId, pf.goalGraphNode.value.id, r.value)
      && (r.value == [] <==> startId == pf.goalGraphNode.value.id)
    ensures r.None? && pf.goalGraphNode.Some? && IdsAreIndices(pf.nodes) ==>
      Unreachable(pf.nodes, StartNode(pf.nodes, startPosition, pf.goalPosition, num).id, pf.goalGraphNode.value.id)
  {
    if pf.goalGraphNode.None? {
      return None;
    }
    var goalNode := pf.goalGraphNode.value;
    var openList: seq<AStarNode> := [];
    var closedList: seq<AStarNode> := [];
    var startNode := GetStartNode(pf, startPosition, num);
    openList := openList + [startNode];

    ghost var x := Context(pf.nodes, goalNode.id, pf.goalPosition, num, startNode);
    StartSourced(pf.nodes, startPosition, pf.goalPosition, num);
    InitInv(x);
    ghost var cp: seq<nat>, cc: seq<nat>, op: seq<nat>, oc: seq<nat> := [], [], [0], [0];
    ghost var closedIds: set<nat> := {};
    while true
      invariant SearchInv(x, closedList, cp, cc, closedIds, openList, op, oc)
      decreases |Universe(x) - closedIds|, |openList|
    {
      if |openList| == 0 {
        if IdsAreIndices(pf.nodes) {
          OpenEmptyUnreachable(x, closedList, cp, cc, closedIds);
        }
        return None;
      }

      var i := PeekTop(openList);
      var currentNode := openList[i];
      ghost var open0, op0, oc0 := openList, op, oc;
      openList := Remove(openList, i);
      op, oc := Remove(op, i), Remove(oc, i);

      if currentNode.id == goalNode.id {
        GoalPopped(x, closedList, cp, cc, closedIds, open0, op0, oc0, i);
        var path := ReconstructPath(currentNode, closedList, x, cp, cc, op0[i], oc0[i]);
        return Some(path);
      }

      if InClosed(closedList, currentNode.id) {
        SkipStep(x, closedList, cp, cc, closedIds, open0, op0, oc0, i);
        continue;
      }

      CloseStep(x, closedList, cp, cc, closedIds, open0, op0, oc0, i);
      ghost var n := |currentNode.connections|;
      op, oc := op + Repeat(n, |closedList|), oc + Upto(n);
      cp, cc := cp + [op0[i]], cc + [oc0[i]];
      closedIds := closedIds + {currentNode.id};
      closedList := closedList + [currentNode];

      openList := PushChildren(pf, goalNode.id, currentNode, num, openList, x);
    }
  }
}
