# Platformer AI: navigation graph, A* search and path-following agent

This project is a Dafny model of the core of a small Bevy game. In the game, an
AI agent finds its way around a level made of polygons. The model covers four parts.

- **The navigation graph** (`src/ai/pathfinding.rs`). The graph is built by a
  fixed pipeline over one array of nodes. The stages are:
  1. place nodes along the floor edges of the level polygons;
  2. mirror every walkable connection;
  3. merge nodes closer than the duplicate tolerance;
  4. renumber ids to array indices;
  5. add jumpable connections between polygons;
  6. compute node normals;
  7. classify corners.

  Each stage is a method that rewrites `Pathfinding.nodes` in place. It is
  proved equal to a specification function on the old array. The lemmas
  about that function state what the stage promises.
- **The A\* search** (`src/ai/a_star.rs`). The start node is chosen by a
  running-minimum scan with a tie rule. The open list is a heap that pops a
  cheapest entry (any one of several equally cheap entries). Entries already
  closed are skipped lazily. The goal sentinel has zero costs. The path is
  rebuilt through parent links. `FindPath` is proved to return a valid path:
  it starts at the start node, every step follows a connection, it ends next
  to the goal, and no node repeats. When it returns no path and ids are
  indices, the goal is unreachable.
- **The agent** (`src/ai/platformer_ai.rs`). Every tick the agent takes a
  path-following decision from the first two path nodes: a strategy, a move
  direction, and the jump data. Its physics record is then updated:
  steering acceleration, gravity toward the surface it touches, the jump, and
  explicit Euler integration.
- **The goal tracker** (`src/main.rs`). The arrow keys move the goal point.
  A running-minimum scan picks the node nearest to it. The Space key turns
  goal tracking on and off.

Coordinates are pairs of reals. Squared lengths, dot products and the jump
discriminant are exact polynomials. The floating-point operations the model
does not interpret are fields of the `Geometry.Numerics` record, which every
member that needs one takes as a parameter:

- length, normalisation, rounding up;
- segment intersection;
- the ballistic launch speed and velocity;
- the sampled capsule sweep.

So every contract holds for any choice of these functions.

Modules and files:

| file | module | models |
|---|---|---|
| Geometry.dfy | Geometry | `Vec2`, the game's constants, the uninterpreted numerics |
| Graph.dfy | Graph | connections, graph nodes, polygons, the `Pathfinding` resource, graph invariants |
| Placement.dfy | Placement | `place_nodes` |
| WalkableLinks.dfy | WalkableLinks | `make_walkable_connections_2_way` |
| Dedup.dfy | Dedup | `remove_duplicate_nodes` |
| Renumber.dfy | Renumber | `make_node_ids_indices` |
| JumpLinks.dfy | JumpLinks | `make_jumpable_connections`, `jumpability_check` |
| Corners.dfy | Corners | `calculate_normals`, `setup_corners` |
| GraphInit.dfy | GraphInit | `init_pathfinding_graph`: the seven stages in order |
| AStar.dfy | AStar | `find_path`, `get_start_node`, `AStarNode`, its order, `PathNode` |
| Game.dfy | Game | the `Physics` record, the transform, `s_move_goal_point`, the Space toggle |
| AgentAI.dfy | AgentAI | `get_move_inputs`, `agent_on_other_side_next_frame`, the per-tick update |

## Model

| member | source | states |
|---|---|---|
| Graph.Pathfinding.constructor | src/ai/pathfinding.rs:71-77 | The resource starts with no nodes, no goal node, the goal point at the origin, and tracking off. |
| Placement.SeenIsOddContainerCount | src/ai/pathfinding.rs:80-87 | After n polygons, the `outer_container_seen` flag is set exactly when an odd number of containers has been seen. |
| Placement.SkippedIffOddContainer | src/ai/pathfinding.rs:83-91 | A polygon is skipped exactly when it is a container and is the 1st, 3rd, 5th, ... container. A non-container is never skipped. |
| Placement.EdgeRunShape | src/ai/pathfinding.rs:93-155 | A floor edge (unit direction with x > -0.1) gives exactly count + 1 nodes, where count is the edge length over 20 rounded up; any other edge gives none. Node j has id base + j and the edge's polygon and line index. It lies at sample j, or at the edge's end if it is the last. It has no walkable connection exactly when j = 0; otherwise it has exactly one, to node base + j - 1, of the edge's spacing, Walkable, effort 0. |
| Placement.EdgeRunLinks | src/ai/pathfinding.rs:107-154 | An edge's run has ids counting up from base and lies on that edge. Only its first node lacks a walkable connection. |
| Placement.PlacedStep | src/ai/pathfinding.rs:83-157 | The nodes placed for n polygons are those for n - 1 followed by polygon n - 1's part, numbered from where the earlier ones end. |
| Placement.PolygonPartRuns | src/ai/pathfinding.rs:89-156 | A polygon that is not skipped contributes the runs of all its edges. |
| Placement.PolygonRunsStep | src/ai/pathfinding.rs:93-156 | The runs of a polygon's first n edges are those of its first n - 1 edges followed by the run of edge n - 1. |
| Placement.PolygonRunsShape | src/ai/pathfinding.rs:93-156 | The runs of a polygon's first n edges have ids counting up, and every node lies on one of those edges of that polygon. A node has no walkable connection exactly when it starts a run: it is the first node, or the node before it lies on another edge. |
| Placement.EdgeRunShaped | src/ai/pathfinding.rs:93-156 | Appending the run of edge l to runs shaped as those of the edges before it gives runs shaped as those of the first l + 1 edges. |
| Placement.PolygonPartShape | src/ai/pathfinding.rs:83-156 | A polygon's part has that shape over all its edges. It is empty when the polygon is skipped. |
| Placement.PlacedRunsShape | src/ai/pathfinding.rs:79-158 | Everything place_nodes appends has ids counting up from the starting node count, and every node lies on a polygon of the level. A node has no walkable connection exactly when it is the first of its edge's run. |
| Placement.PlacedShapeStep | src/ai/pathfinding.rs:83-157 | Adding one polygon's part keeps that shape. |
| Placement.PlaceNodes | src/ai/pathfinding.rs:79-158 | The method appends exactly `PlacedAll` and keeps the earlier nodes. For each polygon in order, that is nothing for a skipped container, and otherwise the run of every edge in edge order. `PlacedPlaced` and `PlacedRunsShape` state what those nodes are. |
| Placement.PlacePart | src/ai/pathfinding.rs:84-156 | One pass of the polygon loop, given the toggled flag, appends exactly the polygon's part. That part is empty exactly when the flag and the container test skip the polygon. |
| Placement.PlacePolygon | src/ai/pathfinding.rs:93-156 | The edge loop of a polygon that is not skipped appends exactly the runs of all its edges, in order. |
| Placement.PlaceEdge | src/ai/pathfinding.rs:94-155 | One edge appends exactly its run: count + 1 nodes on a floor edge, none on any other edge. The earlier nodes are kept. |
| Placement.PartAppended | src/ai/pathfinding.rs:83-157 | What the first p polygons placed, followed by polygon p's part, is what the first p + 1 polygons place. |
| Placement.RunAppended | src/ai/pathfinding.rs:93-156 | The runs of the first l - 1 edges, followed by the run of edge l - 1, are the runs of the first l edges. |
| Placement.EdgeRunPlaced | src/ai/pathfinding.rs:107-154 | Appending an edge's run keeps every node from `base` on a placed node. |
| Placement.RunsPlaced | src/ai/pathfinding.rs:93-156 | Appending the runs of a polygon's first n edges keeps every node from `base` on a placed node. |
| Placement.PartPlaced | src/ai/pathfinding.rs:83-156 | Appending one polygon's part keeps every node from `base` on a placed node. |
| Placement.PlacedPlaced | src/ai/pathfinding.rs:79-158 | Every node place_nodes appends satisfies `PlacedNode`. Its id is its index, and it has one line index and no jump, normal or corner data. It lies on a processed edge: a floor edge of a polygon that is not skipped. It sits at a sample point or at the edge's end. It has either no walkable connection, or exactly one, to the node pushed just before it on the same edge, with the edge's spacing as its distance. |
| Runs.RunsAppend | src/ai/pathfinding.rs:93-156 | Appending a well-shaped run of edge n - 1 to the runs of the edges before it keeps the run shape. The run's first node starts a run, because the edge changes. |
| Runs.PolygonsAppend | src/ai/pathfinding.rs:83-157 | Appending a polygon's well-shaped runs to those of the polygons before it keeps the shape. |
| WalkableLinks.PushMirrors | src/ai/pathfinding.rs:167-177 | Mirroring one node's connections keeps the node count. |
| WalkableLinks.PushMirrorsExtends | src/ai/pathfinding.rs:167-177 | The inner loop only appends walkable connections. It changes no other field and keeps every target in range. |
| WalkableLinks.TwoWayUpTo | src/ai/pathfinding.rs:162-178 | After any number of outer iterations, the node count is unchanged and every target is in range. |
| WalkableLinks.TwoWayUpToExtends | src/ai/pathfinding.rs:161-179 | The stage never removes a connection and changes nothing but walkable lists. |
| WalkableLinks.MakeWalkableConnectionsTwoWay | src/ai/pathfinding.rs:161-179 | The method computes `TwoWay` of the old array, in place. |
| WalkableLinks.PushNodeMirrors | src/ai/pathfinding.rs:167-177 | The inner loop computes `PushMirrors`. |
| WalkableLinks.HasWalkableToPrefix | src/ai/pathfinding.rs:169-176 | Appending connections keeps every connection already present. |
| WalkableLinks.PushMirrorsAdds | src/ai/pathfinding.rs:169-176 | For each connection i -> c of length d, c gains the walkable connection c -> i of length d with effort 0. |
| WalkableLinks.PushMirrorsOnlyMirrors | src/ai/pathfinding.rs:169-176 | Every connection the inner loop adds is the mirror of one of the node's connections. |
| WalkableLinks.TwoWayMirrorsEveryConnection | src/ai/pathfinding.rs:161-179 | For every connection i -> c of length d present before the stage, c ends with a walkable connection c -> i of length d. |
| WalkableLinks.MirrorsStep | src/ai/pathfinding.rs:161-179 | One more outer iteration keeps the mirrors of the earlier nodes and adds the mirrors of node n-1. |
| WalkableLinks.MirrorsKept | src/ai/pathfinding.rs:169-176 | The inner loop for node i keeps every mirror already present and adds a mirror for each of node i's original connections, which are a prefix of its current list. |
| WalkableLinks.TwoWayUpToMatched | src/ai/pathfinding.rs:161-179 | Through the outer loop, every connection seen so far is matched by a mirror. |
| WalkableLinks.TwoWayStep | src/ai/pathfinding.rs:162-178 | One outer iteration keeps that matching. |
| WalkableLinks.MatchedUpToStep | src/ai/pathfinding.rs:167-177 | Appending one node's mirrors matches that node's original connections and keeps earlier matches. |
| WalkableLinks.MatchedKept | src/ai/pathfinding.rs:167-177 | A connection that was matched stays matched once more connections are appended. |
| WalkableLinks.MatchedAppended | src/ai/pathfinding.rs:171-176 | An appended mirror is itself matched by the connection it mirrors. |
| WalkableLinks.TwoWaySymmetric | src/ai/pathfinding.rs:161-179 | Starting from Walkable connections with effort 0, the result is symmetric: every walkable connection a -> b of length d has a partner b -> a of length d. |
| Graph.SymmetricById | src/ai/pathfinding.rs:161-179 | Once ids are indices, symmetry by index is symmetry by id: every walkable connection a -> t of length d is matched, at the node whose id is t, by a walkable connection back to a's id of length d. |
| Graph.PartnerAt | src/ai/pathfinding.rs:161-179 | Under symmetry by id, a connection a -> t has its partner at the node whose id is t: a Walkable connection of effort 0 back to a's id, with the same length. |
| Dedup.Positions | src/ai/pathfinding.rs:186-187 | The positions of the nodes, one per node. |
| Dedup.Ids | src/ai/pathfinding.rs:196-197 | The ids of the nodes, one per node. |
| Dedup.Retarget | src/ai/pathfinding.rs:209-215 | Retargeting keeps the connections in order, each with its length, kind and effort, and changes only targets. Afterwards no connection names the removed id unless it is also the survivor's. |
| Dedup.RetargetAll | src/ai/pathfinding.rs:209-215 | Retargeting keeps every node and changes only walkable connections, keeping their number. Afterwards no walkable connection names the removed id unless it is also the survivor's. |
| Dedup.Merge | src/ai/pathfinding.rs:189-215 | A merge shortens the array by exactly one. |
| Dedup.MergeFields | src/ai/pathfinding.rs:189-215 | When j is merged into i, node i keeps its id, position and polygon. It gains j's walkable connections and only the first of j's line indices. Every connection to j's id is retargeted to i's id. Later nodes shift down by one. |
| Dedup.MergePositions | src/ai/pathfinding.rs:205 | A merge removes exactly j's position and keeps the order of the others. |
| Dedup.MergeIds | src/ai/pathfinding.rs:205 | A merge removes exactly j's id and keeps the order of the others. |
| Dedup.MergeOnSomeEdge | src/ai/pathfinding.rs:199-205 | Every node still lies on some edge after a merge. |
| Dedup.DedupInner | src/ai/pathfinding.rs:184-218 | The inner loop never shortens the array below i + 1 and keeps every node on some edge. |
| Dedup.DedupOuter | src/ai/pathfinding.rs:182-223 | The outer loop never lengthens the array and keeps every node on some edge. |
| Dedup.SeparatedIsSepBefore | src/ai/pathfinding.rs:186-188 | Pairwise separation is the same as separation of every node from all later ones. |
| Dedup.InnerSeparates | src/ai/pathfinding.rs:184-218 | After the inner loop for i, node i is no duplicate of any later node. |
| Dedup.OuterSeparates | src/ai/pathfinding.rs:182-223 | After the outer loop, no two nodes are duplicates. |
| Dedup.DedupSeparated | src/ai/pathfinding.rs:182-223 | After the stage, no two nodes are within squared distance 1.0 of each other. |
| Dedup.InnerNoop | src/ai/pathfinding.rs:184-218 | On a separated array, the inner loop changes nothing. |
| Dedup.OuterNoop | src/ai/pathfinding.rs:182-223 | On a separated array, the outer loop changes nothing. |
| Dedup.DedupNoop | src/ai/pathfinding.rs:182-223 | A separated array is left unchanged. |
| Dedup.DedupIdempotent | src/ai/pathfinding.rs:182-223 | Running the stage twice gives the same array as running it once. |
| Dedup.InnerPrefix | src/ai/pathfinding.rs:184-218 | The inner loop keeps the first j positions. |
| Dedup.OuterPrefix | src/ai/pathfinding.rs:182-223 | The outer loop keeps the positions before i. |
| Dedup.MergeDrawn | src/ai/pathfinding.rs:189-215 | Every position after a merge was a position before it. |
| Dedup.InnerDrawn | src/ai/pathfinding.rs:184-218 | Every position after the inner loop was a position before it. |
| Dedup.OuterDrawn | src/ai/pathfinding.rs:182-223 | Every position after the outer loop was a position before it. |
| Dedup.InnerCovers | src/ai/pathfinding.rs:184-218 | After the inner loop, every old position is kept or lies within the tolerance of node i. |
| Dedup.CoveredBySelf | src/ai/pathfinding.rs:186-188 | Every position is within the tolerance of itself. |
| Dedup.CoverStep | src/ai/pathfinding.rs:182-223 | Coverage composes across iterations. |
| Dedup.OuterCovers | src/ai/pathfinding.rs:182-223 | Every old position lies within the tolerance of some surviving node. |
| Dedup.DedupCovers | src/ai/pathfinding.rs:182-223 | The survivors are drawn from the old positions, and every old position is within the tolerance of a survivor. |
| Dedup.MergeDistinct | src/ai/pathfinding.rs:189-215 | A merge keeps ids distinct. |
| Dedup.MergeNamesIds | src/ai/pathfinding.rs:189-215 | After a merge, every walkable target is still the id of some node: a connection that named the removed node now names the survivor. |
| Dedup.MergeDropsId | src/ai/pathfinding.rs:205-215 | With distinct ids, the removed id is gone after a merge: no node carries it and no walkable connection names it. |
| Dedup.InnerIds | src/ai/pathfinding.rs:184-218 | The inner loop keeps ids distinct and every target an existing id. |
| Dedup.OuterIds | src/ai/pathfinding.rs:182-223 | The outer loop keeps ids distinct and every target an existing id. |
| Dedup.DedupIds | src/ai/pathfinding.rs:182-223 | After the stage, ids are distinct and every walkable connection names an existing id. |
| Dedup.KeptSelf | src/ai/pathfinding.rs:182-223 | An array is a subsequence of itself. |
| Dedup.MergeKeeps | src/ai/pathfinding.rs:205 | A merge leaves every other node in order, changed only in connections and line indices. |
| Dedup.KeptCompose | src/ai/pathfinding.rs:182-223 | Keeping order composes across merges. |
| Dedup.InnerOrder | src/ai/pathfinding.rs:184-218 | The inner loop keeps the surviving nodes in order. |
| Dedup.OuterOrder | src/ai/pathfinding.rs:182-223 | The outer loop keeps the surviving nodes in order. |
| Dedup.DedupKeepsOrder | src/ai/pathfinding.rs:182-223 | Every surviving node is an original node, with its id, position, polygon, jump data, normal and corner flags. Only its walkable connections and line indices may differ. Survivors keep their relative order. |
| Dedup.MergeLines | src/ai/pathfinding.rs:199-205 | When nodes of different polygons are never duplicates, a merge joins two nodes of one polygon. The absorbed line index is then an edge of the survivor's polygon. |
| Dedup.InnerLines | src/ai/pathfinding.rs:184-218 | The inner loop keeps every line index an edge of its node's polygon. |
| Dedup.OuterLines | src/ai/pathfinding.rs:182-223 | The outer loop keeps every line index an edge of its node's polygon. |
| Dedup.DedupLines | src/ai/pathfinding.rs:182-223 | When nodes of different polygons are never duplicates, every line index after the stage names an edge of its node's polygon. |
| Dedup.MergeHasId | src/ai/pathfinding.rs:209-215 | After a merge, an id still names a node, or is replaced by the survivor's id if it was the removed node's. |
| Dedup.MergeDest | src/ai/pathfinding.rs:189-215 | With distinct ids, each original node lands at its new index (the survivor's for the removed node) with its id renamed. |
| Dedup.MergeCarries | src/ai/pathfinding.rs:199-215 | A walkable connection of a node is still at that node's new index after a merge, aimed at its target's renamed id, with the same length. |
| Dedup.MergeSource | src/ai/pathfinding.rs:199-215 | Every connection after a merge is an original connection of a node that lands there, retargeted. |
| Dedup.MergePartner | src/ai/pathfinding.rs:189-215 | A connection after a merge has its partner back at the node that carries the id it names. |
| Dedup.MergeSymmetric | src/ai/pathfinding.rs:189-215 | With distinct ids, a merge keeps walking symmetric by id. |
| Dedup.InnerSymmetric | src/ai/pathfinding.rs:184-218 | The inner loop keeps ids distinct and walking symmetric by id. |
| Dedup.OuterSymmetric | src/ai/pathfinding.rs:182-223 | The outer loop keeps ids distinct and walking symmetric by id. |
| Dedup.DedupSymmetric | src/ai/pathfinding.rs:182-223 | With distinct ids, the stage keeps walking symmetric by id: every connection still has its partner, at the survivor. |
| Dedup.RemoveDuplicateNodes | src/ai/pathfinding.rs:182-223 | The nested loops with live removal compute `Dedup` of the old array, in place. |
| Dedup.MergeNodes | src/ai/pathfinding.rs:189-215 | One merge, in place, computes `Merge`. |
| Dedup.RetargetConnections | src/ai/pathfinding.rs:209-215 | The rewrite sweep computes `RetargetAll`. |
| Renumber.FirstIndexOf | src/ai/pathfinding.rs:233-244 | The first index holding a given id. |
| Renumber.Renumber | src/ai/pathfinding.rs:226-250 | Renumbering keeps the node count. |
| Renumber.RenumberIndexes | src/ai/pathfinding.rs:226-250 | Afterwards every id equals its index, and every walkable target is an index. |
| Renumber.RenumberKeepsTargets | src/ai/pathfinding.rs:229-248 | Each connection now targets the index, in the snapshot, of the node whose old id it named. Its distance, kind and effort are unchanged, and so is everything in the node but its id. |
| Renumber.RenumberSymmetric | src/ai/pathfinding.rs:226-250 | With distinct ids and every target an id, symmetry by id becomes symmetry by index: every walkable connection a -> b of length d has a partner b -> a of length d. |
| Renumber.RenumberPartner | src/ai/pathfinding.rs:229-248 | A connection's partner in the original is, after renumbering, a connection back to the connection's own index. |
| Renumber.RenumberNoop | src/ai/pathfinding.rs:226-250 | An array whose ids are already indices is left unchanged. |
| Renumber.MakeNodeIdsIndices | src/ai/pathfinding.rs:226-250 | The loop against the snapshot computes `Renumber` of the old array, in place. It requires every target id to exist, since the game unwraps otherwise. |
| Renumber.ReindexConnections | src/ai/pathfinding.rs:232-248 | The connection loop of one node computes its renumbered connections. |
| Renumber.FindIndex | src/ai/pathfinding.rs:233-244 | The `find`/`position` lookup returns the first index with the id. |
| JumpLinks.WithJumps | src/ai/pathfinding.rs:252-311 | The stage keeps the node count. |
| JumpLinks.JumpListExact | src/ai/pathfinding.rs:253-309 | Node i's jumpable list holds exactly the nodes j, in increasing order, that qualify. A node j qualifies when j ≠ i, it is on a different polygon, no tested edge crosses the sight line, and `jumpability_check` gives `Some(e)`, which is stored as the effort. |
| JumpLinks.WithJumpsFrame | src/ai/pathfinding.rs:252-311 | Only jumpable lists change, and every jumpable target is an index. |
| JumpLinks.JumpabilityCases | src/ai/pathfinding.rs:325-437 | A negative discriminant gives `None`. The result is `Some` exactly when the discriminant is non-negative and the sweep touches no tested edge. |
| JumpLinks.AnyHitAgree | src/ai/pathfinding.rs:271-293 | The obstruction scan depends only on tested edges: the edges either node lies on are never looked at. |
| JumpLinks.JumpabilityIgnoresOwnEdges | src/ai/pathfinding.rs:340-350 | The sweep's answer on the start and goal nodes' own edges has no effect on the result. |
| JumpLinks.HorizontalReach | src/ai/pathfinding.rs:325-331 | On the level, the discriminant is non-negative exactly for horizontal distances up to 128. |
| JumpLinks.SquareBound | src/ai/pathfinding.rs:329 | A helper bound on squares used for the reach lemmas. |
| JumpLinks.VerticalReach | src/ai/pathfinding.rs:325-331 | Straight up, the discriminant is non-negative exactly for heights up to 64. |
| JumpLinks.JumpListFrame | src/ai/pathfinding.rs:253-309 | The lists computed from the array are not affected by jumpable lists written earlier in the same stage. |
| JumpLinks.MakeJumpableConnections | src/ai/pathfinding.rs:252-311 | The method computes `WithJumps` of the old array, in place. |
| JumpLinks.NodeJumps | src/ai/pathfinding.rs:256-307 | The loop over other nodes builds node i's list. |
| JumpLinks.JumpabilityCheck | src/ai/pathfinding.rs:313-438 | The labelled-loop scan with its `jump_possible` flag computes `Jumpability`. |
| JumpLinks.ScanEdges | src/ai/pathfinding.rs:340-430 | The scan over all polygons finds a hit exactly when some tested edge is hit. |
| JumpLinks.ScanPolygon | src/ai/pathfinding.rs:342-429 | The scan over one polygon's edges finds a hit exactly when one of its tested edges is hit. |
| Corners.WithNormals | src/ai/pathfinding.rs:440-457 | Computing normals keeps the node count. |
| Corners.NormalSumAppend | src/ai/pathfinding.rs:446-453 | The summed edge normals of a merged node are the sum over its own edges plus the sum over the edges it absorbed. |
| Corners.WithNormalsFrame | src/ai/pathfinding.rs:455 | Only normals change. |
| Corners.CalculateNormals | src/ai/pathfinding.rs:440-457 | The method computes `WithNormals`, in place. |
| Corners.WithCorners | src/ai/pathfinding.rs:459-479 | Classifying corners keeps the node count. |
| Corners.LineDirProjection | src/ai/pathfinding.rs:467-476 | The dot product of the summed neighbour directions with the normal is the sum of their projections. |
| Corners.CornersSpec | src/ai/pathfinding.rs:459-479 | A node is a corner exactly when it has more than one line index. A corner is external exactly when the projections on its normal of the vectors to its walkable neighbours sum to a negative number. A non-corner keeps its flag. Nothing else changes. |
| Corners.CornerFlagsConsistent | src/ai/pathfinding.rs:459-479 | Starting from no flags, as placement leaves them (lines 119-120), after setup_corners a node has an external flag exactly when it is a corner. |
| Corners.SetupCorners | src/ai/pathfinding.rs:459-479 | The method computes `WithCorners`, in place. |
| Corners.SumLineDir | src/ai/pathfinding.rs:467-473 | The inner loop sums the vectors to the walkable neighbours. |
| GraphInit.GeometryKeepsShape | src/ai/pathfinding.rs:24-40 | A stage that keeps positions, polygons, line indices and corner flags keeps the shape invariant and separation. |
| GraphInit.WalksKeepSymmetry | src/ai/pathfinding.rs:252-311 | A stage that leaves every walkable list as it was keeps walking symmetric. |
| GraphInit.PlacedShape | src/ai/pathfinding.rs:79-158 | Placed nodes lie on one edge of their own polygon and carry no corner flag. Their ids are their indices. Their connections are Walkable with effort 0, and their targets are in range. When samples on processed edges of different polygons are never duplicates, neither are the nodes. |
| GraphInit.AfterTwoWay | src/ai/pathfinding.rs:161-179 | Mirroring keeps the shape. With ids equal to indices, ids are distinct and every target is an id, as the merge stage needs. Walking becomes symmetric by id. |
| GraphInit.AfterDedup | src/ai/pathfinding.rs:182-223 | Merging keeps the shape, leaves no duplicates, keeps ids distinct and every target an id, and keeps walking symmetric by id, as renumbering needs. |
| GraphInit.AfterRenumber | src/ai/pathfinding.rs:226-250 | Renumbering keeps the shape and separation. It makes ids indices, targets in range and walking symmetric by index. |
| GraphInit.AfterJumps | src/ai/pathfinding.rs:252-311 | Adding jumps keeps everything before, including walking symmetry, and puts every jumpable target in range. |
| GraphInit.AfterNormals | src/ai/pathfinding.rs:440-457 | Computing normals keeps everything before, including walking symmetry. |
| GraphInit.AfterCorners | src/ai/pathfinding.rs:459-479 | Classifying corners keeps everything before, including walking symmetry, and sets the flags to match line membership. |
| GraphInit.Built | src/ai/pathfinding.rs:24-40 | The seven stages composed, each on what the one before left, starting from what placement appends to the empty array. The result has: ids equal to indices; every walkable and jumpable target in range; walking symmetric; no two nodes within the duplicate tolerance; every node on at least one edge of its own polygon; and a node flagged a corner, with an external-corner flag, exactly when it lies on more than one edge. |
| GraphInit.InitPathfindingGraph | src/ai/pathfinding.rs:24-40 | Suppose the seven stages start from the empty array, and samples on processed edges of different polygons are never duplicates. Then the node array becomes exactly `Built(level, num)`, which has: ids equal to indices; every walkable and jumpable target in range; walking symmetric (every walkable connection a -> b of length d matched by b -> a of length d, Walkable with effort 0); no two nodes within the duplicate tolerance; every node on at least one edge of its own polygon; and a node flagged a corner, with an external-corner flag, exactly when it lies on more than one edge. |
| AStar.NewNodeSpec | src/ai/a_star.rs:134-151 | A new entry follows exactly the node's walkable then jumpable connections. It has zero costs and no parent. |
| AStar.CompareSpec | src/ai/a_star.rs:158-165 | The order is the reverse of the f-cost order, so the greatest entry is the cheapest. It is total and antisymmetric. |
| AStar.Cheapest | src/ai/a_star.rs:153-165 | A cheapest entry by f = g + h. |
| AStar.TopIsCheapest | src/ai/a_star.rs:29-30 | The heap pops exactly entries of minimum f-cost, and a non-empty heap has one. |
| AStar.StartPick | src/ai/a_star.rs:93-111 | The running choice is a scanned node. |
| AStar.StartPickRule | src/ai/a_star.rs:91-111 | A start node is chosen exactly when there are nodes. The choice has the minimum squared distance to the start position. A later node at equal distance replaces the choice unless its squared distance to the goal exceeds the start position's. |
| AStar.StartRuleUnique | src/ai/a_star.rs:93-111 | The tie rule determines a single node. |
| AStar.GetStartNode | src/ai/a_star.rs:78-119 | The loop computes `StartNode`: the chosen node as a fresh entry whose h-cost is its distance to the goal. The placeholder is used when there are no nodes. |
| AStar.LinkedByIndex | src/ai/a_star.rs:57-58 | Once ids are indices, a is linked to b exactly when node a has a connection naming b. |
| AStar.PathIds | src/ai/a_star.rs:181-184 | The ids of a path, one per step. |
| AStar.ValidPathWalks | src/ai/a_star.rs:33-45 | A returned path followed by the goal is a walk from the start to the goal that visits no node twice. |
| AStar.WalkStaysIn | src/ai/a_star.rs:56-74 | A walk that starts in a set of ids closed under links stays in it. |
| AStar.ClosedSetSeparates | src/ai/a_star.rs:23-27 | A set closed under links that holds the start and not the goal proves the goal unreachable. |
| AStar.ConnectionsInRange | src/ai/a_star.rs:57-58 | Every connection of a node names an index, so `nodes[connection.node_id]` is defined. |
| AStar.SourcedExpandable | src/ai/a_star.rs:57-58 | An entry built from the graph can be expanded without going out of range. |
| AStar.StartSourced | src/ai/a_star.rs:113-118 | The start entry comes from the graph, or is the placeholder of an empty graph, and has no parent. |
| AStar.ChildSpec | src/ai/a_star.rs:59-73 | A pushed entry has the closed node as parent. A goal entry keeps zero g and h. Any other entry gets g = parent g + connection length and h = distance to the goal position. |
| AStar.Children | src/ai/a_star.rs:57-74 | One entry is pushed per connection. |
| AStar.ChildLinked | src/ai/a_star.rs:57-71 | A pushed entry is linked from its parent, which is a node of the graph. |
| AStar.Remove | src/ai/a_star.rs:30 | Popping removes one entry and keeps the rest. |
| AStar.InOpenAfterPop | src/ai/a_star.rs:30 | Popping one entry keeps the other ids in the heap. |
| AStar.InitInv | src/ai/a_star.rs:14-21 | The search invariant holds with the start entry alone in the heap. |
| AStar.OpenExpandable | src/ai/a_star.rs:30 | Every heap entry is the start, or a child of a closed entry, and can be expanded. |
| AStar.SkipStep | src/ai/a_star.rs:48-51 | Skipping an already closed id keeps the invariant. |
| AStar.ChildAtExtend | src/ai/a_star.rs:54 | Closing another entry keeps each child's parent in the closed list. |
| AStar.CloseShape | src/ai/a_star.rs:53-54 | Closing a new non-goal entry keeps the closed list free of repeated ids and of the goal. Each entry's parent stays an earlier closed entry. |
| AStar.CloseIds | src/ai/a_star.rs:53-54 | The set of closed ids follows the list, and a new id is closed. |
| AStar.CloseOpen | src/ai/a_star.rs:53-74 | With its children pushed, every heap entry is still a child of a closed entry. |
| AStar.CloseFrontier | src/ai/a_star.rs:53-74 | Every connection of a closed entry leads to a closed id or one in the heap. |
| AStar.OpenEmptyUnreachable | src/ai/a_star.rs:24-27 | When the heap is empty and ids are indices, no walk leads from the start to the goal. |
| AStar.LinkFromClosed | src/ai/a_star.rs:24-27 | With an empty heap, every link out of a closed node leads to a closed node. |
| AStar.Reversed | src/ai/a_star.rs:43 | `path.reverse()`. |
| AStar.ReversedValid | src/ai/a_star.rs:43 | Reversing the parent walk's record gives a valid path. |
| AStar.FindClosed | src/ai/a_star.rs:38 | The `find(...).unwrap()` lookup returns the first closed entry with the id. |
| AStar.TrailStep | src/ai/a_star.rs:37-41 | The parent is found in the closed list at an earlier index, linked to the current entry, and new to the path. So the walk terminates. |
| AStar.TrailExtend | src/ai/a_star.rs:37-41 | Prepending the parent, found at an earlier closed index and linked to the current entry, gives a path that is still linked step by step and ends at the goal. |
| AStar.TrailEnd | src/ai/a_star.rs:37-43 | The walk ends at the start entry. The record is a valid path read backwards, and it is empty exactly when nothing was closed. |
| AStar.ReconstructPath | src/ai/a_star.rs:34-45 | Reconstruction returns a valid path, empty exactly when the goal was popped before anything was closed. |
| AStar.CloseStep | src/ai/a_star.rs:53-74 | Closing a popped entry and pushing its children keeps the invariant, and the number of unclosed ids drops. |
| AStar.GoalPopped | src/ai/a_star.rs:33-45 | The goal is popped with nothing closed exactly when the start node is the goal node. |
| AStar.PeekTop | src/ai/a_star.rs:30 | `pop` yields an entry of maximal priority. Which of several equally cheap entries it yields is left open. |
| AStar.PushChildren | src/ai/a_star.rs:57-74 | The connection loop pushes one child per connection, in order. |
| AStar.FindPath | src/ai/a_star.rs:7-76 | With no goal node, the result is `None`. A returned path is valid, and empty exactly when the start node is the goal node. When ids are indices, `None` is returned only if no walk leads from the start node to the goal node. |
| Game.Physics.constructor | src/main.rs:94-103 | The spawned physics record: at rest, with the agent radius, ungrounded. |
| Game.Transform.constructor | src/main.rs:93 | The agent spawns at (0, -250). |
| Game.Nearest | src/main.rs:215-225 | The running-minimum scan's choice is a scanned index. |
| Game.NearestIsFirstMinimum | src/main.rs:215-225 | The scan finds a node exactly when there is one. That node is no farther from the goal point than any node and strictly nearer than every node before it, so ties go to the lowest index. |
| Game.NearestUnique | src/main.rs:219-223 | Only one index is a first minimum, so the scan's choice depends on distances alone. |
| Game.ScannedGoal | src/main.rs:213-226 | With nodes, the goal node becomes a first nearest node. Without nodes, it keeps its previous value. |
| Game.ScanGoalNode | src/main.rs:215-225 | The scan loop computes `ScannedGoal`. |
| Game.MoveGoalPoint | src/main.rs:210-227 | The goal point always moves by the input direction times 4. Only while tracking is active is the goal node re-chosen for the new point; otherwise it is untouched. |
| Game.ToggleGoal | src/main.rs:168-187 | Space flips `active`. Turning it off clears the goal node. Turning it on runs the nearest-node scan. |
| AgentAI.PlatformerAI.constructor | src/main.rs:104-108 | The AI component starts with no target and no jump points. |
| AgentAI.Signum | src/ai/platformer_ai.rs:341-345 | The sign is -1 exactly for negative numbers; zero counts as positive. |
| AgentAI.OtherSide | src/ai/platformer_ai.rs:331-348 | The agent is on the other side exactly when this tick's move crosses the node's coordinate (y when vertical, x otherwise) in the direction it moves. A zero velocity component never crosses. |
| AgentAI.SelectStrategy | src/ai/platformer_ai.rs:160-229 | Only three strategies are chosen. A falling agent heads for the next node's offset. Over a jumpable step it does so exactly when it is about to cross the current node or is nearly still. A plain corner sends it to the next node itself, and only a plain corner does. On a flat stretch it heads for the next offset exactly when it is no farther from it than the current offset is. |
| AgentAI.MoveInputsFor | src/ai/platformer_ai.rs:139-270 | With no path, or a path of one node, nothing is produced. Otherwise the move direction is the normalised vector of the chosen strategy. Jump data is produced exactly when the strategy heads for the next node over a jumpable step. It consists of the launch velocity for the step and the two offset points. Without jump data, the jump velocity is zero. |
| AgentAI.JumpDataWhen | src/ai/platformer_ai.rs:176-265 | Jump data is produced exactly on a jumpable step, when the agent is falling, about to cross the current node, or nearly still. |
| AgentAI.FlatStretchAdvances | src/ai/platformer_ai.rs:207-221 | On a flat stretch, an agent standing at the current or the next offset point heads for the next node. |
| AgentAI.ValidPathHeadInGraph | src/ai/platformer_ai.rs:160-174 | Once ids are indices, the first two nodes of any returned path can be looked up by id. |
| AgentAI.GetMoveInputs | src/ai/platformer_ai.rs:132-271 | The path searched from the agent's position is valid: it starts at the start node and ends next to the goal node. Its first two nodes can be looked up. The inputs are the decision `MoveInputsFor` on that path. Without a goal node there is no path and no input. |
| AgentAI.FallingTestsAgree | src/ai/platformer_ai.rs:81 | The decision's falling test (squared normal at most zero) and the movement system's test (exactly zero) agree. |
| AgentAI.FallingTick | src/ai/platformer_ai.rs:81-126 | A falling agent ends the tick with acceleration (0, -G). It does not steer or jump, and it integrates its velocity and position. |
| AgentAI.SteeringTick | src/ai/platformer_ai.rs:273-317 | On a surface and not jumping, the acceleration is (move_dir·3 − velocity)·k + normal·G, with k = 0.4 without a direction and 0.2 with one. Apart from gravity, the gap between the velocity and the wander velocity shrinks by the factor 1 − k. |
| AgentAI.JumpTick | src/ai/platformer_ai.rs:89-126 | A jump that fires replaces the velocity and acceleration, clears grounded and walled, and sets the wall-jump flag only for a wall jump; the ground takes precedence. |
| AgentAI.JumpsFollowJumpableSteps | src/ai/platformer_ai.rs:91-123 | The agent jumps only along a jumpable connection of its path. Its recorded jump points are then the offsets of that connection's ends. |
| AgentAI.ApplyMovementAcceleration | src/ai/platformer_ai.rs:273-302 | While falling the acceleration is zero. Otherwise it is the scaled gap between the wander velocity and the current velocity. |
| AgentAI.ApplyGravityTowardNormal | src/ai/platformer_ai.rs:304-317 | While falling only the vertical acceleration becomes −G. Otherwise gravity is added along the normal. |
| AgentAI.Jump | src/ai/platformer_ai.rs:89-123 | The jump block computes `Jumped` and records the jump points only when it fires. Otherwise nothing changes. |
| AgentAI.UpdatePhysicsAndTransform | src/ai/platformer_ai.rs:319-329 | The velocity gains the acceleration. The previous position becomes the old position, and the position moves by the new velocity. |
| AgentAI.Move | src/ai/platformer_ai.rs:81-126 | One tick for given inputs computes `Tick`. The jump points are recorded exactly when the jump fires. |
| AgentAI.PlatformerAIMovement | src/ai/platformer_ai.rs:58-130 | The per-agent system. It decides, by `MoveInputsFor` on a valid path from the agent's position, and then moves by `Tick`. Without a goal node the agent gets no inputs. A jump that fires records the decision's jump points. |

## Left out

- Floating-point arithmetic. Coordinates are reals. These operations are uninterpreted fields of `Numerics`, and nothing is assumed about them:
  - `length`, `normalize`, `normalize_or_zero`, `ceil`;
  - `utils::line_intersect`;
  - the quartic-root flight time and launch velocity;
  - the ten-step capsule sweep of `jumpability_check`.

  f32 rounding, NaN, infinities and the sign of −0.0 are not modelled.
- The `f32::MAX` starting distance of the nearest-node scans is modelled as "no distance yet". A node whose squared distance is at least `f32::MAX` would not be picked by the game but is picked by the model.
- `Placement.CountsPositive`: placement requires every processed edge (a floor edge of a polygon that is not skipped) to get a count of at least one. The game divides the edge length by that count, and its sample loop counts up from 0 to it, which is not meaningful for a count of zero. A zero-length edge is not a floor edge in the game, since normalising it gives NaN.
- `Game.Physics` and `AgentAI.Body` store `walled` (an `i8` in the game) as an unbounded integer. The model only writes 0 to it, so no wrap-around can arise.
- `level::generate_level_polygons`, the `collisions` module and `utils::line_intersect` are not part of this model. The level is a parameter, and collisions (which set `normal`, `grounded` and `walled`) are outside the tick.
- `GraphInit.InitPathfindingGraph` assumes `FloorsApart`: samples on processed edges of different polygons are never within the duplicate tolerance. Without it, the merge stage can give a node a line index of another polygon. `calculate_normals` would then index the wrong polygon. Whether the game's level meets this depends on `level::generate_level_polygons`, which is not part of this model. The method also starts from the empty array, as the plugin inserts it.
- Bevy plumbing is not modelled:
  - plugin and system registration, queries and resources;
  - gizmo drawing in `s_render` and `get_move_inputs`;
  - `println!`/`dbg!`;
  - keyboard, mouse and window handling in `s_input` other than the Space toggle.

  The transform is reduced to its x and y.
- The droppable connections (a commented-out stage), `src/pathfinding.rs` (an older copy that is not compiled) and `src/ai/platformer.rs` (a superseded plugin) are not part of this model.
- `PartialEq` on `AStarNode` compares ids. The model compares ids directly wherever the game uses it: the closed-list test and the parent lookup.
- `AStar.PeekTop`: the heap's choice among entries of equal f-cost is unspecified in the game. The model leaves it open, so every contract holds for any such choice.
- `AgentAI.GetMoveInputs` and `AgentAI.PlatformerAIMovement` require ids to be indices, because the decision indexes `nodes` by path ids. The graph pipeline establishes this in `make_node_ids_indices`.
