/** Fourth stage of graph construction: after duplicates are removed, ids
    and connection targets are rewritten to array indices
    (make_node_ids_indices). */
module Renumber {
  import opened Geometry
  import opened Graph

  /** The index of the first node whose id is `id` (`position` on the copy). */
  function FirstIndexOf(ns: seq<GraphNode>, id: nat): (k: nat)
    requires HasId(ns, id)
    ensures k < |ns| && ns[k].id == id
    ensures forall m :: 0 <= m < k ==> ns[m].id != id
  {
    if ns[0].id == id then 0
    else
      assert HasId(ns[1..], id) by {
        var w :| 0 <= w < |ns| && ns[w].id == id;
        assert ns[1..][w - 1].id == id;
      }
      1 + FirstIndexOf(ns[1..], id)
  }

  /** A connection re-pointed at the index of the node it named. */
  function Reindex(copy: seq<GraphNode>, e: Connection): Connection
    requires HasId(copy, e.nodeId)
  {
    e.(nodeId := FirstIndexOf(copy, e.nodeId))
  }

  /** Node `k` of the result: id `k`, connections re-pointed at indices. */
  function RenumberNode(copy: seq<GraphNode>, k: nat): GraphNode
    requires k < |copy| && WalkableNamesIds(copy)
  {
    var w := copy[k].walkable;
    copy[k].(id := k, walkable := seq(|w|, c requires 0 <= c < |w| => Reindex(copy, w[c])))
  }

  function Renumber(ns: seq<GraphNode>): (r: seq<GraphNode>)
    requires WalkableNamesIds(ns)
    ensures |r| == |ns|
  {
    seq(|ns|, k requires 0 <= k < |ns| => RenumberNode(ns, k))
  }

  /** Afterwards every id is its index and every connection names an index. */
  lemma RenumberIndexes(ns: seq<GraphNode>)
    requires WalkableNamesIds(ns)
    ensures IdsAreIndices(Renumber(ns)) && WalkableInRange(Renumber(ns))
  {
    var r := Renumber(ns);
    forall a, c | 0 <= a < |r| && 0 <= c < |r[a].walkable|
      ensures r[a].walkable[c].nodeId < |r|
    {
      assert r[a] == RenumberNode(ns, a);
    }
  }

  /** Every connection keeps its node: the index it gets is that of a node
      whose id it named (the only one when ids are distinct), and its
      length, kind and effort do not change. Nothing but ids and targets
      changes. */
  lemma RenumberKeepsTargets(ns: seq<GraphNode>, a: nat, c: nat)
    requires WalkableNamesIds(ns)
    requires a < |ns| && c < |ns[a].walkable|
    ensures var e := ns[a].walkable[c]; var f := Renumber(ns)[a].walkable[c];
      && f.nodeId < |ns| && ns[f.nodeId].id == e.nodeId
      && f.dist == e.dist && f.kind == e.kind && f.effort == e.effort
    ensures Renumber(ns)[a] == ns[a].(id := a, walkable := Renumber(ns)[a].walkable)
    ensures |Renumber(ns)[a].walkable| == |ns[a].walkable|
  {
    var r := Renumber(ns);
    assert r[a] == RenumberNode(ns, a);
  }

  /** With distinct ids, walking symmetric by id becomes walking symmetric
      by index: each connection's partner is at the index its target
      becomes, and points back at the index of the connection's node. */
  lemma RenumberSymmetric(ns: seq<GraphNode>)
    requires WalkableNamesIds(ns) && DistinctIds(ns) && WalkableSymmetricById(ns)
    ensures WalkableSymmetric(Renumber(ns))
  {
    var r := Renumber(ns);
    RenumberIndexes(ns);
    forall a, c | 0 <= a < |r| && 0 <= c < |r[a].walkable|
      ensures var f := r[a].walkable[c];
        f.kind == Walkable && f.effort == 0.0 && HasWalkableTo(r[f.nodeId].walkable, a, f.dist)
    {
      RenumberKeepsTargets(ns, a, c);
      var b := r[a].walkable[c].nodeId;
      var c2 := PartnerAt(ns, a, c, b);
      RenumberPartner(ns, a, c, b, c2);
    }
  }

  /** Connection `c` of node `a`, whose partner in the original is
      connection `c2` of node `b`, has that partner after renumbering. */
  lemma RenumberPartner(ns: seq<GraphNode>, a: nat, c: nat, b: nat, c2: nat)
    requires WalkableNamesIds(ns) && DistinctIds(ns)
    requires a < |ns| && c < |ns[a].walkable| && b < |ns| && c2 < |ns[b].walkable|
    requires ns[b].id == ns[a].walkable[c].nodeId
    requires ns[b].walkable[c2] == Connection(ns[a].id, ns[a].walkable[c].dist, Walkable, 0.0)
    ensures var f := Renumber(ns)[a].walkable[c];
      && f.nodeId == b && c2 < |Renumber(ns)[b].walkable|
      && Renumber(ns)[b].walkable[c2] == Connection(a, f.dist, Walkable, 0.0)
  {
    RenumberKeepsTargets(ns, a, c);
    RenumberKeepsTargets(ns, b, c2);
    var g := Renumber(ns)[b].walkable[c2];
    assert ns[g.nodeId].id == ns[a].id;
  }

  /** Once ids are indices, renumbering changes nothing. */
  lemma RenumberNoop(ns: seq<GraphNode>)
    requires IdsAreIndices(ns) && WalkableInRange(ns)
    ensures WalkableNamesIds(ns) && Renumber(ns) == ns
  {
    forall a, c | 0 <= a < |ns| && 0 <= c < |ns[a].walkable|
      ensures HasId(ns, ns[a].walkable[c].nodeId)
    {
      var t := ns[a].walkable[c].nodeId;
      assert ns[t].id == t;
    }
    var r := Renumber(ns);
    forall k | 0 <= k < |ns|
      ensures r[k] == ns[k]
    {
      var w := ns[k].walkable;
      assert r[k] == RenumberNode(ns, k);
      forall c | 0 <= c < |w|
        ensures Reindex(ns, w[c]) == w[c]
      {
        assert ns[w[c].nodeId].id == w[c].nodeId;
      }
      assert r[k].walkable == w;
    }
  }

  /** make_node_ids_indices: a copy of the array is taken; every node's id
      becomes its index and every connection is re-pointed at the index of
      the first node of the copy with the id it named. */
  method MakeNodeIdsIndices(pf: Pathfinding)
    requires WalkableNamesIds(pf.nodes)
    modifies pf`nodes
    ensures pf.nodes == Renumber(old(pf.nodes))
  {
    var copy := pf.nodes;
    for nodeIndex := 0 to |pf.nodes|
      invariant |pf.nodes| == |copy|
      invariant forall m :: 0 <= m < nodeIndex ==> pf.nodes[m] == RenumberNode(copy, m)
      invariant forall m :: nodeIndex <= m < |copy| ==> pf.nodes[m] == copy[m]
    {
      pf.nodes := pf.nodes[nodeIndex := pf.nodes[nodeIndex].(id := nodeIndex)];
      var walkable := ReindexConnections(copy, nodeIndex);
      pf.nodes := pf.nodes[nodeIndex := pf.nodes[nodeIndex].(walkable := walkable)];
    }
  }

  /** The inner loop over the connections of node `nodeIndex`. */
  method ReindexConnections(copy: seq<GraphNode>, nodeIndex: nat) returns (walkable: seq<Connection>)
    requires nodeIndex < |copy| && WalkableNamesIds(copy)
    ensures walkable == RenumberNode(copy, nodeIndex).walkable
  {
    var w := copy[nodeIndex].walkable;
    walkable := w;
    for connectionIndex := 0 to |walkable|
      invariant |walkable| == |w|
      invariant forall c :: 0 <= c < connectionIndex ==> walkable[c] == Reindex(copy, w[c])
      invariant forall c :: connectionIndex <= c < |walkable| ==> walkable[c] == w[c]
    {
      assert HasId(copy, w[connectionIndex].nodeId);
      var connectedNodeId := FindIndex(copy, walkable[connectionIndex].nodeId);
      walkable := walkable[connectionIndex := walkable[connectionIndex].(nodeId := connectedNodeId)];
    }
  }

  /** `iter().find(..).unwrap()` followed by `iter().position(..).unwrap()`:
      the first node with the id, then the first index with that node's id. */
  method FindIndex(copy: seq<GraphNode>, id: nat) returns (k: nat)
    requires HasId(copy, id)
    ensures k == FirstIndexOf(copy, id)
  {
    ghost var first := FirstIndexOf(copy, id);
    k := 0;
    while copy[k].id != id
      invariant k <= first
      invariant forall m :: 0 <= m < k ==> copy[m].id != id
      decreases first - k
    {
      k := k + 1;
    }
  }
}
