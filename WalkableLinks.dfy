/** Second stage of graph construction: every walkable connection gets a
    mirror in the opposite direction (make_walkable_connections_2_way). */
module WalkableLinks {
  import opened Geometry
  import opened Graph

  /** `r` is `s` with walkable connections appended to some nodes and
      nothing else changed. */
  predicate Extends(s: seq<GraphNode>, r: seq<GraphNode>) {
    && |s| == |r|
    && forall k :: 0 <= k < |s| ==> r[k] == s[k].(walkable := r[k].walkable) && s[k].walkable <= r[k].walkable
  }

  /** The mirror of connection `e` of node `i`, appended to `e`'s target. */
  function Mirror(e: Connection, i: nat): Connection {
    Connection(i, e.dist, Walkable, 0.0)
  }

  /** The inner loop for node `i`: the mirror of each of `conns`, in order,
      appended to the connection list of its target. */
  function PushMirrors(s: seq<GraphNode>, conns: seq<Connection>, i: nat): (r: seq<GraphNode>)
    requires forall p :: 0 <= p < |conns| ==> conns[p].nodeId < |s|
    ensures |r| == |s|
    decreases |conns|
  {
    if conns == [] then s
    else
      var m := PushMirrors(s, conns[..|conns| - 1], i);
      var e := conns[|conns| - 1];
      m[e.nodeId := m[e.nodeId].(walkable := m[e.nodeId].walkable + [Mirror(e, i)])]
  }

  /** The inner loop only appends walkable connections, and the ones it
      appends name node `i`. */
  lemma {:induction false} PushMirrorsExtends(s: seq<GraphNode>, conns: seq<Connection>, i: nat)
    requires forall p :: 0 <= p < |conns| ==> conns[p].nodeId < |s|
    ensures Extends(s, PushMirrors(s, conns, i))
    ensures i < |s| && WalkableInRange(s) ==> WalkableInRange(PushMirrors(s, conns, i))
    decreases |conns|
  {
    if conns != [] {
      var init := conns[..|conns| - 1];
      PushMirrorsExtends(s, init, i);
      var m := PushMirrors(s, init, i);
      var r := PushMirrors(s, conns, i);
      forall k | 0 <= k < |s|
        ensures r[k] == s[k].(walkable := r[k].walkable) && s[k].walkable <= r[k].walkable
      {
        assert m[k] == s[k].(walkable := m[k].walkable) && s[k].walkable <= m[k].walkable;
      }
      if i < |s| && WalkableInRange(s) {
        forall a, c | 0 <= a < |r| && 0 <= c < |r[a].walkable|
          ensures r[a].walkable[c].nodeId < |r|
        {
          if c < |m[a].walkable| {
            assert r[a].walkable[c] == m[a].walkable[c];
          }
        }
      }
    }
  }

  /** The array after the outer loop has handled nodes 0 .. n-1; node `i`'s
      connections are read from the array as it stands when `i` is reached. */
  function TwoWayUpTo(ns: seq<GraphNode>, n: nat): (r: seq<GraphNode>)
    requires n <= |ns| && WalkableInRange(ns)
    ensures |r| == |ns| && WalkableInRange(r)
  {
    if n == 0 then ns
    else
      var s := TwoWayUpTo(ns, n - 1);
      PushMirrorsExtends(s, s[n - 1].walkable, n - 1);
      PushMirrors(s, s[n - 1].walkable, n - 1)
  }

  /** The outer loop only appends walkable connections. */
  lemma {:induction false} TwoWayUpToExtends(ns: seq<GraphNode>, n: nat)
    requires n <= |ns| && WalkableInRange(ns)
    ensures Extends(ns, TwoWayUpTo(ns, n))
  {
    if n > 0 {
      TwoWayUpToExtends(ns, n - 1);
      var s := TwoWayUpTo(ns, n - 1);
      var r := PushMirrors(s, s[n - 1].walkable, n - 1);
      PushMirrorsExtends(s, s[n - 1].walkable, n - 1);
      forall k | 0 <= k < |ns|
        ensures r[k] == ns[k].(walkable := r[k].walkable) && ns[k].walkable <= r[k].walkable
      {
        assert s[k] == ns[k].(walkable := s[k].walkable) && ns[k].walkable <= s[k].walkable;
      }
    }
  }

  function TwoWay(ns: seq<GraphNode>): seq<GraphNode>
    requires WalkableInRange(ns)
  {
    TwoWayUpTo(ns, |ns|)
  }

  /** make_walkable_connections_2_way. */
  method MakeWalkableConnectionsTwoWay(pf: Pathfinding)
    requires WalkableInRange(pf.nodes)
    modifies pf`nodes
    ensures pf.nodes == TwoWay(old(pf.nodes))
  {
    ghost var ns := pf.nodes;
    for nodeIndex := 0 to |pf.nodes|
      invariant pf.nodes == TwoWayUpTo(ns, nodeIndex)
    {
      PushNodeMirrors(pf, nodeIndex);
    }
  }

  /** One pass of the outer loop: a copy of node `nodeIndex` is taken and the
      mirror of each of its walkable connections is pushed to its target. */
  method PushNodeMirrors(pf: Pathfinding, nodeIndex: nat)
    requires nodeIndex < |pf.nodes| && WalkableInRange(pf.nodes)
    modifies pf`nodes
    ensures pf.nodes == PushMirrors(old(pf.nodes), old(pf.nodes)[nodeIndex].walkable, nodeIndex)
  {
    var node := pf.nodes[nodeIndex];
    ghost var s := pf.nodes;
    for c := 0 to |node.walkable|
      invariant pf.nodes == PushMirrors(s, node.walkable[..c], nodeIndex)
    {
      assert node.walkable[..c + 1][..c] == node.walkable[..c];
      var connection := node.walkable[c];
      var target := connection.nodeId;
      pf.nodes := pf.nodes[target := pf.nodes[target].(walkable := pf.nodes[target].walkable
                                                       + [Connection(nodeIndex, connection.dist, Walkable, 0.0)])];
    }
    assert node.walkable[..|node.walkable|] == node.walkable;
  }

  lemma HasWalkableToPrefix(a: seq<Connection>, b: seq<Connection>, t: nat, d: real)
    requires a <= b && HasWalkableTo(a, t, d)
    ensures HasWalkableTo(b, t, d)
  {
    var c :| 0 <= c < |a| && a[c] == Connection(t, d, Walkable, 0.0);
    assert b[c] == a[c];
  }

  /** After the inner loop for node `i`, each of `conns` has its mirror at
      its target. */
  lemma {:induction false} PushMirrorsAdds(s: seq<GraphNode>, conns: seq<Connection>, i: nat)
    requires forall p :: 0 <= p < |conns| ==> conns[p].nodeId < |s|
    ensures forall p :: 0 <= p < |conns| ==>
      HasWalkableTo(PushMirrors(s, conns, i)[conns[p].nodeId].walkable, i, conns[p].dist)
    decreases |conns|
  {
    if conns != [] {
      var init := conns[..|conns| - 1];
      var m := PushMirrors(s, init, i);
      var r := PushMirrors(s, conns, i);
      var e := conns[|conns| - 1];
      PushMirrorsAdds(s, init, i);
      forall p | 0 <= p < |conns|
        ensures HasWalkableTo(r[conns[p].nodeId].walkable, i, conns[p].dist)
      {
        var t := conns[p].nodeId;
        assert m[t].walkable <= r[t].walkable;
        if p < |conns| - 1 {
          assert conns[p] == init[p];
          HasWalkableToPrefix(m[t].walkable, r[t].walkable, i, conns[p].dist);
        } else {
          var w := r[t].walkable;
          assert w[|w| - 1] == Mirror(e, i);
        }
      }
    }
  }

  /** Everything the inner loop for node `i` appends to node `a` is the
      mirror of one of `conns` that leads to `a`. */
  lemma {:induction false} PushMirrorsOnlyMirrors(s: seq<GraphNode>, conns: seq<Connection>, i: nat, a: nat, q: nat)
    requires forall p :: 0 <= p < |conns| ==> conns[p].nodeId < |s|
    requires a < |s| && |s[a].walkable| <= q < |PushMirrors(s, conns, i)[a].walkable|
    ensures exists p :: 0 <= p < |conns| && conns[p].nodeId == a
                        && PushMirrors(s, conns, i)[a].walkable[q] == Mirror(conns[p], i)
    decreases |conns|
  {
    var init := conns[..|conns| - 1];
    var m := PushMirrors(s, init, i);
    var e := conns[|conns| - 1];
    if q < |m[a].walkable| {
      PushMirrorsOnlyMirrors(s, init, i, a, q);
      var p :| 0 <= p < |init| && init[p].nodeId == a && m[a].walkable[q] == Mirror(init[p], i);
      assert conns[p] == init[p];
    } else {
      assert e.nodeId == a;
    }
  }

  /** Every connection present before the call has its mirror afterwards:
      for i -> c of length d, c gains c -> i of length d. */
  lemma {:induction false} TwoWayMirrorsEveryConnection(ns: seq<GraphNode>, n: nat)
    requires n <= |ns| && WalkableInRange(ns)
    ensures forall i, p :: 0 <= i < n && 0 <= p < |ns[i].walkable| ==>
      HasWalkableTo(TwoWayUpTo(ns, n)[ns[i].walkable[p].nodeId].walkable, i, ns[i].walkable[p].dist)
  {
    if n > 0 {
      TwoWayMirrorsEveryConnection(ns, n - 1);
      MirrorsStep(ns, n);
    }
  }

  /** One outer iteration keeps the mirrors of the nodes before it and
      adds those of node n-1. */
  lemma MirrorsStep(ns: seq<GraphNode>, n: nat)
    requires 0 < n <= |ns| && WalkableInRange(ns)
    requires forall i, p :: 0 <= i < n - 1 && 0 <= p < |ns[i].walkable| ==>
      HasWalkableTo(TwoWayUpTo(ns, n - 1)[ns[i].walkable[p].nodeId].walkable, i, ns[i].walkable[p].dist)
    ensures forall i, p :: 0 <= i < n && 0 <= p < |ns[i].walkable| ==>
      HasWalkableTo(TwoWayUpTo(ns, n)[ns[i].walkable[p].nodeId].walkable, i, ns[i].walkable[p].dist)
  {
    var s := TwoWayUpTo(ns, n - 1);
    TwoWayUpToExtends(ns, n - 1);
    MirrorsKept(ns, s, n - 1);
    assert TwoWayUpTo(ns, n) == PushMirrors(s, s[n - 1].walkable, n - 1);
  }

  /** The inner loop for node `i0` keeps the mirrors already in `s` and,
      since node `i0`'s original connections are a prefix of its list in
      `s`, adds a mirror for each of them. */
  lemma MirrorsKept(ns: seq<GraphNode>, s: seq<GraphNode>, i0: nat)
    requires i0 < |ns| && WalkableInRange(ns) && WalkableInRange(s) && Extends(ns, s)
    requires forall i, p :: 0 <= i < i0 && 0 <= p < |ns[i].walkable| ==>
      HasWalkableTo(s[ns[i].walkable[p].nodeId].walkable, i, ns[i].walkable[p].dist)
    ensures forall i, p :: 0 <= i <= i0 && 0 <= p < |ns[i].walkable| ==>
      HasWalkableTo(PushMirrors(s, s[i0].walkable, i0)[ns[i].walkable[p].nodeId].walkable, i, ns[i].walkable[p].dist)
  {
    var conns := s[i0].walkable;
    assert forall p :: 0 <= p < |conns| ==> conns[p].nodeId < |s|;
    var r := PushMirrors(s, conns, i0);
    PushMirrorsExtends(s, conns, i0);
    PushMirrorsAdds(s, conns, i0);
    forall i, p | 0 <= i <= i0 && 0 <= p < |ns[i].walkable|
      ensures HasWalkableTo(r[ns[i].walkable[p].nodeId].walkable, i, ns[i].walkable[p].dist)
    {
      var t := ns[i].walkable[p].nodeId;
      if i < i0 {
        assert s[t].walkable <= r[t].walkable;
        HasWalkableToPrefix(s[t].walkable, r[t].walkable, i, ns[i].walkable[p].dist);
      } else {
        assert ns[i].walkable <= s[i].walkable;
        assert conns[p] == ns[i].walkable[p];
      }
    }
  }

  /** Connection `p` of node `a` has its partner in the other direction. */
  predicate Matched(s: seq<GraphNode>, a: nat, p: nat)
    requires WalkableInRange(s) && a < |s| && p < |s[a].walkable|
  {
    HasWalkableTo(s[s[a].walkable[p].nodeId].walkable, a, s[a].walkable[p].dist)
  }

  /** After nodes 0 .. n-1: every connection is matched except the original
      connections of the nodes not yet handled. */
  predicate MatchedUpTo(ns: seq<GraphNode>, s: seq<GraphNode>, n: nat)
    requires WalkableInRange(s) && |ns| == |s|
  {
    forall a, p {:trigger Matched(s, a, p)} ::
      0 <= a < |s| && 0 <= p < |s[a].walkable| && (a < n || p >= |ns[a].walkable|) ==> Matched(s, a, p)
  }

  lemma {:induction false} TwoWayUpToMatched(ns: seq<GraphNode>, n: nat)
    requires n <= |ns| && WalkableInRange(ns) && AllWalkableZero(ns)
    ensures AllWalkableZero(TwoWayUpTo(ns, n))
    ensures MatchedUpTo(ns, TwoWayUpTo(ns, n), n)
  {
    if n > 0 {
      TwoWayUpToMatched(ns, n - 1);
      TwoWayStep(ns, n);
    }
  }

  lemma TwoWayStep(ns: seq<GraphNode>, n: nat)
    requires 0 < n <= |ns| && WalkableInRange(ns)
    requires AllWalkableZero(TwoWayUpTo(ns, n - 1)) && MatchedUpTo(ns, TwoWayUpTo(ns, n - 1), n - 1)
    ensures AllWalkableZero(TwoWayUpTo(ns, n)) && MatchedUpTo(ns, TwoWayUpTo(ns, n), n)
  {
    var s := TwoWayUpTo(ns, n - 1);
    var conns := s[n - 1].walkable;
    TwoWayUpToExtends(ns, n - 1);
    PushMirrorsAdds(s, conns, n - 1);
    PushMirrorsExtends(s, conns, n - 1);
    assert ns[n - 1].walkable <= conns;
    var r := PushMirrors(s, conns, n - 1);
    forall a: nat, p: nat | a < |s| && |s[a].walkable| <= p < |r[a].walkable|
      ensures IsMirrorOf(r[a].walkable[p], conns, a, n - 1)
    {
      PushMirrorsOnlyMirrors(s, conns, n - 1, a, p);
    }
    assert OnlyMirrors(s, r, conns, n - 1);
    MatchedUpToStep(ns, s, r, n, conns);
  }

  /** `e`, held by node `a`, mirrors one of `conns`, the connections of node `i`. */
  predicate IsMirrorOf(e: Connection, conns: seq<Connection>, a: nat, i: nat) {
    exists q :: 0 <= q < |conns| && conns[q].nodeId == a && e == Mirror(conns[q], i)
  }

  /** Every connection `r` holds beyond those of `s` mirrors one of `conns`. */
  predicate OnlyMirrors(s: seq<GraphNode>, r: seq<GraphNode>, conns: seq<Connection>, i: nat)
    requires |s| == |r|
  {
    forall a: nat, p: nat :: a < |s| && |s[a].walkable| <= p < |r[a].walkable| ==> IsMirrorOf(r[a].walkable[p], conns, a, i)
  }

  /** The step of TwoWayUpToMatched from n-1 to n: `s` is the array the
      outer loop holds before it handles node n-1 and `r` the one after. */
  lemma MatchedUpToStep(ns: seq<GraphNode>, s: seq<GraphNode>, r: seq<GraphNode>, n: nat, conns: seq<Connection>)
    requires 0 < n <= |ns| == |s| && WalkableInRange(s) && AllWalkableZero(s)
    requires MatchedUpTo(ns, s, n - 1)
    requires conns == s[n - 1].walkable && ns[n - 1].walkable <= conns
    requires Extends(s, r) && WalkableInRange(r)
    requires forall p :: 0 <= p < |conns| ==> HasWalkableTo(r[conns[p].nodeId].walkable, n - 1, conns[p].dist)
    requires OnlyMirrors(s, r, conns, n - 1)
    ensures AllWalkableZero(r) && MatchedUpTo(ns, r, n)
  {
    forall a, p | 0 <= a < |r| && 0 <= p < |r[a].walkable|
      ensures r[a].walkable[p].kind == Walkable && r[a].walkable[p].effort == 0.0
      ensures a < n || p >= |ns[a].walkable| ==> Matched(r, a, p)
    {
      if p < |s[a].walkable| {
        if a < n - 1 || p >= |ns[a].walkable| {
          assert Matched(s, a, p);
        }
        if a == n - 1 {
          assert HasWalkableTo(r[conns[p].nodeId].walkable, n - 1, conns[p].dist);
        }
        MatchedKept(ns, s, r, n, conns, a, p);
      } else {
        assert IsMirrorOf(r[a].walkable[p], conns, a, n - 1);
        var q :| 0 <= q < |conns| && conns[q].nodeId == a && r[a].walkable[p] == Mirror(conns[q], n - 1);
        MatchedAppended(s, r, n, conns, a, p, q);
      }
    }
  }

  /** A connection present before the step keeps kind, effort and partner;
      one of node n-1's gains its partner. */
  lemma MatchedKept(ns: seq<GraphNode>, s: seq<GraphNode>, r: seq<GraphNode>, n: nat, conns: seq<Connection>, a: nat, p: nat)
    requires 0 < n <= |ns| == |s| && WalkableInRange(s) && AllWalkableZero(s)
    requires conns == s[n - 1].walkable && ns[n - 1].walkable <= conns
    requires Extends(s, r) && WalkableInRange(r)
    requires a < |s| && p < |s[a].walkable|
    requires a < n - 1 || p >= |ns[a].walkable| ==> Matched(s, a, p)
    requires a == n - 1 ==> HasWalkableTo(r[conns[p].nodeId].walkable, n - 1, conns[p].dist)
    ensures r[a].walkable[p].kind == Walkable && r[a].walkable[p].effort == 0.0
    ensures a < n || p >= |ns[a].walkable| ==> Matched(r, a, p)
  {
    var e := r[a].walkable[p];
    assert s[a].walkable <= r[a].walkable;
    assert e == s[a].walkable[p];
    if a < n - 1 || p >= |ns[a].walkable| {
      assert s[e.nodeId].walkable <= r[e.nodeId].walkable;
      HasWalkableToPrefix(s[e.nodeId].walkable, r[e.nodeId].walkable, a, e.dist);
    } else if a == n - 1 {
      assert conns[p] == e;
    }
  }

  /** A connection the step appended is walkable with effort 0 and its
      partner is the connection of node n-1 it mirrors. */
  lemma MatchedAppended(s: seq<GraphNode>, r: seq<GraphNode>, n: nat, conns: seq<Connection>, a: nat, p: nat, q: nat)
    requires 0 < n <= |s| && WalkableInRange(s) && AllWalkableZero(s)
    requires conns == s[n - 1].walkable
    requires Extends(s, r) && WalkableInRange(r)
    requires a < |s| && p < |r[a].walkable|
    requires q < |conns| && conns[q].nodeId == a && r[a].walkable[p] == Mirror(conns[q], n - 1)
    ensures r[a].walkable[p].kind == Walkable && r[a].walkable[p].effort == 0.0
    ensures Matched(r, a, p)
  {
    var e := r[a].walkable[p];
    assert conns[q] == Connection(a, e.dist, Walkable, 0.0);
    assert s[n - 1].walkable <= r[n - 1].walkable;
    assert r[n - 1].walkable[q] == conns[q];
  }

  /** When every connection is walkable with effort 0 (as placement makes
      them), the result is symmetric: each a -> b of length d is matched by
      b -> a of length d. */
  lemma TwoWaySymmetric(ns: seq<GraphNode>)
    requires WalkableInRange(ns) && AllWalkableZero(ns)
    ensures WalkableSymmetric(TwoWay(ns))
  {
    var r := TwoWay(ns);
    TwoWayUpToMatched(ns, |ns|);
    forall a, c | 0 <= a < |r| && 0 <= c < |r[a].walkable|
      ensures HasWalkableTo(r[r[a].walkable[c].nodeId].walkable, a, r[a].walkable[c].dist)
    {
      assert Matched(r, a, c);
    }
  }
}
