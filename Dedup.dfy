/** Third stage of graph construction: nodes that lie on top of each other
    (where two edges meet) are merged into one (remove_duplicate_nodes). */
module Dedup {
  import opened Geometry
  import opened Graph

  /** Two nodes are duplicates when their squared distance is below the
      tolerance. */
  predicate Close(a: Vec2, b: Vec2) {
    DistSquared(a, b) < DuplicateTolerance
  }

  function Positions(ns: seq<GraphNode>): (ps: seq<Vec2>)
    ensures |ps| == |ns|
  {
    seq(|ns|, k requires 0 <= k < |ns| => ns[k].position)
  }

  function Ids(ns: seq<GraphNode>): (ids: seq<nat>)
    ensures |ids| == |ns|
  {
    seq(|ns|, k requires 0 <= k < |ns| => ns[k].id)
  }

  /** A connection to `from` is redirected to `to`. */
  function RetargetOne(e: Connection, from: nat, to: nat): Connection {
    if e.nodeId == from then e.(nodeId := to) else e
  }

  /** Only targets change, and afterwards no connection names `from`
      unless it is also `to`. */
  function Retarget(cs: seq<Connection>, from: nat, to: nat): (r: seq<Connection>)
    ensures |r| == |cs|
    ensures forall k :: 0 <= k < |r| ==> r[k] == cs[k].(nodeId := r[k].nodeId)
    ensures from != to ==> forall k :: 0 <= k < |r| ==> r[k].nodeId != from
  {
    seq(|cs|, k requires 0 <= k < |cs| => RetargetOne(cs[k], from, to))
  }

  /** Every walkable connection of every node that names `from` names `to`
      instead. */
  function RetargetAll(ns: seq<GraphNode>, from: nat, to: nat): (r: seq<GraphNode>)
    ensures |r| == |ns|
    ensures forall k :: 0 <= k < |r| ==> r[k] == ns[k].(walkable := r[k].walkable) && |r[k].walkable| == |ns[k].walkable|
    ensures from != to ==> forall k, c :: 0 <= k < |r| && 0 <= c < |r[k].walkable| ==> r[k].walkable[c].nodeId != from
  {
    seq(|ns|, k requires 0 <= k < |ns| => ns[k].(walkable := Retarget(ns[k].walkable, from, to)))
  }

  /** The node at index `k` of the array with index `j` removed came from
      this index of the original. */
  function Src(k: nat, j: nat): nat {
    if k < j then k else k + 1
  }

  /** Node `i` absorbs its duplicate `j`: it takes `j`'s walkable
      connections and `j`'s first line index, `j` is removed, and every
      connection to `j`'s id is redirected to `i`'s id. */
  function Merge(ns: seq<GraphNode>, i: nat, j: nat): (r: seq<GraphNode>)
    requires i < j < |ns| && |ns[j].lineIndices| > 0
    ensures |r| == |ns| - 1
  {
    var absorbed := ns[i].(walkable := ns[i].walkable + ns[j].walkable,
                           lineIndices := ns[i].lineIndices + [ns[j].lineIndices[0]]);
    var t := ns[i := absorbed];
    RetargetAll(t[..j] + t[j + 1..], ns[j].id, ns[i].id)
  }

  /** Every field of a merged array except the walkable connections (and,
      at `i`, the line indices) comes from the original node it replaces. */
  lemma MergeFields(ns: seq<GraphNode>, i: nat, j: nat, k: nat)
    requires i < j < |ns| && |ns[j].lineIndices| > 0 && k < |ns| - 1
    ensures var r := Merge(ns, i, j); var o := ns[Src(k, j)];
      && r[k].id == o.id && r[k].position == o.position && r[k].polygonIndex == o.polygonIndex
      && r[k].lineIndices == (if k == i then o.lineIndices + [ns[j].lineIndices[0]] else o.lineIndices)
      && r[k].walkable == Retarget(if k == i then o.walkable + ns[j].walkable else o.walkable, ns[j].id, ns[i].id)
      && r[k] == o.(walkable := r[k].walkable, lineIndices := r[k].lineIndices)
  {
  }

  /** Merging removes exactly the position of node `j`. */
  lemma MergePositions(ns: seq<GraphNode>, i: nat, j: nat)
    requires i < j < |ns| && |ns[j].lineIndices| > 0
    ensures Positions(Merge(ns, i, j)) == Positions(ns)[..j] + Positions(ns)[j + 1..]
  {
    var r := Merge(ns, i, j);
    forall k | 0 <= k < |r|
      ensures Positions(r)[k] == (Positions(ns)[..j] + Positions(ns)[j + 1..])[k]
    {
      MergeFields(ns, i, j, k);
    }
  }

  /** Merging removes exactly the id of node `j`. */
  lemma MergeIds(ns: seq<GraphNode>, i: nat, j: nat)
    requires i < j < |ns| && |ns[j].lineIndices| > 0
    ensures Ids(Merge(ns, i, j)) == Ids(ns)[..j] + Ids(ns)[j + 1..]
  {
    var r := Merge(ns, i, j);
    forall k | 0 <= k < |r|
      ensures Ids(r)[k] == (Ids(ns)[..j] + Ids(ns)[j + 1..])[k]
    {
      MergeFields(ns, i, j, k);
    }
  }

  /** Every node still lies on an edge after a merge. */
  lemma MergeOnSomeEdge(ns: seq<GraphNode>, i: nat, j: nat)
    requires i < j < |ns| && OnSomeEdge(ns)
    ensures OnSomeEdge(Merge(ns, i, j))
  {
    forall k | 0 <= k < |ns| - 1
      ensures |Merge(ns, i, j)[k].lineIndices| > 0
    {
      MergeFields(ns, i, j, k);
    }
  }

  /** The inner loop of remove_duplicate_nodes for node `i`, from candidate
      `j` on: a duplicate is merged and the same index examined again,
      anything else is skipped. */
  function DedupInner(ns: seq<GraphNode>, i: nat, j: nat): (r: seq<GraphNode>)
    requires i < j <= |ns| && OnSomeEdge(ns)
    ensures i < |r| <= |ns| && OnSomeEdge(r)
    decreases |ns| - j
  {
    if j == |ns| then ns
    else if Close(ns[i].position, ns[j].position) then
      MergeOnSomeEdge(ns, i, j);
      DedupInner(Merge(ns, i, j), i, j)
    else DedupInner(ns, i, j + 1)
  }

  /** The outer loop of remove_duplicate_nodes from node `i` on. */
  function DedupOuter(ns: seq<GraphNode>, i: nat): (r: seq<GraphNode>)
    requires i <= |ns| && OnSomeEdge(ns)
    ensures |r| <= |ns| && OnSomeEdge(r)
    decreases |ns| - i
  {
    if i == |ns| then ns
    else DedupOuter(DedupInner(ns, i, i + 1), i + 1)
  }

  function Dedup(ns: seq<GraphNode>): seq<GraphNode>
    requires OnSomeEdge(ns)
  {
    DedupOuter(ns, 0)
  }

  // ---------------------------------------------------------------------
  // Separation.

  /** No position before index `i` is a duplicate of any later one. */
  predicate SepBefore(ps: seq<Vec2>, i: nat) {
    forall a, b :: 0 <= a < i && a < b < |ps| ==> !Close(ps[a], ps[b])
  }

  /** Position `i` is no duplicate of positions i+1 .. j-1. */
  predicate SepFrom(ps: seq<Vec2>, i: nat, j: nat) {
    forall b :: i < b < j && b < |ps| ==> !Close(ps[i], ps[b])
  }

  lemma SeparatedIsSepBefore(ns: seq<GraphNode>)
    ensures Separated(ns) <==> SepBefore(Positions(ns), |ns|)
  {
    var ps := Positions(ns);
    if SepBefore(ps, |ns|) {
      forall a, b | 0 <= a < b < |ns|
        ensures DistSquared(ns[a].position, ns[b].position) >= DuplicateTolerance
      {
        assert !Close(ps[a], ps[b]);
      }
    }
    if Separated(ns) {
      forall a, b | 0 <= a < |ns| && a < b < |ps|
        ensures !Close(ps[a], ps[b])
      {
        assert DistSquared(ns[a].position, ns[b].position) >= DuplicateTolerance;
      }
    }
  }

  /** The inner loop for node `i` leaves it with no duplicate after it. */
  lemma {:induction false} InnerSeparates(ns: seq<GraphNode>, i: nat, j: nat)
    requires i < j <= |ns| && OnSomeEdge(ns)
    requires SepBefore(Positions(ns), i) && SepFrom(Positions(ns), i, j)
    ensures SepBefore(Positions(DedupInner(ns, i, j)), i + 1)
    decreases |ns| - j
  {
    var ps := Positions(ns);
    if j == |ns| {
      forall a, b | 0 <= a < i + 1 && a < b < |ps|
        ensures !Close(ps[a], ps[b])
      {
        if a < i {
          assert !Close(ps[a], ps[b]);
        } else {
          assert !Close(ps[i], ps[b]);
        }
      }
    } else if Close(ns[i].position, ns[j].position) {
      var m := Merge(ns, i, j);
      MergeOnSomeEdge(ns, i, j);
      MergePositions(ns, i, j);
      var qs := Positions(m);
      forall a, b | 0 <= a < i && a < b < |qs|
        ensures !Close(qs[a], qs[b])
      {
        assert qs[a] == ps[a] && qs[b] == ps[Src(b, j)];
        assert !Close(ps[a], ps[Src(b, j)]);
      }
      forall b | i < b < j && b < |qs|
        ensures !Close(qs[i], qs[b])
      {
        assert qs[i] == ps[i] && qs[b] == ps[b];
        assert !Close(ps[i], ps[b]);
      }
      InnerSeparates(m, i, j);
    } else {
      assert ps[i] == ns[i].position && ps[j] == ns[j].position;
      InnerSeparates(ns, i, j + 1);
    }
  }

  lemma {:induction false} OuterSeparates(ns: seq<GraphNode>, i: nat)
    requires i <= |ns| && OnSomeEdge(ns) && SepBefore(Positions(ns), i)
    ensures SepBefore(Positions(DedupOuter(ns, i)), |DedupOuter(ns, i)|)
    decreases |ns| - i
  {
    if i < |ns| {
      InnerSeparates(ns, i, i + 1);
      OuterSeparates(DedupInner(ns, i, i + 1), i + 1);
    }
  }

  /** After remove_duplicate_nodes no two nodes are duplicates. */
  lemma DedupSeparated(ns: seq<GraphNode>)
    requires OnSomeEdge(ns)
    ensures Separated(Dedup(ns))
  {
    OuterSeparates(ns, 0);
    SeparatedIsSepBefore(Dedup(ns));
  }

  // ---------------------------------------------------------------------
  // Nothing to do on a separated array.

  lemma {:induction false} InnerNoop(ns: seq<GraphNode>, i: nat, j: nat)
    requires i < j <= |ns| && OnSomeEdge(ns) && SepBefore(Positions(ns), |ns|)
    ensures DedupInner(ns, i, j) == ns
    decreases |ns| - j
  {
    if j < |ns| {
      var ps := Positions(ns);
      assert !Close(ps[i], ps[j]);
      InnerNoop(ns, i, j + 1);
    }
  }

  lemma {:induction false} OuterNoop(ns: seq<GraphNode>, i: nat)
    requires i <= |ns| && OnSomeEdge(ns) && SepBefore(Positions(ns), |ns|)
    ensures DedupOuter(ns, i) == ns
    decreases |ns| - i
  {
    if i < |ns| {
      InnerNoop(ns, i, i + 1);
      OuterNoop(ns, i + 1);
    }
  }

  /** An array without duplicates is left as it is. */
  lemma DedupNoop(ns: seq<GraphNode>)
    requires OnSomeEdge(ns) && Separated(ns)
    ensures Dedup(ns) == ns
  {
    SeparatedIsSepBefore(ns);
    OuterNoop(ns, 0);
  }

  /** Removing duplicates twice is the same as removing them once. */
  lemma DedupIdempotent(ns: seq<GraphNode>)
    requires OnSomeEdge(ns)
    ensures Dedup(Dedup(ns)) == Dedup(ns)
  {
    DedupSeparated(ns);
    DedupNoop(Dedup(ns));
  }

  // ---------------------------------------------------------------------
  // Positions: the result is drawn from the input and covers it.

  /** The inner loop never changes nodes before the candidate index. */
  lemma {:induction false} InnerPrefix(ns: seq<GraphNode>, i: nat, j: nat)
    requires i < j <= |ns| && OnSomeEdge(ns)
    ensures j <= |DedupInner(ns, i, j)|
    ensures Positions(DedupInner(ns, i, j))[..j] == Positions(ns)[..j]
    decreases |ns| - j
  {
    if j < |ns| {
      if Close(ns[i].position, ns[j].position) {
        MergeOnSomeEdge(ns, i, j);
        MergePositions(ns, i, j);
        InnerPrefix(Merge(ns, i, j), i, j);
        assert Positions(Merge(ns, i, j))[..j] == Positions(ns)[..j];
      } else {
        InnerPrefix(ns, i, j + 1);
        assert Positions(DedupInner(ns, i, j))[..j] == Positions(DedupInner(ns, i, j))[..j + 1][..j];
      }
    }
  }

  lemma {:induction false} OuterPrefix(ns: seq<GraphNode>, i: nat)
    requires i <= |ns| && OnSomeEdge(ns)
    ensures i <= |DedupOuter(ns, i)|
    ensures Positions(DedupOuter(ns, i))[..i] == Positions(ns)[..i]
    decreases |ns| - i
  {
    if i < |ns| {
      var t := DedupInner(ns, i, i + 1);
      InnerPrefix(ns, i, i + 1);
      OuterPrefix(t, i + 1);
      assert Positions(DedupOuter(ns, i))[..i] == Positions(DedupOuter(t, i + 1))[..i + 1][..i];
      assert Positions(ns)[..i] == Positions(t)[..i + 1][..i];
    }
  }

  /** `p` is one of the positions `ps`. */
  predicate Among(p: Vec2, ps: seq<Vec2>) {
    exists m :: 0 <= m < |ps| && ps[m] == p
  }

  /** Every position of `qs` is among `ps`. */
  predicate DrawnFrom(qs: seq<Vec2>, ps: seq<Vec2>) {
    forall m :: 0 <= m < |qs| ==> Among(qs[m], ps)
  }

  /** `p` is within the tolerance of one of `qs`. */
  predicate NearSome(p: Vec2, qs: seq<Vec2>) {
    exists m :: 0 <= m < |qs| && Close(qs[m], p)
  }

  /** Every position of `ps` is within the tolerance of one of `qs`. */
  predicate CoveredBy(ps: seq<Vec2>, qs: seq<Vec2>) {
    forall k :: 0 <= k < |ps| ==> NearSome(ps[k], qs)
  }

  lemma MergeDrawn(ns: seq<GraphNode>, i: nat, j: nat)
    requires i < j < |ns| && |ns[j].lineIndices| > 0
    ensures DrawnFrom(Positions(Merge(ns, i, j)), Positions(ns))
  {
    var ps := Positions(ns);
    var qs := Positions(Merge(ns, i, j));
    MergePositions(ns, i, j);
    forall m | 0 <= m < |qs|
      ensures Among(qs[m], ps)
    {
      assert qs[m] == ps[Src(m, j)];
    }
  }

  lemma {:induction false} InnerDrawn(ns: seq<GraphNode>, i: nat, j: nat)
    requires i < j <= |ns| && OnSomeEdge(ns)
    ensures DrawnFrom(Positions(DedupInner(ns, i, j)), Positions(ns))
    decreases |ns| - j
  {
    var ps := Positions(ns);
    var rs := Positions(DedupInner(ns, i, j));
    if j == |ns| {
      forall m | 0 <= m < |rs|
        ensures Among(rs[m], ps)
      {
        assert rs[m] == ps[m];
      }
    } else if Close(ns[i].position, ns[j].position) {
      var t := Merge(ns, i, j);
      MergeOnSomeEdge(ns, i, j);
      MergeDrawn(ns, i, j);
      InnerDrawn(t, i, j);
      forall m | 0 <= m < |rs|
        ensures Among(rs[m], ps)
      {
        assert Among(rs[m], Positions(t));
        var x :| 0 <= x < |Positions(t)| && Positions(t)[x] == rs[m];
        assert Among(Positions(t)[x], ps);
      }
    } else {
      InnerDrawn(ns, i, j + 1);
    }
  }

  lemma {:induction false} OuterDrawn(ns: seq<GraphNode>, i: nat)
    requires i <= |ns| && OnSomeEdge(ns)
    ensures DrawnFrom(Positions(DedupOuter(ns, i)), Positions(ns))
    decreases |ns| - i
  {
    var ps := Positions(ns);
    var rs := Positions(DedupOuter(ns, i));
    if i == |ns| {
      forall m | 0 <= m < |rs|
        ensures Among(rs[m], ps)
      {
        assert rs[m] == ps[m];
      }
    } else {
      var t := DedupInner(ns, i, i + 1);
      InnerDrawn(ns, i, i + 1);
      OuterDrawn(t, i + 1);
      forall m | 0 <= m < |rs|
        ensures Among(rs[m], ps)
      {
        assert Among(rs[m], Positions(t));
        var x :| 0 <= x < |Positions(t)| && Positions(t)[x] == rs[m];
        assert Among(Positions(t)[x], ps);
      }
    }
  }

  /** Every position of `ps` is among `ts` or within the tolerance of `c`. */
  predicate KeptOrNear(ps: seq<Vec2>, ts: seq<Vec2>, c: Vec2) {
    forall k :: 0 <= k < |ps| ==> Among(ps[k], ts) || Close(c, ps[k])
  }

  /** After the inner loop for node `i`, every position is still present
      or within the tolerance of node `i`. */
  lemma {:induction false} InnerCovers(ns: seq<GraphNode>, i: nat, j: nat)
    requires i < j <= |ns| && OnSomeEdge(ns)
    ensures var rs := Positions(DedupInner(ns, i, j)); KeptOrNear(Positions(ns), rs, rs[i])
    decreases |ns| - j
  {
    var ps := Positions(ns);
    var rs := Positions(DedupInner(ns, i, j));
    if j == |ns| {
      forall k | 0 <= k < |ps|
        ensures Among(ps[k], rs)
      {
        assert rs[k] == ps[k];
      }
    } else if Close(ns[i].position, ns[j].position) {
      var t := Merge(ns, i, j);
      var ts := Positions(t);
      MergeOnSomeEdge(ns, i, j);
      MergePositions(ns, i, j);
      InnerCovers(t, i, j);
      InnerPrefix(t, i, j);
      assert rs[i] == ts[..j][i] == ps[i];
      forall k | 0 <= k < |ps|
        ensures Among(ps[k], rs) || Close(rs[i], ps[k])
      {
        if k != j {
          assert ts[if k < j then k else k - 1] == ps[k];
        } else {
          assert Close(ps[i], ps[j]);
        }
      }
    } else {
      InnerCovers(ns, i, j + 1);
    }
  }

  lemma CoveredBySelf(ps: seq<Vec2>)
    ensures CoveredBy(ps, ps)
  {
    forall k | 0 <= k < |ps|
      ensures NearSome(ps[k], ps)
    {
      var p := ps[k];
      assert DistSquared(p, p) == 0.0;
      assert Close(ps[k], ps[k]);
    }
  }

  /** Coverage composes through a step that keeps each position or leaves
      it near a position that survives to the end. */
  lemma CoverStep(ps: seq<Vec2>, ts: seq<Vec2>, rs: seq<Vec2>, c: Vec2)
    requires KeptOrNear(ps, ts, c) && CoveredBy(ts, rs) && Among(c, rs)
    ensures CoveredBy(ps, rs)
  {
    forall k | 0 <= k < |ps|
      ensures NearSome(ps[k], rs)
    {
      if Among(ps[k], ts) {
        var x :| 0 <= x < |ts| && ts[x] == ps[k];
        assert NearSome(ts[x], rs);
      } else {
        var m :| 0 <= m < |rs| && rs[m] == c;
        assert Close(rs[m], ps[k]);
      }
    }
  }

  lemma {:induction false} OuterCovers(ns: seq<GraphNode>, i: nat)
    requires i <= |ns| && OnSomeEdge(ns)
    ensures CoveredBy(Positions(ns), Positions(DedupOuter(ns, i)))
    decreases |ns| - i
  {
    var ps := Positions(ns);
    var rs := Positions(DedupOuter(ns, i));
    if i == |ns| {
      CoveredBySelf(ps);
    } else {
      var t := DedupInner(ns, i, i + 1);
      var ts := Positions(t);
      InnerCovers(ns, i, i + 1);
      OuterCovers(t, i + 1);
      OuterPrefix(t, i + 1);
      assert rs[i] == rs[..i + 1][i] == ts[..i + 1][i] == ts[i];
      CoverStep(ps, ts, rs, ts[i]);
    }
  }

  /** The result keeps positions of the input only, and every input node
      lies within the duplicate tolerance of a node that is kept. */
  lemma DedupCovers(ns: seq<GraphNode>)
    requires OnSomeEdge(ns)
    ensures DrawnFrom(Positions(Dedup(ns)), Positions(ns))
    ensures CoveredBy(Positions(ns), Positions(Dedup(ns)))
  {
    OuterDrawn(ns, 0);
    OuterCovers(ns, 0);
  }

  // ---------------------------------------------------------------------
  // Ids: still distinct, and every connection still names one.

  /** Ids are distinct and every walkable connection names one of them. */
  predicate IdsConsistent(ns: seq<GraphNode>) {
    DistinctIds(ns) && WalkableNamesIds(ns)
  }

  lemma MergeDistinct(ns: seq<GraphNode>, i: nat, j: nat)
    requires i < j < |ns| && |ns[j].lineIndices| > 0 && DistinctIds(ns)
    ensures DistinctIds(Merge(ns, i, j))
  {
    var r := Merge(ns, i, j);
    forall a, b | 0 <= a < b < |r|
      ensures r[a].id != r[b].id
    {
      MergeFields(ns, i, j, a);
      MergeFields(ns, i, j, b);
      assert Src(a, j) < Src(b, j);
    }
  }

  /** A connection that named node `j` now names node `i`, which stays;
      any other still names a node that stays. */
  lemma MergeNamesIds(ns: seq<GraphNode>, i: nat, j: nat)
    requires i < j < |ns| && |ns[j].lineIndices| > 0 && WalkableNamesIds(ns)
    ensures WalkableNamesIds(Merge(ns, i, j))
  {
    var r := Merge(ns, i, j);
    forall a, c | 0 <= a < |r| && 0 <= c < |r[a].walkable|
      ensures HasId(r, r[a].walkable[c].nodeId)
    {
      MergeFields(ns, i, j, a);
      var o := ns[Src(a, j)];
      var w := if a == i then o.walkable + ns[j].walkable else o.walkable;
      var e := w[c];
      assert r[a].walkable[c] == RetargetOne(e, ns[j].id, ns[i].id);
      if c < |o.walkable| {
        assert e == ns[Src(a, j)].walkable[c];
      } else {
        assert e == ns[j].walkable[c - |o.walkable|];
      }
      assert HasId(ns, e.nodeId);
      MergeHasId(ns, i, j, e.nodeId);
    }
  }

  /** With distinct ids, the removed id is gone after a merge: no node
      carries it and no walkable connection names it. */
  lemma MergeDropsId(ns: seq<GraphNode>, i: nat, j: nat)
    requires i < j < |ns| && |ns[j].lineIndices| > 0 && DistinctIds(ns)
    ensures !HasId(Merge(ns, i, j), ns[j].id)
    ensures var r := Merge(ns, i, j);
      forall a, c :: 0 <= a < |r| && 0 <= c < |r[a].walkable| ==> r[a].walkable[c].nodeId != ns[j].id
  {
    MergeIds(ns, i, j);
    var r := Merge(ns, i, j);
    forall k | 0 <= k < |r|
      ensures r[k].id != ns[j].id
    {
      assert Ids(r)[k] == ns[Src(k, j)].id;
    }
  }

  /** An id that named a node still names one after the merge, or, if it
      was `j`'s, is replaced by `i`'s, which stays. */
  lemma MergeHasId(ns: seq<GraphNode>, i: nat, j: nat, id: nat)
    requires i < j < |ns| && |ns[j].lineIndices| > 0 && HasId(ns, id)
    ensures HasId(Merge(ns, i, j), if id == ns[j].id then ns[i].id else id)
  {
    var r := Merge(ns, i, j);
    if id == ns[j].id {
      MergeFields(ns, i, j, i);
      assert r[i].id == ns[i].id;
    } else {
      var x :| 0 <= x < |ns| && ns[x].id == id;
      var x' := if x < j then x else x - 1;
      MergeFields(ns, i, j, x');
      assert r[x'].id == id;
    }
  }

  lemma {:induction false} InnerIds(ns: seq<GraphNode>, i: nat, j: nat)
    requires i < j <= |ns| && OnSomeEdge(ns) && IdsConsistent(ns)
    ensures IdsConsistent(DedupInner(ns, i, j))
    decreases |ns| - j
  {
    if j < |ns| {
      if Close(ns[i].position, ns[j].position) {
        MergeOnSomeEdge(ns, i, j);
        MergeDistinct(ns, i, j);
        MergeNamesIds(ns, i, j);
        InnerIds(Merge(ns, i, j), i, j);
      } else {
        InnerIds(ns, i, j + 1);
      }
    }
  }

  lemma {:induction false} OuterIds(ns: seq<GraphNode>, i: nat)
    requires i <= |ns| && OnSomeEdge(ns) && IdsConsistent(ns)
    ensures IdsConsistent(DedupOuter(ns, i))
    decreases |ns| - i
  {
    if i < |ns| {
      InnerIds(ns, i, i + 1);
      OuterIds(DedupInner(ns, i, i + 1), i + 1);
    }
  }

  /** Ids stay distinct and no connection is left naming a removed node. */
  lemma DedupIds(ns: seq<GraphNode>)
    requires OnSomeEdge(ns) && IdsConsistent(ns)
    ensures IdsConsistent(Dedup(ns))
  {
    OuterIds(ns, 0);
  }

  // ---------------------------------------------------------------------
  // Order: the survivors are original nodes, in their original order.

  /** `a` is node `b` up to its walkable connections and line indices. */
  predicate SameNode(a: GraphNode, b: GraphNode) {
    a == b.(walkable := a.walkable, lineIndices := a.lineIndices)
  }

  predicate Increasing(f: seq<nat>) {
    forall a, b :: 0 <= a < b < |f| ==> f[a] < f[b]
  }

  /** `f` maps each node of `r` to the node of `ns` it is, in increasing
      order. */
  predicate KeptAt(r: seq<GraphNode>, ns: seq<GraphNode>, f: seq<nat>) {
    && |f| == |r|
    && Increasing(f)
    && forall k :: 0 <= k < |f| ==> f[k] < |ns| && SameNode(r[k], ns[f[k]])
  }

  /** `r` is a subsequence of `ns`, up to the connection lists and line
      indices. */
  ghost predicate KeepsOrder(r: seq<GraphNode>, ns: seq<GraphNode>) {
    exists f :: KeptAt(r, ns, f)
  }

  /** The indices of an array of `n` nodes, with index `j` left out. */
  function SkipIndex(n: nat, j: nat): (f: seq<nat>)
    ensures |f| == n
  {
    seq(n, k requires 0 <= k < n => Src(k, j))
  }

  lemma KeptSelf(ns: seq<GraphNode>)
    ensures KeepsOrder(ns, ns)
  {
    var f: seq<nat> := seq(|ns|, k requires 0 <= k < |ns| => k);
    assert KeptAt(ns, ns, f);
  }

  lemma MergeKeeps(ns: seq<GraphNode>, i: nat, j: nat)
    requires i < j < |ns| && |ns[j].lineIndices| > 0
    ensures KeepsOrder(Merge(ns, i, j), ns)
  {
    var r := Merge(ns, i, j);
    var f := SkipIndex(|r|, j);
    forall k | 0 <= k < |f|
      ensures f[k] < |ns| && SameNode(r[k], ns[f[k]])
    {
      MergeFields(ns, i, j, k);
    }
    assert KeptAt(r, ns, f);
  }

  lemma KeptCompose(r: seq<GraphNode>, t: seq<GraphNode>, ns: seq<GraphNode>)
    requires KeepsOrder(r, t) && KeepsOrder(t, ns)
    ensures KeepsOrder(r, ns)
  {
    var f :| KeptAt(r, t, f);
    var g :| KeptAt(t, ns, g);
    var h: seq<nat> := seq(|f|, k requires 0 <= k < |f| => g[f[k]]);
    forall a, b | 0 <= a < b < |h|
      ensures h[a] < h[b]
    {
      assert f[a] < f[b];
    }
    assert KeptAt(r, ns, h);
  }

  lemma {:induction false} InnerOrder(ns: seq<GraphNode>, i: nat, j: nat)
    requires i < j <= |ns| && OnSomeEdge(ns)
    ensures KeepsOrder(DedupInner(ns, i, j), ns)
    decreases |ns| - j
  {
    if j == |ns| {
      KeptSelf(ns);
    } else if Close(ns[i].position, ns[j].position) {
      MergeOnSomeEdge(ns, i, j);
      MergeKeeps(ns, i, j);
      InnerOrder(Merge(ns, i, j), i, j);
      KeptCompose(DedupInner(ns, i, j), Merge(ns, i, j), ns);
    } else {
      InnerOrder(ns, i, j + 1);
    }
  }

  lemma {:induction false} OuterOrder(ns: seq<GraphNode>, i: nat)
    requires i <= |ns| && OnSomeEdge(ns)
    ensures KeepsOrder(DedupOuter(ns, i), ns)
    decreases |ns| - i
  {
    if i == |ns| {
      KeptSelf(ns);
    } else {
      var t := DedupInner(ns, i, i + 1);
      InnerOrder(ns, i, i + 1);
      OuterOrder(t, i + 1);
      KeptCompose(DedupOuter(t, i + 1), t, ns);
    }
  }

  /** Every surviving node is an original node, changed only in its
      walkable connections and line indices, and survivors keep their
      relative order. */
  lemma DedupKeepsOrder(ns: seq<GraphNode>)
    requires OnSomeEdge(ns)
    ensures KeepsOrder(Dedup(ns), ns)
  {
    OuterOrder(ns, 0);
  }

  // ---------------------------------------------------------------------
  // Line indices: merges within one polygon keep them edges of it.

  /** Nodes of different polygons are never duplicates. */
  predicate ApartAcrossPolygons(ns: seq<GraphNode>) {
    forall a, b :: 0 <= a < |ns| && 0 <= b < |ns| && ns[a].polygonIndex != ns[b].polygonIndex ==>
      !Close(ns[a].position, ns[b].position)
  }

  lemma MergeLines(level: seq<Polygon>, ns: seq<GraphNode>, i: nat, j: nat)
    requires i < j < |ns| && |ns[j].lineIndices| > 0 && Close(ns[i].position, ns[j].position)
    requires LinesAreEdges(level, ns) && ApartAcrossPolygons(ns)
    ensures LinesAreEdges(level, Merge(ns, i, j)) && ApartAcrossPolygons(Merge(ns, i, j))
  {
    var r := Merge(ns, i, j);
    forall k, m | 0 <= k < |r| && 0 <= m < |r[k].lineIndices|
      ensures IsEdge(level, r[k].polygonIndex, r[k].lineIndices[m])
    {
      MergeFields(ns, i, j, k);
      var o := ns[Src(k, j)];
      if k == i && m == |o.lineIndices| {
        assert r[k].lineIndices[m] == ns[j].lineIndices[0];
        assert ns[i].polygonIndex == ns[j].polygonIndex;
      } else {
        assert r[k].lineIndices[m] == o.lineIndices[m];
      }
    }
    forall a, b | 0 <= a < |r| && 0 <= b < |r| && r[a].polygonIndex != r[b].polygonIndex
      ensures !Close(r[a].position, r[b].position)
    {
      MergeFields(ns, i, j, a);
      MergeFields(ns, i, j, b);
    }
  }

  lemma {:induction false} InnerLines(level: seq<Polygon>, ns: seq<GraphNode>, i: nat, j: nat)
    requires i < j <= |ns| && OnSomeEdge(ns) && LinesAreEdges(level, ns) && ApartAcrossPolygons(ns)
    ensures LinesAreEdges(level, DedupInner(ns, i, j)) && ApartAcrossPolygons(DedupInner(ns, i, j))
    decreases |ns| - j
  {
    if j < |ns| {
      if Close(ns[i].position, ns[j].position) {
        MergeOnSomeEdge(ns, i, j);
        MergeLines(level, ns, i, j);
        InnerLines(level, Merge(ns, i, j), i, j);
      } else {
        InnerLines(level, ns, i, j + 1);
      }
    }
  }

  lemma {:induction false} OuterLines(level: seq<Polygon>, ns: seq<GraphNode>, i: nat)
    requires i <= |ns| && OnSomeEdge(ns) && LinesAreEdges(level, ns) && ApartAcrossPolygons(ns)
    ensures LinesAreEdges(level, DedupOuter(ns, i)) && ApartAcrossPolygons(DedupOuter(ns, i))
    decreases |ns| - i
  {
    if i < |ns| {
      InnerLines(level, ns, i, i + 1);
      OuterLines(level, DedupInner(ns, i, i + 1), i + 1);
    }
  }

  /** When nodes of different polygons are never duplicates, every merge
      joins nodes of one polygon, so every line index still names an edge
      of its node's polygon. */
  lemma DedupLines(level: seq<Polygon>, ns: seq<GraphNode>)
    requires OnSomeEdge(ns) && LinesAreEdges(level, ns) && ApartAcrossPolygons(ns)
    ensures LinesAreEdges(level, Dedup(ns))
  {
    OuterLines(level, ns, 0);
  }

  // ---------------------------------------------------------------------
  // Symmetry by id: a merge moves j's connections to i and renames j's id
  // to i's, so every connection keeps its partner.

  /** Where node `b` of the original is after `j` is merged into `i`. */
  function Dest(b: nat, i: nat, j: nat): nat {
    if b == j then i else if b < j then b else b - 1
  }

  /** An id after the merge: `j`'s id becomes `i`'s. */
  function RenamedId(id: nat, ns: seq<GraphNode>, i: nat, j: nat): nat
    requires i < j < |ns|
  {
    if id == ns[j].id then ns[i].id else id
  }

  /** With distinct ids, node `b` lands at `Dest(b, i, j)` with its id
      renamed. */
  lemma MergeDest(ns: seq<GraphNode>, i: nat, j: nat, b: nat)
    requires i < j < |ns| && |ns[j].lineIndices| > 0 && DistinctIds(ns) && b < |ns|
    ensures Dest(b, i, j) < |Merge(ns, i, j)|
    ensures Merge(ns, i, j)[Dest(b, i, j)].id == RenamedId(ns[b].id, ns, i, j)
  {
    MergeFields(ns, i, j, Dest(b, i, j));
  }

  /** A walkable connection of node `b` to `t` is still at `b`'s new place,
      aimed at `t` renamed. */
  lemma MergeCarries(ns: seq<GraphNode>, i: nat, j: nat, b: nat, t: nat, d: real)
    requires i < j < |ns| && |ns[j].lineIndices| > 0 && b < |ns|
    requires HasWalkableTo(ns[b].walkable, t, d)
    ensures Dest(b, i, j) < |Merge(ns, i, j)|
    ensures HasWalkableTo(Merge(ns, i, j)[Dest(b, i, j)].walkable, RenamedId(t, ns, i, j), d)
  {
    var r := Merge(ns, i, j);
    var k := Dest(b, i, j);
    MergeFields(ns, i, j, k);
    var c :| 0 <= c < |ns[b].walkable| && ns[b].walkable[c] == Connection(t, d, Walkable, 0.0);
    var o := ns[Src(k, j)];
    var w := if k == i then o.walkable + ns[j].walkable else o.walkable;
    var c' := if b == j then |o.walkable| + c else c;
    assert w[c'] == ns[b].walkable[c];
    assert r[k].walkable[c'] == RetargetOne(w[c'], ns[j].id, ns[i].id);
  }

  /** Connection `c` of node `a` after the merge is connection `c0` of
      node `src` of the original, which lands at `a`, retargeted. */
  lemma MergeSource(ns: seq<GraphNode>, i: nat, j: nat, a: nat, c: nat) returns (src: nat, c0: nat)
    requires i < j < |ns| && |ns[j].lineIndices| > 0
    requires a < |Merge(ns, i, j)| && c < |Merge(ns, i, j)[a].walkable|
    ensures src < |ns| && c0 < |ns[src].walkable| && Dest(src, i, j) == a
    ensures Merge(ns, i, j)[a].walkable[c] == RetargetOne(ns[src].walkable[c0], ns[j].id, ns[i].id)
  {
    MergeFields(ns, i, j, a);
    var o := ns[Src(a, j)];
    var w := if a == i then o.walkable + ns[j].walkable else o.walkable;
    if c < |o.walkable| {
      src, c0 := Src(a, j), c;
    } else {
      src, c0 := j, c - |o.walkable|;
    }
    assert w[c] == ns[src].walkable[c0];
  }

  /** Connection `c` of node `a` after the merge came from connection `c0`
      of node `src`. Node `b2` of the result carries the id it names, so
      `b2` is where that id's node lands: `j`'s when the connection named
      `j`, and `b2`'s own original otherwise. That node's connection back
      lands with it, renamed to `a`'s id. */
  lemma MergePartner(ns: seq<GraphNode>, i: nat, j: nat, a: nat, c: nat, src: nat, c0: nat, b2: nat)
    requires i < j < |ns| && |ns[j].lineIndices| > 0 && DistinctIds(ns) && WalkableSymmetricById(ns)
    requires a < |Merge(ns, i, j)| && c < |Merge(ns, i, j)[a].walkable|
    requires src < |ns| && c0 < |ns[src].walkable| && Dest(src, i, j) == a
    requires Merge(ns, i, j)[a].walkable[c] == RetargetOne(ns[src].walkable[c0], ns[j].id, ns[i].id)
    requires b2 < |Merge(ns, i, j)| && Merge(ns, i, j)[b2].id == Merge(ns, i, j)[a].walkable[c].nodeId
    ensures var r := Merge(ns, i, j);
      HasWalkableTo(r[b2].walkable, r[a].id, r[a].walkable[c].dist)
  {
    var e0 := ns[src].walkable[c0];
    var o := Src(b2, j);
    assert Dest(o, i, j) == b2;
    MergeDest(ns, i, j, o);
    MergeDest(ns, i, j, src);
    var b := if e0.nodeId == ns[j].id then j else o;
    assert Dest(b, i, j) == b2;
    assert ns[b].id == e0.nodeId;
    MergeCarries(ns, i, j, b, ns[src].id, e0.dist);
  }

  /** A merge keeps walking symmetric by id. */
  lemma MergeSymmetric(ns: seq<GraphNode>, i: nat, j: nat)
    requires i < j < |ns| && |ns[j].lineIndices| > 0 && DistinctIds(ns) && WalkableSymmetricById(ns)
    ensures WalkableSymmetricById(Merge(ns, i, j))
  {
    var r := Merge(ns, i, j);
    forall a, c | 0 <= a < |r| && 0 <= c < |r[a].walkable|
      ensures r[a].walkable[c].kind == Walkable && r[a].walkable[c].effort == 0.0
    {
      var src, c0 := MergeSource(ns, i, j, a, c);
    }
    forall a, c, b2 | 0 <= a < |r| && 0 <= c < |r[a].walkable| && 0 <= b2 < |r| && r[b2].id == r[a].walkable[c].nodeId
      ensures HasWalkableTo(r[b2].walkable, r[a].id, r[a].walkable[c].dist)
    {
      var src, c0 := MergeSource(ns, i, j, a, c);
      MergePartner(ns, i, j, a, c, src, c0, b2);
    }
  }

  lemma {:induction false} InnerSymmetric(ns: seq<GraphNode>, i: nat, j: nat)
    requires i < j <= |ns| && OnSomeEdge(ns) && DistinctIds(ns) && WalkableSymmetricById(ns)
    ensures DistinctIds(DedupInner(ns, i, j)) && WalkableSymmetricById(DedupInner(ns, i, j))
    decreases |ns| - j
  {
    if j < |ns| {
      if Close(ns[i].position, ns[j].position) {
        MergeOnSomeEdge(ns, i, j);
        MergeDistinct(ns, i, j);
        MergeSymmetric(ns, i, j);
        InnerSymmetric(Merge(ns, i, j), i, j);
      } else {
        InnerSymmetric(ns, i, j + 1);
      }
    }
  }

  lemma {:induction false} OuterSymmetric(ns: seq<GraphNode>, i: nat)
    requires i <= |ns| && OnSomeEdge(ns) && DistinctIds(ns) && WalkableSymmetricById(ns)
    ensures DistinctIds(DedupOuter(ns, i)) && WalkableSymmetricById(DedupOuter(ns, i))
    decreases |ns| - i
  {
    if i < |ns| {
      InnerSymmetric(ns, i, i + 1);
      OuterSymmetric(DedupInner(ns, i, i + 1), i + 1);
    }
  }

  /** With distinct ids, removing duplicates keeps walking symmetric by
      id: every connection still has its partner, at the survivor. */
  lemma DedupSymmetric(ns: seq<GraphNode>)
    requires OnSomeEdge(ns) && DistinctIds(ns) && WalkableSymmetricById(ns)
    ensures WalkableSymmetricById(Dedup(ns))
  {
    OuterSymmetric(ns, 0);
  }

  // ---------------------------------------------------------------------
  // The imperative code.

  /** remove_duplicate_nodes. */
  method RemoveDuplicateNodes(pf: Pathfinding)
    requires OnSomeEdge(pf.nodes)
    modifies pf`nodes
    ensures pf.nodes == Dedup(old(pf.nodes))
  {
    ghost var ns := pf.nodes;
    var i := 0;
    while i < |pf.nodes|
      invariant i <= |pf.nodes| && OnSomeEdge(pf.nodes)
      invariant DedupOuter(pf.nodes, i) == Dedup(ns)
      decreases |pf.nodes| - i
    {
      ghost var before := |pf.nodes|;
      var j := i + 1;
      while j < |pf.nodes|
        invariant i < j <= |pf.nodes| <= before && OnSomeEdge(pf.nodes)
        invariant DedupOuter(DedupInner(pf.nodes, i, j), i + 1) == Dedup(ns)
        decreases |pf.nodes| - j
      {
        if LengthSquared(Sub(pf.nodes[i].position, pf.nodes[j].position)) < DuplicateTolerance {
          MergeOnSomeEdge(pf.nodes, i, j);
          MergeNodes(pf, i, j);
        } else {
          j := j + 1;
        }
      }
      i := i + 1;
    }
  }

  /** The body of the duplicate branch: node `i` absorbs node `j`. */
  method MergeNodes(pf: Pathfinding, i: nat, j: nat)
    requires i < j < |pf.nodes| && |pf.nodes[j].lineIndices| > 0
    modifies pf`nodes
    ensures pf.nodes == Merge(old(pf.nodes), i, j)
  {
    ghost var ns := pf.nodes;
    var jConnections := pf.nodes[j].walkable;
    pf.nodes := pf.nodes[i := pf.nodes[i].(walkable := pf.nodes[i].walkable + jConnections)];
    var firstNodeId := pf.nodes[i].id;
    var secondNodeId := pf.nodes[j].id;
    var secondNodeLineIndex := pf.nodes[j].lineIndices[0];
    pf.nodes := pf.nodes[i := pf.nodes[i].(lineIndices := pf.nodes[i].lineIndices + [secondNodeLineIndex])];
    pf.nodes := pf.nodes[..j] + pf.nodes[j + 1..];
    RetargetConnections(pf, secondNodeId, firstNodeId);
  }

  /** The loop over every connection of every node that redirects the
      connections to the removed node. */
  method RetargetConnections(pf: Pathfinding, from: nat, to: nat)
    modifies pf`nodes
    ensures pf.nodes == RetargetAll(old(pf.nodes), from, to)
  {
    ghost var ns := pf.nodes;
    for k := 0 to |pf.nodes|
      invariant |pf.nodes| == |ns|
      invariant forall m :: 0 <= m < k ==> pf.nodes[m] == RetargetAll(ns, from, to)[m]
      invariant forall m :: k <= m < |ns| ==> pf.nodes[m] == ns[m]
    {
      var walkable := pf.nodes[k].walkable;
      for c := 0 to |walkable|
        invariant |walkable| == |ns[k].walkable|
        invariant forall m :: 0 <= m < c ==> walkable[m] == RetargetOne(ns[k].walkable[m], from, to)
        invariant forall m :: c <= m < |walkable| ==> walkable[m] == ns[k].walkable[m]
      {
        if walkable[c].nodeId == from {
          walkable := walkable[c := walkable[c].(nodeId := to)];
        }
      }
      assert walkable == Retarget(ns[k].walkable, from, to);
      pf.nodes := pf.nodes[k := pf.nodes[k].(walkable := walkable)];
    }
  }
}
