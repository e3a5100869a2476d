/** The shape of the node runs placement appends, independent of the level
    geometry: ids that count up, the edge each node lies on, and which
    nodes start a run (and so carry no walkable connection). */
module Runs {
  import opened Graph

  /** Node `k` starts a run: it is the first node, or the node before it
      lies on another edge. */
  predicate RunStart(ns: seq<GraphNode>, k: nat)
    requires k < |ns|
  {
    k == 0 || ns[k - 1].polygonIndex != ns[k].polygonIndex || ns[k - 1].lineIndices != ns[k].lineIndices
  }

  /** Nodes `run` form one edge's run from `base` on: ids count up from
      `base`, all lie on edge `l` of polygon `p`, and only the first has no
      walkable connection. */
  predicate RunShaped(run: seq<GraphNode>, base: nat, p: nat, l: nat) {
    forall j :: 0 <= j < |run| ==>
      && run[j].id == base + j && run[j].polygonIndex == p && run[j].lineIndices == [l]
      && (run[j].walkable == [] <==> j == 0)
  }

  /** Nodes `r` appended from `base` on over the first `n` edges of polygon
      `p`: ids count up from `base`, each lies on one of those edges, and
      a node has no walkable connection exactly when it starts a run. */
  predicate EdgeRunsShaped(r: seq<GraphNode>, base: nat, p: nat, n: nat) {
    && (forall k :: 0 <= k < |r| ==>
         && r[k].id == base + k && r[k].polygonIndex == p
         && |r[k].lineIndices| == 1 && r[k].lineIndices[0] < n)
    && forall k {:trigger RunStart(r, k)} :: 0 <= k < |r| ==> (r[k].walkable == [] <==> RunStart(r, k))
  }

  /** Nodes `r` appended from `base` on for the first `n` polygons: ids
      count up from `base`, each lies on one of those polygons, and a node
      has no walkable connection exactly when it starts a run. */
  predicate PolygonRunsShaped(r: seq<GraphNode>, base: nat, n: nat) {
    && (forall k :: 0 <= k < |r| ==> r[k].id == base + k && r[k].polygonIndex < n)
    && forall k {:trigger RunStart(r, k)} :: 0 <= k < |r| ==> (r[k].walkable == [] <==> RunStart(r, k))
  }

  /** Appending the run of edge n-1 to the runs of the edges before it. */
  lemma RunsAppend(prev: seq<GraphNode>, run: seq<GraphNode>, r: seq<GraphNode>, base: nat, p: nat, n: nat)
    requires r == prev + run
    requires n > 0 && EdgeRunsShaped(prev, base, p, n - 1)
    requires RunShaped(run, base + |prev|, p, n - 1)
    ensures EdgeRunsShaped(r, base, p, n)
  {
    forall k | 0 <= k < |r|
      ensures && r[k].id == base + k && r[k].polygonIndex == p
              && |r[k].lineIndices| == 1 && r[k].lineIndices[0] < n
              && (r[k].walkable == [] <==> RunStart(r, k))
    {
      if k < |prev| {
        assert r[k] == prev[k];
        assert k > 0 ==> r[k - 1] == prev[k - 1];
        assert RunStart(r, k) == RunStart(prev, k);
      } else {
        var j := k - |prev|;
        assert r[k] == run[j];
        if j > 0 {
          assert r[k - 1] == run[j - 1];
        } else if k > 0 {
          assert r[k - 1] == prev[k - 1];
          assert r[k - 1].lineIndices[0] < n - 1;
        }
      }
    }
  }

  /** Appending the runs of polygon n-1 to those of the polygons before it. */
  lemma PolygonsAppend(prev: seq<GraphNode>, runs: seq<GraphNode>, r: seq<GraphNode>, base: nat, n: nat, edges: nat)
    requires r == prev + runs
    requires n > 0 && PolygonRunsShaped(prev, base, n - 1)
    requires EdgeRunsShaped(runs, base + |prev|, n - 1, edges)
    ensures PolygonRunsShaped(r, base, n)
  {
    forall k | 0 <= k < |r|
      ensures && r[k].id == base + k && r[k].polygonIndex < n
              && (r[k].walkable == [] <==> RunStart(r, k))
    {
      if k < |prev| {
        assert r[k] == prev[k];
        assert k > 0 ==> r[k - 1] == prev[k - 1];
        assert RunStart(r, k) == RunStart(prev, k);
      } else {
        var m := k - |prev|;
        assert r[k] == runs[m];
        if m > 0 {
          assert r[k - 1] == runs[m - 1];
        } else if k > 0 {
          assert r[k - 1] == prev[k - 1];
        }
        assert RunStart(r, k) == RunStart(runs, m);
      }
    }
  }

  /** Appending `more` to `ns == start + done` gives `start + next` when
      `next == done + more`. */
  lemma AppendStep(ns: seq<GraphNode>, start: seq<GraphNode>, done: seq<GraphNode>, more: seq<GraphNode>, next: seq<GraphNode>)
    requires ns == start + done && next == done + more
    ensures ns + more == start + next
  {
  }

  /** Extending `before + run[..j]` by `run[j]` gives `before + run[..j + 1]`. */
  lemma PrefixStep(ns: seq<GraphNode>, before: seq<GraphNode>, run: seq<GraphNode>, j: nat, x: GraphNode)
    requires j < |run| && ns == before + run[..j] && x == run[j]
    ensures ns + [x] == before + run[..j + 1]
  {
    assert run[..j + 1] == run[..j] + [x];
  }
}
