/** Graphs in compressed sparse row form (graph.h 19-26) and hop distances in them. */
module Graphs {
  /** The successors of u are edges[offsets[u]..offsets[u + 1]]. */
  datatype Graph = Graph(nodes: nat, offsets: seq<nat>, edges: seq<nat>)

  ghost predicate GraphOk(g: Graph) {
    && |g.offsets| == g.nodes + 1 && g.offsets[0] == 0 && g.offsets[g.nodes] == |g.edges|
    && (forall u, v :: 0 <= u <= v <= g.nodes ==> g.offsets[u] <= g.offsets[v])
    && (forall e :: 0 <= e < |g.edges| ==> g.edges[e] < g.nodes)
  }

  /** Slot e of the edge array is an edge that leaves u. */
  predicate From(g: Graph, u: nat, e: nat)
    requires |g.offsets| == g.nodes + 1
  {
    u < g.nodes && g.offsets[u] <= e < g.offsets[u + 1]
  }

  ghost predicate Edge(g: Graph, u: nat, v: nat)
    requires GraphOk(g)
  {
    exists e: nat :: From(g, u, e) && SlotIs(g, e, v)
  }

  predicate SlotIs(g: Graph, e: nat, v: nat) {
    e < |g.edges| && g.edges[e] == v
  }

  /** There is a walk of exactly k edges from s to v. */
  ghost predicate Walk(g: Graph, s: nat, v: nat, k: nat)
    requires GraphOk(g)
    decreases k
  {
    if k == 0 then v == s else exists u: nat :: Walk(g, s, u, k - 1) && Edge(g, u, v)
  }

  /** The shortest walk from s to v has d edges. */
  ghost predicate Distance(g: Graph, s: nat, v: nat, d: nat)
    requires GraphOk(g)
  {
    Walk(g, s, v, d) && forall k: nat :: k < d ==> !Walk(g, s, v, k)
  }

  /** Along a shortest walk every smaller distance occurs just before. */
  lemma DistanceStep(g: Graph, s: nat, v: nat, d: nat) returns (u: nat)
    requires GraphOk(g) && d > 0 && Distance(g, s, v, d)
    ensures Distance(g, s, u, d - 1) && Edge(g, u, v)
  {
    u :| Walk(g, s, u, d - 1) && Edge(g, u, v);
    forall k: nat | k < d - 1
      ensures !Walk(g, s, u, k)
    {
      if Walk(g, s, u, k) {
        assert Walk(g, s, v, k + 1);
      }
    }
  }

  lemma {:induction false} WalkHasDistance(g: Graph, s: nat, v: nat, k: nat) returns (d: nat)
    requires GraphOk(g) && Walk(g, s, v, k)
    ensures d <= k && Distance(g, s, v, d)
    decreases k
  {
    d := k;
    if j: nat :| j < k && Walk(g, s, v, j) {
      d := WalkHasDistance(g, s, v, j);
    }
  }

  ghost predicate NoDup(s: seq<nat>) {
    forall i, j :: 0 <= i < j < |s| ==> s[i] != s[j]
  }

  function Below(n: nat): (r: set<nat>)
    ensures |r| == n && forall x :: x in r <==> 0 <= x < n
  {
    if n == 0 then {} else Below(n - 1) + {n - 1}
  }

  /** A list of different vertices is no longer than their number. */
  lemma {:induction false} NoDupBound(s: seq<nat>, n: nat)
    requires NoDup(s) && forall x :: x in s ==> x < n
    ensures |s| <= n
  {
    Cardinality(s, Below(n));
  }

  lemma {:induction false} Cardinality(s: seq<nat>, all: set<nat>)
    requires NoDup(s) && forall x :: x in s ==> x in all
    ensures |s| <= |all|
    decreases |s|
  {
    if s != [] {
      var last := s[|s| - 1];
      assert forall x :: x in s[..|s| - 1] ==> x in all - {last};
      Cardinality(s[..|s| - 1], all - {last});
    }
  }
}
