/** What is done with the labels: relabel, sort and write the edges (dbg.cpp 87-104), and read them back as compressed
    rows (graph.h 57-81). */
module Relabelling {
  import opened Graphs
  import opened Grouping
  import opened Transpose

  datatype Arc = Arc(from: nat, to: nat, value: nat)

  predicate Leq(a: Arc, b: Arc) {
    a.from < b.from || (a.from == b.from && (a.to < b.to || (a.to == b.to && a.value <= b.value)))
  }

  ghost predicate SortedArcs(arcs: seq<Arc>) {
    forall i, j :: 0 <= i < j < |arcs| ==> Leq(arcs[i], arcs[j])
  }

  /** What the library sort does. */
  ghost predicate SortOk(sort: seq<Arc> -> seq<Arc>) {
    forall s: seq<Arc> :: SortedArcs(sort(s)) && multiset(sort(s)) == multiset(s)
  }

  ghost predicate Weighted(g: Graph, values: seq<nat>) {
    GraphOk(g) && |values| == |g.edges|
  }

  ghost function ArcAt(g: Graph, values: seq<nat>, e: nat): Arc
    requires Weighted(g, values) && e < |g.edges|
  {
    Arc(Source(g, e), g.edges[e], values[e])
  }

  /** The edges with their weights, in the order of the array. */
  ghost function ArcsOf(g: Graph, values: seq<nat>): (r: seq<Arc>)
    requires Weighted(g, values)
    ensures |r| == |g.edges| && forall e :: 0 <= e < |r| ==> r[e] == ArcAt(g, values, e)
  {
    seq(|g.edges|, e requires 0 <= e < |g.edges| && Weighted(g, values) => ArcAt(g, values, e))
  }

  function Rename(a: Arc, ret: seq<nat>): Arc
    requires a.from < |ret| && a.to < |ret|
  {
    Arc(ret[a.from], ret[a.to], a.value)
  }

  predicate ArcsInRange(arcs: seq<Arc>, n: nat) {
    forall i :: 0 <= i < |arcs| ==> arcs[i].from < n && arcs[i].to < n
  }

  function RenameAll(arcs: seq<Arc>, ret: seq<nat>): (r: seq<Arc>)
    requires ArcsInRange(arcs, |ret|)
    ensures |r| == |arcs|
  {
    seq(|arcs|, i requires 0 <= i < |arcs| => Rename(arcs[i], ret))
  }

  /** The nested loops that collect the relabelled edges. */
  method Collect(g: Graph, values: seq<nat>, ret: seq<nat>) returns (list: seq<Arc>)
    requires Weighted(g, values) && IsRelabelling(g, ret)
    ensures ArcsInRange(ArcsOf(g, values), |ret|) && list == RenameAll(ArcsOf(g, values), ret)
  {
    hide IsRelabelling;
    LabelsInRange(g, ret);
    list := [];
    var n := 0;
    while n < g.nodes
      invariant 0 <= n <= g.nodes && |list| == g.offsets[n]
      invariant forall e :: 0 <= e < |list| ==> list[e] == Rename(ArcAt(g, values, e), ret)
    {
      var e := g.offsets[n];
      while e < g.offsets[n + 1]
        invariant g.offsets[n] <= e == |list| <= g.offsets[n + 1] <= |g.edges|
        invariant forall e :: 0 <= e < |list| ==> list[e] == Rename(ArcAt(g, values, e), ret)
      {
        SourceIs(g, n, e);
        list := list + [Arc(ret[n], ret[g.edges[e]], values[e])];
        e := e + 1;
      }
      n := n + 1;
    }
    assert list == RenameAll(ArcsOf(g, values), ret);
  }

  lemma LabelsInRange(g: Graph, ret: seq<nat>)
    requires GraphOk(g) && IsRelabelling(g, ret)
    ensures |ret| == g.nodes && forall u :: 0 <= u < g.nodes ==> ret[u] < g.nodes
    ensures forall u, v :: 0 <= u < g.nodes && 0 <= v < g.nodes && ret[u] == ret[v] ==> u == v
  {
    forall u, v | 0 <= u < g.nodes && 0 <= v < g.nodes && ret[u] == ret[v]
      ensures u == v
    {
      assert !Before(g, u, v) && !Before(g, v, u);
    }
  }

  /** Row u starts where the first arc from u or a later vertex is. */
  predicate StartsAt(arcs: seq<Arc>, u: nat, start: nat) {
    && start <= |arcs|
    && (forall j :: 0 <= j < start ==> arcs[j].from < u)
    && (forall j :: start <= j < |arcs| ==> arcs[j].from >= u)
  }

  lemma StartHere(arcs: seq<Arc>, u: nat, i: nat)
    requires SortedArcs(arcs) && i <= |arcs| && (i < |arcs| ==> u <= arcs[i].from)
    requires forall j :: 0 <= j < i ==> arcs[j].from < u
    ensures StartsAt(arcs, u, i)
  {
    forall j | i <= j < |arcs|
      ensures arcs[j].from >= u
    {
      assert j > i ==> Leq(arcs[i], arcs[j]);
    }
  }

  /** Larger vertices start later, and the start of a row is determined. */
  lemma {:induction false} StartsInOrder(arcs: seq<Arc>, u: nat, a: nat, v: nat, b: nat)
    requires StartsAt(arcs, u, a) && StartsAt(arcs, v, b) && u <= v
    ensures a <= b
    decreases a
  {
    if a > 0 {
      // the last arc before row u also comes before row v
      assert arcs[a - 1].from < v;
    }
  }

  /** parse_csr_graph, from the sorted list of the edges in the file. */
  method Parse(n: nat, arcs: seq<Arc>) returns (h: Graph, values: seq<nat>)
    requires n > 0 && SortedArcs(arcs) && ArcsInRange(arcs, n)
    ensures h.nodes == n && Weighted(h, values) && ArcsOf(h, values) == arcs
  {
    hide SortedArcs, StartsAt;
    var nodeArray := new nat[n + 1](_ => 0);
    var edgeArray: seq<nat> := [];
    values := [];
    var node, i := 0, 0;
    StartHere(arcs, 0, 0);
    while i < |arcs|
      invariant 0 <= i <= |arcs| && node < n && |edgeArray| == |values| == i
      invariant forall j :: 0 <= j < i ==> edgeArray[j] == arcs[j].to && values[j] == arcs[j].value
      invariant forall j :: 0 <= j < i ==> arcs[j].from <= node
      invariant if i > 0 then node == arcs[i - 1].from else node == 0
      invariant forall u: nat :: u <= node ==> StartsAt(arcs, u, nodeArray[u])
    {
      var first := arcs[i].from;
      Later(arcs, i, node);
      while node != first
        invariant node <= first < n
        invariant forall j :: 0 <= j < i ==> arcs[j].from <= node
        invariant forall u: nat :: u <= node ==> StartsAt(arcs, u, nodeArray[u])
        decreases first - node
      {
        StartHere(arcs, node + 1, i);
        node := node + 1;
        nodeArray[node] := i;
      }
      edgeArray := edgeArray + [arcs[i].to];
      values := values + [arcs[i].value];
      i := i + 1;
    }
    while node != n - 1
      invariant node < n
      invariant forall j :: 0 <= j < i ==> arcs[j].from <= node
      invariant forall u: nat :: u <= node ==> StartsAt(arcs, u, nodeArray[u])
      decreases n - 1 - node
    {
      StartHere(arcs, node + 1, |arcs|);
      node := node + 1;
      nodeArray[node] := |arcs|;
    }
    StartHere(arcs, n, |arcs|);
    nodeArray[n] := |arcs|;
    h := Graph(n, nodeArray[..], edgeArray);
    ParsedIs(n, arcs, nodeArray[..], edgeArray, values);
  }

  lemma Later(arcs: seq<Arc>, i: nat, node: nat)
    requires SortedArcs(arcs) && i < |arcs| && if i > 0 then node == arcs[i - 1].from else node == 0
    ensures node <= arcs[i].from
  {
    assert i > 0 ==> Leq(arcs[i - 1], arcs[i]);
  }

  lemma ParsedIs(n: nat, arcs: seq<Arc>, offsets: seq<nat>, edges: seq<nat>, values: seq<nat>)
    requires |offsets| == n + 1 && |edges| == |values| == |arcs| && ArcsInRange(arcs, n)
    requires forall j :: 0 <= j < |arcs| ==> edges[j] == arcs[j].to && values[j] == arcs[j].value
    requires forall u: nat :: u <= n ==> StartsAt(arcs, u, offsets[u])
    ensures Weighted(Graph(n, offsets, edges), values) && ArcsOf(Graph(n, offsets, edges), values) == arcs
  {
    var h := Graph(n, offsets, edges);
    forall u, v | 0 <= u <= v <= n
      ensures offsets[u] <= offsets[v]
    {
      assert StartsAt(arcs, u, offsets[u]) && StartsAt(arcs, v, offsets[v]);
      StartsInOrder(arcs, u, offsets[u], v, offsets[v]);
    }
    assert StartsAt(arcs, 0, offsets[0]) && StartsAt(arcs, n, offsets[n]);
    assert StartsAt(arcs, 0, 0) && StartsAt(arcs, n, |arcs|);
    StartsInOrder(arcs, 0, offsets[0], 0, 0);
    StartsInOrder(arcs, n, |arcs|, n, offsets[n]);
    forall e | 0 <= e < |arcs|
      ensures ArcAt(h, values, e) == arcs[e]
    {
      var u := arcs[e].from;
      assert StartsAt(arcs, u, offsets[u]) && StartsAt(arcs, u + 1, offsets[u + 1]);
      SourceIs(h, u, e);
    }
  }

  /** Renaming by different labels keeps how often each arc occurs. */
  lemma {:induction false} CountRenamed(arcs: seq<Arc>, ret: seq<nat>, a: Arc)
    requires ArcsInRange(arcs, |ret|) && a.from < |ret| && a.to < |ret|
    requires forall u, v :: 0 <= u < |ret| && 0 <= v < |ret| && ret[u] == ret[v] ==> u == v
    ensures multiset(RenameAll(arcs, ret))[Rename(a, ret)] == multiset(arcs)[a]
    decreases |arcs|
  {
    if arcs != [] {
      var before, last := arcs[..|arcs| - 1], arcs[|arcs| - 1];
      CountRenamed(before, ret, a);
      assert arcs == before + [last];
      assert RenameAll(arcs, ret) == RenameAll(before, ret) + [Rename(last, ret)];
    }
  }

  /** h is g with its vertices renamed: the weighted edges correspond one to one. */
  ghost predicate Isomorphic(g: Graph, values: seq<nat>, h: Graph, weights: seq<nat>, ret: seq<nat>)
    requires Weighted(g, values) && Weighted(h, weights)
  {
    && h.nodes == g.nodes == |ret|
    && forall a: Arc :: a.from < g.nodes && a.to < g.nodes ==>
                          multiset(ArcsOf(h, weights))[Rename(a, ret)] == multiset(ArcsOf(g, values))[a]
  }

  /** In every row the edges are in ascending order of their targets, and of their weights where these are equal. */
  ghost predicate RowsInOrder(h: Graph, weights: seq<nat>)
    requires Weighted(h, weights)
  {
    forall u: nat, e: nat, f: nat :: From(h, u, e) && From(h, u, f) && e < f ==>
      h.edges[e] < h.edges[f] || (h.edges[e] == h.edges[f] && weights[e] <= weights[f])
  }

  lemma SortedInRows(h: Graph, weights: seq<nat>)
    requires Weighted(h, weights) && SortedArcs(ArcsOf(h, weights))
    ensures RowsInOrder(h, weights)
  {
    forall u: nat, e: nat, f: nat | From(h, u, e) && From(h, u, f) && e < f
      ensures h.edges[e] < h.edges[f] || (h.edges[e] == h.edges[f] && weights[e] <= weights[f])
    {
      SourceIs(h, u, e);
      SourceIs(h, u, f);
      assert Leq(ArcsOf(h, weights)[e], ArcsOf(h, weights)[f]);
    }
  }

  /** The whole tool: group, relabel, sort, write and read back. */
  method Reorder(g: Graph, values: seq<nat>, sort: seq<Arc> -> seq<Arc>)
    returns (h: Graph, weights: seq<nat>, ret: seq<nat>)
    requires Weighted(g, values) && g.nodes > 0 && SortOk(sort)
    ensures IsRelabelling(g, ret) && Weighted(h, weights) && Isomorphic(g, values, h, weights, ret)
    ensures RowsInOrder(h, weights)
  {
    hide IsRelabelling, SortedArcs;
    ret := Kernel(g);
    LabelsInRange(g, ret);
    var list := Collect(g, values, ret);
    var sorted := sort(list);
    SortInRange(list, sorted, g.nodes);
    h, weights := Parse(g.nodes, sorted);
    SortedInRows(h, weights);
    forall a: Arc | a.from < g.nodes && a.to < g.nodes
      ensures multiset(ArcsOf(h, weights))[Rename(a, ret)] == multiset(ArcsOf(g, values))[a]
    {
      CountRenamed(ArcsOf(g, values), ret, a);
    }
  }

  lemma SortInRange(list: seq<Arc>, sorted: seq<Arc>, n: nat)
    requires ArcsInRange(list, n) && multiset(sorted) == multiset(list)
    ensures ArcsInRange(sorted, n)
  {
    forall i | 0 <= i < |sorted|
      ensures sorted[i].from < n && sorted[i].to < n
    {
      assert sorted[i] in multiset(list);
    }
  }
}
