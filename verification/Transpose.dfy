/** Conversion from compressed rows to compressed columns by counting sort (graph.h 90-188). */
module Transpose {
  import opened Graphs

  function Row(g: Graph, u: nat): seq<nat>
    requires GraphOk(g) && u < g.nodes
  {
    g.edges[g.offsets[u]..g.offsets[u + 1]]
  }

  /** How many edges lead from u to w. */
  ghost function Multiplicity(g: Graph, u: nat, w: nat): nat
    requires GraphOk(g) && u < g.nodes
  {
    multiset(Row(g, u))[w]
  }

  ghost predicate Sorted(s: seq<nat>) {
    forall i, j :: 0 <= i < j < |s| ==> s[i] <= s[j]
  }

  ghost predicate SortedRows(g: Graph)
    requires GraphOk(g)
  {
    forall u: nat :: u < g.nodes ==> Sorted(Row(g, u))
  }

  /** Every edge is reversed, with its multiplicity, and every row is sorted. */
  ghost predicate IsTranspose(g: Graph, t: Graph)
    requires GraphOk(g)
  {
    && GraphOk(t) && t.nodes == g.nodes && SortedRows(t)
    && forall w: nat :: w < g.nodes ==> TransposedAt(g, t, w)
  }

  ghost predicate TransposedAt(g: Graph, t: Graph, w: nat)
    requires GraphOk(g) && GraphOk(t) && t.nodes == g.nodes && w < g.nodes
  {
    forall u: nat :: u < g.nodes ==> Multiplicity(t, w, u) == Multiplicity(g, u, w)
  }

  // ---------------------------------------------------------------- counting in edge lists

  /** How often x occurs among the first k entries, and how many of these entries are smaller than x. */
  function CountIn(s: seq<nat>, x: nat, k: nat): nat
    requires k <= |s|
  {
    if k == 0 then 0 else CountIn(s, x, k - 1) + if s[k - 1] == x then 1 else 0
  }

  function CountBelow(s: seq<nat>, x: nat, k: nat): nat
    requires k <= |s|
  {
    if k == 0 then 0 else CountBelow(s, x, k - 1) + if s[k - 1] < x then 1 else 0
  }

  lemma {:induction false} CountSplit(s: seq<nat>, x: nat, k: nat)
    requires k <= |s|
    ensures CountBelow(s, x + 1, k) == CountBelow(s, x, k) + CountIn(s, x, k)
  {
    if k > 0 {
      CountSplit(s, x, k - 1);
    }
  }

  lemma {:induction false} CountBelowMonotone(s: seq<nat>, x: nat, y: nat, k: nat)
    requires k <= |s| && x <= y
    ensures CountBelow(s, x, k) <= CountBelow(s, y, k) <= k
  {
    if k > 0 {
      CountBelowMonotone(s, x, y, k - 1);
    }
  }

  lemma {:induction false} CountBelowAll(s: seq<nat>, n: nat, k: nat)
    requires k <= |s| && forall i :: 0 <= i < |s| ==> s[i] < n
    ensures CountBelow(s, n, k) == k && CountBelow(s, 0, k) == 0
  {
    if k > 0 {
      CountBelowAll(s, n, k - 1);
    }
  }

  lemma {:induction false} CountInMonotone(s: seq<nat>, x: nat, j: nat, k: nat)
    requires j <= k <= |s|
    ensures CountIn(s, x, j) <= CountIn(s, x, k)
    decreases k
  {
    if j < k {
      CountInMonotone(s, x, j, k - 1);
    }
  }

  /** The row that slot e belongs to. */
  ghost function Source(g: Graph, e: nat): (u: nat)
    requires GraphOk(g) && e < |g.edges|
    ensures From(g, u, e)
  {
    SourceExists(g, e, g.nodes);
    var u: nat :| From(g, u, e);
    u
  }

  lemma {:induction false} SourceExists(g: Graph, e: nat, k: nat)
    requires GraphOk(g) && k <= g.nodes && e < g.offsets[k]
    ensures exists u: nat :: From(g, u, e)
    decreases k
  {
    if g.offsets[k - 1] <= e {
      assert From(g, k - 1, e);
    } else {
      SourceExists(g, e, k - 1);
    }
  }

  lemma RowsApart(g: Graph, u: nat, v: nat, e: nat)
    requires GraphOk(g) && From(g, u, e) && v < g.nodes
    ensures u < v ==> e < g.offsets[v]
  {
    assert u < v ==> g.offsets[u + 1] <= g.offsets[v];
  }

  lemma SourceIs(g: Graph, u: nat, e: nat)
    requires GraphOk(g) && From(g, u, e) && e < |g.edges|
    ensures Source(g, e) == u
  {
    RowsApart(g, u, Source(g, e), e);
    RowsApart(g, Source(g, e), u, e);
  }

  /** How many of the first k edges lead from u to w. */
  ghost function CountPair(g: Graph, u: nat, w: nat, k: nat): nat
    requires GraphOk(g) && k <= |g.edges|
  {
    if k == 0 then 0
    else CountPair(g, u, w, k - 1) + if Source(g, k - 1) == u && g.edges[k - 1] == w then 1 else 0
  }

  lemma RowSnoc(s: seq<nat>, lo: nat, k: nat, w: nat)
    requires lo < k <= |s|
    ensures multiset(s[lo..k])[w] == multiset(s[lo..k - 1])[w] + if s[k - 1] == w then 1 else 0
  {
    assert s[lo..k] == s[lo..k - 1] + [s[k - 1]];
  }

  /** The part of slots below k that belongs to row u ends here. */
  function RowEnd(g: Graph, u: nat, k: nat): (r: nat)
    requires GraphOk(g) && u < g.nodes && k <= |g.edges|
    ensures g.offsets[u] <= r <= g.offsets[u + 1] <= |g.edges|
  {
    if k <= g.offsets[u] then g.offsets[u] else if k <= g.offsets[u + 1] then k else g.offsets[u + 1]
  }

  /** Of the edges up to slot k, those of row u lie in its part of the array. */
  lemma {:induction false} CountPairInRow(g: Graph, u: nat, w: nat, k: nat)
    requires GraphOk(g) && u < g.nodes && k <= |g.edges|
    ensures CountPair(g, u, w, k) == multiset(g.edges[g.offsets[u]..RowEnd(g, u, k)])[w]
    decreases k
  {
    if k > 0 {
      CountPairInRow(g, u, w, k - 1);
      if g.offsets[u] < k <= g.offsets[u + 1] {
        SourceIs(g, u, k - 1);
        RowSnoc(g.edges, g.offsets[u], k, w);
      } else {
        assert Source(g, k - 1) != u && RowEnd(g, u, k) == RowEnd(g, u, k - 1);
      }
    }
  }

  // ---------------------------------------------------------------- the scatter loop

  /** Column w starts at `base`, and its first `used` slots hold the sources of the edges to w among the first k
      edges, in ascending order and all below `limit`; the rest of the column is unwritten. */
  ghost predicate Column(g: Graph, out: seq<int>, base: nat, used: nat, size: nat, w: nat, limit: nat, k: nat)
    requires GraphOk(g) && k <= |g.edges|
  {
    && used <= size && base + size <= |out|
    && (forall j :: base <= j < base + used ==> 0 <= out[j] < limit)
    && (forall i, j :: base <= i < j < base + used ==> out[i] <= out[j])
    && (forall j :: base + used <= j < base + size ==> out[j] == -1)
    && SourcesOf(g, out[base..base + used], w, k)
  }

  /** The list holds the sources of the edges to w among the first k edges. */
  ghost predicate SourcesOf(g: Graph, list: seq<int>, w: nat, k: nat)
    requires GraphOk(g) && k <= |g.edges|
  {
    forall u: nat :: u < g.nodes ==> multiset(list)[u] == CountPair(g, u, w, k)
  }

  lemma SourcesNext(g: Graph, list: seq<int>, w: nat, k: nat)
    requires GraphOk(g) && k < |g.edges| && SourcesOf(g, list, w, k)
    ensures g.edges[k] != w ==> SourcesOf(g, list, w, k + 1)
    ensures g.edges[k] == w ==> SourcesOf(g, list + [Source(g, k)], w, k + 1)
  {
    assert forall x: nat ::
        CountPair(g, x, w, k + 1) == CountPair(g, x, w, k) + if Source(g, k) == x && g.edges[k] == w then 1 else 0;
  }

  ghost predicate Scattered(g: Graph, base: seq<nat>, used: seq<nat>, out: seq<int>, limit: nat, k: nat)
    requires GraphOk(g) && k <= |g.edges|
  {
    && |base| == g.nodes + 1 && |used| == g.nodes && |out| == |g.edges|
    && (forall w: nat :: w <= g.nodes ==> base[w] == CountBelow(g.edges, w, |g.edges|))
    && (forall w: nat :: w < g.nodes ==> used[w] == CountIn(g.edges, w, k))
    && (forall w: nat :: w < g.nodes ==>
          Column(g, out, base[w], used[w], CountIn(g.edges, w, |g.edges|), w, limit, k))
  }

  /** Writing in another column changes nothing here. */
  lemma ColumnElsewhere(g: Graph, out: seq<int>, base: nat, used: nat, size: nat, w: nat, limit: nat, k: nat,
                        j: nat, u: nat)
    requires GraphOk(g) && k < |g.edges| && Column(g, out, base, used, size, w, limit, k)
    requires j < |out| && (j < base || base + size <= j) && g.edges[k] != w
    ensures Column(g, out[j := u], base, used, size, w, limit, k + 1)
  {
    hide SourcesOf, CountPair;
    var out' := out[j := u];
    assert out'[base..base + used] == out[base..base + used];
    SourcesNext(g, out[base..base + used], w, k);
    assert forall i :: base <= i < base + size ==> out'[i] == out[i];
  }

  lemma ColumnHere(g: Graph, out: seq<int>, base: nat, used: nat, size: nat, w: nat, u: nat, k: nat)
    requires GraphOk(g) && k < |g.edges| && Column(g, out, base, used, size, w, u + 1, k)
    requires used < size && g.edges[k] == w && Source(g, k) == u
    ensures out[base + used] == -1 && Column(g, out[base + used := u], base, used + 1, size, w, u + 1, k + 1)
  {
    hide SourcesOf, CountPair;
    var out' := out[base + used := u];
    assert out'[base..base + used + 1] == out[base..base + used] + [u];
    SourcesNext(g, out[base..base + used], w, k);
    assert forall i :: base <= i < base + size && i != base + used ==> out'[i] == out[i];
  }

  lemma ScatterStep(g: Graph, base: seq<nat>, used: seq<nat>, out: seq<int>, u: nat, k: nat)
    requires GraphOk(g) && From(g, u, k) && k < |g.edges| && Scattered(g, base, used, out, u + 1, k)
    ensures var w := g.edges[k];
            && base[w] + used[w] < |out| && out[base[w] + used[w]] == -1
            && Scattered(g, base, used[w := used[w] + 1], out[base[w] + used[w] := u], u + 1, k + 1)
  {
    hide Column;
    var w := g.edges[k];
    var used' := used[w := used[w] + 1];
    SourceIs(g, u, k);
    CountInMonotone(g.edges, w, k + 1, |g.edges|);
    var j := base[w] + used[w];
    assert Column(g, out, base[w], used[w], CountIn(g.edges, w, |g.edges|), w, u + 1, k);
    ColumnHere(g, out, base[w], used[w], CountIn(g.edges, w, |g.edges|), w, u, k);
    ColumnFits(g, out, base[w], used[w], CountIn(g.edges, w, |g.edges|), w, u + 1, k);
    forall x: nat | x < g.nodes
      ensures used'[x] == CountIn(g.edges, x, k + 1)
      ensures Column(g, out[j := u], base[x], used'[x], CountIn(g.edges, x, |g.edges|), x, u + 1, k + 1)
    {
      if x != w {
        assert Column(g, out, base[x], used[x], CountIn(g.edges, x, |g.edges|), x, u + 1, k);
        ColumnsApart(g, x, w);
        ColumnElsewhere(g, out, base[x], used[x], CountIn(g.edges, x, |g.edges|), x, u + 1, k, j, u);
      }
    }
  }

  lemma ColumnFits(g: Graph, out: seq<int>, base: nat, used: nat, size: nat, w: nat, limit: nat, k: nat)
    requires GraphOk(g) && k <= |g.edges| && Column(g, out, base, used, size, w, limit, k)
    ensures base + size <= |out|
  {
  }

  /** The columns do not overlap. */
  lemma ColumnsApart(g: Graph, x: nat, w: nat)
    requires GraphOk(g) && x != w
    ensures var e := g.edges;
            || CountBelow(e, w, |e|) + CountIn(e, w, |e|) <= CountBelow(e, x, |e|)
            || CountBelow(e, x, |e|) + CountIn(e, x, |e|) <= CountBelow(e, w, |e|)
  {
    var e := g.edges;
    CountSplit(e, x, |e|);
    CountSplit(e, w, |e|);
    if x < w {
      CountBelowMonotone(e, x + 1, w, |e|);
    } else {
      CountBelowMonotone(e, w + 1, x, |e|);
    }
  }

  lemma ScatterStart(g: Graph, base: seq<nat>, used: seq<nat>, out: seq<int>)
    requires GraphOk(g) && |base| == g.nodes + 1 && |used| == g.nodes && |out| == |g.edges|
    requires forall w: nat :: w <= g.nodes ==> base[w] == CountBelow(g.edges, w, |g.edges|)
    requires (forall w :: 0 <= w < g.nodes ==> used[w] == 0) && forall j :: 0 <= j < |out| ==> out[j] == -1
    ensures Scattered(g, base, used, out, 0, 0)
  {
    forall w: nat | w < g.nodes
      ensures Column(g, out, base[w], used[w], CountIn(g.edges, w, |g.edges|), w, 0, 0)
    {
      CountSplit(g.edges, w, |g.edges|);
      CountBelowMonotone(g.edges, w + 1, w + 1, |g.edges|);
    }
  }

  /** The next vertex. */
  lemma ScatterLater(g: Graph, base: seq<nat>, used: seq<nat>, out: seq<int>, u: nat, k: nat)
    requires GraphOk(g) && k <= |g.edges| && Scattered(g, base, used, out, u, k)
    ensures Scattered(g, base, used, out, u + 1, k)
  {
    forall w: nat | w < g.nodes
      ensures Column(g, out, base[w], used[w], CountIn(g.edges, w, |g.edges|), w, u + 1, k)
    {
      assert Column(g, out, base[w], used[w], CountIn(g.edges, w, |g.edges|), w, u, k);
    }
  }

  lemma {:induction false} WhichColumn(g: Graph, j: nat, k: nat) returns (w: nat)
    requires GraphOk(g) && k <= g.nodes && j < CountBelow(g.edges, k, |g.edges|)
    ensures w < k && CountBelow(g.edges, w, |g.edges|) <= j
    ensures j < CountBelow(g.edges, w, |g.edges|) + CountIn(g.edges, w, |g.edges|)
    decreases k
  {
    if k == 0 {
      CountBelowAll(g.edges, g.nodes, |g.edges|);
    } else if CountBelow(g.edges, k - 1, |g.edges|) <= j {
      CountSplit(g.edges, k - 1, |g.edges|);
      w := k - 1;
    } else {
      w := WhichColumn(g, j, k - 1);
    }
  }

  /** When all edges are placed, every slot is written. */
  lemma AllWritten(g: Graph, base: seq<nat>, used: seq<nat>, out: seq<int>)
    requires GraphOk(g) && Scattered(g, base, used, out, g.nodes, |g.edges|)
    ensures forall j :: 0 <= j < |out| ==> 0 <= out[j] < g.nodes
  {
    hide CountPair, CountBelow, CountIn;
    forall j: nat | j < |out|
      ensures 0 <= out[j] < g.nodes
    {
      CountBelowAll(g.edges, g.nodes, |g.edges|);
      var w := WhichColumn(g, j, g.nodes);
      assert Column(g, out, base[w], used[w], CountIn(g.edges, w, |g.edges|), w, g.nodes, |g.edges|);
      SlotInRange(g, out, base[w], used[w], w, j);
    }
  }

  /** A written slot holds a vertex, because it is the source of an edge. */
  lemma SlotInRange(g: Graph, out: seq<int>, base: nat, used: nat, w: nat, j: nat)
    requires GraphOk(g) && Column(g, out, base, used, used, w, g.nodes, |g.edges|) && base <= j < base + used
    ensures 0 <= out[j] < g.nodes
  {
  }

  lemma BaseIsMonotone(g: Graph, base: seq<nat>)
    requires GraphOk(g) && |base| == g.nodes + 1
    requires forall w: nat :: w <= g.nodes ==> base[w] == CountBelow(g.edges, w, |g.edges|)
    ensures base[0] == 0 && base[g.nodes] == |g.edges|
    ensures forall u, v :: 0 <= u <= v <= g.nodes ==> base[u] <= base[v]
  {
    CountBelowAll(g.edges, g.nodes, |g.edges|);
    forall u, v | 0 <= u <= v <= g.nodes
      ensures base[u] <= base[v]
    {
      CountBelowMonotone(g.edges, u, v, |g.edges|);
    }
  }

  /** Then the result is the transpose. */
  lemma ScatterDone(g: Graph, base: seq<nat>, used: seq<nat>, out: seq<int>, edges: seq<nat>)
    requires GraphOk(g) && Scattered(g, base, used, out, g.nodes, |g.edges|)
    requires |edges| == |out| && (forall j :: 0 <= j < |out| ==> edges[j] == out[j])
    ensures GraphOk(Graph(g.nodes, base, edges)) && IsTranspose(g, Graph(g.nodes, base, edges))
  {
    hide CountPair, CountBelow, CountIn, Multiplicity;
    BaseIsMonotone(g, base);
    AllWritten(g, base, used, out);
    var t := Graph(g.nodes, base, edges);
    forall w: nat | w < g.nodes
      ensures Sorted(Row(t, w))
      ensures TransposedAt(g, t, w)
    {
      assert Column(g, out, base[w], used[w], CountIn(g.edges, w, |g.edges|), w, g.nodes, |g.edges|);
      CountSplit(g.edges, w, |g.edges|);
      assert base[w + 1] == base[w] + used[w];
      ColumnIsRow(g, t, out, used[w], w);
    }
  }

  lemma ColumnIsRow(g: Graph, t: Graph, out: seq<int>, used: nat, w: nat)
    requires GraphOk(g) && GraphOk(t) && w < t.nodes == g.nodes && t.offsets[w + 1] == t.offsets[w] + used
    requires |out| == |t.edges| && forall j :: 0 <= j < |out| ==> t.edges[j] == out[j]
    requires Column(g, out, t.offsets[w], used, used, w, g.nodes, |g.edges|)
    ensures Sorted(Row(t, w)) && TransposedAt(g, t, w)
  {
    assert Row(t, w) == out[t.offsets[w]..t.offsets[w] + used];
    forall u: nat | u < g.nodes
      ensures Multiplicity(t, w, u) == Multiplicity(g, u, w)
    {
      CountPairInRow(g, u, w, |g.edges|);
      assert RowEnd(g, u, |g.edges|) == g.offsets[u + 1];
    }
  }

  // ---------------------------------------------------------------- the conversion

  /** Count the incoming edges of every vertex. */
  method CountIncoming(g: Graph) returns (incoming: array<nat>)
    requires GraphOk(g)
    ensures fresh(incoming) && incoming.Length == g.nodes
    ensures forall w: nat :: w < g.nodes ==> incoming[w] == CountIn(g.edges, w, |g.edges|)
  {
    incoming := new nat[g.nodes](_ => 0);
    var n := 0;
    while n < g.nodes
      invariant 0 <= n <= g.nodes
      invariant forall w: nat :: w < g.nodes ==> incoming[w] == CountIn(g.edges, w, g.offsets[n])
    {
      var e := g.offsets[n];
      while e < g.offsets[n + 1]
        invariant g.offsets[n] <= e <= g.offsets[n + 1] <= |g.edges|
        invariant forall w: nat :: w < g.nodes ==> incoming[w] == CountIn(g.edges, w, e)
      {
        incoming[g.edges[e]] := incoming[g.edges[e]] + 1;
        e := e + 1;
      }
      n := n + 1;
    }
  }

  /** Prefix sums turn the counts into the ends of the columns. */
  method PrefixSums(g: Graph, incoming: array<nat>)
    requires GraphOk(g) && incoming.Length == g.nodes
    requires forall w: nat :: w < g.nodes ==> incoming[w] == CountIn(g.edges, w, |g.edges|)
    modifies incoming
    ensures forall w: nat :: w < g.nodes ==> incoming[w] == CountBelow(g.edges, w + 1, |g.edges|)
  {
    hide CountIn, CountBelow;
    CountBelowAll(g.edges, g.nodes, |g.edges|);
    CountSplit(g.edges, 0, |g.edges|);
    var n := 1;
    while n < g.nodes
      invariant 1 <= n
      invariant forall w: nat :: w < n && w < g.nodes ==> incoming[w] == CountBelow(g.edges, w + 1, |g.edges|)
      invariant forall w: nat :: n <= w < g.nodes ==> incoming[w] == CountIn(g.edges, w, |g.edges|)
    {
      CountSplit(g.edges, n, |g.edges|);
      incoming[n] := incoming[n] + incoming[n - 1];
      n := n + 1;
    }
  }

  /** Place the edges of one vertex. The slots written are unwritten before. */
  method ScatterNode(g: Graph, base: seq<nat>, incoming: array<nat>, edgeArray: array<int>, n: nat)
    requires GraphOk(g) && n < g.nodes && |base| == g.nodes + 1 && incoming.Length == g.nodes
    requires edgeArray.Length == |g.edges| && Scattered(g, base, incoming[..], edgeArray[..], n + 1, g.offsets[n])
    modifies incoming, edgeArray
    ensures Scattered(g, base, incoming[..], edgeArray[..], n + 1, g.offsets[n + 1])
  {
    hide Scattered;
    var e := g.offsets[n];
    while e < g.offsets[n + 1]
      invariant g.offsets[n] <= e <= g.offsets[n + 1] <= |g.edges|
      invariant Scattered(g, base, incoming[..], edgeArray[..], n + 1, e)
    {
      ghost var used, out := incoming[..], edgeArray[..];
      ScatterStep(g, base, used, out, n, e);
      var w := g.edges[e];
      assert edgeArray[base[w] + incoming[w]] == -1;
      edgeArray[base[w] + incoming[w]] := n;
      incoming[w] := incoming[w] + 1;
      assert incoming[..] == used[w := used[w] + 1] && edgeArray[..] == out[base[w] + used[w] := n];
      e := e + 1;
    }
  }

  /** convert_csr_to_csc, for a graph with at least one vertex. */
  method Convert(g: Graph) returns (t: Graph)
    requires GraphOk(g) && g.nodes > 0
    ensures IsTranspose(g, t)
  {
    hide CountIn, CountBelow, Scattered, IsTranspose;
    var incoming := CountIncoming(g);
    PrefixSums(g, incoming);
    CountBelowAll(g.edges, g.nodes, |g.edges|);
    assert incoming[g.nodes - 1] == |g.edges|;
    var base := ColumnStarts(g, incoming);
    var edgeArray := new int[|g.edges|](_ => -1);
    forall w | 0 <= w < g.nodes { incoming[w] := 0; }
    ScatterStart(g, base, incoming[..], edgeArray[..]);
    var n := 0;
    while n < g.nodes
      invariant 0 <= n <= g.nodes
      invariant Scattered(g, base, incoming[..], edgeArray[..], n, g.offsets[n])
    {
      ScatterLater(g, base, incoming[..], edgeArray[..], n, g.offsets[n]);
      ScatterNode(g, base, incoming, edgeArray, n);
      n := n + 1;
    }
    AllWritten(g, base, incoming[..], edgeArray[..]);
    assert forall e :: 0 <= e < |g.edges| ==> edgeArray[..][e] != -1;
    var edges: seq<nat> := seq(|g.edges|, e requires 0 <= e < edgeArray.Length && edgeArray[e] >= 0 reads edgeArray =>
                                            edgeArray[e]);
    ScatterDone(g, base, incoming[..], edgeArray[..], edges);
    t := Graph(g.nodes, base, edges);
  }

  method ColumnStarts(g: Graph, incoming: array<nat>) returns (base: seq<nat>)
    requires GraphOk(g) && incoming.Length == g.nodes
    requires forall w: nat :: w < g.nodes ==> incoming[w] == CountBelow(g.edges, w + 1, |g.edges|)
    ensures |base| == g.nodes + 1 && forall w: nat :: w <= g.nodes ==> base[w] == CountBelow(g.edges, w, |g.edges|)
  {
    hide CountBelow;
    CountBelowAll(g.edges, g.nodes, |g.edges|);
    var nodeArray := new nat[g.nodes + 1](_ => 0);
    var n := 1;
    while n <= g.nodes
      invariant 1 <= n <= g.nodes + 1
      invariant forall w: nat :: w < n ==> nodeArray[w] == CountBelow(g.edges, w, |g.edges|)
    {
      nodeArray[n] := incoming[n - 1];
      n := n + 1;
    }
    base := nodeArray[..];
  }

  // ---------------------------------------------------------------- transposing twice

  lemma {:induction false} SortedUnique(a: seq<nat>, b: seq<nat>)
    requires Sorted(a) && Sorted(b) && multiset(a) == multiset(b)
    ensures a == b
  {
    hide Sorted;
    assert |a| == |multiset(a)| == |multiset(b)| == |b|;
    if a != [] {
      var m, x := a[..|a| - 1], a[|a| - 1];
      assert x in multiset(b);
      var n, y := b[..|b| - 1], b[|b| - 1];
      LastIsMax(a, y);
      LastIsMax(b, x);
      assert a == m + [x] && b == n + [x];
      CancelOne(multiset(m), multiset(n), x);
      SortedPrefix(a);
      SortedPrefix(b);
      SortedUnique(m, n);
    }
  }

  lemma SortedPrefix(s: seq<nat>)
    requires Sorted(s) && s != []
    ensures Sorted(s[..|s| - 1])
  {
  }

  lemma LastIsMax(s: seq<nat>, x: nat)
    requires Sorted(s)
    ensures x in multiset(s) ==> s != [] && x <= s[|s| - 1]
  {
  }

  lemma CancelOne(m: multiset<nat>, n: multiset<nat>, x: nat)
    requires m + multiset{x} == n + multiset{x}
    ensures m == n
  {
    forall v
      ensures m[v] == n[v]
    {
      assert (m + multiset{x})[v] == (n + multiset{x})[v];
    }
  }

  /** Equal multiplicities make equal rows up to order. */
  lemma SameRow(g: Graph, h: Graph, u: nat)
    requires GraphOk(g) && GraphOk(h) && g.nodes == h.nodes && u < g.nodes
    requires forall w: nat :: w < g.nodes ==> Multiplicity(g, u, w) == Multiplicity(h, u, w)
    ensures multiset(Row(g, u)) == multiset(Row(h, u))
  {
    forall w: nat
      ensures multiset(Row(g, u))[w] == multiset(Row(h, u))[w]
    {
      if w >= g.nodes {
        assert w !in Row(g, u) && w !in Row(h, u);
      } else {
        assert Multiplicity(g, u, w) == Multiplicity(h, u, w);
      }
    }
  }

  /** Transposing twice gives the original graph with every row sorted. */
  lemma TransposeTwice(g: Graph, t: Graph, r: Graph)
    requires GraphOk(g) && IsTranspose(g, t) && IsTranspose(t, r)
    ensures r.nodes == g.nodes && SortedRows(r)
    ensures forall u: nat :: u < g.nodes ==> multiset(Row(r, u)) == multiset(Row(g, u))
    ensures SortedRows(g) ==> r == g
  {
    forall u: nat | u < g.nodes
      ensures multiset(Row(r, u)) == multiset(Row(g, u))
    {
      forall w: nat | w < g.nodes
        ensures Multiplicity(r, u, w) == Multiplicity(g, u, w)
      {
        assert TransposedAt(t, r, u) && TransposedAt(g, t, w);
        assert Multiplicity(t, w, u) == Multiplicity(g, u, w);
      }
      SameRow(r, g, u);
    }
    if SortedRows(g) {
      forall u: nat | u < g.nodes
        ensures Row(r, u) == Row(g, u)
      {
        SortedUnique(Row(r, u), Row(g, u));
      }
      SameRows(r, g, g.nodes);
    }
  }

  /** A graph is determined by its rows. */
  lemma {:induction false} SameRows(g: Graph, h: Graph, k: nat)
    requires GraphOk(g) && GraphOk(h) && g.nodes == h.nodes && k <= g.nodes
    requires forall u: nat :: u < g.nodes ==> Row(g, u) == Row(h, u)
    ensures g.offsets[..k + 1] == h.offsets[..k + 1]
    ensures g.edges[..g.offsets[k]] == h.edges[..h.offsets[k]]
    ensures k == g.nodes ==> g == h
    decreases k
  {
    if k > 0 {
      SameRows(g, h, k - 1);
      assert g.offsets[k - 1] == g.offsets[..k][k - 1] == h.offsets[..k][k - 1] == h.offsets[k - 1];
      assert |Row(g, k - 1)| == |Row(h, k - 1)|;
      assert g.edges[..g.offsets[k]] == g.edges[..g.offsets[k - 1]] + Row(g, k - 1);
      assert h.edges[..h.offsets[k]] == h.edges[..h.offsets[k - 1]] + Row(h, k - 1);
      assert g.offsets[..k + 1] == g.offsets[..k] + [g.offsets[k]];
      assert h.offsets[..k + 1] == h.offsets[..k] + [h.offsets[k]];
    }
    if k == g.nodes {
      assert g.edges == g.edges[..g.offsets[k]] && h.edges == h.edges[..h.offsets[k]];
      assert g.offsets == g.offsets[..k + 1] && h.offsets == h.offsets[..k + 1];
    }
  }
}
