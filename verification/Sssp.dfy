/** The frontier Bellman-Ford shortest paths (sssp/sssp.h 22-89). The kernel is proved for worklists that are long
    enough; when the five entries per vertex of the source are, is the subject of SsspCapacity. */
module Sssp {
  import opened Graphs

  const WEIGHT_MAX: nat := 1073741823
  const WORD: nat := 0x1_0000_0000_0000_0000

  datatype Weighted = Weighted(graph: Graph, values: seq<nat>)

  /** A weighted graph whose weights cannot make the sum of a distance and a weight wrap around. */
  ghost predicate WeightedOk(g: Weighted) {
    && GraphOk(g.graph) && |g.values| == |g.graph.edges|
    && forall e :: 0 <= e < |g.values| ==> g.values[e] + WEIGHT_MAX < 0x1_0000_0000_0000_0000
  }

  /** There is a walk of k edges from s to v with total weight w. */
  ghost predicate Path(g: Weighted, s: nat, v: nat, w: nat, k: nat)
    requires WeightedOk(g)
    decreases k
  {
    if k == 0 then v == s && w == 0
    else exists u: nat, e: nat :: LastEdge(g, u, e, v) && g.values[e] <= w && Path(g, s, u, w - g.values[e], k - 1)
  }

  ghost predicate LastEdge(g: Weighted, u: nat, e: nat, v: nat)
    requires WeightedOk(g)
  {
    From(g.graph, u, e) && SlotIs(g.graph, e, v)
  }

  /** d is the smaller of WEIGHT_MAX, which is 1073741823, and the weight of a shortest path. */
  ghost predicate Shortest(g: Weighted, s: nat, v: nat, d: nat)
    requires WeightedOk(g)
  {
    && d <= 1073741823
    && (d < 1073741823 ==> exists k: nat :: Path(g, s, v, d, k))
    && forall w: nat, k: nat :: Path(g, s, v, w, k) ==> d <= w
  }

  /** Every finite distance is the weight of some path. */
  ghost predicate Sound(g: Weighted, s: nat, ret: seq<nat>)
    requires WeightedOk(g)
  {
    && |ret| == g.graph.nodes && s < |ret| && ret[s] == 0
    && forall v: nat :: v < |ret| ==> ret[v] <= WEIGHT_MAX && (ret[v] < WEIGHT_MAX ==> HasPath(g, s, v, ret[v]))
  }

  ghost predicate HasPath(g: Weighted, s: nat, v: nat, d: nat)
    requires WeightedOk(g)
  {
    exists k: nat :: Path(g, s, v, d, k)
  }

  /** Edge e leaving u cannot improve its head. */
  predicate Relaxed(g: Weighted, ret: seq<nat>, u: nat, e: nat)
    requires |g.graph.edges| == |g.values| && e < |g.values| && u < |ret| && g.graph.edges[e] < |ret|
  {
    ret[g.graph.edges[e]] <= ret[u] + g.values[e]
  }

  /** All edges of u are relaxed, those of `current` only below slot `limit`. */
  ghost predicate RelaxedFrom(g: Weighted, ret: seq<nat>, u: nat, limit: nat)
    requires WeightedOk(g) && |ret| == g.graph.nodes && u < |ret|
  {
    forall e: nat :: From(g.graph, u, e) && e < limit ==> Relaxed(g, ret, u, e)
  }

  /** Every vertex has relaxed edges unless it is pending: still to be pushed in this epoch, or listed for the next. */
  ghost predicate AllRelaxed(g: Weighted, ret: seq<nat>, todo: seq<nat>, out: seq<nat>)
    requires WeightedOk(g) && |ret| == g.graph.nodes
  {
    forall u: nat :: u < |ret| && u !in todo && u !in out ==> RelaxedFrom(g, ret, u, |g.values|)
  }

  ghost predicate Vertices(wl: seq<nat>, n: nat) {
    forall i :: 0 <= i < |wl| ==> wl[i] < n
  }

  function Sum(s: seq<nat>): nat {
    if s == [] then 0 else Sum(s[..|s| - 1]) + s[|s| - 1]
  }

  lemma {:induction false} SumUpdate(s: seq<nat>, i: nat, v: nat)
    requires i < |s|
    ensures Sum(s[i := v]) == Sum(s) - s[i] + v
    decreases |s|
  {
    var n := |s| - 1;
    if i == n {
      assert s[i := v][..n] == s[..n];
    } else {
      SumUpdate(s[..n], i, v);
      assert s[i := v][..n] == s[..n][i := v];
    }
  }

  /** A path to u and an edge u -> v make a path to v. */
  lemma Extend(g: Weighted, s: nat, u: nat, d: nat, e: nat)
    requires WeightedOk(g) && HasPath(g, s, u, d) && From(g.graph, u, e)
    ensures HasPath(g, s, g.graph.edges[e], d + g.values[e])
  {
    var k: nat :| Path(g, s, u, d, k);
    assert LastEdge(g, u, e, g.graph.edges[e]);
    assert Path(g, s, g.graph.edges[e], d + g.values[e], k + 1);
  }

  /** Improving the head of an edge keeps what is known about all other vertices, except that the head is pending. */
  lemma ImproveKeeps(g: Weighted, s: nat, ret: seq<nat>, u: nat, e: nat, todo: seq<nat>, out: seq<nat>)
    requires WeightedOk(g) && Sound(g, s, ret) && From(g.graph, u, e)
    requires AllRelaxed(g, ret, todo, out) && RelaxedFrom(g, ret, u, e)
    requires ret[u] + g.values[e] < ret[g.graph.edges[e]]
    ensures var v, d := g.graph.edges[e], ret[u] + g.values[e];
            && v != u && Sound(g, s, ret[v := d])
            && AllRelaxed(g, ret[v := d], todo, out + [v]) && RelaxedFrom(g, ret[v := d], u, e + 1)
  {
    var v, d := g.graph.edges[e], ret[u] + g.values[e];
    Extend(g, s, u, ret[u], e);
    var ret' := ret[v := d];
    forall x: nat | x < |ret| && x !in todo && x !in out + [v]
      ensures RelaxedFrom(g, ret', x, |g.values|)
    {
      assert x !in out && x != v;
      assert RelaxedFrom(g, ret, x, |g.values|);
    }
  }

  /** With nothing pending, all distances are right. */
  lemma {:induction false} PathIsBounded(g: Weighted, s: nat, ret: seq<nat>, v: nat, w: nat, k: nat)
    requires WeightedOk(g) && Sound(g, s, ret) && AllRelaxed(g, ret, [], []) && Path(g, s, v, w, k)
    ensures v < |ret| && ret[v] <= w
    decreases k
  {
    if k > 0 {
      var u: nat, e: nat :| LastEdge(g, u, e, v) && g.values[e] <= w && Path(g, s, u, w - g.values[e], k - 1);
      PathIsBounded(g, s, ret, u, w - g.values[e], k - 1);
      assert RelaxedFrom(g, ret, u, |g.values|);
      assert Relaxed(g, ret, u, e);
    }
  }

  lemma Optimal(g: Weighted, s: nat, ret: seq<nat>)
    requires WeightedOk(g) && Sound(g, s, ret) && AllRelaxed(g, ret, [], [])
    ensures forall v: nat :: v < |ret| ==> Shortest(g, s, v, ret[v])
  {
    forall v: nat | v < |ret|
      ensures Shortest(g, s, v, ret[v])
    {
      forall w: nat, k: nat | Path(g, s, v, w, k)
        ensures ret[v] <= w
      {
        PathIsBounded(g, s, ret, v, w, k);
      }
    }
  }

  // ---------------------------------------------------------------- what the loops compute

  /** The distances and the new worklist after the edges of u from slot e on. */
  function PushFrom(g: Weighted, ret: seq<nat>, out: seq<nat>, u: nat, e: nat): (r: (seq<nat>, seq<nat>))
    requires GraphOk(g.graph) && |g.values| == |g.graph.edges| && |ret| == g.graph.nodes
    requires u < |ret| && e <= g.graph.offsets[u + 1]
    ensures |r.0| == |ret| && |out| <= |r.1| && (Vertices(out, |ret|) ==> Vertices(r.1, |ret|))
    decreases g.graph.offsets[u + 1] - e
  {
    if e == g.graph.offsets[u + 1] then (ret, out)
    else
      var v := g.graph.edges[e];
      var d: nat := (ret[u] + g.values[e]) % WORD;
      if d < ret[v] then PushFrom(g, ret[v := d], out + [v], u, e + 1) else PushFrom(g, ret, out, u, e + 1)
  }

  /** The distances and the new worklist after the entries of the old one from position i on. */
  function Epoch(g: Weighted, ret: seq<nat>, inWl: seq<nat>, i: nat, out: seq<nat>): (r: (seq<nat>, seq<nat>))
    requires GraphOk(g.graph) && |g.values| == |g.graph.edges| && |ret| == g.graph.nodes
    requires Vertices(inWl, |ret|) && i <= |inWl|
    ensures |r.0| == |ret| && |out| <= |r.1| && (Vertices(out, |ret|) ==> Vertices(r.1, |ret|))
    decreases |inWl| - i
  {
    if i == |inWl| then (ret, out)
    else
      var (ret', out') := PushFrom(g, ret, out, inWl[i], g.graph.offsets[inWl[i]]);
      Epoch(g, ret', inWl, i + 1, out')
  }

  /** The distances and the worklist after k epochs. */
  function Epochs(g: Weighted, seed: nat, k: nat): (r: (seq<nat>, seq<nat>))
    requires GraphOk(g.graph) && |g.values| == |g.graph.edges| && seed < g.graph.nodes
    ensures |r.0| == g.graph.nodes && Vertices(r.1, g.graph.nodes)
  {
    if k == 0 then (seq(g.graph.nodes, _ => WEIGHT_MAX)[seed := 0], [seed])
    else
      var (ret, inWl) := Epochs(g, seed, k - 1);
      Epoch(g, ret, inWl, 0, [])
  }

  /** No worklist of the whole run has more than `capacity` entries. */
  ghost predicate Fits(g: Weighted, seed: nat, capacity: nat)
    requires GraphOk(g.graph) && |g.values| == |g.graph.edges| && seed < g.graph.nodes
  {
    forall k: nat :: |Epochs(g, seed, k).1| <= capacity
  }

  /** Every push lowers the sum of all distances. */
  lemma {:induction false} PushesPaid(g: Weighted, ret: seq<nat>, out: seq<nat>, u: nat, e: nat)
    requires WeightedOk(g) && |ret| == g.graph.nodes && u < |ret| && e <= g.graph.offsets[u + 1]
    ensures var (ret', out') := PushFrom(g, ret, out, u, e); |out'| + Sum(ret') <= |out| + Sum(ret)
    decreases g.graph.offsets[u + 1] - e
  {
    hide Sum;
    if e < g.graph.offsets[u + 1] {
      var v := g.graph.edges[e];
      var d: nat := (ret[u] + g.values[e]) % WORD;
      if d < ret[v] {
        SumUpdate(ret, v, d);
        PushesPaid(g, ret[v := d], out + [v], u, e + 1);
      } else {
        PushesPaid(g, ret, out, u, e + 1);
      }
    }
  }

  lemma {:induction false} EpochPaid(g: Weighted, ret: seq<nat>, inWl: seq<nat>, i: nat, out: seq<nat>)
    requires WeightedOk(g) && |ret| == g.graph.nodes && Vertices(inWl, |ret|) && i <= |inWl|
    ensures var (ret', out') := Epoch(g, ret, inWl, i, out); |out'| + Sum(ret') <= |out| + Sum(ret)
    decreases |inWl| - i
  {
    hide Sum, PushFrom;
    if i < |inWl| {
      var (ret', out') := PushFrom(g, ret, out, inWl[i], g.graph.offsets[inWl[i]]);
      PushesPaid(g, ret, out, inWl[i], g.graph.offsets[inWl[i]]);
      EpochPaid(g, ret', inWl, i + 1, out');
    }
  }

  // ---------------------------------------------------------------- the kernel

  /** The middle loop for one vertex. */
  method PushNode(g: Weighted, s: nat, ret: array<nat>, out: array<nat>, outIndex: nat, u: nat, ghost todo: seq<nat>)
    returns (index: nat)
    requires WeightedOk(g) && ret.Length == g.graph.nodes && Sound(g, s, ret[..]) && u < ret.Length
    requires ret != out && outIndex <= out.Length && Vertices(out[..outIndex], ret.Length)
    requires |PushFrom(g, ret[..], out[..outIndex], u, g.graph.offsets[u]).1| <= out.Length
    requires AllRelaxed(g, ret[..], [u] + todo, out[..outIndex])
    modifies ret, out
    ensures index <= out.Length
    ensures (ret[..], out[..index]) == PushFrom(g, old(ret[..]), old(out[..outIndex]), u, g.graph.offsets[u])
    ensures Sound(g, s, ret[..]) && AllRelaxed(g, ret[..], todo, out[..index])
  {
    hide Sound, AllRelaxed, RelaxedFrom;
    index := outIndex;
    var e := g.graph.offsets[u];
    NothingYet(g, ret[..], u, e);
    while e < g.graph.offsets[u + 1]
      invariant g.graph.offsets[u] <= e <= g.graph.offsets[u + 1] && index <= out.Length
      invariant Sound(g, s, ret[..]) && AllRelaxed(g, ret[..], [u] + todo, out[..index])
      invariant RelaxedFrom(g, ret[..], u, e)
      invariant PushFrom(g, old(ret[..]), old(out[..outIndex]), u, g.graph.offsets[u])
             == PushFrom(g, ret[..], out[..index], u, e)
    {
      ghost var was, list := ret[..], out[..index];
      NoWrap(g, s, was, u, e);
      var v := g.graph.edges[e];
      var d: nat := (ret[u] + g.values[e]) % WORD;
      if d < ret[v] {
        ImproveKeeps(g, s, was, u, e, [u] + todo, list);
        ret[v] := d;
        assert ret[..] == was[v := d];
        out[index] := v;
        index := index + 1;
        assert out[..index] == list + [v];
      } else {
        EdgeRelaxed(g, was, u, e);
      }
      e := e + 1;
    }
    NodeDone(g, ret[..], u, todo, out[..index]);
  }

  lemma NothingYet(g: Weighted, ret: seq<nat>, u: nat, e: nat)
    requires WeightedOk(g) && |ret| == g.graph.nodes && u < |ret| && e == g.graph.offsets[u]
    ensures RelaxedFrom(g, ret, u, e)
  {
  }

  lemma NoWrap(g: Weighted, s: nat, ret: seq<nat>, u: nat, e: nat)
    requires WeightedOk(g) && Sound(g, s, ret) && u < |ret| && e < |g.values|
    ensures (ret[u] + g.values[e]) % WORD == ret[u] + g.values[e]
  {
  }

  lemma EdgeRelaxed(g: Weighted, ret: seq<nat>, u: nat, e: nat)
    requires WeightedOk(g) && |ret| == g.graph.nodes && u < |ret| && From(g.graph, u, e) && RelaxedFrom(g, ret, u, e)
    requires ret[u] + g.values[e] >= ret[g.graph.edges[e]]
    ensures RelaxedFrom(g, ret, u, e + 1)
  {
  }

  lemma NodeDone(g: Weighted, ret: seq<nat>, u: nat, todo: seq<nat>, out: seq<nat>)
    requires WeightedOk(g) && |ret| == g.graph.nodes && u < |ret| && AllRelaxed(g, ret, [u] + todo, out)
    requires RelaxedFrom(g, ret, u, g.graph.offsets[u + 1])
    ensures AllRelaxed(g, ret, todo, out)
  {
    forall x: nat | x < |ret| && x !in todo && x !in out
      ensures RelaxedFrom(g, ret, x, |g.values|)
    {
      if x != u {
        assert x !in [u] + todo;
      }
    }
  }

  /** One epoch. */
  method PushEpoch(g: Weighted, s: nat, ret: array<nat>, inWl: array<nat>, inIndex: nat, out: array<nat>)
    returns (outIndex: nat)
    requires WeightedOk(g) && ret.Length == g.graph.nodes && Sound(g, s, ret[..])
    requires ret != inWl && ret != out && inWl != out && inIndex <= inWl.Length
    requires Vertices(inWl[..inIndex], ret.Length) && AllRelaxed(g, ret[..], inWl[..inIndex], [])
    requires |Epoch(g, ret[..], inWl[..inIndex], 0, []).1| <= out.Length
    modifies ret, out
    ensures outIndex <= out.Length
    ensures (ret[..], out[..outIndex]) == Epoch(g, old(ret[..]), inWl[..inIndex], 0, [])
    ensures Sound(g, s, ret[..]) && AllRelaxed(g, ret[..], [], out[..outIndex])
  {
    hide Sound, AllRelaxed, PushFrom;
    outIndex := 0;
    var i := 0;
    ghost var wl := inWl[..inIndex];
    assert wl[0..] == wl && out[..0] == [];
    while i < inIndex
      invariant 0 <= i <= inIndex && outIndex <= out.Length && inWl[..inIndex] == wl
      invariant Sound(g, s, ret[..]) && AllRelaxed(g, ret[..], wl[i..], out[..outIndex])
      invariant Vertices(out[..outIndex], ret.Length)
      invariant Epoch(g, old(ret[..]), wl, 0, []) == Epoch(g, ret[..], wl, i, out[..outIndex])
    {
      assert wl[i] == inWl[i] && wl[i..] == [wl[i]] + wl[i + 1..];
      outIndex := PushNode(g, s, ret, out, outIndex, inWl[i], wl[i + 1..]);
      i := i + 1;
    }
    assert wl[i..] == [];
  }

  /** init_sssp for its one seed. */
  method Init(ret: array<nat>, inWl: array<nat>, seed: nat) returns (inIndex: nat)
    requires seed < ret.Length && inWl.Length > 0 && ret != inWl
    modifies ret, inWl
    ensures ret[..] == seq(ret.Length, _ => WEIGHT_MAX)[seed := 0]
    ensures inIndex == 1 && inWl[..inIndex] == [seed]
  {
    var i := 0;
    while i < ret.Length
      invariant 0 <= i <= ret.Length && forall v :: 0 <= v < i ==> ret[v] == WEIGHT_MAX
    {
      ret[i] := WEIGHT_MAX;
      i := i + 1;
    }
    inIndex := 0;
    inWl[inIndex] := seed;
    inIndex := inIndex + 1;
    ret[seed] := 0;
  }

  lemma Initially(g: Weighted, s: nat, ret: seq<nat>)
    requires WeightedOk(g) && s < g.graph.nodes && ret == seq(g.graph.nodes, _ => WEIGHT_MAX)[s := 0]
    ensures Sound(g, s, ret) && AllRelaxed(g, ret, [s], [])
  {
    assert Path(g, s, s, 0, 0);
  }

  lemma {:induction false} SumBound(ret: seq<nat>)
    requires forall v :: 0 <= v < |ret| ==> ret[v] <= WEIGHT_MAX
    ensures Sum(ret) <= |ret| * WEIGHT_MAX
  {
    if ret != [] {
      SumBound(ret[..|ret| - 1]);
    }
  }

  /** sssp, for one thread, with worklists that are long enough: it terminates with the shortest path weight of every
      vertex, capped at WEIGHT_MAX, after at most nodes * WEIGHT_MAX pushes. */
  method Sssp(g: Weighted, seed: nat, ret: array<nat>, wl0: array<nat>, wl1: array<nat>) returns (ghost pushes: nat)
    requires WeightedOk(g) && seed < g.graph.nodes == ret.Length
    requires wl0 != wl1 && ret != wl0 && ret != wl1 && wl0.Length == wl1.Length && Fits(g, seed, wl0.Length)
    modifies ret, wl0, wl1
    ensures forall v: nat :: v < g.graph.nodes ==> Shortest(g, seed, v, ret[v])
    ensures pushes <= g.graph.nodes * WEIGHT_MAX
  {
    hide Sound, Sum, AllRelaxed, Shortest, Epoch;
    var inWl, out := wl0, wl1;
    assert |Epochs(g, seed, 0).1| == 1;
    var inIndex := Init(ret, inWl, seed);
    Initially(g, seed, ret[..]);
    SumBound(ret[..]);
    ghost var start, k := Sum(ret[..]), 0;
    pushes := 0;
    while inIndex > 0
      invariant {inWl, out} == {wl0, wl1} && inIndex <= inWl.Length
      invariant (ret[..], inWl[..inIndex]) == Epochs(g, seed, k)
      invariant Sound(g, seed, ret[..]) && AllRelaxed(g, ret[..], inWl[..inIndex], [])
      invariant pushes + Sum(ret[..]) <= start
      decreases Sum(ret[..]), inIndex
    {
      assert |Epochs(g, seed, k + 1).1| <= wl0.Length;
      EpochPaid(g, ret[..], inWl[..inIndex], 0, []);
      var outIndex := PushEpoch(g, seed, ret, inWl, inIndex, out);
      PendingMoves(g, ret[..], out[..outIndex]);
      inWl, out := out, inWl;
      inIndex := outIndex;
      k := k + 1;
      pushes := pushes + outIndex;
    }
    assert inWl[..inIndex] == [];
    Optimal(g, seed, ret[..]);
  }

  lemma PendingMoves(g: Weighted, ret: seq<nat>, out: seq<nat>)
    requires WeightedOk(g) && |ret| == g.graph.nodes && AllRelaxed(g, ret, [], out)
    ensures AllRelaxed(g, ret, out, [])
  {
    hide RelaxedFrom;
  }
}
