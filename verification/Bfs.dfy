/** The sequential breadth-first search (bfs/bfs.h). */
module Bfs {
  import opened Graphs

  /** Distances below hop are known and nothing else is labelled, except that some vertices of distance hop
      already have their label. */
  ghost predicate Labelled(g: Graph, s: nat, ret: seq<int>, hop: nat)
    requires GraphOk(g)
  {
    && |ret| == g.nodes
    && (forall v: nat :: v < |ret| ==> -1 <= ret[v] <= hop)
    && (forall v: nat, k: nat :: v < |ret| && k < hop ==> (ret[v] == k <==> Distance(g, s, v, k)))
    && (forall v: nat :: v < |ret| && ret[v] == hop ==> Distance(g, s, v, hop))
  }

  /** The worklist holds the vertices of one distance, each once. */
  ghost predicate Frontier(g: Graph, s: nat, wl: seq<nat>, d: nat)
    requires GraphOk(g)
  {
    NoDup(wl) && forall v: nat :: v in wl <==> v < g.nodes && Distance(g, s, v, d)
  }

  /** The worklist holds the vertices with one label, each once. */
  ghost predicate Listed(ret: seq<int>, wl: seq<nat>, hop: nat) {
    NoDup(wl) && forall v: nat :: v in wl <==> v < |ret| && ret[v] == hop
  }

  /** All successors of u from slot `from` up to and without slot `to` have labels. */
  ghost predicate Pushed(g: Graph, ret: seq<int>, from: nat, to: nat)
    requires GraphOk(g) && |ret| == g.nodes
  {
    forall e :: from <= e < to && e < |g.edges| ==> ret[g.edges[e]] != -1
  }

  ghost predicate PushedAll(g: Graph, ret: seq<int>, wl: seq<nat>)
    requires GraphOk(g) && |ret| == g.nodes
  {
    forall i :: 0 <= i < |wl| && wl[i] < g.nodes ==> Pushed(g, ret, g.offsets[wl[i]], g.offsets[wl[i] + 1])
  }

  /** What the kernel is for: every vertex has its distance from the seed, or -1 if it cannot be reached. */
  ghost predicate Final(g: Graph, s: nat, ret: seq<int>)
    requires GraphOk(g)
  {
    && |ret| == g.nodes
    && forall v: nat :: v < g.nodes ==>
         && -1 <= ret[v]
         && (ret[v] >= 0 ==> Distance(g, s, v, ret[v]))
         && (ret[v] == -1 ==> forall k: nat :: !Walk(g, s, v, k))
  }

  /** The result is determined by the graph and the seed. */
  lemma FinalUnique(g: Graph, s: nat, a: seq<int>, b: seq<int>)
    requires GraphOk(g) && Final(g, s, a) && Final(g, s, b)
    ensures a == b
  {
    forall v: nat | v < g.nodes
      ensures a[v] == b[v]
    {
      if a[v] != -1 && b[v] != -1 {
        assert Walk(g, s, v, a[v]) && Walk(g, s, v, b[v]);
      }
    }
  }

  lemma InitialLabels(g: Graph, s: nat, ret: seq<int>)
    requires GraphOk(g) && s < g.nodes && |ret| == g.nodes
    requires forall v: nat :: v < g.nodes ==> ret[v] == if v == s then 0 else -1
    ensures Labelled(g, s, ret, 1) && Frontier(g, s, [s], 0)
  {
  }

  /** A new label given through an edge from the frontier is right. */
  lemma LabelIsDistance(g: Graph, s: nat, ret: seq<int>, hop: nat, u: nat, e: nat)
    requires GraphOk(g) && hop > 0 && Labelled(g, s, ret, hop)
    requires Distance(g, s, u, hop - 1) && From(g, u, e) && ret[g.edges[e]] == -1
    ensures Distance(g, s, g.edges[e], hop)
    ensures Labelled(g, s, ret[g.edges[e] := hop], hop)
  {
    var v := g.edges[e];
    assert SlotIs(g, e, v) && Edge(g, u, v);
    assert Walk(g, s, v, hop);
    forall k: nat | k < hop
      ensures !Walk(g, s, v, k)
    {
      NearIsLabelled(g, s, ret, hop, v, k);
    }
  }

  lemma NearIsLabelled(g: Graph, s: nat, ret: seq<int>, hop: nat, v: nat, k: nat)
    requires GraphOk(g) && Labelled(g, s, ret, hop) && v < g.nodes && k < hop
    ensures Walk(g, s, v, k) ==> ret[v] >= 0
  {
    if Walk(g, s, v, k) {
      var d := WalkHasDistance(g, s, v, k);
      assert ret[v] == d;
    }
  }

  /** After all edges of the frontier have been pushed, the labels are right for one more hop. */
  lemma EpochDone(g: Graph, s: nat, ret: seq<int>, hop: nat, wl: seq<nat>)
    requires GraphOk(g) && hop > 0 && Labelled(g, s, ret, hop)
    requires Frontier(g, s, wl, hop - 1) && PushedAll(g, ret, wl)
    ensures Labelled(g, s, ret, hop + 1)
    ensures forall v: nat :: v < g.nodes ==> (ret[v] == hop <==> Distance(g, s, v, hop))
  {
    forall v: nat | v < g.nodes && Distance(g, s, v, hop)
      ensures ret[v] == hop
    {
      var u := DistanceStep(g, s, v, hop);
      var e: nat :| From(g, u, e) && SlotIs(g, e, v);
      assert u in wl;
      var i :| 0 <= i < |wl| && wl[i] == u;
      assert Pushed(g, ret, g.offsets[u], g.offsets[u + 1]);
      assert ret[g.edges[e]] != -1;
      assert ret[v] < hop ==> Distance(g, s, v, ret[v]);
    }
  }

  /** With an empty frontier the search is complete. */
  lemma SearchDone(g: Graph, s: nat, ret: seq<int>, hop: nat)
    requires GraphOk(g) && hop > 0 && s < g.nodes && Labelled(g, s, ret, hop) && Frontier(g, s, [], hop - 1)
    ensures Final(g, s, ret)
  {
    forall v: nat, k: nat | v < g.nodes && Walk(g, s, v, k)
      ensures 0 <= ret[v] && Distance(g, s, v, ret[v])
    {
      var d := WalkHasDistance(g, s, v, k);
      NothingAsFar(g, s, v, d, hop - 1);
    }
  }

  /** Without a vertex of one distance there is none of a larger one. */
  lemma {:induction false} NothingAsFar(g: Graph, s: nat, v: nat, d: nat, far: nat)
    requires GraphOk(g) && s < g.nodes && Frontier(g, s, [], far) && Distance(g, s, v, d)
    ensures d < far
    decreases d
  {
    DistanceInRange(g, s, v, d);
    if d > far {
      var u := DistanceStep(g, s, v, d);
      NothingAsFar(g, s, u, d - 1, far);
    }
  }

  lemma DistanceInRange(g: Graph, s: nat, v: nat, d: nat)
    requires GraphOk(g) && s < g.nodes && Distance(g, s, v, d)
    ensures v < g.nodes
  {
    if d > 0 {
      var u := DistanceStep(g, s, v, d);
      var e: nat :| From(g, u, e) && SlotIs(g, e, v);
    }
  }

  /** init_bfs for its one seed. */
  method InitBfs(ret: array<int>, inWl: array<nat>, seed: nat) returns (inIndex: nat)
    requires seed < ret.Length && 0 < inWl.Length
    modifies ret, inWl
    ensures forall v: nat :: v < ret.Length ==> ret[v] == if v == seed then 0 else -1
    ensures inIndex == 1 && inWl[..1] == [seed]
  {
    var i := 0;
    while i < ret.Length
      invariant 0 <= i <= ret.Length && forall v :: 0 <= v < i ==> ret[v] == -1
    {
      ret[i] := -1;
      i := i + 1;
    }
    inIndex := 1;
    inWl[0] := seed;
    ret[seed] := 0;
  }

  /** The test and the three writes for one edge. */
  method Visit(g: Graph, s: nat, ret: array<int>, outWl: array<nat>, outIndex: nat, hop: nat, ghost u: nat, e: nat)
    returns (newIndex: nat)
    requires GraphOk(g) && hop > 0 && Labelled(g, s, ret[..], hop) && ret.Length == g.nodes <= outWl.Length
    requires Distance(g, s, u, hop - 1) && From(g, u, e)
    requires outIndex <= outWl.Length && Listed(ret[..], outWl[..outIndex], hop)
    modifies ret, outWl
    ensures Labelled(g, s, ret[..], hop) && ret[g.edges[e]] != -1
    ensures newIndex <= outWl.Length && Listed(ret[..], outWl[..newIndex], hop)
    ensures forall v :: 0 <= v < ret.Length && old(ret[v]) != -1 ==> ret[v] == old(ret[v])
  {
    var v := g.edges[e];
    newIndex := outIndex;
    if ret[v] == -1 {
      LabelIsDistance(g, s, ret[..], hop, u, e);
      ghost var was, list := ret[..], outWl[..outIndex];
      NoDupBound(list + [v], g.nodes);
      ret[v] := hop;
      assert ret[..] == was[v := hop];
      newIndex := outIndex + 1;
      outWl[outIndex] := v;
      assert outWl[..newIndex] == list + [v];
    }
  }

  method PushNode(g: Graph, s: nat, ret: array<int>, outWl: array<nat>, outIndex: nat, hop: nat, u: nat)
    returns (newIndex: nat)
    requires GraphOk(g) && hop > 0 && Labelled(g, s, ret[..], hop) && ret.Length == g.nodes <= outWl.Length
    requires Distance(g, s, u, hop - 1) && u < g.nodes
    requires outIndex <= outWl.Length && Listed(ret[..], outWl[..outIndex], hop)
    modifies ret, outWl
    ensures Labelled(g, s, ret[..], hop) && Pushed(g, ret[..], g.offsets[u], g.offsets[u + 1])
    ensures newIndex <= outWl.Length && Listed(ret[..], outWl[..newIndex], hop)
    ensures forall v :: 0 <= v < ret.Length && old(ret[v]) != -1 ==> ret[v] == old(ret[v])
  {
    hide Labelled, Listed, Distance;
    newIndex := outIndex;
    var e := g.offsets[u];
    while e < g.offsets[u + 1]
      invariant g.offsets[u] <= e <= g.offsets[u + 1]
      invariant Labelled(g, s, ret[..], hop) && Pushed(g, ret[..], g.offsets[u], e)
      invariant newIndex <= outWl.Length && Listed(ret[..], outWl[..newIndex], hop)
      invariant forall v :: 0 <= v < ret.Length && old(ret[v]) != -1 ==> ret[v] == old(ret[v])
    {
      ghost var was := ret[..];
      newIndex := Visit(g, s, ret, outWl, newIndex, hop, u, e);
      assert forall x :: g.offsets[u] <= x < e && x < |g.edges| ==> was[g.edges[x]] != -1;
      e := e + 1;
    }
  }

  /** One epoch: push every vertex of the frontier. */
  method PushEpoch(g: Graph, s: nat, ret: array<int>, inWl: array<nat>, inIndex: nat, outWl: array<nat>, hop: nat)
    returns (outIndex: nat)
    requires GraphOk(g) && hop > 0 && Labelled(g, s, ret[..], hop) && ret.Length == g.nodes <= outWl.Length
    requires inIndex <= inWl.Length && Frontier(g, s, inWl[..inIndex], hop - 1)
    requires forall v: nat :: v < ret.Length ==> ret[v] < hop
    requires inWl != outWl
    modifies ret, outWl
    ensures Labelled(g, s, ret[..], hop + 1) && forall v: nat :: v < ret.Length ==> ret[v] <= hop
    ensures outIndex <= outWl.Length && Frontier(g, s, outWl[..outIndex], hop)
    ensures Missing(ret[..]) <= Missing(old(ret[..])) && (outIndex > 0 ==> Missing(ret[..]) != Missing(old(ret[..])))
  {
    hide Labelled, Missing;
    outIndex := 0;
    var i := 0;
    ghost var wl := inWl[..inIndex];
    while i < inIndex
      invariant 0 <= i <= inIndex && inWl[..inIndex] == wl
      invariant Labelled(g, s, ret[..], hop) && PushedAll(g, ret[..], wl[..i])
      invariant outIndex <= outWl.Length && Listed(ret[..], outWl[..outIndex], hop)
      invariant forall v: nat :: v < ret.Length && old(ret[v]) != -1 ==> ret[v] == old(ret[v])
    {
      assert inWl[i] == wl[i] && wl[i] in wl;
      ghost var was := ret[..];
      outIndex := PushNode(g, s, ret, outWl, outIndex, hop, inWl[i]);
      StillPushed(g, was, ret[..], wl[..i]);
      assert wl[..i + 1] == wl[..i] + [wl[i]];
      i := i + 1;
    }
    assert wl[..i] == wl;
    EpochDone(g, s, ret[..], hop, wl);
    AtMost(g, s, ret[..], hop);
    FewerMissing(old(ret[..]), ret[..], outWl[..outIndex], hop);
  }

  lemma AtMost(g: Graph, s: nat, ret: seq<int>, hop: nat)
    requires GraphOk(g) && Labelled(g, s, ret, hop)
    ensures forall v: nat :: v < |ret| ==> ret[v] <= hop
  {
  }

  lemma StillPushed(g: Graph, was: seq<int>, ret: seq<int>, wl: seq<nat>)
    requires GraphOk(g) && |was| == |ret| == g.nodes && PushedAll(g, was, wl)
    requires forall v :: 0 <= v < |ret| && was[v] != -1 ==> ret[v] == was[v]
    ensures PushedAll(g, ret, wl)
  {
    forall i | 0 <= i < |wl| && wl[i] < g.nodes
      ensures Pushed(g, ret, g.offsets[wl[i]], g.offsets[wl[i] + 1])
    {
      assert Pushed(g, was, g.offsets[wl[i]], g.offsets[wl[i] + 1]);
    }
  }

  ghost function Missing(ret: seq<int>): set<nat> {
    set v: nat | v < |ret| && ret[v] == -1
  }

  lemma FewerMissing(was: seq<int>, ret: seq<int>, out: seq<nat>, hop: nat)
    requires |was| == |ret| && Listed(ret, out, hop)
    requires forall v: nat :: v < |was| ==> was[v] < hop && (was[v] != -1 ==> ret[v] == was[v])
    ensures Missing(ret) <= Missing(was) && (out != [] ==> Missing(ret) != Missing(was))
  {
    if out != [] {
      assert out[0] in out && out[0] in Missing(was) && out[0] !in Missing(ret);
    }
  }

  /** bfs, for one thread: on return the array holds the hop distances from the seed. */
  method Bfs(g: Graph, seed: nat, ret: array<int>, inWl0: array<nat>, outWl0: array<nat>)
    requires GraphOk(g) && seed < g.nodes == ret.Length
    requires inWl0.Length == outWl0.Length == 2 * g.nodes && inWl0 != outWl0
    modifies ret, inWl0, outWl0
    ensures Final(g, seed, ret[..])
  {
    hide Labelled, Missing;
    var inWl, outWl := inWl0, outWl0;
    var inIndex: nat := InitBfs(ret, inWl, seed);
    InitialLabels(g, seed, ret[..]);
    var hop := 1;
    while inIndex > 0
      invariant hop > 0 && {inWl, outWl} == {inWl0, outWl0} && inWl != outWl
      invariant Labelled(g, seed, ret[..], hop)
      invariant inIndex <= inWl.Length && Frontier(g, seed, inWl[..inIndex], hop - 1)
      invariant forall v: nat :: v < ret.Length ==> ret[v] < hop
      decreases Missing(ret[..]), inIndex
    {
      var outIndex := PushEpoch(g, seed, ret, inWl, inIndex, outWl, hop);
      inWl, outWl := outWl, inWl;
      hop := hop + 1;
      inIndex := outIndex;
    }
    assert inWl[..0] == [];
    SearchDone(g, seed, ret[..], hop);
  }
}
