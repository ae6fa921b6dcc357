/** How long the worklists of the shortest-path kernel get. The source gives them five entries per vertex
    (sssp.h 8-9) and stores without a check (sssp.h 72-77). */
module SsspCapacity {
  import opened Graphs
  import opened Sssp

  const ENTRIES_PER_VERTEX: nat := 5

  /** Any graph fits into worklists of nodes * WEIGHT_MAX entries. */
  lemma AlwaysFits(g: Weighted, seed: nat)
    requires WeightedOk(g) && seed < g.graph.nodes
    ensures Fits(g, seed, g.graph.nodes * WEIGHT_MAX)
  {
    forall k: nat
      ensures |Epochs(g, seed, k).1| <= g.graph.nodes * WEIGHT_MAX
    {
      TotalPushes(g, seed, k);
    }
  }

  lemma {:induction false} TotalPushes(g: Weighted, seed: nat, k: nat)
    requires WeightedOk(g) && seed < g.graph.nodes
    ensures |Epochs(g, seed, k).1| <= g.graph.nodes * WEIGHT_MAX
    ensures Sum(Epochs(g, seed, k).0) <= g.graph.nodes * WEIGHT_MAX
  {
    hide Sum, Epoch;
    if k == 0 {
      SumBound(Epochs(g, seed, 0).0);
      assert 1 <= g.graph.nodes * WEIGHT_MAX;
    } else {
      TotalPushes(g, seed, k - 1);
      EpochPaid(g, Epochs(g, seed, k - 1).0, Epochs(g, seed, k - 1).1, 0, []);
    }
  }

  // ---------------------------------------------------------------- equal weights

  ghost predicate AllWeights(g: Weighted, c: nat) {
    forall e :: 0 <= e < |g.values| ==> g.values[e] == c
  }

  /** During an epoch all new distances are `level`, larger ones are WEIGHT_MAX, and no vertex is listed twice. */
  ghost predicate AtLevel(ret: seq<nat>, out: seq<nat>, level: nat) {
    && Vertices(out, |ret|) && NoDup(out)
    && (forall v :: 0 <= v < |ret| ==> ret[v] <= WEIGHT_MAX && (ret[v] <= level || ret[v] == WEIGHT_MAX))
    && (forall i :: 0 <= i < |out| ==> ret[out[i]] == level)
  }

  /** Distances up to `level` stay as they are. */
  ghost predicate KeepsUpTo(ret: seq<nat>, ret': seq<nat>, level: nat) {
    |ret'| == |ret| && forall v :: 0 <= v < |ret| && ret[v] <= level ==> ret'[v] == ret[v]
  }

  lemma {:induction false} PushLevel(g: Weighted, c: nat, ret: seq<nat>, out: seq<nat>, u: nat, e: nat, level: nat)
    requires WeightedOk(g) && AllWeights(g, c) && |ret| == g.graph.nodes && u < |ret| && ret[u] <= WEIGHT_MAX
    requires g.graph.offsets[u] <= e <= g.graph.offsets[u + 1]
    requires ret[u] + c == level && AtLevel(ret, out, level)
    ensures var r := PushFrom(g, ret, out, u, e);
            AtLevel(r.0, r.1, level) && KeepsUpTo(ret, r.0, level)
    decreases g.graph.offsets[u + 1] - e
  {
    hide AtLevel, KeepsUpTo;
    if e < g.graph.offsets[u + 1] {
      var v := g.graph.edges[e];
      LevelFacts(ret, out, u, level);
      if level < ret[v] {
        Reached(ret, out, v, level);
        PushLevel(g, c, ret[v := level], out + [v], u, e + 1, level);
        KeepsTransitive(ret, ret[v := level], PushFrom(g, ret[v := level], out + [v], u, e + 1).0, level);
      } else {
        PushLevel(g, c, ret, out, u, e + 1, level);
      }
    } else {
      KeepsItself(ret, level);
    }
  }

  lemma LevelFacts(ret: seq<nat>, out: seq<nat>, u: nat, level: nat)
    requires AtLevel(ret, out, level) && u < |ret|
    ensures ret[u] <= WEIGHT_MAX
  {
  }

  lemma Reached(ret: seq<nat>, out: seq<nat>, v: nat, level: nat)
    requires AtLevel(ret, out, level) && v < |ret| && level < ret[v]
    ensures AtLevel(ret[v := level], out + [v], level) && KeepsUpTo(ret, ret[v := level], level)
  {
  }

  lemma KeepsTransitive(ret: seq<nat>, ret': seq<nat>, ret'': seq<nat>, level: nat)
    requires KeepsUpTo(ret, ret', level) && KeepsUpTo(ret', ret'', level)
    ensures KeepsUpTo(ret, ret'', level)
  {
  }

  lemma KeepsItself(ret: seq<nat>, level: nat)
    ensures KeepsUpTo(ret, ret, level)
  {
  }

  lemma {:induction false} EpochLevel(g: Weighted, c: nat, ret: seq<nat>, inWl: seq<nat>, i: nat, out: seq<nat>, base: nat)
    requires WeightedOk(g) && AllWeights(g, c) && |ret| == g.graph.nodes && Vertices(inWl, |ret|) && i <= |inWl|
    requires base <= WEIGHT_MAX && (forall j :: i <= j < |inWl| ==> ret[inWl[j]] == base)
    requires AtLevel(ret, out, base + c)
    ensures var r := Epoch(g, ret, inWl, i, out); AtLevel(r.0, r.1, base + c)
    decreases |inWl| - i
  {
    hide PushFrom, AtLevel;
    if i < |inWl| {
      var (ret', out') := PushFrom(g, ret, out, inWl[i], g.graph.offsets[inWl[i]]);
      PushLevel(g, c, ret, out, inWl[i], g.graph.offsets[inWl[i]], base + c);
      EpochLevel(g, c, ret', inWl, i + 1, out', base);
    }
  }

  /** With equal weights every epoch lists different vertices, all at the same distance. */
  lemma {:induction false} EpochsLevel(g: Weighted, c: nat, seed: nat, k: nat) returns (level: nat)
    requires WeightedOk(g) && AllWeights(g, c) && seed < g.graph.nodes
    ensures AtLevel(Epochs(g, seed, k).0, Epochs(g, seed, k).1, level)
    decreases k
  {
    hide Epoch;
    if k == 0 {
      level := 0;
    } else {
      var base := EpochsLevel(g, c, seed, k - 1);
      var (ret, inWl) := Epochs(g, seed, k - 1);
      if inWl == [] {
        NothingListed(g, ret);
        level := base;
      } else {
        assert ret[inWl[0]] == base;
        EpochLevel(g, c, ret, inWl, 0, [], base);
        level := base + c;
      }
    }
  }

  lemma NothingListed(g: Weighted, ret: seq<nat>)
    requires GraphOk(g.graph) && |g.values| == |g.graph.edges| && |ret| == g.graph.nodes
    ensures Epoch(g, ret, [], 0, []) == (ret, [])
  {
  }

  /** With equal weights no worklist has more entries than there are vertices. */
  lemma EqualWeightsFit(g: Weighted, c: nat, seed: nat)
    requires WeightedOk(g) && AllWeights(g, c) && seed < g.graph.nodes
    ensures Fits(g, seed, g.graph.nodes)
  {
    hide Epoch, AllWeights;
    forall k: nat
      ensures |Epochs(g, seed, k).1| <= g.graph.nodes
    {
      var level := EpochsLevel(g, c, seed, k);
      NoDupBound(Epochs(g, seed, k).1, g.graph.nodes);
    }
  }

  // ---------------------------------------------------------------- parallel edges

  /** Two vertices and k edges from 0 to 1 with the weights k, k - 1, ..., 1. */
  function Parallel(k: nat): Weighted {
    Weighted(Graph(2, [0, k, k], seq(k, _ => 1)), seq(k, e requires 0 <= e < k => k - e))
  }

  lemma {:induction false} ParallelPushes(k: nat, ret: seq<nat>, out: seq<nat>, e: nat)
    requires WeightedOk(Parallel(k)) && e <= k < WEIGHT_MAX && |ret| == 2 && ret[0] == 0 && ret[1] > k - e
    ensures |PushFrom(Parallel(k), ret, out, 0, e).1| == |out| + k - e
    decreases k - e
  {
    if e < k {
      ParallelPushes(k, ret[1 := k - e], out + [1], e + 1);
    }
  }

  /** No number of entries per vertex is enough for all graphs: two vertices can fill any worklist. */
  lemma PushesAreUnbounded(k: nat)
    requires k < WEIGHT_MAX
    ensures WeightedOk(Parallel(k)) && Parallel(k).graph.nodes == 2
    ensures |Epochs(Parallel(k), 0, 1).1| == k
    ensures forall capacity: nat :: capacity < k ==> !Fits(Parallel(k), 0, capacity)
  {
    var g := Parallel(k);
    var ret := Epochs(g, 0, 0).0;
    ParallelPushes(k, ret, [], 0);
    var (ret', out') := PushFrom(g, ret, [], 0, 0);
    assert Epoch(g, ret, [0], 0, []) == Epoch(g, ret', [0], 1, out') == (ret', out');
  }

  // ---------------------------------------------------------------- two weights

  /** The vertices of Fan: the seed 0, five levels of six vertices each, and a last level. */
  const CHAINS: nat := 6
  const LEVELS: nat := 5
  const TREE: nat := 30
  const LAST: nat := 156

  /** The seed has an edge to each vertex of the first level, these have one to their successor in the next level, and
      those of the fifth level have edges to all vertices of the last one. Chain i has i edges of weight a. */
  function Fan(a: nat, b: nat): Weighted {
    Weighted(Graph(TREE + 1 + LAST, seq(TREE + 2 + LAST, v requires 0 <= v => Offset(v)),
                   seq(TREE + CHAINS * LAST, e requires 0 <= e => Target(e))),
             seq(TREE + CHAINS * LAST, e requires 0 <= e => Weight(a, b, e)))
  }

  function Offset(v: nat): nat {
    if v == 0 then 0 else if v <= 25 then v + 5 else if v <= 31 then TREE + LAST * (v - 25) else TREE + CHAINS * LAST
  }

  function Target(e: nat): nat {
    if e < TREE then e + 1 else TREE + 1 + (e - TREE) % LAST
  }

  function Weight(a: nat, b: nat, e: nat): nat {
    if TREE <= e || e / CHAINS < e % CHAINS then a else b
  }

  lemma OffsetsAscend(u: nat, v: nat)
    requires u <= v
    ensures Offset(u) <= Offset(v)
  {
  }

  lemma FanOk(a: nat, b: nat)
    requires a < b && 6 * b <= WEIGHT_MAX
    ensures WeightedOk(Fan(a, b))
  {
    var g := Fan(a, b).graph;
    forall u, v | 0 <= u <= v <= g.nodes
      ensures g.offsets[u] <= g.offsets[v]
    {
      OffsetsAscend(u, v);
    }
  }

  /** The distance of the head of tree edge e. */
  function Value(a: nat, b: nat, e: nat): nat {
    (if e < CHAINS then 0 else Value(a, b, e - CHAINS)) + Weight(a, b, e)
  }

  lemma {:induction false} ValueBound(a: nat, b: nat, e: nat)
    requires a <= b && e < TREE
    ensures e < 6 ==> Value(a, b, e) <= b
    ensures e < 12 ==> Value(a, b, e) <= 2 * b
    ensures e < 18 ==> Value(a, b, e) <= 3 * b
    ensures e < 24 ==> Value(a, b, e) <= 4 * b
    ensures Value(a, b, e) <= 5 * b
    decreases e
  {
    hide Weight;
    WeightIs(a, b, e);
    if e >= CHAINS {
      ValueBound(a, b, e - CHAINS);
    }
  }

  lemma WeightIs(a: nat, b: nat, e: nat)
    requires a <= b
    ensures a <= Weight(a, b, e) <= b
  {
  }

  lemma FirstValue(a: nat, b: nat, e: nat)
    requires e < CHAINS
    ensures Value(a, b, e) == Weight(a, b, e)
  {
  }

  lemma NextValue(a: nat, b: nat, e: nat)
    requires e >= CHAINS
    ensures Value(a, b, e) == Value(a, b, e - CHAINS) + Weight(a, b, e)
  {
  }

  /** Within a level, later chains have used weight a more often. */
  lemma {:induction false} ChainsDescend(a: nat, b: nat, e: nat)
    requires a < b && e < TREE && e % CHAINS < 5
    ensures Value(a, b, e + 1) <= Value(a, b, e)
    ensures e % CHAINS <= e / CHAINS ==> Value(a, b, e + 1) < Value(a, b, e)
    decreases e
  {
    hide Value, Weight;
    WeightsDescend(a, b, e);
    if e < CHAINS {
      FirstValue(a, b, e);
      FirstValue(a, b, e + 1);
    } else {
      NextValue(a, b, e);
      NextValue(a, b, e + 1);
      ChainsDescend(a, b, e - CHAINS);
    }
  }

  lemma WeightsDescend(a: nat, b: nat, e: nat)
    requires a < b && e < TREE && e % CHAINS < 5
    ensures Weight(a, b, e + 1) <= Weight(a, b, e)
    ensures e % CHAINS == e / CHAINS ==> Weight(a, b, e + 1) < Weight(a, b, e)
  {
  }

  /** `n` vertices from `first` on. */
  function Nodes(first: nat, n: nat): seq<nat> {
    seq(n, i requires 0 <= i => first + i)
  }

  /** The heads of the first t tree edges are reached. */
  ghost predicate Reaching(a: nat, b: nat, ret: seq<nat>, t: nat) {
    && |ret| == TREE + 1 + LAST && ret[0] == 0
    && forall v: nat :: 0 < v < |ret| ==> ret[v] == if v <= t then Value(a, b, v - 1) else WEIGHT_MAX
  }

  lemma TreeEdge(a: nat, b: nat, e: nat)
    requires a < b && 6 * b <= WEIGHT_MAX && e < TREE
    ensures Value(a, b, e) < WEIGHT_MAX
  {
    hide Value;
    ValueBound(a, b, e);
  }

  lemma ReachNext(a: nat, b: nat, ret: seq<nat>, t: nat)
    requires Reaching(a, b, ret, t) && t < TREE
    ensures t + 1 < |ret| && Reaching(a, b, ret[t + 1 := Value(a, b, t)], t + 1)
  {
    hide Value;
  }

  lemma SeedEdges(a: nat, b: nat, e: nat)
    requires e <= CHAINS
    ensures var g := Fan(a, b);
            g.graph.offsets[0] == 0 && g.graph.offsets[1] == CHAINS
            && (e < CHAINS ==> g.graph.edges[e] == e + 1 && g.values[e] == Weight(a, b, e))
  {
  }

  /** The first epoch. */
  lemma {:induction false} SeedPushes(a: nat, b: nat, ret: seq<nat>, e: nat)
    requires a < b && 6 * b <= WEIGHT_MAX && WeightedOk(Fan(a, b))
    requires e <= CHAINS && Reaching(a, b, ret, e)
    ensures var r := PushFrom(Fan(a, b), ret, Nodes(1, e), 0, e);
            Reaching(a, b, r.0, CHAINS) && r.1 == Nodes(1, CHAINS)
    decreases CHAINS - e
  {
    hide Value, Weight, Offset;
    SeedEdges(a, b, e);
    if e < CHAINS {
      TreeEdge(a, b, e);
      ReachNext(a, b, ret, e);
      FirstValue(a, b, e);
      assert Nodes(1, e) + [e + 1] == Nodes(1, e + 1);
      SeedPushes(a, b, ret[e + 1 := Value(a, b, e)], e + 1);
    }
  }

  /** The vertex before tree edge e pushes the one behind it. */
  lemma TreePush(a: nat, b: nat, ret: seq<nat>, out: seq<nat>, e: nat)
    requires a < b && 6 * b <= WEIGHT_MAX && WeightedOk(Fan(a, b))
    requires CHAINS <= e < TREE && Reaching(a, b, ret, e)
    ensures Fan(a, b).graph.offsets[e - 5] == e && Fan(a, b).graph.offsets[e - 4] == e + 1
    ensures PushFrom(Fan(a, b), ret, out, e - 5, e) == (ret[e + 1 := Value(a, b, e)], out + [e + 1])
  {
    var g := Fan(a, b);
    TreeEdge(a, b, e);
    assert ret[e - 5] == Value(a, b, e - 6);
    assert g.values[e] == Weight(a, b, e) && g.graph.edges[e] == e + 1;
    hide Weight, Value, Offset;
    EdgeAt(g, ret, out, e - 5, e, Value(a, b, e));
  }

  /** One edge that improves its head and is the last of its vertex. */
  lemma EdgeAt(g: Weighted, ret: seq<nat>, out: seq<nat>, u: nat, e: nat, d: nat)
    requires WeightedOk(g) && |ret| == g.graph.nodes && From(g.graph, u, e) && e + 1 == g.graph.offsets[u + 1]
    requires ret[u] + g.values[e] == d < WORD && d < ret[g.graph.edges[e]]
    ensures PushFrom(g, ret, out, u, e) == (ret[g.graph.edges[e] := d], out + [g.graph.edges[e]])
  {
  }

  /** The epochs in between, from the i-th vertex of their level on. */
  lemma {:induction false} LevelPushes(a: nat, b: nat, ret: seq<nat>, level: nat, i: nat)
    requires a < b && 6 * b <= WEIGHT_MAX && WeightedOk(Fan(a, b))
    requires 1 <= level < LEVELS && i <= CHAINS && Reaching(a, b, ret, CHAINS * level + i)
    ensures Vertices(Nodes(CHAINS * level - 5, CHAINS), TREE + 1 + LAST)
    ensures var r := Epoch(Fan(a, b), ret, Nodes(CHAINS * level - 5, CHAINS), i, Nodes(CHAINS * level + 1, i));
            Reaching(a, b, r.0, CHAINS * level + CHAINS) && r.1 == Nodes(CHAINS * level + 1, CHAINS)
    decreases CHAINS - i
  {
    hide Value, Weight, Offset, PushFrom, Reaching;
    var e := CHAINS * level + i;
    if i < CHAINS {
      TreePush(a, b, ret, Nodes(CHAINS * level + 1, i), e);
      ReachNext(a, b, ret, e);
      assert Nodes(CHAINS * level + 1, i) + [e + 1] == Nodes(CHAINS * level + 1, i + 1);
      LevelPushes(a, b, ret[e + 1 := Value(a, b, e)], level, i + 1);
    }
  }

  /** After `level` epochs the vertices of that level are listed. */
  lemma {:induction false} LevelReached(a: nat, b: nat, level: nat)
    requires a < b && 6 * b <= WEIGHT_MAX && 1 <= level <= LEVELS && WeightedOk(Fan(a, b))
    ensures var r := Epochs(Fan(a, b), 0, level);
            Reaching(a, b, r.0, CHAINS * level) && r.1 == Nodes(CHAINS * level - 5, CHAINS)
    decreases level
  {
    hide Value, Weight, Offset, PushFrom;
    if level == 1 {
      SeedEpoch(a, b);
    } else {
      LevelReached(a, b, level - 1);
      LevelPushes(a, b, Epochs(Fan(a, b), 0, level - 1).0, level - 1, 0);
      assert Nodes(CHAINS * (level - 1) + 1, 0) == [];
    }
  }

  lemma SeedEpoch(a: nat, b: nat)
    requires a < b && 6 * b <= WEIGHT_MAX && WeightedOk(Fan(a, b))
    ensures var r := Epochs(Fan(a, b), 0, 1); Reaching(a, b, r.0, CHAINS) && r.1 == Nodes(1, CHAINS)
  {
    hide Value, Weight, Offset, PushFrom;
    var g := Fan(a, b);
    var ret := Epochs(g, 0, 0).0;
    SeedEdges(a, b, 0);
    assert Nodes(1, 0) == [];
    SeedPushes(a, b, ret, 0);
    var (ret', out') := PushFrom(g, ret, [], 0, 0);
    assert Epoch(g, ret, [0], 0, []) == Epoch(g, ret', [0], 1, out') == (ret', out');
  }

  // the last level

  /** The distances of the last level after vertex i of the fifth level has pushed the first x of its edges. */
  ghost predicate Spreading(a: nat, b: nat, ret: seq<nat>, i: nat, x: nat) {
    && |ret| == TREE + 1 + LAST && x <= LAST
    && (forall v :: 25 <= v <= TREE ==> ret[v] == Value(a, b, v - 1))
    && (forall v :: TREE < v <= TREE + x ==> ret[v] == Value(a, b, 24 + i) + a)
    && (forall v :: TREE + x < v < |ret| ==> ret[v] > Value(a, b, 24 + i) + a)
  }

  lemma LastEdges(a: nat, b: nat, i: nat, x: nat)
    requires i < CHAINS && x <= LAST
    ensures var g := Fan(a, b);
            g.graph.offsets[25 + i] == TREE + LAST * i && g.graph.offsets[26 + i] == TREE + LAST * i + LAST
            && (x < LAST ==> g.graph.edges[TREE + LAST * i + x] == TREE + 1 + x && g.values[TREE + LAST * i + x] == a)
  {
  }

  lemma SpreadSize(a: nat, b: nat, ret: seq<nat>, i: nat, x: nat)
    requires Spreading(a, b, ret, i, x)
    ensures |ret| == TREE + 1 + LAST
  {
  }

  lemma SpreadNext(a: nat, b: nat, ret: seq<nat>, i: nat, x: nat)
    requires a < b && 6 * b <= WEIGHT_MAX && i < CHAINS && x < LAST && Spreading(a, b, ret, i, x)
    ensures var d := Value(a, b, 24 + i) + a;
            ret[25 + i] + a == d < ret[TREE + 1 + x] && d < WORD && Spreading(a, b, ret[TREE + 1 + x := d], i, x + 1)
  {
    hide Value;
    ValueBound(a, b, 24 + i);
  }

  lemma {:induction false} SpreadPushes(a: nat, b: nat, ret: seq<nat>, out: seq<nat>, i: nat, x: nat)
    requires a < b && 6 * b <= WEIGHT_MAX && WeightedOk(Fan(a, b))
    requires i < CHAINS && x <= LAST && Spreading(a, b, ret, i, x)
    ensures Fan(a, b).graph.offsets[25 + i] == TREE + LAST * i && Fan(a, b).graph.offsets[26 + i] == TREE + LAST * i + LAST
    ensures var r := PushFrom(Fan(a, b), ret, out, 25 + i, TREE + LAST * i + x);
            Spreading(a, b, r.0, i, LAST) && |r.1| == |out| + LAST - x
    decreases LAST - x
  {
    hide Value, Weight, Offset, Spreading;
    LastEdges(a, b, i, x);
    SpreadSize(a, b, ret, i, x);
    if x < LAST {
      var d := Value(a, b, 24 + i) + a;
      SpreadNext(a, b, ret, i, x);
      SpreadPushes(a, b, ret[TREE + 1 + x := d], out + [TREE + 1 + x], i, x + 1);
    }
  }

  lemma NextSpread(a: nat, b: nat, ret: seq<nat>, i: nat)
    requires a < b && Spreading(a, b, ret, i, LAST) && i + 1 < CHAINS
    ensures Spreading(a, b, ret, i + 1, 0)
  {
    hide Value;
    ChainsDescend(a, b, 24 + i);
  }

  /** The sixth epoch: each of the six vertices improves every vertex of the last level. */
  lemma {:induction false} LastPushes(a: nat, b: nat, ret: seq<nat>, i: nat, out: seq<nat>)
    requires a < b && 6 * b <= WEIGHT_MAX && WeightedOk(Fan(a, b)) && i <= CHAINS
    requires |ret| == TREE + 1 + LAST && (i < CHAINS ==> Spreading(a, b, ret, i, 0))
    ensures Vertices(Nodes(25, CHAINS), TREE + 1 + LAST)
    ensures |Epoch(Fan(a, b), ret, Nodes(25, CHAINS), i, out).1| == |out| + LAST * (CHAINS - i)
    decreases CHAINS - i
  {
    hide Value, Weight, Offset, PushFrom, Spreading;
    if i < CHAINS {
      SpreadPushes(a, b, ret, out, i, 0);
      var (ret', out') := PushFrom(Fan(a, b), ret, out, 25 + i, TREE + LAST * i);
      if i + 1 < CHAINS {
        NextSpread(a, b, ret', i);
      }
      LastPushes(a, b, ret', i + 1, out');
    }
  }

  lemma StartSpread(a: nat, b: nat, ret: seq<nat>)
    requires a < b && 6 * b <= WEIGHT_MAX && Reaching(a, b, ret, TREE)
    ensures Spreading(a, b, ret, 0, 0)
  {
    hide Value;
    ValueBound(a, b, 24);
  }

  /** Two different weights are enough to exceed five entries per vertex: 936 pushes with 187 vertices. */
  lemma TwoWeightsOverflow(a: nat, b: nat)
    requires a < b && 6 * b <= WEIGHT_MAX
    ensures WeightedOk(Fan(a, b)) && !Fits(Fan(a, b), 0, ENTRIES_PER_VERTEX * Fan(a, b).graph.nodes)
  {
    hide Value, Weight, Offset, Epoch, Reaching, Spreading;
    FanOk(a, b);
    LevelReached(a, b, LEVELS);
    var (ret, inWl) := Epochs(Fan(a, b), 0, LEVELS);
    StartSpread(a, b, ret);
    LastPushes(a, b, ret, 0, []);
    assert |Epochs(Fan(a, b), 0, LEVELS + 1).1| == LAST * CHAINS;
  }

  // ---------------------------------------------------------------- the exact condition

  /** A graph all of whose weights are a or b. */
  ghost predicate WeightsAre(g: Weighted, a: nat, b: nat) {
    forall e :: 0 <= e < |g.values| ==> g.values[e] == a || g.values[e] == b
  }

  /** Five entries per vertex are enough for every graph with the weights a and b exactly if a and b are equal. */
  lemma FiveEntriesExactly(a: nat, b: nat)
    requires a <= b && 6 * b <= WEIGHT_MAX
    ensures (forall g: Weighted, seed: nat ::
               WeightedOk(g) && WeightsAre(g, a, b) && seed < g.graph.nodes ==>
                 Fits(g, seed, ENTRIES_PER_VERTEX * g.graph.nodes))
            <==> a == b
  {
    hide Fits, Offset, GraphOk;
    if a == b {
      forall g: Weighted, seed: nat | WeightedOk(g) && WeightsAre(g, a, b) && seed < g.graph.nodes
        ensures Fits(g, seed, ENTRIES_PER_VERTEX * g.graph.nodes)
      {
        EqualWeightsFit(g, a, seed);
        FitsMore(g, seed, g.graph.nodes, ENTRIES_PER_VERTEX * g.graph.nodes);
      }
    } else {
      TwoWeightsOverflow(a, b);
      assert WeightsAre(Fan(a, b), a, b);
    }
  }

  lemma FitsMore(g: Weighted, seed: nat, capacity: nat, more: nat)
    requires WeightedOk(g) && seed < g.graph.nodes && Fits(g, seed, capacity) && capacity <= more
    ensures Fits(g, seed, more)
  {
  }
}
