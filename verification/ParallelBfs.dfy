/** The multi-threaded breadth-first search (parallel/bfs/bfs.h 53-99) as a state machine. One step is one access to
    shared memory that other threads can interfere with; a barrier is released when all threads have reached it. */
module ParallelBfs {
  import opened Graphs
  import opened Bfs

  /** An entry of `ret`. The compare-and-swap works on four bytes, so until the following store only the low half of
      the entry holds the hop number. */
  datatype Cell = Unset | Half(hop: nat) | Full(hop: nat)

  datatype Pc = Test | Outer | Inner | Write | Fetch | Put | Barrier1 | CopyIndex | ClearIndex | Barrier2 | Done

  /** The local variables; `flip` tells which of the two arrays is in_wl. */
  datatype Thread = Thread(pc: Pc, hop: nat, flip: bool, i: nat, node: nat, e: nat, index: nat)

  /** Shared memory, the threads, and three history variables: the number of the epoch, the vertices that took a
      worklist slot in this epoch, in the order of the slots, and those of the epochs before. */
  datatype State = State(ret: seq<Cell>, wl0: seq<nat>, wl1: seq<nat>, inIndex: nat, outIndex: nat,
                         threads: seq<Thread>, epoch: nat, claims: seq<nat>, past: seq<nat>)

  function Label(c: Cell): int {
    if c.Unset? then -1 else c.hop
  }

  function Labels(ret: seq<Cell>): (r: seq<int>) {
    seq(|ret|, v requires 0 <= v < |ret| => Label(ret[v]))
  }

  function InWl(s: State, flip: bool): seq<nat> {
    if flip then s.wl1 else s.wl0
  }

  function OutWl(s: State, flip: bool): seq<nat> {
    if flip then s.wl0 else s.wl1
  }

  /** The head of the edge that the thread is at. */
  function Target(g: Graph, th: Thread): nat {
    if th.e < |g.edges| then g.edges[th.e] else 0
  }

  predicate Waiting(pc: Pc) {
    pc == Barrier1 || pc == Barrier2 || pc == Done
  }

  /** All array accesses of the next step of a thread are within bounds. */
  predicate InBounds(g: Graph, s: State, t: nat) {
    t < |s.threads| &&
    var th := s.threads[t];
    match th.pc
    case Outer => th.i < s.inIndex ==>
        th.i < |InWl(s, th.flip)| && InWl(s, th.flip)[th.i] < |g.offsets|
    case Inner => th.node + 1 < |g.offsets|
        && (th.e < g.offsets[th.node + 1] ==> th.e < |g.edges| && g.edges[th.e] < |s.ret|)
    case Write => th.e < |g.edges| && g.edges[th.e] < |s.ret|
    case Put => th.index < |OutWl(s, th.flip)|
    case _ => true
  }

  function SetThread(s: State, t: nat, th: Thread): State
    requires t < |s.threads|
  {
    s.(threads := s.threads[t := th])
  }

  function Step(g: Graph, s: State, t: nat): State
    requires InBounds(g, s, t)
  {
    var th := s.threads[t];
    match th.pc
    case Test => SetThread(s, t, if s.inIndex > 0 then th.(pc := Outer, i := t) else th.(pc := Done))
    case Outer =>
      if th.i < s.inIndex then
        var node := InWl(s, th.flip)[th.i];
        SetThread(s, t, th.(pc := Inner, node := node, e := g.offsets[node]))
      else SetThread(s, t, th.(pc := Barrier1, hop := th.hop + 1, flip := !th.flip))
    case Inner =>
      if th.e < g.offsets[th.node + 1] then
        if s.ret[g.edges[th.e]].Unset? then
          SetThread(s, t, th.(pc := Write)).(ret := s.ret[g.edges[th.e] := Half(th.hop)])
        else SetThread(s, t, th.(e := th.e + 1))
      else SetThread(s, t, th.(pc := Outer, i := th.i + |s.threads|))
    case Write => SetThread(s, t, th.(pc := Fetch)).(ret := s.ret[g.edges[th.e] := Full(th.hop)])
    case Fetch =>
      SetThread(s, t, th.(pc := Put, index := s.outIndex)).(outIndex := s.outIndex + 1,
                                                           claims := s.claims + [Target(g, th)])
    case Put =>
      var s' := SetThread(s, t, th.(pc := Inner, e := th.e + 1));
      if th.flip then s'.(wl0 := s.wl0[th.index := Target(g, th)])
      else s'.(wl1 := s.wl1[th.index := Target(g, th)])
    case CopyIndex => SetThread(s, t, th.(pc := ClearIndex)).(inIndex := s.outIndex)
    case ClearIndex => SetThread(s, t, th.(pc := Barrier2)).(outIndex := 0)
    case _ => s
  }

  predicate AllAt(s: State, pc: Pc) {
    forall t :: 0 <= t < |s.threads| ==> s.threads[t].pc == pc
  }

  /** Thread 0 goes on to set the two counters, the others to the second barrier. */
  function Release1(s: State): State {
    s.(threads := seq(|s.threads|, t requires 0 <= t < |s.threads| =>
                      s.threads[t].(pc := if t == 0 then CopyIndex else Barrier2)))
  }

  function Release2(s: State): State {
    s.(threads := seq(|s.threads|, t requires 0 <= t < |s.threads| => s.threads[t].(pc := Test)),
       epoch := s.epoch + 1, claims := [], past := s.past + s.claims)
  }

  /** After init_bfs; what is in the worklists beyond the first slot is arbitrary. */
  ghost predicate Initial(g: Graph, seed: nat, s: State) {
    && |s.ret| == g.nodes && seed < g.nodes
    && (forall v :: 0 <= v < g.nodes ==> s.ret[v] == if v == seed then Full(0) else Unset)
    && |s.wl0| == |s.wl1| == 2 * g.nodes && s.wl0[0] == seed && s.inIndex == 1 && s.outIndex == 0
    && |s.threads| > 0
    && (forall t :: 0 <= t < |s.threads| ==>
          s.threads[t].pc == Test && s.threads[t].hop == 1 && !s.threads[t].flip)
    && s.epoch == 1 && s.claims == [] && s.past == []
  }

  ghost predicate Next(g: Graph, s: State, s': State) {
    || (exists t: nat :: ThreadStep(g, s, s', t))
    || (AllAt(s, Barrier1) && s' == Release1(s))
    || (AllAt(s, Barrier2) && s' == Release2(s))
  }

  ghost predicate ThreadStep(g: Graph, s: State, s': State, t: nat) {
    t < |s.threads| && !Waiting(s.threads[t].pc) && InBounds(g, s, t) && s' == Step(g, s, t)
  }

  // ---------------------------------------------------------------- invariant of the push phase

  predicate Pushing(pc: Pc) {
    pc == Outer || pc == Inner || pc == Write || pc == Fetch || pc == Put
  }

  /** The thread has labelled a vertex that has no slot yet. */
  predicate Pending(th: Thread) {
    th.pc == Write || th.pc == Fetch
  }

  ghost predicate IsPending(g: Graph, threads: seq<Thread>, v: nat) {
    exists t: nat :: PendingAt(g, threads, t, v)
  }

  predicate PendingAt(g: Graph, threads: seq<Thread>, t: nat, v: nat) {
    t < |threads| && Pending(threads[t]) && Target(g, threads[t]) == v
  }

  predicate PutAt(threads: seq<Thread>, t: nat, j: nat) {
    t < |threads| && threads[t].pc == Put && threads[t].index == j
  }

  ghost predicate IsPut(threads: seq<Thread>, j: nat) {
    exists t: nat :: PutAt(threads, t, j)
  }

  /** Half-written entries belong to threads about to complete them. */
  ghost predicate HalvesOk(g: Graph, ret: seq<Cell>, threads: seq<Thread>) {
    forall v: nat :: v < |ret| && ret[v].Half? ==>
      exists t: nat :: PendingAt(g, threads, t, v) && threads[t].pc == Write
  }

  /** Every vertex labelled in this epoch has exactly one slot, or is about to get one. */
  ghost predicate ClaimsOk(g: Graph, labels: seq<int>, claims: seq<nat>, threads: seq<Thread>, hop: nat) {
    && NoDup(claims)
    && (forall v: nat :: v in claims || IsPending(g, threads, v) <==> v < |labels| && labels[v] == hop)
    && (forall v: nat :: v in claims ==> !IsPending(g, threads, v))
    && (forall t: nat, u: nat, v: nat :: PendingAt(g, threads, t, v) && PendingAt(g, threads, u, v) ==> t == u)
  }

  /** Each slot holds its vertex unless its owner has not stored it yet. */
  ghost predicate SlotsOk(g: Graph, out: seq<nat>, claims: seq<nat>, threads: seq<Thread>) {
    && |claims| <= |out|
    && (forall j: nat :: j < |claims| ==> out[j] == claims[j] || IsPut(threads, j))
    && (forall t: nat, j: nat :: PutAt(threads, t, j) ==> j < |claims| && claims[j] == Target(g, threads[t]))
  }

  /** The thread that handles entry i of the frontier: the one reached by steps of n. */
  function Owner(i: nat, n: nat): (t: nat)
    requires n > 0
    ensures t < n
  {
    if i < n then i else Owner(i - n, n)
  }

  /** The share of a thread in the frontier, as far as it lies below `limit`, has been pushed. */
  ghost predicate ShareDone(g: Graph, labels: seq<int>, wl: seq<nat>, n: nat, t: nat, limit: nat)
    requires GraphOk(g) && |labels| == g.nodes && n > 0
  {
    forall i :: 0 <= i < limit && i < |wl| && Owner(i, n) == t && wl[i] < g.nodes ==>
                  Pushed(g, labels, g.offsets[wl[i]], g.offsets[wl[i] + 1])
  }

  ghost predicate ThreadOk(g: Graph, labels: seq<int>, wl: seq<nat>, n: nat, t: nat, th: Thread, epoch: nat)
    requires GraphOk(g) && |labels| == g.nodes && n > 0
  {
    && th.hop == (if th.pc == Barrier1 then epoch + 1 else epoch)
    && th.flip == (th.hop % 2 == 0)
    && (th.pc == Test || th.pc == Done || th.pc == Barrier1 || Pushing(th.pc))
    && (th.pc == Done ==> wl == [])
    && (th.pc == Barrier1 ==> wl != [] && ShareDone(g, labels, wl, n, t, |wl|))
    && (Pushing(th.pc) ==> wl != [] && Owner(th.i, n) == t && ShareDone(g, labels, wl, n, t, th.i))
    && (Pushing(th.pc) && th.pc != Outer ==>
          && th.i < |wl| && th.node == wl[th.i] && th.node < g.nodes
          && g.offsets[th.node] <= th.e <= g.offsets[th.node + 1]
          && Pushed(g, labels, g.offsets[th.node], th.e))
    && (Pushing(th.pc) && th.pc != Outer && th.pc != Inner ==>
          th.e < g.offsets[th.node + 1] && labels[g.edges[th.e]] == epoch)
  }

  ghost predicate ThreadsOk(g: Graph, labels: seq<int>, wl: seq<nat>, threads: seq<Thread>, epoch: nat)
    requires GraphOk(g) && |labels| == g.nodes
  {
    forall t :: 0 <= t < |threads| ==> ThreadOk(g, labels, wl, |threads|, t, threads[t], epoch)
  }

  /** The slots taken in earlier epochs belong to the vertices labelled in them. */
  ghost predicate PastOk(labels: seq<int>, past: seq<nat>, epoch: nat) {
    NoDup(past) && forall v: nat :: v in past <==> v < |labels| && 1 <= labels[v] < epoch
  }

  // ---------------------------------------------------------------- how one thread's step changes these parts

  /** Labels are only added. */
  ghost predicate Grown(was: seq<int>, labels: seq<int>) {
    |was| == |labels| && forall v :: 0 <= v < |was| && was[v] != -1 ==> labels[v] == was[v]
  }

  lemma ShareGrown(g: Graph, was: seq<int>, labels: seq<int>, wl: seq<nat>, n: nat, t: nat, limit: nat)
    requires GraphOk(g) && |was| == g.nodes && Grown(was, labels) && n > 0 && ShareDone(g, was, wl, n, t, limit)
    ensures ShareDone(g, labels, wl, n, t, limit)
  {
    forall i | 0 <= i < limit && i < |wl| && Owner(i, n) == t && wl[i] < g.nodes
      ensures Pushed(g, labels, g.offsets[wl[i]], g.offsets[wl[i] + 1])
    {
      assert Pushed(g, was, g.offsets[wl[i]], g.offsets[wl[i] + 1]);
    }
  }

  lemma ThreadGrown(g: Graph, was: seq<int>, labels: seq<int>, wl: seq<nat>, n: nat, t: nat, th: Thread, epoch: nat)
    requires GraphOk(g) && |was| == g.nodes && Grown(was, labels) && n > 0 && ThreadOk(g, was, wl, n, t, th, epoch)
    ensures ThreadOk(g, labels, wl, n, t, th, epoch)
  {
    if th.pc == Barrier1 {
      ShareGrown(g, was, labels, wl, n, t, |wl|);
    } else if Pushing(th.pc) {
      ShareGrown(g, was, labels, wl, n, t, th.i);
    }
  }

  lemma ThreadsUpdate(g: Graph, was: seq<int>, labels: seq<int>, wl: seq<nat>, threads: seq<Thread>, t: nat,
                      th: Thread, epoch: nat)
    requires GraphOk(g) && |was| == g.nodes && Grown(was, labels) && t < |threads|
    requires ThreadsOk(g, was, wl, threads, epoch) && ThreadOk(g, labels, wl, |threads|, t, th, epoch)
    ensures ThreadsOk(g, labels, wl, threads[t := th], epoch)
  {
    hide ThreadOk;
    var threads' := threads[t := th];
    forall u | 0 <= u < |threads'|
      ensures ThreadOk(g, labels, wl, |threads'|, u, threads'[u], epoch)
    {
      if u != t {
        ThreadGrown(g, was, labels, wl, |threads|, u, threads[u], epoch);
      }
    }
  }

  /** Steps that neither label a vertex nor take or fill a slot. */
  lemma Neutral(g: Graph, ret: seq<Cell>, claims: seq<nat>, out: seq<nat>, threads: seq<Thread>, t: nat, th: Thread,
                hop: nat)
    requires t < |threads| && !Pending(threads[t]) && !Pending(th) && threads[t].pc != Put && th.pc != Put
    requires HalvesOk(g, ret, threads) && ClaimsOk(g, Labels(ret), claims, threads, hop)
    requires SlotsOk(g, out, claims, threads)
    ensures HalvesOk(g, ret, threads[t := th]) && ClaimsOk(g, Labels(ret), claims, threads[t := th], hop)
    ensures SlotsOk(g, out, claims, threads[t := th])
  {
    var threads' := threads[t := th];
    assert forall u: nat, v: nat :: PendingAt(g, threads', u, v) <==> PendingAt(g, threads, u, v);
    assert forall u: nat, j: nat :: PutAt(threads', u, j) <==> PutAt(threads, u, j);
    assert forall v: nat :: IsPending(g, threads', v) <==> IsPending(g, threads, v);
    assert forall j: nat :: IsPut(threads', j) <==> IsPut(threads, j);
  }

  /** A successful compare-and-swap. */
  lemma CasParts(g: Graph, ret: seq<Cell>, claims: seq<nat>, out: seq<nat>, threads: seq<Thread>, t: nat, hop: nat)
    requires t < |threads| && threads[t].pc == Inner
    requires Target(g, threads[t]) < |ret| && ret[Target(g, threads[t])].Unset?
    requires HalvesOk(g, ret, threads) && ClaimsOk(g, Labels(ret), claims, threads, hop)
    requires SlotsOk(g, out, claims, threads)
    ensures var v, threads' := Target(g, threads[t]), threads[t := threads[t].(pc := Write)];
            var ret' := ret[v := Half(hop)];
            && Labels(ret') == Labels(ret)[v := hop]
            && HalvesOk(g, ret', threads') && ClaimsOk(g, Labels(ret'), claims, threads', hop)
            && SlotsOk(g, out, claims, threads')
  {
    var w, threads' := Target(g, threads[t]), threads[t := threads[t].(pc := Write)];
    assert forall u: nat, v: nat :: PendingAt(g, threads', u, v) <==> PendingAt(g, threads, u, v) || (u == t && v == w);
    assert forall u: nat, j: nat :: PutAt(threads', u, j) <==> PutAt(threads, u, j);
    assert forall v: nat :: IsPending(g, threads', v) <==> IsPending(g, threads, v) || v == w by {
      assert PendingAt(g, threads', t, w);
    }
    assert forall j: nat :: IsPut(threads', j) <==> IsPut(threads, j);
    assert Labels(ret)[w] == -1;
  }

  /** The store that completes the entry. */
  lemma WriteParts(g: Graph, ret: seq<Cell>, claims: seq<nat>, out: seq<nat>, threads: seq<Thread>, t: nat, hop: nat)
    requires t < |threads| && threads[t].pc == Write
    requires Target(g, threads[t]) < |ret| && Label(ret[Target(g, threads[t])]) == hop
    requires HalvesOk(g, ret, threads) && ClaimsOk(g, Labels(ret), claims, threads, hop)
    requires SlotsOk(g, out, claims, threads)
    ensures var v, threads' := Target(g, threads[t]), threads[t := threads[t].(pc := Fetch)];
            var ret' := ret[v := Full(hop)];
            && Labels(ret') == Labels(ret)
            && HalvesOk(g, ret', threads') && ClaimsOk(g, Labels(ret'), claims, threads', hop)
            && SlotsOk(g, out, claims, threads')
  {
    var w, threads' := Target(g, threads[t]), threads[t := threads[t].(pc := Fetch)];
    assert forall u: nat, v: nat :: PendingAt(g, threads', u, v) <==> PendingAt(g, threads, u, v);
    assert forall u: nat, j: nat :: PutAt(threads', u, j) <==> PutAt(threads, u, j);
    assert forall v: nat :: IsPending(g, threads', v) <==> IsPending(g, threads, v);
    assert forall j: nat :: IsPut(threads', j) <==> IsPut(threads, j);
    assert Labels(ret[w := Full(hop)]) == Labels(ret);
    assert PendingAt(g, threads, t, w);
  }

  /** fetch_add: the next slot goes to the pending vertex. */
  lemma FetchParts(g: Graph, ret: seq<Cell>, claims: seq<nat>, out: seq<nat>, threads: seq<Thread>, t: nat, hop: nat)
    requires t < |threads| && threads[t].pc == Fetch && |ret| <= |out|
    requires HalvesOk(g, ret, threads) && ClaimsOk(g, Labels(ret), claims, threads, hop)
    requires SlotsOk(g, out, claims, threads)
    ensures var threads' := threads[t := threads[t].(pc := Put, index := |claims|)];
            var claims' := claims + [Target(g, threads[t])];
            && HalvesOk(g, ret, threads') && ClaimsOk(g, Labels(ret), claims', threads', hop)
            && SlotsOk(g, out, claims', threads')
  {
    var w, threads' := Target(g, threads[t]), threads[t := threads[t].(pc := Put, index := |claims|)];
    var claims' := claims + [w];
    assert PendingAt(g, threads, t, w) && IsPending(g, threads, w);
    assert forall u: nat, v: nat :: PendingAt(g, threads', u, v) <==> PendingAt(g, threads, u, v) && u != t;
    assert forall u: nat, j: nat :: PutAt(threads', u, j) <==> PutAt(threads, u, j) || (u == t && j == |claims|);
    assert forall v: nat :: IsPending(g, threads', v) <==> IsPending(g, threads, v) && v != w;
    assert forall j: nat :: IsPut(threads', j) <==> IsPut(threads, j) || j == |claims| by {
      assert PutAt(threads', t, |claims|);
    }
    assert forall v: nat :: v in claims' <==> v in claims || v == w;
    NoDupBound(claims', |ret|);
  }

  /** The store into the slot. */
  lemma PutParts(g: Graph, ret: seq<Cell>, claims: seq<nat>, out: seq<nat>, threads: seq<Thread>, t: nat, hop: nat)
    requires t < |threads| && threads[t].pc == Put
    requires HalvesOk(g, ret, threads) && ClaimsOk(g, Labels(ret), claims, threads, hop)
    requires SlotsOk(g, out, claims, threads)
    ensures threads[t].index < |out|
    ensures var threads' := threads[t := threads[t].(pc := Inner, e := threads[t].e + 1)];
            var out' := out[threads[t].index := Target(g, threads[t])];
            && HalvesOk(g, ret, threads') && ClaimsOk(g, Labels(ret), claims, threads', hop)
            && SlotsOk(g, out', claims, threads')
  {
    var k, threads' := threads[t].index, threads[t := threads[t].(pc := Inner, e := threads[t].e + 1)];
    assert PutAt(threads, t, k);
    assert forall u: nat, v: nat :: PendingAt(g, threads', u, v) <==> PendingAt(g, threads, u, v);
    assert forall u: nat, j: nat :: PutAt(threads', u, j) <==> PutAt(threads, u, j) && u != t;
    assert forall v: nat :: IsPending(g, threads', v) <==> IsPending(g, threads, v);
    assert forall j: nat :: IsPut(threads, j) && j != k ==> IsPut(threads', j);
  }
}
