/** What every step of the multi-threaded search keeps, and what every finished run has computed. */
module ParallelBfsProof {
  import opened Graphs
  import opened Bfs
  import opened ParallelBfs

  ghost predicate ShapeOk(g: Graph, seed: nat, s: State) {
    && GraphOk(g) && seed < g.nodes && |s.ret| == g.nodes && |s.threads| > 0 && s.epoch > 0
    && |s.wl0| == |s.wl1| == 2 * g.nodes && s.inIndex <= 2 * g.nodes
  }

  function EpochFlip(epoch: nat): bool {
    epoch % 2 == 0
  }

  /** The worklist read in this epoch. */
  function Input(s: State): seq<nat>
    requires s.inIndex <= |InWl(s, EpochFlip(s.epoch))|
  {
    InWl(s, EpochFlip(s.epoch))[..s.inIndex]
  }

  /** Between the second barrier and the first one. */
  ghost predicate PushInv(g: Graph, seed: nat, s: State) {
    && ShapeOk(g, seed, s)
    && Labelled(g, seed, Labels(s.ret), s.epoch)
    && Frontier(g, seed, Input(s), s.epoch - 1)
    && s.outIndex == |s.claims|
    && HalvesOk(g, s.ret, s.threads)
    && ClaimsOk(g, Labels(s.ret), s.claims, s.threads, s.epoch)
    && SlotsOk(g, OutWl(s, EpochFlip(s.epoch)), s.claims, s.threads)
    && ThreadsOk(g, Labels(s.ret), Input(s), s.threads, s.epoch)
    && PastOk(Labels(s.ret), s.past, s.epoch)
  }

  /** Between the first barrier and the second one. */
  ghost predicate SwitchInv(g: Graph, seed: nat, s: State) {
    && ShapeOk(g, seed, s)
    && Labelled(g, seed, Labels(s.ret), s.epoch + 1) && (forall v :: 0 <= v < |s.ret| ==> Label(s.ret[v]) <= s.epoch)
    && (forall v :: 0 <= v < |s.ret| ==> !s.ret[v].Half?)
    && Frontier(g, seed, s.claims, s.epoch)
    && |s.claims| <= 2 * g.nodes && OutWl(s, EpochFlip(s.epoch))[..|s.claims|] == s.claims
    && PastOk(Labels(s.ret), s.past + s.claims, s.epoch + 1)
    && (forall t :: 0 <= t < |s.threads| ==>
          s.threads[t].hop == s.epoch + 1 && s.threads[t].flip == EpochFlip(s.epoch + 1))
    && (forall t :: 0 < t < |s.threads| ==> s.threads[t].pc == Barrier2)
    && (s.threads[0].pc == CopyIndex || s.threads[0].pc == ClearIndex || s.threads[0].pc == Barrier2)
    && (s.threads[0].pc != Barrier2 ==> s.outIndex == |s.claims|)
    && (s.threads[0].pc != CopyIndex ==> s.inIndex == |s.claims|)
    && (s.threads[0].pc == Barrier2 ==> s.outIndex == 0)
  }

  ghost predicate Inv(g: Graph, seed: nat, s: State) {
    PushInv(g, seed, s) || SwitchInv(g, seed, s)
  }

  /** Every step of every thread stays within the arrays. */
  lemma AccessesInBounds(g: Graph, seed: nat, s: State, t: nat)
    requires Inv(g, seed, s) && t < |s.threads|
    ensures InBounds(g, s, t)
  {
    if PushInv(g, seed, s) {
      assert ThreadOk(g, Labels(s.ret), Input(s), |s.threads|, t, s.threads[t], s.epoch);
      var th := s.threads[t];
      if th.pc == Put {
        assert PutAt(s.threads, t, th.index);
      }
      if th.pc == Outer && th.i < s.inIndex {
        assert Input(s)[th.i] in Input(s);
      }
    }
  }

  lemma ShareNext(g: Graph, labels: seq<int>, wl: seq<nat>, n: nat, t: nat, i: nat)
    requires GraphOk(g) && |labels| == g.nodes && n > 0 && Owner(i, n) == t && ShareDone(g, labels, wl, n, t, i)
    requires i < |wl| && (wl[i] < g.nodes ==> Pushed(g, labels, g.offsets[wl[i]], g.offsets[wl[i] + 1]))
    ensures ShareDone(g, labels, wl, n, t, i + n) && Owner(i + n, n) == t
  {
    forall j | 0 <= j < i + n && j < |wl| && Owner(j, n) == t && wl[j] < g.nodes
      ensures Pushed(g, labels, g.offsets[wl[j]], g.offsets[wl[j] + 1])
    {
      SameOwner(i, j, n);
    }
  }

  /** Two entries of one thread are at least n apart. */
  lemma {:induction false} SameOwner(i: nat, j: nat, n: nat)
    requires n > 0 && Owner(i, n) == Owner(j, n) && j < i + n
    ensures j <= i
  {
    if i >= n && j >= n {
      SameOwner(i - n, j - n, n);
    }
  }

  lemma InputVertices(g: Graph, seed: nat, wl: seq<nat>, d: nat)
    requires GraphOk(g) && Frontier(g, seed, wl, d)
    ensures forall v :: v in wl ==> v < g.nodes
  {
  }

  /** Steps that only move a thread. */
  lemma MoveKeeps(g: Graph, seed: nat, s: State, t: nat)
    requires PushInv(g, seed, s) && t < |s.threads| && InBounds(g, s, t)
    requires var th := s.threads[t];
             || th.pc == Test || th.pc == Outer
             || (th.pc == Inner && (th.e < g.offsets[th.node + 1] ==> !s.ret[g.edges[th.e]].Unset?))
    ensures PushInv(g, seed, Step(g, s, t))
  {
    hide Labelled, Frontier, PastOk, ClaimsOk, HalvesOk, SlotsOk;
    var th, s' := s.threads[t], Step(g, s, t);
    var labels, wl, n := Labels(s.ret), Input(s), |s.threads|;
    assert ThreadOk(g, labels, wl, n, t, th, s.epoch);
    Neutral(g, s.ret, s.claims, OutWl(s, EpochFlip(s.epoch)), s.threads, t, s'.threads[t], s.epoch);
    InputVertices(g, seed, wl, s.epoch - 1);
    MoveThread(g, labels, wl, s, t);
    ThreadsUpdate(g, labels, labels, wl, s.threads, t, s'.threads[t], s.epoch);
  }

  lemma MoveThread(g: Graph, labels: seq<int>, wl: seq<nat>, s: State, t: nat)
    requires GraphOk(g) && t < |s.threads| && InBounds(g, s, t) && |s.ret| == g.nodes && labels == Labels(s.ret)
    requires s.inIndex <= |InWl(s, EpochFlip(s.epoch))| && wl == Input(s) && forall v :: v in wl ==> v < g.nodes
    requires ThreadOk(g, labels, wl, |s.threads|, t, s.threads[t], s.epoch)
    requires var th := s.threads[t];
             || th.pc == Test || th.pc == Outer
             || (th.pc == Inner && (th.e < g.offsets[th.node + 1] ==> !s.ret[g.edges[th.e]].Unset?))
    ensures ThreadOk(g, labels, wl, |s.threads|, t, Step(g, s, t).threads[t], s.epoch)
  {
    hide ShareDone, Pushed, Owner;
    var th := s.threads[t];
    if th.pc == Test {
      TestThread(g, labels, wl, |s.threads|, t, th, s.epoch);
    } else if th.pc == Outer {
      OuterThread(g, labels, wl, |s.threads|, t, th, s.epoch);
    } else if th.pc == Inner {
      InnerThread(g, labels, wl, |s.threads|, t, th, s.epoch);
    }
  }

  lemma TestThread(g: Graph, labels: seq<int>, wl: seq<nat>, n: nat, t: nat, th: Thread, epoch: nat)
    requires GraphOk(g) && |labels| == g.nodes && t < n
    requires ThreadOk(g, labels, wl, n, t, th, epoch) && th.pc == Test
    ensures wl != [] ==> ThreadOk(g, labels, wl, n, t, th.(pc := Outer, i := t), epoch)
    ensures wl == [] ==> ThreadOk(g, labels, wl, n, t, th.(pc := Done), epoch)
  {
  }

  lemma OuterThread(g: Graph, labels: seq<int>, wl: seq<nat>, n: nat, t: nat, th: Thread, epoch: nat)
    requires GraphOk(g) && |labels| == g.nodes && n > 0 && (forall v :: v in wl ==> v < g.nodes)
    requires ThreadOk(g, labels, wl, n, t, th, epoch) && th.pc == Outer
    ensures th.i < |wl| ==>
              wl[th.i] < g.nodes
              && ThreadOk(g, labels, wl, n, t, th.(pc := Inner, node := wl[th.i], e := g.offsets[wl[th.i]]), epoch)
    ensures th.i >= |wl| ==>
              ThreadOk(g, labels, wl, n, t, th.(pc := Barrier1, hop := th.hop + 1, flip := !th.flip), epoch)
  {
    assert th.i < |wl| ==> wl[th.i] in wl;
  }

  lemma InnerThread(g: Graph, labels: seq<int>, wl: seq<nat>, n: nat, t: nat, th: Thread, epoch: nat)
    requires GraphOk(g) && |labels| == g.nodes && n > 0
    requires ThreadOk(g, labels, wl, n, t, th, epoch) && th.pc == Inner
    ensures th.e < g.offsets[th.node + 1] && labels[g.edges[th.e]] != -1 ==>
              ThreadOk(g, labels, wl, n, t, th.(e := th.e + 1), epoch)
    ensures th.e >= g.offsets[th.node + 1] ==> ThreadOk(g, labels, wl, n, t, th.(pc := Outer, i := th.i + n), epoch)
  {
    if th.e >= g.offsets[th.node + 1] {
      ShareNext(g, labels, wl, n, t, th.i);
    }
  }

  lemma CasKeeps(g: Graph, seed: nat, s: State, t: nat)
    requires PushInv(g, seed, s) && t < |s.threads| && InBounds(g, s, t)
    requires var th := s.threads[t];
             th.pc == Inner && th.e < g.offsets[th.node + 1] && s.ret[g.edges[th.e]].Unset?
    ensures PushInv(g, seed, Step(g, s, t))
  {
    hide Labelled, Frontier, PastOk, ClaimsOk, HalvesOk, SlotsOk, Pushed, ShareDone, Owner;
    var th, s' := s.threads[t], Step(g, s, t);
    var v, labels, wl := g.edges[th.e], Labels(s.ret), Input(s);
    assert ThreadOk(g, labels, wl, |s.threads|, t, th, s.epoch);
    InnerSource(g, seed, labels, wl, |s.threads|, t, th, s.epoch);
    LabelIsDistance(g, seed, labels, s.epoch, th.node, th.e);
    CasParts(g, s.ret, s.claims, OutWl(s, EpochFlip(s.epoch)), s.threads, t, s.epoch);
    CasThread(g, labels, wl, |s.threads|, t, th, s.epoch);
    ThreadsUpdate(g, labels, labels[v := s.epoch], wl, s.threads, t, th.(pc := Write), s.epoch);
    PastSame(labels, s.past, s.epoch, v);
  }

  lemma PastSame(labels: seq<int>, past: seq<nat>, epoch: nat, v: nat)
    requires PastOk(labels, past, epoch) && v < |labels| && labels[v] == -1
    ensures PastOk(labels[v := epoch], past, epoch)
  {
  }

  lemma InnerSource(g: Graph, seed: nat, labels: seq<int>, wl: seq<nat>, n: nat, t: nat, th: Thread, epoch: nat)
    requires GraphOk(g) && |labels| == g.nodes && n > 0 && epoch > 0 && Frontier(g, seed, wl, epoch - 1)
    requires ThreadOk(g, labels, wl, n, t, th, epoch) && th.pc == Inner && th.e < g.offsets[th.node + 1]
    ensures Distance(g, seed, th.node, epoch - 1) && From(g, th.node, th.e) && th.hop == epoch
  {
    assert wl[th.i] in wl;
  }

  lemma CasThread(g: Graph, labels: seq<int>, wl: seq<nat>, n: nat, t: nat, th: Thread, epoch: nat)
    requires GraphOk(g) && |labels| == g.nodes && n > 0
    requires ThreadOk(g, labels, wl, n, t, th, epoch) && th.pc == Inner && th.e < g.offsets[th.node + 1]
    requires labels[g.edges[th.e]] == -1
    ensures ThreadOk(g, labels[g.edges[th.e] := epoch], wl, n, t, th.(pc := Write), epoch)
  {
    ThreadGrown(g, labels, labels[g.edges[th.e] := epoch], wl, n, t, th, epoch);
  }

  lemma WriteKeeps(g: Graph, seed: nat, s: State, t: nat)
    requires PushInv(g, seed, s) && t < |s.threads| && InBounds(g, s, t) && s.threads[t].pc == Write
    ensures PushInv(g, seed, Step(g, s, t))
  {
    hide Labelled, Frontier, PastOk, ClaimsOk, HalvesOk, SlotsOk, Pushed, ShareDone, Owner;
    var th, s' := s.threads[t], Step(g, s, t);
    var labels, wl := Labels(s.ret), Input(s);
    assert ThreadOk(g, labels, wl, |s.threads|, t, th, s.epoch);
    WriteParts(g, s.ret, s.claims, OutWl(s, EpochFlip(s.epoch)), s.threads, t, s.epoch);
    ThreadsUpdate(g, labels, labels, wl, s.threads, t, th.(pc := Fetch), s.epoch);
  }

  lemma FetchKeeps(g: Graph, seed: nat, s: State, t: nat)
    requires PushInv(g, seed, s) && t < |s.threads| && InBounds(g, s, t) && s.threads[t].pc == Fetch
    ensures PushInv(g, seed, Step(g, s, t))
  {
    hide Labelled, Frontier, PastOk, ClaimsOk, HalvesOk, SlotsOk, Pushed, ShareDone, Owner;
    var th, s' := s.threads[t], Step(g, s, t);
    var labels, wl := Labels(s.ret), Input(s);
    assert ThreadOk(g, labels, wl, |s.threads|, t, th, s.epoch);
    FetchParts(g, s.ret, s.claims, OutWl(s, EpochFlip(s.epoch)), s.threads, t, s.epoch);
    ThreadsUpdate(g, labels, labels, wl, s.threads, t, th.(pc := Put, index := s.outIndex), s.epoch);
  }

  lemma PutKeeps(g: Graph, seed: nat, s: State, t: nat)
    requires PushInv(g, seed, s) && t < |s.threads| && InBounds(g, s, t) && s.threads[t].pc == Put
    ensures PushInv(g, seed, Step(g, s, t))
  {
    hide Labelled, Frontier, PastOk, ClaimsOk, HalvesOk, SlotsOk, Pushed, ShareDone, Owner;
    var th, s' := s.threads[t], Step(g, s, t);
    var labels, wl := Labels(s.ret), Input(s);
    assert ThreadOk(g, labels, wl, |s.threads|, t, th, s.epoch);
    PutParts(g, s.ret, s.claims, OutWl(s, EpochFlip(s.epoch)), s.threads, t, s.epoch);
    PutThread(g, labels, wl, |s.threads|, t, th, s.epoch);
    PutArrays(g, s, t);
    hide Step, ThreadOk, InBounds;
    ThreadsUpdate(g, labels, labels, wl, s.threads, t, th.(pc := Inner, e := th.e + 1), s.epoch);
  }

  lemma PutArrays(g: Graph, s: State, t: nat)
    requires t < |s.threads| && InBounds(g, s, t) && s.threads[t].pc == Put
    requires s.threads[t].flip == EpochFlip(s.epoch) && s.inIndex <= |InWl(s, EpochFlip(s.epoch))|
    ensures var s', flip := Step(g, s, t), EpochFlip(s.epoch);
            && s'.epoch == s.epoch && s'.inIndex == s.inIndex && InWl(s', flip) == InWl(s, flip)
            && OutWl(s', flip) == OutWl(s, flip)[s.threads[t].index := Target(g, s.threads[t])]
            && |s'.wl0| == |s.wl0| && |s'.wl1| == |s.wl1| && Input(s') == Input(s)
            && s' == s.(wl0 := s'.wl0, wl1 := s'.wl1,
                        threads := s.threads[t := s.threads[t].(pc := Inner, e := s.threads[t].e + 1)])
  {
  }

  lemma PutThread(g: Graph, labels: seq<int>, wl: seq<nat>, n: nat, t: nat, th: Thread, epoch: nat)
    requires GraphOk(g) && |labels| == g.nodes && n > 0
    requires ThreadOk(g, labels, wl, n, t, th, epoch) && th.pc == Put
    ensures ThreadOk(g, labels, wl, n, t, th.(pc := Inner, e := th.e + 1), epoch)
  {
  }

  // ---------------------------------------------------------------- the barriers

  /** Together the shares of all threads are the whole frontier. */
  lemma AllShares(g: Graph, labels: seq<int>, wl: seq<nat>, n: nat)
    requires GraphOk(g) && |labels| == g.nodes && n > 0
    requires forall t: nat :: t < n ==> ShareDone(g, labels, wl, n, t, |wl|)
    ensures PushedAll(g, labels, wl)
  {
    forall i | 0 <= i < |wl| && wl[i] < g.nodes
      ensures Pushed(g, labels, g.offsets[wl[i]], g.offsets[wl[i] + 1])
    {
      assert ShareDone(g, labels, wl, n, Owner(i, n), |wl|);
    }
  }

  lemma NobodyPending(g: Graph, threads: seq<Thread>)
    requires forall t :: 0 <= t < |threads| ==> threads[t].pc != Put && !Pending(threads[t])
    ensures forall v: nat :: !IsPending(g, threads, v)
    ensures forall j: nat :: !IsPut(threads, j)
  {
  }

  lemma PastAndClaims(labels: seq<int>, past: seq<nat>, claims: seq<nat>, epoch: nat)
    requires PastOk(labels, past, epoch) && Listed(labels, claims, epoch) && epoch > 0
    ensures PastOk(labels, past + claims, epoch + 1)
  {
    var all := past + claims;
    forall i, j | 0 <= i < j < |all|
      ensures all[i] != all[j]
    {
      assert i < |past| ==> all[i] in past;
      assert j >= |past| ==> all[j] in claims;
    }
  }

  lemma Release1Keeps(g: Graph, seed: nat, s: State)
    requires PushInv(g, seed, s) && AllAt(s, Barrier1)
    ensures SwitchInv(g, seed, Release1(s))
  {
    hide Labelled, Distance, Pushed, Owner;
    var labels, wl, n := Labels(s.ret), Input(s), |s.threads|;
    forall t: nat | t < n
      ensures ShareDone(g, labels, wl, n, t, |wl|) && s.threads[t].pc == Barrier1
      ensures s.threads[t].hop == s.epoch + 1 && s.threads[t].flip == EpochFlip(s.epoch + 1)
    {
      assert ThreadOk(g, labels, wl, n, t, s.threads[t], s.epoch);
    }
    NobodyPending(g, s.threads);
    AllShares(g, labels, wl, n);
    AtMost(g, seed, labels, s.epoch);
    EpochDone(g, seed, labels, s.epoch, wl);
    assert Listed(labels, s.claims, s.epoch);
    PastAndClaims(labels, s.past, s.claims, s.epoch);
    assert Frontier(g, seed, s.claims, s.epoch);
    assert forall v :: 0 <= v < |s.ret| ==> labels[v] == Label(s.ret[v]);
  }

  lemma SwitchKeeps(g: Graph, seed: nat, s: State, t: nat)
    requires SwitchInv(g, seed, s) && t < |s.threads| && !Waiting(s.threads[t].pc) && InBounds(g, s, t)
    ensures SwitchInv(g, seed, Step(g, s, t))
  {
    hide Labelled, Frontier, PastOk;
    assert t == 0;
  }

  lemma Release2Keeps(g: Graph, seed: nat, s: State)
    requires SwitchInv(g, seed, s) && AllAt(s, Barrier2)
    ensures PushInv(g, seed, Release2(s))
  {
    hide Labelled, Frontier, PastOk;
    var s' := Release2(s);
    NobodyPending(g, s'.threads);
    assert Input(s') == s.claims;
    assert forall v :: 0 <= v < |s.ret| ==> Labels(s.ret)[v] == Label(s.ret[v]);
  }

  lemma StepKeeps(g: Graph, seed: nat, s: State, t: nat)
    requires Inv(g, seed, s) && t < |s.threads| && !Waiting(s.threads[t].pc) && InBounds(g, s, t)
    ensures Inv(g, seed, Step(g, s, t))
  {
    if PushInv(g, seed, s) {
      var th := s.threads[t];
      assert ThreadOk(g, Labels(s.ret), Input(s), |s.threads|, t, th, s.epoch);
      hide PushInv, SwitchInv, Step;
      match th.pc
      case Write => WriteKeeps(g, seed, s, t);
      case Fetch => FetchKeeps(g, seed, s, t);
      case Put => PutKeeps(g, seed, s, t);
      case Inner =>
        if th.e < g.offsets[th.node + 1] && s.ret[g.edges[th.e]].Unset? {
          CasKeeps(g, seed, s, t);
        } else {
          MoveKeeps(g, seed, s, t);
        }
      case _ => MoveKeeps(g, seed, s, t);
    } else {
      SwitchKeeps(g, seed, s, t);
    }
  }

  lemma NextKeeps(g: Graph, seed: nat, s: State, s': State)
    requires Inv(g, seed, s) && Next(g, s, s')
    ensures Inv(g, seed, s')
  {
    if t: nat :| ThreadStep(g, s, s', t) {
      StepKeeps(g, seed, s, t);
    } else if AllAt(s, Barrier1) && s' == Release1(s) {
      assert PushInv(g, seed, s);
      Release1Keeps(g, seed, s);
    } else {
      OnlySwitching(g, seed, s);
      Release2Keeps(g, seed, s);
    }
  }

  lemma OnlySwitching(g: Graph, seed: nat, s: State)
    requires Inv(g, seed, s) && AllAt(s, Barrier2)
    ensures SwitchInv(g, seed, s)
  {
    if PushInv(g, seed, s) {
      PushThread(g, seed, s, 0);
    }
  }

  lemma PushThread(g: Graph, seed: nat, s: State, t: nat)
    requires PushInv(g, seed, s) && t < |s.threads|
    ensures s.threads[t].pc != Barrier2
  {
    assert ThreadOk(g, Labels(s.ret), Input(s), |s.threads|, t, s.threads[t], s.epoch);
  }

  lemma InitialInv(g: Graph, seed: nat, s: State)
    requires GraphOk(g) && Initial(g, seed, s)
    ensures PushInv(g, seed, s)
  {
    InitialLabels(g, seed, Labels(s.ret));
    NobodyPending(g, s.threads);
    assert Input(s) == [seed];
  }

  ghost predicate IsRun(g: Graph, seed: nat, run: seq<State>) {
    |run| > 0 && Initial(g, seed, run[0]) && forall i :: 0 < i < |run| ==> Next(g, run[i - 1], run[i])
  }

  lemma {:induction false} RunKeepsInv(g: Graph, seed: nat, run: seq<State>)
    requires GraphOk(g) && IsRun(g, seed, run)
    ensures Inv(g, seed, run[|run| - 1])
    decreases |run|
  {
    if |run| == 1 {
      InitialInv(g, seed, run[0]);
    } else {
      var before := run[..|run| - 1];
      RunKeepsInv(g, seed, before);
      assert before[|before| - 1] == run[|run| - 2];
      NextKeeps(g, seed, run[|run| - 2], run[|run| - 1]);
    }
  }

  /** As long as some thread has not finished, some thread can go on or a barrier opens. */
  lemma NoDeadlock(g: Graph, seed: nat, run: seq<State>)
    requires GraphOk(g) && IsRun(g, seed, run)
    ensures var s := run[|run| - 1];
            AllAt(s, Done) || exists s' :: Next(g, s, s')
  {
    var s := run[|run| - 1];
    RunKeepsInv(g, seed, run);
    if t: nat :| t < |s.threads| && !Waiting(s.threads[t].pc) {
      AccessesInBounds(g, seed, s, t);
      assert ThreadStep(g, s, Step(g, s, t), t);
      assert Next(g, s, Step(g, s, t));
    } else if PushInv(g, seed, s) {
      forall t: nat | t < |s.threads|
        ensures s.threads[t].pc == if Input(s) == [] then Done else Barrier1
      {
        assert ThreadOk(g, Labels(s.ret), Input(s), |s.threads|, t, s.threads[t], s.epoch);
      }
      assert AllAt(s, Barrier1) ==> Next(g, s, Release1(s));
    } else {
      assert AllAt(s, Barrier2);
      assert Next(g, s, Release2(s));
    }
  }

  /** For every number of threads and every interleaving: when all threads have returned, every entry is complete
      and is the hop distance from the seed, or -1 where there is none, and the worklist slots taken in the whole
      run belong to the reached vertices other than the seed, one to each. */
  lemma EveryRunIsCorrect(g: Graph, seed: nat, run: seq<State>)
    requires GraphOk(g) && IsRun(g, seed, run) && AllAt(run[|run| - 1], Done)
    ensures var s := run[|run| - 1];
            && Final(g, seed, Labels(s.ret))
            && (forall v :: 0 <= v < |s.ret| ==> !s.ret[v].Half?)
            && NoDup(s.past + s.claims)
            && forall v: nat :: v in s.past + s.claims <==> v < g.nodes && v != seed && s.ret[v].Full?
  {
    var s := run[|run| - 1];
    RunKeepsInv(g, seed, run);
    DoneIsFinal(g, seed, s);
  }

  lemma DoneIsFinal(g: Graph, seed: nat, s: State)
    requires Inv(g, seed, s) && AllAt(s, Done)
    ensures Final(g, seed, Labels(s.ret))
    ensures forall v :: 0 <= v < |s.ret| ==> !s.ret[v].Half?
    ensures NoDup(s.past + s.claims)
    ensures forall v: nat :: v in s.past + s.claims <==> v < g.nodes && v != seed && s.ret[v].Full?
  {
    assert s.threads[0].pc == Done;
    assert PushInv(g, seed, s);
    assert ThreadOk(g, Labels(s.ret), Input(s), |s.threads|, 0, s.threads[0], s.epoch);
    NobodyPending(g, s.threads);
    SearchDone(g, seed, Labels(s.ret), s.epoch);
    PastAndClaims(Labels(s.ret), s.past, s.claims, s.epoch);
    forall v: nat
      ensures v in s.past + s.claims <==> v < g.nodes && v != seed && s.ret[v].Full?
    {
      if v < g.nodes {
        assert Labels(s.ret)[v] == Label(s.ret[v]);
        SeedIsZero(g, seed, Labels(s.ret), v);
      }
      AtMost(g, seed, Labels(s.ret), s.epoch);
    }
  }

  lemma SeedIsZero(g: Graph, s: nat, ret: seq<int>, v: nat)
    requires GraphOk(g) && s < g.nodes && Final(g, s, ret) && v < g.nodes
    ensures ret[v] == 0 <==> v == s
  {
    assert Walk(g, s, s, 0);
  }

  /** The multi-threaded search computes what the sequential one does. */
  lemma SameAsSequential(g: Graph, seed: nat, run: seq<State>, sequential: seq<int>)
    requires GraphOk(g) && IsRun(g, seed, run) && AllAt(run[|run| - 1], Done)
    requires Final(g, seed, sequential)
    ensures Labels(run[|run| - 1].ret) == sequential
  {
    EveryRunIsCorrect(g, seed, run);
    FinalUnique(g, seed, Labels(run[|run| - 1].ret), sequential);
  }
}
