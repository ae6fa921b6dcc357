/** Every run of the multi-threaded search ends: a measure falls with every step, whatever the interleaving. */
module ParallelBfsTermination {
  import opened Common
  import opened Graphs
  import opened Bfs
  import opened ParallelBfs
  import opened ParallelBfsProof

  // ---------------------------------------------------------------- the work left to one thread

  /** More than the steps it takes to push k entries of the frontier. */
  function Entries(g: Graph, k: nat): nat {
    Times(k, 4 * |g.edges| + 3)
  }

  lemma EntriesLess(g: Graph, j: nat, k: nat)
    requires j < k
    ensures Entries(g, j) + 4 * |g.edges| + 3 <= Entries(g, k)
  {
    TimesLess(j, k, 4 * |g.edges| + 3);
  }

  lemma EntriesAtMost(g: Graph, j: nat, k: nat)
    requires j <= k
    ensures Entries(g, j) <= Entries(g, k)
  {
    if j < k {
      EntriesLess(g, j, k);
    }
  }

  /** The work of a whole epoch. */
  function Fresh(g: Graph): nat {
    Entries(g, 2 * g.nodes) + 6
  }

  function EdgesLeft(g: Graph, th: Thread): nat {
    if th.node + 1 < |g.offsets| then 4 * Minus(g.offsets[th.node + 1], th.e) else 0
  }

  /** What a thread has left to do before the second barrier of its epoch opens. */
  function Left(g: Graph, size: nat, th: Thread): nat {
    match th.pc
    case Test => Fresh(g)
    case Outer => Entries(g, Minus(size, th.i)) + 5
    case Inner => Entries(g, Minus(size, th.i + 1)) + 6 + EdgesLeft(g, th)
    case Write => Entries(g, Minus(size, th.i + 1)) + 5 + EdgesLeft(g, th)
    case Fetch => Entries(g, Minus(size, th.i + 1)) + 4 + EdgesLeft(g, th)
    case Put => Entries(g, Minus(size, th.i + 1)) + 3 + EdgesLeft(g, th)
    case Barrier1 => 4
    case CopyIndex => 3
    case ClearIndex => 2
    case Barrier2 => 1
    case Done => 0
  }

  function AllLeft(g: Graph, size: nat, threads: seq<Thread>): nat {
    if threads == [] then 0 else AllLeft(g, size, threads[..|threads| - 1]) + Left(g, size, threads[|threads| - 1])
  }

  lemma {:induction false} LeftUpdate(g: Graph, size: nat, threads: seq<Thread>, t: nat, th: Thread)
    requires t < |threads|
    ensures AllLeft(g, size, threads[t := th]) + Left(g, size, threads[t]) == AllLeft(g, size, threads) + Left(g, size, th)
    decreases |threads|
  {
    hide Left;
    var n := |threads| - 1;
    if t == n {
      assert threads[t := th][..n] == threads[..n];
    } else {
      LeftUpdate(g, size, threads[..n], t, th);
      assert threads[t := th][..n] == threads[..n][t := th];
    }
  }

  /** Different threads, each with at most `most` left. */
  lemma {:induction false} LeftBound(g: Graph, size: nat, threads: seq<Thread>, most: nat)
    requires forall t :: 0 <= t < |threads| ==> Left(g, size, threads[t]) <= most
    ensures AllLeft(g, size, threads) <= Times(|threads|, most)
  {
    hide Left;
    if threads != [] {
      LeftBound(g, size, threads[..|threads| - 1], most);
    }
  }

  lemma {:induction false} LeftFalls(g: Graph, size: nat, size': nat, threads: seq<Thread>, threads': seq<Thread>)
    requires |threads'| == |threads| > 0
    requires forall t :: 0 <= t < |threads| ==> Left(g, size', threads'[t]) < Left(g, size, threads[t])
    ensures AllLeft(g, size', threads') < AllLeft(g, size, threads)
    decreases |threads|
  {
    hide Left;
    if |threads| > 1 {
      LeftFalls(g, size, size', threads[..|threads| - 1], threads'[..|threads| - 1]);
    }
  }

  // ---------------------------------------------------------------- the measure

  predicate Switching(pc: Pc) {
    pc == CopyIndex || pc == ClearIndex || pc == Barrier2
  }

  /** Twice the vertices that have no slot yet, and one more while the frontier is not empty. */
  function EpochsLeft(g: Graph, s: State): nat {
    2 * Minus(g.nodes, |s.past|) + if |s.threads| > 0 && (Switching(s.threads[0].pc) || s.inIndex > 0) then 1 else 0
  }

  function PerEpoch(g: Graph, threads: nat): nat {
    Times(threads, Fresh(g)) + 1
  }

  function Measure(g: Graph, s: State): nat {
    Times(EpochsLeft(g, s), PerEpoch(g, |s.threads|)) + AllLeft(g, s.inIndex, s.threads)
  }

  // ---------------------------------------------------------------- it falls

  /** One step of one thread, as long as the worklist it reads stays the same. */
  lemma ThreadFalls(g: Graph, seed: nat, s: State, t: nat)
    requires PushInv(g, seed, s) && t < |s.threads| && InBounds(g, s, t) && !Waiting(s.threads[t].pc)
    ensures var s' := Step(g, s, t);
            && s'.inIndex == s.inIndex && s'.past == s.past && s'.threads == s.threads[t := s'.threads[t]]
            && Left(g, s.inIndex, s'.threads[t]) < Left(g, s.inIndex, s.threads[t])
            && !Switching(s.threads[t].pc) && !Switching(s'.threads[t].pc)
  {
    hide Labelled, Frontier, PastOk, ClaimsOk, HalvesOk, SlotsOk, Pushed, ShareDone, Owner, Left;
    assert ThreadOk(g, Labels(s.ret), Input(s), |s.threads|, t, s.threads[t], s.epoch);
    LeftFallsAt(g, s, t);
  }

  lemma LeftFallsAt(g: Graph, s: State, t: nat)
    requires t < |s.threads| && InBounds(g, s, t) && !Waiting(s.threads[t].pc) && s.inIndex <= 2 * g.nodes
    requires !Switching(s.threads[t].pc) && |g.offsets| == g.nodes + 1
    requires var th := s.threads[t];
             th.pc == Write || th.pc == Fetch || th.pc == Put || th.pc == Inner ==>
               th.i < s.inIndex && th.node + 1 < |g.offsets| && g.offsets[th.node + 1] <= |g.edges|
    requires var th := s.threads[t];
             th.pc == Write || th.pc == Fetch || th.pc == Put ==> th.e < g.offsets[th.node + 1]
    requires forall v :: 0 <= v < |g.offsets| ==> g.offsets[v] <= |g.edges|
    ensures Left(g, s.inIndex, Step(g, s, t).threads[t]) < Left(g, s.inIndex, s.threads[t])
  {
    hide Left, Step;
    match s.threads[t].pc
    case Test => TestFalls(g, s, t);
    case Outer => OuterFalls(g, s, t);
    case Inner => InnerFalls(g, s, t);
    case _ => EdgeFalls(g, s, t);
  }

  lemma TestFalls(g: Graph, s: State, t: nat)
    requires t < |s.threads| && InBounds(g, s, t) && s.threads[t].pc == Test && s.inIndex <= 2 * g.nodes
    ensures Left(g, s.inIndex, Step(g, s, t).threads[t]) < Left(g, s.inIndex, s.threads[t])
  {
    hide Entries;
    EntriesAtMost(g, Minus(s.inIndex, t), 2 * g.nodes);
  }

  lemma OuterFalls(g: Graph, s: State, t: nat)
    requires t < |s.threads| && InBounds(g, s, t) && s.threads[t].pc == Outer
    requires forall v :: 0 <= v < |g.offsets| ==> g.offsets[v] <= |g.edges|
    ensures Left(g, s.inIndex, Step(g, s, t).threads[t]) < Left(g, s.inIndex, s.threads[t])
  {
    hide Entries;
    var th := s.threads[t];
    if th.i < s.inIndex {
      EntriesLess(g, Minus(s.inIndex, th.i + 1), Minus(s.inIndex, th.i));
    }
  }

  lemma InnerFalls(g: Graph, s: State, t: nat)
    requires t < |s.threads| && InBounds(g, s, t) && s.threads[t].pc == Inner
    ensures Left(g, s.inIndex, Step(g, s, t).threads[t]) < Left(g, s.inIndex, s.threads[t])
  {
    hide Entries;
    var th := s.threads[t];
    EntriesAtMost(g, Minus(s.inIndex, th.i + |s.threads|), Minus(s.inIndex, th.i + 1));
  }

  lemma EdgeFalls(g: Graph, s: State, t: nat)
    requires t < |s.threads| && InBounds(g, s, t)
    requires s.threads[t].pc == Write || s.threads[t].pc == Fetch || s.threads[t].pc == Put
    requires var th := s.threads[t]; th.node + 1 < |g.offsets| && th.e < g.offsets[th.node + 1]
    ensures Left(g, s.inIndex, Step(g, s, t).threads[t]) < Left(g, s.inIndex, s.threads[t])
  {
    hide Entries;
  }

  lemma PushFalls(g: Graph, seed: nat, s: State, t: nat)
    requires PushInv(g, seed, s) && t < |s.threads| && InBounds(g, s, t) && !Waiting(s.threads[t].pc)
    ensures Measure(g, Step(g, s, t)) < Measure(g, s)
  {
    hide PushInv, Step, Left, InBounds;
    ThreadFalls(g, seed, s, t);
    LeftUpdate(g, s.inIndex, s.threads, t, Step(g, s, t).threads[t]);
  }

  /** While thread 0 sets the counters. */
  lemma SwitchStep(g: Graph, seed: nat, s: State, t: nat)
    requires SwitchInv(g, seed, s) && t < |s.threads| && InBounds(g, s, t) && !Waiting(s.threads[t].pc)
    ensures var s', th := Step(g, s, t), s.threads[0];
            && t == 0 && s'.past == s.past && (th.pc == CopyIndex || th.pc == ClearIndex)
            && s'.threads == s.threads[0 := th.(pc := if th.pc == CopyIndex then ClearIndex else Barrier2)]
            && forall u :: 0 <= u < |s.threads| ==> Switching(s.threads[u].pc)
  {
    hide Labelled, Frontier, PastOk;
  }

  lemma SwitchFalls(g: Graph, seed: nat, s: State, t: nat)
    requires SwitchInv(g, seed, s) && t < |s.threads| && InBounds(g, s, t) && !Waiting(s.threads[t].pc)
    ensures Measure(g, Step(g, s, t)) < Measure(g, s)
  {
    hide SwitchInv, InBounds, Step, Times, Entries;
    var s' := Step(g, s, t);
    SwitchStep(g, seed, s, t);
    LeftUpdate(g, s.inIndex, s.threads, 0, s'.threads[0]);
    SameLeft(g, s.inIndex, s'.inIndex, s'.threads);
  }

  /** The size of the worklist does not matter to threads at the barriers. */
  lemma {:induction false} SameLeft(g: Graph, size: nat, size': nat, threads: seq<Thread>)
    requires forall t :: 0 <= t < |threads| ==> Switching(threads[t].pc)
    ensures AllLeft(g, size', threads) == AllLeft(g, size, threads)
    decreases |threads|
  {
    hide Entries;
    if threads != [] {
      SameLeft(g, size, size', threads[..|threads| - 1]);
    }
  }

  lemma Release1Falls(g: Graph, seed: nat, s: State)
    requires PushInv(g, seed, s) && AllAt(s, Barrier1)
    ensures Measure(g, Release1(s)) < Measure(g, s)
  {
    hide PushInv, Left, Times;
    var s' := Release1(s);
    FrontierBusy(g, seed, s);
    forall t | 0 <= t < |s.threads|
      ensures Left(g, s.inIndex, s'.threads[t]) < Left(g, s.inIndex, s.threads[t])
    {
      BarrierFalls(g, s.inIndex, s.threads[t], s'.threads[t]);
    }
    LeftFalls(g, s.inIndex, s.inIndex, s.threads, s'.threads);
  }

  lemma BarrierFalls(g: Graph, size: nat, th: Thread, th': Thread)
    requires th.pc == Barrier1 && (th'.pc == CopyIndex || th'.pc == Barrier2)
    ensures Left(g, size, th') < Left(g, size, th)
  {
  }

  lemma FrontierBusy(g: Graph, seed: nat, s: State)
    requires PushInv(g, seed, s) && AllAt(s, Barrier1)
    ensures |s.threads| > 0 && s.inIndex > 0
  {
    hide Labelled, Frontier, PastOk, ClaimsOk, HalvesOk, SlotsOk, ShareDone;
    assert ThreadOk(g, Labels(s.ret), Input(s), |s.threads|, 0, s.threads[0], s.epoch);
  }

  lemma Release2Falls(g: Graph, seed: nat, s: State)
    requires SwitchInv(g, seed, s) && AllAt(s, Barrier2)
    ensures Measure(g, Release2(s)) < Measure(g, s)
  {
    hide Labelled, Frontier, Times, Entries, Left;
    var s' := Release2(s);
    PastFits(Labels(s.ret), s.past + s.claims, s.epoch + 1);
    TimesLess(EpochsLeft(g, s'), EpochsLeft(g, s), PerEpoch(g, |s.threads|));
    TestLeft(g, s'.inIndex, s'.threads);
    LeftBound(g, s'.inIndex, s'.threads, Fresh(g));
  }

  lemma TestLeft(g: Graph, size: nat, threads: seq<Thread>)
    requires forall t :: 0 <= t < |threads| ==> threads[t].pc == Test
    ensures forall t :: 0 <= t < |threads| ==> Left(g, size, threads[t]) == Fresh(g)
  {
  }

  lemma PastFits(labels: seq<int>, past: seq<nat>, epoch: nat)
    requires PastOk(labels, past, epoch)
    ensures |past| <= |labels|
  {
    NoDupBound(past, |labels|);
  }

  /** Every step of every run lowers the measure. */
  lemma MeasureFalls(g: Graph, seed: nat, s: State, s': State)
    requires Inv(g, seed, s) && Next(g, s, s')
    ensures Measure(g, s') < Measure(g, s)
  {
    hide Measure, Step, InBounds, PushInv, SwitchInv;
    if t: nat :| ThreadStep(g, s, s', t) {
      if PushInv(g, seed, s) {
        PushFalls(g, seed, s, t);
      } else {
        SwitchFalls(g, seed, s, t);
      }
    } else if AllAt(s, Barrier1) && s' == Release1(s) {
      OnlyPushing(g, seed, s);
      Release1Falls(g, seed, s);
    } else {
      OnlySwitching(g, seed, s);
      Release2Falls(g, seed, s);
    }
  }

  lemma OnlyPushing(g: Graph, seed: nat, s: State)
    requires Inv(g, seed, s) && AllAt(s, Barrier1)
    ensures PushInv(g, seed, s)
  {
  }

  // ---------------------------------------------------------------- every run ends

  /** The longest a run can be. */
  function MostSteps(g: Graph, threads: nat): nat {
    Times(2 * g.nodes + 1, PerEpoch(g, threads)) + Times(threads, Fresh(g))
  }

  lemma {:induction false} StepsAndMeasure(g: Graph, seed: nat, run: seq<State>)
    requires GraphOk(g) && IsRun(g, seed, run)
    ensures |run| - 1 + Measure(g, run[|run| - 1]) <= Measure(g, run[0])
    decreases |run|
  {
    hide Measure, Next, Initial;
    if |run| > 1 {
      var before := run[..|run| - 1];
      StepsAndMeasure(g, seed, before);
      RunKeepsInv(g, seed, before);
      assert before[|before| - 1] == run[|run| - 2];
      MeasureFalls(g, seed, run[|run| - 2], run[|run| - 1]);
    }
  }

  /** No run has more steps than a number that depends only on the sizes of the graph and the number of threads. */
  lemma EveryRunEnds(g: Graph, seed: nat, run: seq<State>)
    requires GraphOk(g) && IsRun(g, seed, run)
    ensures |run| - 1 <= MostSteps(g, |run[0].threads|)
  {
    hide Left, Entries;
    StepsAndMeasure(g, seed, run);
    var s := run[0];
    TestLeft(g, s.inIndex, s.threads);
    LeftBound(g, s.inIndex, s.threads, Fresh(g));
  }

  /** Every run can be continued until all threads have returned. */
  lemma {:induction false} EveryRunCompletes(g: Graph, seed: nat, run: seq<State>) returns (whole: seq<State>)
    requires GraphOk(g) && IsRun(g, seed, run)
    ensures IsRun(g, seed, whole) && whole != [] && run <= whole && AllAt(whole[|whole| - 1], Done)
    decreases if run == [] then 0 else Measure(g, run[|run| - 1])
  {
    hide Measure, Next, IsRun, Inv;
    RunNotEmpty(g, seed, run);
    var s := run[|run| - 1];
    whole := run;
    if !AllAt(s, Done) {
      NoDeadlock(g, seed, run);
      var s' :| Next(g, s, s');
      RunKeepsInv(g, seed, run);
      MeasureFalls(g, seed, s, s');
      RunGoesOn(g, seed, run, s');
      whole := EveryRunCompletes(g, seed, run + [s']);
    }
  }

  lemma RunNotEmpty(g: Graph, seed: nat, run: seq<State>)
    requires IsRun(g, seed, run)
    ensures run != []
  {
  }

  lemma RunGoesOn(g: Graph, seed: nat, run: seq<State>, s': State)
    requires IsRun(g, seed, run) && Next(g, run[|run| - 1], s')
    ensures IsRun(g, seed, run + [s'])
  {
    hide Next, Initial;
  }
}
