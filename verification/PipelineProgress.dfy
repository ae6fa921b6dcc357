/** Progress of the parallel pipeline. When no queue can fill up and the array of counts is long enough, no reachable
    state is a deadlock. */
module PipelineProgress {
  import opened Common
  import opened Ordering
  import opened Places
  import opened Pipeline
  import opened PipelineChunks
  import opened PipelineShutdown
  import opened PipelineTheorem

  /** An input with no more chunks than a queue holds, and few enough coarse chunks for the array of counts. */
  ghost predicate Small(c: Config) {
    |Flatten(c.plan)| <= 1_048_576 && |c.coarse| <= 2048
  }

  ghost predicate CanStep(c: Config, s: State) {
    exists e :: Enabled(c, s, e)
  }

  // ---------------------------------------------------------------- queues never fill up

  lemma {:induction false} OneRowSize(l1: nat, n: nat)
    ensures |OneRow(l1, n)| == n
  {
    if n > 0 {
      OneRowSize(l1, n - 1);
    }
  }

  lemma {:induction false} RowsSize(plan: seq<seq<Bytes>>, sizes: seq<nat>, n: nat)
    requires |sizes| == |plan| && (forall a :: 0 <= a < |plan| ==> sizes[a] == |plan[a]|) && n <= |plan|
    ensures |FirstRows(sizes, n)| == |Flatten(plan[..n])|
  {
    hide Flatten, FirstRows;
    if n > 0 {
      RowsSize(plan, sizes, n - 1);
      FlattenSnoc(plan[..n - 1], plan[n - 1]);
      assert plan[..n] == plan[..n - 1] + [plan[n - 1]];
      RowAdded(sizes, n);
    } else {
      NoRows(plan, sizes);
    }
  }

  lemma RowAdded(sizes: seq<nat>, n: nat)
    requires 0 < n <= |sizes|
    ensures |FirstRows(sizes, n)| == |FirstRows(sizes, n - 1)| + sizes[n - 1]
  {
    hide OneRow, Exists;
    var before, row := FirstRows(sizes, n - 1), OneRow(n - 1, sizes[n - 1]);
    OneRowSize(n - 1, sizes[n - 1]);
    UnionSize(before, row, n - 1);
  }

  lemma NoRows(plan: seq<seq<Bytes>>, sizes: seq<nat>)
    ensures |FirstRows(sizes, 0)| == |Flatten(plan[..0])|
  {
  }

  lemma UnionSize(a: set<Id>, b: set<Id>, n: nat)
    requires (forall x :: x in a ==> x.l1 < n) && (forall x :: x in b ==> x.l1 == n)
    ensures |a + b| == |a| + |b|
  {
    assert a !! b;
  }

  lemma {:induction false} DistinctSize(ids: seq<Id>, all: set<Id>)
    requires forall i, j :: 0 <= i < j < |ids| ==> ids[i] != ids[j]
    requires forall i :: 0 <= i < |ids| ==> ids[i] in all
    ensures |ids| <= |all|
    decreases |ids|
  {
    if ids != [] {
      DistinctSize(ids[1..], all - {ids[0]});
    }
  }

  /** A place that does not hold every existing chunk holds fewer than QUEUE_SIZE. */
  lemma NotFull(c: Config, s: State, p: Place, x: Id)
    requires ConfigOk(c) && ChunkInv(c, s) && Small(c)
    requires Exists(Sizes(c), x) && x !in Get(s.at, p)
    ensures |Get(s.at, p)| < QUEUE_SIZE
  {
    hide ChunkInv, ConfigOk, FirstRows, Flatten, Get;
    var all := FirstRows(Sizes(c), |c.plan|);
    assert c.plan[..|c.plan|] == c.plan;
    RowsSize(c.plan, Sizes(c), |c.plan|);
    HeldExist(c, s, p);
    DistinctSize(Get(s.at, p), all - {x});
  }

  lemma HeldExist(c: Config, s: State, p: Place)
    requires ConfigOk(c) && ChunkInv(c, s)
    ensures forall i :: 0 <= i < |Get(s.at, p)| ==> Exists(Sizes(c), Get(s.at, p)[i])
    ensures forall i, j :: 0 <= i < j < |Get(s.at, p)| ==> Get(s.at, p)[i] != Get(s.at, p)[j]
  {
    hide DigestOk, OutInv, ArrivedOk, Located, CuttingOk;
    forall i | 0 <= i < |Get(s.at, p)|
      ensures Exists(Sizes(c), Get(s.at, p)[i])
    {
      assert Has(s.at, p, Get(s.at, p)[i]);
    }
  }

  /** A send buffer with something in it can be emptied into its queue. */
  lemma QueueHasRoom(c: Config, s: State, p: Place)
    requires ConfigOk(c) && ChunkInv(c, s) && Small(c) && (p.Send? || p.SendDup?) && Get(s.at, p) != []
    ensures |Get(s.at, Target(p))| < QUEUE_SIZE
  {
    var x := Get(s.at, p)[0];
    assert Has(s.at, p, x);
    NotFull(c, s, Target(p), x);
  }

  // ---------------------------------------------------------------- each stage

  lemma EmitGoes(c: Config, s: State)
    requires ConfigOk(c) && Inv(c, s) && Small(c) && s.sent < |c.coarse|
    ensures CanStep(c, s)
  {
    var x := Id(s.sent, 0);
    SizesPositive(c);
    assert Exists(Sizes(c), x) && x !in s.mem;
    assert x !in Get(s.at, Queue(Refine, s.sendTo)) by {
      if Has(s.at, Queue(Refine, s.sendTo), x) {
      }
    }
    NotFull(c, s, Queue(Refine, s.sendTo), x);
    assert Enabled(c, s, Emit);
  }

  lemma FlushGoes(c: Config, s: State, p: Place)
    requires ConfigOk(c) && ChunkInv(c, s) && Small(c)
    requires (p.Send? || p.SendDup?) && IsWorker(c, Owner(p), p.t)
    requires Get(s.at, p) != [] && (PhaseOf(s, Owner(p), p.t) == Draining || !HasRoom(s, p))
    ensures CanStep(c, s)
  {
    hide ChunkInv, ConfigOk, Small;
    QueueHasRoom(c, s, p);
    assert Enabled(c, s, Flush(p));
  }

  lemma DrainingGoes(c: Config, s: State, stage: Stage, t: nat)
    requires ConfigOk(c) && Inv(c, s) && Small(c) && IsWorker(c, stage, t) && PhaseOf(s, stage, t) == Draining
    ensures CanStep(c, s)
  {
    hide ChunkInv, ShutdownInv, ConfigOk, Small;
    if Get(s.at, Send(stage, t)) != [] {
      FlushGoes(c, s, Send(stage, t));
    } else if stage.Dedup? && Get(s.at, SendDup(t)) != [] {
      FlushGoes(c, s, SendDup(t));
    } else {
      assert Enabled(c, s, Close(stage, t));
    }
  }

  /** A thread with a chunk at hand works on it, or empties a full buffer first. */
  lemma WorkGoes(c: Config, s: State, stage: Stage, t: nat)
    requires ConfigOk(c) && Inv(c, s) && Small(c) && IsWorker(c, stage, t) && PhaseOf(s, stage, t) == Running
    requires Get(s.at, Recv(stage, t)) != [] || (stage.Refine? && t in s.cutting)
    ensures CanStep(c, s)
  {
    hide ChunkInv, ShutdownInv, ConfigOk, Small;
    GuardsAreWaiting(c, s, t);
    if !HasRoom(s, Send(stage, t)) {
      FlushGoes(c, s, Send(stage, t));
    } else if stage.Dedup? && !HasRoom(s, SendDup(t)) {
      FlushGoes(c, s, SendDup(t));
    } else {
      match stage
      case Refine => assert if t in s.cutting then Enabled(c, s, CutPiece(t)) else Enabled(c, s, StartCut(t));
      case Dedup => assert Enabled(c, s, Event.Deduplicate(t));
      case Compress => assert Enabled(c, s, CompressChunk(t));
    }
  }

  /** A thread that is not done can go on once the producers of its queue are done. */
  lemma WorkerGoes(c: Config, s: State, stage: Stage, t: nat)
    requires ConfigOk(c) && Inv(c, s) && Small(c) && IsWorker(c, stage, t) && PhaseOf(s, stage, t) != Done
    requires Terminated(c, s, stage, QueueOf(t))
    ensures CanStep(c, s)
  {
    hide ChunkInv, ShutdownInv, ConfigOk, Small;
    if PhaseOf(s, stage, t) == Draining {
      DrainingGoes(c, s, stage, t);
    } else if Get(s.at, Recv(stage, t)) != [] || (stage.Refine? && t in s.cutting) {
      WorkGoes(c, s, stage, t);
    } else if Get(s.at, Queue(stage, QueueOf(t))) != [] {
      assert Enabled(c, s, Fetch(stage, t));
    } else {
      assert Enabled(c, s, EndOfInput(stage, t));
    }
  }

  ghost predicate StageDone(c: Config, s: State, stage: Stage) {
    forall t: nat :: t < c.nthreads ==> PhaseOf(s, stage, t) == Done
  }

  ghost predicate AllTerminated(c: Config, s: State, stage: Stage) {
    forall q: nat :: q < NumQueues(c.nthreads) ==> Terminated(c, s, stage, q)
  }

  /** A stage whose queues are terminated goes on, or is done and has terminated the queues of the next stage. */
  lemma StageGoes(c: Config, s: State, stage: Stage)
    requires ConfigOk(c) && Inv(c, s) && Small(c) && !stage.Reorder? && AllTerminated(c, s, stage)
    ensures CanStep(c, s) || (StageDone(c, s, stage) && AllTerminated(c, s, NextStage(stage)))
  {
    hide ChunkInv, ShutdownInv, ConfigOk, Small, Enabled, CanStep;
    if t: nat :| t < c.nthreads && PhaseOf(s, stage, t) != Done {
      QueueOfThread(c.nthreads, t);
      WorkerGoes(c, s, stage, t);
    } else {
      DoneTerminates(c, s, stage);
    }
  }

  lemma DoneTerminates(c: Config, s: State, stage: Stage)
    requires ShutdownInv(c, s) && !stage.Reorder? && StageDone(c, s, stage)
    ensures AllTerminated(c, s, NextStage(stage))
  {
    forall q: nat | q < NumQueues(c.nthreads)
      ensures Terminated(c, s, NextStage(stage), q)
    {
      GroupSize(c.nthreads, q);
      assert DoneSet(c, s, stage, q) == Group(c.nthreads, q);
      assert NumTerminated(s, NextStage(stage), q) == |DoneSet(c, s, stage, q)|;
    }
  }

  lemma RefineTerminated(c: Config, s: State)
    requires ShutdownInv(c, s) && s.closed >= NumQueues(c.nthreads)
    ensures AllTerminated(c, s, Refine)
  {
  }

  // ---------------------------------------------------------------- the last stage

  /** When the stages before it are done, no original is left uncompressed. */
  lemma NothingRaw(c: Config, s: State, id: Id)
    requires ConfigOk(c) && Inv(c, s) && StageDone(c, s, Dedup) && StageDone(c, s, Compress)
    requires id in s.mem && s.mem[id].digest.Some? && s.mem[id].original.None?
    ensures !s.mem[id].payload.Raw?
  {
    hide ShutdownInv, ConfigOk, StageDone;
    if Held(s.at, id) {
      var p :| Has(s.at, p, id);
      DoneIsEmpty(c, s, p);
      NotOriginal(s.at, s.mem, p, id);
    } else {
      NotHeld(c, s, id);
    }
  }

  lemma NotOriginal(at: Contents, mem: Memory, p: Place, id: Id)
    requires AtOk(at, mem) && Has(at, p, id) && KindOf(p) != Original
    ensures id in mem && (mem[id].digest.Some? ==> mem[id].original.Some? || !mem[id].payload.Raw? || KindOf(p) == Whole)
    ensures KindOf(p) == Whole ==> mem[id].isLast.None?
  {
  }

  /** An original that is in no place has arrived at Reorder. */
  lemma NotHeld(c: Config, s: State, id: Id)
    requires ConfigOk(c) && ChunkInv(c, s) && id in s.mem && s.mem[id].digest.Some? && !Held(s.at, id)
    ensures s.mem[id].original.Some? || !s.mem[id].payload.Raw?
  {
    hide AtOk, ShapeOk, OutInv;
    assert ChunkOk(c, s.table, id, s.mem[id]);
  }

  lemma DoneIsEmpty(c: Config, s: State, p: Place)
    requires ShutdownInv(c, s) && StageDone(c, s, Dedup) && StageDone(c, s, Compress)
    ensures KindOf(p) == Original ==> Get(s.at, p) == []
  {
    match p
    case Queue(stage, q) =>
      if q < NumQueues(c.nthreads) {
        ThreadOfQueue(c.nthreads, q);
        assert WorkerOk(c, s, Compress, MAX_THREADS_PER_QUEUE * q);
      }
    case Recv(stage, t) =>
      if t < c.nthreads {
        assert WorkerOk(c, s, Compress, t);
      }
    case Send(stage, t) =>
      if t < c.nthreads {
        assert WorkerOk(c, s, Dedup, t);
      }
    case SendDup(t) =>
  }

  lemma ReorderGoes(c: Config, s: State)
    requires ConfigOk(c) && Inv(c, s) && Small(c) && !s.finished
    requires StageDone(c, s, Dedup) && StageDone(c, s, Compress) && AllTerminated(c, s, Reorder)
    ensures CanStep(c, s)
  {
    hide ChunkInv, ConfigOk, InBounds, StageDone;
    GuardsAreWaiting(c, s, 0);
    if s.writer.current.Some? {
      SourceIsOriginal(c, s);
      NothingRaw(c, s, Source(s, s.writer.current.value));
      assert Enabled(c, s, Write);
    } else if Get(s.at, Recv(Reorder, 0)) != [] {
      assert Enabled(c, s, Take);
    } else if Get(s.at, Queue(Reorder, s.pollNext)) != [] {
      assert Enabled(c, s, PollFetch);
    } else {
      assert Enabled(c, s, PollEmpty);
    }
  }

  lemma SourceIsOriginal(c: Config, s: State)
    requires ConfigOk(c) && ChunkInv(c, s) && s.writer.current.Some?
    ensures var o := Source(s, s.writer.current.value); o in s.mem && s.mem[o].digest.Some? && s.mem[o].original.None?
  {
    hide AtOk, CuttingOk, Located, HandOk, ShapeOk, ConfigOk, Before, Records.RecordsOf, Records.Digests;
    var id := s.writer.current.value;
    assert Arrived(s.writer, id);
    assert ChunkOk(c, s.table, id, s.mem[id]);
  }

  /** No deadlock: whenever Reorder has not finished, some thread can go on. */
  lemma NoDeadlock(c: Config, s: State)
    requires ConfigOk(c) && Inv(c, s) && Small(c)
    ensures s.finished || CanStep(c, s)
  {
    hide ChunkInv, ShutdownInv, ConfigOk, Small, CanStep, StageDone, AllTerminated;
    if s.sent < |c.coarse| {
      EmitGoes(c, s);
    } else if s.closed < NumQueues(c.nthreads) {
      CloseGoes(c, s);
    } else if !s.finished {
      RefineTerminated(c, s);
      StageGoes(c, s, Refine);
      if !CanStep(c, s) {
        StageGoes(c, s, Dedup);
      }
      if !CanStep(c, s) {
        StageGoes(c, s, Compress);
      }
      if !CanStep(c, s) {
        ReorderGoes(c, s);
      }
    }
  }

  lemma CloseGoes(c: Config, s: State)
    requires ShutdownInv(c, s) && s.sent >= |c.coarse| && s.closed < NumQueues(c.nthreads)
    ensures CanStep(c, s)
  {
    assert Enabled(c, s, CloseRefine);
  }

  /** Every run on a small input that cannot go on is complete. */
  lemma EveryStuckRunIsComplete(c: Config, run: seq<State>)
    requires ConfigOk(c) && Small(c) && Records.CollisionFree(c.codec, Flatten(c.plan)) && IsRun(c, run)
    requires !CanStep(c, run[|run| - 1])
    ensures run[|run| - 1].finished
  {
    RunKeepsInv(c, run, |run| - 1);
    hide Inv, CanStep, ConfigOk, Small;
    NoDeadlock(c, run[|run| - 1]);
  }
}
