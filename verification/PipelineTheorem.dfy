/** The main results about the parallel pipeline, for every interleaving. */
module PipelineTheorem {
  import opened Common
  import opened Records
  import opened Chunking
  import opened Ordering
  import opened Places
  import opened Pipeline
  import opened PipelineChunks
  import opened PipelineSteps
  import opened PipelineShutdown

  ghost predicate Inv(c: Config, s: State)
    requires ConfigOk(c)
  {
    ChunkInv(c, s) && ShutdownInv(c, s)
  }

  /** Every state of every run satisfies the invariant. */
  lemma {:induction false} RunKeepsInv(c: Config, run: seq<State>, i: nat)
    requires ConfigOk(c) && CollisionFree(c.codec, Flatten(c.plan)) && IsRun(c, run) && i < |run|
    ensures Inv(c, run[i])
  {
    hide ChunkInv, ShutdownInv, ConfigOk, CollisionFree, Enabled, Apply;
    if i == 0 {
      InitialChunkInv(c);
      InitialShutdown(c);
    } else {
      RunKeepsInv(c, run, i - 1);
      var s := run[i - 1];
      assert Step(c, s, run[i - 1 + 1]);
      var e :| Enabled(c, s, e) && run[i] == Apply(c, s, e);
      ChunkStep(c, s, e);
      ShutdownStep(c, s, e);
    }
  }

  lemma Larger(p: int, q: int, n: nat)
    requires p < q
    ensures q * n >= p * n + n
  {
    assert (q - p - 1) * n >= 0;
  }

  lemma RemainderIs(a: nat, q: int, r: int, n: nat)
    requires n > 0 && a == q * n + r && 0 <= r < n
    ensures a % n == r
  {
    var p := a / n;
    assert a == p * n + a % n;
    if p < q {
      Larger(p, q, n);
    } else if q < p {
      Larger(q, p, n);
    }
  }

  lemma NextModulo(k: nat, n: nat)
    requires n > 0
    ensures (k % n + 1) % n == (k + 1) % n
  {
    var q, r := k / n, k % n;
    assert k == q * n + r;
    if r + 1 < n {
      RemainderIs(k + 1, q, r + 1, n);
      RemainderIs(r + 1, 0, r + 1, n);
    } else {
      assert (q + 1) * n == q * n + n;
      RemainderIs(k + 1, q + 1, 0, n);
      RemainderIs(r + 1, 1, 0, n);
    }
  }

  lemma SentFields(c: Config, s: State, e: Event)
    requires ConfigOk(c) && Enabled(c, s, e)
    ensures var s' := Apply(c, s, e);
            if e.Emit? then s'.sent == s.sent + 1 && s'.sendTo == (s.sendTo + 1) % NumQueues(c.nthreads)
                            && Get(s'.at, Queue(Refine, s.sendTo)) == Get(s.at, Queue(Refine, s.sendTo)) + [Id(s.sent, 0)]
            else s'.sent == s.sent && s'.sendTo == s.sendTo
  {
    hide ConfigOk, NumQueues, Transfer, Receive, Advance, Pop, Source, HasRoom, HasWork, Hungry;
  }

  /** Fragment distributes the coarse chunks over the queues in turn: number k goes to queue k modulo their number. */
  lemma {:induction false} RoundRobin(c: Config, run: seq<State>, i: nat)
    requires ConfigOk(c) && IsRun(c, run) && i < |run|
    ensures run[i].sendTo == run[i].sent % NumQueues(c.nthreads)
  {
    hide ConfigOk, Enabled, Apply, NumQueues;
    SomeQueue(c);
    if i > 0 {
      RoundRobin(c, run, i - 1);
      assert Step(c, run[i - 1], run[i - 1 + 1]);
      var e :| Enabled(c, run[i - 1], e) && run[i] == Apply(c, run[i - 1], e);
      SentFields(c, run[i - 1], e);
      NextModulo(run[i - 1].sent, NumQueues(c.nthreads));
    } else {
      RemainderIs(0, 0, 0, NumQueues(c.nthreads));
    }
  }

  lemma SomeQueue(c: Config)
    requires ConfigOk(c)
    ensures NumQueues(c.nthreads) > 0
  {
  }

  // ---------------------------------------------------------------- the source's own assertions

  /** What the source asserts or takes for granted at each step. */
  ghost predicate Asserted(c: Config, s: State, e: Event)
  {
    match e
    case Emit => !Terminated(c, s, Refine, s.sendTo)
    case Flush(p) =>
      // queue_enqueue: the queue is not terminated, and at least one item moves
      && (p.Send? || p.SendDup?)
      && !Terminated(c, s, Target(p).stage, QueueOf(p.t))
      && 1 <= MoveCount(s.at, p, Target(p), ITEM_PER_INSERT, QUEUE_SIZE)
    case CompressChunk(t) =>
      // sub_Compress: the chunk is still uncompressed
      && Get(s.at, Recv(Compress, t)) != []
      && Get(s.at, Recv(Compress, t))[0] in s.mem && s.mem[Get(s.at, Recv(Compress, t))[0]].payload.Raw?
    case Take =>
      // Reorder: the index is inside the array of counts after it was doubled, and no count is stored twice
      && Get(s.at, Recv(Reorder, 0)) != []
      && var id := Get(s.at, Recv(Reorder, 0))[0];
         id in s.mem && id.l1 < 2 * s.writer.capacity && (s.mem[id].isLast == Some(true) ==> id.l1 !in s.writer.counts)
    case Close(stage, t) =>
      // queue_terminate: no more terminations than producers
      NumTerminated(s, NextStage(stage), QueueOf(t)) < NumProducers(c.nthreads, NextStage(stage), QueueOf(t))
    case _ => true
  }

  /** No assertion of the source fails in any reachable state. */
  lemma AssertionsHold(c: Config, s: State, e: Event)
    requires ConfigOk(c) && Inv(c, s) && Enabled(c, s, e)
    ensures Asserted(c, s, e)
  {
    hide ConfigOk, ChunkInv, ShutdownInv;
    match e
    case Emit => NeverSendTerminated(c, s);
    case Flush(p) => NeverEnqueueTerminated(c, s, p);
    case CompressChunk(t) => FrontChunk(c, s, Recv(Compress, t));
    case Take => TakeAsserted(c, s);
    case Close(stage, t) => CloseAsserted(c, s, stage, t);
    case _ =>
  }

  lemma TakeAsserted(c: Config, s: State)
    requires ConfigOk(c) && ChunkInv(c, s) && Enabled(c, s, Take)
    ensures Asserted(c, s, Take)
  {
    hide DataInv, PlaceInv, ConfigOk;
    var id := Get(s.at, Recv(Reorder, 0))[0];
    FrontChunk(c, s, Recv(Reorder, 0));
    if s.mem[id].isLast == Some(true) {
      CountRecordedOnce(Sizes(c), s.writer, id);
    }
  }

  lemma CloseAsserted(c: Config, s: State, stage: Stage, t: nat)
    requires ConfigOk(c) && ShutdownInv(c, s) && Enabled(c, s, Close(stage, t))
    ensures Asserted(c, s, Close(stage, t))
  {
    var q := QueueOf(t);
    QueueOfThread(c.nthreads, t);
    CloseOpen(c, s, stage, t);
    GroupSize(c.nthreads, q);
    var done := DoneSet(c, s, stage, q);
    assert NumTerminated(s, NextStage(stage), q) == |done|;
    assert done <= Group(c.nthreads, q);
    SubsetSize(done, Group(c.nthreads, q));
  }

  lemma SubsetSize(a: set<nat>, b: set<nat>)
    requires a <= b
    ensures |a| <= |b|
  {
    assert b == a + (b - a);
  }

  /** The parts of the guards that speak of the chunk objects always hold, and the index into the array of counts is
      valid with at most 2048 coarse chunks; then only waiting disables a step. */
  lemma GuardsAreWaiting(c: Config, s: State, t: nat)
    requires ConfigOk(c) && Inv(c, s)
    ensures t in s.cutting ==> s.cutting[t] in s.mem && s.mem[s.cutting[t]].payload.Raw?
    ensures Get(s.at, Recv(Dedup, t)) != [] ==>
              var id := Get(s.at, Recv(Dedup, t))[0]; id in s.mem && s.mem[id].payload.Raw?
    ensures Get(s.at, Recv(Compress, t)) != [] ==> Get(s.at, Recv(Compress, t))[0] in s.mem
    ensures Get(s.at, Recv(Reorder, 0)) != [] ==>
              var id := Get(s.at, Recv(Reorder, 0))[0];
              id in s.mem && s.mem[id].isLast.Some? && (|c.coarse| <= 2048 ==> InBounds(s.writer, id))
    ensures s.writer.current.Some? ==>
              var id := s.writer.current.value;
              id in s.mem && Source(s, id) in s.mem && s.mem[Source(s, id)].digest.Some?
  {
    hide DataInv, PlaceInv, ConfigOk, ShutdownInv, OutInv, InBounds;
    if t in s.cutting {
      CutChunk(c, s, t);
    }
    if Get(s.at, Recv(Dedup, t)) != [] {
      FrontChunk(c, s, Recv(Dedup, t));
      FreshIsRaw(c, s, Get(s.at, Recv(Dedup, t))[0]);
    }
    if Get(s.at, Recv(Compress, t)) != [] {
      FrontChunk(c, s, Recv(Compress, t));
    }
    if Get(s.at, Recv(Reorder, 0)) != [] {
      FrontChunk(c, s, Recv(Reorder, 0));
      if |c.coarse| <= 2048 {
        CountsFit(c, s);
      }
    }
    if s.writer.current.Some? {
      CurrentKnown(c, s);
    }
  }

  lemma FreshIsRaw(c: Config, s: State, id: Id)
    requires ConfigOk(c) && ChunkInv(c, s) && id in s.mem && KindOk(s.mem[id], Fresh)
    ensures s.mem[id].payload.Raw?
  {
    assert ChunkOk(c, s.table, id, s.mem[id]);
  }

  lemma CurrentKnown(c: Config, s: State)
    requires ConfigOk(c) && ChunkInv(c, s) && s.writer.current.Some?
    ensures var id := s.writer.current.value;
            id in s.mem && Source(s, id) in s.mem && s.mem[Source(s, id)].digest.Some?
  {
    hide AtOk, CuttingOk, Located, HandOk, ShapeOk, ConfigOk, Before, RecordsOf, Digests;
    var id := s.writer.current.value;
    assert Arrived(s.writer, id);
    assert ChunkOk(c, s.table, id, s.mem[id]);
  }

  /** Reorder's array of counts is large enough whenever there are at most 2048 coarse chunks. */
  lemma CountsFit(c: Config, s: State)
    requires ConfigOk(c) && Inv(c, s) && |c.coarse| <= 2048
    requires Get(s.at, Recv(Reorder, 0)) != []
    ensures InBounds(s.writer, Get(s.at, Recv(Reorder, 0))[0])
  {
    hide DataInv, PlaceInv, ShutdownInv;
    FrontChunk(c, s, Recv(Reorder, 0));
  }

  // ---------------------------------------------------------------- completed runs

  /** When Reorder has stopped, every planned chunk is written, each once, and nothing is cached. */
  lemma FinishedMeansWritten(c: Config, s: State)
    requires ConfigOk(c) && Inv(c, s) && s.finished
    ensures s.writer.next == Id(|c.plan|, 0) && s.writer.cache == {}
  {
    FinishedMeansEmpty(c, s);
    NothingUncut(c, s);
    AllArrived(Sizes(c), s.writer);
  }

  lemma OnlyArrived(c: Config, s: State, id: Id)
    requires ConfigOk(c) && ChunkInv(c, s)
    requires (forall p :: Get(s.at, p) == []) && s.cutting == map[] && id in s.mem
    ensures Arrived(s.writer, id) && s.mem[id].isLast.Some?
  {
    assert ChunkOk(c, s.table, id, s.mem[id]);
    assert !Held(s.at, id) && !BeingCut(s.cutting, id);
  }

  lemma NothingUncut(c: Config, s: State)
    requires ConfigOk(c) && ChunkInv(c, s)
    requires (forall p :: Get(s.at, p) == []) && s.cutting == map[] && s.sent == |c.coarse|
    ensures forall id :: Exists(Sizes(c), id) ==> Arrived(s.writer, id)
  {
    hide Arrived, Exists, ChunkOk, ShapeOk;
    forall id | id in s.mem
      ensures Arrived(s.writer, id) && s.mem[id].isLast.Some?
    {
      OnlyArrived(c, s, id);
    }
    AllCreated(Sizes(c), s.mem, s.sent);
  }

  lemma AllCreated(sizes: seq<nat>, mem: Memory, sent: nat)
    requires ShapeOk(sizes, mem, sent) && sent == |sizes| && forall id :: id in mem ==> mem[id].isLast.Some?
    ensures forall id :: Exists(sizes, id) ==> id in mem
  {
    assert forall id :: Exists(sizes, id) ==> Covered(mem, id);
  }

  /** Safety of every completed run: whatever the interleaving, the file holds exactly the records the
      planned chunks would give if written one after another. */
  lemma EveryRunWritesTheSameFile(c: Config, run: seq<State>)
    requires ConfigOk(c) && CollisionFree(c.codec, Flatten(c.plan)) && IsRun(c, run)
    requires run[|run| - 1].finished
    ensures run[|run| - 1].file == RecordsOf(c.codec, {}, Flatten(c.plan))
  {
    hide DataInv, PlaceInv, ShutdownInv;
    RunKeepsInv(c, run, |run| - 1);
    FinishedMeansWritten(c, run[|run| - 1]);
  }

  /** The configuration for an input: Fragment's coarse chunks and their refinement. */
  function ConfigFor(nthreads: nat, seg: Bytes -> nat, codec: Codec, jump: nat, maxbuf: nat, input: Bytes): (c: Config)
    requires 0 < nthreads && SegOk(seg) && 0 < maxbuf
    ensures ConfigOk(c) && Flatten(Flatten(c.plan)) == input && NonEmptyParts(Flatten(c.plan))
  {
    var coarse := ChunksFrom(seg, jump, maxbuf, [], input, 0);
    assert [] + input[0..] == input;
    Config(nthreads, seg, codec, coarse, RefineAll(seg, coarse))
  }

  /** Decoding the file of any completed run, with any number of threads, gives back the input exactly when every
      fine chunk is restorable. */
  lemma EveryRunDecodes(nthreads: nat, seg: Bytes -> nat, codec: Codec, jump: nat, maxbuf: nat, input: Bytes, run: seq<State>)
    requires 0 < nthreads && SegOk(seg) && 0 < maxbuf && CodecOk(codec)
    requires var c := ConfigFor(nthreads, seg, codec, jump, maxbuf, input);
             && CollisionFree(codec, Flatten(c.plan)) && Storable(codec, Flatten(c.plan))
             && IsRun(c, run) && run[|run| - 1].finished
    ensures var c := ConfigFor(nthreads, seg, codec, jump, maxbuf, input);
            DecodeFrom(codec, SerializeAll(run[|run| - 1].file), map[])
            == if AllRestorable(codec, Flatten(c.plan)) then Some(input) else None
  {
    hide IsRun, CollisionFree, Storable, AllRestorable, ConfigOk;
    var c := ConfigFor(nthreads, seg, codec, jump, maxbuf, input);
    EveryRunWritesTheSameFile(c, run);
    RoundTrip(codec, Flatten(c.plan));
  }

  /** Every completed run obeys the first-writer rule: data where a digest occurs first, fingerprints after it. */
  lemma EveryRunFirstWriter(c: Config, run: seq<State>)
    requires ConfigOk(c) && CollisionFree(c.codec, Flatten(c.plan)) && IsRun(c, run)
    requires run[|run| - 1].finished
    ensures var file, chunks := run[|run| - 1].file, Flatten(c.plan);
            |file| == |chunks|
            && forall i :: 0 <= i < |chunks| ==>
                 file[i] == if exists j :: 0 <= j < i && c.codec.sha(chunks[j]) == c.codec.sha(chunks[i])
                            then Fingerprint(c.codec.sha(chunks[i])) else Data(Records.Compress(c.codec, chunks[i]))
  {
    EveryRunWritesTheSameFile(c, run);
    FirstWriter(c.codec, Flatten(c.plan));
  }
}
