/** The shutdown protocol: queues count the producers that have terminated, threads stop when their queue is
    empty and terminated, and Reorder stops after polling every queue in a row without success. */
module PipelineShutdown {
  import opened Common
  import opened Ordering
  import opened Places
  import opened Pipeline

  // ---------------------------------------------------------------- thread groups

  function Group(n: nat, q: nat): set<nat> {
    set t: nat | t < n && QueueOf(t) == q
  }

  /** The threads that share queue q number exactly the producers given to it. */
  lemma GroupSize(n: nat, q: nat)
    requires q < NumQueues(n)
    ensures |Group(n, q)| == ThreadsPerQueue(n, q) > 0
  {
    var low := MAX_THREADS_PER_QUEUE * q;
    var high := Min(n, low + MAX_THREADS_PER_QUEUE);
    assert Group(n, q) == Interval(low, high);
  }

  function Interval(low: nat, high: nat): (s: set<nat>)
    requires low <= high
    ensures forall t :: t in s <==> low <= t < high
    ensures |s| == high - low
    decreases high - low
  {
    if low == high then {} else Interval(low, high - 1) + {high - 1}
  }

  /** In numbers: four threads share a queue, and the last queue gets the rest. */
  lemma FourPerQueue(n: nat, t: nat, q: nat)
    ensures NumQueues(n) == (n + 3) / 4 && QueueOf(t) == t / 4
    ensures q < NumQueues(n) ==> ThreadsPerQueue(n, q) == if 4 * q + 4 <= n then 4 else n - 4 * q
  {
  }

  lemma SubsetOfSameSize(a: set<nat>, b: set<nat>)
    requires a <= b && |a| == |b|
    ensures a == b
  {
    assert b == a + (b - a);
    assert |b| == |a| + |b - a|;
  }

  // ---------------------------------------------------------------- invariant

  ghost predicate Closed(c: Config, s: State, stage: Stage, q: nat) {
    Terminated(c, s, stage, q) && Get(s.at, Queue(stage, q)) == []
  }

  function DoneSet(c: Config, s: State, stage: Stage, q: nat): set<nat> {
    set t: nat | t < c.nthreads && QueueOf(t) == q && PhaseOf(s, stage, t) == Done
  }

  /** nTerminated counts the producers that are done. */
  ghost predicate CountsOk(c: Config, s: State) {
    && (s.closed > 0 ==> s.sent == |c.coarse|) && s.sent <= |c.coarse|
    && (forall q :: 0 <= q < NumQueues(c.nthreads) ==> NumTerminated(s, Refine, q) == if q < s.closed then 1 else 0)
    && (forall stage: Stage, q :: !stage.Reorder? && 0 <= q < NumQueues(c.nthreads) ==>
          NumTerminated(s, NextStage(stage), q) == |DoneSet(c, s, stage, q)|)
  }

  ghost predicate WorkerOk(c: Config, s: State, stage: Stage, t: nat) {
    && (PhaseOf(s, stage, t) != Running ==>
          Closed(c, s, stage, QueueOf(t)) && Get(s.at, Recv(stage, t)) == [] && (stage.Refine? ==> t !in s.cutting))
    && (PhaseOf(s, stage, t) == Done ==>
          Get(s.at, Send(stage, t)) == [] && (stage.Dedup? ==> Get(s.at, SendDup(t)) == []))
  }

  ghost predicate WorkersOk(c: Config, s: State) {
    forall stage, t :: IsWorker(c, stage, t) ==> WorkerOk(c, s, stage, t)
  }

  /** Only places of existing queues and threads are in use. */
  predicate PlaceExists(c: Config, p: Place) {
    match p
    case Queue(stage, q) => q < NumQueues(c.nthreads)
    case Recv(stage, t) => if stage.Reorder? then t == 0 else t < c.nthreads
    case Send(stage, t) => IsWorker(c, stage, t)
    case SendDup(t) => t < c.nthreads
  }

  ghost predicate RangesOk(c: Config, s: State) {
    && (forall p :: Get(s.at, p) != [] ==> PlaceExists(c, p))
    && (forall t :: t in s.cutting ==> t < c.nthreads)
    && s.sendTo < NumQueues(c.nthreads) && s.pollNext < NumQueues(c.nthreads)
  }

  /** How many polls ago queue q was polled last, counted around the ring. */
  function PollAge(n: nat, pollNext: nat, q: nat): nat
    requires q < n && pollNext < n
  {
    if q < pollNext then pollNext - 1 - q else n + pollNext - 1 - q
  }

  ghost predicate PollsOk(c: Config, s: State)
    requires s.pollNext < NumQueues(c.nthreads)
  {
    && s.polled <= NumQueues(c.nthreads)
    && (forall q :: 0 <= q < NumQueues(c.nthreads) && PollAge(NumQueues(c.nthreads), s.pollNext, q) < s.polled ==>
          Closed(c, s, Reorder, q))
    && (s.finished <==> s.polled == NumQueues(c.nthreads))
    && (s.finished ==>
          s.writer.current.None? && Get(s.at, Recv(Reorder, 0)) == [])
  }

  ghost predicate ShutdownInv(c: Config, s: State) {
    CountsOk(c, s) && WorkersOk(c, s) && RangesOk(c, s) && PollsOk(c, s)
  }

  lemma InitialShutdown(c: Config)
    requires ConfigOk(c)
    ensures ShutdownInv(c, INITIAL)
  {
    forall stage: Stage, q | !stage.Reorder? && 0 <= q < NumQueues(c.nthreads)
      ensures |DoneSet(c, INITIAL, stage, q)| == 0
    {
      assert DoneSet(c, INITIAL, stage, q) == {};
    }
  }

  // ---------------------------------------------------------------- consequences

  /** When a queue is terminated, every thread that feeds it is done. */
  lemma TerminatedMeansDone(c: Config, s: State, stage: Stage, q: nat, t: nat)
    requires CountsOk(c, s) && !stage.Reorder? && q < NumQueues(c.nthreads)
    requires Terminated(c, s, NextStage(stage), q)
    requires t < c.nthreads && QueueOf(t) == q
    ensures PhaseOf(s, stage, t) == Done
  {
    GroupSize(c.nthreads, q);
    assert DoneSet(c, s, stage, q) <= Group(c.nthreads, q);
    SubsetOfSameSize(DoneSet(c, s, stage, q), Group(c.nthreads, q));
    assert t in Group(c.nthreads, q);
  }

  lemma ThreadOfQueue(n: nat, q: nat)
    requires q < NumQueues(n)
    ensures MAX_THREADS_PER_QUEUE * q < n && QueueOf(MAX_THREADS_PER_QUEUE * q) == q
  {
  }

  lemma QueueOfThread(n: nat, t: nat)
    requires t < n
    ensures QueueOf(t) < NumQueues(n)
  {
  }

  /** A terminated queue's feeding stage has its own queue closed. */
  lemma ClosedUpstream(c: Config, s: State, stage: Stage, q: nat)
    requires ShutdownInv(c, s) && !stage.Reorder? && q < NumQueues(c.nthreads)
    requires Terminated(c, s, NextStage(stage), q)
    ensures Closed(c, s, stage, q)
  {
    var t := MAX_THREADS_PER_QUEUE * q;
    ThreadOfQueue(c.nthreads, q);
    TerminatedMeansDone(c, s, stage, q, t);
    assert WorkerOk(c, s, stage, t);
  }

  /** No stage ever enqueues on a terminated queue, although Deduplicate is not counted as a producer of Reorder's. */
  lemma NeverEnqueueTerminated(c: Config, s: State, p: Place)
    requires ShutdownInv(c, s) && Enabled(c, s, Flush(p))
    ensures QueueOf(p.t) < NumQueues(c.nthreads) && !Terminated(c, s, Target(p).stage, QueueOf(p.t))
  {
    QueueOfThread(c.nthreads, p.t);
    var q := QueueOf(p.t);
    if Terminated(c, s, Target(p).stage, q) {
      if p.SendDup? {
        assert NextStage(Compress) == Reorder;
        ClosedUpstream(c, s, Compress, q);
      }
      assert NextStage(Dedup) == Compress;
      TerminatedMeansDone(c, s, Owner(p), q, p.t);
    }
  }

  lemma NeverSendTerminated(c: Config, s: State)
    requires ShutdownInv(c, s) && Enabled(c, s, Emit)
    ensures !Terminated(c, s, Refine, s.sendTo)
  {
  }

  // ---------------------------------------------------------------- steps that change places only

  /** Places a step may put something into without disturbing the shutdown. */
  ghost predicate MayFill(c: Config, s: State, p: Place) {
    && PlaceExists(c, p)
    && match p
       case Queue(stage, q) => !Terminated(c, s, stage, q)
       case Recv(stage, t) => if stage.Reorder? then !s.finished else PhaseOf(s, stage, t) == Running
       case Send(stage, t) => PhaseOf(s, stage, t) == Running
       case SendDup(t) => PhaseOf(s, Dedup, t) == Running
  }

  ghost predicate SameControl(s: State, s': State) {
    && s'.phases == s.phases && s'.terminated == s.terminated && s'.closed == s.closed
    && s'.pollNext == s.pollNext && s'.polled == s.polled && s'.finished == s.finished
  }

  lemma FillStep(c: Config, s: State, s': State)
    requires ShutdownInv(c, s) && SameControl(s, s')
    requires forall p :: Get(s'.at, p) != [] ==> Get(s.at, p) != [] || MayFill(c, s, p)
    requires forall t :: t in s'.cutting ==> t in s.cutting || (t < c.nthreads && PhaseOf(s, Refine, t) == Running)
    requires s'.sendTo < NumQueues(c.nthreads)
    requires s.sent <= s'.sent <= |c.coarse|
    requires s.finished ==> s'.writer.current.None?
    ensures ShutdownInv(c, s')
  {
    forall stage: Stage, q | !stage.Reorder? && 0 <= q < NumQueues(c.nthreads)
      ensures NumTerminated(s', NextStage(stage), q) == |DoneSet(c, s', stage, q)|
    {
      assert DoneSet(c, s', stage, q) == DoneSet(c, s, stage, q);
      assert NumTerminated(s', NextStage(stage), q) == NumTerminated(s, NextStage(stage), q);
    }
    forall q | 0 <= q < NumQueues(c.nthreads)
      ensures NumTerminated(s', Refine, q) == if q < s'.closed then 1 else 0
    {
      assert NumTerminated(s', Refine, q) == NumTerminated(s, Refine, q);
    }
    forall stage, t | IsWorker(c, stage, t)
      ensures WorkerOk(c, s', stage, t)
    {
      assert WorkerOk(c, s, stage, t);
      FillWorker(c, s, s', stage, t);
    }
  }

  lemma FillWorker(c: Config, s: State, s': State, stage: Stage, t: nat)
    requires SameControl(s, s') && IsWorker(c, stage, t) && WorkerOk(c, s, stage, t)
    requires forall p :: Get(s'.at, p) != [] ==> Get(s.at, p) != [] || MayFill(c, s, p)
    requires forall t :: t in s'.cutting ==> t in s.cutting || (t < c.nthreads && PhaseOf(s, Refine, t) == Running)
    ensures WorkerOk(c, s', stage, t)
  {
  }

  // ---------------------------------------------------------------- each step

  /** A move fills only its target. */
  lemma TransferFills(s: State, from: Place, to: Place, limit: nat, room: nat)
    requires from != to
    ensures forall p :: Get(Transfer(s, from, to, limit, room), p) != [] ==> Get(s.at, p) != [] || p == to
  {
  }

  /** The steps that change neither phases nor counters. */
  lemma DataStep(c: Config, s: State, e: Event)
    requires ConfigOk(c) && ShutdownInv(c, s) && Enabled(c, s, e)
    requires !e.CloseRefine? && !e.EndOfInput? && !e.Close? && !e.PollFetch? && !e.PollEmpty?
    ensures ShutdownInv(c, Apply(c, s, e))
  {
    hide ShutdownInv, ConfigOk, Advance, Receive;
    match e
    case Emit => EmitShutdown(c, s);
    case Fetch(stage, t) =>
      TransferFills(s, Queue(stage, QueueOf(t)), Recv(stage, t), FetchLimit(stage), FetchLimit(stage));
      SentRange(c, s);
      FillStep(c, s, Apply(c, s, e));
    case Flush(p) => FlushShutdown(c, s, p);
    case StartCut(t) =>
      SentRange(c, s);
      FillStep(c, s, Apply(c, s, e));
    case CutPiece(t) => CutShutdown(c, s, t);
    case Deduplicate(t) =>
      SentRange(c, s);
      FillStep(c, s, Apply(c, s, e));
    case CompressChunk(t) =>
      SentRange(c, s);
      FillStep(c, s, Apply(c, s, e));
    case Take =>
      SentRange(c, s);
      FillStep(c, s, Apply(c, s, e));
    case Write => WriteShutdown(c, s);
  }

  lemma SentRange(c: Config, s: State)
    requires ShutdownInv(c, s)
    ensures s.sent <= |c.coarse| && s.sendTo < NumQueues(c.nthreads)
    ensures s.finished ==> s.writer.current.None?
    ensures forall t :: t in s.cutting ==> t < c.nthreads && PhaseOf(s, Refine, t) == Running
  {
    forall t | t in s.cutting
      ensures PhaseOf(s, Refine, t) == Running
    {
      assert WorkerOk(c, s, Refine, t);
    }
  }

  lemma EmitShutdown(c: Config, s: State)
    requires ConfigOk(c) && ShutdownInv(c, s) && Enabled(c, s, Emit)
    ensures ShutdownInv(c, Apply(c, s, Emit))
  {
    hide ShutdownInv, ConfigOk;
    NeverSendTerminated(c, s);
    SentRange(c, s);
    FillStep(c, s, Apply(c, s, Emit));
  }

  lemma FlushShutdown(c: Config, s: State, p: Place)
    requires ConfigOk(c) && ShutdownInv(c, s) && Enabled(c, s, Flush(p))
    ensures ShutdownInv(c, Apply(c, s, Flush(p)))
  {
    hide ShutdownInv, ConfigOk, Advance, Receive;
    NeverEnqueueTerminated(c, s, p);
    TransferFills(s, p, Target(p), ITEM_PER_INSERT, QUEUE_SIZE);
    SentRange(c, s);
    FillStep(c, s, Apply(c, s, Flush(p)));
  }

  lemma CutShutdown(c: Config, s: State, t: nat)
    requires ConfigOk(c) && ShutdownInv(c, s) && Enabled(c, s, CutPiece(t))
    ensures ShutdownInv(c, Apply(c, s, CutPiece(t)))
  {
    hide ShutdownInv, ConfigOk, Apply;
    CutControl(c, s, t);
    SentRange(c, s);
    FillStep(c, s, Apply(c, s, CutPiece(t)));
  }

  lemma CutControl(c: Config, s: State, t: nat)
    requires ConfigOk(c) && Enabled(c, s, CutPiece(t))
    ensures var s' := Apply(c, s, CutPiece(t));
            && SameControl(s, s') && s'.sent == s.sent && s'.sendTo == s.sendTo && s'.writer == s.writer
            && (forall p :: p != Send(Refine, t) ==> Get(s'.at, p) == Get(s.at, p))
            && forall u :: u in s'.cutting ==> u in s.cutting
  {
    hide ConfigOk;
    assert Apply(c, s, CutPiece(t)) == Cut(c, s, t);
  }

  lemma WriteShutdown(c: Config, s: State)
    requires ConfigOk(c) && ShutdownInv(c, s) && Enabled(c, s, Write)
    ensures ShutdownInv(c, Apply(c, s, Write))
  {
    hide ShutdownInv, ConfigOk, Advance, Receive;
    SentRange(c, s);
    FillStep(c, s, Apply(c, s, Write));
  }

  lemma CloseRefineShutdown(c: Config, s: State)
    requires ConfigOk(c) && ShutdownInv(c, s) && Enabled(c, s, CloseRefine)
    ensures ShutdownInv(c, Apply(c, s, CloseRefine))
  {
    var s' := Apply(c, s, CloseRefine);
    CountsFrame(c, s, s');
    forall q | 0 <= q < NumQueues(c.nthreads)
      ensures NumTerminated(s', Refine, q) == if q < s'.closed then 1 else 0
    {
      assert NumTerminated(s, Refine, q) == if q < s.closed then 1 else 0;
    }
    forall stage, t | IsWorker(c, stage, t)
      ensures WorkerOk(c, s', stage, t)
    {
      assert WorkerOk(c, s, stage, t);
      QueueOfThread(c.nthreads, t);
    }
    assert forall q :: 0 <= q < NumQueues(c.nthreads) && Closed(c, s, Reorder, q) ==> Closed(c, s', Reorder, q);
  }

  /** Counts of the later queues when only Fragment's counters change. */
  lemma CountsFrame(c: Config, s: State, s': State)
    requires CountsOk(c, s) && s'.phases == s.phases
    requires forall stage: Stage, q :: !stage.Refine? ==> NumTerminated(s', stage, q) == NumTerminated(s, stage, q)
    ensures forall stage: Stage, q :: !stage.Reorder? && 0 <= q < NumQueues(c.nthreads) ==>
              NumTerminated(s', NextStage(stage), q) == |DoneSet(c, s', stage, q)|
  {
    forall stage: Stage, q | !stage.Reorder? && 0 <= q < NumQueues(c.nthreads)
      ensures NumTerminated(s', NextStage(stage), q) == |DoneSet(c, s', stage, q)|
    {
      assert DoneSet(c, s', stage, q) == DoneSet(c, s, stage, q);
      assert NumTerminated(s', NextStage(stage), q) == NumTerminated(s, NextStage(stage), q);
    }
  }

  lemma EndCounts(c: Config, s: State, stage: Stage, t: nat)
    requires ConfigOk(c) && CountsOk(c, s) && Enabled(c, s, EndOfInput(stage, t))
    ensures CountsOk(c, Apply(c, s, EndOfInput(stage, t)))
  {
    var s' := Apply(c, s, EndOfInput(stage, t));
    forall st: Stage, q | !st.Reorder? && 0 <= q < NumQueues(c.nthreads)
      ensures NumTerminated(s', NextStage(st), q) == |DoneSet(c, s', st, q)|
    {
      assert DoneSet(c, s', st, q) == DoneSet(c, s, st, q);
      assert NumTerminated(s', NextStage(st), q) == NumTerminated(s, NextStage(st), q);
    }
    RefineCounts(c, s, s');
  }

  lemma EndOfInputShutdown(c: Config, s: State, stage: Stage, t: nat)
    requires ConfigOk(c) && ShutdownInv(c, s) && Enabled(c, s, EndOfInput(stage, t))
    ensures ShutdownInv(c, Apply(c, s, EndOfInput(stage, t)))
  {
    var s' := Apply(c, s, EndOfInput(stage, t));
    EndCounts(c, s, stage, t);
    forall st, u | IsWorker(c, st, u)
      ensures WorkerOk(c, s', st, u)
    {
      assert WorkerOk(c, s, st, u);
    }
    assert forall q :: 0 <= q < NumQueues(c.nthreads) && Closed(c, s, Reorder, q) ==> Closed(c, s', Reorder, q);
  }

  lemma RefineCounts(c: Config, s: State, s': State)
    requires CountsOk(c, s) && s'.closed == s.closed
    requires forall q :: NumTerminated(s', Refine, q) == NumTerminated(s, Refine, q)
    ensures forall q :: 0 <= q < NumQueues(c.nthreads) ==>
              NumTerminated(s', Refine, q) == if q < s'.closed then 1 else 0
  {
    forall q | 0 <= q < NumQueues(c.nthreads)
      ensures NumTerminated(s', Refine, q) == if q < s'.closed then 1 else 0
    {
      assert NumTerminated(s, Refine, q) == if q < s.closed then 1 else 0;
    }
  }

  /** A closing thread is counted once. */
  lemma CloseSet(c: Config, s: State, stage: Stage, t: nat, st: Stage, q: nat)
    requires ConfigOk(c) && Enabled(c, s, Close(stage, t))
    ensures var s' := Apply(c, s, Close(stage, t));
            DoneSet(c, s', st, q)
            == DoneSet(c, s, st, q) + (if st == stage && q == QueueOf(t) then {t} else {})
    ensures t !in DoneSet(c, s, stage, QueueOf(t))
  {
  }

  lemma CloseCounts(c: Config, s: State, stage: Stage, t: nat, st: Stage, q: nat)
    requires ConfigOk(c) && CountsOk(c, s) && Enabled(c, s, Close(stage, t))
    requires !st.Reorder? && q < NumQueues(c.nthreads)
    ensures var s' := Apply(c, s, Close(stage, t));
            NumTerminated(s', NextStage(st), q) == |DoneSet(c, s', st, q)|
  {
    hide ConfigOk, DoneSet;
    assert NumTerminated(s, NextStage(st), q) == |DoneSet(c, s, st, q)|;
    CloseSet(c, s, stage, t, st, q);
    assert NextStage(st) == NextStage(stage) ==> st == stage;
  }

  /** The queue a thread feeds is not terminated before the thread closes. */
  lemma CloseOpen(c: Config, s: State, stage: Stage, t: nat)
    requires ConfigOk(c) && CountsOk(c, s) && Enabled(c, s, Close(stage, t))
    ensures !Terminated(c, s, NextStage(stage), QueueOf(t))
  {
    QueueOfThread(c.nthreads, t);
    if Terminated(c, s, NextStage(stage), QueueOf(t)) {
      TerminatedMeansDone(c, s, stage, QueueOf(t), t);
    }
  }

  lemma CloseShutdown(c: Config, s: State, stage: Stage, t: nat)
    requires ConfigOk(c) && ShutdownInv(c, s) && Enabled(c, s, Close(stage, t))
    ensures ShutdownInv(c, Apply(c, s, Close(stage, t)))
  {
    var s' := Apply(c, s, Close(stage, t));
    CloseOpen(c, s, stage, t);
    forall st: Stage, q | !st.Reorder? && 0 <= q < NumQueues(c.nthreads)
      ensures NumTerminated(s', NextStage(st), q) == |DoneSet(c, s', st, q)|
    {
      CloseCounts(c, s, stage, t, st, q);
    }
    RefineCounts(c, s, s');
    forall st, q | Closed(c, s, st, q)
      ensures Closed(c, s', st, q)
    {
    }
    CloseWorkers(c, s, stage, t);
  }

  lemma CloseWorkers(c: Config, s: State, stage: Stage, t: nat)
    requires ConfigOk(c) && WorkersOk(c, s) && Enabled(c, s, Close(stage, t))
    requires !Terminated(c, s, NextStage(stage), QueueOf(t))
    ensures WorkersOk(c, Apply(c, s, Close(stage, t)))
  {
    var s' := Apply(c, s, Close(stage, t));
    forall st, u | IsWorker(c, st, u)
      ensures WorkerOk(c, s', st, u)
    {
      assert WorkerOk(c, s, st, u);
    }
  }

  // ---------------------------------------------------------------- Reorder's polling

  lemma NextAge(n: nat, pollNext: nat, q: nat)
    requires q < n && pollNext < n
    ensures PollAge(n, (pollNext + 1) % n, q) == if q == pollNext then 0 else PollAge(n, pollNext, q) + 1
  {
    if pollNext + 1 < n {
      assert (pollNext + 1) % n == pollNext + 1;
    } else {
      assert (pollNext + 1) % n == 0;
    }
  }

  lemma PollFetchShutdown(c: Config, s: State)
    requires ConfigOk(c) && ShutdownInv(c, s) && Enabled(c, s, PollFetch)
    ensures ShutdownInv(c, Apply(c, s, PollFetch))
  {
    var s' := Apply(c, s, PollFetch);
    var moved := s.(at := s'.at);
    TransferFills(s, Queue(Reorder, s.pollNext), Recv(Reorder, 0), FetchLimit(Reorder), FetchLimit(Reorder));
    SentRange(c, s);
    FillStep(c, s, moved);
    PollFields(c, moved, s');
  }

  /** Only Reorder's own counters differ. */
  lemma PollFields(c: Config, s: State, s': State)
    requires ShutdownInv(c, s) && s' == s.(polled := s'.polled, pollNext := s'.pollNext, finished := s'.finished)
    ensures CountsOk(c, s') && WorkersOk(c, s')
    ensures s'.pollNext < NumQueues(c.nthreads) ==> RangesOk(c, s')
    ensures s'.polled == 0 && !s'.finished && s'.pollNext < NumQueues(c.nthreads) ==> PollsOk(c, s')
  {
    forall st: Stage, q | !st.Reorder? && 0 <= q < NumQueues(c.nthreads)
      ensures NumTerminated(s', NextStage(st), q) == |DoneSet(c, s', st, q)|
    {
      assert DoneSet(c, s', st, q) == DoneSet(c, s, st, q);
      assert NumTerminated(s', NextStage(st), q) == NumTerminated(s, NextStage(st), q);
    }
    RefineCounts(c, s, s');
    forall st, u | IsWorker(c, st, u)
      ensures WorkerOk(c, s', st, u)
    {
      assert WorkerOk(c, s, st, u);
    }
  }

  lemma PollEmptyShutdown(c: Config, s: State)
    requires ConfigOk(c) && ShutdownInv(c, s) && Enabled(c, s, PollEmpty)
    ensures ShutdownInv(c, Apply(c, s, PollEmpty))
  {
    var s' := Apply(c, s, PollEmpty);
    var n := NumQueues(c.nthreads);
    PollFields(c, s, s');
    PollCount(c, s);
    forall q | 0 <= q < n && PollAge(n, s'.pollNext, q) < s'.polled
      ensures Closed(c, s', Reorder, q)
    {
      NextAge(n, s.pollNext, q);
      assert Closed(c, s, Reorder, q);
    }
  }

  /** Before the last poll fewer than all queues have been polled in a row. */
  lemma PollCount(c: Config, s: State)
    requires ShutdownInv(c, s) && !s.finished
    ensures s.polled < NumQueues(c.nthreads)
  {
  }

  /** Every step keeps the shutdown invariant. */
  lemma ShutdownStep(c: Config, s: State, e: Event)
    requires ConfigOk(c) && ShutdownInv(c, s) && Enabled(c, s, e)
    ensures ShutdownInv(c, Apply(c, s, e))
  {
    hide ShutdownInv, ConfigOk, Apply, Enabled;
    match e
    case CloseRefine => CloseRefineShutdown(c, s);
    case EndOfInput(stage, t) => EndOfInputShutdown(c, s, stage, t);
    case Close(stage, t) => CloseShutdown(c, s, stage, t);
    case PollFetch => PollFetchShutdown(c, s);
    case PollEmpty => PollEmptyShutdown(c, s);
    case _ => DataStep(c, s, e);
  }

  /** When Reorder has stopped, every queue of every stage is closed and every buffer is empty. */
  lemma FinishedMeansEmpty(c: Config, s: State)
    requires ShutdownInv(c, s) && s.finished
    ensures forall p :: Get(s.at, p) == []
    ensures s.cutting == map[] && s.writer.current.None? && s.sent == |c.coarse|
  {
    var n := NumQueues(c.nthreads);
    forall q | 0 <= q < n
      ensures Closed(c, s, Reorder, q) && Closed(c, s, Compress, q) && Closed(c, s, Dedup, q) && Closed(c, s, Refine, q)
    {
      assert PollAge(n, s.pollNext, q) < n;
      assert NextStage(Compress) == Reorder && NextStage(Dedup) == Compress && NextStage(Stage.Refine) == Dedup;
      ClosedUpstream(c, s, Compress, q);
      ClosedUpstream(c, s, Dedup, q);
      ClosedUpstream(c, s, Stage.Refine, q);
    }
    forall stage, t | IsWorker(c, stage, t)
      ensures PhaseOf(s, stage, t) == Done && WorkerOk(c, s, stage, t)
    {
      QueueOfThread(c.nthreads, t);
      assert Closed(c, s, NextStage(stage), QueueOf(t));
      TerminatedMeansDone(c, s, stage, QueueOf(t), t);
    }
    forall p
      ensures Get(s.at, p) == []
    {
      EmptyPlace(c, s, p);
    }
    forall t | t in s.cutting
      ensures false
    {
      assert IsWorker(c, Stage.Refine, t);
    }
    assert Closed(c, s, Stage.Refine, s.pollNext);
  }

  lemma EmptyPlace(c: Config, s: State, p: Place)
    requires RangesOk(c, s) && Get(s.at, Recv(Reorder, 0)) == []
    requires forall stage, t :: IsWorker(c, stage, t) ==> PhaseOf(s, stage, t) == Done && WorkerOk(c, s, stage, t)
    requires forall stage, q :: 0 <= q < NumQueues(c.nthreads) ==> Closed(c, s, stage, q)
    ensures Get(s.at, p) == []
  {
    if PlaceExists(c, p) {
      match p
      case Queue(stage, q) => assert Closed(c, s, stage, q);
      case Recv(stage, t) => assert stage.Reorder? || IsWorker(c, stage, t);
      case Send(stage, t) => assert IsWorker(c, stage, t);
      case SendDup(t) => assert IsWorker(c, Dedup, t);
    }
  }
}
