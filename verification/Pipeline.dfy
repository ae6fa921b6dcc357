/** The parallel pipeline Fragment, FragmentRefine, Deduplicate, Compress, Reorder as a transition system
    (encoder.c, queue.c). One step is one critical section: a queue operation, the work of a stage on one chunk,
    or one write. Steps of different threads interleave freely. */
module Pipeline {
  import opened Common
  import opened Records
  import opened Chunking
  import opened Ordering
  import opened Places

  const MAX_THREADS_PER_QUEUE: nat := 4
  const QUEUE_SIZE: nat := 1024 * 1024
  const ITEM_PER_INSERT: nat := 20

  /** How many items a stage fetches at once: MAX_PER_FETCH, CHUNK_ANCHOR_PER_FETCH, ITEM_PER_FETCH. */
  function FetchLimit(stage: Stage): nat {
    if stage.Refine? then 10000 else 20
  }

  /** `coarse` is what Fragment cuts from the input, `plan` its refinement. */
  datatype Config = Config(nthreads: nat, seg: Bytes -> nat, codec: Codec, coarse: seq<Bytes>, plan: seq<seq<Bytes>>)

  ghost predicate ConfigOk(c: Config) {
    && 0 < c.nthreads
    && SegOk(c.seg) && NonEmptyParts(c.coarse)
    && |c.plan| == |c.coarse|
    && (forall a :: 0 <= a < |c.plan| ==> c.plan[a] == Chunking.Refine(c.seg, c.coarse[a]))
  }

  // ---------------------------------------------------------------- queue set-up

  function NumQueues(nthreads: nat): (n: nat)
    ensures 0 < nthreads ==> 0 < n
  {
    nthreads / MAX_THREADS_PER_QUEUE + (if nthreads % MAX_THREADS_PER_QUEUE != 0 then 1 else 0)
  }

  function QueueOf(t: nat): nat {
    t / MAX_THREADS_PER_QUEUE
  }

  /** threads_per_queue as Encode computes it. */
  function ThreadsPerQueue(nthreads: nat, q: nat): nat {
    if q + 1 < NumQueues(nthreads) || nthreads % MAX_THREADS_PER_QUEUE == 0 then MAX_THREADS_PER_QUEUE
    else nthreads % MAX_THREADS_PER_QUEUE
  }

  function NumProducers(nthreads: nat, stage: Stage, q: nat): nat {
    if stage.Refine? then 1 else ThreadsPerQueue(nthreads, q)
  }

  /** The stage a thread pool feeds through its send buffer. */
  function NextStage(stage: Stage): Stage {
    match stage
    case Refine => Dedup
    case Dedup => Compress
    case Compress => Reorder
    case Reorder => Reorder
  }

  // ---------------------------------------------------------------- state

  /** What a chunk's buffers hold: uncompressed data, compressed data, or nothing because the chunk was flushed or
      is a duplicate. */
  datatype Payload = Raw(bytes: Bytes) | Packed(data: Bytes) | Flushed | Freed

  /** A chunk object. `isLast` is unset until the chunk is cut off, `digest` and `original` until deduplication. */
  datatype Chunk = Chunk(payload: Payload, isLast: Option<bool>, digest: Option<Bytes>, original: Option<Id>)

  datatype Phase = Running | Draining | Done

  datatype Worker = Worker(stage: Stage, t: nat)

  datatype State = State(
    at: Contents,
    mem: map<Id, Chunk>,
    cutting: map<nat, Id>,           // chunk a refining thread is in the middle of
    phases: map<Worker, Phase>,      // missing: Running
    terminated: map<Place, nat>,     // nTerminated of each queue, missing: 0
    sent: nat,                       // coarse chunks Fragment has sent
    sendTo: nat,                     // Fragment's qid
    closed: nat,                     // refine queues Fragment has terminated
    table: map<Bytes, Id>,           // the hash table
    writer: Writer,
    file: seq<Record>,
    polled: nat,                     // i of Reorder's polling loop
    pollNext: nat,                   // qid of Reorder
    finished: bool)                  // Reorder's loop has ended

  const INITIAL := State(map[], map[], map[], map[], map[], 0, 0, 0, map[], INITIAL_WRITER, [], 0, 0, false)

  function PhaseOf(s: State, stage: Stage, t: nat): Phase {
    if Worker(stage, t) in s.phases then s.phases[Worker(stage, t)] else Running
  }

  function NumTerminated(s: State, stage: Stage, q: nat): nat {
    if Queue(stage, q) in s.terminated then s.terminated[Queue(stage, q)] else 0
  }

  /** queue_isTerminated */
  predicate Terminated(c: Config, s: State, stage: Stage, q: nat) {
    NumTerminated(s, stage, q) == NumProducers(c.nthreads, stage, q)
  }

  // ---------------------------------------------------------------- steps

  datatype Event =
    | Emit
    | CloseRefine
    | Fetch(stage: Stage, t: nat)
    | EndOfInput(stage: Stage, t: nat)
    | StartCut(t: nat)
    | CutPiece(t: nat)
    | Deduplicate(t: nat)
    | CompressChunk(t: nat)
    | Flush(from: Place)
    | Close(stage: Stage, t: nat)
    | PollFetch
    | PollEmpty
    | Take
    | Write

  predicate IsWorker(c: Config, stage: Stage, t: nat) {
    !stage.Reorder? && t < c.nthreads
  }

  /** A worker whose receive buffer is used up and that asks its queue for more. */
  predicate Hungry(c: Config, s: State, stage: Stage, t: nat) {
    && IsWorker(c, stage, t) && PhaseOf(s, stage, t) == Running
    && Get(s.at, Recv(stage, t)) == []
    && (stage.Refine? ==> t !in s.cutting)
  }

  predicate HasWork(c: Config, s: State, stage: Stage, t: nat) {
    IsWorker(c, stage, t) && PhaseOf(s, stage, t) == Running && Get(s.at, Recv(stage, t)) != []
  }

  predicate HasRoom(s: State, p: Place) {
    |Get(s.at, p)| < ITEM_PER_INSERT
  }

  /** The queue a send buffer is emptied into, and the worker that owns the buffer. */
  function Target(p: Place): Place
    requires p.Send? || p.SendDup?
  {
    if p.SendDup? then Queue(Reorder, QueueOf(p.t)) else Queue(NextStage(p.stage), QueueOf(p.t))
  }

  function Owner(p: Place): Stage
    requires p.Send? || p.SendDup?
  {
    if p.SendDup? then Dedup else p.stage
  }

  predicate ReorderIdle(s: State) {
    !s.finished && s.writer.current.None? && Get(s.at, Recv(Reorder, 0)) == []
  }

  /** Where write_chunk_to_file looks for the data of a chunk. */
  function Source(s: State, id: Id): Id {
    if id in s.mem && s.mem[id].original.Some? then s.mem[id].original.value else id
  }

  /** When a step can be taken. Waiting on a condition variable is a step that is not enabled yet. */
  predicate Enabled(c: Config, s: State, e: Event)
  {
    match e
    case Emit => s.sent < |c.coarse| && |Get(s.at, Queue(Refine, s.sendTo))| < QUEUE_SIZE
    case CloseRefine => s.sent == |c.coarse| && s.closed < NumQueues(c.nthreads)
    case Fetch(stage, t) => Hungry(c, s, stage, t) && Get(s.at, Queue(stage, QueueOf(t))) != []
    case EndOfInput(stage, t) =>
      Hungry(c, s, stage, t) && Get(s.at, Queue(stage, QueueOf(t))) == [] && Terminated(c, s, stage, QueueOf(t))
    case StartCut(t) => HasWork(c, s, Refine, t) && t !in s.cutting
    case CutPiece(t) =>
      && IsWorker(c, Refine, t) && t in s.cutting && s.cutting[t] in s.mem
      && s.mem[s.cutting[t]].payload.Raw? && HasRoom(s, Send(Refine, t))
    case Deduplicate(t) =>
      && HasWork(c, s, Dedup, t) && HasRoom(s, Send(Dedup, t)) && HasRoom(s, SendDup(t))
      && var id := Get(s.at, Recv(Dedup, t))[0]; id in s.mem && s.mem[id].payload.Raw?
    case CompressChunk(t) =>
      && HasWork(c, s, Compress, t) && HasRoom(s, Send(Compress, t))
      && Get(s.at, Recv(Compress, t))[0] in s.mem
    case Flush(p) =>
      && (p.Send? || p.SendDup?) && IsWorker(c, Owner(p), p.t) && Get(s.at, p) != []
      && (PhaseOf(s, Owner(p), p.t) == Draining || !HasRoom(s, p))
      && |Get(s.at, Target(p))| < QUEUE_SIZE
    case Close(stage, t) =>
      && IsWorker(c, stage, t) && PhaseOf(s, stage, t) == Draining && Get(s.at, Send(stage, t)) == []
      && (stage.Dedup? ==> Get(s.at, SendDup(t)) == [])
    case PollFetch => ReorderIdle(s) && Get(s.at, Queue(Reorder, s.pollNext)) != []
    case PollEmpty =>
      && ReorderIdle(s) && Get(s.at, Queue(Reorder, s.pollNext)) == []
      && Terminated(c, s, Reorder, s.pollNext) && 0 < NumQueues(c.nthreads)
    case Take =>
      && !s.finished && s.writer.current.None? && Get(s.at, Recv(Reorder, 0)) != []
      && var id := Get(s.at, Recv(Reorder, 0))[0];
         id in s.mem && s.mem[id].isLast.Some? && InBounds(s.writer, id)
    case Write =>
      && s.writer.current.Some? && s.writer.current.value in s.mem
      && Source(s, s.writer.current.value) in s.mem
      && !s.mem[Source(s, s.writer.current.value)].payload.Raw?
      && s.mem[Source(s, s.writer.current.value)].digest.Some?
  }

  function Transfer(s: State, from: Place, to: Place, limit: nat, room: nat): Contents {
    Move(s.at, from, to, MoveCount(s.at, from, to, limit, room))
  }

  /** rabinseg found a cut (mbuffer_split and a new chunk) or reached the end of the buffer. */
  function Cut(c: Config, s: State, t: nat): State
    requires Enabled(c, s, CutPiece(t)) && ConfigOk(c)
  {
    var id := s.cutting[t];
    var bytes := s.mem[id].payload.bytes;
    var at := Push(s.at, Send(Refine, t), id);
    var offset := c.seg(bytes);
    if offset < |bytes| then
      var temp := Id(id.l1, id.l2 + 1);
      s.(at := at, cutting := s.cutting[t := temp],
         mem := s.mem[id := s.mem[id].(payload := Raw(bytes[..offset]), isLast := Some(false))]
                     [temp := Chunk(Raw(bytes[offset..]), None, None, None)])
    else
      s.(at := at, cutting := s.cutting - {t}, mem := s.mem[id := s.mem[id].(isLast := Some(true))])
  }

  /** sub_Deduplicate under the bucket lock, and the routing of the chunk. */
  function Dedupe(c: Config, s: State, t: nat): State
    requires Enabled(c, s, Event.Deduplicate(t))
  {
    var id := Get(s.at, Recv(Dedup, t))[0];
    var chunk := s.mem[id];
    var h := c.codec.sha(chunk.payload.bytes);
    var at := Pop(s.at, Recv(Dedup, t));
    if h in s.table then
      s.(at := Push(at, SendDup(t), id),
         mem := s.mem[id := chunk.(payload := Freed, digest := Some(h), original := Some(s.table[h]))])
    else
      s.(at := Push(at, Send(Dedup, t), id), table := s.table[h := id],
         mem := s.mem[id := chunk.(digest := Some(h))])
  }

  /** sub_Compress. The source asserts that the chunk is uncompressed. */
  function Pack(c: Config, s: State, t: nat): State
    requires Enabled(c, s, CompressChunk(t))
  {
    var id := Get(s.at, Recv(Compress, t))[0];
    var chunk := s.mem[id];
    var payload := if chunk.payload.Raw? then Packed(Records.Compress(c.codec, chunk.payload.bytes)) else chunk.payload;
    s.(at := Push(Pop(s.at, Recv(Compress, t)), Send(Compress, t), id),
       mem := s.mem[id := chunk.(payload := payload)])
  }

  /** write_chunk_to_file, then the step to the next chunk. */
  function WriteOut(c: Config, s: State): State
    requires Enabled(c, s, Write)
  {
    var source := Source(s, s.writer.current.value);
    var chunk := s.mem[source];
    var w := Advance(s.writer);
    if chunk.payload.Packed? then
      s.(file := s.file + [Data(chunk.payload.data)], mem := s.mem[source := chunk.(payload := Flushed)], writer := w)
    else
      s.(file := s.file + [Fingerprint(chunk.digest.value)], writer := w)
  }

  function Apply(c: Config, s: State, e: Event): State
    requires ConfigOk(c) && Enabled(c, s, e)
  {
    match e
    case Emit =>
      var id := Id(s.sent, 0);
      s.(at := Push(s.at, Queue(Refine, s.sendTo), id),
         mem := s.mem[id := Chunk(Raw(c.coarse[s.sent]), None, None, None)],
         sent := s.sent + 1, sendTo := (s.sendTo + 1) % NumQueues(c.nthreads))
    case CloseRefine =>
      s.(terminated := s.terminated[Queue(Refine, s.closed) := NumTerminated(s, Refine, s.closed) + 1],
         closed := s.closed + 1)
    case Fetch(stage, t) =>
      s.(at := Transfer(s, Queue(stage, QueueOf(t)), Recv(stage, t), FetchLimit(stage), FetchLimit(stage)))
    case EndOfInput(stage, t) => s.(phases := s.phases[Worker(stage, t) := Draining])
    case StartCut(t) =>
      s.(at := Pop(s.at, Recv(Refine, t)), cutting := s.cutting[t := Get(s.at, Recv(Refine, t))[0]])
    case CutPiece(t) => Cut(c, s, t)
    case Deduplicate(t) => Dedupe(c, s, t)
    case CompressChunk(t) => Pack(c, s, t)
    case Flush(p) => s.(at := Transfer(s, p, Target(p), ITEM_PER_INSERT, QUEUE_SIZE))
    case Close(stage, t) =>
      var q := Queue(NextStage(stage), QueueOf(t));
      s.(phases := s.phases[Worker(stage, t) := Done],
         terminated := s.terminated[q := NumTerminated(s, NextStage(stage), QueueOf(t)) + 1])
    case PollFetch =>
      s.(at := Transfer(s, Queue(Reorder, s.pollNext), Recv(Reorder, 0), FetchLimit(Reorder), FetchLimit(Reorder)),
         polled := 0, pollNext := (s.pollNext + 1) % NumQueues(c.nthreads))
    case PollEmpty =>
      s.(polled := s.polled + 1, pollNext := (s.pollNext + 1) % NumQueues(c.nthreads),
         finished := s.polled + 1 == NumQueues(c.nthreads))
    case Take =>
      var id := Get(s.at, Recv(Reorder, 0))[0];
      s.(at := Pop(s.at, Recv(Reorder, 0)), writer := Receive(s.writer, id, s.mem[id].isLast.value))
    case Write => WriteOut(c, s)
  }

  ghost predicate Step(c: Config, s: State, s': State)
    requires ConfigOk(c)
  {
    exists e :: Enabled(c, s, e) && s' == Apply(c, s, e)
  }

  /** An interleaving: any sequence of steps from the initial state. */
  ghost predicate IsRun(c: Config, run: seq<State>)
    requires ConfigOk(c)
  {
    && run != [] && run[0] == INITIAL
    && forall i :: 0 <= i < |run| - 1 ==> Step(c, run[i], run[i + 1])
  }
}
