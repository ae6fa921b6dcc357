/** Every step of the pipeline keeps the invariant about chunks, places and output. */
module PipelineSteps {
  import opened Common
  import opened Records
  import opened Ordering
  import opened Places
  import opened Pipeline
  import opened PipelineChunks
  import opened PipelineData

  lemma KnownExist(c: Config, s: State)
    requires ConfigOk(c) && ChunkInv(c, s)
    ensures forall id :: id in s.mem ==> Exists(Sizes(c), id)
  {
  }

  /** The chunk at the front of a place is known and in the condition of the place. */
  lemma FrontChunk(c: Config, s: State, p: Place)
    requires ConfigOk(c) && ChunkInv(c, s) && Get(s.at, p) != []
    ensures var id := Get(s.at, p)[0];
            && id in s.mem && KindOk(s.mem[id], KindOf(p)) && Exists(Sizes(c), id) && !Arrived(s.writer, id)
            && (s.mem[id].digest.None? ==> s.mem[id].original.None?)
            && (s.mem[id].digest.Some? ==> s.mem[id].isLast.Some?)
            && (s.mem[id].isLast.Some? ==> s.mem[id].isLast.value == IsLastOf(Sizes(c), id))
            && (s.mem[id].isLast.Some? && s.mem[id].payload.Raw? ==> s.mem[id].payload.bytes == PlanAt(c, id))
  {
    var id := Get(s.at, p)[0];
    assert Has(s.at, p, id);
    assert Held(s.at, id);
    assert ChunkOk(c, s.table, id, s.mem[id]);
  }

  /** A chunk being cut is known and uncut. */
  lemma CutChunk(c: Config, s: State, t: nat)
    requires ConfigOk(c) && ChunkInv(c, s) && t in s.cutting
    ensures var id := s.cutting[t];
            id in s.mem && s.mem[id].isLast.None? && s.mem[id].digest.None? && s.mem[id].payload.Raw?
  {
    assert ChunkOk(c, s.table, s.cutting[t], s.mem[s.cutting[t]]);
  }

  lemma EmitStep(c: Config, s: State)
    requires ConfigOk(c) && ChunkInv(c, s) && Enabled(c, s, Emit)
    ensures ChunkInv(c, Apply(c, s, Emit))
  {
    hide PlaceInv, DataInv, OutInv, ConfigOk, ChunkOk;
    var id, ch := Id(s.sent, 0), Chunk(Raw(c.coarse[s.sent]), None, None, None);
    EmitData(c, s.mem, s.table, s.sent);
    CreateInHand(c, s.at, s.mem, s.cutting, s.writer, id, ch);
    HandToPlace(c, s.at, s.mem[id := ch], s.cutting, s.writer, id, Queue(Refine, s.sendTo));
    OutFrame(c, s.mem, s.writer, s.file, id, ch);
  }

  lemma StartCutStep(c: Config, s: State, t: nat)
    requires ConfigOk(c) && ChunkInv(c, s) && Enabled(c, s, StartCut(t))
    ensures ChunkInv(c, Apply(c, s, StartCut(t)))
  {
    hide PlaceInv, DataInv, OutInv, ConfigOk, ChunkOk;
    KnownExist(c, s);
    var p := Recv(Refine, t);
    PopToHand(c, s.at, s.mem, s.cutting, s.writer, p);
    HandToCutting(c, Pop(s.at, p), s.mem, s.cutting, s.writer, Get(s.at, p)[0], t);
  }

  lemma CutLastStep(c: Config, s: State, t: nat)
    requires ConfigOk(c) && Enabled(c, s, CutPiece(t))
    requires c.seg(s.mem[s.cutting[t]].payload.bytes) >= |s.mem[s.cutting[t]].payload.bytes|
    requires ChunkInv(c, s)
    ensures ChunkInv(c, Apply(c, s, CutPiece(t)))
  {
    hide PlaceInv, DataInv, OutInv, ConfigOk, ChunkOk;
    var id := s.cutting[t];
    var ch := s.mem[id].(isLast := Some(true));
    KnownExist(c, s);
    CutChunk(c, s, t);
    LastData(c, s.mem, s.table, s.sent, id);
    CutToHand(c, s.at, s.mem, s.cutting, s.writer, t);
    UpdateHand(c, s.at, s.mem, s.cutting - {t}, s.writer, id, ch);
    HandToPlace(c, s.at, s.mem[id := ch], s.cutting - {t}, s.writer, id, Send(Refine, t));
    OutFrame(c, s.mem, s.writer, s.file, id, ch);
  }

  lemma CutSplitStep(c: Config, s: State, t: nat)
    requires ConfigOk(c) && Enabled(c, s, CutPiece(t))
    requires c.seg(s.mem[s.cutting[t]].payload.bytes) < |s.mem[s.cutting[t]].payload.bytes|
    requires ChunkInv(c, s)
    ensures ChunkInv(c, Apply(c, s, CutPiece(t)))
  {
    hide PlaceInv, DataInv, OutInv, ConfigOk, ChunkOk;
    var id := s.cutting[t];
    var temp, bytes := Id(id.l1, id.l2 + 1), s.mem[id].payload.bytes;
    var offset := c.seg(bytes);
    var piece := s.mem[id].(payload := Raw(bytes[..offset]), isLast := Some(false));
    var rest := Chunk(Raw(bytes[offset..]), None, None, None);
    KnownExist(c, s);
    CutChunk(c, s, t);
    SplitData(c, s.mem, s.table, s.sent, id, offset);
    OutFrame(c, s.mem, s.writer, s.file, id, piece);
    OutFrame(c, s.mem[id := piece], s.writer, s.file, temp, rest);
    CutSplitPlaces(c, s, t, piece, temp, rest);
    assert (s.cutting - {t})[t := temp] == s.cutting[t := temp];
  }

  lemma CutSplitPlaces(c: Config, s: State, t: nat, piece: Chunk, temp: Id, rest: Chunk)
    requires PlaceInv(c, s.at, s.mem, s.cutting, s.writer, None) && t in s.cutting
    requires forall id :: id in s.mem ==> Exists(Sizes(c), id)
    requires KindOk(piece, Fresh) && KindOk(rest, Whole) && temp !in s.mem && Exists(Sizes(c), temp)
    ensures PlaceInv(c, Push(s.at, Send(Refine, t), s.cutting[t]), s.mem[s.cutting[t] := piece][temp := rest],
                     (s.cutting - {t})[t := temp], s.writer, None)
  {
    var id, cutting := s.cutting[t], s.cutting - {t};
    assert id != temp by {
      assert id in s.mem;
    }
    CutToHand(c, s.at, s.mem, s.cutting, s.writer, t);
    UpdateHand(c, s.at, s.mem, cutting, s.writer, id, piece);
    HandToPlace(c, s.at, s.mem[id := piece], cutting, s.writer, id, Send(Refine, t));
    var at := Push(s.at, Send(Refine, t), id);
    CreateInHand(c, at, s.mem[id := piece], cutting, s.writer, temp, rest);
    HandToCutting(c, at, s.mem[id := piece][temp := rest], cutting, s.writer, temp, t);
  }

  lemma DedupStep(c: Config, s: State, t: nat)
    requires ConfigOk(c) && ChunkInv(c, s) && Enabled(c, s, Event.Deduplicate(t))
    ensures ChunkInv(c, Apply(c, s, Event.Deduplicate(t)))
  {
    hide PlaceInv, DataInv, OutInv, ConfigOk, ChunkOk;
    var p := Recv(Dedup, t);
    var id := Get(s.at, p)[0];
    KnownExist(c, s);
    FrontChunk(c, s, p);
    var h := c.codec.sha(PlanAt(c, id));
    if h in s.table {
      var ch := s.mem[id].(payload := Freed, digest := Some(h), original := Some(s.table[h]));
      DuplicateData(c, s.mem, s.table, s.sent, id);
      DedupPlaces(c, s, p, id, ch, SendDup(t));
      OutFrame(c, s.mem, s.writer, s.file, id, ch);
    } else {
      var ch := s.mem[id].(digest := Some(h));
      OriginalData(c, s.mem, s.table, s.sent, id);
      DedupPlaces(c, s, p, id, ch, Send(Dedup, t));
      NewDigest(c, s, h);
      OriginalOut(c, s.mem, s.writer, s.file, id, h);
    }
  }

  /** The chunk at the front of one place is changed and put into another. */
  lemma DedupPlaces(c: Config, s: State, p: Place, id: Id, ch: Chunk, to: Place)
    requires PlaceInv(c, s.at, s.mem, s.cutting, s.writer, None) && Get(s.at, p) != [] && id == Get(s.at, p)[0]
    requires forall id :: id in s.mem ==> Exists(Sizes(c), id)
    requires KindOk(ch, KindOf(to))
    ensures PlaceInv(c, Push(Pop(s.at, p), to, id), s.mem[id := ch], s.cutting, s.writer, None)
  {
    hide PlaceInv;
    PopToHand(c, s.at, s.mem, s.cutting, s.writer, p);
    UpdateHand(c, Pop(s.at, p), s.mem, s.cutting, s.writer, id, ch);
    HandToPlace(c, Pop(s.at, p), s.mem[id := ch], s.cutting, s.writer, id, to);
  }

  lemma PackStep(c: Config, s: State, t: nat)
    requires ConfigOk(c) && ChunkInv(c, s) && Enabled(c, s, CompressChunk(t))
    ensures ChunkInv(c, Apply(c, s, CompressChunk(t)))
  {
    hide PlaceInv, DataInv, OutInv, ConfigOk, ChunkOk;
    var p := Recv(Compress, t);
    var id := Get(s.at, p)[0];
    KnownExist(c, s);
    FrontChunk(c, s, p);
    var data := Records.Compress(c.codec, PlanAt(c, id));
    PayloadData(c, s.mem, s.table, s.sent, id, Packed(data));
    DedupPlaces(c, s, p, id, s.mem[id].(payload := Packed(data)), Send(Compress, t));
    PackOut(c, s.mem, s.writer, s.file, id, data);
  }

  lemma ReceiveOut(c: Config, mem: Memory, w: Writer, file: seq<Record>, id: Id)
    requires ConfigOk(c) && OutInv(c, mem, w, file) && w.current.None? && Exists(Sizes(c), id) && !Arrived(w, id)
    ensures OutInv(c, mem, Receive(w, id, IsLastOf(Sizes(c), id)), file)
    ensures forall x :: Arrived(Receive(w, id, IsLastOf(Sizes(c), id)), x) <==> Arrived(w, x) || x == id
  {
    ReceiveKeeps(Sizes(c), w, id);
  }

  lemma TakeStep(c: Config, s: State)
    requires ConfigOk(c) && ChunkInv(c, s) && Enabled(c, s, Take)
    ensures ChunkInv(c, Apply(c, s, Take))
  {
    hide PlaceInv, DataInv, OutInv, ConfigOk, ChunkOk;
    var p := Recv(Reorder, 0);
    var id := Get(s.at, p)[0];
    KnownExist(c, s);
    FrontChunk(c, s, p);
    ReceiveOut(c, s.mem, s.writer, s.file, id);
    PopToHand(c, s.at, s.mem, s.cutting, s.writer, p);
    HandToWriter(c, Pop(s.at, p), s.mem, s.cutting, s.writer,
                 Receive(s.writer, id, IsLastOf(Sizes(c), id)), id);
  }

  /** Flushing the source of a write leaves every chunk in a fitting place. */
  lemma FlushPlaces(c: Config, s: State, o: Id)
    requires PlaceInv(c, s.at, s.mem, s.cutting, s.writer, None)
    requires o in s.mem && KindOk(s.mem[o], Ready) && s.mem[o].payload.Packed? && s.mem[o].isLast.Some?
    ensures PlaceInv(c, s.at, s.mem[o := s.mem[o].(payload := Flushed)], s.cutting, s.writer, None)
  {
    hide Unique, Held, BeingCut, Arrived;
  }

  lemma WriteFlags(c: Config, mem: Memory, table: map<Bytes, Id>, sent: nat, next: Id, id: Id, o: Id)
    requires ConfigOk(c) && DataInv(c, mem, table, sent) && Exists(Sizes(c), id)
    requires next.l1 <= |c.plan| && (next.l1 < |c.plan| ==> next.l2 <= |c.plan[next.l1]|)
    requires id.l1 <= |c.plan| && (id.l1 < |c.plan| ==> id.l2 <= |c.plan[id.l1]|)
    requires Before(c.plan, next) == Before(c.plan, id) + [PlanAt(c, id)]
    requires forall x :: x in mem && mem[x].digest.Some? && mem[x].original.None? ==>
               (mem[x].payload.Flushed? <==> mem[x].digest.value in Digests(c.codec, Before(c.plan, id)))
    requires o in mem && mem[o].original.None? && mem[o].digest == Some(c.codec.sha(PlanAt(c, id)))
    ensures forall x :: x in mem && mem[x].digest.Some? && mem[x].original.None? && x != o ==>
              (mem[x].payload.Flushed? <==> mem[x].digest.value in Digests(c.codec, Before(c.plan, next)))
    ensures mem[o].digest.value in Digests(c.codec, Before(c.plan, next))
  {
    DigestsSnoc(c.codec, Before(c.plan, id), PlanAt(c, id));
    forall x | x in mem && mem[x].digest.Some? && mem[x].original.None? && x != o
      ensures mem[x].digest.value != mem[o].digest.value
    {
      assert ChunkOk(c, table, x, mem[x]) && ChunkOk(c, table, o, mem[o]);
    }
  }

  /** What is written agrees with the chunks that are flushed, once the source o is. */
  lemma WrittenOut(c: Config, mem: Memory, mem': Memory, w: Writer, file: seq<Record>, o: Id)
    requires ConfigOk(c) && SizesOk(Sizes(c)) && WriterOk(Sizes(c), w)
    requires file == RecordsOf(c.codec, {}, Before(c.plan, w.next))
    requires o in mem && mem'.Keys == mem.Keys && mem'[o] == mem[o].(payload := Flushed)
    requires forall x :: x in mem && x != o ==> mem'[x] == mem[x]
    requires forall x :: x in mem && mem[x].digest.Some? && mem[x].original.None? && x != o ==>
               (mem[x].payload.Flushed? <==> mem[x].digest.value in Digests(c.codec, Before(c.plan, w.next)))
    requires mem[o].digest.Some? && mem[o].digest.value in Digests(c.codec, Before(c.plan, w.next))
    ensures OutInv(c, mem', w, file)
  {
    hide ConfigOk, WriterOk, Before, RecordsOf, Digests;
    assert forall x :: x in mem' <==> x in mem;
  }

  /** The source of a write is flushed, and nothing else in memory changes. */
  lemma WriteMemory(c: Config, s: State, o: Id)
    requires ConfigOk(c) && Enabled(c, s, Write) && o == Source(s, s.writer.current.value)
    requires s.mem[o].payload.Packed? || s.mem[o].payload.Flushed?
    ensures var s' := Apply(c, s, Write);
            && s'.writer == Advance(s.writer) && s'.mem.Keys == s.mem.Keys
            && s'.mem[o] == s.mem[o].(payload := Flushed) && forall x :: x in s.mem && x != o ==> s'.mem[x] == s.mem[x]
  {
    hide ConfigOk, Advance, Get, Source;
    assert Apply(c, s, Write) == WriteOut(c, s);
  }

  lemma WriteOutInv(c: Config, s: State)
    requires ConfigOk(c) && ChunkInv(c, s) && Enabled(c, s, Write) && CollisionFree(c.codec, Flatten(c.plan))
    ensures OutInv(c, Apply(c, s, Write).mem, Apply(c, s, Write).writer, Apply(c, s, Write).file)
  {
    hide PlaceInv, DataInv, ConfigOk, ChunkOk, Before, RecordsOf, Digests, Advance, Flatten, Get, After, WriterOk, Apply;
    var id, o, s' := s.writer.next, Source(s, s.writer.next), Apply(c, s, Write);
    WriteSource(c, s);
    AdvanceKeeps(Sizes(c), s.writer);
    BeforeAfter(c, id);
    WriteOutput(c, s);
    WriteFlags(c, s.mem, s.table, s.sent, After(Sizes(c), id), id, o);
    WriteMemory(c, s, o);
    WrittenOut(c, s.mem, s'.mem, s'.writer, s'.file, o);
  }

  lemma WriteStep(c: Config, s: State)
    requires ConfigOk(c) && ChunkInv(c, s) && Enabled(c, s, Write) && CollisionFree(c.codec, Flatten(c.plan))
    ensures ChunkInv(c, Apply(c, s, Write))
  {
    hide PlaceInv, DataInv, OutInv, ConfigOk, ChunkOk;
    WriteOutInv(c, s);
    WritePlaces(c, s);
  }

  lemma WritePlaces(c: Config, s: State)
    requires ConfigOk(c) && ChunkInv(c, s) && Enabled(c, s, Write) && CollisionFree(c.codec, Flatten(c.plan))
    ensures var s' := Apply(c, s, Write);
            PlaceInv(c, s'.at, s'.mem, s'.cutting, s'.writer, None) && DataInv(c, s'.mem, s'.table, s'.sent)
  {
    hide PlaceInv, DataInv, OutInv, ConfigOk, ChunkOk, Advance;
    var o := Source(s, s.writer.next);
    WriteSource(c, s);
    AdvanceArrived(c, s.mem, s.writer, s.file);
    KnownExist(c, s);
    if s.mem[o].payload.Packed? {
      PackedIsCut(c, s, o);
      FlushPlaces(c, s, o);
      PayloadData(c, s.mem, s.table, s.sent, o, Flushed);
    }
    SameArrived(c, s.at, Apply(c, s, Write).mem, s.cutting, s.writer, Advance(s.writer));
  }

  lemma AdvanceArrived(c: Config, mem: Memory, w: Writer, file: seq<Record>)
    requires ConfigOk(c) && OutInv(c, mem, w, file) && w.current.Some?
    ensures forall x :: Exists(Sizes(c), x) ==> (Arrived(Advance(w), x) <==> Arrived(w, x))
  {
    AdvanceKeeps(Sizes(c), w);
  }

  lemma PackedIsCut(c: Config, s: State, o: Id)
    requires ConfigOk(c) && ChunkInv(c, s) && o in s.mem && s.mem[o].digest.Some?
    ensures s.mem[o].isLast.Some?
  {
    assert ChunkOk(c, s.table, o, s.mem[o]);
  }

  lemma SameArrived(c: Config, at: Contents, mem: Memory, cutting: map<nat, Id>, w: Writer, w': Writer)
    requires PlaceInv(c, at, mem, cutting, w, None)
    requires forall id :: id in mem ==> Exists(Sizes(c), id)
    requires forall x :: Exists(Sizes(c), x) ==> (Arrived(w', x) <==> Arrived(w, x))
    ensures PlaceInv(c, at, mem, cutting, w', None)
  {
  }

  /** Every step keeps the invariant. */
  lemma ChunkStep(c: Config, s: State, e: Event)
    requires ConfigOk(c) && ChunkInv(c, s) && Enabled(c, s, e) && CollisionFree(c.codec, Flatten(c.plan))
    ensures ChunkInv(c, Apply(c, s, e))
  {
    hide PlaceInv, DataInv, OutInv, ConfigOk, ChunkOk;
    match e
    case Emit => EmitStep(c, s);
    case Fetch(stage, t) =>
      MoveStep(c, s, Queue(stage, QueueOf(t)), Recv(stage, t),
               MoveCount(s.at, Queue(stage, QueueOf(t)), Recv(stage, t), FetchLimit(stage), FetchLimit(stage)));
    case StartCut(t) => StartCutStep(c, s, t);
    case CutPiece(t) =>
      if c.seg(s.mem[s.cutting[t]].payload.bytes) < |s.mem[s.cutting[t]].payload.bytes| {
        CutSplitStep(c, s, t);
      } else {
        CutLastStep(c, s, t);
      }
    case Deduplicate(t) => DedupStep(c, s, t);
    case CompressChunk(t) => PackStep(c, s, t);
    case Flush(p) =>
      MoveStep(c, s, p, Target(p), MoveCount(s.at, p, Target(p), ITEM_PER_INSERT, QUEUE_SIZE));
    case PollFetch =>
      MoveStep(c, s, Queue(Reorder, s.pollNext), Recv(Reorder, 0),
               MoveCount(s.at, Queue(Reorder, s.pollNext), Recv(Reorder, 0), FetchLimit(Reorder), FetchLimit(Reorder)));
    case Take => TakeStep(c, s);
    case Write => WriteStep(c, s);
    case _ =>
  }
}
