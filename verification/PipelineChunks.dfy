/** What every step of the pipeline keeps about the chunks: their data, where they are, and what has been
    written so far. */
module PipelineChunks {
  import opened Common
  import opened Records
  import opened Ordering
  import opened Places
  import opened Pipeline

  type Memory = map<Id, Chunk>

  function Sizes(c: Config): seq<nat> {
    seq(|c.plan|, a requires 0 <= a < |c.plan| => |c.plan[a]|)
  }

  lemma SizesPositive(c: Config)
    requires ConfigOk(c)
    ensures SizesOk(Sizes(c))
  {
  }

  function PlanAt(c: Config, id: Id): Bytes
    requires Exists(Sizes(c), id)
  {
    c.plan[id.l1][id.l2]
  }

  // ---------------------------------------------------------------- data of one chunk

  ghost predicate DigestOk(c: Config, table: map<Bytes, Id>, id: Id, ch: Chunk)
    requires Exists(Sizes(c), id)
  {
    match ch.digest
    case None => ch.original.None? && ch.payload.Raw?
    case Some(h) =>
      && ch.isLast.Some? && h == c.codec.sha(PlanAt(c, id)) && h in table
      && (ch.original.None? ==> table[h] == id && !ch.payload.Freed?)
      && (ch.original.Some? ==> table[h] == ch.original.value && ch.payload.Freed?)
  }

  ghost predicate ChunkOk(c: Config, table: map<Bytes, Id>, id: Id, ch: Chunk)
    requires ConfigOk(c)
  {
    && Exists(Sizes(c), id)
    && DigestOk(c, table, id, ch)
    && (ch.isLast.None? ==>
          ch.payload.Raw? && ch.payload.bytes != []
          && Chunking.Refine(c.seg, ch.payload.bytes) == c.plan[id.l1][id.l2..])
    && (ch.isLast.Some? ==>
          && ch.isLast.value == IsLastOf(Sizes(c), id)
          && (ch.payload.Raw? ==> ch.payload.bytes == PlanAt(c, id))
          && (ch.payload.Packed? ==> ch.payload.data == Records.Compress(c.codec, PlanAt(c, id))))
  }

  /** Each table entry is the original with that digest. */
  ghost predicate TableOk(mem: Memory, table: map<Bytes, Id>) {
    forall h :: h in table ==>
                  table[h] in mem && mem[table[h]].digest == Some(h) && mem[table[h]].original.None?
  }

  /** Every planned chunk of a coarse chunk that was sent exists already, or is still part of an uncut one. */
  ghost predicate Covered(mem: Memory, id: Id) {
    id in mem || exists x :: x in mem && x.l1 == id.l1 && x.l2 < id.l2 && mem[x].isLast.None?
  }

  ghost predicate ChunksOk(c: Config, mem: Memory, table: map<Bytes, Id>)
    requires ConfigOk(c)
  {
    forall id :: id in mem ==> ChunkOk(c, table, id, mem[id])
  }

  /** Which chunk objects exist: those of the coarse chunks sent, up to the uncut one. */
  ghost predicate ShapeOk(sizes: seq<nat>, mem: Memory, sent: nat) {
    && sent <= |sizes|
    && (forall id :: id in mem ==> Exists(sizes, id) && id.l1 < sent)
    && (forall id :: Exists(sizes, id) && id.l1 < sent ==> Covered(mem, id))
    && (forall x, y :: x in mem && y in mem && x.l1 == y.l1 && mem[x].isLast.None? ==> y.l2 <= x.l2)
  }

  ghost predicate DataInv(c: Config, mem: Memory, table: map<Bytes, Id>, sent: nat)
    requires ConfigOk(c)
  {
    ChunksOk(c, mem, table) && TableOk(mem, table) && ShapeOk(Sizes(c), mem, sent)
  }

  // ---------------------------------------------------------------- where chunks are

  datatype Kind = Whole | Fresh | Original | Ready

  /** What holds of every chunk in a place. */
  function KindOf(p: Place): Kind {
    match p
    case Queue(Refine, _) => Whole
    case Recv(Refine, _) => Whole
    case Send(Refine, _) => Fresh
    case Queue(Dedup, _) => Fresh
    case Recv(Dedup, _) => Fresh
    case Send(Dedup, _) => Original
    case Queue(Compress, _) => Original
    case Recv(Compress, _) => Original
    case _ => Ready
  }

  predicate KindOk(ch: Chunk, k: Kind) {
    match k
    case Whole => ch.isLast.None?
    case Fresh => ch.isLast.Some? && ch.digest.None?
    case Original => ch.digest.Some? && ch.original.None? && ch.payload.Raw?
    case Ready => ch.digest.Some? && (ch.original.Some? || !ch.payload.Raw?)
  }

  ghost predicate AtOk(at: Contents, mem: Memory) {
    && Unique(at)
    && forall p, id :: Has(at, p, id) ==> id in mem && KindOk(mem[id], KindOf(p))
  }

  ghost predicate BeingCut(cutting: map<nat, Id>, id: Id) {
    exists t :: t in cutting && cutting[t] == id
  }

  ghost predicate CuttingOk(at: Contents, mem: Memory, cutting: map<nat, Id>) {
    && (forall t :: t in cutting ==> cutting[t] in mem && mem[cutting[t]].isLast.None? && !Held(at, cutting[t]))
    && (forall t, u :: t in cutting && u in cutting && cutting[t] == cutting[u] ==> t == u)
  }

  ghost predicate ArrivedOk(c: Config, at: Contents, mem: Memory, cutting: map<nat, Id>, w: Writer) {
    forall id :: Exists(Sizes(c), id) && Arrived(w, id) ==>
                   id in mem && KindOk(mem[id], Ready) && !Held(at, id) && !BeingCut(cutting, id)
  }

  ghost predicate Located(at: Contents, mem: Memory, cutting: map<nat, Id>, w: Writer, hand: Option<Id>) {
    forall id :: id in mem ==> Held(at, id) || BeingCut(cutting, id) || Arrived(w, id) || hand == Some(id)
  }

  /** A chunk some thread holds while it works on it is nowhere else. */
  ghost predicate HandOk(at: Contents, mem: Memory, cutting: map<nat, Id>, w: Writer, hand: Option<Id>) {
    hand.Some? ==>
      hand.value in mem && !Held(at, hand.value) && !BeingCut(cutting, hand.value) && !Arrived(w, hand.value)
  }

  /** Every chunk object is in exactly one place and in the condition that place requires. */
  ghost predicate PlaceInv(c: Config, at: Contents, mem: Memory, cutting: map<nat, Id>, w: Writer, hand: Option<Id>) {
    && AtOk(at, mem) && CuttingOk(at, mem, cutting) && ArrivedOk(c, at, mem, cutting, w)
    && Located(at, mem, cutting, w, hand) && HandOk(at, mem, cutting, w, hand)
  }

  // ---------------------------------------------------------------- what is written

  /** The planned chunks before a sequence number, in order. */
  ghost function Before(plan: seq<seq<Bytes>>, id: Id): seq<Bytes>
    requires id.l1 <= |plan| && (id.l1 < |plan| ==> id.l2 <= |plan[id.l1]|)
  {
    if id.l1 == |plan| then Flatten(plan) else Flatten(plan[..id.l1]) + plan[id.l1][..id.l2]
  }

  ghost predicate OutInv(c: Config, mem: Memory, w: Writer, file: seq<Record>)
    requires ConfigOk(c)
  {
    && SizesOk(Sizes(c)) && WriterOk(Sizes(c), w)
    && file == RecordsOf(c.codec, {}, Before(c.plan, w.next))
    && (forall id :: id in mem && mem[id].digest.Some? && mem[id].original.None? ==>
          (mem[id].payload.Flushed? <==> mem[id].digest.value in Digests(c.codec, Before(c.plan, w.next))))
  }

  ghost predicate ChunkInv(c: Config, s: State)
    requires ConfigOk(c)
  {
    && DataInv(c, s.mem, s.table, s.sent)
    && PlaceInv(c, s.at, s.mem, s.cutting, s.writer, None)
    && OutInv(c, s.mem, s.writer, s.file)
  }

  lemma InitialChunkInv(c: Config)
    requires ConfigOk(c)
    ensures ChunkInv(c, INITIAL)
  {
    SizesPositive(c);
    BeforeStart(c.plan);
    InitialPlaces(c);
  }

  lemma InitialPlaces(c: Config)
    ensures PlaceInv(c, map[], map[], map[], INITIAL_WRITER, None)
  {
    assert forall p :: Get(map[], p) == [];
  }

  lemma BeforeStart(plan: seq<seq<Bytes>>)
    ensures Before(plan, Id(0, 0)) == []
  {
    if |plan| > 0 {
      assert plan[..0] == [] && plan[0][..0] == [];
    }
  }

  // ---------------------------------------------------------------- moves between places

  lemma MoveStep(c: Config, s: State, from: Place, to: Place, k: nat)
    requires ConfigOk(c) && ChunkInv(c, s)
    requires from != to && k <= |Get(s.at, from)| && KindOf(from) == KindOf(to)
    ensures ChunkInv(c, s.(at := Move(s.at, from, to, k)))
  {
    hide DataInv, PlaceInv, OutInv, ConfigOk, Move;
    MovePlaces(c, s.at, s.mem, s.cutting, s.writer, from, to, k);
  }

  lemma MovePlaces(c: Config, at: Contents, mem: Memory, cutting: map<nat, Id>, w: Writer, from: Place, to: Place, k: nat)
    requires PlaceInv(c, at, mem, cutting, w, None)
    requires from != to && k <= |Get(at, from)| && KindOf(from) == KindOf(to)
    ensures PlaceInv(c, Move(at, from, to, k), mem, cutting, w, None)
  {
    hide Move, Unique, Get;
    MoveKeeps(at, from, to, k);
  }

  /** A thread takes the first chunk of a place. */
  lemma PopToHand(c: Config, at: Contents, mem: Memory, cutting: map<nat, Id>, w: Writer, p: Place)
    requires PlaceInv(c, at, mem, cutting, w, None) && Get(at, p) != []
    requires forall id :: id in mem ==> Exists(Sizes(c), id)
    ensures PlaceInv(c, Pop(at, p), mem, cutting, w, Some(Get(at, p)[0]))
    ensures KindOk(mem[Get(at, p)[0]], KindOf(p))
  {
    var id := Get(at, p)[0];
    assert Has(at, p, id);
    assert Held(at, id);
    PopKeeps(at, p);
  }

  /** A refining thread takes the chunk it is cutting. */
  lemma CutToHand(c: Config, at: Contents, mem: Memory, cutting: map<nat, Id>, w: Writer, t: nat)
    requires PlaceInv(c, at, mem, cutting, w, None) && t in cutting
    requires forall id :: id in mem ==> Exists(Sizes(c), id)
    ensures PlaceInv(c, at, mem, cutting - {t}, w, Some(cutting[t]))
  {
    var id, cutting' := cutting[t], cutting - {t};
    assert BeingCut(cutting, id);
    forall x
      ensures BeingCut(cutting', x) <==> BeingCut(cutting, x) && x != id
    {
      if BeingCut(cutting, x) && x != id {
        var u :| u in cutting && cutting[u] == x;
        assert u in cutting' && cutting'[u] == x;
      }
    }
  }

  /** The thread changes its chunk. */
  lemma UpdateHand(c: Config, at: Contents, mem: Memory, cutting: map<nat, Id>, w: Writer, id: Id, ch: Chunk)
    requires PlaceInv(c, at, mem, cutting, w, Some(id))
    ensures PlaceInv(c, at, mem[id := ch], cutting, w, Some(id))
  {
    forall p, x | Has(at, p, x)
      ensures x != id
    {
      assert Held(at, x);
    }
    forall t | t in cutting
      ensures cutting[t] != id
    {
      assert BeingCut(cutting, cutting[t]);
    }
  }

  /** A new chunk object. */
  lemma CreateInHand(c: Config, at: Contents, mem: Memory, cutting: map<nat, Id>, w: Writer, id: Id, ch: Chunk)
    requires PlaceInv(c, at, mem, cutting, w, None) && id !in mem && Exists(Sizes(c), id)
    ensures PlaceInv(c, at, mem[id := ch], cutting, w, Some(id))
  {
    assert !Held(at, id);
    assert !BeingCut(cutting, id);
  }

  /** The thread puts its chunk at the end of a place. */
  lemma HandToPlace(c: Config, at: Contents, mem: Memory, cutting: map<nat, Id>, w: Writer, id: Id, p: Place)
    requires PlaceInv(c, at, mem, cutting, w, Some(id)) && KindOk(mem[id], KindOf(p))
    ensures PlaceInv(c, Push(at, p, id), mem, cutting, w, None)
  {
    PushKeeps(at, p, id);
    forall t | t in cutting
      ensures cutting[t] != id
    {
      assert BeingCut(cutting, cutting[t]);
    }
  }

  /** A refining thread goes on with its chunk. */
  lemma HandToCutting(c: Config, at: Contents, mem: Memory, cutting: map<nat, Id>, w: Writer, id: Id, t: nat)
    requires PlaceInv(c, at, mem, cutting, w, Some(id)) && mem[id].isLast.None? && t !in cutting
    ensures PlaceInv(c, at, mem, cutting[t := id], w, None)
  {
    var cutting' := cutting[t := id];
    assert cutting'[t] == id;
    forall x
      ensures BeingCut(cutting', x) <==> BeingCut(cutting, x) || x == id
    {
      if BeingCut(cutting, x) {
        var u :| u in cutting && cutting[u] == x;
        assert cutting'[u] == x;
      }
      assert t in cutting';
    }
    forall u | u in cutting
      ensures cutting[u] != id
    {
      assert BeingCut(cutting, cutting[u]);
    }
  }

  /** Reorder receives the chunk. */
  lemma HandToWriter(c: Config, at: Contents, mem: Memory, cutting: map<nat, Id>, w: Writer, w': Writer, id: Id)
    requires PlaceInv(c, at, mem, cutting, w, Some(id)) && KindOk(mem[id], Ready)
    requires forall x :: Arrived(w', x) <==> Arrived(w, x) || x == id
    ensures PlaceInv(c, at, mem, cutting, w', None)
  {
  }
}
