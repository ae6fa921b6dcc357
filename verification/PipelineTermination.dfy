/** Every run of the parallel pipeline ends: each step moves a chunk towards the file or shuts something down. Together
    with PipelineProgress, every run on a small input can be continued to a complete one. */
module PipelineTermination {
  import opened Common
  import opened Ordering
  import opened Places
  import opened Pipeline
  import opened PipelineChunks
  import opened PipelineSteps
  import opened PipelineShutdown
  import opened PipelineTheorem
  import opened PipelineProgress

  // ---------------------------------------------------------------- how far a chunk is from the file

  function Level(p: Place): nat {
    match p
    case Queue(Refine, _) => 13
    case Recv(Refine, _) => 12
    case Send(Refine, _) => 10
    case Queue(Dedup, _) => 9
    case Recv(Dedup, _) => 8
    case Send(Dedup, _) => 7
    case Queue(Compress, _) => 6
    case Recv(Compress, _) => 5
    case Queue(Reorder, _) => 3
    case Recv(Reorder, _) => 2
    case _ => 4
  }

  const CUTTING: nat := 11
  const MISSING: nat := 14

  ghost function LevelIn(at: Contents, id: Id): nat {
    if p :| Has(at, p, id) then Level(p) else 0
  }

  /** How many places a chunk still has to pass. */
  ghost function Rank(s: State, id: Id): nat {
    if id !in s.mem then MISSING
    else if Arrived(s.writer, id) then (if Less(id, s.writer.next) then 0 else 1)
    else if BeingCut(s.cutting, id) then CUTTING
    else LevelIn(s.at, id)
  }

  ghost function RankSum(s: State, ids: seq<Id>): nat {
    if ids == [] then 0 else Rank(s, ids[0]) + RankSum(s, ids[1..])
  }

  lemma {:induction false} RankBound(s: State, ids: seq<Id>)
    ensures RankSum(s, ids) <= MISSING * |ids|
  {
    if ids != [] {
      RankBound(s, ids[1..]);
    }
  }

  /** No chunk moves away from the file. */
  ghost predicate Sinks(s: State, s': State, ids: seq<Id>) {
    forall id :: id in ids ==> Rank(s', id) <= Rank(s, id)
  }

  lemma {:induction false} SumSinks(s: State, s': State, ids: seq<Id>)
    requires Sinks(s, s', ids)
    ensures RankSum(s', ids) <= RankSum(s, ids)
    decreases |ids|
  {
    hide Rank;
    if ids != [] {
      assert ids[0] in ids && forall id :: id in ids[1..] ==> id in ids;
      SumSinks(s, s', ids[1..]);
    }
  }

  lemma {:induction false} SumFalls(s: State, s': State, ids: seq<Id>, x: Id)
    requires Sinks(s, s', ids) && x in ids && Rank(s', x) < Rank(s, x)
    ensures RankSum(s', ids) < RankSum(s, ids)
    decreases |ids|
  {
    hide Rank;
    assert ids[0] in ids && forall id :: id in ids[1..] ==> id in ids;
    if x == ids[0] {
      SumSinks(s, s', ids[1..]);
    } else {
      SumFalls(s, s', ids[1..], x);
    }
  }

  // ---------------------------------------------------------------- ranks of chunks in known positions

  lemma RankAt(c: Config, s: State, p: Place, id: Id)
    requires ConfigOk(c) && ChunkInv(c, s) && Has(s.at, p, id)
    ensures Exists(Sizes(c), id) && id in s.mem && Rank(s, id) == Level(p)
    ensures !Arrived(s.writer, id) && !BeingCut(s.cutting, id)
  {
    hide DigestOk, OutInv, Located, Level, Arrived;
    assert Held(s.at, id);
    assert ChunkOk(c, s.table, id, s.mem[id]);
    OnePlace(s.at, p, id);
  }

  lemma OnePlace(at: Contents, p: Place, id: Id)
    requires Unique(at) && Has(at, p, id)
    ensures LevelIn(at, id) == Level(p)
  {
    hide Level;
    forall q | Has(at, q, id)
      ensures q == p
    {
      var i :| 0 <= i < |Get(at, p)| && Get(at, p)[i] == id;
      var j :| 0 <= j < |Get(at, q)| && Get(at, q)[j] == id;
    }
  }

  lemma RankCutting(c: Config, s: State, t: nat)
    requires ConfigOk(c) && ChunkInv(c, s) && t in s.cutting
    ensures var id := s.cutting[t]; Exists(Sizes(c), id) && id in s.mem && Rank(s, id) == CUTTING
  {
    hide DigestOk, OutInv, Located, Arrived;
    var id := s.cutting[t];
    assert BeingCut(s.cutting, id);
    assert ChunkOk(c, s.table, id, s.mem[id]);
  }

  /** A chunk that is where it was. */
  lemma SameRank(c: Config, s: State, s': State, id: Id)
    requires ConfigOk(c) && ChunkInv(c, s) && ChunkInv(c, s')
    requires id in s.mem <==> id in s'.mem
    requires Arrived(s.writer, id) <==> Arrived(s'.writer, id)
    requires Less(id, s.writer.next) <==> Less(id, s'.writer.next)
    requires BeingCut(s.cutting, id) <==> BeingCut(s'.cutting, id)
    requires forall p :: Has(s.at, p, id) <==> Has(s'.at, p, id)
    ensures Rank(s', id) == Rank(s, id)
  {
    hide ConfigOk, ChunkInv, Level, Arrived, Less, BeingCut;
    if p :| Has(s.at, p, id) {
      RankAt(c, s, p, id);
      RankAt(c, s', p, id);
    }
  }

  // ---------------------------------------------------------------- moves between places

  lemma MoveSinks(c: Config, s: State, s': State, from: Place, to: Place, k: nat, ids: seq<Id>)
    requires ConfigOk(c) && ChunkInv(c, s) && ChunkInv(c, s') && CompleteOrder(Sizes(c), ids)
    requires from != to && 0 < k <= |Get(s.at, from)| && Level(to) < Level(from)
    requires s'.at == Move(s.at, from, to, k)
    requires s'.mem == s.mem && s'.writer == s.writer && s'.cutting == s.cutting
    ensures RankSum(s', ids) < RankSum(s, ids)
  {
    hide ConfigOk, ChunkInv, Level, Move, Rank;
    forall id | id in ids
      ensures Rank(s', id) <= Rank(s, id)
    {
      MovedRank(c, s, s', from, to, k, id);
    }
    var x := Get(s.at, from)[0];
    FirstMoved(s.at, from, to, k);
    RankAt(c, s, from, x);
    RankAt(c, s', to, x);
    SumFalls(s, s', ids, x);
  }

  lemma FirstMoved(at: Contents, from: Place, to: Place, k: nat)
    requires from != to && 0 < k <= |Get(at, from)|
    ensures var x := Get(at, from)[0]; Has(at, from, x) && Has(Move(at, from, to, k), to, x)
  {
    assert Get(Move(at, from, to, k), to)[|Get(at, to)|] == Get(at, from)[0];
  }

  lemma MovedRank(c: Config, s: State, s': State, from: Place, to: Place, k: nat, id: Id)
    requires ConfigOk(c) && ChunkInv(c, s) && ChunkInv(c, s')
    requires from != to && k <= |Get(s.at, from)| && Level(to) < Level(from)
    requires s'.at == Move(s.at, from, to, k)
    requires s'.mem == s.mem && s'.writer == s.writer && s'.cutting == s.cutting
    ensures Rank(s', id) <= Rank(s, id)
  {
    hide ConfigOk, ChunkInv, Level, Move, Arrived, BeingCut, Has;
    MoveHeld(s.at, from, to, k, id);
    if p :| Has(s'.at, p, id) {
      MoveMembers(s.at, from, to, k, p, id);
      RankAt(c, s', p, id);
      if Has(s.at, p, id) {
        RankAt(c, s, p, id);
      } else {
        RankAt(c, s, from, id);
      }
    }
  }

  // ---------------------------------------------------------------- work on one chunk

  /** Everything about a chunk other than x is as it was. */
  ghost predicate Untouched(s: State, s': State, id: Id) {
    && (id in s.mem <==> id in s'.mem)
    && (Arrived(s.writer, id) <==> Arrived(s'.writer, id))
    && (Less(id, s.writer.next) <==> Less(id, s'.writer.next))
    && (BeingCut(s.cutting, id) <==> BeingCut(s'.cutting, id))
    && forall p :: Has(s.at, p, id) <==> Has(s'.at, p, id)
  }

  lemma OneSinks(c: Config, s: State, s': State, ids: seq<Id>, x: Id)
    requires ConfigOk(c) && ChunkInv(c, s) && ChunkInv(c, s') && CompleteOrder(Sizes(c), ids)
    requires Exists(Sizes(c), x) && Rank(s', x) < Rank(s, x)
    requires forall id :: id != x ==> Untouched(s, s', id) || Rank(s', id) <= Rank(s, id)
    ensures RankSum(s', ids) < RankSum(s, ids)
  {
    hide ConfigOk, ChunkInv, Rank;
    forall id | id in ids
      ensures Rank(s', id) <= Rank(s, id)
    {
      if id != x && Untouched(s, s', id) {
        SameRank(c, s, s', id);
      }
    }
    SumFalls(s, s', ids, x);
  }

  lemma PopOnly(at: Contents, from: Place)
    requires Get(at, from) != []
    ensures Has(at, from, Get(at, from)[0])
    ensures forall p, id :: id != Get(at, from)[0] ==> (Has(at, p, id) <==> Has(Pop(at, from), p, id))
  {
    assert Get(at, from) == [Get(at, from)[0]] + Get(at, from)[1..];
  }

  lemma PushOnly(at: Contents, to: Place, x: Id)
    ensures Has(Push(at, to, x), to, x)
    ensures forall p, id :: id != x ==> (Has(at, p, id) <==> Has(Push(at, to, x), p, id))
  {
    assert Get(Push(at, to, x), to)[|Get(at, to)|] == x;
  }

  /** The first chunk of a place goes to the end of another one. */
  lemma PopPush(at: Contents, from: Place, to: Place)
    requires from != to && Get(at, from) != []
    ensures var x, at' := Get(at, from)[0], Push(Pop(at, from), to, Get(at, from)[0]);
            && Has(at, from, x) && Has(at', to, x)
            && forall p, id :: id != x ==> (Has(at, p, id) <==> Has(at', p, id))
  {
    hide Has, Get, Pop, Push;
    PopOnly(at, from);
    PushOnly(Pop(at, from), to, Get(at, from)[0]);
  }

  // ---------------------------------------------------------------- each step that moves chunks

  /** States before and after a step, both with the chunks in order. */
  ghost predicate GoodStep(c: Config, s: State, e: Event, ids: seq<Id>)
    requires ConfigOk(c)
  {
    CompleteOrder(Sizes(c), ids) && ChunkInv(c, s) && Enabled(c, s, e) && ChunkInv(c, Apply(c, s, e))
  }

  lemma EmitFalls(c: Config, s: State, ids: seq<Id>)
    requires ConfigOk(c) && GoodStep(c, s, Emit, ids)
    ensures RankSum(Apply(c, s, Emit), ids) < RankSum(s, ids)
  {
    hide ConfigOk, ChunkInv, CompleteOrder, Arrived, Less;
    var s', x, q := Apply(c, s, Emit), Id(s.sent, 0), Queue(Refine, s.sendTo);
    NewAtEmit(c, s);
    PushOnly(s.at, q, x);
    RankAt(c, s', q, x);
    OneSinks(c, s, s', ids, x);
  }

  lemma NewAtEmit(c: Config, s: State)
    requires ConfigOk(c) && ChunkInv(c, s)
    ensures Id(s.sent, 0) !in s.mem
  {
  }

  lemma FetchFalls(c: Config, s: State, stage: Stage, t: nat, ids: seq<Id>)
    requires ConfigOk(c) && GoodStep(c, s, Fetch(stage, t), ids)
    ensures RankSum(Apply(c, s, Fetch(stage, t)), ids) < RankSum(s, ids)
  {
    hide ConfigOk, ChunkInv, CompleteOrder, Move;
    var from, to, limit := Queue(stage, QueueOf(t)), Recv(stage, t), FetchLimit(stage);
    MoveSinks(c, s, Apply(c, s, Fetch(stage, t)), from, to, MoveCount(s.at, from, to, limit, limit), ids);
  }

  lemma PollFetchFalls(c: Config, s: State, ids: seq<Id>)
    requires ConfigOk(c) && GoodStep(c, s, PollFetch, ids)
    ensures RankSum(Apply(c, s, PollFetch), ids) < RankSum(s, ids)
  {
    hide ConfigOk, ChunkInv, CompleteOrder, Move;
    var from, to, limit := Queue(Reorder, s.pollNext), Recv(Reorder, 0), FetchLimit(Reorder);
    MoveSinks(c, s, Apply(c, s, PollFetch), from, to, MoveCount(s.at, from, to, limit, limit), ids);
  }

  lemma FlushFalls(c: Config, s: State, p: Place, ids: seq<Id>)
    requires ConfigOk(c) && GoodStep(c, s, Flush(p), ids)
    ensures RankSum(Apply(c, s, Flush(p)), ids) < RankSum(s, ids)
  {
    hide ConfigOk, ChunkInv, CompleteOrder, Move;
    MoveSinks(c, s, Apply(c, s, Flush(p)), p, Target(p), MoveCount(s.at, p, Target(p), ITEM_PER_INSERT, QUEUE_SIZE), ids);
  }

  lemma StartCutFalls(c: Config, s: State, t: nat, ids: seq<Id>)
    requires ConfigOk(c) && GoodStep(c, s, StartCut(t), ids)
    ensures RankSum(Apply(c, s, StartCut(t)), ids) < RankSum(s, ids)
  {
    hide ConfigOk, ChunkInv, CompleteOrder, Arrived, Less, Pop, Get;
    var s', p := Apply(c, s, StartCut(t)), Recv(Refine, t);
    var x := Get(s.at, p)[0];
    PopOnly(s.at, p);
    RankAt(c, s, p, x);
    RankCutting(c, s', t);
    CuttingMore(s.cutting, t, x);
    OneSinks(c, s, s', ids, x);
  }

  lemma CuttingMore(cutting: map<nat, Id>, t: nat, x: Id)
    requires t !in cutting
    ensures forall id :: id != x ==> (BeingCut(cutting, id) <==> BeingCut(cutting[t := x], id))
  {
    forall id | id != x && BeingCut(cutting, id)
      ensures BeingCut(cutting[t := x], id)
    {
      var u :| u in cutting && cutting[u] == id;
      assert cutting[t := x][u] == id;
    }
  }

  lemma CuttingLess(cutting: map<nat, Id>, t: nat)
    requires t in cutting
    ensures forall id :: id != cutting[t] ==> (BeingCut(cutting, id) <==> BeingCut(cutting - {t}, id))
  {
    forall id | id != cutting[t] && BeingCut(cutting, id)
      ensures BeingCut(cutting - {t}, id)
    {
      var u :| u in cutting && cutting[u] == id;
      assert u in cutting - {t};
    }
  }

  lemma CutFalls(c: Config, s: State, t: nat, ids: seq<Id>)
    requires ConfigOk(c) && GoodStep(c, s, CutPiece(t), ids)
    ensures RankSum(Apply(c, s, CutPiece(t)), ids) < RankSum(s, ids)
  {
    hide ConfigOk, ChunkInv, CompleteOrder, Arrived, Less, Push, Get, Rank, Apply, BeingCut;
    var s', p, x := Apply(c, s, CutPiece(t)), Send(Refine, t), s.cutting[t];
    CutShape(c, s, t);
    CutChunk(c, s, t);
    PushOnly(s.at, p, x);
    RankCutting(c, s, t);
    RankAt(c, s', p, x);
    CuttingLess(s.cutting, t);
    if t in s'.cutting {
      var temp := Id(x.l1, x.l2 + 1);
      NewPiece(c, s, x);
      MissingRank(s, temp);
      RankCutting(c, s', t);
      CuttingMore(s.cutting - {t}, t, temp);
    }
    OneSinks(c, s, s', ids, x);
  }

  lemma CutShape(c: Config, s: State, t: nat)
    requires ConfigOk(c) && Enabled(c, s, CutPiece(t))
    ensures var s', x := Apply(c, s, CutPiece(t)), s.cutting[t];
            var temp := Id(x.l1, x.l2 + 1);
            && s'.writer == s.writer && s'.at == Push(s.at, Send(Refine, t), x)
            && if t in s'.cutting then s'.cutting == (s.cutting - {t})[t := temp] && s'.mem.Keys == s.mem.Keys + {temp}
               else s'.cutting == s.cutting - {t} && s'.mem.Keys == s.mem.Keys
  {
    hide ConfigOk, Get, Push, HasRoom;
    assert Apply(c, s, CutPiece(t)) == Cut(c, s, t);
    CutMaps(c, s, t);
  }

  lemma CutMaps(c: Config, s: State, t: nat)
    requires ConfigOk(c) && Enabled(c, s, CutPiece(t))
    ensures var s', x := Cut(c, s, t), s.cutting[t];
            var temp := Id(x.l1, x.l2 + 1);
            && s'.writer == s.writer && s'.at == Push(s.at, Send(Refine, t), x)
            && if t in s'.cutting then s'.cutting == (s.cutting - {t})[t := temp] && s'.mem.Keys == s.mem.Keys + {temp}
               else s'.cutting == s.cutting - {t} && s'.mem.Keys == s.mem.Keys
  {
    hide ConfigOk, Get, Push, HasRoom, IsWorker;
    assert s.cutting[t := Id(s.cutting[t].l1, s.cutting[t].l2 + 1)]
        == (s.cutting - {t})[t := Id(s.cutting[t].l1, s.cutting[t].l2 + 1)];
  }

  lemma MissingRank(s: State, id: Id)
    requires id !in s.mem
    ensures Rank(s, id) == MISSING
  {
  }

  /** The number after a chunk being cut is not in use. */
  lemma NewPiece(c: Config, s: State, x: Id)
    requires ConfigOk(c) && ChunkInv(c, s) && x in s.mem && s.mem[x].isLast.None?
    ensures Id(x.l1, x.l2 + 1) !in s.mem
  {
    hide PlaceInv, OutInv, ChunkOk;
  }

  lemma DedupFalls(c: Config, s: State, t: nat, ids: seq<Id>)
    requires ConfigOk(c) && GoodStep(c, s, Event.Deduplicate(t), ids)
    ensures RankSum(Apply(c, s, Event.Deduplicate(t)), ids) < RankSum(s, ids)
  {
    hide ConfigOk, ChunkInv, CompleteOrder, Arrived, Less, Get, Pop, Push, Apply;
    var s', from := Apply(c, s, Event.Deduplicate(t)), Recv(Dedup, t);
    var x := Get(s.at, from)[0];
    var to := if c.codec.sha(s.mem[x].payload.bytes) in s.table then SendDup(t) else Send(Dedup, t);
    DedupShape(c, s, t, x, to);
    PopPush(s.at, from, to);
    RankAt(c, s, from, x);
    RankAt(c, s', to, x);
    OneSinks(c, s, s', ids, x);
  }

  lemma DedupShape(c: Config, s: State, t: nat, x: Id, to: Place)
    requires ConfigOk(c) && Enabled(c, s, Event.Deduplicate(t)) && x == Get(s.at, Recv(Dedup, t))[0]
    requires to == if c.codec.sha(s.mem[x].payload.bytes) in s.table then SendDup(t) else Send(Dedup, t)
    ensures var s' := Apply(c, s, Event.Deduplicate(t));
            && s'.writer == s.writer && s'.at == Push(Pop(s.at, Recv(Dedup, t)), to, x)
            && s'.cutting == s.cutting && s'.mem.Keys == s.mem.Keys
  {
    hide ConfigOk;
  }

  lemma PackFalls(c: Config, s: State, t: nat, ids: seq<Id>)
    requires ConfigOk(c) && GoodStep(c, s, CompressChunk(t), ids)
    ensures RankSum(Apply(c, s, CompressChunk(t)), ids) < RankSum(s, ids)
  {
    hide ConfigOk, ChunkInv, CompleteOrder, Arrived, Less, Get, Pop, Push;
    var s', from, to := Apply(c, s, CompressChunk(t)), Recv(Compress, t), Send(Compress, t);
    var x := Get(s.at, from)[0];
    PopPush(s.at, from, to);
    RankAt(c, s, from, x);
    RankAt(c, s', to, x);
    OneSinks(c, s, s', ids, x);
  }

  lemma TakeFalls(c: Config, s: State, ids: seq<Id>)
    requires ConfigOk(c) && GoodStep(c, s, Take, ids)
    ensures RankSum(Apply(c, s, Take), ids) < RankSum(s, ids)
  {
    hide ConfigOk, ChunkInv, CompleteOrder, Get, Pop;
    var s', from := Apply(c, s, Take), Recv(Reorder, 0);
    var x := Get(s.at, from)[0];
    PopOnly(s.at, from);
    RankAt(c, s, from, x);
    OneSinks(c, s, s', ids, x);
  }

  lemma WriteFalls(c: Config, s: State, ids: seq<Id>)
    requires ConfigOk(c) && GoodStep(c, s, Write, ids)
    ensures RankSum(Apply(c, s, Write), ids) < RankSum(s, ids)
  {
    hide ConfigOk, ChunkInv, Advance, Rank, Exists, Apply, WriterOk;
    var s', x := Apply(c, s, Write), s.writer.next;
    WriteShape(c, s);
    CurrentKnown(c, s);
    NextIsCurrent(c, s);
    forall id | id in ids
      ensures Rank(s', id) <= Rank(s, id)
    {
      AdvancedRank(Sizes(c), s, s', id);
    }
    AdvancedRank(Sizes(c), s, s', x);
    SumFalls(s, s', ids, x);
  }

  lemma WriteShape(c: Config, s: State)
    requires ConfigOk(c) && Enabled(c, s, Write)
    ensures var s' := Apply(c, s, Write);
            s'.writer == Advance(s.writer) && s'.mem.Keys == s.mem.Keys && s'.at == s.at && s'.cutting == s.cutting
  {
    hide ConfigOk, Advance;
    assert Apply(c, s, Write) == WriteOut(c, s);
    WriteMaps(c, s);
  }

  lemma WriteMaps(c: Config, s: State)
    requires ConfigOk(c) && Enabled(c, s, Write)
    ensures var s' := WriteOut(c, s);
            s'.writer == Advance(s.writer) && s'.mem.Keys == s.mem.Keys && s'.at == s.at && s'.cutting == s.cutting
  {
    hide ConfigOk, Advance, Source;
    var o := Source(s, s.writer.current.value);
    KeysSame(s.mem, o, s.mem[o].(payload := Flushed));
  }

  lemma KeysSame(mem: Memory, id: Id, ch: Chunk)
    requires id in mem
    ensures mem[id := ch].Keys == mem.Keys
  {
  }

  lemma NextIsCurrent(c: Config, s: State)
    requires ConfigOk(c) && ChunkInv(c, s) && s.writer.current.Some?
    ensures s.writer.current == Some(s.writer.next) && Exists(Sizes(c), s.writer.next)
    ensures SizesOk(Sizes(c)) && WriterOk(Sizes(c), s.writer)
  {
  }

  /** Writing moves nothing but the chunk whose turn it was. */
  lemma AdvancedRank(sizes: seq<nat>, s: State, s': State, id: Id)
    requires SizesOk(sizes) && WriterOk(sizes, s.writer) && s.writer.current.Some? && Exists(sizes, id)
    requires s'.writer == Advance(s.writer) && s'.mem.Keys == s.mem.Keys
    requires s'.at == s.at && s'.cutting == s.cutting
    ensures Rank(s', id) <= Rank(s, id)
    ensures id == s.writer.next && id in s.mem ==> Rank(s', id) < Rank(s, id)
  {
    AdvanceKeeps(sizes, s.writer);
    hide WriterOk, Advance, LevelIn;
    NextArrived(s.writer);
    AfterNext(sizes, s.writer.next, id);
  }

  lemma NextArrived(w: Writer)
    ensures w.current == Some(w.next) ==> Arrived(w, w.next) && !Less(w.next, w.next)
  {
  }

  lemma AfterNext(sizes: seq<nat>, next: Id, id: Id)
    requires Exists(sizes, next) && Exists(sizes, id)
    ensures Less(id, After(sizes, next)) <==> Less(id, next) || id == next
  {
  }

  lemma DataFalls(c: Config, s: State, e: Event, ids: seq<Id>)
    requires ConfigOk(c) && GoodStep(c, s, e, ids)
    requires !e.CloseRefine? && !e.EndOfInput? && !e.Close? && !e.PollEmpty?
    ensures RankSum(Apply(c, s, e), ids) < RankSum(s, ids)
  {
    hide ConfigOk, GoodStep, Apply;
    match e
    case Emit => EmitFalls(c, s, ids);
    case Fetch(stage, t) => FetchFalls(c, s, stage, t, ids);
    case StartCut(t) => StartCutFalls(c, s, t, ids);
    case CutPiece(t) => CutFalls(c, s, t, ids);
    case Deduplicate(t) => DedupFalls(c, s, t, ids);
    case CompressChunk(t) => PackFalls(c, s, t, ids);
    case Flush(p) => FlushFalls(c, s, p, ids);
    case PollFetch => PollFetchFalls(c, s, ids);
    case Take => TakeFalls(c, s, ids);
    case Write => WriteFalls(c, s, ids);
  }

  // ---------------------------------------------------------------- shutdown

  function PhaseLeft(p: Phase): nat {
    match p
    case Running => 2
    case Draining => 1
    case Done => 0
  }

  /** The phase changes that the first n threads of a stage have ahead. */
  function PhasesLeft(s: State, stage: Stage, n: nat): nat {
    if n == 0 then 0 else PhasesLeft(s, stage, n - 1) + PhaseLeft(PhaseOf(s, stage, n - 1))
  }

  lemma {:induction false} PhasesBound(s: State, stage: Stage, n: nat)
    ensures PhasesLeft(s, stage, n) <= 2 * n
  {
    if n > 0 {
      PhasesBound(s, stage, n - 1);
    }
  }

  /** Only the phase of one thread changes. */
  lemma {:induction false} PhaseStep(s: State, s': State, stage: Stage, t: nat, p: Phase, other: Stage, n: nat)
    requires s'.phases == s.phases[Worker(stage, t) := p] && PhaseLeft(p) < PhaseLeft(PhaseOf(s, stage, t))
    ensures PhasesLeft(s', other, n) + (if other == stage && t < n then 1 else 0) <= PhasesLeft(s, other, n)
    decreases n
  {
    if n > 0 {
      PhaseStep(s, s', stage, t, p, other, n - 1);
    }
  }

  lemma {:induction false} SamePhases(s: State, s': State, stage: Stage, n: nat)
    requires s'.phases == s.phases
    ensures PhasesLeft(s', stage, n) == PhasesLeft(s, stage, n)
  {
    if n > 0 {
      SamePhases(s, s', stage, n - 1);
    }
  }

  function AllPhasesLeft(s: State, n: nat): nat {
    PhasesLeft(s, Refine, n) + PhasesLeft(s, Dedup, n) + PhasesLeft(s, Compress, n)
  }

  lemma PhaseFalls(s: State, s': State, stage: Stage, t: nat, p: Phase, n: nat)
    requires s'.phases == s.phases[Worker(stage, t) := p] && PhaseLeft(p) < PhaseLeft(PhaseOf(s, stage, t))
    requires !stage.Reorder? && t < n
    ensures AllPhasesLeft(s', n) < AllPhasesLeft(s, n)
  {
    PhaseStep(s, s', stage, t, p, Refine, n);
    PhaseStep(s, s', stage, t, p, Dedup, n);
    PhaseStep(s, s', stage, t, p, Compress, n);
  }

  lemma AllSamePhases(s: State, s': State, n: nat)
    requires s'.phases == s.phases
    ensures AllPhasesLeft(s', n) == AllPhasesLeft(s, n)
  {
    SamePhases(s, s', Refine, n);
    SamePhases(s, s', Dedup, n);
    SamePhases(s, s', Compress, n);
  }

  /** Queues to terminate, threads to stop, and polls until Reorder stops. */
  function ControlLeft(c: Config, s: State): nat {
    Minus(NumQueues(c.nthreads), s.closed) + AllPhasesLeft(s, c.nthreads) + Minus(NumQueues(c.nthreads), s.polled)
  }

  /** A successful poll starts the count of polls again. */
  lemma DataControl(c: Config, s: State, e: Event)
    requires ConfigOk(c) && Enabled(c, s, e)
    requires !e.CloseRefine? && !e.EndOfInput? && !e.Close? && !e.PollEmpty?
    ensures ControlLeft(c, Apply(c, s, e)) <= ControlLeft(c, s) + NumQueues(c.nthreads)
  {
    hide ConfigOk, AllPhasesLeft, NumQueues;
    DataFields(c, s, e);
    AllSamePhases(s, Apply(c, s, e), c.nthreads);
  }

  lemma DataFields(c: Config, s: State, e: Event)
    requires ConfigOk(c) && Enabled(c, s, e)
    requires !e.CloseRefine? && !e.EndOfInput? && !e.Close? && !e.PollEmpty?
    ensures var s' := Apply(c, s, e);
            s'.phases == s.phases && s'.closed == s.closed && (s'.polled == s.polled || s'.polled == 0)
  {
    hide ConfigOk, NumQueues, Transfer, Receive, Advance, Push, Pop, Get, Source, HasRoom, HasWork, Hungry, Cut, Dedupe,
         Pack, WriteOut;
    match e
    case CutPiece(t) => WorkFields(c, s, t);
    case Deduplicate(t) => WorkFields(c, s, t);
    case CompressChunk(t) => WorkFields(c, s, t);
    case Write => WorkFields(c, s, 0);
    case _ =>
  }

  ghost predicate SameFields(s: State, s': State) {
    s'.phases == s.phases && s'.closed == s.closed && s'.polled == s.polled
  }

  lemma WorkFields(c: Config, s: State, t: nat)
    requires ConfigOk(c)
    ensures Enabled(c, s, CutPiece(t)) ==> SameFields(s, Cut(c, s, t))
    ensures Enabled(c, s, Event.Deduplicate(t)) ==> SameFields(s, Dedupe(c, s, t))
    ensures Enabled(c, s, CompressChunk(t)) ==> SameFields(s, Pack(c, s, t))
    ensures Enabled(c, s, Write) ==> SameFields(s, WriteOut(c, s))
  {
    hide ConfigOk, Enabled, Push, Pop, Get, Advance, Source;
  }

  lemma ControlFalls(c: Config, s: State, e: Event)
    requires ConfigOk(c) && ShutdownInv(c, s) && Enabled(c, s, e)
    requires e.CloseRefine? || e.EndOfInput? || e.Close? || e.PollEmpty?
    ensures ControlLeft(c, Apply(c, s, e)) < ControlLeft(c, s)
    ensures var s' := Apply(c, s, e);
            s'.at == s.at && s'.mem == s.mem && s'.writer == s.writer && s'.cutting == s.cutting
  {
    hide ConfigOk, ShutdownInv, AllPhasesLeft, NumQueues, Get;
    var s' := Apply(c, s, e);
    match e
    case CloseRefine => AllSamePhases(s, s', c.nthreads);
    case EndOfInput(stage, t) => PhaseFalls(s, s', stage, t, Draining, c.nthreads);
    case Close(stage, t) => PhaseFalls(s, s', stage, t, Done, c.nthreads);
    case PollEmpty =>
      PollCount(c, s);
      AllSamePhases(s, s', c.nthreads);
  }

  lemma {:induction false} SameRanks(s: State, s': State, ids: seq<Id>)
    requires s'.at == s.at && s'.mem == s.mem && s'.writer == s.writer && s'.cutting == s.cutting
    ensures RankSum(s', ids) == RankSum(s, ids)
    decreases |ids|
  {
    if ids != [] {
      SameRanks(s, s', ids[1..]);
    }
  }

  // ---------------------------------------------------------------- the measure

  ghost function Measure(c: Config, s: State, ids: seq<Id>): nat {
    Times(RankSum(s, ids), NumQueues(c.nthreads) + 1) + ControlLeft(c, s)
  }

  /** Every step of every run lowers the measure. */
  lemma MeasureFalls(c: Config, s: State, e: Event, ids: seq<Id>)
    requires ConfigOk(c) && Records.CollisionFree(c.codec, Flatten(c.plan)) && CompleteOrder(Sizes(c), ids)
    requires Inv(c, s) && Enabled(c, s, e)
    ensures Measure(c, Apply(c, s, e), ids) < Measure(c, s, ids)
  {
    hide ConfigOk, ChunkInv, ShutdownInv, CompleteOrder, Enabled, Apply, RankSum, ControlLeft, NumQueues, Times,
         Records.CollisionFree;
    if e.CloseRefine? || e.EndOfInput? || e.Close? || e.PollEmpty? {
      ControlFalls(c, s, e);
      SameRanks(s, Apply(c, s, e), ids);
    } else {
      ChunkStep(c, s, e);
      DataFalls(c, s, e, ids);
      DataControl(c, s, e);
      TimesLess(RankSum(Apply(c, s, e), ids), RankSum(s, ids), NumQueues(c.nthreads) + 1);
    }
  }

  // ---------------------------------------------------------------- every run ends

  /** The longest a run can be. */
  function MostSteps(c: Config): nat {
    Times(MISSING * |Flatten(c.plan)|, NumQueues(c.nthreads) + 1) + 2 * NumQueues(c.nthreads) + 6 * c.nthreads
  }

  lemma {:induction false} StepsAndMeasure(c: Config, run: seq<State>, n: nat, ids: seq<Id>)
    requires ConfigOk(c) && Records.CollisionFree(c.codec, Flatten(c.plan)) && CompleteOrder(Sizes(c), ids)
    requires IsRun(c, run) && n < |run|
    ensures n + Measure(c, run[n], ids) <= Measure(c, INITIAL, ids)
  {
    hide ConfigOk, Inv, CompleteOrder, Enabled, Apply, Measure, Records.CollisionFree;
    if n > 0 {
      StepsAndMeasure(c, run, n - 1, ids);
      RunKeepsInv(c, run, n - 1);
      assert Step(c, run[n - 1], run[n - 1 + 1]);
      var e :| Enabled(c, run[n - 1], e) && run[n] == Apply(c, run[n - 1], e);
      MeasureFalls(c, run[n - 1], e, ids);
    }
  }

  lemma AllChunks(c: Config) returns (ids: seq<Id>)
    requires ConfigOk(c)
    ensures CompleteOrder(Sizes(c), ids) && |ids| <= |Flatten(c.plan)|
  {
    hide ConfigOk, Flatten;
    var all := FirstRows(Sizes(c), |c.plan|);
    ids := InSomeOrder(all);
    assert c.plan[..|c.plan|] == c.plan;
    RowsSize(c.plan, Sizes(c), |c.plan|);
    DistinctSize(ids, all);
  }

  lemma {:induction false} TimesAtMost(j: nat, k: nat, c: nat)
    requires j <= k
    ensures Times(j, c) <= Times(k, c)
  {
    if j < k {
      TimesLess(j, k, c);
    }
  }

  lemma InitialMeasure(c: Config, ids: seq<Id>)
    requires ConfigOk(c) && |ids| <= |Flatten(c.plan)|
    ensures Measure(c, INITIAL, ids) <= MostSteps(c)
  {
    hide ConfigOk, Times, RankSum, NumQueues, Flatten;
    RankBound(INITIAL, ids);
    PhasesBound(INITIAL, Refine, c.nthreads);
    PhasesBound(INITIAL, Dedup, c.nthreads);
    PhasesBound(INITIAL, Compress, c.nthreads);
    TimesAtMost(RankSum(INITIAL, ids), MISSING * |Flatten(c.plan)|, NumQueues(c.nthreads) + 1);
  }

  /** No run, complete or not, has more steps than a number that depends on the number of chunks and threads. */
  lemma EveryRunEnds(c: Config, run: seq<State>)
    requires ConfigOk(c) && Records.CollisionFree(c.codec, Flatten(c.plan)) && IsRun(c, run)
    ensures |run| - 1 <= MostSteps(c)
  {
    hide ConfigOk, Measure, MostSteps, CompleteOrder, Step, Records.CollisionFree, Flatten;
    var ids := AllChunks(c);
    StepsAndMeasure(c, run, |run| - 1, ids);
    InitialMeasure(c, ids);
  }

  /** Every run on a small input can be continued until Reorder has finished. */
  lemma {:induction false} EveryRunCompletes(c: Config, run: seq<State>) returns (whole: seq<State>)
    requires ConfigOk(c) && Small(c) && Records.CollisionFree(c.codec, Flatten(c.plan)) && IsRun(c, run)
    ensures IsRun(c, whole) && run <= whole && whole != [] && whole[|whole| - 1].finished
    decreases MostSteps(c) + 1 - |run|
  {
    hide ConfigOk, Small, MostSteps, Records.CollisionFree, Flatten, IsRun, CanStep, Enabled, Apply;
    EveryRunEnds(c, run);
    RunNotEmpty(c, run);
    whole := run;
    if !run[|run| - 1].finished {
      var s' := NextState(c, run);
      whole := EveryRunCompletes(c, run + [s']);
    }
  }

  lemma RunNotEmpty(c: Config, run: seq<State>)
    requires ConfigOk(c) && IsRun(c, run)
    ensures run != []
  {
  }

  lemma NextState(c: Config, run: seq<State>) returns (s': State)
    requires ConfigOk(c) && Small(c) && Records.CollisionFree(c.codec, Flatten(c.plan)) && IsRun(c, run)
    requires run != [] && !run[|run| - 1].finished
    ensures IsRun(c, run + [s'])
  {
    hide ConfigOk, Small, Records.CollisionFree, Flatten, Enabled, Apply, Inv;
    var s := run[|run| - 1];
    RunKeepsInv(c, run, |run| - 1);
    NoDeadlock(c, s);
    var e :| Enabled(c, s, e);
    s' := Apply(c, s, e);
    assert Step(c, s, s');
  }
}
