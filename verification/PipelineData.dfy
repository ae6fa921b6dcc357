/** What each stage's work on a chunk keeps about the chunks' data and about the file written so far. */
module PipelineData {
  import opened Common
  import opened Records
  import opened Ordering
  import opened Pipeline
  import opened PipelineChunks

  // ---------------------------------------------------------------- data invariant

  lemma ChunksUpdate(c: Config, mem: Memory, table: map<Bytes, Id>, id: Id, ch: Chunk)
    requires ConfigOk(c) && ChunksOk(c, mem, table) && ChunkOk(c, table, id, ch)
    ensures ChunksOk(c, mem[id := ch], table)
  {
  }

  lemma ChunksInsert(c: Config, mem: Memory, table: map<Bytes, Id>, h: Bytes, id: Id)
    requires ConfigOk(c) && ChunksOk(c, mem, table) && h !in table
    ensures ChunksOk(c, mem, table[h := id])
  {
    forall x | x in mem
      ensures ChunkOk(c, table[h := id], x, mem[x])
    {
      assert ChunkOk(c, table, x, mem[x]);
      assert DigestOk(c, table[h := id], x, mem[x]);
    }
  }

  lemma CoveredGrows(mem: Memory, mem': Memory, x: Id)
    requires Covered(mem, x)
    requires forall y :: y in mem ==> y in mem' && (mem[y].isLast.None? && y.l1 == x.l1 ==> mem'[y].isLast.None?)
    ensures Covered(mem', x)
  {
    if x !in mem {
      var y :| y in mem && y.l1 == x.l1 && y.l2 < x.l2 && mem[y].isLast.None?;
      assert y in mem' && mem'[y].isLast.None?;
    }
  }

  lemma ShapeEmit(sizes: seq<nat>, mem: Memory, sent: nat, ch: Chunk)
    requires SizesOk(sizes) && ShapeOk(sizes, mem, sent) && sent < |sizes| && ch.isLast.None?
    ensures Id(sent, 0) !in mem && ShapeOk(sizes, mem[Id(sent, 0) := ch], sent + 1)
  {
    var id := Id(sent, 0);
    var mem' := mem[id := ch];
    forall x | Exists(sizes, x) && x.l1 < sent + 1
      ensures Covered(mem', x)
    {
      if x.l1 < sent {
        CoveredGrows(mem, mem', x);
      } else {
        assert mem'[id].isLast.None?;
      }
    }
  }

  lemma ShapeSplit(sizes: seq<nat>, mem: Memory, sent: nat, id: Id, piece: Chunk, rest: Chunk)
    requires ShapeOk(sizes, mem, sent)
    requires id in mem && mem[id].isLast.None? && piece.isLast.Some? && rest.isLast.None?
    requires Exists(sizes, Id(id.l1, id.l2 + 1))
    ensures Id(id.l1, id.l2 + 1) !in mem
    ensures ShapeOk(sizes, mem[id := piece][Id(id.l1, id.l2 + 1) := rest], sent)
  {
    var temp := Id(id.l1, id.l2 + 1);
    var mem' := mem[id := piece][temp := rest];
    forall x | Exists(sizes, x) && x.l1 < sent
      ensures Covered(mem', x)
    {
      if x.l1 != id.l1 {
        CoveredGrows(mem, mem', x);
      } else if x !in mem' {
        assert Covered(mem, x);
        assert mem'[temp].isLast.None?;
      }
    }
  }

  lemma ShapeLast(sizes: seq<nat>, mem: Memory, sent: nat, id: Id, ch: Chunk)
    requires ShapeOk(sizes, mem, sent)
    requires id in mem && mem[id].isLast.None? && ch.isLast.Some? && IsLastOf(sizes, id)
    ensures ShapeOk(sizes, mem[id := ch], sent)
  {
    var mem' := mem[id := ch];
    forall x | Exists(sizes, x) && x.l1 < sent
      ensures Covered(mem', x)
    {
      if x.l1 != id.l1 {
        CoveredGrows(mem, mem', x);
      } else {
        assert forall y :: y in mem && y.l1 == id.l1 && mem[y].isLast.None? ==> id.l2 <= y.l2;
        assert x.l2 <= id.l2;
        assert Covered(mem, x);
      }
    }
  }

  lemma ShapeSame(sizes: seq<nat>, mem: Memory, sent: nat, id: Id, ch: Chunk)
    requires ShapeOk(sizes, mem, sent) && id in mem && ch.isLast == mem[id].isLast
    ensures ShapeOk(sizes, mem[id := ch], sent)
  {
    forall x | Exists(sizes, x) && x.l1 < sent
      ensures Covered(mem[id := ch], x)
    {
      CoveredGrows(mem, mem[id := ch], x);
    }
  }

  lemma EmitData(c: Config, mem: Memory, table: map<Bytes, Id>, sent: nat)
    requires ConfigOk(c) && DataInv(c, mem, table, sent) && sent < |c.coarse|
    ensures Exists(Sizes(c), Id(sent, 0)) && Id(sent, 0) !in mem
    ensures DataInv(c, mem[Id(sent, 0) := Chunk(Raw(c.coarse[sent]), None, None, None)], table, sent + 1)
  {
    var id, ch := Id(sent, 0), Chunk(Raw(c.coarse[sent]), None, None, None);
    SizesPositive(c);
    ShapeEmit(Sizes(c), mem, sent, ch);
    assert c.plan[sent][0..] == c.plan[sent];
    ChunksUpdate(c, mem, table, id, ch);
  }

  /** Cutting a piece off: the piece is the planned chunk, the rest refines to the remaining plan. */
  lemma SplitChunks(c: Config, table: map<Bytes, Id>, id: Id, ch: Chunk, offset: nat)
    requires ConfigOk(c) && ChunkOk(c, table, id, ch) && ch.isLast.None?
    requires offset == c.seg(ch.payload.bytes) < |ch.payload.bytes|
    ensures ChunkOk(c, table, id, ch.(payload := Raw(ch.payload.bytes[..offset]), isLast := Some(false)))
    ensures ChunkOk(c, table, Id(id.l1, id.l2 + 1), Chunk(Raw(ch.payload.bytes[offset..]), None, None, None))
  {
    var bytes, plan := ch.payload.bytes, c.plan[id.l1];
    assert Chunking.Refine(c.seg, bytes) == [bytes[..offset]] + Chunking.Refine(c.seg, bytes[offset..]);
    assert plan[id.l2..][0] == bytes[..offset];
    assert plan[id.l2 + 1..] == plan[id.l2..][1..] == Chunking.Refine(c.seg, bytes[offset..]);
  }

  lemma SplitData(c: Config, mem: Memory, table: map<Bytes, Id>, sent: nat, id: Id, offset: nat)
    requires ConfigOk(c) && DataInv(c, mem, table, sent)
    requires id in mem && mem[id].isLast.None? && mem[id].payload.Raw?
    requires offset == c.seg(mem[id].payload.bytes) < |mem[id].payload.bytes|
    ensures var temp, bytes := Id(id.l1, id.l2 + 1), mem[id].payload.bytes;
            Exists(Sizes(c), temp) && temp !in mem
            && DataInv(c, mem[id := mem[id].(payload := Raw(bytes[..offset]), isLast := Some(false))]
                             [temp := Chunk(Raw(bytes[offset..]), None, None, None)], table, sent)
  {
    var bytes, temp := mem[id].payload.bytes, Id(id.l1, id.l2 + 1);
    var piece := mem[id].(payload := Raw(bytes[..offset]), isLast := Some(false));
    var rest := Chunk(Raw(bytes[offset..]), None, None, None);
    assert ChunkOk(c, table, id, mem[id]);
    SplitChunks(c, table, id, mem[id], offset);
    ShapeSplit(Sizes(c), mem, sent, id, piece, rest);
    ChunksUpdate(c, mem, table, id, piece);
    ChunksUpdate(c, mem[id := piece], table, temp, rest);
    TableSame(mem, table, id, piece);
    TableSame(mem[id := piece], table, temp, rest);
  }

  lemma TableSame(mem: Memory, table: map<Bytes, Id>, id: Id, ch: Chunk)
    requires TableOk(mem, table)
    requires id in mem ==> mem[id].digest.None? || (mem[id].digest == ch.digest && mem[id].original == ch.original)
    ensures TableOk(mem[id := ch], table)
  {
  }

  lemma TableInsert(mem: Memory, table: map<Bytes, Id>, h: Bytes, id: Id, ch: Chunk)
    requires TableOk(mem, table) && h !in table && id in mem && mem[id].digest.None?
    requires ch.digest == Some(h) && ch.original.None?
    ensures TableOk(mem[id := ch], table[h := id])
  {
    TableSame(mem, table, id, ch);
  }

  /** Reaching the end of the buffer: the whole rest is the last planned chunk. */
  lemma LastData(c: Config, mem: Memory, table: map<Bytes, Id>, sent: nat, id: Id)
    requires ConfigOk(c) && DataInv(c, mem, table, sent)
    requires id in mem && mem[id].isLast.None? && mem[id].payload.Raw?
    requires c.seg(mem[id].payload.bytes) >= |mem[id].payload.bytes|
    ensures DataInv(c, mem[id := mem[id].(isLast := Some(true))], table, sent)
  {
    var ch := mem[id].(isLast := Some(true));
    assert ChunkOk(c, table, id, mem[id]);
    assert Chunking.Refine(c.seg, mem[id].payload.bytes) == [mem[id].payload.bytes];
    assert |c.plan[id.l1][id.l2..]| == 1 && c.plan[id.l1][id.l2..][0] == mem[id].payload.bytes;
    ChunksUpdate(c, mem, table, id, ch);
    TableSame(mem, table, id, ch);
    ShapeLast(Sizes(c), mem, sent, id, ch);
  }

  lemma DuplicateData(c: Config, mem: Memory, table: map<Bytes, Id>, sent: nat, id: Id)
    requires ConfigOk(c) && DataInv(c, mem, table, sent)
    requires id in mem && KindOk(mem[id], Fresh)
    requires var h := c.codec.sha(PlanAt(c, id)); h in table
    ensures var h := c.codec.sha(PlanAt(c, id));
            DataInv(c, mem[id := mem[id].(payload := Freed, digest := Some(h), original := Some(table[h]))], table, sent)
  {
    var h := c.codec.sha(PlanAt(c, id));
    var ch := mem[id].(payload := Freed, digest := Some(h), original := Some(table[h]));
    assert ChunkOk(c, table, id, mem[id]);
    ChunksUpdate(c, mem, table, id, ch);
    TableSame(mem, table, id, ch);
    ShapeSame(Sizes(c), mem, sent, id, ch);
  }

  lemma OriginalData(c: Config, mem: Memory, table: map<Bytes, Id>, sent: nat, id: Id)
    requires ConfigOk(c) && DataInv(c, mem, table, sent)
    requires id in mem && KindOk(mem[id], Fresh)
    requires c.codec.sha(PlanAt(c, id)) !in table
    ensures var h := c.codec.sha(PlanAt(c, id));
            DataInv(c, mem[id := mem[id].(digest := Some(h))], table[h := id], sent)
  {
    var h := c.codec.sha(PlanAt(c, id));
    var ch := mem[id].(digest := Some(h));
    assert ChunkOk(c, table, id, mem[id]);
    ChunksInsert(c, mem, table, h, id);
    ChunksUpdate(c, mem, table[h := id], id, ch);
    TableInsert(mem, table, h, id, ch);
    ShapeSame(Sizes(c), mem, sent, id, ch);
  }

  /** Compression and flushing of an original. */
  lemma PayloadData(c: Config, mem: Memory, table: map<Bytes, Id>, sent: nat, id: Id, payload: Payload)
    requires ConfigOk(c) && DataInv(c, mem, table, sent)
    requires id in mem && mem[id].digest.Some? && mem[id].original.None?
    requires payload.Flushed? || payload == Packed(Records.Compress(c.codec, PlanAt(c, id)))
    ensures DataInv(c, mem[id := mem[id].(payload := payload)], table, sent)
  {
    var ch := mem[id].(payload := payload);
    assert ChunkOk(c, table, id, mem[id]);
    ChunksUpdate(c, mem, table, id, ch);
    TableSame(mem, table, id, ch);
    ShapeSame(Sizes(c), mem, sent, id, ch);
  }

  // ---------------------------------------------------------------- output invariant

  /** Changes to a chunk that is not an original yet, before and after, do not concern the output. */
  lemma OutFrame(c: Config, mem: Memory, w: Writer, file: seq<Record>, id: Id, ch: Chunk)
    requires ConfigOk(c) && OutInv(c, mem, w, file)
    requires ch.digest.None? || ch.original.Some?
    ensures OutInv(c, mem[id := ch], w, file)
  {
  }

  /** A digest already written belongs to a chunk before the next number. */
  lemma {:induction false} DigestWritten(c: Config, id: Id, h: Bytes)
    requires id.l1 <= |c.plan| && (id.l1 < |c.plan| ==> id.l2 <= |c.plan[id.l1]|)
    requires id.l1 == |c.plan| ==> id.l2 == 0
    requires h in Digests(c.codec, Before(c.plan, id))
    ensures exists x :: Exists(Sizes(c), x) && Less(x, id) && c.codec.sha(PlanAt(c, x)) == h
  {
    var b :| b in Before(c.plan, id) && c.codec.sha(b) == h;
    assert c.plan[..|c.plan|] == c.plan;
    if b in Flatten(c.plan[..id.l1]) {
      var x := InFlatten(c.plan[..id.l1], b);
      assert PlanAt(c, x) == b && Less(x, id);
    } else {
      var j :| 0 <= j < id.l2 && c.plan[id.l1][..id.l2][j] == b;
      var x := Id(id.l1, j);
      assert PlanAt(c, x) == b && Less(x, id);
    }
  }

  lemma {:induction false} InFlatten(parts: seq<seq<Bytes>>, b: Bytes) returns (x: Id)
    requires b in Flatten(parts)
    ensures x.l1 < |parts| && x.l2 < |parts[x.l1]| && parts[x.l1][x.l2] == b
  {
    if b in parts[0] {
      var j :| 0 <= j < |parts[0]| && parts[0][j] == b;
      x := Id(0, j);
    } else {
      var y := InFlatten(parts[1..], b);
      x := Id(y.l1 + 1, y.l2);
    }
  }

  /** A digest that is not in the table has not been written. */
  lemma NewDigest(c: Config, s: State, h: Bytes)
    requires ConfigOk(c) && ChunkInv(c, s) && h !in s.table
    ensures h !in Digests(c.codec, Before(c.plan, s.writer.next))
  {
    if h in Digests(c.codec, Before(c.plan, s.writer.next)) {
      DigestWritten(c, s.writer.next, h);
      var x :| Exists(Sizes(c), x) && Less(x, s.writer.next) && c.codec.sha(PlanAt(c, x)) == h;
      WrittenInTable(c, s, x);
    }
  }

  /** The digest of every written chunk is in the table. */
  lemma WrittenInTable(c: Config, s: State, x: Id)
    requires ConfigOk(c) && ChunkInv(c, s) && Exists(Sizes(c), x) && Less(x, s.writer.next)
    ensures c.codec.sha(PlanAt(c, x)) in s.table
  {
    assert Arrived(s.writer, x);
    assert ChunkOk(c, s.table, x, s.mem[x]);
  }

  lemma OriginalOut(c: Config, mem: Memory, w: Writer, file: seq<Record>, id: Id, h: Bytes)
    requires ConfigOk(c) && OutInv(c, mem, w, file)
    requires id in mem && mem[id].payload.Raw? && h !in Digests(c.codec, Before(c.plan, w.next))
    ensures OutInv(c, mem[id := mem[id].(digest := Some(h))], w, file)
  {
  }

  lemma PackOut(c: Config, mem: Memory, w: Writer, file: seq<Record>, id: Id, data: Bytes)
    requires ConfigOk(c) && OutInv(c, mem, w, file)
    requires id in mem && KindOk(mem[id], Original)
    ensures OutInv(c, mem[id := mem[id].(payload := Packed(data))], w, file)
  {
  }

  // ---------------------------------------------------------------- writing

  /** The planned chunks before the successor are those before the number, and its own. */
  lemma BeforeAfter(c: Config, id: Id)
    requires ConfigOk(c) && Exists(Sizes(c), id)
    ensures var next := After(Sizes(c), id);
            next.l1 <= |c.plan| && (next.l1 < |c.plan| ==> next.l2 <= |c.plan[next.l1]|)
            && Before(c.plan, next) == Before(c.plan, id) + [PlanAt(c, id)]
  {
    hide ConfigOk, Flatten;
    if IsLastOf(Sizes(c), id) {
      BeforeRow(c.plan, id);
    }
    var row := c.plan[id.l1];
    assert row[..id.l2 + 1] == row[..id.l2] + [row[id.l2]];
    Associative(Flatten(c.plan[..id.l1]), row[..id.l2], [row[id.l2]]);
  }

  /** The end of a row is the start of the next one. */
  lemma BeforeRow(plan: seq<seq<Bytes>>, id: Id)
    requires id.l1 < |plan| && id.l2 + 1 == |plan[id.l1]|
    ensures Before(plan, Id(id.l1 + 1, 0)) == Flatten(plan[..id.l1]) + plan[id.l1][..id.l2 + 1]
  {
    hide Flatten;
    var a := id.l1;
    assert plan[a][..id.l2 + 1] == plan[a];
    assert plan[..a + 1] == plan[..a] + [plan[a]];
    FlattenSnoc(plan[..a], plan[a]);
    if a + 1 == |plan| {
      assert plan[..a + 1] == plan;
    } else {
      assert Before(plan, Id(a + 1, 0)) == Flatten(plan[..a + 1]) + [];
    }
  }

  lemma InPlan(c: Config, id: Id)
    requires ConfigOk(c) && Exists(Sizes(c), id)
    ensures PlanAt(c, id) in Flatten(c.plan)
  {
    FlattenMember(c.plan, id.l1, id.l2);
  }

  lemma {:induction false} FlattenMember(parts: seq<seq<Bytes>>, a: nat, j: nat)
    requires a < |parts| && j < |parts[a]|
    ensures parts[a][j] in Flatten(parts)
  {
    if a > 0 {
      FlattenMember(parts[1..], a - 1, j);
    }
  }

  lemma DigestsSnoc(c: Codec, chunks: seq<Bytes>, b: Bytes)
    ensures Digests(c, chunks + [b]) == Digests(c, chunks) + {c.sha(b)}
  {
  }

  /** The chunk whose data is written holds the same bytes as the one whose turn it is. */
  lemma WriteSource(c: Config, s: State)
    requires ConfigOk(c) && ChunkInv(c, s) && Enabled(c, s, Write) && CollisionFree(c.codec, Flatten(c.plan))
    ensures var id, o := s.writer.next, Source(s, s.writer.next);
            && Exists(Sizes(c), id) && Exists(Sizes(c), o) && PlanAt(c, o) == PlanAt(c, id)
            && s.writer.current == Some(id)
            && s.mem[o].original.None? && s.mem[o].digest == Some(c.codec.sha(PlanAt(c, id)))
            && (s.mem[o].payload.Packed? || s.mem[o].payload.Flushed?)
  {
    var id := s.writer.next;
    assert Arrived(s.writer, id);
    assert ChunkOk(c, s.table, id, s.mem[id]);
    var h := s.mem[id].digest.value;
    assert Source(s, id) == s.table[h];
    assert ChunkOk(c, s.table, s.table[h], s.mem[s.table[h]]);
    InPlan(c, id);
    InPlan(c, s.table[h]);
  }

  lemma WriteRecord(c: Config, s: State)
    requires ConfigOk(c) && ChunkInv(c, s) && Enabled(c, s, Write) && CollisionFree(c.codec, Flatten(c.plan))
    ensures Apply(c, s, Write).file
         == s.file + [RecordFor(c.codec, Digests(c.codec, Before(c.plan, s.writer.next)), PlanAt(c, s.writer.next))]
  {
    WriteSource(c, s);
    assert ChunkOk(c, s.table, Source(s, s.writer.next), s.mem[Source(s, s.writer.next)]);
  }

  lemma OutputSnoc(c: Codec, done: seq<Bytes>, b: Bytes, file: seq<Record>)
    requires file == RecordsOf(c, {}, done)
    ensures file + [RecordFor(c, Digests(c, done), b)] == RecordsOf(c, {}, done + [b])
  {
    RecordsOfSnoc(c, {}, done, b);
    assert {} + Digests(c, done) == Digests(c, done);
  }

  /** One write: the file is then that of the planned chunks up to the one whose turn it was. */
  lemma WriteOutput(c: Config, s: State)
    requires ConfigOk(c) && ChunkInv(c, s) && Enabled(c, s, Write) && CollisionFree(c.codec, Flatten(c.plan))
    ensures Apply(c, s, Write).file
         == RecordsOf(c.codec, {}, Before(c.plan, s.writer.next) + [PlanAt(c, s.writer.next)])
  {
    WriteRecord(c, s);
    OutputSnoc(c.codec, Before(c.plan, s.writer.next), PlanAt(c, s.writer.next), s.file);
  }
}
