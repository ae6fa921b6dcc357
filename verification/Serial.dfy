/** The serial pipeline: cut, deduplicate, compress and write in one loop (encoder.c). */
module Serial {
  import opened Common
  import opened Records
  import opened Chunking

  /** The database and the output file of the serial run. */
  class Archive {
    var seen: set<Bytes>
    var file: Bytes
    const codec: Codec

    constructor (codec: Codec)
      ensures seen == {} && file == [] && this.codec == codec
    {
      seen, file, this.codec := {}, [], codec;
    }

    /** sub_Deduplicate, sub_Compress and write_chunk_to_file for one chunk. */
    method Put(b: Bytes)
      modifies this
      ensures seen == old(seen) + {codec.sha(b)}
      ensures file == old(file) + Serialize(RecordFor(codec, old(seen), b))
    {
      var digest := codec.sha(b);
      var isDuplicate := digest in seen;
      if !isDuplicate {
        seen := seen + {digest};
        file := file + Serialize(Data(Compress(codec, b)));
      } else {
        file := file + Serialize(Fingerprint(digest));
      }
    }
  }

  /** What the archive holds after a list of chunks. */
  ghost predicate Holds(a: Archive, done: seq<Bytes>)
    reads a
  {
    a.seen == Digests(a.codec, done) && a.file == SerializeAll(RecordsOf(a.codec, {}, done))
  }

  lemma HoldsNothing(a: Archive)
    requires a.seen == {} && a.file == []
    ensures Holds(a, [])
  {
  }

  lemma HoldsFile(a: Archive, done: seq<Bytes>)
    requires Holds(a, done)
    ensures a.file == SerializeAll(RecordsOf(a.codec, {}, done))
  {
  }

  lemma HoldsSnoc(c: Codec, done: seq<Bytes>, b: Bytes)
    ensures Digests(c, done + [b]) == Digests(c, done) + {c.sha(b)}
    ensures SerializeAll(RecordsOf(c, {}, done + [b]))
         == SerializeAll(RecordsOf(c, {}, done)) + Serialize(RecordFor(c, Digests(c, done), b))
  {
    RecordsOfSnoc(c, {}, done, b);
    assert {} + Digests(c, done) == Digests(c, done);
    SerializeAllSnoc(RecordsOf(c, {}, done), RecordFor(c, Digests(c, done), b));
  }

  method PutChunk(archive: Archive, b: Bytes, ghost done: seq<Bytes>)
    requires Holds(archive, done)
    modifies archive
    ensures Holds(archive, done + [b])
  {
    HoldsSnoc(archive.codec, done, b);
    archive.Put(b);
  }

  /** The inner loop: put the pieces of one buffer into the archive, return its uncut rest. */
  method PutPieces(archive: Archive, seg: Bytes -> nat, buf: Bytes, ghost doneBefore: seq<Bytes>) returns (temp: Bytes)
    requires SegOk(seg) && buf != [] && Holds(archive, doneBefore)
    modifies archive
    ensures temp == SplitAll(seg, 0, buf).left
    ensures Holds(archive, doneBefore + SplitAll(seg, 0, buf).parts)
  {
    temp := [];
    var chunk := buf;
    ghost var done := doneBefore;
    ghost var parts, left := done + SplitAll(seg, 0, buf).parts, SplitAll(seg, 0, buf).left;
    var split := true;
    while split
      invariant Holds(archive, done)
      invariant split ==> chunk != [] && left == SplitAll(seg, 0, chunk).left
      invariant split ==> parts == done + SplitAll(seg, 0, chunk).parts
      invariant !split ==> parts == done && left == temp
      decreases split, |chunk|
    {
      split := false;
      var offset := seg(chunk);
      assert chunk[0..] == chunk;
      CutInRange(seg, 0, chunk);
      if offset < |chunk| {
        Associative(done, [chunk[..offset]], SplitAll(seg, 0, chunk[offset..]).parts);
        PutChunk(archive, chunk[..offset], done);
        done := done + [chunk[..offset]];
        chunk := chunk[offset..];
        split := true;
      } else {
        temp := chunk;
      }
    }
  }

  /** SerialIntegratedPipeline, for the preloaded input. */
  method SerialEncode(c: Codec, seg: Bytes -> nat, maxbuf: nat, input: Bytes) returns (file: Bytes)
    requires SegOk(seg) && 0 < maxbuf
    ensures file == SerializeAll(RecordsOf(c, {}, ChunksFrom(seg, 0, maxbuf, [], input, 0)))
  {
    hide ChunksFrom, SplitAll, Flatten, NonEmptyParts, SegOk, RecordsOf, SerializeAll, Holds;
    var archive := new Archive(c);
    HoldsNothing(archive);
    var temp: Bytes := [];
    var seek := 0;
    ghost var done: seq<Bytes> := [];
    ghost var all := ChunksFrom(seg, 0, maxbuf, [], input, 0);
    while true
      invariant seek <= |input| && fresh(archive) && archive.codec == c && Holds(archive, done)
      invariant all == done + ChunksFrom(seg, 0, maxbuf, temp, input, seek)
      decreases |input| - seek
    {
      ChunksStep(seg, 0, maxbuf, temp, input, seek);
      var maxRead := Min(maxbuf, |input| - seek);
      var chunk := temp + input[seek..seek + maxRead];
      seek := seek + maxRead;
      if chunk == [] {
        assert all == done + [];
        break;
      }
      if maxRead == 0 {
        PutChunk(archive, chunk, done);
        done := done + [chunk];
        assert all == done;
        break;
      }
      Associative(done, SplitAll(seg, 0, chunk).parts,
                  ChunksFrom(seg, 0, maxbuf, SplitAll(seg, 0, chunk).left, input, seek));
      temp := PutPieces(archive, seg, chunk, done);
      done := done + SplitAll(seg, 0, chunk).parts;
    }
    assert done == all;
    HoldsFile(archive, done);
    return archive.file;
  }

  /** Serial round trip: the decoder returns the input exactly when every chunk is restorable. */
  lemma SerialRoundTrip(c: Codec, seg: Bytes -> nat, maxbuf: nat, input: Bytes)
    requires SegOk(seg) && 0 < maxbuf && CodecOk(c)
    requires var chunks := ChunksFrom(seg, 0, maxbuf, [], input, 0);
             CollisionFree(c, chunks) && forall x :: x in chunks ==> |Compress(c, x)| < TWO64
    ensures var chunks := ChunksFrom(seg, 0, maxbuf, [], input, 0);
            DecodeFrom(c, SerializeAll(RecordsOf(c, {}, chunks)), map[])
            == if AllRestorable(c, chunks) then Some(input) else None
  {
    RoundTrip(c, ChunksFrom(seg, 0, maxbuf, [], input, 0));
    assert [] + input[0..] == input;
  }

  /** With zlib or bzip2 the round trip does fail on some input: one unsplit chunk longer than the
      decoder's buffer. */
  lemma LongChunkIsLost(c: Codec, seg: Bytes -> nat, maxbuf: nat, input: Bytes)
    requires SegOk(seg) && CodecOk(c) && c.kind.Gzip? && |input| == 10_000_001 <= maxbuf
    requires seg(input) == |input| && |c.deflate(input)| < TWO64
    ensures ChunksFrom(seg, 0, maxbuf, [], input, 0) == [input]
    ensures DecodeFrom(c, SerializeAll(RecordsOf(c, {}, [input])), map[]) == None
  {
    var n := |input|;
    assert [] + input[0..n] == input && input[0..] == input && input + input[n..n] == input;
    assert SplitAll(seg, 0, input) == Split([], input);
    assert ChunksFrom(seg, 0, maxbuf, input, input, n) == [input];
    assert [] + [input] == [input] && input in [input];
    RoundTrip(c, [input]);
  }
}
