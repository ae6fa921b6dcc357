/** The dedup archive format: records written by the encoder (encoder.c, util.c) and
    the decoder that reads them back (decoder.c). */
module Records {
  import opened Common

  const TYPE_FINGERPRINT: Byte := 0
  const TYPE_COMPRESS: Byte := 1
  const SHA1_LEN: nat := 20
  const UNCOMPRESS_BOUND: nat := 10000000
  const TWO31: nat := 0x8000_0000
  const TWO32: nat := 0x1_0000_0000
  const TWO64: nat := 0x1_0000_0000_0000_0000

  datatype CompressType = Gzip | Bzip2 | NoCompression

  /** The functions the program gets from SHA-1 and from zlib or bzip2. */
  datatype Codec = Codec(kind: CompressType, deflate: Bytes -> Bytes, inflate: Bytes -> Bytes, sha: Bytes -> Bytes)

  /** What is assumed of them: digests have twenty bytes, decompression undoes compression,
      and compressed data is never empty. */
  ghost predicate CodecOk(c: Codec) {
    && (forall b: Bytes :: |c.sha(b)| == SHA1_LEN)
    && (forall b: Bytes :: c.inflate(c.deflate(b)) == b && c.deflate(b) != [])
  }

  function Compress(c: Codec, b: Bytes): Bytes {
    if c.kind.NoCompression? then b else c.deflate(b)
  }

  /** uncompress_chunk: with zlib and bzip2 the target buffer has a fixed size. */
  function Uncompress(c: Codec, d: Bytes): Option<Bytes> {
    if c.kind.NoCompression? then Some(d)
    else if |c.inflate(d)| <= UNCOMPRESS_BOUND then Some(c.inflate(d))
    else None
  }

  /** Conversion of a 64-bit length to a C int. */
  function Int32(n: nat): int {
    var m := n % TWO32;
    if m < TWO31 then m else m - TWO32
  }

  /** A length survives the conversion exactly when it is below 2^31. */
  lemma Int32Positive(n: nat)
    ensures (0 < Int32(n) && n <= Int32(n)) <==> 0 < n < 0x8000_0000
  {
  }

  /** The k low bytes of n, least significant first. */
  function LittleEndian(n: nat, k: nat): Bytes
    ensures |LittleEndian(n, k)| == k
  {
    if k == 0 then [] else [(n % 256) as Byte] + LittleEndian(n / 256, k - 1)
  }

  function FromLittleEndian(bs: Bytes): nat {
    if bs == [] then 0 else bs[0] as nat + 256 * FromLittleEndian(bs[1..])
  }

  function Pow256(k: nat): nat {
    if k == 0 then 1 else 256 * Pow256(k - 1)
  }

  lemma {:induction false} LittleEndianRoundTrip(n: nat, k: nat)
    requires n < Pow256(k)
    ensures FromLittleEndian(LittleEndian(n, k)) == n
  {
    if k > 0 {
      assert n / 256 < Pow256(k - 1);
      LittleEndianRoundTrip(n / 256, k - 1);
      assert LittleEndian(n, k)[1..] == LittleEndian(n / 256, k - 1);
    }
  }

  lemma Pow256Of8()
    ensures Pow256(8) == TWO64
  {
    assert Pow256(4) == 256 * 256 * 256 * 256 by {
      assert Pow256(2) == 256 * 256;
      assert Pow256(3) == 256 * 256 * 256;
    }
    assert Pow256(6) == 256 * 256 * Pow256(4);
    assert Pow256(8) == 256 * 256 * Pow256(6);
  }

  // ---------------------------------------------------------------- one record

  datatype Record = Fingerprint(digest: Bytes) | Data(body: Bytes)

  /** write_file: type byte, 64-bit length, contents. */
  function Serialize(r: Record): Bytes {
    match r
    case Fingerprint(h) => [TYPE_FINGERPRINT] + LittleEndian(|h|, 8) + h
    case Data(b) => [TYPE_COMPRESS] + LittleEndian(|b|, 8) + b
  }

  datatype ReadResult = End | Bad | Got(record: Record, rest: Bytes)

  /** read_chunk. xread either fills its buffer or reports the end of the file; `Bad` stands
      for every EXIT_TRACE. The returned length is a C int, so lengths whose int value is not
      positive are rejected as well. */
  function ReadChunk(file: Bytes): (r: ReadResult)
    ensures r.Got? ==> |r.rest| < |file|
  {
    if file == [] then End
    else if |file| < 9 then Bad
    else
      var len := FromLittleEndian(file[1..9]);
      if file[0] == TYPE_FINGERPRINT then
        if len != SHA1_LEN || |file| < 9 + SHA1_LEN then Bad
        else Got(Fingerprint(file[9..9 + SHA1_LEN]), file[9 + SHA1_LEN..])
      else if file[0] == TYPE_COMPRESS then
        if len == 0 || |file| < 9 + len || Int32(len) <= 0 then Bad
        else Got(Data(file[9..9 + len]), file[9 + len..])
      else Bad
  }

  predicate WellFormed(r: Record) {
    match r
    case Fingerprint(h) => |h| == SHA1_LEN
    case Data(b) => 0 < |b| < TWO64
  }

  /** Reading undoes writing, and rejects exactly the data records whose length is not a positive int. */
  lemma ReadSerialized(r: Record, rest: Bytes)
    requires WellFormed(r)
    ensures ReadChunk(Serialize(r) + rest) == if r.Data? && Int32(|r.body|) <= 0 then Bad else Got(r, rest)
  {
    var content := if r.Fingerprint? then r.digest else r.body;
    var file := Serialize(r) + rest;
    assert file[1..9] == LittleEndian(|content|, 8);
    Pow256Of8();
    LittleEndianRoundTrip(|content|, 8);
    assert file[9..9 + |content|] == content;
    assert file[9 + |content|..] == rest;
  }

  lemma {:induction false} LittleEndianInverse(bs: Bytes)
    ensures FromLittleEndian(bs) < Pow256(|bs|) && LittleEndian(FromLittleEndian(bs), |bs|) == bs
  {
    if bs != [] {
      LittleEndianInverse(bs[1..]);
      var n := FromLittleEndian(bs[1..]);
      assert (bs[0] as nat + 256 * n) % 256 == bs[0] as nat && (bs[0] as nat + 256 * n) / 256 == n;
      assert bs == [bs[0]] + bs[1..];
    }
  }

  lemma Pieces(file: Bytes, n: nat)
    requires 9 + n <= |file|
    ensures file == [file[0]] + file[1..9] + file[9..9 + n] + file[9 + n..]
  {
  }

  lemma Accepted(file: Bytes)
    requires ReadChunk(file).Got?
    ensures var r := ReadChunk(file);
            file == Serialize(r.record) + r.rest && WellFormed(r.record) && (r.record.Data? ==> Int32(|r.record.body|) > 0)
  {
    hide LittleEndian, FromLittleEndian, Pow256;
    var len := FromLittleEndian(file[1..9]);
    LittleEndianInverse(file[1..9]);
    Pow256Of8();
    Pieces(file, len);
  }

  /** The reader accepts nothing but what the writer writes: it sees the end exactly of the empty file, and otherwise
      either returns a record that the file begins with, or fails. */
  lemma ReadExactly(file: Bytes, record: Record, rest: Bytes)
    ensures ReadChunk(file).End? <==> file == []
    ensures ReadChunk(file) == Got(record, rest) <==>
              file == Serialize(record) + rest && WellFormed(record) && (record.Data? ==> Int32(|record.body|) > 0)
  {
    hide ReadChunk, Serialize, WellFormed, Int32;
    NothingToRead(file);
    if ReadChunk(file) == Got(record, rest) {
      Accepted(file);
    } else if file == Serialize(record) + rest && WellFormed(record) {
      ReadSerialized(record, rest);
    }
  }

  lemma NothingToRead(file: Bytes)
    ensures ReadChunk(file).End? <==> file == []
  {
  }

  /** The bytes of a record: 0, the length 20 in eight bytes, least significant first, and the digest; or 1, the length
      of the data in eight bytes, and the data. */
  lemma WireFormat(r: Record)
    requires WellFormed(r)
    ensures var file := Serialize(r);
            var content := if r.Fingerprint? then r.digest else r.body;
            && |file| == 9 + |content| && file[0] == (if r.Fingerprint? then 0 else 1) && file[9..] == content
            && FromLittleEndian(file[1..9]) == |content| && (r.Fingerprint? ==> |content| == 20)
  {
    var content := if r.Fingerprint? then r.digest else r.body;
    assert Serialize(r)[1..9] == LittleEndian(|content|, 8);
    Pow256Of8();
    LittleEndianRoundTrip(|content|, 8);
  }

  function SerializeAll(rs: seq<Record>): Bytes {
    if rs == [] then [] else Serialize(rs[0]) + SerializeAll(rs[1..])
  }

  /** Writing one more record at the end of the file. */
  lemma {:induction false} SerializeAllSnoc(rs: seq<Record>, r: Record)
    ensures SerializeAll(rs + [r]) == SerializeAll(rs) + Serialize(r)
  {
    if rs == [] {
      assert rs + [r] == [r];
    } else {
      SerializeAllSnoc(rs[1..], r);
      assert (rs + [r])[1..] == rs[1..] + [r];
      Associative(Serialize(rs[0]), SerializeAll(rs[1..]), Serialize(r));
    }
  }

  // ---------------------------------------------------------------- the decoder

  /** The decoder's loop from a file position on, with the digests seen so far. None is a failed run. */
  function DecodeFrom(c: Codec, file: Bytes, cache: map<Bytes, Bytes>): Option<Bytes>
    decreases |file|
  {
    match ReadChunk(file)
    case End => Some([])
    case Bad => None
    case Got(Data(body), rest) => (
      match Uncompress(c, body)
      case None => None
      case Some(b) =>
        if Int32(|b|) <= 0 || Int32(|b|) < |b| then None
        else Prepend(b, DecodeFrom(c, rest, cache[c.sha(b) := b]))
      )
    case Got(Fingerprint(h), rest) =>
      if h !in cache then None
      else Prepend(cache[h], DecodeFrom(c, rest, cache))
  }

  function Prepend(b: Bytes, tail: Option<Bytes>): Option<Bytes> {
    if tail.None? then None else Some(b + tail.value)
  }

  /** Decode: the reading loop over the records after the header. */
  method Decode(c: Codec, file: Bytes) returns (output: Option<Bytes>)
    ensures output == DecodeFrom(c, file, map[])
  {
    var pos: Bytes := file;
    var cache: map<Bytes, Bytes> := map[];
    var written: Bytes := [];
    PrependEmpty(DecodeFrom(c, pos, cache));
    while true
      invariant forall h :: h in cache ==> 0 < Int32(|cache[h]|) && |cache[h]| <= Int32(|cache[h]|)
      invariant DecodeFrom(c, file, map[]) == Prepend(written, DecodeFrom(c, pos, cache))
      decreases |pos|
    {
      var r := ReadChunk(pos);
      if r.Bad? {
        return None;
      }
      if r.End? {
        break;
      }
      var entry: Bytes;
      if r.record.Data? {
        var u := Uncompress(c, r.record.body);
        if u.None? || Int32(|u.value|) <= 0 {
          return None;
        }
        entry := u.value;
        if Int32(|entry|) < |entry| {
          return None;
        }
        cache := cache[c.sha(entry) := entry];
      } else {
        if r.record.digest !in cache {
          return None;
        }
        entry := cache[r.record.digest];
      }
      PrependTwice(written, entry, DecodeFrom(c, r.rest, cache));
      written := written + entry;
      pos := r.rest;
    }
    assert written + [] == written;
    return Some(written);
  }

  lemma PrependEmpty(t: Option<Bytes>)
    ensures Prepend([], t) == t
  {
    if t.Some? {
      assert [] + t.value == t.value;
    }
  }

  lemma PrependTwice(a: Bytes, b: Bytes, t: Option<Bytes>)
    ensures Prepend(a, Prepend(b, t)) == Prepend(a + b, t)
  {
    if t.Some? {
      assert a + (b + t.value) == (a + b) + t.value;
    }
  }

  // ---------------------------------------------------------------- the encoder's records

  /** The records of a list of chunks written in order: data at the first occurrence of a digest, the
      digest alone afterwards. */
  function RecordsOf(c: Codec, seen: set<Bytes>, chunks: seq<Bytes>): seq<Record>
    decreases |chunks|
  {
    if chunks == [] then []
    else if c.sha(chunks[0]) in seen then
      [Fingerprint(c.sha(chunks[0]))] + RecordsOf(c, seen, chunks[1..])
    else
      [Data(Compress(c, chunks[0]))] + RecordsOf(c, seen + {c.sha(chunks[0])}, chunks[1..])
  }

  function Digests(c: Codec, chunks: seq<Bytes>): set<Bytes> {
    set b | b in chunks :: c.sha(b)
  }

  function RecordFor(c: Codec, seen: set<Bytes>, b: Bytes): Record {
    if c.sha(b) in seen then Fingerprint(c.sha(b)) else Data(Compress(c, b))
  }

  /** Writing one more chunk at the end. */
  lemma {:induction false} RecordsOfSnoc(c: Codec, seen: set<Bytes>, chunks: seq<Bytes>, b: Bytes)
    ensures RecordsOf(c, seen, chunks + [b])
         == RecordsOf(c, seen, chunks) + [RecordFor(c, seen + Digests(c, chunks), b)]
    decreases |chunks|
  {
    if chunks == [] {
      assert chunks + [b] == [b];
      assert seen + Digests(c, chunks) == seen;
      assert RecordsOf(c, seen, [b]) == [RecordFor(c, seen, b)];
    } else {
      var h := c.sha(chunks[0]);
      assert (chunks + [b])[1..] == chunks[1..] + [b];
      RecordsOfSnoc(c, if h in seen then seen else seen + {h}, chunks[1..], b);
      assert chunks == [chunks[0]] + chunks[1..];
      assert seen + Digests(c, chunks) == (if h in seen then seen else seen + {h}) + Digests(c, chunks[1..]);
    }
  }

  /** The first-writer rule: a chunk's data is written where its digest occurs first, and everywhere
      else only the digest, so there is one data record per distinct digest, before its fingerprints. */
  lemma {:induction false} FirstWriter(c: Codec, chunks: seq<Bytes>)
    ensures |RecordsOf(c, {}, chunks)| == |chunks|
    ensures forall i :: 0 <= i < |chunks| ==>
              RecordsOf(c, {}, chunks)[i]
              == if exists j :: 0 <= j < i && c.sha(chunks[j]) == c.sha(chunks[i])
                 then Fingerprint(c.sha(chunks[i])) else Data(Compress(c, chunks[i]))
  {
    if chunks != [] {
      var init, b := chunks[..|chunks| - 1], chunks[|chunks| - 1];
      assert chunks == init + [b];
      FirstWriter(c, init);
      RecordsOfSnoc(c, {}, init, b);
      assert {} + Digests(c, init) == Digests(c, init);
      assert c.sha(b) in Digests(c, init) <==> exists j :: 0 <= j < |init| && c.sha(chunks[j]) == c.sha(b);
    }
  }

  ghost predicate CollisionFree(c: Codec, chunks: seq<Bytes>) {
    forall x, y :: x in chunks && y in chunks && c.sha(x) == c.sha(y) ==> x == y
  }

  /** Every chunk is non-empty and its compressed form has a length a size_t can hold. */
  predicate Storable(c: Codec, chunks: seq<Bytes>) {
    forall x :: x in chunks ==> 0 < |x| && |Compress(c, x)| < TWO64
  }

  /** A chunk the decoder can restore: lengths that survive the conversions to int, and for zlib and
      bzip2 a plain size within the fixed target buffer. */
  predicate Restorable(c: Codec, b: Bytes) {
    && |b| < TWO31
    && 0 < Int32(|Compress(c, b)|)
    && (!c.kind.NoCompression? ==> |b| <= UNCOMPRESS_BOUND)
  }

  /** In numbers: less than 2^31 bytes, also when compressed, and at most 10,000,000 with zlib or bzip2. */
  lemma RestorableInNumbers(c: Codec, b: Bytes)
    requires 0 < |Compress(c, b)| < 0x1_0000_0000
    ensures Restorable(c, b) <==>
              |b| < 0x8000_0000 && |Compress(c, b)| < 0x8000_0000 && (c.kind.NoCompression? || |b| <= 10_000_000)
  {
  }

  predicate AllRestorable(c: Codec, chunks: seq<Bytes>) {
    forall x :: x in chunks ==> Restorable(c, x)
  }

  /** Decoding what was encoded gives the chunks back when every chunk is restorable, and fails otherwise. */
  lemma RoundTrip(c: Codec, chunks: seq<Bytes>)
    requires CodecOk(c) && Storable(c, chunks) && CollisionFree(c, chunks)
    ensures DecodeFrom(c, SerializeAll(RecordsOf(c, {}, chunks)), map[])
         == if AllRestorable(c, chunks) then Some(Flatten(chunks)) else None
  {
    var empty: map<Bytes, Bytes> := map[];
    assert empty.Keys == {};
    RoundTripFrom(c, chunks, empty);
  }

  ghost predicate CacheFits(c: Codec, cache: map<Bytes, Bytes>, chunks: seq<Bytes>) {
    forall x :: x in chunks && c.sha(x) in cache ==> cache[c.sha(x)] == x && Restorable(c, x)
  }

  lemma {:induction false} RoundTripFrom(c: Codec, chunks: seq<Bytes>, cache: map<Bytes, Bytes>)
    requires CodecOk(c) && Storable(c, chunks) && CollisionFree(c, chunks)
    requires CacheFits(c, cache, chunks)
    ensures DecodeFrom(c, SerializeAll(RecordsOf(c, cache.Keys, chunks)), cache)
         == if AllRestorable(c, chunks) then Some(Flatten(chunks)) else None
    decreases |chunks|
  {
    if chunks != [] {
      var b := chunks[0];
      var h := c.sha(b);
      assert b in chunks;
      assert forall x :: x in chunks <==> x == b || x in chunks[1..];
      var rs := RecordsOf(c, cache.Keys, chunks);
      var rest := SerializeAll(rs[1..]);
      ReadSerialized(rs[0], rest);
      assert |chunks[1..]| < |chunks|;
      if h in cache {
        RoundTripFrom(c, chunks[1..], cache);
      } else {
        StepData(c, b, rest, cache);
        if Restorable(c, b) {
          assert cache[h := b].Keys == cache.Keys + {h};
          RoundTripFrom(c, chunks[1..], cache[h := b]);
        }
      }
    }
  }

  /** One data record of the decoder's loop. */
  lemma StepData(c: Codec, b: Bytes, rest: Bytes, cache: map<Bytes, Bytes>)
    requires CodecOk(c) && 0 < |b| && |Compress(c, b)| < TWO64
    ensures DecodeFrom(c, Serialize(Data(Compress(c, b))) + rest, cache)
         == if Restorable(c, b) then Prepend(b, DecodeFrom(c, rest, cache[c.sha(b) := b])) else None
  {
    var body := Compress(c, b);
    var file := Serialize(Data(body)) + rest;
    ReadSerialized(Data(body), rest);
    Int32Positive(|b|);
    DecodeData(c, file, body, rest, cache);
    assert c.kind.NoCompression? ==> body == b;
  }

  /** The decoder's loop unfolded at a data record. */
  lemma DecodeData(c: Codec, file: Bytes, body: Bytes, rest: Bytes, cache: map<Bytes, Bytes>)
    requires ReadChunk(file) == Got(Data(body), rest) || ReadChunk(file) == Bad
    ensures ReadChunk(file).Bad? ==> DecodeFrom(c, file, cache) == None
    ensures ReadChunk(file).Got? ==> (
              DecodeFrom(c, file, cache)
              == match Uncompress(c, body)
                 case None => None
                 case Some(u) =>
                   if Int32(|u|) <= 0 || Int32(|u|) < |u| then None
                   else Prepend(u, DecodeFrom(c, rest, cache[c.sha(u) := u])))
  {
  }
}
