/** The streaming Merkle-Damgard hash (md32_common.h 282-383), as SHA-1 uses it: blocks of 64 bytes and a big-endian
    length. The function that absorbs one block is a parameter. */
module StreamHash {
  import opened Common

  const BLOCK: nat := 64
  const TWO32: nat := 0x1_0000_0000
  const TWO64: nat := 0x1_0000_0000_0000_0000

  /** Absorb the whole blocks of a string; `Rest` is what is left over. */
  function Absorb<H>(f: (H, Bytes) -> H, h: H, bs: Bytes): H
    decreases |bs|
  {
    if |bs| < BLOCK then h else Absorb(f, f(h, bs[..BLOCK]), bs[BLOCK..])
  }

  function Rest(bs: Bytes): (r: Bytes)
    ensures |r| < BLOCK && |r| == |bs| % BLOCK
    decreases |bs|
  {
    if |bs| < BLOCK then bs else Rest(bs[BLOCK..])
  }

  /** Absorbing a string in two parts, carrying the rest of the first over to the second. */
  lemma {:induction false} AbsorbParts<H>(f: (H, Bytes) -> H, h: H, a: Bytes, b: Bytes)
    ensures Absorb(f, h, a + b) == Absorb(f, Absorb(f, h, a), Rest(a) + b)
    ensures Rest(a + b) == Rest(Rest(a) + b)
    decreases |a|
  {
    if |a| >= BLOCK {
      assert (a + b)[..BLOCK] == a[..BLOCK] && (a + b)[BLOCK..] == a[BLOCK..] + b;
      AbsorbParts(f, f(h, a[..BLOCK]), a[BLOCK..], b);
    }
  }

  /** Eight bytes, the most significant first. */
  function BigEndian64(n: nat): (r: Bytes)
    ensures |r| == 8
  {
    BigEndian32(n / TWO32) + BigEndian32(n)
  }

  /** The low 32 bits in four bytes (HOST_l2c). */
  function BigEndian32(n: nat): (r: Bytes)
    ensures |r| == 4
  {
    [(n / 0x1000000 % 256) as Byte, (n / 0x10000 % 256) as Byte, (n / 0x100 % 256) as Byte, (n % 256) as Byte]
  }

  /** The value of a string of bytes, the most significant first. */
  function BigEndianValue(bs: Bytes): nat {
    if bs == [] then 0 else 256 * BigEndianValue(bs[..|bs| - 1]) + bs[|bs| - 1] as nat
  }

  lemma ValueSnoc(bs: Bytes, x: Byte)
    ensures BigEndianValue(bs + [x]) == 256 * BigEndianValue(bs) + x as nat
  {
    assert (bs + [x])[..|bs|] == bs;
  }

  lemma ValueOfFour(a: Byte, b: Byte, c: Byte, d: Byte, before: Bytes)
    ensures BigEndianValue(before + [a, b, c, d])
         == 0x1_0000_0000 * BigEndianValue(before) + 0x100_0000 * a as nat + 0x1_0000 * b as nat + 0x100 * c as nat + d as nat
  {
    hide BigEndianValue;
    ValueSnoc(before, a);
    ValueSnoc(before + [a], b);
    ValueSnoc(before + [a] + [b], c);
    ValueSnoc(before + [a] + [b] + [c], d);
    assert before + [a, b, c, d] == before + [a] + [b] + [c] + [d];
  }

  lemma DivideTwice(n: nat)
    ensures n / 0x100 / 0x100 == n / 0x1_0000 && n / 0x100 / 0x100 / 0x100 == n / 0x100_0000
  {
  }

  lemma LowPart(n: nat, q: nat, r: nat)
    requires n == q * 0x1_0000_0000 + r && r < 0x1_0000_0000
    ensures n % 0x1_0000_0000 == r
  {
  }

  lemma Digit(n: nat)
    ensures n == 256 * (n / 0x100) + n % 256
  {
  }

  lemma FourBytes(n: nat)
    ensures 0x100_0000 * (n / 0x100_0000 % 256) + 0x1_0000 * (n / 0x1_0000 % 256) + 0x100 * (n / 0x100 % 256) + n % 256
         == n % 0x1_0000_0000
  {
    DivideTwice(n);
    var a := n / 0x100;
    var b := a / 0x100;
    var c := b / 0x100;
    var d := c / 0x100;
    Digit(n);
    Digit(a);
    Digit(b);
    Digit(c);
    Low4(n, a % 256, b % 256, c % 256, d);
  }

  lemma Low4(n: nat, a: nat, b: nat, c: nat, d: nat)
    requires a < 256 && b < 256 && c < 256
    requires n == 256 * (256 * (256 * (256 * d + c) + b) + a) + n % 256
    ensures n % 0x1_0000_0000 == 0x100_0000 * c + 0x1_0000 * b + 0x100 * a + n % 256
  {
    LowPart(n, d, 0x100_0000 * c + 0x1_0000 * b + 0x100 * a + n % 256);
  }

  lemma ValueOf32(n: nat, before: Bytes)
    ensures BigEndianValue(before + BigEndian32(n)) == 0x1_0000_0000 * BigEndianValue(before) + n % 0x1_0000_0000
  {
    ValueOfFour((n / 0x1000000 % 256) as Byte, (n / 0x10000 % 256) as Byte, (n / 0x100 % 256) as Byte, (n % 256) as Byte, before);
    FourBytes(n);
  }

  /** The eight bytes of a 64-bit number have that number as their value. */
  lemma BigEndianRoundTrip(n: nat)
    requires n < 0x1_0000_0000_0000_0000
    ensures BigEndianValue(BigEndian64(n)) == n
  {
    hide BigEndian32;
    var high := BigEndian32(n / TWO32);
    assert [] + high == high;
    ValueOf32(n / TWO32, []);
    ValueOf32(n, high);
  }

  function Zeros(n: nat): (r: Bytes)
    ensures |r| == n
  {
    seq(n, _ => 0)
  }

  /** The least number of zero bytes that brings the length field to the end of a block. */
  function ZeroCount(len: nat): (k: nat)
    ensures (len + 1 + k + 8) % BLOCK == 0 && k < BLOCK
  {
    var n := len % BLOCK + 1;
    if n <= BLOCK - 8 then BLOCK - 8 - n else 2 * BLOCK - 8 - n
  }

  /** Section 5.1.1 of FIPS 180-4, for a message of whole bytes. */
  function Padded(msg: Bytes): Bytes {
    msg + [0x80] + Zeros(ZeroCount(|msg|)) + BigEndian64(8 * |msg| % TWO64)
  }

  /** The padded message of section 5.1.1 of FIPS 180-4, in numbers: the message, a one bit, as few zero bits as bring
      the length to 448 modulo 512 bits, and the bit count in 64 bits, most significant byte first. */
  lemma PaddedLayout(msg: Bytes)
    ensures var p := Padded(msg);
            && |p| % 64 == 0 && |msg| + 9 <= |p| < |msg| + 9 + 64
            && p[..|msg|] == msg && p[|msg|] == 0x80
            && (forall i :: |msg| < i < |p| - 8 ==> p[i] == 0)
            && BigEndianValue(p[|p| - 8..]) == 8 * |msg| % 0x1_0000_0000_0000_0000
  {
    hide BigEndian64, BigEndianValue;
    var length := BigEndian64(8 * |msg| % TWO64);
    BigEndianRoundTrip(8 * |msg| % TWO64);
    var p := Padded(msg);
    assert p[|p| - 8..] == length;
  }

  /** The hash of a message in one piece. */
  function OneShot<H>(f: (H, Bytes) -> H, init: H, msg: Bytes): H {
    Absorb(f, init, Padded(msg))
  }

  // ---------------------------------------------------------------- the context

  const EIGHTH: nat := 0x2000_0000

  /** The two words of the bit count after len more bytes, with the carry found by comparison. */
  lemma CountCarries(nh: nat, nl: nat, m: nat, len: nat)
    requires nh < TWO32 && nl < TWO32 && nh * TWO32 + nl == 8 * m % TWO64
    ensures var l := (nl + len % TWO32 * 8 % TWO32) % TWO32;
            var h := ((if l < nl then (nh + 1) % TWO32 else nh) + len / EIGHTH) % TWO32;
            h * TWO32 + l == 8 * (m + len) % TWO64
  {
    var low, high := len % EIGHTH, len / EIGHTH;
    assert len == high * EIGHTH + low;
    LowWord(len);
    var sum := nl + 8 * low;
    var l := sum % TWO32;
    var carry := if l < nl then 1 else 0;
    assert sum == carry * TWO32 + l;
    var h := (nh + carry + high) % TWO32;
    WrapTwice(nh, carry, high);
    HighWord(nh + carry + high, l);
    assert (nh + carry + high) * TWO32 + l == nh * TWO32 + nl + 8 * len;
    AddModulo(8 * m, 8 * len, TWO64);
  }

  lemma LowWord(len: nat)
    ensures len % TWO32 * 8 % TWO32 == 8 * (len % EIGHTH)
  {
    var q := len / TWO32;
    var r := len % TWO32;
    assert len == q * TWO32 + r;
    assert r == (r / EIGHTH) * EIGHTH + r % EIGHTH && r / EIGHTH < 8;
    assert len % EIGHTH == r % EIGHTH;
    assert r * 8 == (r / EIGHTH) * TWO32 + 8 * (r % EIGHTH);
  }

  lemma WrapTwice(nh: nat, carry: nat, high: nat)
    requires nh < TWO32 && carry <= 1
    ensures ((nh + carry) % TWO32 + high) % TWO32 == (nh + carry + high) % TWO32
  {
  }

  lemma HighWord(h: nat, l: nat)
    requires l < TWO32
    ensures h % TWO32 * TWO32 + l == (h * TWO32 + l) % TWO64
  {
    var q, r := h / TWO32, h % TWO32;
    assert h == q * TWO32 + r;
    assert h * TWO32 + l == q * TWO64 + (r * TWO32 + l);
    assert r * TWO32 + l < TWO64;
  }

  lemma AddModulo(a: nat, b: nat, m: nat)
    requires m == TWO64
    ensures (a % m + b) % m == (a + b) % m
  {
  }

  /** memcpy into the buffer. */
  method CopyInto(a: array<Byte>, at: nat, src: Bytes)
    requires at + |src| <= a.Length
    modifies a
    ensures a[..at + |src|] == old(a[..at]) + src
    ensures a[at + |src|..] == old(a[at + |src|..])
  {
    var i := 0;
    while i < |src|
      invariant 0 <= i <= |src|
      invariant a[..at + i] == old(a[..at]) + src[..i]
      invariant forall j :: at + i <= j < a.Length ==> a[j] == old(a[j])
    {
      a[at + i] := src[i];
      assert a[..at + i + 1] == a[..at + i] + [src[i]];
      i := i + 1;
    }
  }

  class HashContext<H(0)> {
    const compress: (H, Bytes) -> H
    const init: H
    const data: array<Byte>
    var h: H
    var num: nat
    var nl: nat
    var nh: nat
    ghost var msg: Bytes

    /** `msg` is everything seen so far: its whole blocks are in h, the rest is in the buffer, and the counter holds
        its length in bits modulo 2^64. */
    ghost predicate Valid()
      reads this, data
    {
      && data.Length == BLOCK && num < BLOCK && nl < TWO32 && nh < TWO32
      && h == Absorb(compress, init, msg) && data[..num] == Rest(msg)
      && nh * TWO32 + nl == 8 * |msg| % TWO64
    }

    constructor (compress: (H, Bytes) -> H, init: H)
      ensures Valid() && msg == [] && this.compress == compress && this.init == init && fresh(data)
    {
      this.compress, this.init, h := compress, init, init;
      data := new Byte[BLOCK](_ => 0);
      num, nl, nh, msg := 0, 0, 0, [];
    }

    /** HASH_BLOCK_DATA_ORDER for several blocks. */
    method Blocks(p: Bytes)
      requires |p| % BLOCK == 0
      modifies this`h
      ensures h == Absorb(compress, old(h), p)
    {
      var i := 0;
      assert p[0..] == p;
      while i < |p|
        invariant 0 <= i <= |p| && i % BLOCK == 0
        invariant Absorb(compress, h, p[i..]) == Absorb(compress, old(h), p)
      {
        assert p[i..][BLOCK..] == p[i + BLOCK..] && p[i..][..BLOCK] == p[i..i + BLOCK];
        h := compress(h, p[i..i + BLOCK]);
        i := i + BLOCK;
      }
    }

    method Count(len: nat)
      requires nh < TWO32 && nl < TWO32 && nh * TWO32 + nl == 8 * |msg| % TWO64
      modifies this`nl, this`nh
      ensures nh < TWO32 && nl < TWO32 && nh * TWO32 + nl == 8 * (|msg| + len) % TWO64
    {
      CountCarries(nh, nl, |msg|, len);
      var l := (nl + len % TWO32 * 8 % TWO32) % TWO32;
      if l < nl {
        nh := (nh + 1) % TWO32;
      }
      nh := (nh + len / EIGHTH) % TWO32;
      nl := l;
    }

    /** HASH_UPDATE: afterwards the context is as if all pieces had come in one. */
    method Update(piece: Bytes)
      requires Valid()
      modifies this`h, this`num, this`nl, this`nh, this`msg, data
      ensures Valid() && msg == old(msg) + piece
    {
      hide Absorb, Rest;
      if |piece| == 0 {
        assert msg + piece == msg;
        return;
      }
      Count(|piece|);
      AbsorbParts(compress, init, msg, piece);
      msg := msg + piece;
      if num != 0 {
        if |piece| >= BLOCK || |piece| + num >= BLOCK {
          var n := BLOCK - num;
          assert piece == piece[..n] + piece[n..];
          FlushBuffer(piece[..n], piece[n..]);
          Bulk(piece[n..]);
        } else {
          ghost var all := data[..num] + piece;
          CopyInto(data, num, piece);
          num := num + |piece|;
          ShortRest(compress, h, all);
        }
      } else {
        assert data[..0] + piece == piece;
        Bulk(piece);
      }
    }

    /** Complete the block in the buffer and absorb it. */
    method FlushBuffer(part: Bytes, ghost rest: Bytes)
      requires data.Length == BLOCK && num <= BLOCK && |part| == BLOCK - num
      modifies this`h, this`num, data
      ensures num == 0
      ensures Absorb(compress, h, rest) == Absorb(compress, old(h), old(data[..num]) + (part + rest))
      ensures Rest(rest) == Rest(old(data[..num]) + (part + rest))
    {
      ghost var before := data[..num];
      CopyInto(data, num, part);
      assert data[..] == before + part;
      Associative(before, part, rest);
      FirstBlock(compress, h, before + (part + rest), data[..], rest);
      Blocks(data[..]);
      num := 0;
      ClearBuffer();
    }

    method ClearBuffer()
      requires data.Length == BLOCK
      modifies data
      ensures data[..] == Zeros(BLOCK)
    {
      CopyInto(data, 0, Zeros(BLOCK));
      assert data[..] == Zeros(BLOCK);
    }

    /** The part of HASH_UPDATE that runs with an empty buffer. */
    method Bulk(piece: Bytes)
      requires data.Length == BLOCK && num == 0
      modifies this`h, this`num, data
      ensures num < BLOCK && h == Absorb(compress, old(h), piece) && data[..num] == Rest(piece)
    {
      var n := |piece| / BLOCK;
      var rest := piece;
      WholeBlocks(compress, h, piece, n * BLOCK);
      if n > 0 {
        Blocks(piece[..n * BLOCK]);
        rest := piece[n * BLOCK..];
      }
      if |rest| != 0 {
        num := |rest|;
        CopyInto(data, 0, rest);
      }
    }

    /** HASH_FINAL: padding in place, then the digest. */
    method Final() returns (digest: H)
      requires Valid()
      modifies this`h, this`num, data
      ensures digest == OneShot(compress, init, msg)
    {
      hide Absorb, Rest, OneShot, BigEndian32, BigEndian64;
      FinalBlocks(compress, init, msg, BigEndian64(8 * |msg| % TWO64));
      LengthWords(nh, nl);
      var n := num;
      CopyInto(data, n, [0x80]);
      n := n + 1;
      if n > BLOCK - 8 {
        PadBlock(n);
        n := 0;
        assert data[..0] + Zeros(BLOCK - 8) == Zeros(BLOCK - 8);
      }
      LastBlock(n);
      digest := h;
      num := 0;
      ClearBuffer();
    }

    /** Fill the block with zeros and absorb it. */
    method PadBlock(n: nat)
      requires data.Length == BLOCK && n <= BLOCK
      modifies this`h, data
      ensures h == Absorb(compress, old(h), old(data[..n]) + Zeros(BLOCK - n))
    {
      hide Absorb;
      ghost var before := data[..n];
      CopyInto(data, n, Zeros(BLOCK - n));
      assert data[..] == before + Zeros(BLOCK - n);
      Blocks(data[..]);
    }

    /** Zeros and the length. */
    method LastBlock(n: nat)
      requires data.Length == BLOCK && n <= BLOCK - 8
      modifies this`h, data
      ensures h == Absorb(compress, old(h),
                          old(data[..n]) + Zeros(BLOCK - 8 - n) + (BigEndian32(nh) + BigEndian32(nl)))
    {
      hide Absorb, BigEndian32;
      ghost var before := data[..n];
      CopyInto(data, n, Zeros(BLOCK - 8 - n));
      CopyInto(data, BLOCK - 8, BigEndian32(nh) + BigEndian32(nl));
      assert data[..] == before + Zeros(BLOCK - 8 - n) + (BigEndian32(nh) + BigEndian32(nl));
      Blocks(data[..]);
    }
  }

  /** The two words of the counter are the eight bytes of the length. */
  lemma LengthWords(nh: nat, nl: nat)
    requires nh < TWO32 && nl < TWO32
    ensures BigEndian64(nh * TWO32 + nl) == BigEndian32(nh) + BigEndian32(nl)
  {
    var n := nh * TWO32 + nl;
    assert n / TWO32 == nh;
    Byte3(nh, nl);
    Byte2(nh, nl);
    Byte1(nh, nl);
    Byte0(nh, nl);
  }

  lemma DropMultiple(a: nat, b: nat)
    ensures (256 * a + b) % 256 == b % 256
  {
  }

  lemma Byte3(nh: nat, nl: nat)
    ensures (nh * TWO32 + nl) / 0x1000000 % 256 == nl / 0x1000000 % 256
  {
    assert (nh * TWO32 + nl) / 0x1000000 == 256 * nh + nl / 0x1000000;
    DropMultiple(nh, nl / 0x1000000);
  }

  lemma Byte2(nh: nat, nl: nat)
    ensures (nh * TWO32 + nl) / 0x10000 % 256 == nl / 0x10000 % 256
  {
    assert (nh * TWO32 + nl) / 0x10000 == 256 * (nh * 0x100) + nl / 0x10000;
    DropMultiple(nh * 0x100, nl / 0x10000);
  }

  lemma Byte1(nh: nat, nl: nat)
    ensures (nh * TWO32 + nl) / 0x100 % 256 == nl / 0x100 % 256
  {
    assert (nh * TWO32 + nl) / 0x100 == 256 * (nh * 0x10000) + nl / 0x100;
    DropMultiple(nh * 0x10000, nl / 0x100);
  }

  lemma Byte0(nh: nat, nl: nat)
    ensures (nh * TWO32 + nl) % 256 == nl % 256
  {
  }

  lemma ShortPad(tail: Bytes, length: Bytes, k: nat)
    requires |tail| + 1 + k == BLOCK - 8
    ensures tail + ([0x80] + Zeros(k) + length) == tail + [0x80] + Zeros(k) + length
  {
  }

  lemma LongPad(tail: Bytes, length: Bytes, j: nat, k: nat)
    requires k == j + BLOCK - 8
    ensures tail + ([0x80] + Zeros(k) + length) == (tail + [0x80] + Zeros(j)) + (Zeros(BLOCK - 8) + length)
  {
    assert Zeros(k) == Zeros(j) + Zeros(BLOCK - 8);
  }

  lemma PaddedIs(msg: Bytes, length: Bytes)
    requires length == BigEndian64(8 * |msg| % TWO64)
    ensures Padded(msg) == msg + ([0x80] + Zeros(ZeroCount(|msg|)) + length)
  {
  }

  /** The padded message ends with one block, or with two when the length does not fit into the first. */
  lemma FinalBlocks<H>(f: (H, Bytes) -> H, init: H, msg: Bytes, length: Bytes)
    requires length == BigEndian64(8 * |msg| % TWO64)
    ensures var tail, h := Rest(msg), Absorb(f, init, msg);
            var n := |tail| + 1;
            && (n <= BLOCK - 8 ==>
                  OneShot(f, init, msg) == Absorb(f, h, tail + [0x80] + Zeros(BLOCK - 8 - n) + length))
            && (n > BLOCK - 8 ==>
                  OneShot(f, init, msg)
                  == Absorb(f, Absorb(f, h, tail + [0x80] + Zeros(BLOCK - n)), Zeros(BLOCK - 8) + length))
  {
    hide Absorb, Rest, BigEndian64, Padded, Zeros;
    var tail, h, k := Rest(msg), Absorb(f, init, msg), ZeroCount(|msg|);
    var pad := [0x80] + Zeros(k) + length;
    PaddedIs(msg, length);
    AbsorbParts(f, init, msg, pad);
    var n := |tail| + 1;
    if n <= BLOCK - 8 {
      ShortPad(tail, length, k);
    } else {
      LongPad(tail, length, BLOCK - n, k);
      FirstBlock(f, h, tail + pad, tail + [0x80] + Zeros(BLOCK - n), Zeros(BLOCK - 8) + length);
    }
  }

  /** However a message is cut into pieces, hashing the pieces one after another gives the hash of the message. */
  method HashPieces<H(0)>(compress: (H, Bytes) -> H, init: H, pieces: seq<Bytes>) returns (digest: H)
    ensures digest == OneShot(compress, init, Flatten(pieces))
  {
    var context := new HashContext(compress, init);
    var i := 0;
    while i < |pieces|
      invariant 0 <= i <= |pieces| && context.Valid() && fresh(context) && fresh(context.data)
      invariant context.compress == compress && context.init == init && context.msg == Flatten(pieces[..i])
    {
      assert pieces[..i + 1] == pieces[..i] + [pieces[i]];
      FlattenSnoc(pieces[..i], pieces[i]);
      context.Update(pieces[i]);
      i := i + 1;
    }
    assert pieces[..i] == pieces;
    digest := context.Final();
  }

  lemma ShortRest<H>(f: (H, Bytes) -> H, h: H, bs: Bytes)
    requires |bs| < BLOCK
    ensures Absorb(f, h, bs) == h && Rest(bs) == bs
  {
  }

  lemma FirstBlock<H>(f: (H, Bytes) -> H, h: H, all: Bytes, block: Bytes, rest: Bytes)
    requires |block| == BLOCK && all == block + rest
    ensures Absorb(f, h, all) == Absorb(f, Absorb(f, h, block), rest) && Rest(all) == Rest(rest)
  {
    assert all[..BLOCK] == block && all[BLOCK..] == rest && block[..BLOCK] == block;
  }

  lemma {:induction false} WholeBlocks<H>(f: (H, Bytes) -> H, h: H, bs: Bytes, k: nat)
    requires k <= |bs| && k % BLOCK == 0 && |bs| - k < BLOCK
    ensures Absorb(f, h, bs) == Absorb(f, h, bs[..k]) && Rest(bs) == bs[k..]
    decreases |bs|
  {
    if k > 0 {
      assert bs[..k][..BLOCK] == bs[..BLOCK] && bs[..k][BLOCK..] == bs[BLOCK..][..k - BLOCK];
      WholeBlocks(f, f(h, bs[..BLOCK]), bs[BLOCK..], k - BLOCK);
    }
  }
}
