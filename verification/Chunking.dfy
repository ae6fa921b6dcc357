/** Cutting the input into chunks: the read-split-leftover loop shared by Fragment and by the serial
    pipeline, and the refinement of a coarse chunk (encoder.c). */
module Chunking {
  import opened Common

  /** A segmentation function (rabinseg): an offset of at least one and at most the length. */
  ghost predicate SegOk(seg: Bytes -> nat) {
    forall b: Bytes :: b != [] ==> 1 <= seg(b) <= |b|
  }

  /** Where a buffer is cut, searching from `jump` bytes on; the length of the buffer means no cut. */
  function CutAt(seg: Bytes -> nat, jump: nat, buf: Bytes): nat {
    if jump < |buf| then jump + seg(buf[jump..]) else |buf|
  }

  lemma CutInRange(seg: Bytes -> nat, jump: nat, buf: Bytes)
    requires SegOk(seg) && buf != []
    ensures 1 <= CutAt(seg, jump, buf) <= |buf|
  {
  }

  predicate NonEmptyParts(parts: seq<Bytes>) {
    forall i :: 0 <= i < |parts| ==> parts[i] != []
  }

  datatype Split = Split(parts: seq<Bytes>, left: Bytes)

  /** One more piece in front. */
  lemma FirstPiece(buf: Bytes, cut: nat, parts: seq<Bytes>, left: Bytes)
    requires 0 < cut <= |buf| && NonEmptyParts(parts) && Flatten(parts) + left == buf[cut..]
    ensures NonEmptyParts([buf[..cut]] + parts) && Flatten([buf[..cut]] + parts) + left == buf
  {
    FlattenCons(buf[..cut], parts);
    assert buf[..cut] + buf[cut..] == buf;
    Associative(buf[..cut], Flatten(parts), left);
    hide Flatten;
  }

  /** The chunks cut from a buffer, and what is left of it. */
  function SplitAll(seg: Bytes -> nat, jump: nat, buf: Bytes): (s: Split)
    requires SegOk(seg) && buf != []
    ensures s.left != [] && NonEmptyParts(s.parts)
    ensures Flatten(s.parts) + s.left == buf
    decreases |buf|
  {
    CutInRange(seg, jump, buf);
    var cut := CutAt(seg, jump, buf);
    if cut < |buf| then
      var later := SplitAll(seg, jump, buf[cut..]);
      FirstPiece(buf, cut, later.parts, later.left);
      Split([buf[..cut]] + later.parts, later.left)
    else Split([], buf)
  }

  /** Where the pieces end: each is as long as the jump and what the search finds behind it, as long as that is not the
      end of the buffer; in the rest nothing more is found. */
  lemma {:induction false} SplitAllCuts(seg: Bytes -> nat, jump: nat, buf: Bytes, i: nat)
    requires SegOk(seg) && buf != [] && i <= |SplitAll(seg, jump, buf).parts|
    ensures var s := SplitAll(seg, jump, buf);
            var tail := Flatten(s.parts[i..]) + s.left;
            if i < |s.parts| then jump < |tail| && |s.parts[i]| == jump + seg(tail[jump..]) < |tail|
            else tail == s.left && (jump < |tail| ==> jump + seg(tail[jump..]) >= |tail|)
    decreases i
  {
    hide Flatten, NonEmptyParts, SegOk, CutAt;
    var s := SplitAll(seg, jump, buf);
    assert s.parts[0..] == s.parts;
    var cut := CutAt(seg, jump, buf);
    CutInRange(seg, jump, buf);
    FirstCutIs(seg, jump, buf);
    if s.parts == [] {
      NoParts(s.left);
    } else if i > 0 {
      assert s.parts[i..] == SplitAll(seg, jump, buf[cut..]).parts[i - 1..];
      SplitAllCuts(seg, jump, buf[cut..], i - 1);
    }
  }

  lemma FirstCutIs(seg: Bytes -> nat, jump: nat, buf: Bytes)
    requires SegOk(seg) && buf != []
    ensures if CutAt(seg, jump, buf) < |buf| then jump < |buf| && CutAt(seg, jump, buf) == jump + seg(buf[jump..])
            else jump < |buf| ==> jump + seg(buf[jump..]) >= |buf|
  {
  }

  lemma NoParts(left: Bytes)
    ensures Flatten([]) + left == left
  {
  }

  /** Every piece is longer than the jump. */
  lemma PiecesAreLong(seg: Bytes -> nat, jump: nat, buf: Bytes)
    requires SegOk(seg) && buf != []
    ensures forall i :: 0 <= i < |SplitAll(seg, jump, buf).parts| ==> |SplitAll(seg, jump, buf).parts[i]| > jump
  {
    forall i | 0 <= i < |SplitAll(seg, jump, buf).parts|
      ensures |SplitAll(seg, jump, buf).parts[i]| > jump
    {
      SplitAllCuts(seg, jump, buf, i);
    }
  }

  /** The chunks of the input from a position on, with `left` carried over from the previous buffer: nothing is
      lost, added or reordered, and no chunk is empty. */
  function ChunksFrom(seg: Bytes -> nat, jump: nat, maxbuf: nat, left: Bytes, input: Bytes, seek: nat): (chunks: seq<Bytes>)
    requires SegOk(seg) && 0 < maxbuf && seek <= |input|
    ensures NonEmptyParts(chunks)
    ensures Flatten(chunks) == left + input[seek..]
    decreases |input| - seek
  {
    var n := Min(maxbuf, |input| - seek);
    var buf := left + input[seek..seek + n];
    assert input[seek..] == input[seek..seek + n] + input[seek + n..];
    if buf == [] then []
    else if n == 0 then FlattenCons(buf, []); assert [buf] + [] == [buf]; [buf]
    else
      var split := SplitAll(seg, jump, buf);
      var rest := ChunksFrom(seg, jump, maxbuf, split.left, input, seek + n);
      Glue(split.parts, rest, split.left, left, input[seek..seek + n], input[seek + n..]);
      split.parts + rest
  }

  lemma Glue(parts: seq<Bytes>, rest: seq<Bytes>, carried: Bytes, left: Bytes, now: Bytes, later: Bytes)
    requires Flatten(parts) + carried == left + now && Flatten(rest) == carried + later
    ensures Flatten(parts + rest) == left + (now + later)
  {
    FlattenAppend(parts, rest);
    Associative(Flatten(parts), carried, later);
    Associative(left, now, later);
  }

  /** One turn of the outer loop. */
  lemma ChunksStep(seg: Bytes -> nat, jump: nat, maxbuf: nat, left: Bytes, input: Bytes, seek: nat)
    requires SegOk(seg) && 0 < maxbuf && seek <= |input|
    ensures var n := Min(maxbuf, |input| - seek);
            var buf := left + input[seek..seek + n];
            && (buf == [] ==> ChunksFrom(seg, jump, maxbuf, left, input, seek) == [])
            && (buf != [] && n == 0 ==> ChunksFrom(seg, jump, maxbuf, left, input, seek) == [buf])
            && (buf != [] && n != 0 ==>
                  ChunksFrom(seg, jump, maxbuf, left, input, seek)
                  == SplitAll(seg, jump, buf).parts
                     + ChunksFrom(seg, jump, maxbuf, SplitAll(seg, jump, buf).left, input, seek + n))
  {
    hide SplitAll, Flatten, NonEmptyParts;
  }

  /** Every chunk but the last is longer than the jump. */
  lemma {:induction false} ChunksAreLong(seg: Bytes -> nat, jump: nat, maxbuf: nat, left: Bytes, input: Bytes, seek: nat)
    requires SegOk(seg) && 0 < maxbuf && seek <= |input|
    ensures var chunks := ChunksFrom(seg, jump, maxbuf, left, input, seek);
            forall i :: 0 <= i < |chunks| - 1 ==> |chunks[i]| > jump
    decreases |input| - seek
  {
    hide ChunksFrom, SplitAll, Flatten, NonEmptyParts, SegOk;
    ChunksStep(seg, jump, maxbuf, left, input, seek);
    var n := Min(maxbuf, |input| - seek);
    var buf := left + input[seek..seek + n];
    if buf != [] && n != 0 {
      PiecesAreLong(seg, jump, buf);
      ChunksAreLong(seg, jump, maxbuf, SplitAll(seg, jump, buf).left, input, seek + n);
    }
  }

  // ---------------------------------------------------------------- the buffer size does not matter

  /** A cut that is found before the end does not depend on what follows. */
  ghost predicate Stable(seg: Bytes -> nat) {
    forall b: Bytes, more: Bytes :: b != [] && seg(b) < |b| ==> seg(b + more) == seg(b)
  }

  lemma CutStable(seg: Bytes -> nat, jump: nat, buf: Bytes, more: Bytes)
    requires SegOk(seg) && Stable(seg) && buf != [] && CutAt(seg, jump, buf) < |buf|
    ensures CutAt(seg, jump, buf + more) == CutAt(seg, jump, buf)
  {
    assert (buf + more)[jump..] == buf[jump..] + more;
  }

  /** Splitting a longer buffer: the pieces of the first part stay, its rest is split again together with the second. */
  lemma {:induction false} SplitMore(seg: Bytes -> nat, jump: nat, buf: Bytes, more: Bytes)
    requires SegOk(seg) && Stable(seg) && buf != []
    ensures var s := SplitAll(seg, jump, buf);
            var t := SplitAll(seg, jump, s.left + more);
            SplitAll(seg, jump, buf + more) == Split(s.parts + t.parts, t.left)
    decreases |buf|
  {
    hide Flatten, CutAt, NonEmptyParts, Stable, SegOk;
    var cut := CutAt(seg, jump, buf);
    if cut < |buf| {
      CutInRange(seg, jump, buf);
      CutStable(seg, jump, buf, more);
      assert (buf + more)[..cut] == buf[..cut] && (buf + more)[cut..] == buf[cut..] + more;
      SplitMore(seg, jump, buf[cut..], more);
      var later := SplitAll(seg, jump, buf[cut..]);
      Associative([buf[..cut]], later.parts, SplitAll(seg, jump, later.left + more).parts);
    }
  }

  /** In the rest of a buffer there is no cut. */
  lemma {:induction false} RestIsUncut(seg: Bytes -> nat, jump: nat, buf: Bytes)
    requires SegOk(seg) && buf != []
    ensures var left := SplitAll(seg, jump, buf).left; SplitAll(seg, jump, left) == Split([], left)
    decreases |buf|
  {
    hide Flatten, CutAt, NonEmptyParts, SegOk;
    var cut := CutAt(seg, jump, buf);
    if cut < |buf| {
      CutInRange(seg, jump, buf);
      RestIsUncut(seg, jump, buf[cut..]);
    }
  }

  /** All pieces and the rest. */
  function WholeChunks(seg: Bytes -> nat, jump: nat, buf: Bytes): seq<Bytes>
    requires SegOk(seg)
  {
    if buf == [] then [] else SplitAll(seg, jump, buf).parts + [SplitAll(seg, jump, buf).left]
  }

  /** With a stable split function the chunks are those of the whole input in one buffer, whatever the buffer size. */
  lemma {:induction false} AnyBufferSize(seg: Bytes -> nat, jump: nat, maxbuf: nat, left: Bytes, input: Bytes, seek: nat)
    requires SegOk(seg) && Stable(seg) && 0 < maxbuf && seek <= |input|
    requires left != [] ==> SplitAll(seg, jump, left) == Split([], left)
    ensures ChunksFrom(seg, jump, maxbuf, left, input, seek) == WholeChunks(seg, jump, left + input[seek..])
    decreases |input| - seek
  {
    hide ChunksFrom, SplitAll, Flatten, NonEmptyParts, SegOk, Stable;
    ChunksStep(seg, jump, maxbuf, left, input, seek);
    var n := Min(maxbuf, |input| - seek);
    var buf, more := left + input[seek..seek + n], input[seek + n..];
    assert left + input[seek..] == buf + more;
    if n == 0 {
      assert buf == left && more == [] && buf + more == left && [] + [left] == [left];
    } else {
      var s := SplitAll(seg, jump, buf);
      RestIsUncut(seg, jump, buf);
      SplitMore(seg, jump, buf, more);
      AnyBufferSize(seg, jump, maxbuf, s.left, input, seek + n);
      var t := SplitAll(seg, jump, s.left + more);
      Associative(s.parts, t.parts, [t.left]);
    }
  }

  /** The inner loop of Fragment: send the pieces of one buffer, return its uncut rest. */
  method SendPieces(seg: Bytes -> nat, jump: nat, buf: Bytes, sentBefore: seq<Bytes>)
    returns (sent: seq<Bytes>, temp: Bytes)
    requires SegOk(seg) && buf != []
    ensures sent == sentBefore + SplitAll(seg, jump, buf).parts && temp == SplitAll(seg, jump, buf).left
  {
    sent, temp := sentBefore, [];
    var chunk := buf;
    var split := true;
    ghost var parts, left := sent + SplitAll(seg, jump, buf).parts, SplitAll(seg, jump, buf).left;
    while split
      invariant split ==> chunk != [] && left == SplitAll(seg, jump, chunk).left
      invariant split ==> parts == sent + SplitAll(seg, jump, chunk).parts
      invariant !split ==> parts == sent && left == temp
      decreases split, |chunk|
    {
      split := false;
      CutInRange(seg, jump, chunk);
      var cut := CutAt(seg, jump, chunk);
      if cut < |chunk| {
        Associative(sent, [chunk[..cut]], SplitAll(seg, jump, chunk[cut..]).parts);
        sent := sent + [chunk[..cut]];
        chunk := chunk[cut..];
        split := true;
      } else {
        temp := chunk;
      }
    }
  }

  /** The loop of Fragment: refill the buffer, send its pieces, carry the rest over. */
  method Fragment(seg: Bytes -> nat, jump: nat, maxbuf: nat, input: Bytes) returns (sent: seq<Bytes>)
    requires SegOk(seg) && 0 < maxbuf
    ensures sent == ChunksFrom(seg, jump, maxbuf, [], input, 0)
  {
    hide ChunksFrom, SplitAll, Flatten, NonEmptyParts, SegOk;
    sent := [];
    var temp: Bytes := [];
    var seek := 0;
    ghost var all := ChunksFrom(seg, jump, maxbuf, [], input, 0);
    while true
      invariant seek <= |input|
      invariant all == sent + ChunksFrom(seg, jump, maxbuf, temp, input, seek)
      decreases |input| - seek
    {
      ChunksStep(seg, jump, maxbuf, temp, input, seek);
      var maxRead := Min(maxbuf, |input| - seek);
      var chunk := temp + input[seek..seek + maxRead];
      seek := seek + maxRead;
      if chunk == [] {
        return;
      }
      if maxRead == 0 {
        sent := sent + [chunk];
        return;
      }
      Associative(sent, SplitAll(seg, jump, chunk).parts,
                  ChunksFrom(seg, jump, maxbuf, SplitAll(seg, jump, chunk).left, input, seek));
      sent, temp := SendPieces(seg, jump, chunk, sent);
    }
  }

  // ---------------------------------------------------------------- refinement

  /** The fine chunks FragmentRefine cuts from one coarse chunk. */
  function Refine(seg: Bytes -> nat, buf: Bytes): (parts: seq<Bytes>)
    requires SegOk(seg) && buf != []
    ensures parts != [] && NonEmptyParts(parts)
    ensures Flatten(parts) == buf
    decreases |buf|
  {
    var cut := seg(buf);
    if cut < |buf| then
      var rest := Refine(seg, buf[cut..]);
      FirstPiece(buf, cut, rest, []);
      assert Flatten(rest) + [] == Flatten(rest);
      [buf[..cut]] + rest
    else
      FlattenCons(buf, []);
      assert [buf] + [] == [buf];
      [buf]
  }

  lemma FirstChunk(coarse: seq<Bytes>, first: seq<Bytes>, rest: seq<seq<Bytes>>)
    requires coarse != [] && Flatten(first) == coarse[0] && Flatten(Flatten(rest)) == Flatten(coarse[1..])
    requires NonEmptyParts(first) && NonEmptyParts(Flatten(rest))
    ensures Flatten(Flatten([first] + rest)) == Flatten(coarse) && NonEmptyParts(Flatten([first] + rest))
  {
    FlattenCons(first, rest);
    FlattenAppend(first, Flatten(rest));
  }

  /** Refinement of every coarse chunk. */
  function RefineAll(seg: Bytes -> nat, coarse: seq<Bytes>): (parts: seq<seq<Bytes>>)
    requires SegOk(seg) && NonEmptyParts(coarse)
    ensures |parts| == |coarse|
    ensures forall i :: 0 <= i < |coarse| ==> parts[i] == Refine(seg, coarse[i])
    ensures Flatten(Flatten(parts)) == Flatten(coarse)
    ensures NonEmptyParts(Flatten(parts))
  {
    if coarse == [] then []
    else
      var first, rest := Refine(seg, coarse[0]), RefineAll(seg, coarse[1..]);
      FirstChunk(coarse, first, rest);
      [first] + rest
  }

  /** Refinement is the splitting of the whole buffer without a jump. */
  lemma {:induction false} RefineIsSplit(seg: Bytes -> nat, buf: Bytes)
    requires SegOk(seg) && buf != []
    ensures Refine(seg, buf) == WholeChunks(seg, 0, buf)
    decreases |buf|
  {
    hide Flatten, NonEmptyParts;
    assert buf[0..] == buf;
    var cut := seg(buf);
    if cut < |buf| {
      RefineIsSplit(seg, buf[cut..]);
      var later := SplitAll(seg, 0, buf[cut..]);
      Associative([buf[..cut]], later.parts, [later.left]);
    }
  }

  /** The serial pipeline, which does not jump, cuts from the input what FragmentRefine would cut from it in one piece. */
  lemma SerialIsRefinement(seg: Bytes -> nat, maxbuf: nat, input: Bytes)
    requires SegOk(seg) && Stable(seg) && 0 < maxbuf && input != []
    ensures ChunksFrom(seg, 0, maxbuf, [], input, 0) == Refine(seg, input)
  {
    hide ChunksFrom, SplitAll, Refine;
    AnyBufferSize(seg, 0, maxbuf, [], input, 0);
    RefineIsSplit(seg, input);
    assert [] + input[0..] == input;
  }
}
