/** Ring buffers and the synchronized queues built on them (queue.h, queue.c). The methods of Queue are the
    critical sections entered once the awaited condition holds. */
module Queues {
  import opened Common

  /** The elements of an array from tail up to head, around its end. */
  ghost function Ring<T>(d: seq<T>, tail: nat, head: nat): seq<T>
    requires tail < |d| && head < |d|
  {
    if tail <= head then d[tail..head] else d[tail..] + d[..head]
  }

  lemma RingFirst<T>(d: seq<T>, tail: nat, head: nat)
    requires tail < |d| && head < |d| && tail != head
    ensures Ring(d, tail, head) == [d[tail]] + Ring(d, if tail + 1 >= |d| then 0 else tail + 1, head)
  {
  }

  class RingBuffer<T(0)> {
    var head: nat
    var tail: nat
    const data: array<T>
    const size: nat

    ghost predicate Valid()
      reads this
    {
      0 < size == data.Length && head < size && tail < size
    }

    /** One slot is never used. */
    function Capacity(): nat {
      if size == 0 then 0 else size - 1
    }

    ghost function Contents(): seq<T>
      reads this, data
      requires Valid()
    {
      Ring(data[..], tail, head)
    }

    /** ringbuffer_init: one slot more than the capacity. */
    constructor (capacity: nat)
      ensures Valid() && Contents() == [] && size == capacity + 1 && fresh(data)
    {
      data := new T[capacity + 1];
      size := capacity + 1;
      head, tail := 0, 0;
    }

    method IsEmpty() returns (empty: bool)
      requires Valid()
      ensures empty <==> Contents() == []
    {
      empty := tail == head;
    }

    /** One slot stays unused, so that a full buffer differs from an empty one. */
    method IsFull() returns (full: bool)
      requires Valid()
      ensures full <==> |Contents()| + 1 == size
    {
      FullPosition(head, tail, size);
      full := head == (tail - 1 + size) % size;
    }

    static lemma FullPosition(head: nat, tail: nat, size: nat)
      requires head < size && tail < size
      ensures (tail - 1 + size) % size == if tail == 0 then size - 1 else tail - 1
    {
      if tail > 0 {
        assert (tail - 1 + size) % size == tail - 1 by {
          assert tail - 1 + size == 1 * size + (tail - 1);
        }
      }
    }

    /** The first element, or nothing when the buffer is empty. */
    method Remove() returns (r: Option<T>)
      requires Valid()
      modifies this
      ensures Valid() && (r.None? <==> old(Contents()) == [])
      ensures old(Contents()) == (if r.Some? then [r.value] else []) + Contents()
    {
      var empty := IsEmpty();
      if empty {
        return None;
      }
      RingFirst(data[..], tail, head);
      r := Some(data[tail]);
      tail := tail + 1;
      if tail >= size {
        tail := 0;
      }
    }

    method Insert(x: T) returns (ok: bool)
      requires Valid()
      modifies this, data
      ensures Valid() && (ok <==> |old(Contents())| + 1 < size)
      ensures Contents() == if ok then old(Contents()) + [x] else old(Contents())
    {
      var full := IsFull();
      if full {
        return false;
      }
      data[head] := x;
      head := head + 1;
      if head == size {
        head := 0;
      }
      return true;
    }
  }

  /** One turn of the copying loop. */
  method MoveOne<T(0)>(from: RingBuffer<T>, to: RingBuffer<T>)
    requires from.Valid() && to.Valid() && from != to && from.data != to.data
    requires from.Contents() != [] && |to.Contents()| + 1 < to.size
    modifies from, to, to.data
    ensures from.Valid() && to.Valid()
    ensures from.Contents() == old(from.Contents())[1..]
    ensures to.Contents() == old(to.Contents()) + [old(from.Contents())[0]]
  {
    hide RingBuffer.Contents, RingBuffer.Valid;
    var temp := from.Remove();
    assert old(from.Contents())[0] == temp.value && old(from.Contents())[1..] == from.Contents();
    var ok := to.Insert(temp.value);
  }

  /** Move elements from the front of one buffer to the back of another. */
  method MoveItems<T(0)>(from: RingBuffer<T>, to: RingBuffer<T>, limit: nat) returns (i: nat)
    requires from.Valid() && to.Valid() && from != to && from.data != to.data
    modifies from, to, to.data
    ensures from.Valid() && to.Valid()
    ensures i == TransferCount(limit, |old(from.Contents())|, |old(to.Contents())|, to.Capacity())
    ensures i <= |old(from.Contents())| && from.Contents() == old(from.Contents())[i..]
    ensures to.Contents() == old(to.Contents()) + old(from.Contents())[..i]
  {
    i := 0;
    ghost var source, target := from.Contents(), to.Contents();
    Bounded(to);
    NothingMoved(source, target);
    hide RingBuffer.Contents, RingBuffer.Valid, TransferCount, Moved;
    var empty := from.IsEmpty();
    var full := to.IsFull();
    while i < limit && !empty && !full
      invariant from.Valid() && to.Valid() && i <= limit
      invariant empty <==> from.Contents() == []
      invariant full <==> |to.Contents()| + 1 == to.size
      invariant |to.Contents()| < to.size
      invariant Moved(source, target, i, from.Contents(), to.Contents())
    {
      OneMoved(source, target, i, from.Contents(), to.Contents());
      MoveOne(from, to);
      i := i + 1;
      empty := from.IsEmpty();
      full := to.IsFull();
    }
    AllMoved(limit, source, target, i, from.Contents(), to.Contents(), to.size);
  }

  /** i elements have gone from the source to the target. */
  ghost predicate Moved<T>(source: seq<T>, target: seq<T>, i: nat, from: seq<T>, to: seq<T>) {
    i <= |source| && from == source[i..] && to == target + source[..i]
  }

  lemma NothingMoved<T>(source: seq<T>, target: seq<T>)
    ensures Moved(source, target, 0, source, target)
  {
  }

  lemma OneMoved<T>(source: seq<T>, target: seq<T>, i: nat, from: seq<T>, to: seq<T>)
    requires Moved(source, target, i, from, to) && from != []
    ensures Moved(source, target, i + 1, from[1..], to + [from[0]])
  {
    assert source[..i + 1] == source[..i] + [source[i]];
  }

  lemma AllMoved<T>(limit: nat, source: seq<T>, target: seq<T>, i: nat, from: seq<T>, to: seq<T>, size: nat)
    requires Moved(source, target, i, from, to) && i <= limit && |to| < size
    requires i == limit || from == [] || |to| + 1 == size
    ensures i == TransferCount(limit, |source|, |target|, size - 1)
    ensures i <= |source| && from == source[i..] && to == target + source[..i]
  {
  }

  lemma Bounded<T(0)>(b: RingBuffer<T>)
    requires b.Valid()
    ensures 0 < b.size && |b.Contents()| < b.size
  {
  }

  class Queue<T(0)> {
    const buf: RingBuffer<T>
    const nProducers: nat
    var nTerminated: nat

    ghost predicate Valid()
      reads this, buf
    {
      buf.Valid() && nTerminated <= nProducers
    }

    constructor (capacity: nat, nProducers: nat)
      ensures Valid() && buf.Contents() == [] && buf.size == capacity + 1 && nTerminated == 0
      ensures this.nProducers == nProducers && fresh(buf) && fresh(buf.data)
    {
      buf := new RingBuffer(capacity);
      this.nProducers, nTerminated := nProducers, 0;
    }

    predicate IsTerminated()
      reads this
    {
      nTerminated == nProducers
    }

    /** queue_terminate: each producer calls it once. */
    method Terminate()
      requires Valid() && nTerminated < nProducers
      modifies this
      ensures Valid() && nTerminated == old(nTerminated) + 1
    {
      nTerminated := nTerminated + 1;
    }

    /** queue_dequeue, once the queue is not empty or terminated. */
    method Dequeue(target: RingBuffer<T>, limit: nat) returns (r: int)
      requires Valid() && target.Valid() && target != buf && target.data != buf.data
      requires buf.Contents() != [] || IsTerminated()
      modifies buf, target, target.data
      ensures Valid() && target.Valid()
      ensures r == -1 <==> old(buf.Contents()) == []
      ensures r >= 0 ==>
                r == TransferCount(limit, |old(buf.Contents())|, |old(target.Contents())|, target.Capacity())
                && r <= |old(buf.Contents())|
                && buf.Contents() == old(buf.Contents())[r..]
                && target.Contents() == old(target.Contents()) + old(buf.Contents())[..r]
    {
      var empty := buf.IsEmpty();
      if empty && IsTerminated() {
        return -1;
      }
      r := MoveItems(buf, target, limit);
    }

    /** queue_enqueue, once the queue is not full: at least one element moves. */
    method Enqueue(source: RingBuffer<T>, limit: nat) returns (r: nat)
      requires Valid() && source.Valid() && source != buf && source.data != buf.data
      requires !IsTerminated() && |buf.Contents()| + 1 < buf.size
      modifies buf, buf.data, source
      ensures Valid() && source.Valid()
      ensures r == TransferCount(limit, |old(source.Contents())|, |old(buf.Contents())|, buf.Capacity())
      ensures r <= |old(source.Contents())|
      ensures old(source.Contents()) != [] && limit > 0 ==> r >= 1
      ensures source.Contents() == old(source.Contents())[r..]
      ensures buf.Contents() == old(buf.Contents()) + old(source.Contents())[..r]
    {
      r := MoveItems(source, buf, limit);
    }
  }
}
