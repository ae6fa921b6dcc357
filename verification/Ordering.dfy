/** The two-level sequence numbers (dedupdef.h) and the ordering logic of the Reorder stage
    (encoder.c), on values. The class in Reorder.dfy implements these functions with the search
    tree of heaps; the pipeline model uses them for its last stage. */
module Ordering {
  import opened Common

  /** sequence_t: number of the coarse chunk, and of the fine chunk within it. */
  datatype Id = Id(l1: nat, l2: nat)

  predicate Less(a: Id, b: Id) {
    a.l1 < b.l1 || (a.l1 == b.l1 && a.l2 < b.l2)
  }

  const INITIAL_ANCHORS: nat := 1024

  /** The state of Reorder: the next number to write, the known numbers of fine chunks (the non-zero
      entries of chunks_per_anchor), the length of that array, the numbers in the cache, and the chunk
      about to be written. */
  datatype Writer = Writer(next: Id, counts: map<nat, nat>, capacity: nat, cache: set<Id>, current: Option<Id>)

  const INITIAL_WRITER := Writer(Id(0, 0), map[], INITIAL_ANCHORS, {}, None)

  /** chunks_per_anchor is doubled at most once per arriving chunk. */
  function Grown(capacity: nat, l1: nat): nat {
    if capacity <= l1 then 2 * capacity else capacity
  }

  /** The array index used for an arriving chunk is valid after that doubling. */
  predicate InBounds(w: Writer, id: Id) {
    id.l1 < Grown(w.capacity, id.l1)
  }

  lemma InBoundsExactly(w: Writer, id: Id)
    ensures InBounds(w, id) <==> id.l1 < 2 * w.capacity
  {
  }

  /** A chunk arrives: record the count if it is the last of its coarse chunk, then keep it in the
      cache unless it is the next to write. */
  function Receive(w: Writer, id: Id, isLast: bool): Writer {
    var capacity := Grown(w.capacity, id.l1);
    var counts := if isLast then w.counts[id.l1 := id.l2 + 1] else w.counts;
    if id == w.next then Writer(w.next, counts, capacity, w.cache, Some(id))
    else Writer(w.next, counts, capacity, w.cache + {id}, w.current)
  }

  /** The sequence number after `id`, given the counts known so far. */
  function Successor(counts: map<nat, nat>, id: Id): Id {
    if id.l1 in counts && counts[id.l1] == id.l2 + 1 then Id(id.l1 + 1, 0) else Id(id.l1, id.l2 + 1)
  }

  /** The smallest cached number is `id`. */
  predicate IsCacheMin(cache: set<Id>, id: Id) {
    id in cache && forall x :: x in cache ==> !Less(x, id)
  }

  /** After the current chunk was written: step to the next number and take it from the cache if it
      is the smallest one there. */
  function Advance(w: Writer): Writer {
    var next := Successor(w.counts, w.next);
    if IsCacheMin(w.cache, next) then w.(next := next, cache := w.cache - {next}, current := Some(next))
    else w.(next := next, current := None)
  }

  // ---------------------------------------------------------------- invariant

  /** The numbers that exist when coarse chunk a has sizes[a] fine chunks. */
  predicate Exists(sizes: seq<nat>, id: Id) {
    id.l1 < |sizes| && id.l2 < sizes[id.l1]
  }

  ghost predicate SizesOk(sizes: seq<nat>) {
    forall a :: 0 <= a < |sizes| ==> 0 < sizes[a]
  }

  /** A chunk has reached the writer: it is written, cached, or current. */
  predicate Arrived(w: Writer, id: Id) {
    Less(id, w.next) || id in w.cache || w.current == Some(id)
  }

  predicate IsLastOf(sizes: seq<nat>, id: Id)
    requires Exists(sizes, id)
  {
    id.l2 + 1 == sizes[id.l1]
  }

  ghost predicate WriterOk(sizes: seq<nat>, w: Writer)
    requires SizesOk(sizes)
  {
    && INITIAL_ANCHORS <= w.capacity
    && (Exists(sizes, w.next) || w.next == Id(|sizes|, 0))
    && (forall x :: x in w.cache ==> Exists(sizes, x) && Less(w.next, x))
    && (w.current.Some? ==> w.current.value == w.next && Exists(sizes, w.next))
    && (forall a :: a in w.counts ==> a < |sizes| && w.counts[a] == sizes[a])
    && (forall a :: 0 <= a < |sizes| ==> (a in w.counts <==> Arrived(w, Id(a, sizes[a] - 1))))
  }

  lemma ReceiveKeeps(sizes: seq<nat>, w: Writer, id: Id)
    requires SizesOk(sizes) && WriterOk(sizes, w) && w.current.None?
    requires Exists(sizes, id) && !Arrived(w, id)
    ensures WriterOk(sizes, Receive(w, id, IsLastOf(sizes, id)))
    ensures forall x :: Arrived(Receive(w, id, IsLastOf(sizes, id)), x) <==> Arrived(w, x) || x == id
    ensures InBounds(w, id) ==> id.l1 < Receive(w, id, IsLastOf(sizes, id)).capacity
  {
  }

  /** The assertion in Reorder: no count is recorded twice. */
  lemma CountRecordedOnce(sizes: seq<nat>, w: Writer, id: Id)
    requires SizesOk(sizes) && WriterOk(sizes, w)
    requires Exists(sizes, id) && !Arrived(w, id) && IsLastOf(sizes, id)
    ensures id.l1 !in w.counts
  {
    assert Id(id.l1, sizes[id.l1] - 1) == id;
  }

  /** The true successor of a number in lexicographic order. */
  function After(sizes: seq<nat>, id: Id): Id
    requires Exists(sizes, id)
  {
    if IsLastOf(sizes, id) then Id(id.l1 + 1, 0) else Id(id.l1, id.l2 + 1)
  }

  lemma AdvanceKeeps(sizes: seq<nat>, w: Writer)
    requires SizesOk(sizes) && WriterOk(sizes, w) && w.current.Some?
    ensures Advance(w).next == After(sizes, w.next)
    ensures WriterOk(sizes, Advance(w))
    ensures forall x :: Exists(sizes, x) ==> (Arrived(Advance(w), x) <==> Arrived(w, x))
  {
    var id := w.next;
    assert IsLastOf(sizes, id) ==> Id(id.l1, sizes[id.l1] - 1) == id;
    assert Successor(w.counts, id) == After(sizes, id);
    var w' := Advance(w);
    forall x | Exists(sizes, x)
      ensures Arrived(w', x) <==> Arrived(w, x)
    {
      assert Less(x, w'.next) <==> Less(x, id) || x == id;
    }
    forall a | 0 <= a < |sizes|
      ensures a in w'.counts <==> Arrived(w', Id(a, sizes[a] - 1))
    {
      assert Exists(sizes, Id(a, sizes[a] - 1));
    }
  }

  /** When every existing number has arrived and nothing is current, all are written and the cache is empty. */
  lemma AllArrived(sizes: seq<nat>, w: Writer)
    requires SizesOk(sizes) && WriterOk(sizes, w) && w.current.None?
    requires forall x :: Exists(sizes, x) ==> Arrived(w, x)
    ensures w.next == Id(|sizes|, 0) && w.cache == {}
  {
    assert !Arrived(w, w.next);
    assert forall x :: x in w.cache ==> x.l1 < |sizes|;
  }

  // ---------------------------------------------------------------- the stage on its own

  /** Write as long as there is a current chunk; the result lists the numbers written. */
  ghost function Drain(sizes: seq<nat>, w: Writer): (r: (Writer, seq<Id>))
    requires SizesOk(sizes) && WriterOk(sizes, w)
    ensures WriterOk(sizes, r.0) && r.0.current.None? && r.0.capacity == w.capacity
    ensures forall x :: Exists(sizes, x) ==> (Arrived(r.0, x) <==> Arrived(w, x))
    ensures Path(sizes, w.next, r.1, r.0.next)
    decreases |w.cache| + (if w.current.Some? then 1 else 0)
  {
    if w.current.None? then (w, [])
    else
      AdvanceKeeps(sizes, w);
      var w' := Advance(w);
      assert w'.current.Some? ==> |w'.cache| < |w.cache|;
      var (final, rest) := Drain(sizes, w');
      (final, [w.next] + rest)
  }

  /** `ids` are the numbers from `from` up to and without `to`, each followed by its successor. */
  ghost predicate Path(sizes: seq<nat>, from: Id, ids: seq<Id>, to: Id)
    decreases |ids|
  {
    if ids == [] then from == to
    else ids[0] == from && Exists(sizes, from) && Path(sizes, After(sizes, from), ids[1..], to)
  }

  lemma {:induction false} PathAppend(sizes: seq<nat>, a: Id, xs: seq<Id>, b: Id, ys: seq<Id>, c: Id)
    requires Path(sizes, a, xs, b) && Path(sizes, b, ys, c)
    ensures Path(sizes, a, xs + ys, c)
    decreases |xs|
  {
    if xs == [] {
      assert xs + ys == ys;
    } else {
      PathAppend(sizes, After(sizes, a), xs[1..], b, ys, c);
      assert (xs + ys)[1..] == xs[1..] + ys;
    }
  }

  /** Chunks that exist and have not arrived yet, without repetition. */
  ghost predicate Pending(sizes: seq<nat>, w: Writer, arrivals: seq<Id>) {
    && (forall i :: 0 <= i < |arrivals| ==> Exists(sizes, arrivals[i]) && !Arrived(w, arrivals[i]))
    && (forall i, j :: 0 <= i < j < |arrivals| ==> arrivals[i] != arrivals[j])
  }

  /** The whole stage: each arriving chunk is received, then everything writable is written. */
  ghost function Run(sizes: seq<nat>, w: Writer, arrivals: seq<Id>): (r: (Writer, seq<Id>))
    requires SizesOk(sizes) && WriterOk(sizes, w) && w.current.None?
    requires Pending(sizes, w, arrivals)
    ensures WriterOk(sizes, r.0) && r.0.current.None?
    ensures forall x :: Exists(sizes, x) ==> (Arrived(r.0, x) <==> Arrived(w, x) || x in arrivals)
    ensures Path(sizes, w.next, r.1, r.0.next)
    decreases |arrivals|
  {
    if arrivals == [] then (w, [])
    else
      var id := arrivals[0];
      ReceiveKeeps(sizes, w, id);
      var (w', now) := Drain(sizes, Receive(w, id, IsLastOf(sizes, id)));
      assert forall x :: x in arrivals <==> x == id || x in arrivals[1..];
      var (final, later) := Run(sizes, w', arrivals[1..]);
      PathAppend(sizes, w.next, now, w'.next, later, final.next);
      (final, now + later)
  }

  /** All the numbers, each once, in any order. */
  ghost predicate CompleteOrder(sizes: seq<nat>, arrivals: seq<Id>) {
    && (forall x :: x in arrivals <==> Exists(sizes, x))
    && (forall i, j :: 0 <= i < j < |arrivals| ==> arrivals[i] != arrivals[j])
  }

  /** For every arrival order of all the numbers: they are written in strict lexicographic order, each once,
      and the cache is empty at the end, so the loop that flushes it does nothing. */
  lemma EveryArrivalOrder(sizes: seq<nat>, arrivals: seq<Id>)
    requires SizesOk(sizes) && CompleteOrder(sizes, arrivals)
    ensures WriterOk(sizes, INITIAL_WRITER) && Pending(sizes, INITIAL_WRITER, arrivals)
    ensures var (final, written) := Run(sizes, INITIAL_WRITER, arrivals);
            final.cache == {} && final.next == Id(|sizes|, 0)
            && Path(sizes, Id(0, 0), written, Id(|sizes|, 0))
  {
    assert WriterOk(sizes, INITIAL_WRITER);
    hide Run, Path, WriterOk;
    var (final, written) := Run(sizes, INITIAL_WRITER, arrivals);
    AllArrived(sizes, final);
  }

  /** A path visits every number from its start on exactly in ascending order. */
  lemma {:induction false} PathIsSorted(sizes: seq<nat>, from: Id, ids: seq<Id>)
    requires SizesOk(sizes) && Path(sizes, from, ids, Id(|sizes|, 0))
    ensures forall i, j :: 0 <= i < j < |ids| ==> Less(ids[i], ids[j])
    ensures forall x :: x in ids <==> Exists(sizes, x) && !Less(x, from)
    decreases |ids|
  {
    if ids != [] {
      var rest := ids[1..];
      PathIsSorted(sizes, After(sizes, from), rest);
      assert forall x :: x in ids <==> x == from || x in rest;
      assert forall i :: 0 < i < |ids| ==> ids[i] in rest;
      forall i, j | 0 <= i < j < |ids|
        ensures Less(ids[i], ids[j])
      {
        assert ids[j] == rest[j - 1];
        if i > 0 {
          assert ids[i] == rest[i - 1];
        }
      }
      forall x | Exists(sizes, x)
        ensures !Less(x, from) <==> x == from || !Less(x, After(sizes, from))
      {
      }
    }
  }

  // ---------------------------------------------------------------- the array of counts

  /** The index into chunks_per_anchor is valid for every arrival, given that it is doubled once per arrival. */
  ghost predicate Fits(capacity: nat, arrivals: seq<Id>)
    decreases |arrivals|
  {
    arrivals == [] || (arrivals[0].l1 < 2 * capacity && Fits(Grown(capacity, arrivals[0].l1), arrivals[1..]))
  }

  lemma {:induction false} SmallFits(capacity: nat, arrivals: seq<Id>)
    requires INITIAL_ANCHORS <= capacity && forall x :: x in arrivals ==> x.l1 < 2 * INITIAL_ANCHORS
    ensures Fits(capacity, arrivals)
    decreases |arrivals|
  {
    if arrivals != [] {
      assert arrivals[0] in arrivals && forall x :: x in arrivals[1..] ==> x in arrivals;
      SmallFits(Grown(capacity, arrivals[0].l1), arrivals[1..]);
    }
  }

  ghost function OneRow(l1: nat, n: nat): (r: set<Id>)
    ensures forall x :: x in r <==> x.l1 == l1 && x.l2 < n
  {
    if n == 0 then {} else OneRow(l1, n - 1) + {Id(l1, n - 1)}
  }

  /** The numbers of the first n coarse chunks. */
  ghost function FirstRows(sizes: seq<nat>, n: nat): (r: set<Id>)
    requires n <= |sizes|
    ensures forall x :: x in r <==> Exists(sizes, x) && x.l1 < n
  {
    if n == 0 then {} else FirstRows(sizes, n - 1) + OneRow(n - 1, sizes[n - 1])
  }

  lemma {:induction false} InSomeOrder(ids: set<Id>) returns (r: seq<Id>)
    ensures forall x :: x in r <==> x in ids
    ensures forall i, j :: 0 <= i < j < |r| ==> r[i] != r[j]
    decreases |ids|
  {
    r := [];
    if id :| id in ids {
      var rest := InSomeOrder(ids - {id});
      r := [id] + rest;
    }
  }

  /** An arrival order that begins with a given number. */
  lemma OrderFrom(sizes: seq<nat>, id: Id) returns (arrivals: seq<Id>)
    requires Exists(sizes, id)
    ensures CompleteOrder(sizes, arrivals) && arrivals != [] && arrivals[0] == id
  {
    var rest := InSomeOrder(FirstRows(sizes, |sizes|) - {id});
    arrivals := [id] + rest;
  }

  /** The array of counts is long enough for every arrival order exactly if there are at most 2048 coarse chunks. With
      more, an order that begins with number 2048 makes the source write behind the array. */
  lemma FitsExactly(sizes: seq<nat>)
    requires SizesOk(sizes)
    ensures (forall arrivals :: CompleteOrder(sizes, arrivals) ==> Fits(INITIAL_ANCHORS, arrivals))
            <==> |sizes| <= 2048
  {
    if |sizes| <= 2 * INITIAL_ANCHORS {
      forall arrivals | CompleteOrder(sizes, arrivals)
        ensures Fits(INITIAL_ANCHORS, arrivals)
      {
        SmallFits(INITIAL_ANCHORS, arrivals);
      }
    } else {
      var arrivals := OrderFrom(sizes, Id(2 * INITIAL_ANCHORS, 0));
      assert !Fits(INITIAL_ANCHORS, arrivals);
    }
  }
}
