/** The Reorder stage (encoder.c 1194-1338) over its real data structures, proved to do what Ordering.Receive,
    Ordering.Advance and Ordering.Run say. Instead of bytes it records the numbers it writes. */
module Reorder {
  import opened Common
  import opened Ordering
  import opened HeapCache
  import opened SearchTree

  /** The known counts: the entries of chunks_per_anchor that are not zero. */
  function Counts(s: seq<nat>): map<nat, nat> {
    map a: nat | a < |s| && s[a] != 0 :: s[a]
  }

  lemma CountsGrown(s: seq<nat>, t: seq<nat>)
    requires |s| <= |t| && (forall a :: 0 <= a < |s| ==> t[a] == s[a]) && forall a :: |s| <= a < |t| ==> t[a] == 0
    ensures Counts(t) == Counts(s)
  {
  }

  lemma CountsStored(s: seq<nat>, a: nat, n: nat)
    requires a < |s| && n != 0
    ensures Counts(s[a := n]) == Counts(s)[a := n]
  {
  }

  lemma CountsAt(s: seq<nat>, a: nat)
    requires a < |s|
    ensures a in Counts(s) <==> s[a] != 0
    ensures a in Counts(s) ==> Counts(s)[a] == s[a]
  {
  }

  lemma MinIsCached(cache: set<Id>, id: Id)
    ensures IsCacheMin(cache, id) ==> id in cache
  {
  }

  lemma Advanced(counts: map<nat, nat>, capacity: nat, cache: set<Id>, current: Id, more: bool)
    requires more <==> IsCacheMin(cache, Successor(counts, current))
    ensures var next := Successor(counts, current);
            Writer(next, counts, capacity, if more then cache - {next} else cache, if more then Some(next) else None)
            == Advance(Writer(current, counts, capacity, cache, Some(current)))
  {
  }

  class Stage {
    var cache: Cache
    var next: Id
    var chunksPerAnchor: array<nat>
    var written: seq<Id>

    ghost predicate Valid()
      reads this, cache, cache.Repr, chunksPerAnchor
    {
      && cache.Valid()
      && this !in cache.Repr && chunksPerAnchor !in cache.Repr
      && forall x :: x in cache.ids ==> x.l1 < chunksPerAnchor.Length
    }

    ghost function Abstract(current: Option<Id>): Writer
      reads this, cache, chunksPerAnchor
    {
      Writer(next, Counts(chunksPerAnchor[..]), chunksPerAnchor.Length, cache.ids, current)
    }

    constructor ()
      ensures Valid() && Abstract(None) == INITIAL_WRITER && written == []
      ensures fresh(cache) && fresh(cache.Repr) && fresh(chunksPerAnchor)
    {
      cache := new Cache();
      next, written := Id(0, 0), [];
      chunksPerAnchor := new nat[INITIAL_ANCHORS](i => 0);
    }

    /** Double the array of counts if necessary. */
    method GrowAnchors(l1: nat)
      requires Valid()
      modifies this`chunksPerAnchor
      ensures Valid() && (chunksPerAnchor == old(chunksPerAnchor) || fresh(chunksPerAnchor))
      ensures Abstract(None) == old(Abstract(None)).(capacity := Grown(old(chunksPerAnchor.Length), l1))
    {
      if l1 >= chunksPerAnchor.Length {
        var a := chunksPerAnchor;
        var bigger := new nat[2 * a.Length](i requires 0 <= i reads a => if i < a.Length then a[i] else 0);
        CountsGrown(chunksPerAnchor[..], bigger[..]);
        chunksPerAnchor := bigger;
      }
    }

    /** Note the count when the last chunk of a coarse chunk arrives. */
    method NoteCount(id: Id, isLast: bool)
      requires Valid() && InBounds(Abstract(None), id)
      requires isLast ==> id.l1 !in Counts(chunksPerAnchor[..])
      modifies this`chunksPerAnchor, chunksPerAnchor
      ensures Valid() && (chunksPerAnchor == old(chunksPerAnchor) || fresh(chunksPerAnchor))
      ensures id.l1 < chunksPerAnchor.Length == Grown(old(chunksPerAnchor.Length), id.l1)
      ensures var was := old(Counts(chunksPerAnchor[..]));
              Counts(chunksPerAnchor[..]) == if isLast then was[id.l1 := id.l2 + 1] else was
    {
      hide Cache.Valid;
      GrowAnchors(id.l1);
      if isLast {
        assert chunksPerAnchor[id.l1] == 0;
        var count: nat := id.l2 + 1;
        ghost var was := chunksPerAnchor[..];
        CountsStored(was, id.l1, count);
        chunksPerAnchor[id.l1] := count;
        assert chunksPerAnchor[..] == was[id.l1 := count];
      }
    }

    /** The first half of the loop: note the count, and cache the chunk unless it is next. */
    method Arrive(id: Id, isLast: bool) returns (isNext: bool)
      requires Valid() && InBounds(Abstract(None), id) && id !in cache.ids
      requires isLast ==> id.l1 !in Counts(chunksPerAnchor[..])
      modifies this`chunksPerAnchor, chunksPerAnchor, cache.Repr
      ensures Valid() && fresh(cache.Repr - old(cache.Repr))
      ensures chunksPerAnchor == old(chunksPerAnchor) || fresh(chunksPerAnchor)
      ensures isNext <==> id == next
      ensures Abstract(if isNext then Some(id) else None) == Receive(old(Abstract(None)), id, isLast)
      ensures id.l1 < chunksPerAnchor.Length
    {
      hide Counts, Cache.Valid, Grown;
      NoteCount(id, isLast);
      isNext := id == next;
      if !isNext {
        cache.Add(id);
      }
    }

    /** The number after the current one, with the counts known so far. */
    method CountUp()
      requires next.l1 < chunksPerAnchor.Length
      modifies this`next
      ensures next == Successor(Counts(chunksPerAnchor[..]), old(next))
    {
      hide Counts;
      CountsAt(chunksPerAnchor[..], next.l1);
      next := Id(next.l1, next.l2 + 1);
      if chunksPerAnchor[next.l1] != 0 && next.l2 == chunksPerAnchor[next.l1] {
        next := Id(next.l1 + 1, 0);
      }
    }

    /** One turn of the write loop: write the chunk whose number is next, then look for its successor in the cache. */
    method WriteOne(first: TreeNode?) returns (more: bool, pos: TreeNode?)
      requires Valid() && cache.IsFirst(first) && next.l1 < chunksPerAnchor.Length
      modifies this`next, this`written, cache.Repr
      ensures Valid() && cache.Repr == old(cache.Repr) && cache.IsFirst(pos)
      ensures written == old(written) + [old(next)]
      ensures Abstract(if more then Some(next) else None) == Advance(old(Abstract(Some(next))))
      ensures more ==> next.l1 < chunksPerAnchor.Length
    {
      hide Counts, IsCacheMin, Cache.IsFirst, Cache.Valid, Advance, Successor;
      ghost var current, ids := next, cache.ids;
      written := written + [next];
      CountUp();
      MinIsCached(cache.ids, next);
      more, pos := cache.TakeIfNext(first, next);
      Advanced(Counts(chunksPerAnchor[..]), chunksPerAnchor.Length, ids, current, more);
    }

    /** The whole turn for one arriving chunk. */
    method Process(id: Id, isLast: bool, ghost sizes: seq<nat>)
      requires SizesOk(sizes) && WriterOk(sizes, Abstract(None))
      requires Exists(sizes, id) && !Arrived(Abstract(None), id) && isLast == IsLastOf(sizes, id)
      requires Valid() && InBounds(Abstract(None), id)
      modifies this, chunksPerAnchor, cache.Repr
      ensures Valid() && cache == old(cache) && fresh(cache.Repr - old(cache.Repr))
      ensures chunksPerAnchor == old(chunksPerAnchor) || fresh(chunksPerAnchor)
      ensures WriterOk(sizes, Receive(old(Abstract(None)), id, isLast))
      ensures Abstract(None) == Drain(sizes, Receive(old(Abstract(None)), id, isLast)).0
      ensures written == old(written) + Drain(sizes, Receive(old(Abstract(None)), id, isLast)).1
    {
      hide WriterOk, Counts, Drain, Cache.Valid, Grown;
      ghost var start := Receive(Abstract(None), id, isLast);
      ReceiveKeeps(sizes, Abstract(None), id);
      if isLast {
        CountRecordedOnce(sizes, Abstract(None), id);
      }
      var more := Arrive(id, isLast);
      if more {
        DrainLoop(sizes, start);
      } else {
        DrainNothing(sizes, start);
      }
    }

    /** The write loop. */
    method DrainLoop(ghost sizes: seq<nat>, ghost start: Writer)
      requires SizesOk(sizes) && WriterOk(sizes, start) && start.current.Some?
      requires Valid() && Abstract(Some(next)) == start && next.l1 < chunksPerAnchor.Length
      modifies this`next, this`written, cache.Repr
      ensures Valid() && cache.Repr == old(cache.Repr)
      ensures Abstract(None) == Drain(sizes, start).0
      ensures written == old(written) + Drain(sizes, start).1
    {
      hide WriterOk, Receive, Cache.Valid, Counts;
      ghost var w := start;
      var pos := cache.FindFirst();
      var more := true;
      while more
        invariant Valid() && cache.Repr == old(cache.Repr) && cache.IsFirst(pos)
        invariant w == Abstract(if more then Some(next) else None)
        invariant WriterOk(sizes, w)
        invariant more ==> next.l1 < chunksPerAnchor.Length
        invariant Drain(sizes, w).0 == Drain(sizes, start).0
        invariant written + Drain(sizes, w).1 == old(written) + Drain(sizes, start).1
        decreases |w.cache|, more
      {
        AdvanceKeeps(sizes, w);
        DrainStep(sizes, w, written);
        more, pos := WriteOne(pos);
        w := Advance(w);
      }
    }
  }

  lemma DrainNothing(sizes: seq<nat>, w: Writer)
    requires SizesOk(sizes) && WriterOk(sizes, w) && w.current.None?
    ensures Drain(sizes, w) == (w, [])
  {
  }

  lemma DrainStep(sizes: seq<nat>, w: Writer, written: seq<Id>)
    requires SizesOk(sizes) && WriterOk(sizes, w) && w.current.Some? && WriterOk(sizes, Advance(w))
    ensures Drain(sizes, w).0 == Drain(sizes, Advance(w)).0
    ensures written + Drain(sizes, w).1 == written + [w.next] + Drain(sizes, Advance(w)).1
    ensures |Advance(w).cache| < |w.cache| || (Advance(w).cache == w.cache && Advance(w).current.None?)
  {
    Associative(written, [w.next], Drain(sizes, Advance(w)).1);
  }

  lemma RunStep(sizes: seq<nat>, w: Writer, arrivals: seq<Id>, written: seq<Id>)
    requires SizesOk(sizes) && WriterOk(sizes, w) && w.current.None? && Pending(sizes, w, arrivals) && arrivals != []
    requires Fits(w.capacity, arrivals)
    ensures var id := arrivals[0];
            Exists(sizes, id) && !Arrived(w, id) && InBounds(w, id)
            && WriterOk(sizes, Receive(w, id, IsLastOf(sizes, id)))
    ensures var after := Drain(sizes, Receive(w, arrivals[0], IsLastOf(sizes, arrivals[0])));
            Pending(sizes, after.0, arrivals[1..]) && Fits(after.0.capacity, arrivals[1..])
            && Run(sizes, w, arrivals).0 == Run(sizes, after.0, arrivals[1..]).0
            && written + Run(sizes, w, arrivals).1 == written + after.1 + Run(sizes, after.0, arrivals[1..]).1
  {
    var id := arrivals[0];
    ReceiveKeeps(sizes, w, id);
    var after := Drain(sizes, Receive(w, id, IsLastOf(sizes, id)));
    Associative(written, after.1, Run(sizes, after.0, arrivals[1..]).1);
  }

  /** The stage for one complete stream of arrivals: the numbers are written in strictly ascending order, each of
      them once, and nothing is left for the loop that flushes the cache. */
  method Reorder(arrivals: seq<Id>, ghost sizes: seq<nat>, isLast: seq<bool>) returns (written: seq<Id>)
    requires SizesOk(sizes) && CompleteOrder(sizes, arrivals)
    requires |isLast| == |arrivals| && forall i :: 0 <= i < |arrivals| ==> isLast[i] == IsLastOf(sizes, arrivals[i])
    requires |sizes| <= 2048 || Fits(INITIAL_ANCHORS, arrivals)
    ensures forall i, j :: 0 <= i < j < |written| ==> Less(written[i], written[j])
    ensures forall x :: x in written <==> Exists(sizes, x)
  {
    hide WriterOk, Path, Pending, Run, Cache.Valid, Cache.IsFirst;
    EveryArrivalOrder(sizes, arrivals);
    FitsExactly(sizes);
    var stage := new Stage();
    RunStage(stage, arrivals, sizes, isLast);
    var rest := stage.cache.FindFirst();
    NothingCached(stage.cache, rest);
    written := stage.written;
    assert written == Run(sizes, INITIAL_WRITER, arrivals).1;
    PathIsSorted(sizes, Id(0, 0), written);
  }

  /** The flush loop has nothing to do. */
  lemma NothingCached(cache: Cache, pos: TreeNode?)
    requires cache.Valid() && cache.ids == {} && cache.IsFirst(pos)
    ensures pos == null
  {
    assert pos != null ==> HoldsRow(pos.queue, cache.ids, pos.key);
  }

  /** The loop over the arrivals. */
  method RunStage(stage: Stage, arrivals: seq<Id>, ghost sizes: seq<nat>, isLast: seq<bool>)
    requires stage.Valid() && SizesOk(sizes) && WriterOk(sizes, stage.Abstract(None))
    requires Pending(sizes, stage.Abstract(None), arrivals) && Fits(stage.Abstract(None).capacity, arrivals)
    requires |isLast| == |arrivals| && forall i :: 0 <= i < |arrivals| ==> isLast[i] == IsLastOf(sizes, arrivals[i])
    modifies stage, stage.chunksPerAnchor, stage.cache.Repr
    ensures stage.Valid()
    ensures stage.Abstract(None) == Run(sizes, old(stage.Abstract(None)), arrivals).0
    ensures stage.written == old(stage.written) + Run(sizes, old(stage.Abstract(None)), arrivals).1
  {
    hide WriterOk, Arrived, Stage.Valid, Pending, Receive, Fits, InBounds, Run, Drain;
    ghost var start := stage.Abstract(None);
    ghost var was := stage.written;
    var i := 0;
    assert arrivals[0..] == arrivals;
    while i < |arrivals|
      invariant 0 <= i <= |arrivals|
      invariant stage.Valid() && stage.cache == old(stage.cache) && fresh(stage.cache.Repr - old(stage.cache.Repr))
      invariant stage.chunksPerAnchor == old(stage.chunksPerAnchor) || fresh(stage.chunksPerAnchor)
      invariant WriterOk(sizes, stage.Abstract(None)) && Fits(stage.Abstract(None).capacity, arrivals[i..])
      invariant Pending(sizes, stage.Abstract(None), arrivals[i..])
      invariant Run(sizes, stage.Abstract(None), arrivals[i..]).0 == Run(sizes, start, arrivals).0
      invariant stage.written + Run(sizes, stage.Abstract(None), arrivals[i..]).1 == was + Run(sizes, start, arrivals).1
    {
      RunStep(sizes, stage.Abstract(None), arrivals[i..], stage.written);
      assert arrivals[i..][1..] == arrivals[i + 1..];
      stage.Process(arrivals[i], isLast[i], sizes);
      i := i + 1;
    }
    RunNothing(sizes, stage.Abstract(None), arrivals[i..], stage.written);
  }

  lemma RunNothing(sizes: seq<nat>, w: Writer, arrivals: seq<Id>, written: seq<Id>)
    requires SizesOk(sizes) && WriterOk(sizes, w) && w.current.None? && Pending(sizes, w, arrivals) && arrivals == []
    ensures Run(sizes, w, arrivals).0 == w && written + Run(sizes, w, arrivals).1 == written
  {
  }
}
