/** The binary heap of chunks ordered by their second-level sequence number (binheap.c). Elements are stored from
    index 1; slot 0 is the sentinel that ends the upward search, modelled by the test that the parent index is 0. */
module BinHeap {
  import opened Common
  import opened Ordering

  ghost predicate HeapOrder(v: seq<Id>) {
    forall k :: 2 <= k < |v| ==> v[k / 2].l2 <= v[k].l2
  }

  /** Heap order everywhere but around the hole at i. */
  ghost predicate OrderAround(v: seq<Id>, i: nat) {
    && (forall k :: 2 <= k < |v| && k != i && k / 2 != i ==> v[k / 2].l2 <= v[k].l2)
    && (2 <= i ==> forall k :: 2 <= k < |v| && k / 2 == i ==> v[i / 2].l2 <= v[k].l2)
  }

  ghost predicate ChildrenAtLeast(v: seq<Id>, i: nat, m: nat) {
    forall k :: 2 <= k < |v| && k / 2 == i ==> m <= v[k].l2
  }

  ghost function BagOf(v: seq<Id>): multiset<Id>
    requires |v| >= 1
  {
    multiset(v[1..])
  }

  /** What the heap holds when x is in the hole. */
  ghost function BagWith(v: seq<Id>, i: nat, x: Id): multiset<Id>
    requires 1 <= i < |v|
  {
    BagOf(v[i := x])
  }

  /** Moving an element into the hole moves the hole. */
  lemma MoveHole(v: seq<Id>, i: nat, p: nat, x: Id)
    requires 1 <= i < |v| && 1 <= p < |v| && i != p
    ensures BagWith(v[i := v[p]], p, x) == BagWith(v, i, x)
  {
    var s := v[1..];
    assert v[i := v[p]][p := x][1..] == s[i - 1 := s[p - 1]][p - 1 := x];
    assert v[i := x][1..] == s[i - 1 := x];
  }

  lemma MoveDownOrder(v: seq<Id>, i: nat)
    requires 2 <= i < |v| && OrderAround(v, i)
    ensures OrderAround(v[i := v[i / 2]], i / 2)
    ensures ChildrenAtLeast(v[i := v[i / 2]], i / 2, v[i / 2].l2)
  {
  }

  /** Once the parent is not larger and the children are not smaller, x fits into the hole. */
  lemma FillHole(v: seq<Id>, i: nat, x: Id)
    requires 1 <= i < |v| && OrderAround(v, i)
    requires 2 <= i ==> v[i / 2].l2 <= x.l2
    requires ChildrenAtLeast(v, i, x.l2)
    ensures HeapOrder(v[i := x])
  {
  }

  /** The root is a minimum. */
  lemma {:induction false} RootIsMin(v: seq<Id>, k: nat)
    requires HeapOrder(v) && 1 <= k < |v|
    ensures v[1].l2 <= v[k].l2
    decreases k
  {
    if k >= 2 {
      RootIsMin(v, k / 2);
    }
  }

  class PriorityQueue {
    var elements: array<Id>
    var capacity: nat
    var size: nat

    ghost predicate Valid()
      reads this, elements
    {
      elements.Length == capacity + 1 && size <= capacity && 1 <= capacity && HeapOrder(elements[..size + 1])
    }

    ghost function Bag(): multiset<Id>
      reads this, elements
      requires Valid()
    {
      BagOf(elements[..size + 1])
    }

    /** Initialize, for the capacities its callers use. */
    constructor (initCapacity: nat)
      requires 16 <= initCapacity
      ensures Valid() && Bag() == multiset{} && fresh(elements)
    {
      elements := new Id[initCapacity + 1](i => Id(0, 0));
      capacity, size := initCapacity, 0;
      new;
      assert elements[..1][1..] == [];
    }

    method IsEmpty() returns (empty: bool)
      requires Valid()
      ensures empty <==> Bag() == multiset{}
    {
      empty := size == 0;
      if size > 0 {
        assert elements[1] in Bag() by {
          assert elements[..size + 1][1..][0] == elements[1];
        }
      } else {
        assert elements[..1][1..] == [];
      }
    }

    /** A smallest element, or nothing when the heap is empty. */
    method FindMin() returns (r: Option<Id>)
      requires Valid()
      ensures r.None? <==> Bag() == multiset{}
      ensures r.Some? ==> r.value in Bag() && forall y :: y in Bag() ==> r.value.l2 <= y.l2
    {
      var empty := IsEmpty();
      if empty {
        return None;
      }
      FirstIsMin(elements[..size + 1]);
      r := Some(elements[1]);
    }

    /** Doubling of the array when it is full. */
    method Grow()
      requires Valid() && size == capacity
      modifies this
      ensures Valid() && Bag() == old(Bag()) && size < capacity && size == old(size) && fresh(elements)
    {
      var bigger := new Id[2 * capacity + 1](i requires 0 <= i reads this, elements =>
                                               if i < elements.Length then elements[i] else Id(0, 0));
      assert bigger[..size + 1] == elements[..size + 1];
      elements, capacity := bigger, 2 * capacity;
    }

    method Insert(x: Id)
      requires Valid()
      modifies this, elements
      ensures Valid() && Bag() == old(Bag()) + multiset{x}
      ensures elements == old(elements) || fresh(elements)
    {
      hide OrderAround, BagWith, HeapOrder, BagOf;
      if size == capacity {
        Grow();
      }
      ghost var v0 := elements[..size + 1];
      if size == 0 {
        elements[1] := x;
        size := 1;
        OnlyElement(v0, elements[..2]);
        return;
      }
      size := size + 1;
      assert elements[..size] == v0;
      PercolateUp(elements, size, x);
    }

    /** A smallest element goes away; with an empty heap, nothing happens. */
    method DeleteMin() returns (min: Option<Id>)
      requires Valid()
      modifies this, elements
      ensures Valid() && elements == old(elements)
      ensures min.None? <==> old(Bag()) == multiset{}
      ensures min.None? ==> Bag() == old(Bag())
      ensures min.Some? ==> Bag() == old(Bag()) - multiset{min.value} && min.value in old(Bag())
      ensures min.Some? ==> forall y :: y in old(Bag()) ==> min.value.l2 <= y.l2
    {
      hide OrderAround, BagWith, HeapOrder, BagOf;
      var empty := IsEmpty();
      if empty {
        return None;
      }
      ghost var v0 := elements[..size + 1];
      NotEmpty(v0);
      FirstIsMin(v0);
      min := Some(elements[1]);
      var last := elements[size];
      size := size - 1;
      if size == 0 {
        // the loop does not run
        elements[1] := last;
        LastElement(v0, elements[..1]);
        return;
      }
      RemovedFirst(v0, elements[..size + 1]);
      PercolateDown(elements, size, last);
    }
  }

  lemma NotEmpty(v: seq<Id>)
    requires |v| >= 1
    ensures BagOf(v) != multiset{} ==> |v| >= 2
  {
    assert |v| == 1 ==> v[1..] == [];
  }

  lemma LastElement(v0: seq<Id>, v: seq<Id>)
    requires |v0| == 2 && |v| == 1
    ensures HeapOrder(v) && BagOf(v) == BagOf(v0) - multiset{v0[1]}
  {
    assert v0[1..] == [v0[1]] && v[1..] == [];
  }

  lemma OnlyElement(v0: seq<Id>, v: seq<Id>)
    requires |v0| == 1 && |v| == 2
    ensures HeapOrder(v) && BagOf(v) == BagOf(v0) + multiset{v[1]}
  {
    assert v0[1..] == [] && v[1..] == [v[1]];
  }

  /** A new last slot is a hole. */
  lemma Appended(v0: seq<Id>, v: seq<Id>, x: Id)
    requires |v0| >= 1 && |v| == |v0| + 1 && v[..|v0|] == v0 && HeapOrder(v0)
    ensures OrderAround(v, |v0|) && BagWith(v, |v0|, x) == BagOf(v0) + multiset{x}
  {
    assert forall k :: 0 <= k < |v0| ==> v[k] == v0[k];
    assert v[|v0| := x][1..] == v0[1..] + [x];
  }

  lemma FirstIsMin(v: seq<Id>)
    requires HeapOrder(v) && |v| >= 2
    ensures v[1] in BagOf(v) && forall y :: y in BagOf(v) ==> v[1].l2 <= y.l2
  {
    assert v[1..][0] == v[1];
    forall y | y in BagOf(v)
      ensures v[1].l2 <= y.l2
    {
      var j :| 0 <= j < |v[1..]| && v[1..][j] == y;
      RootIsMin(v, j + 1);
    }
  }

  /** Without the last slot, the root is a hole for the last element. */
  lemma RemovedFirst(v0: seq<Id>, v: seq<Id>)
    requires |v0| >= 3 && v == v0[..|v0| - 1] && HeapOrder(v0)
    ensures OrderAround(v, 1) && BagWith(v, 1, v0[|v0| - 1]) == BagOf(v0) - multiset{v0[1]}
  {
    var last := v0[|v0| - 1];
    assert v0[1..] == [v0[1]] + v0[2..|v0| - 1] + [last];
    assert v[1 := last][1..] == [last] + v0[2..|v0| - 1];
  }

  /** The smaller child is a lower bound of all children. */
  lemma SmallerChild(v: seq<Id>, i: nat, child: nat)
    requires 1 <= i && i * 2 < |v|
    requires child == if i * 2 + 1 < |v| && v[i * 2 + 1].l2 < v[i * 2].l2 then i * 2 + 1 else i * 2
    ensures child < |v| && child / 2 == i && ChildrenAtLeast(v, i, v[child].l2)
  {
  }

  /** Pulling the smaller child up. */
  lemma PullUpOrder(v: seq<Id>, i: nat, child: nat)
    requires 1 <= i && child / 2 == i && child < |v| && OrderAround(v, i) && ChildrenAtLeast(v, i, v[child].l2)
    ensures OrderAround(v[i := v[child]], child)
  {
  }

  lemma ChildrenWeaken(v: seq<Id>, i: nat, m: nat, n: nat)
    requires ChildrenAtLeast(v, i, m) && n <= m
    ensures ChildrenAtLeast(v, i, n)
  {
  }

  lemma NoChildren(v: seq<Id>, i: nat, m: nat)
    requires |v| <= i * 2
    ensures ChildrenAtLeast(v, i, m)
  {
  }

  /** The loop of Insert: move larger parents down from the new last slot n, then store x. */
  method PercolateUp(a: array<Id>, n: nat, x: Id)
    requires 2 <= n < a.Length && HeapOrder(a[..n])
    modifies a
    ensures HeapOrder(a[..n + 1]) && BagOf(a[..n + 1]) == BagOf(old(a[..n])) + multiset{x}
  {
    var i := n;
    Appended(a[..n], a[..n + 1], x);
    NoChildren(a[..n + 1], n, x.l2);
    hide HeapOrder, OrderAround, BagOf, BagWith, ChildrenAtLeast;
    while i / 2 != 0 && a[i / 2].l2 > x.l2
      invariant 1 <= i <= n
      invariant OrderAround(a[..n + 1], i) && ChildrenAtLeast(a[..n + 1], i, x.l2)
      invariant BagWith(a[..n + 1], i, x) == BagOf(old(a[..n])) + multiset{x}
    {
      ghost var v := a[..n + 1];
      MoveDownOrder(v, i);
      ChildrenWeaken(v[i := v[i / 2]], i / 2, v[i / 2].l2, x.l2);
      MoveHole(v, i, i / 2, x);
      a[i] := a[i / 2];
      assert a[..n + 1] == v[i := v[i / 2]];
      i := i / 2;
    }
    ghost var v := a[..n + 1];
    FillHole(v, i, x);
    Filled(v, i, x);
    a[i] := x;
    assert a[..n + 1] == v[i := x];
  }

  lemma Filled(v: seq<Id>, i: nat, x: Id)
    requires 1 <= i < |v|
    ensures BagOf(v[i := x]) == BagWith(v, i, x)
  {
  }

  /** The loop of DeleteMin: pull smaller children up from the root, then store the last element. */
  method PercolateDown(a: array<Id>, n: nat, last: Id)
    requires 1 <= n < a.Length && OrderAround(a[..n + 1], 1)
    modifies a
    ensures HeapOrder(a[..n + 1]) && BagOf(a[..n + 1]) == BagWith(old(a[..n + 1]), 1, last)
  {
    var i := 1;
    var settled := false;
    hide HeapOrder, OrderAround, BagOf, BagWith, ChildrenAtLeast;
    while !settled && i * 2 <= n
      invariant 1 <= i <= n
      invariant OrderAround(a[..n + 1], i)
      invariant settled ==> ChildrenAtLeast(a[..n + 1], i, last.l2)
      invariant 2 <= i ==> a[i / 2].l2 <= last.l2
      invariant BagWith(a[..n + 1], i, last) == BagWith(old(a[..n + 1]), 1, last)
      decreases if settled then 0 else 1, n - i
    {
      ghost var v := a[..n + 1];
      var child := i * 2;
      if child != n && a[child + 1].l2 < a[child].l2 {
        child := child + 1;
      }
      SmallerChild(v, i, child);
      if last.l2 > a[child].l2 {
        PullUpOrder(v, i, child);
        MoveHole(v, i, child, last);
        a[i] := a[child];
        assert a[..n + 1] == v[i := v[child]];
        i := child;
      } else {
        ChildrenWeaken(v, i, v[child].l2, last.l2);
        settled := true;
      }
    }
    ghost var v := a[..n + 1];
    if !settled {
      NoChildren(v, i, last.l2);
    }
    FillHole(v, i, last);
    Filled(v, i, last);
    a[i] := last;
    assert a[..n + 1] == v[i := last];
  }
}
