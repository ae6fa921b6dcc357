/** The cache of the Reorder stage: a search tree over first-level numbers whose nodes hold heaps of chunks ordered
    by second-level number (encoder.c 1253-1268, 1286-1304). Its abstract value is the set of cached numbers. */
module HeapCache {
  import opened Ordering
  import opened BinHeap
  import opened SearchTree

  const INITIAL_SEARCH_TREE_SIZE: nat := 4096

  ghost function Row(cache: set<Id>, k: nat): set<Id> {
    set x | x in cache && x.l1 == k
  }

  ghost predicate Apart(m: Queues)
    reads set k | k in m :: m[k]
  {
    forall i, j :: i in m && j in m && i != j ==> m[i] != m[j] && m[i].elements != m[j].elements
  }

  /** The heap q holds exactly the cached numbers of row k. */
  ghost predicate HoldsRow(q: PriorityQueue, cache: set<Id>, k: nat)
    reads q, q.elements
  {
    q.Valid() && q.Bag() == multiset(Row(cache, k)) && Row(cache, k) != {}
  }

  /** The heaps hold exactly the cached numbers, each one once and in the heap of its row; no heap is empty. */
  ghost predicate Good(m: Queues, cache: set<Id>)
    reads set k | k in m :: m[k], set k | k in m :: m[k].elements
  {
    && Apart(m)
    && (forall k :: k in m ==> HoldsRow(m[k], cache, k))
    && (forall x :: x in cache ==> x.l1 in m)
  }

  lemma RowOther(cache: set<Id>, id: Id, k: nat)
    requires k != id.l1
    ensures Row(cache + {id}, k) == Row(cache, k) == Row(cache - {id}, k)
  {
  }

  lemma RowSame(cache: set<Id>, id: Id)
    ensures Row(cache + {id}, id.l1) == Row(cache, id.l1) + {id}
    ensures Row(cache - {id}, id.l1) == Row(cache, id.l1) - {id}
  {
  }

  lemma BagPlus(s: set<Id>, id: Id)
    requires id !in s
    ensures multiset(s + {id}) == multiset(s) + multiset{id}
  {
  }

  lemma BagMinus(s: set<Id>, id: Id)
    requires id in s
    ensures multiset(s - {id}) == multiset(s) - multiset{id}
  {
  }

  /** A new row with its first chunk. */
  lemma GoodNewRow(m: Queues, cache: set<Id>, id: Id, q: PriorityQueue)
    requires Good(m, cache) && id.l1 !in m && q.Valid() && q.Bag() == multiset{id}
    requires forall k :: k in m ==> m[k] != q && m[k].elements != q.elements
    ensures Good(m[id.l1 := q], cache + {id})
  {
    hide PriorityQueue.Valid, PriorityQueue.Bag;
    RowSame(cache, id);
    assert Row(cache, id.l1) == {};
    assert Row(cache + {id}, id.l1) == {id};
    assert multiset({id}) == multiset{id};
    forall k | k in m
      ensures HoldsRow(m[k], cache + {id}, k)
    {
      RowOther(cache, id, k);
    }
  }

  lemma RowPlus(cache: set<Id>, id: Id)
    requires id !in cache
    ensures multiset(Row(cache + {id}, id.l1)) == multiset(Row(cache, id.l1)) + multiset{id}
    ensures Row(cache + {id}, id.l1) != {}
  {
    RowSame(cache, id);
    BagPlus(Row(cache, id.l1), id);
  }

  /** One more chunk in an existing row. */
  method InsertIntoRow(queue: PriorityQueue, id: Id, ghost m: Queues, ghost cache: set<Id>)
    requires Good(m, cache) && id.l1 in m && m[id.l1] == queue && id !in cache
    modifies queue, queue.elements
    ensures Good(m, cache + {id}) && (queue.elements == old(queue.elements) || fresh(queue.elements))
  {
    hide PriorityQueue.Valid, PriorityQueue.Bag, Row;
    RowPlus(cache, id);
    assert HoldsRow(queue, cache, id.l1);
    queue.Insert(id);
    assert HoldsRow(queue, cache + {id}, id.l1);
    forall k | k in m && k != id.l1
      ensures HoldsRow(m[k], cache + {id}, k)
    {
      assert HoldsRow(m[k], cache, k);
      RowOther(cache, id, k);
    }
  }

  /** Take the smallest chunk x of a heap that holds a set of chunks of one row. */
  method PopMin(queue: PriorityQueue, x: Id, ghost row: set<Id>) returns (empty: bool)
    requires queue.Valid() && queue.Bag() == multiset(row) && x in row
    requires forall y :: y in row ==> y.l1 == x.l1 && x.l2 <= y.l2
    modifies queue, queue.elements
    ensures queue.Valid() && queue.elements == old(queue.elements)
    ensures queue.Bag() == multiset(row - {x}) && (empty <==> row - {x} == {})
  {
    hide PriorityQueue.Valid, PriorityQueue.Bag;
    BagMinus(row, x);
    EmptyRow(row - {x});
    assert x in queue.Bag();
    var min := queue.DeleteMin();
    assert min.value in row && min.value == x;
    empty := queue.IsEmpty();
  }

  /** The row of x is taken from; if it becomes empty, the heap must leave the tree. */
  method TakeFromRow(queue: PriorityQueue, x: Id, ghost m: Queues, ghost cache: set<Id>) returns (empty: bool)
    requires Good(m, cache) && x.l1 in m && m[x.l1] == queue && x in cache
    requires forall y :: y in Row(cache, x.l1) ==> x.l2 <= y.l2
    modifies queue, queue.elements
    ensures Good(if empty then m - {x.l1} else m, cache - {x})
    ensures queue.elements == old(queue.elements)
  {
    hide PriorityQueue.Valid, PriorityQueue.Bag;
    RowSame(cache, x);
    empty := PopMin(queue, x, Row(cache, x.l1));
    NoRowLost(m, cache, x, empty);
    assert !empty ==> HoldsRow(queue, cache - {x}, x.l1);
    forall k | k in m && k != x.l1
      ensures HoldsRow(m[k], cache - {x}, k)
    {
      RowOther(cache, x, k);
    }
  }

  lemma EmptyRow(s: set<Id>)
    ensures multiset(s) == multiset{} <==> s == {}
  {
    if s != {} {
      var y :| y in s;
      assert y in multiset(s);
    }
  }

  lemma NoRowLost(m: Queues, cache: set<Id>, x: Id, empty: bool)
    requires forall y :: y in cache ==> y.l1 in m
    requires empty <==> Row(cache - {x}, x.l1) == {}
    ensures forall y :: y in cache - {x} ==> y.l1 in if empty then m - {x.l1} else m
  {
    forall y | y in cache - {x}
      ensures y.l1 in if empty then m - {x.l1} else m
    {
      assert y.l1 == x.l1 ==> y in Row(cache - {x}, x.l1);
    }
  }

  /** The smallest chunk of the smallest row is the smallest of all. */
  lemma SmallestCached(m: Queues, cache: set<Id>, k: nat, x: Id, next: Id)
    requires Good(m, cache) && k in m && (forall i :: i in m ==> k <= i)
    requires x in m[k].Bag() && forall y :: y in m[k].Bag() ==> x.l2 <= y.l2
    ensures x in cache && x.l1 == k && forall y :: y in cache ==> !Less(y, x)
    ensures x == next <==> IsCacheMin(cache, next)
  {
    assert HoldsRow(m[k], cache, k);
    assert x in Row(cache, k);
    forall y | y in cache
      ensures !Less(y, x)
    {
      assert y.l1 in m;
      assert y.l1 == k ==> y in Row(cache, k) && y in m[k].Bag();
    }
  }

  /** A heap with one chunk. */
  method NewHeap(id: Id) returns (queue: PriorityQueue)
    ensures queue.Valid() && queue.Bag() == multiset{id} && fresh(queue) && fresh(queue.elements)
  {
    hide PriorityQueue.Valid, PriorityQueue.Bag;
    queue := new PriorityQueue(INITIAL_SEARCH_TREE_SIZE);
    queue.Insert(id);
  }

  class Cache {
    var tree: TreeNode?
    ghost var ids: set<Id>
    ghost var Repr: set<object>

    ghost predicate Valid()
      reads this, Repr
    {
      && this in Repr && (tree != null ==> tree in Repr) && ReprOf(tree) <= Repr
      && ValidTree(tree)
      && (forall k :: k in MapOf(tree) ==> MapOf(tree)[k] in Repr && MapOf(tree)[k].elements in Repr)
      && Good(MapOf(tree), ids)
    }

    constructor ()
      ensures Valid() && ids == {} && fresh(Repr)
    {
      tree, ids, Repr := null, {}, {this};
    }

    /** The position of the smallest row. */
    ghost predicate IsFirst(pos: TreeNode?)
      reads this, Repr
      requires Valid()
    {
      && (pos == null <==> MapOf(tree) == map[])
      && (pos != null ==>
            && pos in ReprOf(tree) && pos.key in MapOf(tree) && MapOf(tree)[pos.key] == pos.queue
            && forall k :: k in MapOf(tree) ==> pos.key <= k)
    }

    method FindFirst() returns (pos: TreeNode?)
      requires Valid()
      ensures IsFirst(pos)
    {
      pos := TreeFindMin(tree);
    }

    /** The test of the write loop and the removal: take the first chunk of the first row if its number is next. */
    method TakeIfNext(first: TreeNode?, next: Id) returns (found: bool, pos: TreeNode?)
      requires Valid() && IsFirst(first)
      modifies Repr
      ensures Valid() && Repr == old(Repr) && IsFirst(pos)
      ensures found <==> IsCacheMin(old(ids), next)
      ensures ids == if found then old(ids) - {next} else old(ids)
    {
      hide TreeNode.Valid, PriorityQueue.Valid, PriorityQueue.Bag;
      found, pos := false, first;
      if pos == null {
        return;
      }
      assert HoldsRow(pos.queue, ids, pos.key);
      EmptyRow(Row(ids, pos.key));
      var min := pos.queue.FindMin();
      var x := min.value;
      SmallestCached(MapOf(tree), ids, pos.key, x, next);
      if pos.key == next.l1 && x == next {
        found := true;
        pos := Remove(pos, x);
      }
    }

    method Remove(first: TreeNode, x: Id) returns (pos: TreeNode?)
      requires Valid() && IsFirst(first) && x in ids && x.l1 == first.key
      requires forall y :: y in ids ==> !Less(y, x)
      modifies Repr
      ensures Valid() && Repr == old(Repr) && IsFirst(pos) && ids == old(ids) - {x}
    {
      hide TreeNode.Valid, PriorityQueue.Valid, PriorityQueue.Bag, Good;
      pos := first;
      var empty := TakeFromRow(pos.queue, x, MapOf(tree), ids);
      ids := ids - {x};
      if empty {
        tree := TreeDelete(pos.key, tree);
        pos := TreeFindMin(tree);
      }
    }

    method Add(id: Id)
      requires Valid() && id !in ids
      modifies Repr
      ensures Valid() && ids == old(ids) + {id} && fresh(Repr - old(Repr))
    {
      hide TreeNode.Valid, PriorityQueue.Valid, PriorityQueue.Bag, Good;
      var found := TreeFind(id.l1, tree);
      if found == null {
        AddRow(id);
      } else {
        InsertIntoRow(found, id, MapOf(tree), ids);
        ids, Repr := ids + {id}, Repr + {found.elements};
      }
    }

    method AddRow(id: Id)
      requires Valid() && id !in ids && id.l1 !in MapOf(tree)
      modifies Repr
      ensures Valid() && ids == old(ids) + {id} && fresh(Repr - old(Repr))
    {
      hide TreeNode.Valid, PriorityQueue.Valid, PriorityQueue.Bag, Good;
      var queue := NewHeap(id);
      GoodNewRow(MapOf(tree), ids, id, queue);
      Plant(queue, id.l1);
      ids := ids + {id};
    }

    /** Insert a heap into the tree; the heaps themselves stay as they are. */
    method Plant(queue: PriorityQueue, key: nat)
      requires this in Repr && (tree != null ==> tree in Repr) && ReprOf(tree) <= Repr && ValidTree(tree)
      requires forall k :: k in MapOf(tree) ==> MapOf(tree)[k] in Repr && MapOf(tree)[k].elements in Repr
      modifies this`tree, this`Repr, ReprOf(tree)
      ensures this in Repr && (tree != null ==> tree in Repr) && ReprOf(tree) <= Repr && ValidTree(tree)
      ensures MapOf(tree) == Added(old(MapOf(tree)), key, queue)
      ensures forall k :: k in MapOf(tree) ==> MapOf(tree)[k] in Repr && MapOf(tree)[k].elements in Repr
      ensures Repr == old(Repr) + ReprOf(tree) + {queue, queue.elements} && fresh(ReprOf(tree) - old(ReprOf(tree)))
    {
      hide TreeNode.Valid;
      tree := TreeInsert(key, queue, tree);
      Repr := Repr + ReprOf(tree) + {queue, queue.elements};
    }
  }
}
