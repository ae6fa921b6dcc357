/** The binary search tree that maps the first-level sequence number of cached chunks to their heap (tree.c). The
    variable pmin of the source is never set to anything but NULL and is left out. */
module SearchTree {
  import opened BinHeap

  type Queues = map<nat, PriorityQueue>

  class TreeNode {
    var key: nat
    var queue: PriorityQueue
    var left: TreeNode?
    var right: TreeNode?
    ghost var Repr: set<TreeNode>
    ghost var Map: Queues

    constructor (key: nat, queue: PriorityQueue)
      ensures Valid() && Map == map[key := queue] && fresh(Repr)
    {
      this.key, this.queue, left, right := key, queue, null, null;
      Repr, Map := {this}, map[key := queue];
    }

    ghost predicate Valid()
      reads this, Repr
      ensures Valid() ==> this in Repr
      decreases Repr
    {
      && this in Repr
      && (left != null ==> left in Repr && left.Repr <= Repr && this !in left.Repr && left.Valid())
      && (right != null ==> right in Repr && right.Repr <= Repr && this !in right.Repr && right.Valid())
      && (left != null && right != null ==> left.Repr !! right.Repr)
      && Between(MapOf(left), key, MapOf(right))
      && Map == Joined(MapOf(left), key, queue, MapOf(right))
    }
  }

  /** Smaller keys on the left, larger ones on the right. */
  ghost predicate Between(left: Queues, key: nat, right: Queues) {
    (forall k :: k in left ==> k < key) && (forall k :: k in right ==> key < k)
  }

  ghost function Joined(left: Queues, key: nat, queue: PriorityQueue, right: Queues): Queues {
    left + right + map[key := queue]
  }

  ghost function Added(m: Queues, key: nat, queue: PriorityQueue): Queues {
    if key in m then m else m[key := queue]
  }

  lemma AddLeft(left: Queues, key: nat, queue: PriorityQueue, right: Queues, k: nat, q: PriorityQueue)
    requires Between(left, key, right) && k < key
    ensures Between(Added(left, k, q), key, right)
    ensures Joined(Added(left, k, q), key, queue, right) == Added(Joined(left, key, queue, right), k, q)
  {
  }

  lemma AddRight(left: Queues, key: nat, queue: PriorityQueue, right: Queues, k: nat, q: PriorityQueue)
    requires Between(left, key, right) && key < k
    ensures Between(left, key, Added(right, k, q))
    ensures Joined(left, key, queue, Added(right, k, q)) == Added(Joined(left, key, queue, right), k, q)
  {
  }

  lemma DropLeft(left: Queues, key: nat, queue: PriorityQueue, right: Queues, k: nat)
    requires Between(left, key, right) && k < key
    ensures Between(left - {k}, key, right)
    ensures Joined(left - {k}, key, queue, right) == Joined(left, key, queue, right) - {k}
  {
  }

  lemma DropRight(left: Queues, key: nat, queue: PriorityQueue, right: Queues, k: nat)
    requires Between(left, key, right) && key < k
    ensures Between(left, key, right - {k})
    ensures Joined(left, key, queue, right - {k}) == Joined(left, key, queue, right) - {k}
  {
  }

  lemma DropKey(left: Queues, key: nat, queue: PriorityQueue, right: Queues)
    requires Between(left, key, right)
    ensures left == map[] ==> right == Joined(left, key, queue, right) - {key}
    ensures right == map[] ==> left == Joined(left, key, queue, right) - {key}
  {
  }

  /** The smallest key of the right part takes the place of the root. */
  lemma JoinReplace(left: Queues, key: nat, queue: PriorityQueue, right: Queues, k: nat)
    requires Between(left, key, right) && k in right && forall x :: x in right ==> k <= x
    ensures Between(left, k, right - {k})
    ensures Joined(left, k, right[k], right - {k}) == Joined(left, key, queue, right) - {key}
  {
  }

  lemma Parts(t: TreeNode)
    requires t.Valid()
    ensures ValidTree(t.left) && ValidTree(t.right) && t in t.Repr
    ensures ReprOf(t.left) <= t.Repr && ReprOf(t.right) <= t.Repr && ReprOf(t.left) !! ReprOf(t.right)
    ensures t !in ReprOf(t.left) && t !in ReprOf(t.right)
    ensures Between(MapOf(t.left), t.key, MapOf(t.right))
    ensures t.Map == Joined(MapOf(t.left), t.key, t.queue, MapOf(t.right))
  {
  }

  /** Store new subtrees in a node. */
  method Link(t: TreeNode, left: TreeNode?, right: TreeNode?)
    requires ValidTree(left) && ValidTree(right) && ReprOf(left) !! ReprOf(right)
    requires t !in ReprOf(left) && t !in ReprOf(right) && Between(MapOf(left), t.key, MapOf(right))
    modifies t`left, t`right, t`Repr, t`Map
    ensures t.Valid() && t.Repr == {t} + ReprOf(left) + ReprOf(right)
    ensures t.Map == Joined(MapOf(left), t.key, t.queue, MapOf(right))
  {
    t.left, t.right := left, right;
    t.Repr := {t} + ReprOf(left) + ReprOf(right);
    t.Map := Joined(MapOf(left), t.key, t.queue, MapOf(right));
  }

  ghost function MapOf(t: TreeNode?): Queues
    reads t
  {
    if t == null then map[] else t.Map
  }

  ghost function ReprOf(t: TreeNode?): set<TreeNode>
    reads t
  {
    if t == null then {} else t.Repr
  }

  ghost predicate ValidTree(t: TreeNode?)
    reads t, ReprOf(t)
  {
    t != null ==> t.Valid()
  }

  /** TreeFind, returning the heap stored at the position found. */
  method TreeFind(value: nat, t: TreeNode?) returns (found: PriorityQueue?)
    requires ValidTree(t)
    ensures found == if value in MapOf(t) then MapOf(t)[value] else null
    decreases ReprOf(t)
  {
    if t == null {
      return null;
    }
    if value < t.key {
      found := TreeFind(value, t.left);
    } else if value > t.key {
      found := TreeFind(value, t.right);
    } else {
      found := t.queue;
    }
  }

  /** TreeFindMin: the position with the smallest key. */
  method TreeFindMin(t: TreeNode?) returns (pos: TreeNode?)
    requires ValidTree(t)
    ensures pos == null <==> MapOf(t) == map[]
    ensures pos != null ==>
              pos in ReprOf(t) && pos.key in MapOf(t) && MapOf(t)[pos.key] == pos.queue
              && forall k :: k in MapOf(t) ==> pos.key <= k
    decreases ReprOf(t)
  {
    if t == null {
      return null;
    }
    assert t.key in t.Map;
    if t.left == null {
      pos := t;
    } else {
      pos := TreeFindMin(t.left);
      LeftNotEmpty(t.left);
    }
  }

  lemma LeftNotEmpty(t: TreeNode)
    requires t.Valid()
    ensures t.Map != map[]
  {
    assert t.key in t.Map;
  }

  method TreeInsert(key: nat, queue: PriorityQueue, t: TreeNode?) returns (r: TreeNode)
    requires ValidTree(t)
    modifies ReprOf(t)
    ensures r.Valid() && fresh(r.Repr - old(ReprOf(t)))
    ensures r.Map == Added(old(MapOf(t)), key, queue)
    decreases ReprOf(t)
  {
    hide TreeNode.Valid, Joined, Between;
    if t == null {
      r := new TreeNode(key, queue);
      return;
    }
    Parts(t);
    r := t;
    if key < t.key {
      AddLeft(MapOf(t.left), t.key, t.queue, MapOf(t.right), key, queue);
      var left := TreeInsert(key, queue, t.left);
      Link(t, left, t.right);
    } else if key > t.key {
      AddRight(MapOf(t.left), t.key, t.queue, MapOf(t.right), key, queue);
      var right := TreeInsert(key, queue, t.right);
      Link(t, t.left, right);
    } else {
      KeyInMap(t, queue);
    }
  }

  lemma KeyInMap(t: TreeNode, queue: PriorityQueue)
    requires t.Valid()
    ensures Added(t.Map, t.key, queue) == t.Map
  {
  }

  /** A key that is not in the tree is reported by the source, which then returns the tree as it is. */
  method TreeDelete(key: nat, t: TreeNode?) returns (r: TreeNode?)
    requires ValidTree(t)
    modifies ReprOf(t)
    ensures ValidTree(r) && ReprOf(r) <= old(ReprOf(t))
    ensures MapOf(r) == old(MapOf(t)) - {key}
    decreases ReprOf(t), 1
  {
    hide TreeNode.Valid, Joined, Between;
    if t == null {
      return null;
    }
    Parts(t);
    if key < t.key {
      DropLeft(MapOf(t.left), t.key, t.queue, MapOf(t.right), key);
      var left := TreeDelete(key, t.left);
      Link(t, left, t.right);
      r := t;
    } else if key > t.key {
      DropRight(MapOf(t.left), t.key, t.queue, MapOf(t.right), key);
      var right := TreeDelete(key, t.right);
      Link(t, t.left, right);
      r := t;
    } else if t.left != null && t.right != null {
      // replace with the smallest element of the right subtree
      r := DeleteRoot(t);
    } else {
      DropKey(MapOf(t.left), t.key, t.queue, MapOf(t.right));
      r := if t.left == null then t.right else t.left;
    }
  }

  method DeleteRoot(t: TreeNode) returns (r: TreeNode?)
    requires t.Valid() && t.left != null && t.right != null
    modifies t.Repr
    ensures ValidTree(r) && ReprOf(r) <= old(t.Repr)
    ensures MapOf(r) == old(t.Map) - {old(t.key)}
    decreases t.Repr, 0
  {
    hide TreeNode.Valid, Joined, Between;
    Parts(t);
    LeftNotEmpty(t.right);
    var cell := TreeFindMin(t.right);
    JoinReplace(MapOf(t.left), t.key, t.queue, MapOf(t.right), cell.key);
    t.key, t.queue := cell.key, cell.queue;
    var right := TreeDelete(t.key, t.right);
    Link(t, t.left, right);
    r := t;
  }
}
