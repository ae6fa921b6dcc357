/** The containers chunks travel through: the queues between stages and the send and receive buffers
    of each thread. A table maps each place to its contents; missing places are empty. */
module Places {
  import opened Common
  import opened Ordering

  datatype Stage = Refine | Dedup | Compress | Reorder

  datatype Place =
    | Queue(stage: Stage, q: nat)     // input queue q of a stage
    | Recv(stage: Stage, t: nat)      // receive buffer of thread t of a stage
    | Send(stage: Stage, t: nat)      // send buffer towards the next stage
    | SendDup(t: nat)                 // Deduplicate's send buffer towards Reorder

  type Contents = map<Place, seq<Id>>

  function Get(at: Contents, p: Place): seq<Id> {
    if p in at then at[p] else []
  }

  function Push(at: Contents, p: Place, id: Id): Contents {
    at[p := Get(at, p) + [id]]
  }

  function Pop(at: Contents, p: Place): Contents
    requires Get(at, p) != []
  {
    at[p := Get(at, p)[1..]]
  }

  /** How many elements a queue operation moves between two places. */
  function MoveCount(at: Contents, from: Place, to: Place, limit: nat, room: nat): nat {
    TransferCount(limit, |Get(at, from)|, |Get(at, to)|, room)
  }

  function Move(at: Contents, from: Place, to: Place, k: nat): Contents
    requires k <= |Get(at, from)|
  {
    at[to := Get(at, to) + Get(at, from)[..k]][from := Get(at, from)[k..]]
  }

  predicate Has(at: Contents, p: Place, id: Id) {
    id in Get(at, p)
  }

  ghost predicate Held(at: Contents, id: Id) {
    exists p :: Has(at, p, id)
  }

  /** No chunk is in two positions. */
  ghost predicate Unique(at: Contents) {
    forall p, i, q, j :: 0 <= i < |Get(at, p)| && 0 <= j < |Get(at, q)| && Get(at, p)[i] == Get(at, q)[j]
                         ==> p == q && i == j
  }

  /** Where the element now at position i of place p was before a move. */
  ghost function Origin(at: Contents, from: Place, to: Place, k: nat, p: Place, i: nat): (r: (Place, nat))
    requires from != to && k <= |Get(at, from)| && i < |Get(Move(at, from, to, k), p)|
    ensures r.1 < |Get(at, r.0)| && Get(at, r.0)[r.1] == Get(Move(at, from, to, k), p)[i]
  {
    if p == from then (from, i + k)
    else if p == to && |Get(at, to)| <= i then (from, i - |Get(at, to)|)
    else (p, i)
  }

  lemma MoveUnique(at: Contents, from: Place, to: Place, k: nat)
    requires Unique(at) && from != to && k <= |Get(at, from)|
    ensures Unique(Move(at, from, to, k))
  {
    var at' := Move(at, from, to, k);
    forall p, i, q, j | 0 <= i < |Get(at', p)| && 0 <= j < |Get(at', q)| && Get(at', p)[i] == Get(at', q)[j]
      ensures p == q && i == j
    {
      var (p0, i0) := Origin(at, from, to, k, p, i);
      var (q0, j0) := Origin(at, from, to, k, q, j);
      assert Get(at, p0)[i0] == Get(at, q0)[j0];
    }
  }

  lemma MoveMembers(at: Contents, from: Place, to: Place, k: nat, p: Place, id: Id)
    requires from != to && k <= |Get(at, from)| && Has(Move(at, from, to, k), p, id)
    ensures Has(at, p, id) || (p == to && Has(at, from, id))
  {
    var i :| 0 <= i < |Get(Move(at, from, to, k), p)| && Get(Move(at, from, to, k), p)[i] == id;
    var (p0, i0) := Origin(at, from, to, k, p, i);
    assert id in Get(at, p0);
  }

  lemma MoveHeld(at: Contents, from: Place, to: Place, k: nat, id: Id)
    requires from != to && k <= |Get(at, from)|
    ensures Held(Move(at, from, to, k), id) <==> Held(at, id)
  {
    var at' := Move(at, from, to, k);
    if Held(at', id) {
      var p :| Has(at', p, id);
      MoveMembers(at, from, to, k, p, id);
    }
    if Held(at, id) {
      var p :| Has(at, p, id);
      var i :| 0 <= i < |Get(at, p)| && Get(at, p)[i] == id;
      if p == from && i < k {
        assert Get(at', to)[|Get(at, to)| + i] == id;
        assert Has(at', to, id);
      } else if p == from {
        assert Get(at', from)[i - k] == id;
        assert Has(at', from, id);
      } else {
        assert Get(at', p)[i] == id;
        assert Has(at', p, id);
      }
    }
  }

  lemma MoveKeeps(at: Contents, from: Place, to: Place, k: nat)
    requires Unique(at) && from != to && k <= |Get(at, from)|
    ensures Unique(Move(at, from, to, k))
    ensures forall id :: Held(Move(at, from, to, k), id) <==> Held(at, id)
    ensures forall p, id :: Has(Move(at, from, to, k), p, id) ==> Has(at, p, id) || (p == to && Has(at, from, id))
  {
    MoveUnique(at, from, to, k);
    forall id {
      MoveHeld(at, from, to, k, id);
    }
    var at' := Move(at, from, to, k);
    forall p, id | Has(at', p, id)
      ensures Has(at, p, id) || (p == to && Has(at, from, id))
    {
      MoveMembers(at, from, to, k, p, id);
    }
  }

  lemma PushUnique(at: Contents, p: Place, id: Id)
    requires Unique(at) && !Held(at, id)
    ensures Unique(Push(at, p, id))
  {
    var at' := Push(at, p, id);
    forall q, i, r, j | 0 <= i < |Get(at', q)| && 0 <= j < |Get(at', r)| && Get(at', q)[i] == Get(at', r)[j]
      ensures q == r && i == j
    {
      if i < |Get(at, q)| {
        assert Get(at, q)[i] == Get(at', q)[i];
        assert Has(at, q, Get(at, q)[i]);
      }
      if j < |Get(at, r)| {
        assert Get(at, r)[j] == Get(at', r)[j];
        assert Has(at, r, Get(at, r)[j]);
      }
    }
  }

  lemma PushKeeps(at: Contents, p: Place, id: Id)
    requires Unique(at) && !Held(at, id)
    ensures Unique(Push(at, p, id))
    ensures forall x :: Held(Push(at, p, id), x) <==> Held(at, x) || x == id
    ensures forall q, x :: Has(Push(at, p, id), q, x) <==> Has(at, q, x) || (q == p && x == id)
  {
    PushUnique(at, p, id);
    var at' := Push(at, p, id);
    forall q, x
      ensures Has(at', q, x) <==> Has(at, q, x) || (q == p && x == id)
    {
      assert Get(at', q) == if q == p then Get(at, q) + [id] else Get(at, q);
    }
    forall x
      ensures Held(at', x) <==> Held(at, x) || x == id
    {
      if Held(at, x) {
        var q :| Has(at, q, x);
        assert Has(at', q, x);
      }
      assert Has(at', p, id);
    }
  }

  lemma PopUnique(at: Contents, p: Place)
    requires Unique(at) && Get(at, p) != []
    ensures Unique(Pop(at, p))
    ensures forall q, x :: Has(Pop(at, p), q, x) <==> Has(at, q, x) && !(q == p && x == Get(at, p)[0])
  {
    var at' := Pop(at, p);
    forall q, i, r, j | 0 <= i < |Get(at', q)| && 0 <= j < |Get(at', r)| && Get(at', q)[i] == Get(at', r)[j]
      ensures q == r && i == j
    {
      var i0, j0 := if q == p then i + 1 else i, if r == p then j + 1 else j;
      assert Get(at, q)[i0] == Get(at, r)[j0];
    }
    assert Get(at, p) == [Get(at, p)[0]] + Get(at', p);
    forall q, x
      ensures Has(at', q, x) <==> Has(at, q, x) && !(q == p && x == Get(at, p)[0])
    {
      assert forall i :: 0 <= i < |Get(at', p)| ==> Get(at', p)[i] == Get(at, p)[i + 1] != Get(at, p)[0];
    }
  }

  lemma PopKeeps(at: Contents, p: Place)
    requires Unique(at) && Get(at, p) != []
    ensures Unique(Pop(at, p))
    ensures forall x :: Held(Pop(at, p), x) <==> Held(at, x) && x != Get(at, p)[0]
    ensures forall q, x :: Has(Pop(at, p), q, x) <==> Has(at, q, x) && !(q == p && x == Get(at, p)[0])
  {
    PopUnique(at, p);
    var at' := Pop(at, p);
    var id := Get(at, p)[0];
    assert Has(at, p, id);
    forall x
      ensures Held(at', x) <==> Held(at, x) && x != id
    {
      if Held(at, x) && x != id {
        var q :| Has(at, q, x);
        assert Has(at', q, x);
      }
      if Held(at', x) {
        var q :| Has(at', q, x);
        assert Has(at, q, x);
        if x == id {
          PlaceIsUnique(at, p, q, id);
        }
      }
    }
  }

  lemma PlaceIsUnique(at: Contents, p: Place, q: Place, id: Id)
    requires Unique(at) && Has(at, p, id) && Has(at, q, id)
    ensures p == q
  {
    var i :| 0 <= i < |Get(at, p)| && Get(at, p)[i] == id;
    var j :| 0 <= j < |Get(at, q)| && Get(at, q)[j] == id;
  }
}
