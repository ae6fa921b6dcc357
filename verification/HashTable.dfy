/** The chained hash table (hashtable.c). Chains are sequences with the newest entry first. */
module HashTable {
  import opened Common

  const PRIMES: seq<nat> := [
    53, 97, 193, 389, 769, 1543, 3079, 6151, 12289, 24593, 49157, 98317, 196613, 393241, 786433, 1572869, 3145739,
    6291469, 12582917, 25165843, 50331653, 100663319, 201326611, 402653189, 805306457, 1610612741
  ]

  /** indexFor */
  function Index(hashvalue: nat, length: nat): (i: nat)
    requires length > 0
    ensures i < length
  {
    hashvalue % length
  }

  datatype Entry<K, V> = Entry(h: nat, k: K, v: V)

  /** The values stored for a key, in the order of the chain. */
  function ValuesIn<K(==), V>(chain: seq<Entry<K, V>>, k: K): seq<V> {
    if chain == [] then []
    else if chain[0].k == k then [chain[0].v] + ValuesIn(chain[1..], k)
    else ValuesIn(chain[1..], k)
  }

  lemma ValuesCons<K, V>(e: Entry<K, V>, chain: seq<Entry<K, V>>, k: K)
    ensures ValuesIn([e] + chain, k) == if e.k == k then [e.v] + ValuesIn(chain, k) else ValuesIn(chain, k)
  {
    assert ([e] + chain)[1..] == chain;
  }

  lemma {:induction false} ValuesAppend<K, V>(a: seq<Entry<K, V>>, b: seq<Entry<K, V>>, k: K)
    ensures ValuesIn(a + b, k) == ValuesIn(a, k) + ValuesIn(b, k)
    decreases |a|
  {
    if a == [] {
      assert a + b == b;
    } else {
      assert a + b == [a[0]] + (a[1..] + b);
      ValuesCons(a[0], a[1..] + b, k);
      ValuesAppend(a[1..], b, k);
    }
  }

  function Reverse<T>(s: seq<T>): seq<T> {
    if s == [] then [] else Reverse(s[1..]) + [s[0]]
  }

  lemma {:induction false} ReverseSnoc<T>(s: seq<T>, x: T)
    ensures Reverse(s + [x]) == [x] + Reverse(s)
  {
    if s != [] {
      ReverseSnoc(s[1..], x);
      assert (s + [x])[1..] == s[1..] + [x];
    }
  }

  lemma {:induction false} ReverseEnds<T>(s: seq<T>)
    ensures |Reverse(s)| == |s|
    ensures s != [] ==> Reverse(s)[0] == s[|s| - 1] && Reverse(s)[|s| - 1] == s[0]
  {
    if s != [] {
      ReverseEnds(s[1..]);
    }
  }

  /** Entries know their hash value and are in the chain that it selects. */
  ghost predicate ChainOk<K, V>(hash: K -> nat, chain: seq<Entry<K, V>>, i: nat, length: nat)
    requires length > 0
  {
    forall j :: 0 <= j < |chain| ==> chain[j].h == hash(chain[j].k) && Index(chain[j].h, length) == i
  }

  ghost predicate TableOk<K, V>(hash: K -> nat, table: seq<seq<Entry<K, V>>>) {
    |table| > 0 && forall i :: 0 <= i < |table| ==> ChainOk(hash, table[i], i, |table|)
  }

  /** In numbers: every entry is in the chain whose number is its hash value modulo the length of the table. */
  lemma ChainNumber<K, V>(hash: K -> nat, table: seq<seq<Entry<K, V>>>, i: nat, j: nat)
    requires TableOk(hash, table) && i < |table| && j < |table[i]|
    ensures hash(table[i][j].k) % |table| == i
  {
    assert ChainOk(hash, table[i], i, |table|);
  }

  /** Every table is more than one and a half times as long as the one before. */
  lemma TablesGrow(i: nat)
    requires i + 1 < |PRIMES|
    ensures 3 * PRIMES[i] < 2 * PRIMES[i + 1]
  {
  }

  /** The values stored for a key in the whole table. */
  function Values<K(==), V>(hash: K -> nat, table: seq<seq<Entry<K, V>>>, k: K): seq<V>
    requires |table| > 0
  {
    ValuesIn(table[Index(hash(k), |table|)], k)
  }

  /** Moving the head of a chain to the head of its new chain. */
  lemma MoveHead<K, V>(hash: K -> nat, table: seq<seq<Entry<K, V>>>, e: Entry<K, V>, table': seq<seq<Entry<K, V>>>)
    requires TableOk(hash, table) && e.h == hash(e.k)
    requires table' == table[Index(e.h, |table|) := [e] + table[Index(e.h, |table|)]]
    ensures TableOk(hash, table') && Values(hash, table', e.k) == [e.v] + Values(hash, table, e.k)
    ensures forall k :: k != e.k ==> Values(hash, table', k) == Values(hash, table, k)
  {
    hide Index;
    var i := Index(e.h, |table|);
    forall k
      ensures ValuesIn([e] + table[i], k)
           == if e.k == k then [e.v] + ValuesIn(table[i], k) else ValuesIn(table[i], k)
    {
      ValuesCons(e, table[i], k);
    }
    forall j | 0 <= j < |table'|
      ensures ChainOk(hash, table'[j], j, |table'|)
    {
      assert ChainOk(hash, table[j], j, |table|);
    }
  }

  /** No key has more than one value. */
  ghost predicate UniqueKeys<K(!new), V>(hash: K -> nat, table: seq<seq<Entry<K, V>>>)
    requires |table| > 0
  {
    forall k :: |Values(hash, table, k)| <= 1
  }

  /** Each key has its values in reversed order. */
  ghost predicate Reversed<K(!new), V>(hash: K -> nat, before: seq<seq<Entry<K, V>>>, after: seq<seq<Entry<K, V>>>)
    requires |before| > 0 && |after| > 0
  {
    forall k :: Values(hash, after, k) == Reverse(Values(hash, before, k))
  }

  /** What the new table holds for a key when the chains before i and the part `done` of chain i have been moved. */
  function Moved<K(==), V>(hash: K -> nat, old': seq<seq<Entry<K, V>>>, i: nat, done: seq<Entry<K, V>>, k: K): seq<V>
    requires |old'| > 0
  {
    var b := Index(hash(k), |old'|);
    if b < i then Reverse(Values(hash, old', k)) else if b == i then Reverse(ValuesIn(done, k)) else []
  }

  class Table<K(==, !new), V(==)> {
    const hash: K -> nat
    var table: seq<seq<Entry<K, V>>>
    var primeIndex: nat

    ghost predicate Valid()
      reads this
    {
      TableOk(hash, table) && primeIndex < |PRIMES| && |table| == PRIMES[primeIndex]
    }

    constructor (hash: K -> nat, primeIndex: nat)
      requires primeIndex < |PRIMES|
      ensures Valid() && this.hash == hash && forall k :: Values(hash, table, k) == []
    {
      this.hash := hash;
      this.primeIndex := primeIndex;
      table := seq(PRIMES[primeIndex], _ => []);
    }

    /** hashtable_search: the newest value of the key. */
    method Search(k: K) returns (r: Option<V>)
      requires Valid()
      ensures var vs := Values(hash, table, k);
              r == if vs == [] then None else Some(vs[0])
    {
      var hashvalue := hash(k);
      var chain := table[Index(hashvalue, |table|)];
      ghost var index := Index(hashvalue, |table|);
      assert ChainOk(hash, chain, index, |table|);
      var j := 0;
      while j < |chain|
        invariant 0 <= j <= |chain| && ValuesIn(chain, k) == ValuesIn(chain[j..], k)
      {
        assert chain[j..][1..] == chain[j + 1..];
        if hashvalue == chain[j].h && k == chain[j].k {
          return Some(chain[j].v);
        }
        j := j + 1;
      }
      r := None;
    }

    /** hashtable_insert without expansion: the key gets one more value, in front; other keys keep theirs. */
    method Insert(k: K, v: V)
      requires Valid()
      modifies this`table
      ensures Valid() && |table| == |old(table)|
      ensures Values(hash, table, k) == [v] + Values(hash, old(table), k)
      ensures forall x :: x != k ==> Values(hash, table, x) == Values(hash, old(table), x)
    {
      var e := Entry(hash(k), k, v);
      var index := Index(e.h, |table|);
      ghost var was := table;
      table := table[index := [e] + table[index]];
      MoveHead(hash, was, e, table);
    }

    /** The critical section of sub_Deduplicate (encoder.c 485-509): search, and insert only what was not found. The
        table stays a map, and the first value stored for a key remains. */
    method SearchOrInsert(k: K, v: V) returns (original: Option<V>)
      requires Valid() && UniqueKeys(hash, table)
      modifies this`table
      ensures Valid() && UniqueKeys(hash, table)
      ensures var vs := Values(hash, old(table), k);
              original == (if vs == [] then None else Some(vs[0])) && Values(hash, table, k) == if vs == [] then [v] else vs
      ensures forall x :: x != k ==> Values(hash, table, x) == Values(hash, old(table), x)
    {
      original := Search(k);
      if original.None? {
        Insert(k, v);
      }
    }

    /** hashtable_remove: the newest value of the key goes away and is returned. */
    method Remove(k: K) returns (r: Option<V>)
      requires Valid()
      modifies this`table
      ensures Valid() && |table| == |old(table)|
      ensures var vs := Values(hash, old(table), k);
              if vs == [] then r == None && table == old(table)
              else r == Some(vs[0]) && Values(hash, table, k) == vs[1..]
      ensures forall x :: x != k ==> Values(hash, table, x) == Values(hash, old(table), x)
    {
      var hashvalue := hash(k);
      var index := Index(hashvalue, |table|);
      var chain := table[index];
      assert ChainOk(hash, chain, index, |table|);
      var j := 0;
      while j < |chain|
        invariant 0 <= j <= |chain| && table == old(table)
        invariant ValuesIn(chain[..j], k) == [] && ValuesIn(chain, k) == ValuesIn(chain[j..], k)
      {
        assert chain[j..][1..] == chain[j + 1..];
        if hashvalue == chain[j].h && k == chain[j].k {
          ghost var was := table;
          table := table[index := chain[..j] + chain[j + 1..]];
          Unlink(hash, was, index, j, table);
          return Some(chain[j].v);
        }
        assert chain[..j + 1] == chain[..j] + [chain[j]];
        ValuesAppend(chain[..j], [chain[j]], k);
        j := j + 1;
      }
      r := None;
    }

    /** hashtable_expand, when malloc succeeds: every chain is emptied from its head into the new table. The values of
        each key are kept, in reversed order. */
    method Expand() returns (expanded: bool)
      requires Valid()
      modifies this
      ensures Valid() && (expanded <==> old(primeIndex) + 1 < |PRIMES|)
      ensures !expanded ==> table == old(table)
      ensures expanded ==> |table| == PRIMES[old(primeIndex) + 1] && 3 * |old(table)| < 2 * |table|
      ensures expanded ==> Reversed(hash, old(table), table)
    {
      hide Moved, ValuesIn, Values, Index;
      if primeIndex == |PRIMES| - 1 {
        return false;
      }
      TablesGrow(primeIndex);
      primeIndex := primeIndex + 1;
      var newsize := PRIMES[primeIndex];
      var newtable: seq<seq<Entry<K, V>>> := seq(newsize, _ => []);
      forall k
        ensures Values(hash, newtable, k) == Moved(hash, table, 0, [], k)
      {
        NoneMoved(hash, table, newtable, k);
      }
      var i := 0;
      while i < |table|
        invariant 0 <= i <= |table| && |newtable| == newsize && TableOk(hash, newtable)
        invariant table == old(table) && primeIndex == old(primeIndex) + 1
        invariant forall k :: Values(hash, newtable, k) == Moved(hash, table, i, [], k)
      {
        newtable := EmptyChain(i, newtable);
        i := i + 1;
      }
      ghost var was := table;
      forall k: K
        ensures Values(hash, newtable, k) == Reverse(Values(hash, was, k))
      {
        AllMoved(hash, was, k);
      }
      assert Reversed(hash, was, newtable);
      table := newtable;
      expanded := true;
    }

    /** The inner loop: move chain i, head by head. */
    method EmptyChain(i: nat, target: seq<seq<Entry<K, V>>>) returns (newtable: seq<seq<Entry<K, V>>>)
      requires TableOk(hash, table) && i < |table| && TableOk(hash, target)
      requires forall k :: Values(hash, target, k) == Moved(hash, table, i, [], k)
      ensures |newtable| == |target| && TableOk(hash, newtable)
      ensures forall k :: Values(hash, newtable, k) == Moved(hash, table, i + 1, [], k)
    {
      hide Moved, ValuesIn, Values, Index;
      newtable := target;
      var chain := table[i];
      var j := 0;
      assert ChainOk(hash, chain, i, |table|);
      assert chain[..0] == [];
      while j < |chain|
        invariant 0 <= j <= |chain| && |newtable| == |target| && TableOk(hash, newtable)
        invariant forall k :: Values(hash, newtable, k) == Moved(hash, table, i, chain[..j], k)
      {
        var e := chain[j];
        var index := Index(e.h, |newtable|);
        ghost var was := newtable;
        newtable := newtable[index := [e] + newtable[index]];
        MoveHead(hash, was, e, newtable);
        forall k: K
          ensures Values(hash, newtable, k) == Moved(hash, table, i, chain[..j + 1], k)
        {
          MovedNext(hash, table, i, chain[..j], e, k);
          assert chain[..j + 1] == chain[..j] + [e];
        }
        j := j + 1;
      }
      assert chain[..j] == chain;
      forall k
        ensures Values(hash, newtable, k) == Moved(hash, table, i + 1, [], k)
      {
        ChainMoved(hash, table, i, k);
      }
    }
  }

  /** Taking one entry out of its chain takes the first value of its key away. */
  lemma Unlink<K, V>(hash: K -> nat, table: seq<seq<Entry<K, V>>>, index: nat, j: nat, table': seq<seq<Entry<K, V>>>)
    requires TableOk(hash, table) && index < |table| && j < |table[index]|
    requires ValuesIn(table[index][..j], table[index][j].k) == []
    requires table' == table[index := table[index][..j] + table[index][j + 1..]]
    ensures TableOk(hash, table')
    ensures Values(hash, table, table[index][j].k) == [table[index][j].v] + Values(hash, table', table[index][j].k)
    ensures forall x :: x != table[index][j].k ==> Values(hash, table', x) == Values(hash, table, x)
  {
    hide Index;
    var chain := table[index];
    var e := chain[j];
    assert ChainOk(hash, chain, index, |table|);
    forall i | 0 <= i < |table'|
      ensures ChainOk(hash, table'[i], i, |table'|)
    {
      assert ChainOk(hash, table[i], i, |table|);
    }
    assert chain == chain[..j] + ([e] + chain[j + 1..]);
    forall x
      ensures ValuesIn(chain, x) == ValuesIn(chain[..j], x) + ValuesIn([e] + chain[j + 1..], x)
      ensures ValuesIn(chain[..j] + chain[j + 1..], x) == ValuesIn(chain[..j], x) + ValuesIn(chain[j + 1..], x)
      ensures ValuesIn([e] + chain[j + 1..], x)
           == if e.k == x then [e.v] + ValuesIn(chain[j + 1..], x) else ValuesIn(chain[j + 1..], x)
    {
      ValuesAppend(chain[..j], [e] + chain[j + 1..], x);
      ValuesAppend(chain[..j], chain[j + 1..], x);
      ValuesCons(e, chain[j + 1..], x);
    }
  }

  lemma NoneMoved<K, V>(hash: K -> nat, table: seq<seq<Entry<K, V>>>, newtable: seq<seq<Entry<K, V>>>, k: K)
    requires |table| > 0 && |newtable| > 0 && forall i :: 0 <= i < |newtable| ==> newtable[i] == []
    ensures Values(hash, newtable, k) == Moved(hash, table, 0, [], k) == []
  {
  }

  lemma ChainMoved<K, V>(hash: K -> nat, table: seq<seq<Entry<K, V>>>, i: nat, k: K)
    requires i < |table|
    ensures Moved(hash, table, i, table[i], k) == Moved(hash, table, i + 1, [], k)
  {
  }

  lemma AllMoved<K, V>(hash: K -> nat, table: seq<seq<Entry<K, V>>>, k: K)
    requires |table| > 0
    ensures Moved(hash, table, |table|, [], k) == Reverse(Values(hash, table, k))
  {
  }

  lemma OneEntry<K, V>(e: Entry<K, V>, k: K)
    ensures ValuesIn([e], k) == if e.k == k then [e.v] else []
  {
  }

  lemma MovedNext<K, V>(hash: K -> nat, table: seq<seq<Entry<K, V>>>, i: nat, done: seq<Entry<K, V>>, e: Entry<K, V>,
                        k: K)
    requires |table| > 0 && e.h == hash(e.k) && Index(e.h, |table|) == i
    ensures Moved(hash, table, i, done + [e], k)
         == if e.k == k then [e.v] + Moved(hash, table, i, done, k) else Moved(hash, table, i, done, k)
  {
    hide ValuesIn, Reverse;
    ValuesAppend(done, [e], k);
    OneEntry(e, k);
    ReverseSnoc(ValuesIn(done, k), e.v);
    assert ValuesIn(done, k) + [] == ValuesIn(done, k);
  }

  /** Expansion does not change what a search finds exactly when the oldest and the newest value of each key agree; in
      particular when every key was searched for before it was inserted, so that it has one value at most. */
  lemma ExpansionKeepsSearch<K(!new), V>(hash: K -> nat, before: seq<seq<Entry<K, V>>>, after: seq<seq<Entry<K, V>>>, k: K)
    requires |before| > 0 && |after| > 0 && Reversed(hash, before, after)
    ensures var vs, ws := Values(hash, before, k), Values(hash, after, k);
            && (vs == [] <==> ws == [])
            && (vs != [] ==> (ws[0] == vs[0] <==> vs[|vs| - 1] == vs[0]))
            && (|vs| <= 1 ==> ws == vs)
  {
    ReverseEnds(Values(hash, before, k));
  }
}
