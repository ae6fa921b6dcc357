/** Values shared by the models: optional results, bytes, and lists of byte strings. */
module Common {
  datatype Option<+T> = None | Some(value: T)

  newtype Byte = n: int | 0 <= n < 256
  type Bytes = seq<Byte>

  function Min(a: nat, b: nat): nat {
    if a <= b then a else b
  }

  /** Subtraction down to 0. */
  function Minus(a: nat, b: nat): nat {
    if b <= a then a - b else 0
  }

  /** How many elements the loops of queue_enqueue and queue_dequeue move: until `limit` are moved, the source
      is empty or the target holds its capacity. */
  function TransferCount(limit: nat, available: nat, held: nat, capacity: nat): nat {
    Min(limit, Min(available, if capacity <= held then 0 else capacity - held))
  }

  /** The concatenation of a list of sequences. */
  function Flatten<T>(parts: seq<seq<T>>): seq<T> {
    if parts == [] then [] else parts[0] + Flatten(parts[1..])
  }

  lemma FlattenCons<T>(x: seq<T>, a: seq<seq<T>>)
    ensures Flatten([x] + a) == x + Flatten(a)
  {
    assert ([x] + a)[1..] == a;
  }

  lemma Associative<T>(a: seq<T>, b: seq<T>, c: seq<T>)
    ensures a + (b + c) == (a + b) + c
  {
  }

  lemma {:induction false} FlattenAppend<T>(a: seq<seq<T>>, b: seq<seq<T>>)
    ensures Flatten(a + b) == Flatten(a) + Flatten(b)
  {
    if a == [] {
      assert a + b == b;
    } else {
      FlattenAppend(a[1..], b);
      assert a + b == [a[0]] + (a[1..] + b);
      FlattenCons(a[0], a[1..] + b);
      Associative(a[0], Flatten(a[1..]), Flatten(b));
    }
  }

  /** Appending one part at the end. */
  lemma FlattenSnoc<T>(a: seq<seq<T>>, x: seq<T>)
    ensures Flatten(a + [x]) == Flatten(a) + x
  {
    FlattenAppend(a, [x]);
    assert Flatten([x]) == x + Flatten<T>([]);
  }

  /** k * c */
  function Times(k: nat, c: nat): nat {
    if k == 0 then 0 else Times(k - 1, c) + c
  }

  lemma {:induction false} TimesLess(j: nat, k: nat, c: nat)
    requires j < k
    ensures Times(j, c) + c <= Times(k, c)
    decreases k
  {
    if j < k - 1 {
      TimesLess(j, k - 1, c);
    }
  }
}
