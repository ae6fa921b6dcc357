/** Reference-counted views of memory blocks (mbuffer.c 98-310). Buffers, control blocks and memory blocks are known
    by numbers: the addresses of their structures. An allocation returns an unused address, or fails. */
module MBuffers {
  import opened Common

  /** mcb_t: the reference counter and the address of the block. */
  datatype Mcb = Mcb(i: nat, ptr: nat)

  /** mbuffer_t: n bytes at offset `off` of the block at `base`. */
  datatype View = View(base: nat, off: nat, n: nat, mcb: nat)

  type Views = map<nat, View>

  ghost function ViewsOf(views: Views, c: nat): set<nat> {
    set m | m in views && views[m].mcb == c
  }

  ghost predicate ViewOk(v: View, mcbs: map<nat, Mcb>, memory: map<nat, Bytes>) {
    && v.mcb in mcbs && v.base == mcbs[v.mcb].ptr && v.base in memory
    && 0 < v.n && v.off + v.n <= |memory[v.base]|
  }

  /** The counter of every control block is the number of its live views, and every block that is allocated belongs
      to exactly one control block with a live view. */
  ghost predicate Counted(views: Views, mcbs: map<nat, Mcb>, memory: map<nat, Bytes>) {
    && (forall c :: c in mcbs ==> mcbs[c].i == |ViewsOf(views, c)| && mcbs[c].i > 0 && mcbs[c].ptr in memory)
    && (forall c, d :: c in mcbs && d in mcbs && mcbs[c].ptr == mcbs[d].ptr ==> c == d)
    && (forall p :: p in memory ==> Owned(mcbs, p))
  }

  ghost predicate Owned(mcbs: map<nat, Mcb>, p: nat) {
    exists c :: c in mcbs && mcbs[c].ptr == p
  }

  ghost predicate AllOk(views: Views, mcbs: map<nat, Mcb>, memory: map<nat, Bytes>) {
    forall m :: m in views ==> ViewOk(views[m], mcbs, memory)
  }

  predicate Overlap(a: View, b: View) {
    a.base == b.base && a.off < b.off + b.n && b.off < a.off + a.n
  }

  /** Two views overlap exactly if there is a byte that lies in both. */
  lemma OverlapIsSharedByte(a: View, b: View)
    requires a.n > 0 && b.n > 0
    ensures Overlap(a, b) <==>
              a.base == b.base && exists i: nat :: InView(a, i) && InView(b, i)
  {
    if Overlap(a, b) {
      var i := if a.off < b.off then b.off else a.off;
      assert InView(a, i) && InView(b, i);
    }
  }

  predicate InView(v: View, i: nat) {
    v.off <= i < v.off + v.n
  }

  ghost predicate Disjoint(views: Views) {
    forall a, b :: a in views && b in views && a != b ==> !Overlap(views[a], views[b])
  }

  /** One more view. */
  lemma ViewsAdded(views: Views, m: nat, v: View, c: nat)
    requires m !in views
    ensures ViewsOf(views[m := v], c) == ViewsOf(views, c) + if v.mcb == c then {m} else {}
    ensures |ViewsOf(views[m := v], c)| == |ViewsOf(views, c)| + if v.mcb == c then 1 else 0
  {
    assert m !in ViewsOf(views, c);
  }

  /** One view fewer. */
  lemma ViewsRemoved(views: Views, m: nat, c: nat)
    requires m in views
    ensures ViewsOf(views - {m}, c) == ViewsOf(views, c) - {m}
    ensures |ViewsOf(views - {m}, c)| == |ViewsOf(views, c)| - if views[m].mcb == c then 1 else 0
  {
    assert views[m].mcb == c ==> m in ViewsOf(views, c);
    assert ViewsOf(views - {m}, c) == ViewsOf(views, c) - {m};
  }

  /** A view that changes without changing its control block. */
  lemma ViewsChanged(views: Views, m: nat, v: View, c: nat)
    requires m in views && views[m].mcb == v.mcb
    ensures ViewsOf(views[m := v], c) == ViewsOf(views, c)
  {
  }

  /** A counter of one means that no other view sees the block. */
  lemma OnlyView(views: Views, mcbs: map<nat, Mcb>, memory: map<nat, Bytes>, m: nat, x: nat)
    requires Counted(views, mcbs, memory) && m in views && x in views && x != m
    requires ViewOk(views[m], mcbs, memory) && ViewOk(views[x], mcbs, memory)
    requires mcbs[views[m].mcb].i == 1
    ensures views[x].mcb != views[m].mcb && views[x].base != views[m].base
  {
    if views[x].mcb == views[m].mcb {
      assert {m, x} <= ViewsOf(views, views[m].mcb);
      SubsetSize({m, x}, ViewsOf(views, views[m].mcb));
    }
  }

  lemma {:induction false} SubsetSize(a: set<nat>, b: set<nat>)
    requires a <= b
    ensures |a| <= |b|
    decreases |a|
  {
    if x :| x in a {
      SubsetSize(a - {x}, b - {x});
    }
  }

  /** A new block with its first view. */
  lemma CreateCounted(views: Views, mcbs: map<nat, Mcb>, memory: map<nat, Bytes>, m: nat, c: nat, p: nat, bytes: Bytes)
    requires Counted(views, mcbs, memory) && AllOk(views, mcbs, memory)
    requires m !in views && c !in mcbs && p !in memory && bytes != []
    ensures var views', mcbs', memory' := views[m := View(p, 0, |bytes|, c)], mcbs[c := Mcb(1, p)], memory[p := bytes];
            Counted(views', mcbs', memory') && AllOk(views', mcbs', memory')
  {
    hide ViewOk, Owned;
    var views', mcbs' := views[m := View(p, 0, |bytes|, c)], mcbs[c := Mcb(1, p)];
    NewViewOk(views, mcbs, memory, m, c, p, bytes);
    forall d | d in mcbs'
      ensures mcbs'[d].i == |ViewsOf(views', d)|
    {
      NewCounter(views, mcbs, memory, m, c, p, bytes, d);
    }
    forall q | q in memory[p := bytes]
      ensures Owned(mcbs', q)
    {
      NewOwner(mcbs, memory, c, p, q);
    }
  }

  lemma NewViewOk(views: Views, mcbs: map<nat, Mcb>, memory: map<nat, Bytes>, m: nat, c: nat, p: nat, bytes: Bytes)
    requires AllOk(views, mcbs, memory) && c !in mcbs && p !in memory && bytes != []
    ensures AllOk(views[m := View(p, 0, |bytes|, c)], mcbs[c := Mcb(1, p)], memory[p := bytes])
  {
    forall x | x in views
      ensures ViewOk(views[x], mcbs[c := Mcb(1, p)], memory[p := bytes])
    {
      assert ViewOk(views[x], mcbs, memory);
    }
  }

  lemma NewCounter(views: Views, mcbs: map<nat, Mcb>, memory: map<nat, Bytes>, m: nat, c: nat, p: nat, bytes: Bytes, d: nat)
    requires Counted(views, mcbs, memory) && AllOk(views, mcbs, memory) && m !in views && c !in mcbs
    requires d == c || d in mcbs
    ensures mcbs[c := Mcb(1, p)][d].i == |ViewsOf(views[m := View(p, 0, |bytes|, c)], d)|
  {
    hide Owned;
    ViewsAdded(views, m, View(p, 0, |bytes|, c), d);
    if d == c {
      NoViewsYet(views, mcbs, memory, c);
    }
  }

  lemma NoViewsYet(views: Views, mcbs: map<nat, Mcb>, memory: map<nat, Bytes>, c: nat)
    requires AllOk(views, mcbs, memory) && c !in mcbs
    ensures |ViewsOf(views, c)| == 0
  {
    assert ViewsOf(views, c) == {};
  }

  lemma NewOwner(mcbs: map<nat, Mcb>, memory: map<nat, Bytes>, c: nat, p: nat, q: nat)
    requires c !in mcbs && (q == p || Owned(mcbs, q))
    ensures Owned(mcbs[c := Mcb(1, p)], q)
  {
    var mcbs' := mcbs[c := Mcb(1, p)];
    if q == p {
      assert c in mcbs' && mcbs'[c].ptr == p;
    } else {
      var d :| d in mcbs && mcbs[d].ptr == q;
      assert d in mcbs' && mcbs'[d].ptr == q;
    }
  }

  /** Another view of a block: mbuffer_clone, and the second half of mbuffer_split. */
  lemma ShareCounted(views: Views, mcbs: map<nat, Mcb>, memory: map<nat, Bytes>, m: nat, v: View)
    requires Counted(views, mcbs, memory) && AllOk(views, mcbs, memory) && m !in views && ViewOk(v, mcbs, memory)
    ensures var views', mcbs' := views[m := v], mcbs[v.mcb := mcbs[v.mcb].(i := mcbs[v.mcb].i + 1)];
            Counted(views', mcbs', memory) && AllOk(views', mcbs', memory)
  {
    var views', mcbs' := views[m := v], mcbs[v.mcb := mcbs[v.mcb].(i := mcbs[v.mcb].i + 1)];
    forall d | d in mcbs'
      ensures mcbs'[d].i == |ViewsOf(views', d)|
    {
      ViewsAdded(views, m, v, d);
    }
    SamePointers(mcbs, mcbs', memory);
    forall x | x in views'
      ensures ViewOk(views'[x], mcbs', memory)
    {
      assert x != m ==> ViewOk(views[x], mcbs, memory);
    }
  }

  lemma SamePointers(mcbs: map<nat, Mcb>, mcbs': map<nat, Mcb>, memory: map<nat, Bytes>)
    requires mcbs.Keys == mcbs'.Keys && forall c :: c in mcbs ==> mcbs'[c].ptr == mcbs[c].ptr
    requires forall p :: p in memory ==> Owned(mcbs, p)
    ensures forall p :: p in memory ==> Owned(mcbs', p)
  {
    forall p | p in memory
      ensures Owned(mcbs', p)
    {
      assert Owned(mcbs, p);
      var c :| c in mcbs && mcbs[c].ptr == p;
      assert c in mcbs' && mcbs'[c].ptr == p;
    }
  }

  /** A view that shrinks. */
  lemma ShrinkCounted(views: Views, mcbs: map<nat, Mcb>, memory: map<nat, Bytes>, m: nat, n: nat)
    requires Counted(views, mcbs, memory) && AllOk(views, mcbs, memory) && m in views && 0 < n <= views[m].n
    ensures Counted(views[m := views[m].(n := n)], mcbs, memory)
    ensures AllOk(views[m := views[m].(n := n)], mcbs, memory)
  {
    var v := views[m].(n := n);
    assert ViewOk(views[m], mcbs, memory);
    forall c | c in mcbs
      ensures mcbs[c].i == |ViewsOf(views[m := v], c)|
    {
      ViewsChanged(views, m, v, c);
    }
  }

  /** A view that is not the last one of its block goes away. */
  lemma DropCounted(views: Views, mcbs: map<nat, Mcb>, memory: map<nat, Bytes>, m: nat)
    requires Counted(views, mcbs, memory) && AllOk(views, mcbs, memory) && m in views
    requires views[m].mcb in mcbs && mcbs[views[m].mcb].i > 1
    ensures var c := views[m].mcb;
            var mcbs' := mcbs[c := mcbs[c].(i := mcbs[c].i - 1)];
            Counted(views - {m}, mcbs', memory) && AllOk(views - {m}, mcbs', memory)
  {
    var c := views[m].mcb;
    var mcbs' := mcbs[c := mcbs[c].(i := mcbs[c].i - 1)];
    forall d | d in mcbs'
      ensures mcbs'[d].i == |ViewsOf(views - {m}, d)|
    {
      ViewsRemoved(views, m, d);
    }
    SamePointers(mcbs, mcbs', memory);
    forall x | x in views - {m}
      ensures ViewOk((views - {m})[x], mcbs', memory)
    {
      assert ViewOk(views[x], mcbs, memory);
    }
  }

  /** The last view of a block goes away, and with it the block and its control block. */
  lemma ReleaseCounted(views: Views, mcbs: map<nat, Mcb>, memory: map<nat, Bytes>, m: nat)
    requires Counted(views, mcbs, memory) && AllOk(views, mcbs, memory) && m in views
    requires views[m].mcb in mcbs && mcbs[views[m].mcb].i == 1
    ensures var c := views[m].mcb;
            var mcbs', memory' := mcbs - {c}, memory - {mcbs[c].ptr};
            Counted(views - {m}, mcbs', memory') && AllOk(views - {m}, mcbs', memory')
  {
    var c := views[m].mcb;
    var mcbs', memory' := mcbs - {c}, memory - {mcbs[c].ptr};
    forall d | d in mcbs'
      ensures mcbs'[d].i == |ViewsOf(views - {m}, d)|
    {
      ViewsRemoved(views, m, d);
    }
    forall p | p in memory'
      ensures Owned(mcbs', p)
    {
      assert Owned(mcbs, p);
      var d :| d in mcbs && mcbs[d].ptr == p;
      assert d in mcbs' && mcbs'[d].ptr == p;
    }
    forall x | x in views - {m}
      ensures ViewOk((views - {m})[x], mcbs', memory')
    {
      assert ViewOk(views[x], mcbs, memory) && ViewOk(views[m], mcbs, memory);
      OnlyView(views, mcbs, memory, m, x);
    }
  }

  /** The only view of a block moves with it to another address. */
  lemma MoveCounted(views: Views, mcbs: map<nat, Mcb>, memory: map<nat, Bytes>, m: nat, p: nat, bytes: Bytes)
    requires Counted(views, mcbs, memory) && AllOk(views, mcbs, memory) && m in views && bytes != []
    requires views[m].mcb in mcbs && mcbs[views[m].mcb].i == 1
    requires p == views[m].base || p !in memory
    ensures var v := views[m];
            var views', mcbs' := views[m := View(p, 0, |bytes|, v.mcb)], mcbs[v.mcb := Mcb(1, p)];
            var memory' := (memory - {v.base})[p := bytes];
            Counted(views', mcbs', memory') && AllOk(views', mcbs', memory')
  {
    hide Counted, AllOk;
    CounterIs(views, mcbs, memory, m);
    var v := views[m];
    ReleaseCounted(views, mcbs, memory, m);
    CreateCounted(views - {m}, mcbs - {v.mcb}, memory - {v.base}, m, v.mcb, p, bytes);
    assert (views - {m})[m := View(p, 0, |bytes|, v.mcb)] == views[m := View(p, 0, |bytes|, v.mcb)];
    assert (mcbs - {v.mcb})[v.mcb := Mcb(1, p)] == mcbs[v.mcb := Mcb(1, p)];
  }

  /** What realloc leaves: the old bytes as far as both sizes reach. */
  function Resized(was: Bytes, content: Bytes): (r: Bytes)
    ensures |r| == |content| && forall i :: 0 <= i < |r| ==> r[i] == if i < |was| then was[i] else content[i]
  {
    var kept := Min(|was|, |content|);
    was[..kept] + content[kept..]
  }

  class Subsystem {
    var views: Views
    var mcbs: map<nat, Mcb>
    var memory: map<nat, Bytes>

    ghost predicate Valid()
      reads this
    {
      Counted(views, mcbs, memory) && AllOk(views, mcbs, memory)
    }

    ghost function Data(m: nat): Bytes
      reads this
      requires Valid() && m in views
    {
      var v := views[m];
      assert ViewOk(v, mcbs, memory);
      memory[v.base][v.off..v.off + v.n]
    }

    /** The whole block that a view lies in, and its reference counter. */
    ghost function Block(m: nat): Bytes
      reads this
      requires Valid() && m in views
    {
      assert ViewOk(views[m], mcbs, memory);
      memory[views[m].base]
    }

    ghost function Counter(m: nat): nat
      reads this
      requires Valid() && m in views
    {
      assert ViewOk(views[m], mcbs, memory);
      mcbs[views[m].mcb].i
    }

    constructor ()
      ensures Valid() && views == map[]
    {
      views, mcbs, memory := map[], map[], map[];
    }

    /** mbuffer_create, with the results of its two calls of malloc and the bytes found in the new block. */
    method Create(m: nat, size: nat, block: Option<nat>, control: Option<nat>, content: Bytes) returns (ok: bool)
      requires Valid() && m !in views && size > 0 && |content| == size
      requires block.Some? ==> block.value !in memory
      requires control.Some? ==> control.value !in mcbs
      modifies this
      ensures Valid() && (ok <==> block.Some? && control.Some?)
      ensures ok ==> views.Keys == old(views.Keys) + {m} && Data(m) == content && mcbs[views[m].mcb].i == 1
      ensures !ok ==> views == old(views) && mcbs == old(mcbs) && memory == old(memory)
      ensures forall x :: x in old(views) ==> views[x] == old(views[x]) && Data(x) == old(Data(x))
      ensures Disjoint(old(views)) ==> Disjoint(views)
    {
      hide Counted;
      if block.None? || control.None? {
        // the block is freed again if only the second allocation fails
        return false;
      }
      CreateCounted(views, mcbs, memory, m, control.value, block.value, content);
      views := views[m := View(block.value, 0, size, control.value)];
      mcbs := mcbs[control.value := Mcb(1, block.value)];
      memory := memory[block.value := content];
      ok := true;
    }

    /** mbuffer_clone, given that the structure of the copy gets an unused address. */
    method Clone(m: nat, temp: nat)
      requires Valid() && m in views && temp !in views
      modifies this
      ensures Valid() && views == old(views)[temp := old(views[m])] && memory == old(memory)
      ensures Data(temp) == Data(m) == old(Data(m))
    {
      hide Counted;
      var v := views[m];
      assert ViewOk(v, mcbs, memory);
      ShareCounted(views, mcbs, memory, temp, v);
      mcbs := mcbs[v.mcb := mcbs[v.mcb].(i := mcbs[v.mcb].i + 1)];
      views := views[temp := v];
    }

    /** mbuffer_split: the first buffer keeps the bytes before `split`, the second gets the others. */
    method Split(m1: nat, m2: nat, split: nat)
      requires Valid() && m1 in views && m2 !in views && 0 < split < views[m1].n
      modifies this
      ensures Valid() && views.Keys == old(views.Keys) + {m2} && memory == old(memory)
      ensures views[m1].n == split && Data(m1) + Data(m2) == old(Data(m1))
      ensures forall x :: x in old(views) && x != m1 ==> views[x] == old(views[x])
      ensures Disjoint(old(views)) ==> Disjoint(views)
    {
      hide Counted, Disjoint, AllOk;
      SplitParts(views, mcbs, memory, m1, split);
      var v := views[m1];
      var second := View(v.base, v.off + split, v.n - split, v.mcb);
      ShareCounted(views, mcbs, memory, m2, second);
      mcbs := mcbs[v.mcb := mcbs[v.mcb].(i := mcbs[v.mcb].i + 1)];
      views := views[m2 := second];
      ShrinkCounted(views, mcbs, memory, m1, split);
      views := views[m1 := v.(n := split)];
      SplitDisjoint(old(views), m1, m2, split);
    }

    /** mbuffer_free: the block is released exactly when its last view is freed. */
    method Free(m: nat)
      requires Valid() && m in views
      modifies this
      ensures Valid() && views == old(views) - {m}
      ensures old(views[m].base) in memory <==> ViewsOf(views, old(views[m].mcb)) != {}
      ensures memory.Keys == old(memory.Keys) - (if old(views[m].base) in memory then {} else {old(views[m].base)})
      ensures forall x :: x in views ==> Data(x) == old(Data(x))
      ensures Disjoint(old(views)) ==> Disjoint(views)
    {
      hide Counted;
      var v := views[m];
      assert ViewOk(v, mcbs, memory);
      CounterIs(views, mcbs, memory, m);
      OthersElsewhere(views, mcbs, memory, m);
      ViewsRemoved(views, m, v.mcb);
      var ref := mcbs[v.mcb].i - 1;
      if ref == 0 {
        ReleaseCounted(views, mcbs, memory, m);
        memory := memory - {mcbs[v.mcb].ptr};
        mcbs := mcbs - {v.mcb};
      } else {
        DropCounted(views, mcbs, memory, m);
        mcbs := mcbs[v.mcb := mcbs[v.mcb].(i := ref)];
      }
      views := views - {m};
    }

    /** mbuffer_realloc, with the result of realloc and the bytes found behind the old contents. It refuses buffers
        that share their block or do not start it. */
    method Realloc(m: nat, size: nat, block: Option<nat>, content: Bytes) returns (ok: bool)
      requires Valid() && m in views && size > 0 && |content| == size
      requires block.Some? ==> block.value == views[m].base || block.value !in memory
      modifies this
      ensures Valid() && views.Keys == old(views.Keys)
      ensures ok <==> old(Counter(m)) == 1 && old(views[m].off) == 0 && block.Some?
      ensures !ok ==> views == old(views) && mcbs == old(mcbs) && memory == old(memory)
      ensures ok ==> views[m].n == size && Data(m) == Resized(old(Block(m)), content)
      ensures forall x :: x in views && x != m ==> views[x] == old(views[x]) && Data(x) == old(Data(x))
      ensures Disjoint(old(views)) ==> Disjoint(views)
    {
      hide Counted, Disjoint, Resized, AllOk;
      var v := views[m];
      CounterIs(views, mcbs, memory, m);
      if mcbs[v.mcb].i > 1 || v.base != mcbs[v.mcb].ptr || v.off != 0 || block.None? {
        return false;
      }
      var bytes := Resized(memory[v.base], content);
      MoveCounted(views, mcbs, memory, m, block.value, bytes);
      MoveDisjoint(views, mcbs, memory, m, block.value, size);
      memory := (memory - {v.base})[block.value := bytes];
      views := views[m := View(block.value, 0, size, v.mcb)];
      mcbs := mcbs[v.mcb := Mcb(1, block.value)];
      ok := true;
    }
  }

  lemma CounterIs(views: Views, mcbs: map<nat, Mcb>, memory: map<nat, Bytes>, m: nat)
    requires Counted(views, mcbs, memory) && AllOk(views, mcbs, memory) && m in views
    ensures ViewOk(views[m], mcbs, memory)
    ensures mcbs[views[m].mcb].i == |ViewsOf(views, views[m].mcb)| > 0
  {
    assert ViewOk(views[m], mcbs, memory);
  }

  lemma OthersElsewhere(views: Views, mcbs: map<nat, Mcb>, memory: map<nat, Bytes>, m: nat)
    requires Counted(views, mcbs, memory) && AllOk(views, mcbs, memory) && m in views
    ensures ViewOk(views[m], mcbs, memory)
    ensures mcbs[views[m].mcb].i == 1 ==>
              forall x :: x in views && x != m ==> views[x].mcb != views[m].mcb && views[x].base != views[m].base
  {
    assert ViewOk(views[m], mcbs, memory);
    if mcbs[views[m].mcb].i == 1 {
      forall x | x in views && x != m
        ensures views[x].mcb != views[m].mcb && views[x].base != views[m].base
      {
        assert ViewOk(views[x], mcbs, memory);
        OnlyView(views, mcbs, memory, m, x);
      }
    }
  }

  lemma SplitParts(views: Views, mcbs: map<nat, Mcb>, memory: map<nat, Bytes>, m1: nat, split: nat)
    requires AllOk(views, mcbs, memory) && m1 in views && 0 < split < views[m1].n
    ensures var v := views[m1];
            && ViewOk(v, mcbs, memory) && ViewOk(View(v.base, v.off + split, v.n - split, v.mcb), mcbs, memory)
            && memory[v.base][v.off..v.off + split] + memory[v.base][v.off + split..v.off + split + (v.n - split)]
               == memory[v.base][v.off..v.off + v.n]
  {
    assert ViewOk(views[m1], mcbs, memory);
  }

  lemma SplitDisjoint(views: Views, m1: nat, m2: nat, split: nat)
    requires m1 in views && m2 !in views && 0 < split < views[m1].n
    ensures var v := views[m1];
            Disjoint(views) ==>
              Disjoint(views[m2 := View(v.base, v.off + split, v.n - split, v.mcb)][m1 := v.(n := split)])
  {
  }

  lemma MoveDisjoint(views: Views, mcbs: map<nat, Mcb>, memory: map<nat, Bytes>, m: nat, p: nat, size: nat)
    requires Counted(views, mcbs, memory) && AllOk(views, mcbs, memory) && m in views
    requires views[m].mcb in mcbs && mcbs[views[m].mcb].i == 1 && (p == views[m].base || p !in memory)
    ensures forall x :: x in views && x != m ==>
              views[x].base != views[m].base && views[x].base != p && views[x].base in memory
              && views[x].off + views[x].n <= |memory[views[x].base]|
    ensures Disjoint(views) ==> Disjoint(views[m := View(p, 0, size, views[m].mcb)])
  {
    OthersElsewhere(views, mcbs, memory, m);
    forall x | x in views && x != m
      ensures views[x].base != p && views[x].base in memory && views[x].off + views[x].n <= |memory[views[x].base]|
    {
      assert ViewOk(views[x], mcbs, memory);
    }
  }
}
