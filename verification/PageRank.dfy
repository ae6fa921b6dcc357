/** Push-style PageRank (pagerank/pagerank.h 4-126) in exact real arithmetic. */
module PageRank {
  import opened Graphs

  function Degree(g: Graph, v: nat): nat
    requires GraphOk(g) && v < g.nodes
  {
    g.offsets[v + 1] - g.offsets[v]
  }

  /** How many of the edge slots from lo to hi lead to w. */
  function Hits(g: Graph, w: nat, lo: nat, hi: nat): nat
    requires lo <= hi <= |g.edges|
    decreases hi
  {
    if lo == hi then 0 else Hits(g, w, lo, hi - 1) + if g.edges[hi - 1] == w then 1 else 0
  }

  /** What w gets when v divides r evenly among its edges. */
  function Share(g: Graph, r: real, v: nat, w: nat): real
    requires GraphOk(g) && v < g.nodes
  {
    if Degree(g, v) == 0 then 0.0
    else Hits(g, w, g.offsets[v], g.offsets[v + 1]) as real * (r / Degree(g, v) as real)
  }

  /** The sum of x[v] / deg(v) over all edges v -> w with v < k. */
  function Inflow(g: Graph, x: seq<real>, w: nat, k: nat): real
    requires GraphOk(g) && |x| == g.nodes && k <= g.nodes
  {
    if k == 0 then 0.0 else Inflow(g, x, w, k - 1) + Share(g, x[k - 1], k - 1, w)
  }

  function Times(a: real, b: real): real {
    a * b
  }

  lemma TimesAdds(a: real, b: real, c: real)
    ensures Times(a, b + c) == Times(a, b) + Times(a, c)
  {
  }

  /** The residuals are exactly what x still lacks to solve the linear system. */
  ghost predicate Balanced(g: Graph, alpha: real, x: seq<real>, inR: seq<real>, ret: seq<real>)
    requires GraphOk(g)
  {
    && |x| == |inR| == |ret| == g.nodes
    && forall w :: 0 <= w < g.nodes ==> BalancedAt(g, alpha, x, inR[w] + ret[w], w)
  }

  predicate BalancedAt(g: Graph, alpha: real, x: seq<real>, residual: real, w: nat)
    requires GraphOk(g) && |x| == g.nodes && w < g.nodes
  {
    residual == 1.0 - alpha + Times(alpha, Inflow(g, x, w, g.nodes)) - x[w]
  }

  lemma QuotientAdds(r: real, d: real, n: real)
    requires n > 0.0
    ensures (r + d) / n == r / n + d / n
  {
    var p, q := r / n, d / n;
    assert n * p == r && n * q == d;
    assert n * (p + q) == r + d by {
      TimesAdds(n, p, q);
    }
  }

  lemma ShareAdds(g: Graph, r: real, d: real, v: nat, w: nat)
    requires GraphOk(g) && v < g.nodes
    ensures Share(g, r + d, v, w) == Share(g, r, v, w) + Share(g, d, v, w)
  {
    if Degree(g, v) != 0 {
      var h, n := Hits(g, w, g.offsets[v], g.offsets[v + 1]) as real, Degree(g, v) as real;
      QuotientAdds(r, d, n);
      TimesAdds(h, r / n, d / n);
    }
  }

  lemma {:induction false} InflowUpdate(g: Graph, x: seq<real>, v: nat, d: real, w: nat, k: nat)
    requires GraphOk(g) && |x| == g.nodes && v < g.nodes && k <= g.nodes
    ensures Inflow(g, x[v := x[v] + d], w, k) == Inflow(g, x, w, k) + if v < k then Share(g, d, v, w) else 0.0
    decreases k
  {
    if k > 0 {
      InflowUpdate(g, x, v, d, w, k - 1);
      if v == k - 1 {
        ShareAdds(g, x[v], d, v, w);
      }
    }
  }

  /** Pushing the residual of one vertex keeps the balance. */
  lemma PushKeepsBalance(g: Graph, alpha: real, x: seq<real>, inR: seq<real>, ret: seq<real>, ret': seq<real>, v: nat)
    requires GraphOk(g) && Balanced(g, alpha, x, inR, ret) && v < g.nodes && |ret'| == g.nodes
    requires forall w: nat :: w < g.nodes ==> ret'[w] == ret[w] + Times(alpha, Share(g, inR[v], v, w))
    ensures Balanced(g, alpha, x[v := x[v] + inR[v]], inR[v := 0.0], ret')
  {
    hide Times, Inflow, Share;
    var x' := x[v := x[v] + inR[v]];
    forall w: nat | w < g.nodes
      ensures BalancedAt(g, alpha, x', inR[v := 0.0][w] + ret'[w], w)
    {
      assert BalancedAt(g, alpha, x, inR[w] + ret[w], w);
      InflowUpdate(g, x, v, inR[v], w, g.nodes);
      TimesAdds(alpha, Inflow(g, x, w, g.nodes), Share(g, inR[v], v, w));
    }
  }

  function Sum(s: seq<real>): real {
    if s == [] then 0.0 else Sum(s[..|s| - 1]) + s[|s| - 1]
  }

  lemma {:induction false} SumUpdate(s: seq<real>, i: nat, v: real)
    requires i < |s|
    ensures Sum(s[i := v]) == Sum(s) - s[i] + v
    decreases |s|
  {
    var n := |s| - 1;
    if i == n {
      assert s[i := v][..n] == s[..n];
    } else {
      SumUpdate(s[..n], i, v);
      assert s[i := v][..n] == s[..n][i := v];
    }
  }

  /** The worklist holds the vertices with a residual of at least epsilon, each once. */
  ghost predicate Large(r: seq<real>, wl: seq<nat>, epsilon: real) {
    NoDup(wl) && forall w: nat :: w in wl <==> w < |r| && r[w] >= epsilon
  }

  ghost predicate NonNegative(r: seq<real>) {
    forall w :: 0 <= w < |r| ==> r[w] >= 0.0
  }

  /** One edge: add to the residual of its head, and list it when it crosses epsilon. */
  method PushEdge(ret: array<real>, outWl: array<nat>, outIndex: nat, epsilon: real, newR: real, w: nat)
    returns (newIndex: nat)
    requires w < ret.Length <= outWl.Length && newR >= 0.0 && NonNegative(ret[..])
    requires outIndex <= outWl.Length && Large(ret[..], outWl[..outIndex], epsilon)
    modifies ret, outWl
    ensures ret[..] == old(ret[..])[w := old(ret[w]) + newR]
    ensures NonNegative(ret[..]) && Sum(ret[..]) == Sum(old(ret[..])) + newR
    ensures newIndex <= outWl.Length && Large(ret[..], outWl[..newIndex], epsilon)
  {
    ghost var was, list := ret[..], outWl[..outIndex];
    SumUpdate(was, w, was[w] + newR);
    var rOld := ret[w];
    ret[w] := rOld + newR;
    assert ret[..] == was[w := was[w] + newR];
    newIndex := outIndex;
    if ret[w] >= epsilon && rOld < epsilon {
      NoDupBound(list + [w], ret.Length);
      newIndex := outIndex + 1;
      outWl[outIndex] := w;
      assert outWl[..newIndex] == list + [w];
    }
  }

  /** What one push along one edge adds, and what all edges of v add together. */
  function PerEdge(g: Graph, alpha: real, r: real, v: nat): real
    requires GraphOk(g) && v < g.nodes
  {
    if Degree(g, v) == 0 then 0.0 else r * alpha / Degree(g, v) as real
  }

  lemma EdgesShare(g: Graph, alpha: real, r: real, v: nat, w: nat)
    requires GraphOk(g) && v < g.nodes
    ensures Times(Hits(g, w, g.offsets[v], g.offsets[v + 1]) as real, PerEdge(g, alpha, r, v))
         == Times(alpha, Share(g, r, v, w))
  {
    if Degree(g, v) != 0 {
      ScaledShare(Hits(g, w, g.offsets[v], g.offsets[v + 1]) as real, r, alpha, Degree(g, v) as real);
    } else {
      NoHits(g, w, g.offsets[v]);
    }
  }

  lemma NoHits(g: Graph, w: nat, lo: nat)
    requires lo <= |g.edges|
    ensures Hits(g, w, lo, lo) == 0
  {
  }

  lemma ScaledShare(h: real, r: real, alpha: real, n: real)
    requires n > 0.0
    ensures h * (r * alpha / n) == alpha * (h * (r / n))
  {
    assert r * alpha / n == alpha * (r / n);
    var q := r / n;
    assert h * (alpha * q) == alpha * (h * q);
  }

  lemma EdgesTotal(g: Graph, alpha: real, r: real, v: nat)
    requires GraphOk(g) && v < g.nodes && r >= 0.0 && 0.0 < alpha < 1.0
    ensures 0.0 <= PerEdge(g, alpha, r, v)
    ensures Times(Degree(g, v) as real, PerEdge(g, alpha, r, v)) <= Times(alpha, r)
  {
    if Degree(g, v) != 0 {
      ScaledShare(Degree(g, v) as real, r, alpha, Degree(g, v) as real);
      assert Degree(g, v) as real * (r / Degree(g, v) as real) == r;
    }
    Positive(alpha, r);
  }

  lemma Positive(a: real, b: real)
    requires a >= 0.0 && b >= 0.0
    ensures a * b >= 0.0
  {
  }

  lemma TimesNext(k: nat, r: real)
    ensures Times((k + 1) as real, r) == Times(k as real, r) + r
    ensures Times(0 as real, r) == 0.0
  {
  }

  lemma HitsNext(g: Graph, w: nat, lo: nat, hi: nat, r: real)
    requires lo <= hi < |g.edges|
    ensures Times(Hits(g, w, lo, hi + 1) as real, r)
         == Times(Hits(g, w, lo, hi) as real, r) + if g.edges[hi] == w then r else 0.0
  {
    TimesNext(Hits(g, w, lo, hi), r);
  }

  /** The inner loop: push along all edges of v. */
  method PushEdges(g: Graph, ret: array<real>, outWl: array<nat>, outIndex: nat, epsilon: real, newR: real, v: nat)
    returns (newIndex: nat)
    requires GraphOk(g) && v < g.nodes == ret.Length <= outWl.Length && newR >= 0.0 && NonNegative(ret[..])
    requires outIndex <= outWl.Length && Large(ret[..], outWl[..outIndex], epsilon)
    modifies ret, outWl
    ensures forall w: nat :: w < g.nodes ==>
              ret[w] == old(ret[w]) + Times(Hits(g, w, g.offsets[v], g.offsets[v + 1]) as real, newR)
    ensures NonNegative(ret[..]) && Sum(ret[..]) == Sum(old(ret[..])) + Times(Degree(g, v) as real, newR)
    ensures newIndex <= outWl.Length && Large(ret[..], outWl[..newIndex], epsilon)
  {
    hide Times, Hits, NonNegative, Large, Sum;
    newIndex := outIndex;
    var e := g.offsets[v];
    TimesNext(0, newR);
    forall w: nat
      ensures Times(Hits(g, w, e, e) as real, newR) == 0.0
    {
      NoHits(g, w, e);
    }
    while e < g.offsets[v + 1]
      invariant g.offsets[v] <= e <= g.offsets[v + 1] <= |g.edges|
      invariant forall w: nat :: w < g.nodes ==>
                  ret[w] == old(ret[w]) + Times(Hits(g, w, g.offsets[v], e) as real, newR)
      invariant NonNegative(ret[..])
      invariant Sum(ret[..]) == Sum(old(ret[..])) + Times((e - g.offsets[v]) as real, newR)
      invariant newIndex <= outWl.Length && Large(ret[..], outWl[..newIndex], epsilon)
    {
      ghost var was := ret[..];
      newIndex := PushEdge(ret, outWl, newIndex, epsilon, newR, g.edges[e]);
      forall w: nat | w < g.nodes
        ensures ret[w] == old(ret[w]) + Times(Hits(g, w, g.offsets[v], e + 1) as real, newR)
      {
        HitsNext(g, w, g.offsets[v], e, newR);
        assert ret[..][w] == if w == g.edges[e] then was[w] + newR else was[w];
      }
      TimesNext(e - g.offsets[v], newR);
      e := e + 1;
    }
  }

  /** Pop one vertex and push its residual. */
  method PushVertex(g: Graph, alpha: real, epsilon: real, x: array<real>, inR: array<real>, ret: array<real>,
                    outWl: array<nat>, outIndex: nat, v: nat)
    returns (newIndex: nat)
    requires GraphOk(g) && v < g.nodes == ret.Length <= outWl.Length && 0.0 < alpha < 1.0
    requires x != inR && x != ret && inR != ret && Balanced(g, alpha, x[..], inR[..], ret[..])
    requires NonNegative(inR[..]) && NonNegative(ret[..])
    requires outIndex <= outWl.Length && Large(ret[..], outWl[..outIndex], epsilon)
    modifies x, inR, ret, outWl
    ensures Balanced(g, alpha, x[..], inR[..], ret[..])
    ensures inR[..] == old(inR[..])[v := 0.0] && NonNegative(inR[..]) && NonNegative(ret[..])
    ensures newIndex <= outWl.Length && Large(ret[..], outWl[..newIndex], epsilon)
    ensures Sum(inR[..]) + Sum(ret[..]) <= Sum(old(inR[..])) + Sum(old(ret[..])) - Times(1.0 - alpha, old(inR[v]))
  {
    hide Times, Hits, Large, Sum, Share, PerEdge, BalancedAt;
    ghost var x0, inR0, ret0 := x[..], inR[..], ret[..];
    var r := inR[v];
    EdgesTotal(g, alpha, r, v);
    x[v] := x[v] + r;
    // the source divides by the degree even when it is zero, but does not use the result then
    var degree := g.offsets[v + 1] - g.offsets[v];
    var newR := if degree == 0 then 0.0 else r * alpha / degree as real;
    PerEdgeIs(g, alpha, r, v);
    newIndex := PushEdges(g, ret, outWl, outIndex, epsilon, newR, v);
    inR[v] := 0.0;
    assert x[..] == x0[v := x0[v] + r] && inR[..] == inR0[v := 0.0];
    forall w: nat | w < g.nodes
      ensures ret[..][w] == ret0[w] + Times(alpha, Share(g, r, v, w))
    {
      EdgesShare(g, alpha, r, v, w);
    }
    PushKeepsBalance(g, alpha, x0, inR0, ret0, ret[..], v);
    SumUpdate(inR0, v, 0.0);
    OneMinus(alpha, r);
  }

  lemma PerEdgeIs(g: Graph, alpha: real, r: real, v: nat)
    requires GraphOk(g) && v < g.nodes
    ensures PerEdge(g, alpha, r, v) == if Degree(g, v) == 0 then 0.0 else r * alpha / Degree(g, v) as real
  {
  }

  lemma OneMinus(alpha: real, r: real)
    ensures Times(1.0 - alpha, r) == r - Times(alpha, r)
  {
  }

  // ---------------------------------------------------------------- one epoch

  ghost predicate Vertices(wl: seq<nat>, n: nat) {
    forall i :: 0 <= i < |wl| ==> wl[i] < n
  }

  /** The residuals of a list of vertices together. */
  function SumAt(r: seq<real>, wl: seq<nat>): real
    requires Vertices(wl, |r|)
  {
    if wl == [] then 0.0 else SumAt(r, wl[..|wl| - 1]) + r[wl[|wl| - 1]]
  }

  lemma SumAtNext(r: seq<real>, wl: seq<nat>, i: nat)
    requires i < |wl| && Vertices(wl, |r|)
    ensures wl[i] < |r| && Vertices(wl[..i], |r|) && Vertices(wl[..i + 1], |r|)
    ensures SumAt(r, wl[..i + 1]) == SumAt(r, wl[..i]) + r[wl[i]]
  {
    assert wl[..i + 1][..i] == wl[..i];
  }

  /** Every residual is popped at most once. */
  ghost predicate Popped(inR: seq<real>, was: seq<real>, done: seq<nat>) {
    |inR| == |was| && forall w: nat :: w < |inR| ==> inR[w] == if w in done then 0.0 else was[w]
  }

  lemma PoppedNext(inR: seq<real>, was: seq<real>, wl: seq<nat>, i: nat)
    requires i < |wl| && NoDup(wl) && Vertices(wl, |was|) && Popped(inR, was, wl[..i])
    ensures wl[i] < |was| && inR[wl[i]] == was[wl[i]] && Popped(inR[wl[i] := 0.0], was, wl[..i + 1])
  {
    assert wl[i] !in wl[..i];
    assert wl[..i + 1] == wl[..i] + [wl[i]];
  }

  method PushEpoch(g: Graph, alpha: real, epsilon: real, x: array<real>, inR: array<real>, ret: array<real>,
                   inWl: array<nat>, inIndex: nat, outWl: array<nat>)
    returns (outIndex: nat)
    requires GraphOk(g) && g.nodes == ret.Length <= outWl.Length && 0.0 < alpha < 1.0
    requires x != inR && x != ret && inR != ret && inWl != outWl && Balanced(g, alpha, x[..], inR[..], ret[..])
    requires NonNegative(inR[..]) && NonNegative(ret[..]) && Large(ret[..], [], epsilon)
    requires inIndex <= inWl.Length && NoDup(inWl[..inIndex]) && Vertices(inWl[..inIndex], g.nodes)
    modifies x, inR, ret, outWl
    ensures Balanced(g, alpha, x[..], inR[..], ret[..])
    ensures NonNegative(inR[..]) && NonNegative(ret[..])
    ensures Popped(inR[..], old(inR[..]), inWl[..inIndex])
    ensures outIndex <= outWl.Length && Large(ret[..], outWl[..outIndex], epsilon)
    ensures Sum(inR[..]) + Sum(ret[..]) <= Sum(old(inR[..])) + Sum(old(ret[..]))
                                           - Times(1.0 - alpha, SumAt(old(inR[..]), inWl[..inIndex]))
  {
    hide Times, Large, Sum, SumAt, Popped, BalancedAt, NonNegative;
    ghost var wl, inR0, ret0 := inWl[..inIndex], inR[..], ret[..];
    outIndex := 0;
    var i := 0;
    assert outWl[..0] == [] && wl[..0] == [];
    NothingPopped(inR0, alpha);
    while i < inIndex
      invariant 0 <= i <= inIndex && inWl[..inIndex] == wl
      invariant Balanced(g, alpha, x[..], inR[..], ret[..]) && NonNegative(inR[..]) && NonNegative(ret[..])
      invariant outIndex <= outWl.Length && Large(ret[..], outWl[..outIndex], epsilon)
      invariant Popped(inR[..], inR0, wl[..i]) && Vertices(wl[..i], |inR0|)
      invariant Sum(inR[..]) + Sum(ret[..]) <= Sum(inR0) + Sum(ret0) - Times(1.0 - alpha, SumAt(inR0, wl[..i]))
    {
      assert inWl[i] == wl[i];
      SumAtNext(inR0, wl, i);
      PoppedNext(inR[..], inR0, wl, i);
      TimesAdds(1.0 - alpha, SumAt(inR0, wl[..i]), inR0[wl[i]]);
      outIndex := PushVertex(g, alpha, epsilon, x, inR, ret, outWl, outIndex, inWl[i]);
      i := i + 1;
    }
    assert wl[..i] == wl;
  }

  lemma NothingPopped(r: seq<real>, alpha: real)
    ensures Popped(r, r, []) && SumAt(r, []) == 0.0 && Times(1.0 - alpha, SumAt(r, [])) == 0.0
  {
  }

  // ---------------------------------------------------------------- initialization

  function Constant(n: nat, c: real): (r: seq<real>)
    ensures |r| == n
  {
    seq(n, _ => c)
  }

  lemma ShareScale(g: Graph, c: real, v: nat, w: nat)
    requires GraphOk(g) && v < g.nodes
    ensures Share(g, c, v, w) == Times(c, Share(g, 1.0, v, w))
  {
    if Degree(g, v) != 0 {
      ScaledShare(Hits(g, w, g.offsets[v], g.offsets[v + 1]) as real, 1.0, c, Degree(g, v) as real);
      assert 1.0 * c == c;
    }
  }

  lemma {:induction false} InflowScale(g: Graph, c: real, w: nat, k: nat)
    requires GraphOk(g) && k <= g.nodes
    ensures Inflow(g, Constant(g.nodes, c), w, k) == Times(c, Inflow(g, Constant(g.nodes, 1.0), w, k))
  {
    if k > 0 {
      InflowScale(g, c, w, k - 1);
      ShareScale(g, c, k - 1, w);
      TimesAdds(c, Inflow(g, Constant(g.nodes, 1.0), w, k - 1), Share(g, 1.0, k - 1, w));
    }
  }

  lemma {:induction false} SumScale(s: seq<real>, t: seq<real>, c: real)
    requires |s| == |t| && forall i :: 0 <= i < |s| ==> t[i] == Times(c, s[i])
    ensures Sum(t) == Times(c, Sum(s))
  {
    if s != [] {
      var n := |s| - 1;
      SumScale(s[..n], t[..n], c);
      TimesAdds(c, Sum(s[..n]), s[n]);
    }
  }

  lemma {:induction false} SumConstant(s: seq<real>)
    requires forall i :: 0 <= i < |s| ==> s[i] == 0.0
    ensures Sum(s) == 0.0
  {
    if s != [] {
      SumConstant(s[..|s| - 1]);
    }
  }

  lemma TimesAssociative(a: real, b: real, c: real)
    ensures Times(a, Times(b, c)) == Times(Times(b, a), c)
  {
  }

  lemma TimesMonotone(a: real, b: real, c: real)
    requires a >= 0.0 && b <= c
    ensures Times(a, b) <= Times(a, c)
  {
    Positive(a, c - b);
  }

  /** The initial residuals balance the initial ranks. */
  lemma InitialBalance(g: Graph, alpha: real, x: seq<real>, inR: seq<real>, ret: seq<real>)
    requires GraphOk(g) && |inR| == |ret| == g.nodes && x == Constant(g.nodes, 1.0 - alpha)
    requires forall w :: 0 <= w < g.nodes ==> ret[w] == 0.0
    requires forall w :: 0 <= w < g.nodes ==>
               inR[w] == Times(Times(1.0 - alpha, alpha), Inflow(g, Constant(g.nodes, 1.0), w, g.nodes))
    ensures Balanced(g, alpha, x, inR, ret)
  {
    hide Inflow, Times;
    forall w: nat | w < g.nodes
      ensures BalancedAt(g, alpha, x, inR[w] + ret[w], w)
    {
      InflowScale(g, 1.0 - alpha, w, g.nodes);
      TimesAssociative(alpha, 1.0 - alpha, Inflow(g, Constant(g.nodes, 1.0), w, g.nodes));
    }
  }

  lemma UnitShare(g: Graph, v: nat, w: nat)
    requires GraphOk(g) && v < g.nodes
    ensures Degree(g, v) != 0 ==>
              Share(g, 1.0, v, w)
              == Times(Hits(g, w, g.offsets[v], g.offsets[v + 1]) as real, 1.0 / Degree(g, v) as real)
    ensures Degree(g, v) == 0 ==> Share(g, 1.0, v, w) == 0.0
    ensures Degree(g, v) != 0 ==> Times(Degree(g, v) as real, 1.0 / Degree(g, v) as real) == 1.0
  {
    hide Times, Hits;
    if Degree(g, v) != 0 {
      TimesIs(Hits(g, w, g.offsets[v], g.offsets[v + 1]) as real, 1.0 / Degree(g, v) as real);
      Reciprocal(Degree(g, v) as real);
    }
  }

  lemma Reciprocal(n: real)
    requires n > 0.0
    ensures Times(n, 1.0 / n) == 1.0
  {
  }

  /** Add 1 / deg(v) to every successor of v. */
  method Distribute(g: Graph, inR: array<real>, v: nat)
    requires GraphOk(g) && v < g.nodes == inR.Length && NonNegative(inR[..])
    modifies inR
    ensures forall w: nat :: w < g.nodes ==> inR[w] == old(inR[w]) + Share(g, 1.0, v, w)
    ensures NonNegative(inR[..]) && Sum(inR[..]) <= Sum(old(inR[..])) + 1.0
  {
    hide Times, Hits, Share, Sum;
    var i := g.offsets[v];
    var degree := g.offsets[v + 1] - g.offsets[v];
    ghost var unit := if degree == 0 then 0.0 else 1.0 / degree as real;
    TimesNext(0, unit);
    forall w: nat
      ensures Times(Hits(g, w, i, i) as real, unit) == 0.0
    {
      NoHits(g, w, i);
    }
    while i < g.offsets[v + 1]
      invariant g.offsets[v] <= i <= g.offsets[v + 1] <= |g.edges|
      invariant forall w: nat :: w < g.nodes ==>
                  inR[w] == old(inR[w]) + Times(Hits(g, w, g.offsets[v], i) as real, unit)
      invariant NonNegative(inR[..])
      invariant Sum(inR[..]) == Sum(old(inR[..])) + Times((i - g.offsets[v]) as real, unit)
    {
      ghost var was := inR[..];
      var w := g.edges[i];
      SumUpdate(was, w, was[w] + unit);
      inR[w] := inR[w] + 1.0 / degree as real;
      assert inR[..] == was[w := was[w] + unit];
      forall u: nat | u < g.nodes
        ensures inR[u] == old(inR[u]) + Times(Hits(g, u, g.offsets[v], i + 1) as real, unit)
      {
        HitsNext(g, u, g.offsets[v], i, unit);
        assert inR[..][u] == if u == w then was[u] + unit else was[u];
      }
      TimesNext(i - g.offsets[v], unit);
      i := i + 1;
    }
    forall w: nat | w < g.nodes
      ensures inR[w] == old(inR[w]) + Share(g, 1.0, v, w)
    {
      UnitShare(g, v, w);
      NoHits(g, w, g.offsets[v]);
    }
    UnitShare(g, v, 0);
  }

  /** init_pagerank. */
  method Init(g: Graph, alpha: real, x: array<real>, inR: array<real>, ret: array<real>, inWl: array<nat>)
    returns (inIndex: nat)
    requires GraphOk(g) && x.Length == inR.Length == ret.Length == inWl.Length == g.nodes && 0.0 < alpha < 1.0
    requires x != inR && x != ret && inR != ret
    modifies x, inR, ret, inWl
    ensures Balanced(g, alpha, x[..], inR[..], ret[..]) && NonNegative(inR[..])
    ensures forall v :: 0 <= v < g.nodes ==> ret[v] == 0.0
    ensures inIndex == g.nodes && forall v :: 0 <= v < g.nodes ==> inWl[v] == v
    ensures Sum(inR[..]) <= Times(Times(1.0 - alpha, alpha), g.nodes as real)
  {
    hide Times, Inflow, Share, Sum;
    var n := g.nodes;
    ghost var ones := Constant(n, 1.0);
    forall v | 0 <= v < n { x[v] := 1.0 - alpha; }
    forall v | 0 <= v < n { inR[v] := 0.0; }
    forall v | 0 <= v < n { ret[v] := 0.0; }
    assert x[..] == Constant(n, 1.0 - alpha);
    InflowStart(g, ones);
    SumConstant(inR[..]);
    inIndex := 0;
    var v := 0;
    while v < n
      invariant 0 <= v == inIndex <= n && x[..] == Constant(n, 1.0 - alpha)
      invariant forall w :: 0 <= w < n ==> ret[w] == 0.0
      invariant forall w: nat :: w < n ==> inR[w] == Inflow(g, ones, w, v)
      invariant NonNegative(inR[..]) && Sum(inR[..]) <= v as real
      invariant forall i :: 0 <= i < v ==> inWl[i] == i
    {
      Distribute(g, inR, v);
      InflowNext(g, ones, v);
      inWl[inIndex] := v;
      inIndex := inIndex + 1;
      v := v + 1;
    }
    ghost var sums := inR[..];
    var rest := 1.0 - alpha;
    var c := rest * alpha;
    TimesIs(rest, alpha);
    assert c == Times(rest, alpha);
    Positive(rest, alpha);
    ScaleAll(inR, c);
    assert forall w: nat :: w < n ==> sums[w] == Inflow(g, ones, w, n);
    SumScale(sums, inR[..], c);
    TimesMonotone(c, Sum(sums), n as real);
    InitialBalance(g, alpha, x[..], inR[..], ret[..]);
  }

  lemma TimesIs(a: real, b: real)
    ensures Times(a, b) == a * b
  {
  }

  lemma InflowStart(g: Graph, x: seq<real>)
    requires GraphOk(g) && |x| == g.nodes
    ensures forall w: nat :: Inflow(g, x, w, 0) == 0.0
  {
  }

  lemma InflowNext(g: Graph, x: seq<real>, v: nat)
    requires GraphOk(g) && |x| == g.nodes && v < g.nodes
    ensures forall w: nat :: Inflow(g, x, w, v + 1) == Inflow(g, x, w, v) + Share(g, x[v], v, w)
  {
  }

  method ScaleAll(a: array<real>, c: real)
    requires c >= 0.0 && NonNegative(a[..])
    modifies a
    ensures NonNegative(a[..]) && forall v :: 0 <= v < a.Length ==> a[v] == Times(c, old(a[v]))
  {
    hide Times;
    var v := 0;
    while v < a.Length
      invariant 0 <= v <= a.Length && NonNegative(a[..])
      invariant forall w :: 0 <= w < v ==> a[w] == Times(c, old(a[w]))
      invariant forall w :: v <= w < a.Length ==> a[w] == old(a[w])
    {
      Positive(c, a[v]);
      TimesIs(c, a[v]);
      assert a[..][v] == a[v];
      a[v] := c * a[v];
      v := v + 1;
    }
  }

  // ---------------------------------------------------------------- the kernel

  /** How far x is from solving x[w] = 1 - alpha + alpha * (sum of x[v] / deg(v) over the edges v -> w). */
  function Defect(g: Graph, alpha: real, x: seq<real>, w: nat): real
    requires GraphOk(g) && |x| == g.nodes && w < g.nodes
  {
    1.0 - alpha + Times(alpha, Inflow(g, x, w, g.nodes)) - x[w]
  }

  /** The state at the start of an epoch. In the first one all vertices are in the worklist; later it holds exactly
      the vertices with a large residual. */
  ghost predicate EpochStart(hop: nat, inR: seq<real>, ret: seq<real>, wl: seq<nat>, epsilon: real) {
    && |inR| == |ret| && NonNegative(inR) && NonNegative(ret)
    && NoDup(wl) && Vertices(wl, |inR|) && Large(ret, [], epsilon)
    && (if hop == 1 then |wl| == |inR| && (forall v :: 0 <= v < |wl| ==> wl[v] == v)
                         && forall v :: 0 <= v < |ret| ==> ret[v] == 0.0
        else Large(inR, wl, epsilon))
  }

  lemma NextEpoch(hop: nat, was: seq<real>, inR: seq<real>, ret: seq<real>, wl: seq<nat>, out: seq<nat>, epsilon: real,
                  ret0: seq<real>)
    requires hop > 0 && EpochStart(hop, was, ret0, wl, epsilon) && Popped(inR, was, wl) && epsilon > 0.0
    requires |ret| == |inR| && NonNegative(inR) && NonNegative(ret) && Large(ret, out, epsilon)
    ensures EpochStart(hop + 1, ret, inR, out, epsilon)
  {
    forall w: nat | w < |inR|
      ensures inR[w] < epsilon
    {
      assert hop == 1 ==> wl[w] in wl;
    }
    forall i | 0 <= i < |out|
      ensures out[i] < |ret|
    {
      assert out[i] in out;
    }
  }

  /** In the first epoch all residuals are popped, later at least epsilon with each vertex. */
  lemma {:induction false} PoppedAtLeast(r: seq<real>, wl: seq<nat>, epsilon: real)
    requires Vertices(wl, |r|) && forall i :: 0 <= i < |wl| ==> r[wl[i]] >= epsilon
    ensures SumAt(r, wl) >= Times(|wl| as real, epsilon)
  {
    if wl == [] {
      TimesNext(0, epsilon);
    } else {
      PoppedAtLeast(r, wl[..|wl| - 1], epsilon);
      TimesNext(|wl| - 1, epsilon);
    }
  }

  lemma {:induction false} PoppedAll(r: seq<real>, wl: seq<nat>, k: nat)
    requires k <= |r| == |wl| && Vertices(wl, |r|) && forall v :: 0 <= v < |wl| ==> wl[v] == v
    ensures SumAt(r, wl[..k]) == Sum(r[..k])
  {
    if k > 0 {
      PoppedAll(r, wl, k - 1);
      assert wl[..k][..k - 1] == wl[..k - 1] && r[..k][..k - 1] == r[..k - 1];
    }
  }

  /** The pops are paid for: `later` pops after the first epoch have each taken (1 - alpha) * epsilon. */
  ghost predicate Paid(hop: nat, n: nat, pops: nat, total: real, alpha: real, epsilon: real) {
    if hop == 1 then pops == 0 && total <= Times(Times(1.0 - alpha, alpha), n as real)
    else pops >= n
         && Times((pops - n) as real, Times(1.0 - alpha, epsilon)) + total
            <= Times(alpha, Times(Times(1.0 - alpha, alpha), n as real))
  }

  lemma TimesSwap(a: real, b: real, c: real)
    ensures Times(a, Times(b, c)) == Times(b, Times(a, c))
  {
  }

  lemma TimesSum(k: nat, m: nat, c: real)
    ensures Times((k + m) as real, c) == Times(k as real, c) + Times(m as real, c)
  {
  }

  lemma EpochPaid(hop: nat, pops: nat, was: seq<real>, ret0: seq<real>, wl: seq<nat>, total: real, alpha: real,
                  epsilon: real)
    requires hop > 0 && EpochStart(hop, was, ret0, wl, epsilon) && 0.0 < alpha < 1.0
    requires Paid(hop, |was|, pops, Sum(was) + Sum(ret0), alpha, epsilon)
    requires total <= Sum(was) + Sum(ret0) - Times(1.0 - alpha, SumAt(was, wl))
    ensures Paid(hop + 1, |was|, pops + |wl|, total, alpha, epsilon)
  {
    hide Times, Sum, SumAt, NonNegative, Large;
    var n := |was|;
    if hop == 1 {
      PoppedAll(was, wl, n);
      assert wl[..n] == wl && was[..n] == was;
      SumConstant(ret0);
      OneMinus(alpha, Sum(was));
      TimesMonotone(alpha, Sum(was), Times(Times(1.0 - alpha, alpha), n as real));
      TimesNext(0, Times(1.0 - alpha, epsilon));
    } else {
      LargeAt(was, wl, epsilon);
      PoppedAtLeast(was, wl, epsilon);
      TimesMonotone(1.0 - alpha, Times(|wl| as real, epsilon), SumAt(was, wl));
      TimesSwap(1.0 - alpha, |wl| as real, epsilon);
      TimesSum(pops - n, |wl|, Times(1.0 - alpha, epsilon));
    }
  }

  lemma LargeAt(r: seq<real>, wl: seq<nat>, epsilon: real)
    requires Large(r, wl, epsilon) && Vertices(wl, |r|)
    ensures forall i :: 0 <= i < |wl| ==> r[wl[i]] >= epsilon
  {
    assert forall i :: 0 <= i < |wl| ==> wl[i] in wl;
  }

  /** At most n * (1 + alpha^2 / epsilon) vertices are popped in all. */
  ghost predicate PopsBounded(n: nat, pops: nat, alpha: real, epsilon: real) {
    Times(pops as real, epsilon) <= Times(n as real, epsilon + alpha * alpha)
  }

  lemma PaidBounds(hop: nat, n: nat, pops: nat, total: real, alpha: real, epsilon: real)
    requires Paid(hop, n, pops, total, alpha, epsilon) && total >= 0.0 && 0.0 < alpha < 1.0 && epsilon > 0.0
    ensures PopsBounded(n, pops, alpha, epsilon)
  {
    hide Times;
    if hop != 1 {
      var k, m, c := (pops - n) as real, n as real, 1.0 - alpha;
      TimesSwap(k, c, epsilon);
      Regroup(c, alpha, m);
      CancelFactor(c, Times(k, epsilon), Times(m, alpha * alpha));
      TimesSum(pops - n, n, epsilon);
      TimesAdds(m, epsilon, alpha * alpha);
    } else {
      TimesNext(0, epsilon);
      Positive(alpha, alpha);
      TimesMonotone(n as real, 0.0, epsilon + alpha * alpha);
      TimesAdds(n as real, 0.0, 0.0);
    }
  }

  lemma Regroup(c: real, alpha: real, m: real)
    ensures Times(alpha, Times(Times(c, alpha), m)) == Times(c, Times(m, alpha * alpha))
  {
    assert alpha * ((c * alpha) * m) == c * (m * (alpha * alpha));
  }

  lemma PositiveProduct(c: real, d: real)
    requires c > 0.0
    ensures d > 0.0 ==> Times(c, d) > 0.0
  {
  }

  lemma CancelFactor(c: real, a: real, b: real)
    requires c > 0.0 && Times(c, a) <= Times(c, b)
    ensures a <= b
  {
    TimesAdds(c, a - b, b);
    PositiveProduct(c, a - b);
  }

  lemma {:induction false} SumNonNegative(r: seq<real>)
    requires NonNegative(r)
    ensures Sum(r) >= 0.0
  {
    if r != [] {
      assert r[|r| - 1] >= 0.0;
      SumNonNegative(r[..|r| - 1]);
    }
  }

  /** No more pops than a whole number computed from the input. */
  function Budget(n: nat, alpha: real, epsilon: real): nat
    requires epsilon > 0.0 && alpha > 0.0
  {
    Positive(alpha, alpha);
    Positive(n as real, epsilon + alpha * alpha);
    Quotient(Times(n as real, epsilon + alpha * alpha), epsilon);
    (Times(n as real, epsilon + alpha * alpha) / epsilon).Floor
  }

  lemma Quotient(a: real, b: real)
    requires a >= 0.0 && b > 0.0
    ensures a / b >= 0.0
  {
  }

  lemma WithinBudget(n: nat, pops: nat, alpha: real, epsilon: real)
    requires epsilon > 0.0 && alpha > 0.0 && PopsBounded(n, pops, alpha, epsilon)
    ensures pops <= Budget(n, alpha, epsilon)
  {
    var limit := Times(n as real, epsilon + alpha * alpha);
    AtMostQuotient(pops as real, epsilon, limit);
    hide Times;
    assert pops as real <= limit / epsilon;
    assert Budget(n, alpha, epsilon) == (limit / epsilon).Floor;
  }

  lemma AtMostQuotient(k: real, b: real, limit: real)
    requires b > 0.0 && Times(k, b) <= limit
    ensures k <= limit / b
  {
    var q := limit / b;
    assert q * b == limit;
    assert Times(b, k) == Times(k, b) && Times(b, q) == limit;
    CancelFactor(b, k, q);
  }

  /** What is left when the worklist is empty: both residuals of every vertex are below epsilon. */
  lemma SmallDefect(g: Graph, alpha: real, hop: nat, x: seq<real>, inR: seq<real>, ret: seq<real>, epsilon: real)
    requires GraphOk(g) && Balanced(g, alpha, x, inR, ret) && EpochStart(hop, inR, ret, [], epsilon)
    ensures forall w :: 0 <= w < g.nodes ==> 0.0 <= Defect(g, alpha, x, w) < 2.0 * epsilon
  {
    hide Inflow, Times;
    forall w: nat | w < g.nodes
      ensures 0.0 <= Defect(g, alpha, x, w) < 2.0 * epsilon
    {
      assert BalancedAt(g, alpha, x, inR[w] + ret[w], w);
      var none: seq<nat> := [];
      assert w !in none;
    }
  }

  /** pagerank, for one thread: it terminates after at most n * (1 + alpha^2 / epsilon) pops, its worklists never
      outgrow their n entries, and the ranks solve the linear system up to less than 2 * epsilon. */
  method PageRank(g: Graph, alpha: real, epsilon: real, x: array<real>, inR0: array<real>, ret0: array<real>,
                  inWl0: array<nat>, outWl0: array<nat>)
    returns (ghost pops: nat)
    requires GraphOk(g) && 0.0 < alpha < 1.0 && epsilon > 0.0
    requires x.Length == inR0.Length == ret0.Length == inWl0.Length == outWl0.Length == g.nodes
    requires x != inR0 && x != ret0 && inR0 != ret0 && inWl0 != outWl0
    modifies x, inR0, ret0, inWl0, outWl0
    ensures forall w :: 0 <= w < g.nodes ==> 0.0 <= Defect(g, alpha, x[..], w) < 2.0 * epsilon
    ensures PopsBounded(g.nodes, pops, alpha, epsilon)
  {
    hide Times, Sum, Inflow, Balanced, Budget, Paid, EpochStart, PopsBounded, Large, NonNegative, Popped, NoDup;
    var inR, ret, inWl, outWl := inR0, ret0, inWl0, outWl0;
    var inIndex: nat := Init(g, alpha, x, inR, ret, inWl);
    FirstEpoch(g.nodes, inR[..], ret[..], inWl[..inIndex], alpha, epsilon);
    var hop := 1;
    pops := 0;
    WithinLimits(hop, g.nodes, pops, inR[..], ret[..], inWl[..inIndex], alpha, epsilon);
    while inIndex > 0
      invariant hop > 0 && {inR, ret} == {inR0, ret0} && {inWl, outWl} == {inWl0, outWl0}
      invariant inR != ret && inWl != outWl && inIndex <= inWl.Length
      invariant Balanced(g, alpha, x[..], inR[..], ret[..])
      invariant EpochStart(hop, inR[..], ret[..], inWl[..inIndex], epsilon)
      invariant Paid(hop, g.nodes, pops, Sum(inR[..]) + Sum(ret[..]), alpha, epsilon)
      invariant pops <= Budget(g.nodes, alpha, epsilon) && PopsBounded(g.nodes, pops, alpha, epsilon)
      decreases Budget(g.nodes, alpha, epsilon) - pops
    {
      ghost var was, before, wl := inR[..], ret[..], inWl[..inIndex];
      EpochParts(hop, was, before, wl, epsilon);
      var outIndex := PushEpoch(g, alpha, epsilon, x, inR, ret, inWl, inIndex, outWl);
      NextEpoch(hop, was, inR[..], ret[..], wl, outWl[..outIndex], epsilon, before);
      EpochPaid(hop, pops, was, before, wl, Sum(inR[..]) + Sum(ret[..]), alpha, epsilon);
      BalanceSwap(g, alpha, x[..], inR[..], ret[..]);
      inWl, outWl := outWl, inWl;
      hop := hop + 1;
      pops := pops + inIndex;
      inIndex := outIndex;
      inR, ret := ret, inR;
      WithinLimits(hop, g.nodes, pops, inR[..], ret[..], inWl[..inIndex], alpha, epsilon);
    }
    assert inWl[..inIndex] == [];
    SmallDefect(g, alpha, hop, x[..], inR[..], ret[..], epsilon);
  }

  lemma FirstEpoch(n: nat, inR: seq<real>, ret: seq<real>, wl: seq<nat>, alpha: real, epsilon: real)
    requires |inR| == |ret| == |wl| == n && NonNegative(inR) && 0.0 < epsilon
    requires (forall v :: 0 <= v < n ==> ret[v] == 0.0) && forall v :: 0 <= v < n ==> wl[v] == v
    requires Sum(inR) <= Times(Times(1.0 - alpha, alpha), n as real)
    ensures EpochStart(1, inR, ret, wl, epsilon)
    ensures Paid(1, n, 0, Sum(inR) + Sum(ret), alpha, epsilon)
  {
    SumConstant(ret);
  }

  lemma WithinLimits(hop: nat, n: nat, pops: nat, inR: seq<real>, ret: seq<real>, wl: seq<nat>, alpha: real,
                     epsilon: real)
    requires EpochStart(hop, inR, ret, wl, epsilon) && Paid(hop, n, pops, Sum(inR) + Sum(ret), alpha, epsilon)
    requires 0.0 < alpha < 1.0 && epsilon > 0.0
    ensures PopsBounded(n, pops, alpha, epsilon) && pops <= Budget(n, alpha, epsilon)
  {
    SumNonNegative(inR);
    SumNonNegative(ret);
    PaidBounds(hop, n, pops, Sum(inR) + Sum(ret), alpha, epsilon);
    WithinBudget(n, pops, alpha, epsilon);
  }

  lemma EpochParts(hop: nat, inR: seq<real>, ret: seq<real>, wl: seq<nat>, epsilon: real)
    requires EpochStart(hop, inR, ret, wl, epsilon)
    ensures |inR| == |ret| && NonNegative(inR) && NonNegative(ret) && Large(ret, [], epsilon)
    ensures NoDup(wl) && Vertices(wl, |inR|)
  {
  }

  lemma BalanceSwap(g: Graph, alpha: real, x: seq<real>, inR: seq<real>, ret: seq<real>)
    requires GraphOk(g) && Balanced(g, alpha, x, inR, ret)
    ensures Balanced(g, alpha, x, ret, inR)
  {
    hide BalancedAt;
    forall w: nat | w < g.nodes
      ensures BalancedAt(g, alpha, x, ret[w] + inR[w], w)
    {
      assert BalancedAt(g, alpha, x, inR[w] + ret[w], w);
    }
  }
}
