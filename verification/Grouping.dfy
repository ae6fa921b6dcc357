/** Degree-based grouping: the relabelling kernel (dbg.cpp 17-50) in exact arithmetic. */
module Grouping {
  import opened Graphs

  const GROUPS: nat := 8
  const BOUNDS: seq<real> := [32.0, 16.0, 8.0, 4.0, 2.0, 1.0, 0.5, 0.0]

  function Degree(g: Graph, u: nat): nat
    requires GraphOk(g) && u < g.nodes
  {
    g.offsets[u + 1] - g.offsets[u]
  }

  function AverageDegree(g: Graph): real
    requires g.nodes > 0
  {
    |g.edges| as real / g.nodes as real
  }

  /** The first group whose bound the degree reaches; the last bound is zero. */
  function GroupFrom(average: real, d: nat, idx: nat): (k: nat)
    requires idx < GROUPS
    ensures idx <= k < GROUPS
    decreases GROUPS - idx
  {
    if idx == GROUPS - 1 || average * BOUNDS[idx] <= d as real then idx else GroupFrom(average, d, idx + 1)
  }

  function Group(g: Graph, u: nat): (k: nat)
    requires GraphOk(g) && u < g.nodes
    ensures k < GROUPS
  {
    GroupFrom(AverageDegree(g), Degree(g, u), 0)
  }

  function Product(d: nat, n: nat): nat {
    d * n
  }

  /** The bounds in numbers: 32, 16, 8, 4, 2, 1 and a half times m / n, here multiplied by n; dn stands for d * n. */
  predicate InRange(dn: nat, m: nat, k: nat) {
    match k
    case 0 => 32 * m <= dn
    case 1 => 16 * m <= dn < 32 * m
    case 2 => 8 * m <= dn < 16 * m
    case 3 => 4 * m <= dn < 8 * m
    case 4 => 2 * m <= dn < 4 * m
    case 5 => m <= dn < 2 * m
    case 6 => m <= 2 * dn && dn < m
    case 7 => 2 * dn < m
    case _ => false
  }

  /** The degree of u lies between the bounds number k and k - 1, as multiples of the average degree. */
  ghost predicate InGroup(g: Graph, u: nat, k: nat)
    requires GraphOk(g) && u < g.nodes
  {
    InRange(Product(g.offsets[u + 1] - g.offsets[u], g.nodes), |g.edges|, k)
  }

  /** d reaches b / 2 times the average exactly if 2 * d * n reaches b * m. */
  lemma Reaches(d: nat, n: nat, m: nat, b: nat)
    requires n > 0
    ensures (m as real / n as real) * (b as real / 2.0) <= d as real <==> b * m <= 2 * Product(d, n)
  {
    var average, half := m as real / n as real, b as real / 2.0;
    ScaleUp(average * half, d as real, 2.0 * n as real);
    assert average * n as real == m as real;
    assert (average * half) * (2.0 * n as real) == b as real * m as real by {
      Rearrange(average, half, n as real);
    }
    assert d as real * (2.0 * n as real) == (2 * Product(d, n)) as real;
    assert b as real * m as real == (b * m) as real;
  }

  lemma Rearrange(average: real, half: real, n: real)
    ensures (average * half) * (2.0 * n) == (2.0 * half) * (average * n)
  {
  }

  lemma ScaleUp(x: real, y: real, n: real)
    requires n > 0.0
    ensures x <= y <==> x * n <= y * n
  {
  }

  /** The search with the bounds written out, in halves of the average degree. */
  lemma GroupSteps(average: real, d: nat)
    ensures var k, x := GroupFrom(average, d, 0), d as real;
            k == if average * (64.0 / 2.0) <= x then 0 else if average * (32.0 / 2.0) <= x then 1
                 else if average * (16.0 / 2.0) <= x then 2 else if average * (8.0 / 2.0) <= x then 3
                 else if average * (4.0 / 2.0) <= x then 4 else if average * (2.0 / 2.0) <= x then 5
                 else if average * (1.0 / 2.0) <= x then 6 else 7
  {
    assert BOUNDS == [32.0, 16.0, 8.0, 4.0, 2.0, 1.0, 0.5, 0.0];
    var k6 := GroupFrom(average, d, 6);
    var k4 := GroupFrom(average, d, 4);
    var k2 := GroupFrom(average, d, 2);
    assert k6 == if average * (1.0 / 2.0) <= d as real then 6 else 7;
    assert k4 == if average * (4.0 / 2.0) <= d as real then 4 else if average * (2.0 / 2.0) <= d as real then 5 else k6;
    assert k2 == if average * (16.0 / 2.0) <= d as real then 2 else if average * (8.0 / 2.0) <= d as real then 3 else k4;
  }

  lemma GroupRange(d: nat, n: nat, m: nat)
    requires n > 0
    ensures InRange(Product(d, n), m, GroupFrom(m as real / n as real, d, 0))
  {
    hide Product, GroupFrom;
    Reaches(d, n, m, 64);
    Reaches(d, n, m, 32);
    Reaches(d, n, m, 16);
    Reaches(d, n, m, 8);
    Reaches(d, n, m, 4);
    Reaches(d, n, m, 2);
    Reaches(d, n, m, 1);
    GroupSteps(m as real / n as real, d);
  }

  /** The ranges do not overlap. */
  lemma OneRange(dn: nat, m: nat, j: nat, k: nat)
    ensures InRange(dn, m, j) && InRange(dn, m, k) ==> j == k
  {
  }

  /** The group of a vertex is exactly the one whose bounds its degree lies between. */
  lemma GroupExactly(g: Graph, u: nat, k: nat)
    requires GraphOk(g) && u < g.nodes
    ensures Group(g, u) == k <==> InGroup(g, u, k)
  {
    hide Product, InRange, GroupFrom;
    GroupRange(Degree(g, u), g.nodes, |g.edges|);
    OneRange(Product(Degree(g, u), g.nodes), |g.edges|, Group(g, u), k);
  }

  lemma EarlierIsMore(dn: nat, en: nat, m: nat, j: nat, k: nat)
    requires InRange(dn, m, j) && InRange(en, m, k) && j < k
    ensures en < dn
  {
  }

  /** Earlier groups have higher degrees. */
  lemma GroupsByDegree(g: Graph, u: nat, v: nat)
    requires GraphOk(g) && u < g.nodes && v < g.nodes && Group(g, u) < Group(g, v)
    ensures g.offsets[u + 1] - g.offsets[u] > g.offsets[v + 1] - g.offsets[v]
  {
    hide Product, InRange, Group;
    GroupExactly(g, u, Group(g, u));
    GroupExactly(g, v, Group(g, v));
    var d, e := g.offsets[u + 1] - g.offsets[u], g.offsets[v + 1] - g.offsets[v];
    EarlierIsMore(Product(d, g.nodes), Product(e, g.nodes), |g.edges|, Group(g, u), Group(g, v));
    LessWhenScaled(e, d, g.nodes);
  }

  lemma LessWhenScaled(d: nat, e: nat, n: nat)
    requires n > 0 && Product(d, n) < Product(e, n)
    ensures d < e
  {
  }

  /** The vertices of group k among the first n, in ascending order. */
  function Members(g: Graph, k: nat, n: nat): (r: seq<nat>)
    requires GraphOk(g) && n <= g.nodes
    ensures |r| <= n
  {
    if n == 0 then [] else Members(g, k, n - 1) + if Group(g, n - 1) == k then [n - 1] else []
  }

  lemma {:induction false} MembersAre(g: Graph, k: nat, n: nat)
    requires GraphOk(g) && n <= g.nodes
    ensures forall i :: 0 <= i < |Members(g, k, n)| ==> Members(g, k, n)[i] < n && Group(g, Members(g, k, n)[i]) == k
    ensures forall i, j :: 0 <= i < j < |Members(g, k, n)| ==> Members(g, k, n)[i] < Members(g, k, n)[j]
    ensures forall u :: 0 <= u < n && Group(g, u) == k ==> u in Members(g, k, n)
  {
    hide Group;
    if n > 0 {
      MembersAre(g, k, n - 1);
    }
  }

  /** Vertices before group k, and the order that the scan gives to all vertices. */
  function OrderTo(g: Graph, k: nat): seq<nat>
    requires GraphOk(g) && k <= GROUPS
  {
    if k == 0 then [] else OrderTo(g, k - 1) + Members(g, k - 1, g.nodes)
  }

  predicate Before(g: Graph, u: nat, v: nat)
    requires GraphOk(g) && u < g.nodes && v < g.nodes
  {
    Group(g, u) < Group(g, v) || (Group(g, u) == Group(g, v) && u < v)
  }

  ghost predicate InOrder(g: Graph, s: seq<nat>)
    requires GraphOk(g)
  {
    && (forall i :: 0 <= i < |s| ==> s[i] < g.nodes)
    && (forall i, j :: 0 <= i < j < |s| ==> Before(g, s[i], s[j]))
  }

  lemma {:induction false} OrderIsSorted(g: Graph, k: nat)
    requires GraphOk(g) && k <= GROUPS
    ensures InOrder(g, OrderTo(g, k))
    ensures forall u: nat :: u < g.nodes ==> (u in OrderTo(g, k) <==> Group(g, u) < k)
    ensures forall i :: 0 <= i < |OrderTo(g, k)| ==> Group(g, OrderTo(g, k)[i]) < k
  {
    hide Group, Members;
    if k > 0 {
      OrderIsSorted(g, k - 1);
      MembersAre(g, k - 1, g.nodes);
    }
  }

  /** The labels are the positions in the order: a bijection in which higher-degree groups come first, and within a
      group the order of the vertices stays. */
  ghost predicate IsRelabelling(g: Graph, ret: seq<nat>)
    requires GraphOk(g)
  {
    && |ret| == g.nodes
    && (forall u :: 0 <= u < g.nodes ==> ret[u] < g.nodes)
    && (forall u, v :: 0 <= u < g.nodes && 0 <= v < g.nodes ==> (ret[u] < ret[v] <==> Before(g, u, v)))
  }

  lemma OrderIsRelabelling(g: Graph, ret: seq<nat>)
    requires GraphOk(g) && |ret| == g.nodes
    requires forall j :: 0 <= j < |OrderTo(g, GROUPS)| && OrderTo(g, GROUPS)[j] < g.nodes ==> ret[OrderTo(g, GROUPS)[j]] == j
    ensures IsRelabelling(g, ret)
  {
    hide OrderTo, Group, Before;
    var s := OrderTo(g, GROUPS);
    OrderIsSorted(g, GROUPS);
    OrderNoDup(g, s);
    NoDupBound(s, g.nodes);
    forall u: nat | u < g.nodes
      ensures u in s && ret[u] < g.nodes && s[ret[u]] == u
    {
      assert u in s;
      var i :| 0 <= i < |s| && s[i] == u;
      assert s[i] < g.nodes && ret[s[i]] == i;
    }
    forall u, v | 0 <= u < g.nodes && 0 <= v < g.nodes
      ensures ret[u] < ret[v] <==> Before(g, u, v)
    {
      Asymmetric(g, u, v);
      assert ret[u] < ret[v] ==> Before(g, s[ret[u]], s[ret[v]]);
      assert ret[v] < ret[u] ==> Before(g, s[ret[v]], s[ret[u]]);
    }
  }

  /** In terms of degrees: of two vertices in different groups the one with the higher degree gets the smaller label,
      and two vertices of the same group keep their order. */
  lemma LabelsByDegree(g: Graph, ret: seq<nat>, u: nat, v: nat)
    requires GraphOk(g) && IsRelabelling(g, ret) && u < g.nodes && v < g.nodes && ret[u] < ret[v]
    ensures || g.offsets[u + 1] - g.offsets[u] > g.offsets[v + 1] - g.offsets[v]
            || (u < v && exists k: nat :: InGroup(g, u, k) && InGroup(g, v, k))
  {
    hide Group, InGroup;
    if Group(g, u) < Group(g, v) {
      GroupsByDegree(g, u, v);
    } else {
      GroupExactly(g, u, Group(g, u));
      GroupExactly(g, v, Group(g, u));
    }
  }

  lemma Asymmetric(g: Graph, u: nat, v: nat)
    requires GraphOk(g) && u < g.nodes && v < g.nodes
    ensures !(Before(g, u, v) && Before(g, v, u)) && !Before(g, u, u)
  {
  }

  lemma OrderNoDup(g: Graph, s: seq<nat>)
    requires GraphOk(g) && InOrder(g, s)
    ensures NoDup(s)
  {
    hide Group, Before;
    forall i, j | 0 <= i < j < |s|
      ensures s[i] != s[j]
    {
      Asymmetric(g, s[i], s[j]);
    }
  }

  /** Not every vertex can have less than half of the average degree, so the last group is never full. */
  lemma LastGroupNotFull(g: Graph)
    requires GraphOk(g) && g.nodes > 0
    ensures |Members(g, GROUPS - 1, g.nodes)| < g.nodes
  {
    if |Members(g, GROUPS - 1, g.nodes)| == g.nodes {
      AllInGroup(g, GROUPS - 1, g.nodes);
      BelowHalf(g, g.nodes);
      HalfAverage(g);
    }
  }

  lemma {:induction false} AllInGroup(g: Graph, k: nat, n: nat)
    requires GraphOk(g) && n <= g.nodes && |Members(g, k, n)| == n
    ensures forall u: nat :: u < n ==> Group(g, u) == k
  {
    hide Group;
    if n > 0 {
      AllInGroup(g, k, n - 1);
    }
  }

  lemma LastGroupIsBelowHalf(average: real, d: nat)
    requires GroupFrom(average, d, 0) == GROUPS - 1
    ensures d as real < average * 0.5
  {
    NotReached(average, d, 0, 6);
  }

  lemma {:induction false} NotReached(average: real, d: nat, idx: nat, j: nat)
    requires idx <= j < GROUPS - 1 && GroupFrom(average, d, idx) == GROUPS - 1
    ensures average * BOUNDS[j] > d as real
    decreases j - idx
  {
    if idx < j {
      NotReached(average, d, idx + 1, j);
    }
  }

  lemma {:induction false} BelowHalf(g: Graph, k: nat)
    requires GraphOk(g) && k <= g.nodes && forall u: nat :: u < g.nodes ==> Group(g, u) == GROUPS - 1
    ensures if k == 0 then g.offsets[k] == 0 else g.offsets[k] as real < k as real * (AverageDegree(g) * 0.5)
  {
    if k > 0 {
      BelowHalf(g, k - 1);
      assert Group(g, k - 1) == GROUPS - 1;
      LastGroupIsBelowHalf(AverageDegree(g), Degree(g, k - 1));
      var half := AverageDegree(g) * 0.5;
      assert k as real * half == (k - 1) as real * half + half;
    }
  }

  lemma HalfAverage(g: Graph)
    requires GraphOk(g) && g.nodes > 0
    ensures g.nodes as real * (AverageDegree(g) * 0.5) == |g.edges| as real * 0.5
  {
    assert g.nodes as real * AverageDegree(g) == |g.edges| as real;
  }

  // ---------------------------------------------------------------- the kernel

  /** Where entry j of group k is in the array of groups. */
  function Slot(n: nat, k: nat, j: nat): nat {
    k * n + j
  }

  lemma SlotInRange(n: nat, k: nat, j: nat)
    requires k < GROUPS && j < n
    ensures Slot(n, k, j) < GROUPS * n
    ensures Slot(n, k, n) == Slot(n, k + 1, 0)
  {
  }

  lemma RowsApart(n: nat, k: nat, l: nat)
    ensures k < l ==> k * n + n <= l * n
  {
    if k < l {
      assert (k + 1) * n <= l * n;
    }
  }

  lemma SlotInjective(n: nat, k: nat, j: nat, l: nat, i: nat)
    requires j < n && i < n && Slot(n, k, j) == Slot(n, l, i)
    ensures k == l && j == i
  {
    RowsApart(n, k, l);
    RowsApart(n, l, k);
  }

  predicate CellOk(g: Graph, groups: seq<int>, k: nat, j: nat, i: nat)
    requires GraphOk(g) && |groups| == GROUPS * g.nodes && k < GROUPS && j < g.nodes && i <= g.nodes
  {
    SlotInRange(g.nodes, k, j);
    groups[Slot(g.nodes, k, j)] == if j < |Members(g, k, i)| then Members(g, k, i)[j] else -1
  }

  /** After i vertices: each group holds its members and is unwritten behind them. */
  ghost predicate Filled(g: Graph, groups: seq<int>, indices: seq<nat>, i: nat)
    requires GraphOk(g) && i <= g.nodes
  {
    && |groups| == GROUPS * g.nodes && |indices| == GROUPS
    && (forall k :: 0 <= k < GROUPS ==> indices[k] == |Members(g, k, i)|)
    && (forall k: nat, j: nat :: k < GROUPS && j < g.nodes ==> CellOk(g, groups, k, j, i))
  }

  lemma MembersNext(g: Graph, k: nat, i: nat)
    requires GraphOk(g) && i < g.nodes
    ensures Members(g, k, i + 1) == Members(g, k, i) + if Group(g, i) == k then [i] else []
  {
  }

  lemma FillStep(g: Graph, groups: seq<int>, indices: seq<nat>, i: nat)
    requires GraphOk(g) && i < g.nodes && Filled(g, groups, indices, i)
    ensures var k := Group(g, i);
            && indices[k] < g.nodes && Slot(g.nodes, k, indices[k]) < GROUPS * g.nodes
            && Filled(g, groups[Slot(g.nodes, k, indices[k]) := i], indices[k := indices[k] + 1], i + 1)
  {
    hide Slot, Group;
    var k := Group(g, i);
    var at := indices[k];
    SlotInRange(g.nodes, k, at);
    var groups', counts, next := groups[Slot(g.nodes, k, at) := i], indices[k := at + 1], i + 1;
    forall l | 0 <= l < GROUPS
      ensures counts[l] == |Members(g, l, next)|
    {
      MembersNext(g, l, i);
    }
    forall l: nat, j: nat | l < GROUPS && j < g.nodes
      ensures CellOk(g, groups', l, j, next)
    {
      assert CellOk(g, groups, l, j, i);
      SlotInRange(g.nodes, l, j);
      MembersNext(g, l, i);
      if Slot(g.nodes, l, j) == Slot(g.nodes, k, at) {
        SlotInjective(g.nodes, l, j, k, at);
      }
    }
  }

  lemma FillStart(g: Graph, groups: seq<int>, indices: seq<nat>)
    requires GraphOk(g) && |groups| == GROUPS * g.nodes && |indices| == GROUPS
    requires (forall c :: 0 <= c < |groups| ==> groups[c] == -1) && forall k :: 0 <= k < GROUPS ==> indices[k] == 0
    ensures Filled(g, groups, indices, 0)
  {
    forall k: nat, j: nat | k < GROUPS && j < g.nodes
      ensures CellOk(g, groups, k, j, 0)
    {
      SlotInRange(g.nodes, k, j);
    }
  }

  lemma {:induction false} NobodyElsewhere(g: Graph, k: nat, l: nat, n: nat)
    requires GraphOk(g) && k != l && n <= g.nodes && forall u: nat :: u < g.nodes ==> Group(g, u) == k
    ensures Members(g, l, n) == []
  {
    hide Group;
    if n > 0 {
      NobodyElsewhere(g, k, l, n - 1);
    }
  }

  /** The sentinel that ends the scan of group k is inside the array, even when the group is full. */
  lemma SentinelInside(g: Graph, groups: seq<int>, indices: seq<nat>, k: nat, j: nat)
    requires GraphOk(g) && g.nodes > 0 && Filled(g, groups, indices, g.nodes)
    requires k < GROUPS && j <= |Members(g, k, g.nodes)|
    ensures Slot(g.nodes, k, j) < |groups|
    ensures groups[Slot(g.nodes, k, j)] == if j < |Members(g, k, g.nodes)| then Members(g, k, g.nodes)[j] else -1
  {
    hide Slot, Group;
    SlotInRange(g.nodes, k, 0);
    if j < g.nodes {
      SlotInRange(g.nodes, k, j);
      assert CellOk(g, groups, k, j, g.nodes);
    } else {
      LastGroupNotFull(g);
      AllInGroup(g, k, g.nodes);
      MembersAre(g, k + 1, g.nodes);
      NobodyElsewhere(g, k, k + 1, g.nodes);
      SlotInRange(g.nodes, k + 1, 0);
      assert CellOk(g, groups, k + 1, 0, g.nodes);
    }
  }

  /** The vertices of a list have their positions as labels. */
  ghost predicate Placed(ret: seq<nat>, list: seq<nat>) {
    forall m :: 0 <= m < |list| ==> list[m] < |ret| && ret[list[m]] == m
  }

  lemma PlaceNext(ret: seq<nat>, list: seq<nat>, v: nat)
    requires Placed(ret, list) && NoDup(list + [v]) && v < |ret|
    ensures Placed(ret[v := |list|], list + [v])
  {
    var list' := list + [v];
    forall m | 0 <= m < |list|
      ensures list[m] != v
    {
      assert list'[m] == list[m] && list'[|list|] == v;
    }
  }

  lemma NoDupPrefix(s: seq<nat>, n: nat)
    requires NoDup(s) && n <= |s|
    ensures NoDup(s[..n])
  {
  }

  lemma ScanStep(g: Graph, k: nat, j: nat)
    requires GraphOk(g) && k < GROUPS && j < |Members(g, k, g.nodes)|
    ensures var ms := Members(g, k, g.nodes);
            && ms[j] < g.nodes && NoDup(OrderTo(g, k) + ms[..j] + [ms[j]])
            && OrderTo(g, k) + ms[..j + 1] == OrderTo(g, k) + ms[..j] + [ms[j]]
  {
    hide Group, Members, OrderTo, InOrder, NoDup;
    var ms := Members(g, k, g.nodes);
    MembersAre(g, k, g.nodes);
    OrderIsSorted(g, k + 1);
    OrderNoDup(g, OrderTo(g, k + 1));
    NextGroup(g, k);
    NoDupPrefix(OrderTo(g, k) + ms, |OrderTo(g, k)| + j + 1);
    assert (OrderTo(g, k) + ms)[..|OrderTo(g, k)| + j + 1] == OrderTo(g, k) + ms[..j] + [ms[j]];
  }

  /** The search for the group of a vertex. */
  method FindGroup(average: real, d: nat) returns (idx: nat)
    ensures idx == GroupFrom(average, d, 0)
  {
    idx := 0;
    while idx < GROUPS - 1 && !(average * BOUNDS[idx] <= d as real)
      invariant idx < GROUPS && GroupFrom(average, d, 0) == GroupFrom(average, d, idx)
    {
      idx := idx + 1;
    }
  }

  /** _kernel_, for one thread, with the arrays that main prepares. */
  method Kernel(g: Graph) returns (labels: seq<nat>)
    requires GraphOk(g) && g.nodes > 0
    ensures IsRelabelling(g, labels)
  {
    hide Filled, Group, Slot, OrderTo, Members, IsRelabelling, AverageDegree;
    var n := g.nodes;
    var groups := new int[GROUPS * n](_ => -1);
    var indices := new nat[GROUPS](_ => 0);
    FillStart(g, groups[..], indices[..]);
    var average := AverageDegree(g);
    var i := 0;
    while i < n
      invariant 0 <= i <= n && Filled(g, groups[..], indices[..], i)
    {
      GroupIs(g, i);
      var idx := FindGroup(average, g.offsets[i + 1] - g.offsets[i]);
      ghost var was, counts := groups[..], indices[..];
      FillStep(g, was, counts, i);
      var cell := Cell(n, idx, indices[idx]);
      groups[cell] := i;
      indices[idx] := indices[idx] + 1;
      assert groups[..] == was[Slot(n, idx, counts[idx]) := i] && indices[..] == counts[idx := counts[idx] + 1];
      i := i + 1;
    }
    var ret := Scan(g, groups[..], indices[..]);
    labels := ret;
  }

  method Cell(n: nat, k: nat, j: nat) returns (cell: nat)
    ensures cell == Slot(n, k, j)
  {
    cell := k * n + j;
  }

  lemma GroupIs(g: Graph, i: nat)
    requires GraphOk(g) && i < g.nodes
    ensures Group(g, i) == GroupFrom(AverageDegree(g), g.offsets[i + 1] - g.offsets[i], 0)
  {
  }

  lemma SlotIs(n: nat, k: nat, j: nat)
    ensures Slot(n, k, j) == k * n + j
  {
  }

  /** The second half of the kernel: number the vertices group by group, up to the sentinel of each group. */
  method Scan(g: Graph, groups: seq<int>, ghost indices: seq<nat>) returns (labels: seq<nat>)
    requires GraphOk(g) && g.nodes > 0 && Filled(g, groups, indices, g.nodes)
    ensures IsRelabelling(g, labels)
  {
    hide Filled, Group, Slot, OrderTo, Members, NoDup, IsRelabelling;
    var n := g.nodes;
    var ret := new nat[n](_ => 0);
    var idx, k := 0, 0;
    NoOrder(g);
    while k < GROUPS
      invariant 0 <= k <= GROUPS && idx == |OrderTo(g, k)| && Placed(ret[..], OrderTo(g, k))
    {
      ghost var ms := Members(g, k, n);
      var gIdx, j := n * k, 0;
      SlotIs(n, k, 0);
      SentinelInside(g, groups, indices, k, 0);
      assert OrderTo(g, k) + ms[..0] == OrderTo(g, k);
      while groups[gIdx] != -1
        invariant j <= |ms| && gIdx == Slot(n, k, j) < |groups|
        invariant groups[gIdx] == if j < |ms| then ms[j] else -1
        invariant idx == |OrderTo(g, k)| + j && Placed(ret[..], OrderTo(g, k) + ms[..j])
        decreases |ms| - j
      {
        ScanStep(g, k, j);
        ghost var was := ret[..];
        PlaceNext(was, OrderTo(g, k) + ms[..j], ms[j]);
        ret[groups[gIdx]] := idx;
        assert ret[..] == was[ms[j] := idx];
        SlotIs(n, k, j);
        SlotIs(n, k, j + 1);
        SentinelInside(g, groups, indices, k, j + 1);
        gIdx := gIdx + 1;
        idx := idx + 1;
        j := j + 1;
      }
      NextGroup(g, k);
      assert ms[..j] == ms;
      k := k + 1;
    }
    labels := ret[..];
    OrderIsRelabelling(g, labels);
  }

  lemma NoOrder(g: Graph)
    requires GraphOk(g)
    ensures OrderTo(g, 0) == []
  {
  }

  lemma NextGroup(g: Graph, k: nat)
    requires GraphOk(g) && k < GROUPS
    ensures OrderTo(g, k + 1) == OrderTo(g, k) + Members(g, k, g.nodes)
  {
  }
}
