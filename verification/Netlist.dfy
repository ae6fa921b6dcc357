/** The netlist of canneal and its routing cost (netlist.cpp, netlist_elem.cpp, annealer_thread.cpp). Coordinates are
    integers, so the sums of distances are exact. */
module Netlist {
  datatype Loc = Loc(x: int, y: int)

  datatype Net = Net(driver: nat, sink: nat)

  function Abs(i: int): nat {
    if i < 0 then -i else i
  }

  /** Manhattan distance. */
  function Dist(p: Loc, q: Loc): nat {
    Abs(p.x - q.x) + Abs(p.y - q.y)
  }

  lemma DistSymmetric(p: Loc, q: Loc)
    ensures Dist(p, q) == Dist(q, p)
    ensures Dist(p, p) == 0
  {
  }

  /** Two neighbouring places of the grid. */
  predicate UnitStep(p: Loc, q: Loc) {
    || (p.y == q.y && (q.x == p.x + 1 || p.x == q.x + 1))
    || (p.x == q.x && (q.y == p.y + 1 || p.y == q.y + 1))
  }

  /** There is a way of k unit steps from p to q. */
  ghost predicate Way(p: Loc, q: Loc, k: nat)
    decreases k
  {
    if k == 0 then p == q else exists m: Loc :: Way(p, m, k - 1) && UnitStep(m, q)
  }

  /** Dist is the number of unit steps on a shortest way. */
  lemma {:induction false} DistIsShortest(p: Loc, q: Loc)
    ensures Way(p, q, Dist(p, q))
    ensures forall k: nat :: Way(p, q, k) ==> Dist(p, q) <= k
    decreases Dist(p, q)
  {
    if p != q {
      var m := if p.x < q.x then Loc(q.x - 1, q.y) else if p.x > q.x then Loc(q.x + 1, q.y)
               else if p.y < q.y then Loc(q.x, q.y - 1) else Loc(q.x, q.y + 1);
      DistIsShortest(p, m);
      assert UnitStep(m, q);
    }
    forall k: nat | Way(p, q, k)
      ensures Dist(p, q) <= k
    {
      NoShorterWay(p, q, k);
    }
  }

  lemma {:induction false} NoShorterWay(p: Loc, q: Loc, k: nat)
    requires Way(p, q, k)
    ensures Dist(p, q) <= k
    decreases k
  {
    if k > 0 {
      var m: Loc :| Way(p, m, k - 1) && UnitStep(m, q);
      NoShorterWay(p, m, k - 1);
    }
  }

  /** In coordinates: the absolute differences, added. */
  lemma DistInCoordinates(p: Loc, q: Loc)
    ensures p.x <= q.x && p.y <= q.y ==> Dist(p, q) == (q.x - p.x) + (q.y - p.y)
    ensures Dist(Loc(-p.x, p.y), Loc(-q.x, q.y)) == Dist(p, q) == Dist(Loc(p.x, -p.y), Loc(q.x, -q.y))
  {
  }

  /** The drivers of the nets that end at v, and the sinks of those that start there, in the order of the nets. */
  function FaninOf(nets: seq<Net>, v: nat): seq<nat> {
    if nets == [] then []
    else
      var before := FaninOf(nets[..|nets| - 1], v);
      if nets[|nets| - 1].sink == v then before + [nets[|nets| - 1].driver] else before
  }

  function FanoutOf(nets: seq<Net>, v: nat): seq<nat> {
    if nets == [] then []
    else
      var before := FanoutOf(nets[..|nets| - 1], v);
      if nets[|nets| - 1].driver == v then before + [nets[|nets| - 1].sink] else before
  }

  lemma NetAdded(nets: seq<Net>, net: Net, n: nat, n': nat)
    requires NetsInRange(nets, n) && n <= n' && net.driver < n' && net.sink < n'
    ensures NetsInRange(nets + [net], n')
    ensures forall v :: FaninOf(nets + [net], v) == FaninOf(nets, v) + if net.sink == v then [net.driver] else []
    ensures forall v :: FanoutOf(nets + [net], v) == FanoutOf(nets, v) + if net.driver == v then [net.sink] else []
  {
    assert (nets + [net])[..|nets|] == nets;
  }

  predicate InRange(list: seq<nat>, n: nat) {
    forall i :: 0 <= i < |list| ==> list[i] < n
  }

  predicate NetsInRange(nets: seq<Net>, n: nat) {
    forall i :: 0 <= i < |nets| ==> nets[i].driver < n && nets[i].sink < n
  }

  /** The distances from a place to a list of elements. */
  function ListCost(list: seq<nat>, at: Loc, locs: seq<Loc>): nat
    requires InRange(list, |locs|)
  {
    if list == [] then 0 else ListCost(list[..|list| - 1], at, locs) + Dist(at, locs[list[|list| - 1]])
  }

  lemma ListCostSnoc(list: seq<nat>, u: nat, at: Loc, locs: seq<Loc>)
    requires InRange(list, |locs|) && u < |locs|
    ensures InRange(list + [u], |locs|)
    ensures ListCost(list + [u], at, locs) == ListCost(list, at, locs) + Dist(at, locs[u])
  {
    assert (list + [u])[..|list|] == list;
  }

  lemma {:induction false} ListsInRange(nets: seq<Net>, v: nat, n: nat)
    requires NetsInRange(nets, n)
    ensures InRange(FaninOf(nets, v), n) && InRange(FanoutOf(nets, v), n)
  {
    if nets != [] {
      ListsInRange(nets[..|nets| - 1], v, n);
    }
  }

  /** What element v would cost at a place. */
  ghost function CostAt(nets: seq<Net>, locs: seq<Loc>, v: nat, at: Loc): nat
    requires NetsInRange(nets, |locs|)
  {
    ListsInRange(nets, v, |locs|);
    ListCost(FaninOf(nets, v), at, locs) + ListCost(FanoutOf(nets, v), at, locs)
  }

  lemma CostAtSnoc(nets: seq<Net>, net: Net, locs: seq<Loc>, v: nat, at: Loc)
    requires NetsInRange(nets, |locs|) && net.driver < |locs| && net.sink < |locs|
    ensures NetsInRange(nets + [net], |locs|)
    ensures CostAt(nets + [net], locs, v, at)
         == CostAt(nets, locs, v, at) + (if net.sink == v then Dist(at, locs[net.driver]) else 0)
            + (if net.driver == v then Dist(at, locs[net.sink]) else 0)
  {
    assert (nets + [net])[..|nets|] == nets;
    ListsInRange(nets, v, |locs|);
    ListCostSnoc(FaninOf(nets, v), net.driver, at, locs);
    ListCostSnoc(FanoutOf(nets, v), net.sink, at, locs);
  }

  /** The wire length of all nets. */
  function Wires(nets: seq<Net>, locs: seq<Loc>): nat
    requires NetsInRange(nets, |locs|)
  {
    if nets == [] then 0
    else
      var net := nets[|nets| - 1];
      Wires(nets[..|nets| - 1], locs) + Dist(locs[net.driver], locs[net.sink])
  }

  /** The costs of one net between the elements u and v: the unit steps between their places, for both elements. */
  lemma OneNet(u: nat, v: nat, locs: seq<Loc>, k: nat)
    requires u < |locs| && v < |locs| && u != v
    requires Way(locs[u], locs[v], k) && forall j: nat :: Way(locs[u], locs[v], j) ==> k <= j
    ensures Wires([Net(u, v)], locs) == k
    ensures CostAt([Net(u, v)], locs, u, locs[u]) == CostAt([Net(u, v)], locs, v, locs[v]) == k
  {
    hide Dist, Way;
    DistIsShortest(locs[u], locs[v]);
    DistSymmetric(locs[u], locs[v]);
    assert [] + [Net(u, v)] == [Net(u, v)];
    CostAtSnoc([], Net(u, v), locs, u, locs[u]);
    CostAtSnoc([], Net(u, v), locs, v, locs[v]);
  }

  ghost function SumCosts(nets: seq<Net>, locs: seq<Loc>, m: nat): nat
    requires NetsInRange(nets, |locs|) && m <= |locs|
  {
    if m == 0 then 0 else SumCosts(nets, locs, m - 1) + CostAt(nets, locs, m - 1, locs[m - 1])
  }

  lemma {:induction false} SumCostsSnoc(nets: seq<Net>, net: Net, locs: seq<Loc>, m: nat)
    requires NetsInRange(nets, |locs|) && net.driver < |locs| && net.sink < |locs| && m <= |locs|
    ensures NetsInRange(nets + [net], |locs|)
    ensures SumCosts(nets + [net], locs, m)
         == SumCosts(nets, locs, m) + (if net.sink < m then Dist(locs[net.sink], locs[net.driver]) else 0)
            + (if net.driver < m then Dist(locs[net.driver], locs[net.sink]) else 0)
    decreases m
  {
    hide CostAt, Dist;
    if m > 0 {
      SumCostsSnoc(nets, net, locs, m - 1);
      CostAtSnoc(nets, net, locs, m - 1, locs[m - 1]);
    }
  }

  /** The sum over the elements counts every net twice. */
  lemma {:induction false} CountedTwice(nets: seq<Net>, locs: seq<Loc>, m: nat)
    requires m <= |locs| && NetsInRange(nets, m)
    ensures SumCosts(nets, locs, m) == 2 * Wires(nets, locs)
    decreases |nets|
  {
    if nets == [] {
      NoCosts(locs, m);
    } else {
      var net := nets[|nets| - 1];
      assert nets == nets[..|nets| - 1] + [net];
      DistSymmetric(locs[net.driver], locs[net.sink]);
      CountedTwice(nets[..|nets| - 1], locs, m);
      SumCostsSnoc(nets[..|nets| - 1], net, locs, m);
    }
  }

  lemma NoSum(nets: seq<Net>, locs: seq<Loc>)
    requires NetsInRange(nets, |locs|)
    ensures SumCosts(nets, locs, 0) == 0
  {
  }

  lemma SumNext(nets: seq<Net>, locs: seq<Loc>, m: nat)
    requires NetsInRange(nets, |locs|) && m < |locs|
    ensures SumCosts(nets, locs, m + 1) == SumCosts(nets, locs, m) + CostAt(nets, locs, m, locs[m])
  {
  }

  lemma {:induction false} NoCosts(locs: seq<Loc>, m: nat)
    requires m <= |locs|
    ensures SumCosts([], locs, m) == 0
  {
    if m > 0 {
      NoCosts(locs, m - 1);
    }
  }

  // ---------------------------------------------------------------- what a swap changes

  function Swapped(locs: seq<Loc>, a: nat, b: nat): (r: seq<Loc>)
    requires a < |locs| && b < |locs|
    ensures |r| == |locs|
  {
    locs[a := locs[b]][b := locs[a]]
  }

  /** The estimate: both elements move, everything else, including the other of the two, stays. */
  ghost function Delta(nets: seq<Net>, locs: seq<Loc>, a: nat, b: nat): int
    requires NetsInRange(nets, |locs|) && a < |locs| && b < |locs|
  {
    CostAt(nets, locs, a, locs[b]) - CostAt(nets, locs, a, locs[a])
    + CostAt(nets, locs, b, locs[a]) - CostAt(nets, locs, b, locs[b])
  }

  /** The nets between a and b, and the nets from one element to itself. */
  function Joining(nets: seq<Net>, a: nat, b: nat): nat {
    if nets == [] then 0
    else
      var net := nets[|nets| - 1];
      Joining(nets[..|nets| - 1], a, b) + One(net, a, b)
  }

  /** What one net adds to the estimate. */
  function NetDelta(net: Net, locs: seq<Loc>, a: nat, b: nat): int
    requires net.driver < |locs| && net.sink < |locs| && a < |locs| && b < |locs|
  {
    var driver, sink := locs[net.driver], locs[net.sink];
    (if net.sink == a then Dist(locs[b], driver) - Dist(locs[a], driver) else 0)
    + (if net.driver == a then Dist(locs[b], sink) - Dist(locs[a], sink) else 0)
    + (if net.sink == b then Dist(locs[a], driver) - Dist(locs[b], driver) else 0)
    + (if net.driver == b then Dist(locs[a], sink) - Dist(locs[b], sink) else 0)
  }

  function One(net: Net, a: nat, b: nat): nat {
    if net == Net(a, b) || net == Net(b, a) then 1 else 0
  }

  function NetExcess(net: Net, a: nat, b: nat): int {
    One(net, a, a) + One(net, b, b) - One(net, a, b)
  }

  lemma NetFormula(net: Net, locs: seq<Loc>, a: nat, b: nat)
    requires net.driver < |locs| && net.sink < |locs| && a < |locs| && b < |locs| && a != b
    ensures var after := Swapped(locs, a, b);
            NetDelta(net, locs, a, b)
            == Dist(after[net.driver], after[net.sink]) - Dist(locs[net.driver], locs[net.sink])
               + 2 * Times(NetExcess(net, a, b), Dist(locs[a], locs[b]))
  {
    hide Dist;
    var after := Swapped(locs, a, b);
    DistSymmetric(locs[a], locs[b]);
    DistSymmetric(locs[net.driver], locs[net.sink]);
    DistSymmetric(locs[a], locs[net.driver]);
    DistSymmetric(locs[b], locs[net.driver]);
    DistSymmetric(locs[b], locs[a]);
  }

  lemma DeltaSnoc(nets: seq<Net>, net: Net, locs: seq<Loc>, a: nat, b: nat)
    requires NetsInRange(nets, |locs|) && net.driver < |locs| && net.sink < |locs| && a < |locs| && b < |locs|
    ensures NetsInRange(nets + [net], |locs|)
    ensures Delta(nets + [net], locs, a, b) == Delta(nets, locs, a, b) + NetDelta(net, locs, a, b)
  {
    hide Dist, CostAt;
    CostAtSnoc(nets, net, locs, a, locs[a]);
    CostAtSnoc(nets, net, locs, a, locs[b]);
    CostAtSnoc(nets, net, locs, b, locs[a]);
    CostAtSnoc(nets, net, locs, b, locs[b]);
  }

  /** Nets from one of the two elements to itself, less the nets that join them. */
  function Excess(nets: seq<Net>, a: nat, b: nat): int {
    Joining(nets, a, a) + Joining(nets, b, b) - Joining(nets, a, b)
  }

  function Times(i: int, d: nat): int {
    i * d
  }

  lemma TimesAdds(i: int, j: int, d: nat)
    ensures Times(i + j, d) == Times(i, d) + Times(j, d)
  {
  }

  /** The estimate is the true change of the total, less twice the distance for every net that joins the two
      elements, plus twice the distance for every net from one of them to itself. */
  lemma {:induction false} DeltaFormula(nets: seq<Net>, locs: seq<Loc>, a: nat, b: nat)
    requires NetsInRange(nets, |locs|) && a < |locs| && b < |locs| && a != b
    ensures Delta(nets, locs, a, b)
         == Wires(nets, Swapped(locs, a, b)) - Wires(nets, locs)
            + 2 * Times(Excess(nets, a, b), Dist(locs[a], locs[b]))
    decreases |nets|
  {
    hide Dist, NetDelta, Times, Swapped, Delta, Joining, NetExcess;
    if nets == [] {
      NoDelta(locs, a, b);
    } else {
      var before, net := nets[..|nets| - 1], nets[|nets| - 1];
      assert nets == before + [net];
      DeltaFormula(before, locs, a, b);
      DeltaSnoc(before, net, locs, a, b);
      NetFormula(net, locs, a, b);
      ExcessSnoc(before, net, a, b);
      TimesAdds(Excess(before, a, b), NetExcess(net, a, b), Dist(locs[a], locs[b]));
    }
  }

  lemma ExcessSnoc(nets: seq<Net>, net: Net, a: nat, b: nat)
    ensures Excess(nets + [net], a, b) == Excess(nets, a, b) + NetExcess(net, a, b)
  {
    assert (nets + [net])[..|nets|] == nets;
  }

  lemma NoDelta(locs: seq<Loc>, a: nat, b: nat)
    requires a < |locs| && b < |locs|
    ensures Delta([], locs, a, b) == 0 && Times(Excess([], a, b), Dist(locs[a], locs[b])) == 0
  {
  }

  /** The estimate agrees with recomputing the total exactly when the joining nets and the nets of the two elements
      to themselves balance; without nets of the second kind, exactly for elements that no net joins. */
  lemma DeltaIsExact(nets: seq<Net>, locs: seq<Loc>, a: nat, b: nat)
    requires NetsInRange(nets, |locs|) && a < |locs| && b < |locs| && locs[a] != locs[b]
    ensures Delta(nets, locs, a, b) == Wires(nets, Swapped(locs, a, b)) - Wires(nets, locs)
            <==> Joining(nets, a, a) + Joining(nets, b, b) == Joining(nets, a, b)
  {
    hide Delta, Wires, Joining;
    DeltaFormula(nets, locs, a, b);
    assert Dist(locs[a], locs[b]) > 0;
    NotZero(Excess(nets, a, b), Dist(locs[a], locs[b]));
  }

  lemma NotZero(i: int, d: nat)
    requires d > 0
    ensures Times(i, d) == 0 <==> i == 0
  {
  }

  // ---------------------------------------------------------------- the netlist object

  ghost predicate Distinct(locs: seq<Loc>) {
    forall i, j :: 0 <= i < j < |locs| ==> locs[i] != locs[j]
  }

  function Area(maxX: nat, maxY: nat): nat {
    maxX * maxY
  }

  /** The number of the place in column x and row y. */
  function Place(x: nat, y: nat, maxY: nat): nat {
    x * maxY + y
  }

  lemma Inside(x: nat, y: nat, maxX: nat, maxY: nat)
    requires x < maxX && y <= maxY
    ensures Place(x, y, maxY) <= Area(maxX, maxY) && (y < maxY ==> Place(x, y, maxY) < Area(maxX, maxY))
    ensures Place(x, y + 1, maxY) == Place(x, y, maxY) + 1 && Place(x, maxY, maxY) == Place(x + 1, 0, maxY)
  {
    assert (x + 1) * maxY <= maxX * maxY;
  }

  lemma Corners(maxX: nat, maxY: nat)
    ensures Place(0, 0, maxY) == 0 && Place(maxX, 0, maxY) == Area(maxX, maxY)
  {
  }

  /** loc is place k of the grid. */
  predicate IsPlace(loc: Loc, k: int, maxX: nat, maxY: nat) {
    0 <= loc.x < maxX && 0 <= loc.y < maxY && Place(loc.x, loc.y, maxY) == k
  }

  /** The first i places are the first i of the grid. */
  ghost predicate FilledTo(locs: seq<Loc>, i: nat, maxX: nat, maxY: nat) {
    i <= |locs| && forall k :: 0 <= k < i ==> IsPlace(locs[k], k, maxX, maxY)
  }

  lemma PlacesDiffer(locs: seq<Loc>, maxX: nat, maxY: nat)
    requires FilledTo(locs, |locs|, maxX, maxY)
    ensures Distinct(locs)
  {
    forall i, j | 0 <= i < j < |locs|
      ensures locs[i] != locs[j]
    {
      assert IsPlace(locs[i], i, maxX, maxY) && IsPlace(locs[j], j, maxX, maxY);
    }
  }

  /** Number the places of the grid, column by column. */
  method Grid(maxX: nat, maxY: nat, n: nat) returns (locs: array<Loc>)
    requires n == Area(maxX, maxY)
    ensures fresh(locs) && locs.Length == n && FilledTo(locs[..], n, maxX, maxY) && Distinct(locs[..])
  {
    hide Place, Area;
    locs := new Loc[n](_ => Loc(0, 0));
    var x, i := 0, 0;
    Corners(maxX, maxY);
    while x < maxX
      invariant 0 <= x <= maxX && i == Place(x, 0, maxY) <= n && FilledTo(locs[..], i, maxX, maxY)
    {
      var y := 0;
      while y < maxY
        invariant 0 <= y <= maxY && i == Place(x, y, maxY) <= n && FilledTo(locs[..], i, maxX, maxY)
      {
        Inside(x, y, maxX, maxY);
        locs[i] := Loc(x, y);
        i := i + 1;
        y := y + 1;
      }
      Inside(x, maxY, maxX, maxY);
      x := x + 1;
    }
    PlacesDiffer(locs[..], maxX, maxY);
  }

  class Chip {
    const size: nat
    var fanin: array<seq<nat>>
    var fanout: array<seq<nat>>
    var presentLoc: array<Loc>
    var names: map<string, nat>
    var unused: nat
    ghost var nets: seq<Net>

    /** fanin and fanout agree with one list of nets between named elements; no two elements share a place. */
    ghost predicate Valid()
      reads this, fanin, fanout, presentLoc
    {
      && fanin.Length == fanout.Length == presentLoc.Length == size && unused <= size && fanin != fanout
      && (forall name :: name in names ==> names[name] < unused)
      && NetsInRange(nets, unused)
      && (forall v: nat :: v < size ==> fanin[v] == FaninOf(nets, v) && fanout[v] == FanoutOf(nets, v))
      && Distinct(presentLoc[..])
    }

    /** The constructor up to reading the file: element i gets place i of the grid. */
    constructor (maxX: nat, maxY: nat)
      ensures Valid() && size == maxX * maxY && nets == [] && fresh(fanin) && fresh(fanout) && fresh(presentLoc)
      ensures forall k :: 0 <= k < size ==> IsPlace(presentLoc[k], k, maxX, maxY)
    {
      var n := maxX * maxY;
      var locs := Grid(maxX, maxY, n);
      size := n;
      fanin := new seq<nat>[n](_ => []);
      fanout := new seq<nat>[n](_ => []);
      presentLoc := locs;
      names, unused, nets := map[], 0, [];
    }

    /** The element of a name; a new name gets the next unused element. */
    method CreateElemIfNecessary(name: string) returns (elem: nat)
      requires Valid() && (name in names || unused < size)
      modifies this`names, this`unused
      ensures Valid() && name in names && elem == names[name] < unused
      ensures names == old(names)[name := elem]
      ensures name in old(names) ==> unused == old(unused)
      ensures name !in old(names) ==> elem == old(unused) && unused == old(unused) + 1
    {
      if name !in names {
        elem := unused;
        names := names[name := elem];
        unused := unused + 1;
      } else {
        elem := names[name];
      }
    }

    /** One fanin name read from the file: note the net at both of its ends. */
    method AddFanin(presentElem: nat, faninName: string)
      requires Valid() && presentElem < unused && (faninName in names || unused < size)
      modifies this`names, this`unused, this`nets, fanin, fanout
      ensures Valid() && faninName in names && nets == old(nets) + [Net(names[faninName], presentElem)]
      ensures old(unused) <= unused
    {
      hide FaninOf, FanoutOf, NetsInRange, Distinct;
      var faninElem := CreateElemIfNecessary(faninName);
      NetAdded(nets, Net(faninElem, presentElem), old(unused), unused);
      fanin[presentElem] := fanin[presentElem] + [faninElem];
      fanout[faninElem] := fanout[faninElem] + [presentElem];
      nets := nets + [Net(faninElem, presentElem)];
      assert presentLoc[..] == old(presentLoc[..]);
    }

    /** The loop over one list of neighbours. */
    method ListRoutingCost(list: seq<nat>, loc: Loc) returns (cost: nat)
      requires Valid() && InRange(list, size)
      ensures cost == ListCost(list, loc, presentLoc[..])
    {
      cost := 0;
      var i := 0;
      while i < |list|
        invariant 0 <= i <= |list| && cost == ListCost(list[..i], loc, presentLoc[..])
      {
        var other := presentLoc[list[i]];
        ListCostSnoc(list[..i], list[i], loc, presentLoc[..]);
        assert list[..i + 1] == list[..i] + [list[i]];
        cost := cost + Abs(loc.x - other.x);
        cost := cost + Abs(loc.y - other.y);
        i := i + 1;
      }
      assert list[..i] == list;
    }

    /** routing_cost_given_loc */
    method RoutingCostGivenLoc(elem: nat, loc: Loc) returns (cost: nat)
      requires Valid() && elem < size
      ensures cost == CostAt(nets, presentLoc[..], elem, loc)
    {
      ListsInRange(nets, elem, size);
      var faninCost := ListRoutingCost(fanin[elem], loc);
      var fanoutCost := ListRoutingCost(fanout[elem], loc);
      cost := faninCost + fanoutCost;
    }

    /** swap_cost: the two sums of the source, one after the other instead of interleaved. */
    method SwapCost(elem: nat, oldLoc: Loc, newLoc: Loc) returns (delta: int)
      requires Valid() && elem < size
      ensures delta == CostAt(nets, presentLoc[..], elem, newLoc) - CostAt(nets, presentLoc[..], elem, oldLoc)
    {
      var noSwap: int := RoutingCostGivenLoc(elem, oldLoc);
      var yesSwap: int := RoutingCostGivenLoc(elem, newLoc);
      delta := yesSwap - noSwap;
    }

    /** calculate_delta_routing_cost */
    method CalculateDelta(a: nat, b: nat) returns (delta: int)
      requires Valid() && a < size && b < size
      ensures delta == Delta(nets, presentLoc[..], a, b)
    {
      var aLoc, bLoc := presentLoc[a], presentLoc[b];
      delta := SwapCost(a, aLoc, bLoc);
      var other := SwapCost(b, bLoc, aLoc);
      delta := delta + other;
    }

    /** total_routing_cost: half of the sum over the named elements is the wire length. */
    method TotalRoutingCost() returns (total: real)
      requires Valid()
      ensures total == Wires(nets, presentLoc[..]) as real
    {
      hide SumCosts, Wires, CostAt;
      var rval, elem := 0, 0;
      NoSum(nets, presentLoc[..]);
      while elem < unused
        invariant 0 <= elem <= unused && rval == SumCosts(nets, presentLoc[..], elem)
      {
        SumNext(nets, presentLoc[..], elem);
        var cost := RoutingCostGivenLoc(elem, presentLoc[elem]);
        rval := rval + cost;
        elem := elem + 1;
      }
      CountedTwice(nets, presentLoc[..], unused);
      total := rval as real / 2.0;
    }

    /** swap_locations, for one thread. */
    method SwapLocations(a: nat, b: nat)
      requires Valid() && a < size && b < size && a != b
      modifies presentLoc
      ensures Valid() && presentLoc[..] == Swapped(old(presentLoc[..]), a, b)
    {
      ghost var was := presentLoc[..];
      presentLoc[a], presentLoc[b] := presentLoc[b], presentLoc[a];
      assert presentLoc[..] == Swapped(was, a, b);
    }

    /** A move with its estimate: without nets from a or b to itself and without a net between a and b, the total
        changes by exactly the estimate. */
    method Move(a: nat, b: nat) returns (delta: int)
      requires Valid() && a < size && b < size && a != b
      modifies presentLoc
      ensures Valid() && presentLoc[..] == Swapped(old(presentLoc[..]), a, b)
      ensures delta == Wires(nets, presentLoc[..]) - Wires(nets, old(presentLoc[..]))
              <==> Joining(nets, a, a) + Joining(nets, b, b) == Joining(nets, a, b)
    {
      delta := CalculateDelta(a, b);
      assert presentLoc[..][a] != presentLoc[..][b];
      DeltaIsExact(nets, presentLoc[..], a, b);
      SwapLocations(a, b);
    }
  }
}
