/** The lock-free cells of canneal (AtomicPtr.h) as a state machine. One step is one atomic access: a load, a
    compare-and-set, or the store of Checkin. Memory is sequentially consistent. */
module AtomicPtr {
  import opened Common

  /** A running Swap or TrySwap; `first` is the cell with the lower address. */
  datatype Op = Op(first: nat, last: nat, blocking: bool)

  /** What a thread does next. `held` is the value of the cell that it has checked out; in Store it is the value
      about to be checked in. */
  datatype Pc =
    | Idle
    | LoadFirst(op: Op)
    | CasFirst(op: Op, seen: nat)
    | LoadLast(op: Op, held: nat)
    | CasLast(op: Op, held: nat, seen: nat)
    | Store(op: Op, held: nat, swapped: bool)

  datatype Commit = Commit(thread: nat, first: nat, last: nat)

  /** `None` is ATOMIC_NULL: the cell is checked out. `log` lists the successful compare-and-sets on the higher cell
      in the order they happened; `returned` lists the swaps that each thread has completed. */
  datatype State = State(cells: seq<Option<nat>>, pcs: seq<Pc>, log: seq<Commit>, returned: seq<seq<Commit>>)

  predicate InRange(s: State, t: nat) {
    t < |s.pcs| && |s.returned| == |s.pcs|
    && (s.pcs[t] != Idle ==> s.pcs[t].op.first < |s.cells| && s.pcs[t].op.last < |s.cells|)
  }

  predicate OpOk(op: Op, n: nat) {
    op.first < op.last < n
  }

  function Goto(s: State, t: nat, pc: Pc): State
    requires t < |s.pcs|
  {
    s.(pcs := s.pcs[t := pc])
  }

  /** Swap and TrySwap: order the two cells by address. */
  function Start(s: State, t: nat, a: nat, b: nat, blocking: bool): State
    requires t < |s.pcs|
  {
    Goto(s, t, LoadFirst(if a < b then Op(a, b, blocking) else Op(b, a, blocking)))
  }

  /** One step of thread t inside its operation. The blocking form retries, the other one gives up and, if it has
      checked out the first cell, checks the same value in again. */
  function Step(s: State, t: nat): State
    requires InRange(s, t)
  {
    match s.pcs[t]
    case Idle => s
    case LoadFirst(op) =>
      if s.cells[op.first].Some? then Goto(s, t, CasFirst(op, s.cells[op.first].value))
      else if op.blocking then s
      else Goto(s, t, Idle)
    case CasFirst(op, seen) =>
      if s.cells[op.first] == Some(seen) then Goto(s, t, LoadLast(op, seen)).(cells := s.cells[op.first := None])
      else Goto(s, t, if op.blocking then LoadFirst(op) else Idle)
    case LoadLast(op, held) =>
      if s.cells[op.last].Some? then Goto(s, t, CasLast(op, held, s.cells[op.last].value))
      else if op.blocking then s
      else Goto(s, t, Store(op, held, false))
    case CasLast(op, held, seen) =>
      if s.cells[op.last] == Some(seen) then
        Goto(s, t, Store(op, seen, true)).(cells := s.cells[op.last := Some(held)],
                                           log := s.log + [Commit(t, op.first, op.last)])
      else Goto(s, t, if op.blocking then LoadLast(op, held) else Store(op, held, false))
    case Store(op, held, swapped) =>
      Goto(s, t, Idle).(cells := s.cells[op.first := Some(held)],
                        returned := if swapped
                                    then s.returned[t := s.returned[t] + [Commit(t, op.first, op.last)]]
                                    else s.returned)
  }

  function Initial(init: seq<nat>, threads: nat): State {
    State(seq(|init|, i requires 0 <= i < |init| => Some(init[i])), seq(threads, _ => Idle), [],
          seq(threads, _ => []))
  }

  /** One step of some thread; new operations are on two different cells. */
  ghost predicate Next(s: State, s': State) {
    exists t: nat :: ThreadStep(s, s', t)
  }

  ghost predicate ThreadStep(s: State, s': State, t: nat) {
    InRange(s, t) &&
    if s.pcs[t] != Idle then s' == Step(s, t)
    else exists a: nat, b: nat, blocking ::
           a < |s.cells| && b < |s.cells| && a != b && s' == Start(s, t, a, b, blocking)
  }

  ghost predicate IsRun(init: seq<nat>, threads: nat, run: seq<State>) {
    |run| > 0 && run[0] == Initial(init, threads) && forall i :: 0 < i < |run| ==> Next(run[i - 1], run[i])
  }

  // ---------------------------------------------------------------- the atomic specification

  function SwapAt(v: seq<nat>, i: nat, j: nat): (r: seq<nat>)
    ensures |r| == |v|
  {
    if i < |v| && j < |v| then v[i := v[j]][j := v[i]] else v
  }

  /** The initial contents after a list of atomic swaps. */
  function Swapped(init: seq<nat>, log: seq<Commit>): (r: seq<nat>)
    ensures |r| == |init|
  {
    if log == [] then init
    else SwapAt(Swapped(init, log[..|log| - 1]), log[|log| - 1].first, log[|log| - 1].last)
  }

  /** The commits of one thread. */
  function ByThread(log: seq<Commit>, t: nat): seq<Commit> {
    if log == [] then []
    else
      var before := ByThread(log[..|log| - 1], t);
      if log[|log| - 1].thread == t then before + [log[|log| - 1]] else before
  }

  lemma LogSnoc(init: seq<nat>, log: seq<Commit>, c: Commit)
    ensures Swapped(init, log + [c]) == SwapAt(Swapped(init, log), c.first, c.last)
    ensures forall t :: ByThread(log + [c], t) == if c.thread == t then ByThread(log, t) + [c] else ByThread(log, t)
  {
    assert (log + [c])[..|log|] == log;
  }

  predicate Holding(pc: Pc) {
    pc.LoadLast? || pc.CasLast? || pc.Store?
  }

  /** Thread t has checked out cell i. */
  predicate Holds(pcs: seq<Pc>, t: nat, i: nat) {
    t < |pcs| && Holding(pcs[t]) && pcs[t].op.first == i
  }

  ghost predicate IsHeld(pcs: seq<Pc>, i: nat) {
    exists t: nat :: Holds(pcs, t, i)
  }

  /** The cells stand for `view`: a cell that is checked out has the value that its one holder will check in. */
  ghost predicate Refines(cells: seq<Option<nat>>, pcs: seq<Pc>, view: seq<nat>) {
    && |view| == |cells|
    && (forall i :: 0 <= i < |view| && cells[i].Some? ==> cells[i].value == view[i])
    && (forall t: nat, i: nat :: Holds(pcs, t, i) ==> i < |view| && cells[i].None? && pcs[t].held == view[i])
    && (forall i: nat :: i < |view| && cells[i].None? ==> IsHeld(pcs, i))
    && (forall t: nat, u: nat, i: nat :: Holds(pcs, t, i) && Holds(pcs, u, i) ==> t == u)
  }

  /** A thread's commits are its completed swaps, in the same order, and the one that has not returned yet. */
  predicate Committed(commits: seq<Commit>, returned: seq<Commit>, pc: Pc, t: nat) {
    commits == if pc.Store? && pc.swapped then returned + [Commit(t, pc.op.first, pc.op.last)] else returned
  }

  ghost predicate HistoryOk(s: State) {
    |s.returned| == |s.pcs|
    && forall t :: 0 <= t < |s.pcs| ==> Committed(ByThread(s.log, t), s.returned[t], s.pcs[t], t)
  }

  /** Operations are on two existing cells in ascending order, and a blocking one checks in only after it has swapped. */
  ghost predicate OpsOk(s: State) {
    forall t :: 0 <= t < |s.pcs| && s.pcs[t] != Idle ==> OpOk(s.pcs[t].op, |s.cells|) && SwapsFirst(s.pcs[t])
  }

  predicate SwapsFirst(pc: Pc) {
    pc.Store? && pc.op.blocking ==> pc.swapped
  }

  ghost predicate Inv(init: seq<nat>, s: State) {
    |s.cells| == |init| && |s.returned| == |s.pcs| && OpsOk(s) && HistoryOk(s) && Refines(s.cells, s.pcs, Swapped(init, s.log))
  }

  /** A step of a thread that keeps what it holds. */
  lemma SameHolder(cells: seq<Option<nat>>, pcs: seq<Pc>, view: seq<nat>, t: nat, pc: Pc)
    requires Refines(cells, pcs, view) && t < |pcs| && Holding(pc) == Holding(pcs[t])
    requires Holding(pc) ==> pc.op.first == pcs[t].op.first && pc.held == pcs[t].held
    ensures Refines(cells, pcs[t := pc], view)
  {
    var pcs' := pcs[t := pc];
    assert forall u: nat, i: nat :: Holds(pcs', u, i) <==> Holds(pcs, u, i);
    StillHeld(pcs, pcs');
    assert forall u: nat, i: nat :: Holds(pcs', u, i) ==> pcs'[u].held == view[i];
  }

  lemma StillHeld(pcs: seq<Pc>, pcs': seq<Pc>)
    requires forall u: nat, i: nat :: Holds(pcs, u, i) ==> Holds(pcs', u, i)
    ensures forall i: nat :: IsHeld(pcs, i) ==> IsHeld(pcs', i)
  {
  }

  /** Checkout. */
  lemma CheckoutKeeps(cells: seq<Option<nat>>, pcs: seq<Pc>, view: seq<nat>, t: nat, pc: Pc)
    requires Refines(cells, pcs, view) && t < |pcs| && !Holding(pcs[t]) && Holding(pc)
    requires pc.op.first < |cells| && cells[pc.op.first] == Some(pc.held)
    ensures Refines(cells[pc.op.first := None], pcs[t := pc], view)
  {
    var pcs' := pcs[t := pc];
    assert forall u: nat, i: nat :: Holds(pcs', u, i) <==> Holds(pcs, u, i) || (u == t && i == pc.op.first);
  }

  /** The compare-and-set on the higher cell swaps the two values that the cells stand for. */
  lemma CommitKeeps(cells: seq<Option<nat>>, pcs: seq<Pc>, view: seq<nat>, t: nat, pc: Pc)
    requires Refines(cells, pcs, view) && t < |pcs| && Holding(pcs[t]) && Holding(pc) && pc.op == pcs[t].op
    requires OpOk(pc.op, |cells|) && cells[pc.op.last] == Some(pc.held)
    ensures Refines(cells[pc.op.last := Some(pcs[t].held)], pcs[t := pc], SwapAt(view, pc.op.first, pc.op.last))
  {
    var pcs', view' := pcs[t := pc], SwapAt(view, pc.op.first, pc.op.last);
    assert Holds(pcs, t, pc.op.first);
    assert forall u: nat, i: nat :: Holds(pcs', u, i) <==> Holds(pcs, u, i);
    StillHeld(pcs, pcs');
    assert forall u: nat, i: nat :: Holds(pcs', u, i) ==> i != pc.op.last && pcs'[u].held == view'[i];
  }

  /** Checkin. */
  lemma CheckinKeeps(cells: seq<Option<nat>>, pcs: seq<Pc>, view: seq<nat>, t: nat)
    requires Refines(cells, pcs, view) && t < |pcs| && Holding(pcs[t])
    requires pcs[t].op.first < |cells|
    ensures Refines(cells[pcs[t].op.first := Some(pcs[t].held)], pcs[t := Idle], view)
  {
    var pcs' := pcs[t := Idle];
    assert Holds(pcs, t, pcs[t].op.first);
    assert forall u: nat, i: nat :: Holds(pcs', u, i) <==> Holds(pcs, u, i) && u != t;
    forall i: nat | i < |view| && i != pcs[t].op.first && cells[i].None?
      ensures IsHeld(pcs', i)
    {
      var u: nat :| Holds(pcs, u, i);
      assert Holds(pcs', u, i);
    }
  }

  lemma StartKeeps(init: seq<nat>, s: State, t: nat, a: nat, b: nat, blocking: bool)
    requires Inv(init, s) && t < |s.pcs| && s.pcs[t] == Idle && a < |s.cells| && b < |s.cells| && a != b
    ensures Inv(init, Start(s, t, a, b, blocking))
  {
    SameHolder(s.cells, s.pcs, Swapped(init, s.log), t, Start(s, t, a, b, blocking).pcs[t]);
    hide Refines;
  }

  lemma StepHistory(s: State, t: nat)
    requires HistoryOk(s) && InRange(s, t)
    ensures HistoryOk(Step(s, t))
  {
    hide ByThread, Swapped;
    var s', pc := Step(s, t), s.pcs[t];
    assert Committed(ByThread(s.log, t), s.returned[t], pc, t);
    if pc.CasLast? {
      LogSnoc([], s.log, Commit(t, pc.op.first, pc.op.last));
    }
    forall u | 0 <= u < |s.pcs| && u != t
      ensures ByThread(s'.log, u) == ByThread(s.log, u) && s'.returned[u] == s.returned[u] && s'.pcs[u] == s.pcs[u]
    {
    }
  }

  lemma StepOps(s: State, t: nat)
    requires OpsOk(s) && InRange(s, t)
    ensures OpsOk(Step(s, t))
  {
  }

  lemma StepKeeps(init: seq<nat>, s: State, t: nat)
    requires Inv(init, s) && t < |s.pcs| && s.pcs[t] != Idle
    ensures Inv(init, Step(s, t))
  {
    hide Refines, HistoryOk, Swapped, SwapAt, ByThread;
    StepHistory(s, t);
    StepOps(s, t);
    var view, s' := Swapped(init, s.log), Step(s, t);
    match s.pcs[t] {
      case CasFirst(op, seen) =>
        if s.cells[op.first] == Some(seen) {
          CheckoutKeeps(s.cells, s.pcs, view, t, s'.pcs[t]);
        } else {
          SameHolder(s.cells, s.pcs, view, t, s'.pcs[t]);
        }
      case CasLast(op, held, seen) =>
        if s.cells[op.last] == Some(seen) {
          CommitKeeps(s.cells, s.pcs, view, t, s'.pcs[t]);
          LogSnoc(init, s.log, Commit(t, op.first, op.last));
        } else {
          SameHolder(s.cells, s.pcs, view, t, s'.pcs[t]);
        }
      case Store(op, held, swapped) =>
        CheckinKeeps(s.cells, s.pcs, view, t);
      case LoadFirst(_) =>
        SameHolder(s.cells, s.pcs, view, t, s'.pcs[t]);
      case LoadLast(_, _) =>
        SameHolder(s.cells, s.pcs, view, t, s'.pcs[t]);
    }
  }

  // ---------------------------------------------------------------- every run

  lemma InitialInv(init: seq<nat>, threads: nat)
    ensures Inv(init, Initial(init, threads))
  {
  }

  /** The invariant holds after every run: the cells always stand for the initial contents after the swaps whose
      compare-and-set on the higher cell has happened, one after another in that order. */
  lemma {:induction false} RunKeepsInv(init: seq<nat>, threads: nat, run: seq<State>)
    requires IsRun(init, threads, run)
    ensures Inv(init, run[|run| - 1])
    decreases |run|
  {
    hide Inv;
    if |run| == 1 {
      InitialInv(init, threads);
    } else {
      var before := run[..|run| - 1];
      RunKeepsInv(init, threads, before);
      var s, s' := run[|run| - 2], run[|run| - 1];
      assert before[|before| - 1] == s && Next(s, s');
      var t: nat :| ThreadStep(s, s', t);
      if s.pcs[t] != Idle {
        StepKeeps(init, s, t);
      } else {
        var a: nat, b: nat, blocking :| a < |s.cells| && b < |s.cells| && a != b && s' == Start(s, t, a, b, blocking);
        StartKeeps(init, s, t, a, b, blocking);
      }
    }
  }

  predicate AllIdle(s: State) {
    forall t :: 0 <= t < |s.pcs| ==> s.pcs[t] == Idle
  }

  /** Linearizability: when no operation is running, the cells hold what the committed swaps give when they are done
      one after another, and each thread's commits are exactly the swaps that returned to it, in its own order. */
  lemma QuiescentIsSerial(init: seq<nat>, threads: nat, run: seq<State>)
    requires IsRun(init, threads, run)
    requires AllIdle(run[|run| - 1])
    ensures var s := run[|run| - 1];
            |s.cells| == |init| && |s.returned| == |s.pcs|
            && (forall i :: 0 <= i < |init| ==> s.cells[i] == Some(Swapped(init, s.log)[i]))
            && forall t :: 0 <= t < |s.pcs| ==> ByThread(s.log, t) == s.returned[t]
  {
    RunKeepsInv(init, threads, run);
    var s := run[|run| - 1];
    forall i | 0 <= i < |init|
      ensures s.cells[i] == Some(Swapped(init, s.log)[i])
    {
      assert IsHeld(s.pcs, i) ==> false;
    }
    forall t | 0 <= t < |s.pcs|
      ensures ByThread(s.log, t) == s.returned[t]
    {
      assert Committed(ByThread(s.log, t), s.returned[t], s.pcs[t], t);
    }
  }

  // ---------------------------------------------------------------- conservation

  function One(v: Option<nat>): multiset<nat> {
    if v.Some? then multiset{v.value} else multiset{}
  }

  function Values(vs: seq<Option<nat>>): multiset<nat> {
    if vs == [] then multiset{} else One(vs[0]) + Values(vs[1..])
  }

  lemma Assoc(a: multiset<nat>, b: multiset<nat>, c: multiset<nat>)
    ensures (a + b) + c == a + (b + c)
  {
  }

  lemma {:induction false} ValuesUpdate(vs: seq<Option<nat>>, i: nat, v: Option<nat>)
    requires i < |vs|
    ensures Values(vs[i := v]) + One(vs[i]) == Values(vs) + One(v)
  {
    if i == 0 {
      assert vs[0 := v][1..] == vs[1..];
    } else {
      assert vs[i := v][1..] == vs[1..][i - 1 := v];
      ValuesUpdate(vs[1..], i - 1, v);
      Assoc(One(vs[0]), Values(vs[i := v][1..]), One(vs[i]));
      Assoc(One(vs[0]), Values(vs[1..]), One(v));
    }
  }

  function HeldOf(pc: Pc): Option<nat> {
    if Holding(pc) then Some(pc.held) else None
  }

  function Hands(pcs: seq<Pc>): (r: seq<Option<nat>>) {
    seq(|pcs|, t requires 0 <= t < |pcs| => HeldOf(pcs[t]))
  }

  /** The values in cells and in the hands of threads. */
  function Total(s: State): multiset<nat> {
    Values(s.cells) + Values(Hands(s.pcs))
  }

  lemma HandsUpdate(pcs: seq<Pc>, t: nat, pc: Pc)
    requires t < |pcs|
    ensures Values(Hands(pcs[t := pc])) + One(HeldOf(pcs[t])) == Values(Hands(pcs)) + One(HeldOf(pc))
  {
    assert Hands(pcs[t := pc]) == Hands(pcs)[t := HeldOf(pc)];
    ValuesUpdate(Hands(pcs), t, HeldOf(pc));
  }

  lemma Cancel(a: multiset<nat>, b: multiset<nat>, a': multiset<nat>, b': multiset<nat>,
               x: multiset<nat>, y: multiset<nat>, x': multiset<nat>, y': multiset<nat>)
    requires a' + x == a + x' && b' + y == b + y' && x + y == x' + y'
    ensures a' + b' == a + b
  {
    forall v
      ensures (a' + b')[v] == (a + b)[v]
    {
      assert (a' + x)[v] == (a + x')[v] && (b' + y)[v] == (b + y')[v] && (x + y)[v] == (x' + y')[v];
    }
  }

  /** A cell and a hand either keep what they have or exchange it. */
  predicate Exchanged(cell: Option<nat>, hand: Option<nat>, cell': Option<nat>, hand': Option<nat>) {
    (cell' == cell && hand' == hand) || (cell' == hand && hand' == cell)
  }

  lemma TotalMove(cells: seq<Option<nat>>, pcs: seq<Pc>, i: nat, v: Option<nat>, t: nat, pc: Pc)
    requires i < |cells| && t < |pcs|
    requires Exchanged(cells[i], HeldOf(pcs[t]), v, HeldOf(pc))
    ensures Values(cells[i := v]) + Values(Hands(pcs[t := pc])) == Values(cells) + Values(Hands(pcs))
  {
    hide Values, Hands;
    HandsUpdate(pcs, t, pc);
    ValuesUpdate(cells, i, v);
    Cancel(Values(cells), Values(Hands(pcs)), Values(cells[i := v]), Values(Hands(pcs[t := pc])),
           One(cells[i]), One(HeldOf(pcs[t])), One(v), One(HeldOf(pc)));
  }

  /** A step touches at most one cell and one hand. */
  lemma StepTouches(s: State, t: nat, i: nat)
    requires InRange(s, t) && s.pcs[t] != Idle && OpOk(s.pcs[t].op, |s.cells|)
    requires i == if s.pcs[t].CasLast? then s.pcs[t].op.last else s.pcs[t].op.first
    requires Holding(s.pcs[t]) ==> s.cells[s.pcs[t].op.first].None?
    ensures var s' := Step(s, t);
            |s'.cells| == |s.cells| && |s'.pcs| == |s.pcs|
            && s'.cells == s.cells[i := s'.cells[i]] && s'.pcs == s.pcs[t := s'.pcs[t]]
            && Exchanged(s.cells[i], HeldOf(s.pcs[t]), s'.cells[i], HeldOf(s'.pcs[t]))
  {
    assert s.cells == s.cells[i := s.cells[i]];
  }

  lemma StepConserves(init: seq<nat>, s: State, t: nat)
    requires Inv(init, s) && t < |s.pcs| && s.pcs[t] != Idle
    ensures Total(Step(s, t)) == Total(s)
  {
    hide Values, Hands, Swapped, ByThread, HistoryOk;
    var s', pc := Step(s, t), s.pcs[t];
    assert Holding(pc) ==> Holds(s.pcs, t, pc.op.first);
    var i := if pc.CasLast? then pc.op.last else pc.op.first;
    StepTouches(s, t, i);
    hide Step, Inv, Refines;
    TotalMove(s.cells, s.pcs, i, s'.cells[i], t, s'.pcs[t]);
  }

  lemma InitialTotal(init: seq<nat>, threads: nat)
    ensures Total(Initial(init, threads)) == multiset(init)
  {
    var s := Initial(init, threads);
    AllValues(init);
    NoHands(s.pcs);
  }

  lemma {:induction false} AllValues(init: seq<nat>)
    ensures Values(Initial(init, 0).cells) == multiset(init)
  {
    if init != [] {
      AllValues(init[1..]);
      assert Initial(init, 0).cells[1..] == Initial(init[1..], 0).cells;
      assert init == [init[0]] + init[1..];
    }
  }

  lemma {:induction false} NoHands(pcs: seq<Pc>)
    requires forall t :: 0 <= t < |pcs| ==> pcs[t] == Idle
    ensures Values(Hands(pcs)) == multiset{}
  {
    if pcs != [] {
      NoHands(pcs[1..]);
      assert Hands(pcs)[1..] == Hands(pcs[1..]);
    }
  }

  /** Conservation: after every run, the cells and the hands of the threads together hold each initial pointer as
      often as at the start. */
  lemma {:induction false} RunConserves(init: seq<nat>, threads: nat, run: seq<State>)
    requires IsRun(init, threads, run)
    ensures Total(run[|run| - 1]) == multiset(init)
    decreases |run|
  {
    hide Inv, Values, Hands, Step, HeldOf;
    if |run| == 1 {
      InitialTotal(init, threads);
    } else {
      var before := run[..|run| - 1];
      RunConserves(init, threads, before);
      RunKeepsInv(init, threads, before);
      var s, s' := run[|run| - 2], run[|run| - 1];
      assert before[|before| - 1] == s && Next(s, s');
      var t: nat :| ThreadStep(s, s', t);
      if s.pcs[t] != Idle {
        StepConserves(init, s, t);
      } else {
        StartConserves(s, s', t);
      }
    }
  }

  lemma StartConserves(s: State, s': State, t: nat)
    requires ThreadStep(s, s', t) && s.pcs[t] == Idle
    ensures Total(s') == Total(s)
  {
    hide Values, Hands;
    HandsUpdate(s.pcs, t, s'.pcs[t]);
    assert forall m: multiset<nat> :: m + multiset{} == m;
  }

  // ---------------------------------------------------------------- what one operation does

  /** A step of another thread. */
  lemma OthersStay(s: State, s': State, t: nat, u: nat)
    requires ThreadStep(s, s', u) && t != u && t < |s.pcs| == |s.returned|
    ensures t < |s'.pcs| == |s'.returned| && s'.pcs[t] == s.pcs[t] && s'.returned[t] == s.returned[t]
  {
  }

  /** Thread t is inside an operation on the cells a and b. */
  predicate Within(s: State, t: nat, op: Op, returned: seq<Commit>) {
    t < |s.pcs| == |s.returned| && s.pcs[t] != Idle && s.pcs[t].op == op && s.returned[t] == returned
  }

  /** The operation of t cannot go on as planned: the cell it needs is checked out, or has changed since it was loaded. */
  predicate Disturbed(s: State, t: nat)
    requires t < |s.pcs| && InRange(s, t)
  {
    match s.pcs[t]
    case LoadFirst(op) => s.cells[op.first] == None
    case CasFirst(op, seen) => s.cells[op.first] != Some(seen)
    case LoadLast(op, _) => s.cells[op.last] == None
    case CasLast(op, _, seen) => s.cells[op.last] != Some(seen)
    case _ => false
  }

  /** A step inside an operation keeps it, or ends it. A blocking one ends with its commit; the other kind also ends
      without, when it was disturbed in this step or an earlier one. */
  lemma StepWithin(s: State, t: nat, op: Op, returned: seq<Commit>)
    requires InRange(s, t) && Within(s, t, op, returned) && SwapsFirst(s.pcs[t])
    ensures var s' := Step(s, t);
            && |s'.pcs| == |s.pcs| && |s'.returned| == |s.returned|
            && (s'.pcs[t] != Idle ==> Within(s', t, op, returned))
            && (s'.pcs[t] == Idle ==>
                  || s'.returned[t] == returned + [Commit(t, op.first, op.last)]
                  || (!op.blocking && s'.returned[t] == returned && (Disturbed(s, t) || NotSwapped(s.pcs[t]))))
    ensures NotSwapped(Step(s, t).pcs[t]) ==> Disturbed(s, t) || NotSwapped(s.pcs[t])
  {
  }

  /** About to check in the value that was checked out. */
  predicate NotSwapped(pc: Pc) {
    pc.Store? && !pc.swapped
  }

  /** How many steps of its own a TrySwap still takes at most. */
  function TryStepsLeft(pc: Pc): nat {
    match pc
    case Idle => 0
    case LoadFirst(_) => 5
    case CasFirst(_, _) => 4
    case LoadLast(_, _) => 3
    case CasLast(_, _, _) => 2
    case Store(_, _, _) => 1
  }

  /** A TrySwap never waits: in every state each step of its thread brings it nearer to its end, so it ends after at most
      five of them, whatever other threads do between. */
  lemma TrySwapNeverWaits(s: State, s': State, t: nat, u: nat)
    requires InRange(s, t) && s.pcs[t] != Idle && !s.pcs[t].op.blocking && ThreadStep(s, s', u)
    ensures t < |s'.pcs| && TryStepsLeft(s'.pcs[t]) + (if u == t then 1 else 0) <= TryStepsLeft(s.pcs[t]) <= 5
    ensures s'.pcs[t] == Idle || (s'.pcs[t].op == s.pcs[t].op && u != t ==> s'.pcs[t] == s.pcs[t])
  {
  }

  /** Thread t took a step at position m of a run and was disturbed there. */
  ghost predicate DisturbedAt(run: seq<State>, t: nat, m: nat) {
    && m + 1 < |run| && t < |run[m].pcs| && InRange(run[m], t) && run[m].pcs[t] != Idle
    && ThreadStep(run[m], run[m + 1], t) && Disturbed(run[m], t)
  }

  ghost predicate EverDisturbed(run: seq<State>, t: nat, i: nat, j: nat) {
    exists m: nat :: i < m < j && DisturbedAt(run, t, m)
  }

  /** From position i to position j of a run thread t does one operation: it starts there, ends here, and is inside of
      it between. */
  ghost predicate OneOperation(run: seq<State>, t: nat, i: nat, j: nat, a: nat, b: nat, blocking: bool) {
    && i + 1 < j < |run| && t < |run[i].pcs| && run[i].pcs[t] == Idle && run[i + 1] == Start(run[i], t, a, b, blocking)
    && (forall m :: i < m < j ==> t < |run[m].pcs| && run[m].pcs[t] != Idle)
    && t < |run[j].pcs| && run[j].pcs[t] == Idle
  }

  lemma RunStep(init: seq<nat>, threads: nat, run: seq<State>, m: nat) returns (u: nat)
    requires IsRun(init, threads, run) && 0 < m < |run|
    ensures ThreadStep(run[m - 1], run[m], u) && Inv(init, run[m - 1]) && Inv(init, run[m])
  {
    hide Inv;
    RunKeepsInv(init, threads, run[..m]);
    RunKeepsInv(init, threads, run[..m + 1]);
    assert Next(run[m - 1], run[m]);
    u :| ThreadStep(run[m - 1], run[m], u);
  }

  /** While the operation lasts it stays the same one, nothing returns, and a value is checked in unchanged only after
      a disturbance. */
  lemma {:induction false} OperationLasts(init: seq<nat>, threads: nat, run: seq<State>, t: nat, i: nat, j: nat,
                                          a: nat, b: nat, blocking: bool, m: nat)
    requires IsRun(init, threads, run) && OneOperation(run, t, i, j, a, b, blocking) && i < m < j
    ensures t < |run[i].returned| && Inv(init, run[m])
    ensures Within(run[m], t, if a < b then Op(a, b, blocking) else Op(b, a, blocking), run[i].returned[t])
    ensures NotSwapped(run[m].pcs[t]) ==> EverDisturbed(run, t, i, m)
    decreases m
  {
    hide Inv, ThreadStep, Step, Disturbed, InRange;
    var op := if a < b then Op(a, b, blocking) else Op(b, a, blocking);
    var u := RunStep(init, threads, run, m);
    InvSizes(init, run[m - 1]);
    if m == i + 1 {
      return;
    }
    OperationLasts(init, threads, run, t, i, j, a, b, blocking, m - 1);
    LaterStep(init, run, t, u, i, m, op, run[i].returned[t]);
  }

  lemma InvSizes(init: seq<nat>, s: State)
    requires Inv(init, s)
    ensures |s.returned| == |s.pcs|
  {
  }

  lemma OneStepWithin(init: seq<nat>, s: State, s': State, t: nat, op: Op, returned: seq<Commit>)
    requires Inv(init, s) && Within(s, t, op, returned) && ThreadStep(s, s', t)
    ensures |s'.pcs| == |s.pcs| && |s'.returned| == |s.returned| && InRange(s, t)
    ensures s'.pcs[t] != Idle ==> Within(s', t, op, returned)
    ensures s'.pcs[t] == Idle ==>
              || s'.returned[t] == returned + [Commit(t, op.first, op.last)]
              || (!op.blocking && s'.returned[t] == returned && (Disturbed(s, t) || NotSwapped(s.pcs[t])))
    ensures NotSwapped(s'.pcs[t]) ==> Disturbed(s, t) || NotSwapped(s.pcs[t])
  {
    hide Step, Disturbed, HistoryOk, Refines;
    StepWithin(s, t, op, returned);
  }

  lemma LaterStep(init: seq<nat>, run: seq<State>, t: nat, u: nat, i: nat, m: nat, op: Op, returned: seq<Commit>)
    requires i + 1 < m < |run| && Inv(init, run[m - 1]) && ThreadStep(run[m - 1], run[m], u)
    requires Within(run[m - 1], t, op, returned) && (NotSwapped(run[m - 1].pcs[t]) ==> EverDisturbed(run, t, i, m - 1))
    ensures t < |run[m].pcs| == |run[m].returned|
    ensures run[m].pcs[t] != Idle ==>
              Within(run[m], t, op, returned) && (NotSwapped(run[m].pcs[t]) ==> EverDisturbed(run, t, i, m))
    ensures run[m].pcs[t] == Idle ==>
              || run[m].returned[t] == returned + [Commit(t, op.first, op.last)]
              || (!op.blocking && run[m].returned[t] == returned && EverDisturbed(run, t, i, m))
  {
    hide Inv, Step, Disturbed, InRange;
    if u == t {
      OneStepWithin(init, run[m - 1], run[m], t, op, returned);
      assert Disturbed(run[m - 1], t) ==> DisturbedAt(run, t, m - 1);
    } else {
      OthersStay(run[m - 1], run[m], t, u);
    }
    assert EverDisturbed(run, t, i, m - 1) ==> EverDisturbed(run, t, i, m);
  }

  /** One operation of thread t on the cells a and b: it returns with exactly one more swap of the two cells, which is
      also its only new commit in the log; or, if it is not blocking, without any, and then it was disturbed. */
  lemma OperationOutcome(init: seq<nat>, threads: nat, run: seq<State>, t: nat, i: nat, j: nat,
                         a: nat, b: nat, blocking: bool)
    requires IsRun(init, threads, run) && OneOperation(run, t, i, j, a, b, blocking)
    ensures t < |run[i].returned| && t < |run[j].returned|
    ensures var commit := if a < b then Commit(t, a, b) else Commit(t, b, a);
            || (run[j].returned[t] == run[i].returned[t] + [commit]
                && ByThread(run[j].log, t) == ByThread(run[i].log, t) + [commit])
            || (!blocking && run[j].returned[t] == run[i].returned[t]
                && ByThread(run[j].log, t) == ByThread(run[i].log, t) && EverDisturbed(run, t, i, j))
  {
    hide Inv, Step, Disturbed, InRange, ThreadStep, ByThread;
    var op := if a < b then Op(a, b, blocking) else Op(b, a, blocking);
    OperationLasts(init, threads, run, t, i, j, a, b, blocking, j - 1);
    var u := RunStep(init, threads, run, j);
    LaterStep(init, run, t, u, i, j, op, run[i].returned[t]);
    var v := RunStep(init, threads, run, i + 1);
    IdleHistory(init, run[i], t);
    IdleHistory(init, run[j], t);
  }

  lemma IdleHistory(init: seq<nat>, s: State, t: nat)
    requires Inv(init, s) && t < |s.pcs| && s.pcs[t] == Idle
    ensures t < |s.returned| && ByThread(s.log, t) == s.returned[t]
  {
    hide ByThread, Refines;
    assert Committed(ByThread(s.log, t), s.returned[t], s.pcs[t], t);
  }

  /** A Swap that has ended has swapped, exactly once. */
  lemma SwapSwaps(init: seq<nat>, threads: nat, run: seq<State>, t: nat, i: nat, j: nat, a: nat, b: nat)
    requires IsRun(init, threads, run) && OneOperation(run, t, i, j, a, b, true)
    ensures t < |run[i].returned| && t < |run[j].returned|
    ensures var commit := if a < b then Commit(t, a, b) else Commit(t, b, a);
            && run[j].returned[t] == run[i].returned[t] + [commit]
            && ByThread(run[j].log, t) == ByThread(run[i].log, t) + [commit]
  {
    hide IsRun, OneOperation, ByThread;
    OperationOutcome(init, threads, run, t, i, j, a, b, true);
  }

  // ---------------------------------------------------------------- deadlock freedom

  /** Thread t is inside an operation but waits for a cell that another thread has checked out. */
  predicate Spinning(s: State, t: nat)
    requires t < |s.pcs| && InRange(s, t)
  {
    || (s.pcs[t].LoadFirst? && s.pcs[t].op.blocking && s.cells[s.pcs[t].op.first].None?)
    || (s.pcs[t].LoadLast? && s.pcs[t].op.blocking && s.cells[s.pcs[t].op.last].None?)
  }

  /** Following the holders of ever higher cells leads to one that does not wait. */
  lemma {:induction false} FreeHolder(init: seq<nat>, s: State, t: nat) returns (u: nat)
    requires Inv(init, s) && t < |s.pcs| && Holding(s.pcs[t])
    ensures u < |s.pcs| && Holding(s.pcs[u]) && (s.pcs[u].Store? || s.cells[s.pcs[u].op.last].Some?)
    decreases |s.cells| - s.pcs[t].op.first
  {
    u := t;
    var op := s.pcs[t].op;
    if !s.pcs[t].Store? && s.cells[op.last].None? {
      assert IsHeld(s.pcs, op.last);
      var w: nat :| Holds(s.pcs, w, op.last);
      u := FreeHolder(init, s, w);
    }
  }

  /** A thread that needs no cell which another one has checked out. */
  predicate Free(s: State, t: nat)
    requires t < |s.pcs| && InRange(s, t)
  {
    var pc := s.pcs[t];
    && pc != Idle
    && (pc.Store? || s.cells[pc.op.last].Some?)
    && (Holding(pc) || s.cells[pc.op.first].Some?)
  }

  /** In every reachable state with an unfinished operation, some thread does not wait. */
  lemma SomeoneIsFree(init: seq<nat>, s: State, t: nat) returns (u: nat)
    requires Inv(init, s) && t < |s.pcs| && s.pcs[t] != Idle
    ensures u < |s.pcs| && Free(s, u) && !Spinning(s, u) && Step(s, u) != s
  {
    if w: nat :| w < |s.pcs| && Holding(s.pcs[w]) {
      u := FreeHolder(init, s, w);
    } else {
      u := t;
      assert forall i: nat :: !IsHeld(s.pcs, i);
    }
    assert Step(s, u).pcs[u] != s.pcs[u];
  }

  /** Let the threads of a list take one step each, in that order. */
  function Play(s: State, ts: seq<nat>): State
    decreases |ts|
  {
    if ts == [] then s else Play(if InRange(s, ts[0]) then Step(s, ts[0]) else s, ts[1..])
  }

  lemma {:induction false} PlayAppend(s: State, ts: seq<nat>, us: seq<nat>)
    ensures Play(s, ts + us) == Play(Play(s, ts), us)
    decreases |ts|
  {
    if ts == [] {
      assert ts + us == us;
    } else {
      assert (ts + us)[1..] == ts[1..] + us;
      PlayAppend(if InRange(s, ts[0]) then Step(s, ts[0]) else s, ts[1..], us);
    }
  }

  function StepsLeft(s: State, t: nat): nat
    requires t < |s.pcs| && InRange(s, t)
  {
    match s.pcs[t]
    case Idle => 0
    case Store(_, _, _) => 1
    case CasLast(op, _, seen) => if s.cells[op.last] == Some(seen) then 2 else 4
    case LoadLast(_, _) => 3
    case CasFirst(op, seen) => if s.cells[op.first] == Some(seen) then 4 else 6
    case LoadFirst(_) => 5
  }

  /** What a thread has loaded is still there, and it does not give up. */
  predicate Current(s: State, t: nat)
    requires t < |s.pcs| && InRange(s, t)
  {
    match s.pcs[t]
    case CasFirst(op, seen) => s.cells[op.first] == Some(seen)
    case CasLast(op, _, seen) => s.cells[op.last] == Some(seen)
    case Store(_, _, swapped) => swapped
    case _ => true
  }

  /** What a thread has returned, after the operation that it was in has ended. */
  predicate Ended(pc: Pc, t: nat, certain: bool, before: seq<Commit>, after: seq<Commit>) {
    if pc == Idle then after == before
    else || after == before + [Commit(t, pc.op.first, pc.op.last)]
         || (!certain && after == before)
  }

  lemma FreeStep(init: seq<nat>, s: State, t: nat)
    requires Inv(init, s) && t < |s.pcs| && Free(s, t)
    ensures InRange(s, t) && s.pcs[t] != Idle
    ensures var s' := Step(s, t);
            && |s'.pcs| == |s.pcs| && |s'.returned| == |s.returned| == |s.pcs|
            && s'.pcs == s.pcs[t := s'.pcs[t]] && s'.returned == s.returned[t := s'.returned[t]]
            && (s'.pcs[t] != Idle ==>
                  && InRange(s', t) && Free(s', t) && StepsLeft(s', t) < StepsLeft(s, t)
                  && s'.pcs[t].op == s.pcs[t].op && s'.returned[t] == s.returned[t]
                  && (Current(s, t) ==> Current(s', t)))
            && (s'.pcs[t] == Idle ==>
                  Ended(s.pcs[t], t, s.pcs[t].op.blocking || Current(s, t), s.returned[t], s'.returned[t]))
  {
    hide Refines, HistoryOk;
    assert OpOk(s.pcs[t].op, |s.cells|) && SwapsFirst(s.pcs[t]);
  }

  lemma PlayFirst(s: State, t: nat, ts: seq<nat>)
    requires InRange(s, t)
    ensures Play(s, [t] + ts) == Play(Step(s, t), ts)
  {
    assert ([t] + ts)[1..] == ts;
  }

  /** A free thread finishes its operation when it runs alone, with its swap if it is a blocking one or what it has
      loaded is still there. */
  lemma {:induction false} FinishThread(init: seq<nat>, s: State, t: nat) returns (ts: seq<nat>)
    requires Inv(init, s) && t < |s.pcs| && Free(s, t)
    ensures Inv(init, Play(s, ts)) && Play(s, ts).pcs == s.pcs[t := Idle]
    ensures |Play(s, ts).returned| == |s.returned| == |s.pcs|
    ensures Play(s, ts).returned == s.returned[t := Play(s, ts).returned[t]]
    ensures Ended(s.pcs[t], t, s.pcs[t].op.blocking || Current(s, t), s.returned[t], Play(s, ts).returned[t])
    decreases StepsLeft(s, t)
  {
    hide Inv, Step, Free, Current, StepsLeft, InRange;
    FreeStep(init, s, t);
    StepKeeps(init, s, t);
    var s' := Step(s, t);
    ts := [];
    if s'.pcs[t] != Idle {
      ts := FinishThread(init, s', t);
    }
    PlayFirst(s, t, ts);
    ts := [t] + ts;
  }

  function Active(pcs: seq<Pc>): set<nat> {
    set t: nat | t < |pcs| && pcs[t] != Idle
  }

  ghost predicate AllEnded(s: State, s': State) {
    && |s'.pcs| == |s.pcs| == |s.returned| == |s'.returned| && AllIdle(s')
    && forall t :: 0 <= t < |s.pcs| ==>
         Ended(s.pcs[t], t, s.pcs[t] != Idle && s.pcs[t].op.blocking, s.returned[t], s'.returned[t])
  }

  lemma EndedLater(s: State, s': State, s'': State, u: nat)
    requires u < |s.pcs| == |s.returned| == |s'.returned| && AllEnded(s', s'')
    requires s'.pcs == s.pcs[u := Idle] && s'.returned == s.returned[u := s'.returned[u]]
    requires Ended(s.pcs[u], u, s.pcs[u] != Idle && s.pcs[u].op.blocking, s.returned[u], s'.returned[u])
    ensures AllEnded(s, s'')
  {
    forall t | 0 <= t < |s.pcs|
      ensures Ended(s.pcs[t], t, s.pcs[t] != Idle && s.pcs[t].op.blocking, s.returned[t], s''.returned[t])
    {
      assert Ended(s'.pcs[t], t, s'.pcs[t] != Idle && s'.pcs[t].op.blocking, s'.returned[t], s''.returned[t]);
    }
  }

  lemma NothingActive(init: seq<nat>, s: State)
    requires Inv(init, s) && forall t: nat :: t < |s.pcs| ==> s.pcs[t] == Idle
    ensures AllEnded(s, s)
  {
    hide Refines, HistoryOk;
  }

  /** No reachable state is a deadlock: some schedule finishes all operations that are running, and the blocking ones
      have then swapped. */
  lemma {:induction false} CanFinish(init: seq<nat>, s: State) returns (ts: seq<nat>)
    requires Inv(init, s)
    ensures Inv(init, Play(s, ts)) && AllEnded(s, Play(s, ts))
    decreases |Active(s.pcs)|
  {
    hide Inv, Step, Holding, AllEnded, Ended, Current, Free;
    ts := [];
    if t: nat :| t < |s.pcs| && s.pcs[t] != Idle {
      var u := SomeoneIsFree(init, s, t);
      FreeIsActive(init, s, u);
      var now := FinishThread(init, s, u);
      var s' := Play(s, now);
      assert Active(s'.pcs) == Active(s.pcs) - {u} && u in Active(s.pcs);
      var later := CanFinish(init, s');
      PlayAppend(s, now, later);
      ts := now + later;
      InvSizes(init, s);
      LessCertain(s.pcs[u], u, Current(s, u), s.returned[u], s'.returned[u]);
      EndedLater(s, s', Play(s', later), u);
    } else {
      NothingActive(init, s);
    }
  }

  lemma FreeIsActive(init: seq<nat>, s: State, t: nat)
    requires Inv(init, s) && t < |s.pcs| && Free(s, t)
    ensures InRange(s, t) && s.pcs[t] != Idle
  {
    hide Refines, HistoryOk;
  }

  lemma LessCertain(pc: Pc, t: nat, more: bool, before: seq<Commit>, after: seq<Commit>)
    requires pc != Idle && Ended(pc, t, pc.op.blocking || more, before, after)
    ensures Ended(pc, t, pc.op.blocking, before, after)
  {
  }

  // ---------------------------------------------------------------- swaps of a cell with itself

  /** A cell that is checked out is empty and has one holder. */
  ghost predicate Exclusive(s: State) {
    && (forall t: nat, i: nat :: Holds(s.pcs, t, i) && i < |s.cells| ==> s.cells[i] == None)
    && (forall t: nat, u: nat, i: nat :: Holds(s.pcs, t, i) && Holds(s.pcs, u, i) ==> t == u)
  }

  lemma ReachableIsExclusive(init: seq<nat>, s: State)
    requires Inv(init, s)
    ensures Exclusive(s)
  {
  }

  /** Thread t is inside a blocking swap of cell a with itself, at any point before the second compare-and-set. */
  predicate InSelfSwap(s: State, t: nat, a: nat) {
    t < |s.pcs| == |s.returned| && a < |s.cells|
    && (s.pcs[t].LoadFirst? || s.pcs[t].CasFirst? || s.pcs[t].LoadLast?) && s.pcs[t].op == Op(a, a, true)
  }

  lemma ExclusiveStep(s: State, t: nat)
    requires Exclusive(s) && InRange(s, t) && t < |s.pcs| && s.pcs[t] != Idle
    ensures Exclusive(Step(s, t))
  {
    var s', pc := Step(s, t), s.pcs[t];
    if Holding(pc) {
      assert Holds(s.pcs, t, pc.op.first);
    }
    forall u: nat, i: nat | Holds(s'.pcs, u, i)
      ensures Holds(s.pcs, u, i) || (u == t && pc.CasFirst? && i == pc.op.first && s.cells[i].Some?)
      ensures i < |s'.cells| ==> s'.cells[i] == None
    {
    }
  }

  lemma ExclusiveStart(s: State, t: nat, a: nat, b: nat, blocking: bool)
    requires Exclusive(s) && t < |s.pcs|
    ensures Exclusive(Start(s, t, a, b, blocking))
  {
    assert forall u: nat, i: nat :: Holds(Start(s, t, a, b, blocking).pcs, u, i) ==> Holds(s.pcs, u, i);
  }

  lemma SelfSwapMoves(s: State, t: nat, a: nat)
    requires Exclusive(s) && InSelfSwap(s, t, a)
    ensures InSelfSwap(Step(s, t), t, a)
  {
    assert s.pcs[t].LoadLast? ==> Holds(s.pcs, t, a);
  }

  lemma SelfSwapStep(s: State, s': State, t: nat, a: nat)
    requires Exclusive(s) && InSelfSwap(s, t, a) && Next(s, s')
    ensures Exclusive(s') && InSelfSwap(s', t, a)
  {
    hide Exclusive, Holds;
    var u: nat :| ThreadStep(s, s', u);
    if s.pcs[u] != Idle {
      ExclusiveStep(s, u);
      SelfSwapMoves(s, t, a);
    } else {
      var b: nat, c: nat, blocking :| b < |s.cells| && c < |s.cells| && b != c && s' == Start(s, u, b, c, blocking);
      ExclusiveStart(s, u, b, c, blocking);
    }
  }

  /** Without the condition a != b the protocol does not work: in every run from there on, a thread that swaps a cell
      with itself waits for the value that it holds itself, and never returns. */
  lemma {:induction false} SelfSwapWaitsForever(init: seq<nat>, s: State, t: nat, a: nat, run: seq<State>, i: nat)
    requires Inv(init, s) && t < |s.pcs| && s.pcs[t] == Idle && a < |s.cells|
    requires |run| > 0 && run[0] == Start(s, t, a, a, true) && i < |run|
    requires forall j :: 0 < j < |run| ==> Next(run[j - 1], run[j])
    ensures Exclusive(run[i]) && InSelfSwap(run[i], t, a)
  {
    hide Exclusive, InSelfSwap, Next, Inv, Start;
    if i == 0 {
      SelfSwapStarts(init, s, t, a);
    } else {
      SelfSwapWaitsForever(init, s, t, a, run, i - 1);
      SelfSwapStep(run[i - 1], run[i], t, a);
    }
  }

  lemma SelfSwapStarts(init: seq<nat>, s: State, t: nat, a: nat)
    requires Inv(init, s) && t < |s.pcs| && s.pcs[t] == Idle && a < |s.cells|
    ensures Exclusive(Start(s, t, a, a, true)) && InSelfSwap(Start(s, t, a, a, true), t, a)
  {
    ReachableIsExclusive(init, s);
    var s' := Start(s, t, a, a, true);
    assert forall u: nat, i: nat :: Holds(s'.pcs, u, i) ==> Holds(s.pcs, u, i);
  }
}
