/** What every step of the thread pool keeps, and what follows for every run. */
module PoolInvariant {
  import opened PoolSpec

  // Counters.

  /** What an item adds to a count: of the ordered items, or of all but the barriers. */
  function Weight(id: nat, items: seq<Item>, ord: bool): nat {
    if id < |items| && (if ord then IsOrdered(items[id].kind) else items[id].kind != Bar) then 1 else 0
  }

  function Count(q: seq<nat>, items: seq<Item>, ord: bool): nat {
    if q == [] then 0 else Count(q[..|q| - 1], items, ord) + Weight(q[|q| - 1], items, ord)
  }

  /** A worker holds an ordered item until it is accounted for, any item until it ends. */
  function WorkerWeight(w: Worker, items: seq<Item>, ord: bool): nat {
    match w
    case Running(id) => Weight(id, items, ord)
    case Pushed(id) => if ord then Weight(id, items, ord) else 0
    case _ => 0
  }

  function Load(s: Pool, t: nat, ord: bool): nat
    requires t < |s.inq| && t < |s.workers|
  {
    Count(s.inq[t], s.items, ord) + WorkerWeight(s.workers[t], s.items, ord)
  }

  function Loads(s: Pool, ord: bool): seq<nat>
    requires |s.inq| == |s.workers|
  {
    seq(|s.inq|, t requires 0 <= t < |s.inq| => Load(s, t, ord))
  }

  function Sum(q: seq<nat>): nat {
    if q == [] then 0 else Sum(q[..|q| - 1]) + q[|q| - 1]
  }

  lemma {:induction false} SumUpdate(q: seq<nat>, t: nat, v: nat)
    requires t < |q|
    ensures Sum(q[t := v]) == Sum(q) - q[t] + v
  {
    var n := |q| - 1;
    if t == n {
      assert q[t := v][..n] == q[..n];
    } else {
      SumUpdate(q[..n], t, v);
      assert q[t := v][..n] == q[..n][t := v];
    }
  }

  lemma {:induction false} SumZero(q: seq<nat>, t: nat)
    requires Sum(q) == 0 && t < |q|
    ensures q[t] == 0
  {
    if t < |q| - 1 {
      SumZero(q[..|q| - 1], t);
    }
  }

  lemma {:induction false} SumAtLeast(q: seq<nat>, t: nat)
    requires t < |q|
    ensures Sum(q) >= q[t]
  {
    if t < |q| - 1 {
      SumAtLeast(q[..|q| - 1], t);
    }
  }

  lemma {:induction false} CountAppend(a: seq<nat>, b: seq<nat>, items: seq<Item>, ord: bool)
    ensures Count(a + b, items, ord) == Count(a, items, ord) + Count(b, items, ord)
  {
    if b == [] {
      assert a + b == a;
    } else {
      var n := |b| - 1;
      CountAppend(a, b[..n], items, ord);
      assert (a + b)[..|a + b| - 1] == a + b[..n];
    }
  }

  lemma CountHead(q: seq<nat>, items: seq<Item>, ord: bool)
    requires q != []
    ensures Count(q, items, ord) == Weight(q[0], items, ord) + Count(q[1..], items, ord)
  {
    assert q == [q[0]] + q[1..];
    CountAppend([q[0]], q[1..], items, ord);
  }

  lemma {:induction false} CountGrow(q: seq<nat>, items: seq<Item>, x: Item, ord: bool)
    requires AllBelow(q, |items|)
    ensures Count(q, items + [x], ord) == Count(q, items, ord)
  {
    if q != [] {
      CountGrow(q[..|q| - 1], items, x, ord);
    }
  }

  lemma {:induction false} CountZero(q: seq<nat>, items: seq<Item>, ord: bool, i: nat)
    requires Count(q, items, ord) == 0 && i < |q|
    ensures Weight(q[i], items, ord) == 0
  {
    if i < |q| - 1 {
      CountZero(q[..|q| - 1], items, ord, i);
    }
  }

  /** How many items are somewhere before their end. */
  function Waiting(s: Pool): nat {
    Count(s.ordered, s.items, false) + Count(s.unordered, s.items, false)
  }

  function Submitted(s: Pool): nat {
    Count(Ids(|s.items|), s.items, false)
  }

  /** The counters of the pool are the numbers of items they stand for. */
  ghost predicate Balance(s: Pool) {
    && |s.inq| == |s.workers|
    && s.inFlight == Sum(Loads(s, true))
    && |Ended(s)| + Sum(Loads(s, false)) + Waiting(s) == Submitted(s)
    && s.active + |s.done| == Submitted(s)
  }

  /** A change at thread t only. */
  lemma LoadsUpdate(s: Pool, s': Pool, t: nat, ord: bool)
    requires |s.inq| == |s.workers| == |s'.inq| == |s'.workers| && t < |s.inq| && s'.items == s.items
    requires forall u :: 0 <= u < |s.inq| && u != t ==> s'.inq[u] == s.inq[u] && s'.workers[u] == s.workers[u]
    ensures Sum(Loads(s', ord)) == Sum(Loads(s, ord)) - Load(s, t, ord) + Load(s', t, ord)
  {
    assert Loads(s', ord) == Loads(s, ord)[t := Load(s', t, ord)];
    SumUpdate(Loads(s, ord), t, Load(s', t, ord));
  }

  lemma LoadsSame(s: Pool, s': Pool, ord: bool)
    requires |s.inq| == |s.workers| && s'.inq == s.inq && s'.workers == s.workers && s'.items == s.items
    ensures Loads(s', ord) == Loads(s, ord)
  {
  }

  lemma HandOverBalance(s: Pool, s1: Pool, id: nat)
    requires Balance(s) && TakesHead(s, s1, id)
    ensures Balance(HandOver(s1, id))
  {
    hide Count;
    hide Sum;
    var s' := HandOver(s1, id);
    var t := s.items[id].thread;
    assert Ended(s') == Ended(s);
    CountAppend(s.inq[t], [id], s.items, true);
    CountAppend(s.inq[t], [id], s.items, false);
    CountOne(id, s.items, true);
    CountOne(id, s.items, false);
    LoadsUpdate(s, s', t, true);
    LoadsUpdate(s, s', t, false);
    CountHead(if IsOrdered(s.items[id].kind) then s.ordered else s.unordered, s.items, false);
  }

  lemma CountOne(id: nat, items: seq<Item>, ord: bool)
    ensures Count([id], items, ord) == Weight(id, items, ord)
  {
    assert [id][..0] == [];
  }

  lemma PlanBalance(s: Pool)
    requires Typed(s) && Balance(s) && BarrierHead(s) && PlannerReady(s)
    ensures Balance(PlanStep(s))
  {
    hide Balance;
    hide Typed;
    hide PlanStep;
    hide PlannerReady;
    var hands, s1, id := PlanCases(s);
    if hands {
      HandOverBalance(s, s1, id);
    } else {
      MoveBalance(s, PlanStep(s));
    }
  }

  lemma MoveBalance(s: Pool, s': Pool)
    requires Balance(s) && MovesOn(s, s')
    ensures Balance(s')
  {
    hide Sum;
    hide Count;
    LoadsSame(s, s', true);
    LoadsSame(s, s', false);
    assert Ended(s') == Ended(s);
    if s'.ordered != s.ordered {
      CountHead(s.ordered, s.items, false);
    }
  }

  lemma SubmitBalance(s: Pool, kind: Kind, cookie: nat)
    requires Typed(s) && Balance(s) && |s.inq| > 0
    ensures Balance(SubmitStep(s, kind, cookie))
  {
    hide Sum;
    hide Count;
    var s' := SubmitStep(s, kind, cookie);
    var x, id := s'.items[|s.items|], |s.items|;
    SubmitLoads(s, s', x);
    assert Ended(s') == Ended(s);
    CountGrow(s.ordered, s.items, x, false);
    CountGrow(s.unordered, s.items, x, false);
    CountAppend(s.ordered, [id], s'.items, false);
    CountAppend(s.unordered, [id], s'.items, false);
    CountOne(id, s'.items, false);
    assert Ids(id + 1) == Ids(id) + [id];
    CountAppend(Ids(id), [id], s'.items, false);
    CountGrow(Ids(id), s.items, x, false);
  }

  lemma SubmitLoads(s: Pool, s': Pool, x: Item)
    requires Typed(s) && s'.items == s.items + [x] && s'.inq == s.inq && s'.workers == s.workers
    ensures Loads(s', true) == Loads(s, true) && Loads(s', false) == Loads(s, false)
  {
    hide Count;
    forall t, ord | 0 <= t < |s.inq| ensures Load(s', t, ord) == Load(s, t, ord) {
      assert WorkerOk(s, t);
      CountGrow(s.inq[t], s.items, x, ord);
    }
  }

  lemma WorkerBalance(s: Pool, step: Step, t: nat)
    requires Typed(s) && Balance(s) && Enabled(s, step)
    requires step == Take(t) || step == Finish(t) || step == Account(t) || step == Stop(t)
    ensures Balance(Apply(s, step))
  {
    hide Sum;
    hide Count;
    var s' := Apply(s, step);
    assert WorkerOk(s, t);
    LoadsUpdate(s, s', t, true);
    LoadsUpdate(s, s', t, false);
    match step
    case Take(_) =>
      CountHead(s.inq[t], s.items, true);
      CountHead(s.inq[t], s.items, false);
      assert Ended(s') == Ended(s);
    case Finish(_) =>
      assert Ended(s') == Ended(s) + [s.workers[t].id];
    case Account(_) =>
      assert Ended(s') == Ended(s);
      FlightAtLeast(s, t);
    case Stop(_) =>
      assert Ended(s') == Ended(s);
  }

  /** The counter covers the item a worker is about to account for. */
  lemma FlightAtLeast(s: Pool, t: nat)
    requires Balance(s) && t < |s.workers|
    ensures s.inFlight >= WorkerWeight(s.workers[t], s.items, true)
  {
    SumAtLeast(Loads(s, true), t);
  }

  lemma MainBalance(s: Pool, step: Step)
    requires Balance(s) && Enabled(s, step) && (step.Collect? || step.Complete? || step.Close?)
    ensures Balance(Apply(s, step)) && (step.Complete? ==> s.active > 0)
  {
    hide Sum;
    hide Count;
    var s' := Apply(s, step);
    LoadsSame(s, s', true);
    LoadsSame(s, s', false);
    assert Ended(s') == Ended(s);
  }

  // Barriers.

  /** The item is with a worker: in its queue, running, or not yet accounted for. */
  ghost predicate Flying(s: Pool, id: nat)
    requires |s.inq| == |s.workers|
  {
    exists t :: 0 <= t < |s.inq| && FlyingAt(s, id, t)
  }

  predicate FlyingAt(s: Pool, id: nat, t: nat)
    requires t < |s.inq| && t < |s.workers|
  {
    id in s.inq[t] || s.workers[t] == Running(id) || s.workers[t] == Pushed(id)
  }

  /** The ordered queue is the rest of the submission order. */
  ghost predicate Fifo(s: Pool) {
    && (forall i, j :: 0 <= i < j < |s.ordered| ==> s.ordered[i] < s.ordered[j])
    && (s.ordered != [] ==>
          forall id :: s.ordered[0] <= id < |s.items| && s.items[id].kind != Unord ==> id in s.ordered)
  }

  predicate IsBarrier(s: Pool, b: nat) {
    b < |s.items| && s.items[b].kind == Bar
  }

  predicate IsOrderedItem(s: Pool, id: nat) {
    id < |s.items| && IsOrdered(s.items[id].kind)
  }

  /** Nothing ordered that was submitted before a barrier is with a worker once the
    * barrier is over. */
  ghost predicate Separated(s: Pool) {
    && |s.inq| == |s.workers|
    && forall b: nat, i: nat {:trigger IsBarrier(s, b), Flying(s, i)} ::
         IsBarrier(s, b) && b !in s.ordered && i < b && IsOrderedItem(s, i) ==> !Flying(s, i)
  }

  lemma FlyingSame(s: Pool, s': Pool)
    requires |s.inq| == |s.workers| && s'.inq == s.inq && s'.workers == s.workers
    ensures forall id :: Flying(s', id) <==> Flying(s, id)
  {
    forall id ensures Flying(s', id) <==> Flying(s, id) {
      if Flying(s', id) {
        var t :| 0 <= t < |s.inq| && FlyingAt(s', id, t);
        assert FlyingAt(s, id, t);
      }
      if Flying(s, id) {
        var t :| 0 <= t < |s.inq| && FlyingAt(s, id, t);
        assert FlyingAt(s', id, t);
      }
    }
  }

  lemma HandOverFlying(s: Pool, id: nat)
    requires |s.inq| == |s.workers| && ItemKnown(s, id)
    ensures forall i :: Flying(HandOver(s, id), i) ==> Flying(s, i) || i == id
  {
    var s' := HandOver(s, id);
    forall i | Flying(s', i) && i != id ensures Flying(s, i) {
      var t :| 0 <= t < |s.inq| && FlyingAt(s', i, t);
      assert FlyingAt(s, i, t);
    }
  }

  lemma WorkerFlying(s: Pool, step: Step, t: nat)
    requires |s.inq| == |s.workers| && Enabled(s, step)
    requires step == Take(t) || step == Finish(t) || step == Account(t) || step == Stop(t)
    ensures var s' := Apply(s, step);
            |s'.inq| == |s'.workers| && forall i :: Flying(s', i) ==> Flying(s, i)
  {
    var s' := Apply(s, step);
    forall i | Flying(s', i) ensures Flying(s, i) {
      var u :| 0 <= u < |s.inq| && FlyingAt(s', i, u);
      assert FlyingAt(s, i, u);
    }
  }

  /** When the counter is zero, no ordered item is with a worker. */
  lemma NoneFlying(s: Pool, i: nat)
    requires Balance(s) && s.inFlight == 0 && IsOrderedItem(s, i)
    ensures !Flying(s, i)
  {
    if Flying(s, i) {
      var t :| 0 <= t < |s.inq| && FlyingAt(s, i, t);
      SumZero(Loads(s, true), t);
      if i in s.inq[t] {
        var p :| 0 <= p < |s.inq[t]| && s.inq[t][p] == i;
        CountZero(s.inq[t], s.items, true, p);
      }
      assert false;
    }
  }

  lemma SubmitBarriers(s: Pool, kind: Kind, cookie: nat)
    requires Typed(s) && Fifo(s) && Separated(s) && |s.inq| > 0
    ensures Fifo(SubmitStep(s, kind, cookie)) && Separated(SubmitStep(s, kind, cookie))
  {
    var s' := SubmitStep(s, kind, cookie);
    FlyingSame(s, s');
    assert IsBarrier(s', |s.items|) ==> |s.items| in s'.ordered;
    forall b: nat, i: nat | IsBarrier(s', b) && b !in s'.ordered && i < b && IsOrderedItem(s', i) ensures !Flying(s', i) {
      assert IsBarrier(s, b) && IsOrderedItem(s, i);
    }
  }

  lemma HandOverBarriers(s: Pool, s1: Pool, id: nat)
    requires |s.inq| == |s.workers| && Fifo(s) && Separated(s) && TakesHead(s, s1, id)
    ensures Fifo(HandOver(s1, id)) && Separated(HandOver(s1, id))
  {
    var s' := HandOver(s1, id);
    FlyingSame(s, s1);
    HandOverFlying(s1, id);
    forall b: nat, i: nat | IsBarrier(s', b) && b !in s'.ordered && i < b && IsOrderedItem(s', i) ensures !Flying(s', i) {
      assert IsBarrier(s, b);
      assert b !in s.ordered;
    }
  }

  lemma MoveBarriers(s: Pool, s': Pool)
    requires Balance(s) && Fifo(s) && Separated(s) && MovesOn(s, s')
    ensures Fifo(s') && Separated(s')
  {
    FlyingSame(s, s');
    forall b: nat, i: nat | IsBarrier(s', b) && b !in s'.ordered && i < b && IsOrderedItem(s', i) ensures !Flying(s', i) {
      assert IsBarrier(s, b) && IsOrderedItem(s, i);
      if b in s.ordered {
        NoneFlying(s, i);
      }
    }
  }

  lemma PlanBarriers(s: Pool)
    requires Typed(s) && Balance(s) && BarrierHead(s) && PlannerReady(s) && Fifo(s) && Separated(s)
    ensures Fifo(PlanStep(s)) && Separated(PlanStep(s))
  {
    hide Typed;
    hide Fifo;
    hide Separated;
    hide PlanStep;
    hide PlannerReady;
    var hands, s1, id := PlanCases(s);
    if hands {
      HandOverBarriers(s, s1, id);
    } else {
      MoveBarriers(s, PlanStep(s));
    }
  }

  lemma OtherBarriers(s: Pool, s': Pool)
    requires |s'.inq| == |s'.workers| && Fifo(s) && Separated(s) && s'.items == s.items && s'.ordered == s.ordered
    requires forall i :: Flying(s', i) ==> Flying(s, i)
    ensures Fifo(s') && Separated(s')
  {
    forall b: nat, i: nat | IsBarrier(s', b) && b !in s'.ordered && i < b && IsOrderedItem(s', i) ensures !Flying(s', i) {
      assert IsBarrier(s, b) && IsOrderedItem(s, i);
    }
  }

  // Kinds.

  ghost predicate BarrierBetween(s: Pool, i: nat, j: nat) {
    exists b :: i < b < j && IsBarrier(s, b)
  }

  /** Between ordered items of different kinds there is a barrier. */
  ghost predicate KindsApart(s: Pool) {
    && s.ordPrev != Unord
    && (forall i: nat {:trigger IsOrderedItem(s, i)} ::
          IsOrderedItem(s, i) && s.items[i].kind != s.ordPrev ==> BarrierBetween(s, i, |s.items|))
    && (forall i: nat, j: nat {:trigger IsOrderedItem(s, i), IsOrderedItem(s, j)} ::
          i < j && IsOrderedItem(s, i) && IsOrderedItem(s, j) && s.items[i].kind != s.items[j].kind
          ==> BarrierBetween(s, i, j))
  }

  lemma SubmitKinds(s: Pool, kind: Kind, cookie: nat)
    requires KindsApart(s) && |s.inq| > 0 && MaySubmit(s, kind)
    ensures KindsApart(SubmitStep(s, kind, cookie))
  {
    var s' := SubmitStep(s, kind, cookie);
    var n := |s.items|;
    forall i: nat | IsOrderedItem(s', i) && s'.items[i].kind != s'.ordPrev ensures BarrierBetween(s', i, n + 1) {
      if i < n {
        assert IsOrderedItem(s, i);
        if kind == Bar {
          assert IsBarrier(s', n);
        } else {
          GrowBetween(s, s', i, n);
          var b :| i < b < n && IsBarrier(s', b);
        }
      }
    }
    forall i: nat, j: nat | i < j && IsOrderedItem(s', i) && IsOrderedItem(s', j) && s'.items[i].kind != s'.items[j].kind
      ensures BarrierBetween(s', i, j)
    {
      assert IsOrderedItem(s, i);
      if j < n {
        assert IsOrderedItem(s, j);
      }
      GrowBetween(s, s', i, j);
    }
  }

  lemma GrowBetween(s: Pool, s': Pool, i: nat, j: nat)
    requires BarrierBetween(s, i, j) && s.items <= s'.items
    ensures BarrierBetween(s', i, j)
  {
    var b :| i < b < j && IsBarrier(s, b);
    assert IsBarrier(s', b);
  }

  lemma SameKinds(s: Pool, s': Pool)
    requires KindsApart(s) && s'.items == s.items && s'.ordPrev == s.ordPrev
    ensures KindsApart(s')
  {
    forall i: nat | IsOrderedItem(s', i) && s'.items[i].kind != s'.ordPrev ensures BarrierBetween(s', i, |s'.items|) {
      assert IsOrderedItem(s, i);
      GrowBetween(s, s', i, |s.items|);
    }
    forall i: nat, j: nat | i < j && IsOrderedItem(s', i) && IsOrderedItem(s', j) && s'.items[i].kind != s'.items[j].kind
      ensures BarrierBetween(s', i, j)
    {
      assert IsOrderedItem(s, i) && IsOrderedItem(s, j);
      GrowBetween(s, s', i, j);
    }
  }

  // The invariant.

  /** Items with one cookie belong to one thread. */
  ghost predicate Routed(s: Pool) {
    |s.inq| > 0 && forall i :: 0 <= i < |s.items| ==> s.items[i].thread == s.items[i].cookie % |s.inq|
  }

  /** An item that a worker has yet to account for has ended. */
  ghost predicate PushedEnded(s: Pool) {
    forall t :: 0 <= t < |s.workers| && s.workers[t].Pushed? ==> s.workers[t].id in Ended(s)
  }

  lemma StepPushed(s: Pool, step: Step)
    requires PushedEnded(s) && Typed(s) && BarrierHead(s) && Enabled(s, step)
    ensures PushedEnded(Apply(s, step))
  {
    hide PlanStep;
    hide PlannerReady;
    var s' := Apply(s, step);
    match step
    case Plan =>
      var hands, s1, id := PlanCases(s);
      assert s'.workers == s.workers && Ended(s') == Ended(s);
    case Finish(t) =>
      assert Ended(s') == Ended(s) + [s.workers[t].id];
    case _ =>
      assert Ended(s') == Ended(s);
  }

  ghost predicate Inv(s: Pool) {
    Typed(s) && Routed(s) && PushedEnded(s) && BarrierHead(s) && Pipeline(s) && Balance(s) && Fifo(s) && Separated(s) && KindsApart(s)
  }

  lemma InitInv(threads: nat, qosPrio: nat)
    requires threads > 0 && qosPrio > 0
    ensures Inv(Init(threads, qosPrio))
  {
    var s := Init(threads, qosPrio);
    forall t | 0 <= t < |s.inq| ensures WorkerOk(s, t) {}
    forall t, c | 0 <= t < |s.inq| ensures InOrder(s, t, c) {
      assert Ended(s) == [] && s.inq[t] == [] && Ids(0) == [];
    }
    assert Ended(s) == [] && Ids(0) == [];
    AllZero(Loads(s, true));
    AllZero(Loads(s, false));
  }

  lemma {:induction false} AllZero(q: seq<nat>)
    requires forall i :: 0 <= i < |q| ==> q[i] == 0
    ensures Sum(q) == 0
  {
    if q != [] {
      AllZero(q[..|q| - 1]);
    }
  }

  lemma StepBarrierHead(s: Pool, step: Step)
    requires Typed(s) && BarrierHead(s) && Enabled(s, step)
    ensures BarrierHead(Apply(s, step))
  {
  }

  lemma StepCounts(s: Pool, step: Step)
    requires Typed(s) && BarrierHead(s) && Balance(s) && Enabled(s, step)
    ensures Balance(Apply(s, step))
  {
    hide Typed;
    hide Balance;
    match step
    case Submit(kind, cookie) => SubmitBalance(s, kind, cookie);
    case Plan => PlanBalance(s);
    case Take(t) => WorkerBalance(s, step, t);
    case Finish(t) => WorkerBalance(s, step, t);
    case Account(t) => WorkerBalance(s, step, t);
    case Stop(t) => WorkerBalance(s, step, t);
    case _ => MainBalance(s, step);
  }

  lemma StepBarriers(s: Pool, step: Step)
    requires Typed(s) && BarrierHead(s) && Balance(s) && Fifo(s) && Separated(s) && Enabled(s, step)
    ensures Fifo(Apply(s, step)) && Separated(Apply(s, step))
  {
    hide Typed;
    hide Fifo;
    hide Flying;
    var s' := Apply(s, step);
    match step
    case Submit(kind, cookie) => SubmitBarriers(s, kind, cookie);
    case Plan => PlanBarriers(s);
    case Take(t) => WorkerFlying(s, step, t); OtherBarriers(s, s');
    case Finish(t) => WorkerFlying(s, step, t); OtherBarriers(s, s');
    case Account(t) => WorkerFlying(s, step, t); OtherBarriers(s, s');
    case Stop(t) => WorkerFlying(s, step, t); OtherBarriers(s, s');
    case _ => FlyingSame(s, s'); OtherBarriers(s, s');
  }

  lemma StepKinds(s: Pool, step: Step)
    requires Typed(s) && Routed(s) && KindsApart(s) && Enabled(s, step)
    ensures KindsApart(Apply(s, step)) && Routed(Apply(s, step))
  {
    hide KindsApart;
    hide Typed;
    StepShape(s, step);
    match step
    case Submit(kind, cookie) => SubmitKinds(s, kind, cookie);
    case _ =>
      StepOrdPrev(s, step);
      SameKinds(s, Apply(s, step));
  }

  lemma StepOrdPrev(s: Pool, step: Step)
    requires Enabled(s, step) && !step.Submit?
    ensures Apply(s, step).ordPrev == s.ordPrev
  {
  }

  lemma StepKeeps(s: Pool, step: Step)
    requires Inv(s) && Enabled(s, step)
    ensures Inv(Apply(s, step))
  {
    hide Typed;
    hide Routed;
    hide BarrierHead;
    hide Pipeline;
    hide Balance;
    hide Fifo;
    hide Separated;
    hide KindsApart;
    hide PushedEnded;
    hide Apply;
    hide Enabled;
    StepTyped(s, step);
    StepPushed(s, step);
    StepBarrierHead(s, step);
    StepPipeline(s, step);
    StepCounts(s, step);
    StepBarriers(s, step);
    StepKinds(s, step);
  }
}
