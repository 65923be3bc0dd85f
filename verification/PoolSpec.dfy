/** The thread pool of src/lib/threadpool.c as a state machine.
  *
  * A step is what one thread does between two points where another thread can run: the
  * planner moves one item or changes state, a worker takes an item, ends its callback,
  * or accounts for it, and the main thread submits, collects or completes items. Runs
  * in which the planner keeps the mutex over several steps are among all the runs here.
  *
  * Work items are numbered in the order of submission; the queues hold these numbers.
  */
module PoolSpec {

  datatype Kind = Unord | Bar | Ord1 | Ord2
  datatype Item = Item(kind: Kind, cookie: nat, thread: nat)
  datatype Worker = Idle | Running(id: nat) | Pushed(id: nat) | Stopped
  datatype Planner = Nothing | Draining | Barrier | DrainingUnord | Exited

  datatype Pool = Pool(
    items: seq<Item>, ordered: seq<nat>, unordered: seq<nat>,
    inq: seq<seq<nat>>, workers: seq<Worker>,
    outq: seq<nat>, batch: seq<nat>, done: seq<nat>,
    planner: Planner, inFlight: nat, active: nat,
    exiting: bool, ordPrev: Kind, qos: nat, qosPrio: nat)

  predicate IsOrdered(k: Kind) {
    k == Ord1 || k == Ord2
  }

  function Init(threads: nat, qosPrio: nat): Pool {
    Pool([], [], [], seq(threads, _ => []), seq(threads, _ => Idle), [], [], [],
         Nothing, 0, 0, false, Bar, 0, qosPrio)
  }

  // Steps.

  datatype Step =
    | Submit(kind: Kind, cookie: nat)
    | Plan
    | Take(t: nat)
    | Finish(t: nat)
    | Account(t: nat)
    | Stop(t: nat)
    | Collect
    | Complete
    | Close

  const QOS_MODULUS := 0x1_0000_0000

  /** The head of the ordered queue is a barrier. */
  predicate AtBarrier(s: Pool) {
    s.ordered != [] && s.ordered[0] < |s.items| && s.items[s.ordered[0]].kind == Bar
  }

  /** Which of the two queues the planner serves next. */
  predicate ServesOrdered(s: Pool)
    requires s.ordered != [] || s.unordered != []
  {
    if s.ordered == [] then false
    else if s.unordered == [] then true
    else s.qosPrio > 0 && s.qos % s.qosPrio != 0
  }

  predicate ItemKnown(s: Pool, id: nat) {
    id < |s.items| && s.items[id].thread < |s.inq|
  }

  /** Hand an item to the worker it belongs to. */
  function HandOver(s: Pool, id: nat): Pool
    requires ItemKnown(s, id)
  {
    var t := s.items[id].thread;
    s.(inq := s.inq[t := s.inq[t] + [id]], inFlight := if IsOrdered(s.items[id].kind) then s.inFlight + 1 else s.inFlight)
  }

  /** What the planner can do next; it waits when it can do nothing. */
  predicate PlannerReady(s: Pool) {
    match s.planner
    case Nothing => s.ordered != [] || s.unordered != [] || s.exiting
    case Draining =>
      || (s.ordered == [] && s.unordered == [])
      || AtBarrier(s)
      || ItemKnown(s, if ServesOrdered(s) then s.ordered[0] else s.unordered[0])
    case Barrier => s.unordered != [] || (s.inFlight == 0 && s.ordered != [])
    case DrainingUnord => s.unordered == [] || ItemKnown(s, s.unordered[0])
    case Exited => false
  }

  function DrainOne(s: Pool): Pool
    requires s.planner == Draining && PlannerReady(s) && (s.ordered != [] || s.unordered != []) && !AtBarrier(s)
  {
    var s' := if s.ordered != [] && s.unordered != [] then s.(qos := (s.qos + 1) % QOS_MODULUS) else s;
    if ServesOrdered(s) then HandOver(s'.(ordered := s.ordered[1..]), s.ordered[0])
    else HandOver(s'.(unordered := s.unordered[1..]), s.unordered[0])
  }

  function PlanStep(s: Pool): Pool
    requires PlannerReady(s)
  {
    match s.planner
    case Nothing =>
      s.(planner := if s.exiting && s.ordered == [] && s.unordered == [] then Exited else Draining)
    case Draining =>
      if s.ordered == [] && s.unordered == [] then s.(planner := Nothing)
      else if AtBarrier(s) then s.(planner := Barrier)
      else DrainOne(s)
    case Barrier =>
      if s.unordered != [] then s.(planner := DrainingUnord)
      else s.(ordered := s.ordered[1..], planner := Draining)
    case DrainingUnord =>
      if s.unordered == [] then s.(planner := Barrier)
      else HandOver(s.(unordered := s.unordered[1..]), s.unordered[0])
  }

  function SubmitStep(s: Pool, kind: Kind, cookie: nat): Pool
    requires |s.inq| > 0
  {
    var id := |s.items|;
    s.(items := s.items + [Item(kind, cookie, cookie % |s.inq|)],
       active := if kind == Bar then s.active else s.active + 1,
       ordPrev := if kind == Unord then s.ordPrev else kind,
       ordered := if kind == Unord then s.ordered else s.ordered + [id],
       unordered := if kind == Unord then s.unordered + [id] else s.unordered)
  }

  /** What the code asserts of a submission: ordered kinds change at a barrier only. */
  predicate MaySubmit(s: Pool, kind: Kind) {
    && !s.exiting
    && (kind != Unord && kind != Bar && s.ordPrev != Bar ==> s.ordPrev == kind)
  }

  predicate Enabled(s: Pool, step: Step) {
    match step
    case Submit(kind, cookie) => |s.inq| > 0 && MaySubmit(s, kind)
    case Plan => PlannerReady(s)
    case Take(t) => t < |s.workers| && t < |s.inq| && s.workers[t] == Idle && s.inq[t] != []
    case Finish(t) => t < |s.workers| && s.workers[t].Running?
    case Account(t) => t < |s.workers| && s.workers[t].Pushed? && s.workers[t].id < |s.items|
    case Stop(t) => t < |s.workers| && t < |s.inq| && s.workers[t] == Idle && s.inq[t] == [] && s.exiting
    case Collect => s.batch == []
    case Complete => s.batch != []
    case Close => true
  }

  /** The subtraction as the code does it, under an assertion that it is possible. */
  function Minus1(n: nat): nat {
    if n > 0 then n - 1 else 0
  }

  function Apply(s: Pool, step: Step): Pool
    requires Enabled(s, step)
  {
    match step
    case Submit(kind, cookie) => SubmitStep(s, kind, cookie)
    case Plan => PlanStep(s)
    case Take(t) => s.(workers := s.workers[t := Running(s.inq[t][0])], inq := s.inq[t := s.inq[t][1..]])
    case Finish(t) => s.(outq := s.outq + [s.workers[t].id], workers := s.workers[t := Pushed(s.workers[t].id)])
    case Account(t) =>
      s.(workers := s.workers[t := Idle],
         inFlight := if IsOrdered(s.items[s.workers[t].id].kind) then Minus1(s.inFlight) else s.inFlight)
    case Stop(t) => s.(workers := s.workers[t := Stopped])
    case Collect => s.(batch := s.outq, outq := [])
    case Complete => s.(done := s.done + [s.batch[0]], batch := s.batch[1..], active := Minus1(s.active))
    case Close => s.(exiting := true)
  }

  // Where the items are.

  /** The class of an item: the ordered ones (true), or the unordered ones (false). */
  predicate InClass(i: Item, t: nat, c: bool) {
    i.thread == t && if c then IsOrdered(i.kind) else i.kind == Unord
  }

  /** The items of a queue that belong to thread t and class c, in order. */
  function Sel(q: seq<nat>, items: seq<Item>, t: nat, c: bool): seq<nat> {
    if q == [] then [] else
      var id := q[|q| - 1];
      Sel(q[..|q| - 1], items, t, c) + if id < |items| && InClass(items[id], t, c) then [id] else []
  }

  function Ids(n: nat): seq<nat> {
    seq(n, i => i)
  }

  function RunningPart(s: Pool, t: nat, c: bool): seq<nat>
    requires t < |s.workers|
  {
    match s.workers[t]
    case Running(id) => Sel([id], s.items, t, c)
    case _ => []
  }

  function Ended(s: Pool): seq<nat> {
    s.done + s.batch + s.outq
  }

  /** For one thread and class: the items that ended, the one running, those the worker
    * has yet to take, and those the planner has yet to hand over, in this order. */
  function Line(s: Pool, t: nat, c: bool): seq<nat>
    requires t < |s.workers| && t < |s.inq|
  {
    Sel(Ended(s), s.items, t, c) + RunningPart(s, t, c) + Sel(s.inq[t], s.items, t, c)
      + Sel(if c then s.ordered else s.unordered, s.items, t, c)
  }

  /** The line is exactly the items that were submitted, in the order of submission. */
  ghost predicate InOrder(s: Pool, t: nat, c: bool)
    requires t < |s.workers| && t < |s.inq|
  {
    Line(s, t, c) == Sel(Ids(|s.items|), s.items, t, c)
  }

  ghost predicate Pipeline(s: Pool) {
    |s.workers| == |s.inq| && forall t, c {:trigger InOrder(s, t, c)} :: 0 <= t < |s.inq| ==> InOrder(s, t, c)
  }

  lemma {:induction false} SelAppend(a: seq<nat>, b: seq<nat>, items: seq<Item>, t: nat, c: bool)
    ensures Sel(a + b, items, t, c) == Sel(a, items, t, c) + Sel(b, items, t, c)
  {
    if b == [] {
      assert a + b == a;
    } else {
      var n := |b| - 1;
      SelAppend(a, b[..n], items, t, c);
      assert (a + b)[..|a + b| - 1] == a + b[..n];
    }
  }

  ghost predicate AllBelow(q: seq<nat>, n: nat) {
    forall i :: 0 <= i < |q| ==> q[i] < n
  }

  lemma {:induction false} SelGrow(q: seq<nat>, items: seq<Item>, x: Item, t: nat, c: bool)
    requires AllBelow(q, |items|)
    ensures Sel(q, items + [x], t, c) == Sel(q, items, t, c)
  {
    if q != [] {
      SelGrow(q[..|q| - 1], items, x, t, c);
    }
  }

  lemma SelHead(q: seq<nat>, items: seq<Item>, t: nat, c: bool)
    requires q != []
    ensures Sel(q, items, t, c) == Sel([q[0]], items, t, c) + Sel(q[1..], items, t, c)
  {
    assert q == [q[0]] + q[1..];
    SelAppend([q[0]], q[1..], items, t, c);
  }

  lemma SelOne(id: nat, items: seq<Item>, t: nat, c: bool)
    ensures Sel([id], items, t, c) == if id < |items| && InClass(items[id], t, c) then [id] else []
  {
  }

  // Every queue holds what it should.

  predicate QueueOf(q: seq<nat>, items: seq<Item>, threads: nat, ordered: bool) {
    forall i :: 0 <= i < |q| ==> QueueItem(q[i], items, threads, ordered)
  }

  predicate QueueItem(id: nat, items: seq<Item>, threads: nat, ordered: bool) {
    id < |items| && items[id].thread < threads && (items[id].kind == Unord <==> !ordered)
  }

  /** An item that worker t may hold. */
  predicate WorkOf(id: nat, items: seq<Item>, t: nat) {
    id < |items| && items[id].thread == t && items[id].kind != Bar
  }

  predicate WorkerOk(s: Pool, t: nat)
    requires t < |s.workers| && t < |s.inq|
  {
    && (forall i :: 0 <= i < |s.inq[t]| ==> WorkOf(s.inq[t][i], s.items, t))
    && (s.workers[t].Running? || s.workers[t].Pushed? ==> WorkOf(s.workers[t].id, s.items, t))
  }

  ghost predicate Typed(s: Pool) {
    && |s.workers| == |s.inq| && s.qosPrio > 0
    && (forall i {:trigger s.items[i]} :: 0 <= i < |s.items| ==> s.items[i].thread < |s.inq|)
    && QueueOf(s.ordered, s.items, |s.inq|, true)
    && QueueOf(s.unordered, s.items, |s.inq|, false)
    && (forall t {:trigger WorkerOk(s, t)} :: 0 <= t < |s.inq| ==> WorkerOk(s, t))
    && AllBelow(Ended(s), |s.items|)
  }

  /** The planner takes the item from the head of its queue to hand it over. */
  predicate TakesHead(s: Pool, s1: Pool, id: nat) {
    && ItemKnown(s, id) && s.items[id].kind != Bar
    && s1 == s.(ordered := s1.ordered, unordered := s1.unordered, qos := s1.qos)
    && if IsOrdered(s.items[id].kind)
       then s.ordered != [] && s.ordered[0] == id && s1.ordered == s.ordered[1..] && s1.unordered == s.unordered
       else s.unordered != [] && s.unordered[0] == id && s1.unordered == s.unordered[1..] && s1.ordered == s.ordered
  }

  /** The planner changes state; it drops a barrier when nothing ordered is in flight. */
  predicate MovesOn(s: Pool, s': Pool) {
    && s' == s.(planner := s'.planner, ordered := s'.ordered)
    && (s'.ordered == s.ordered || (s.inFlight == 0 && s.unordered == [] && AtBarrier(s) && s'.ordered == s.ordered[1..]))
  }

  /** While the planner is at a barrier, the barrier is at the head of the queue. */
  predicate BarrierHead(s: Pool) {
    s.planner == Barrier || s.planner == DrainingUnord ==> AtBarrier(s)
  }

  /** Every step of the planner either hands over the head of a queue or moves on. */
  lemma PlanCases(s: Pool) returns (hands: bool, s1: Pool, id: nat)
    requires Typed(s) && BarrierHead(s) && PlannerReady(s)
    ensures hands ==> TakesHead(s, s1, id) && ItemKnown(s1, id) && PlanStep(s) == HandOver(s1, id)
    ensures !hands ==> MovesOn(s, PlanStep(s))
  {
    hands, s1, id := false, s, 0;
    if s.planner == Draining && (s.ordered != [] || s.unordered != []) && !AtBarrier(s) {
      hands := true;
      s1 := if s.ordered != [] && s.unordered != [] then s.(qos := (s.qos + 1) % QOS_MODULUS) else s;
      if ServesOrdered(s) {
        s1, id := s1.(ordered := s.ordered[1..]), s.ordered[0];
      } else {
        s1, id := s1.(unordered := s.unordered[1..]), s.unordered[0];
      }
    } else if s.planner == DrainingUnord && s.unordered != [] {
      hands, s1, id := true, s.(unordered := s.unordered[1..]), s.unordered[0];
    }
  }

  lemma StepTyped(s: Pool, step: Step)
    requires Typed(s) && BarrierHead(s) && Enabled(s, step)
    ensures Typed(Apply(s, step))
  {
    var s' := Apply(s, step);
    match step
    case Submit(kind, cookie) => SubmitTyped(s, kind, cookie);
    case Plan => PlanTyped(s);
    case Take(t) => WorkerTyped(s, step, t);
    case Finish(t) => WorkerTyped(s, step, t);
    case Account(t) => WorkerTyped(s, step, t);
    case Stop(t) => WorkerTyped(s, step, t);
    case _ =>
      assert Ended(s') == Ended(s);
      WorkersSame(s, s');
  }

  lemma WorkerTyped(s: Pool, step: Step, t: nat)
    requires Typed(s) && Enabled(s, step)
    requires step == Take(t) || step == Finish(t) || step == Account(t) || step == Stop(t)
    ensures Typed(Apply(s, step))
  {
    var s' := Apply(s, step);
    assert WorkerOk(s, t);
    forall t' | 0 <= t' < |s.inq| ensures WorkerOk(s', t') {
      assert WorkerOk(s, t');
    }
    assert AllBelow(Ended(s'), |s.items|) by {
      if step == Finish(t) {
        assert Ended(s') == Ended(s) + [s.workers[t].id];
      } else {
        assert Ended(s') == Ended(s);
      }
    }
  }

  lemma WorkersSame(s: Pool, s': Pool)
    requires Typed(s) && s'.inq == s.inq && s'.workers == s.workers && s'.items == s.items
    ensures forall t {:trigger WorkerOk(s', t)} :: 0 <= t < |s'.inq| ==> WorkerOk(s', t)
  {
    forall t | 0 <= t < |s'.inq| ensures WorkerOk(s', t) {
      assert WorkerOk(s, t);
    }
  }

  lemma SubmitTyped(s: Pool, kind: Kind, cookie: nat)
    requires Typed(s) && |s.inq| > 0
    ensures Typed(SubmitStep(s, kind, cookie))
  {
    var s' := SubmitStep(s, kind, cookie);
    forall t | 0 <= t < |s'.inq| ensures WorkerOk(s', t) {
      assert WorkerOk(s, t);
    }
  }

  lemma HandOverTyped(s: Pool, id: nat)
    requires Typed(s) && ItemKnown(s, id) && s.items[id].kind != Bar
    ensures Typed(HandOver(s, id))
  {
    var s' := HandOver(s, id);
    forall t | 0 <= t < |s'.inq| ensures WorkerOk(s', t) {
      assert WorkerOk(s, t);
    }
  }

  /** Shorter queues, another state or another token are still well typed. */
  lemma ShrinkTyped(s: Pool, s': Pool)
    requires Typed(s)
    requires s' == s.(ordered := s'.ordered, unordered := s'.unordered, planner := s'.planner, qos := s'.qos)
    requires s'.ordered == s.ordered || (s.ordered != [] && s'.ordered == s.ordered[1..])
    requires s'.unordered == s.unordered || (s.unordered != [] && s'.unordered == s.unordered[1..])
    ensures Typed(s')
  {
    WorkersSame(s, s');
    assert Ended(s') == Ended(s);
  }

  lemma PlanTyped(s: Pool)
    requires Typed(s) && BarrierHead(s) && PlannerReady(s)
    ensures Typed(PlanStep(s))
  {
    hide Typed;
    hide PlanStep;
    hide PlannerReady;
    var hands, s1, id := PlanCases(s);
    if hands {
      ShrinkTyped(s, s1);
      HandOverTyped(s1, id);
    } else {
      ShrinkTyped(s, PlanStep(s));
    }
  }

  // Order.

  lemma Shift(a: seq<nat>, b: seq<nat>, c: seq<nat>, x: seq<nat>, d: seq<nat>)
    ensures a + b + (c + x) + d == a + b + c + (x + d)
  {
  }

  /** Taking an item off its queue and handing it over leaves every line as it was. */
  lemma HandOverLine(s: Pool, s1: Pool, id: nat, t: nat, c: bool)
    requires t < |s.inq| && t < |s.workers| && TakesHead(s, s1, id)
    ensures Line(HandOver(s1, id), t, c) == Line(s, t, c)
  {
    hide Sel;
    var s' := HandOver(s1, id);
    assert Ended(s') == Ended(s);
    var x := Sel([id], s.items, t, c);
    SelOne(id, s.items, t, c);
    var q, q' := if c then s.ordered else s.unordered, if c then s1.ordered else s1.unordered;
    var rest := Sel(q', s.items, t, c);
    if c == IsOrdered(s.items[id].kind) {
      SelHead(q, s.items, t, c);
    }
    assert Sel(q, s.items, t, c) == x + rest;
    if t == s.items[id].thread {
      SelAppend(s.inq[t], [id], s.items, t, c);
    }
    assert Sel(s'.inq[t], s.items, t, c) == Sel(s.inq[t], s.items, t, c) + x;
    Shift(Sel(Ended(s), s.items, t, c), RunningPart(s, t, c), Sel(s.inq[t], s.items, t, c), x, rest);
  }

  lemma PlanLine(s: Pool, t: nat, c: bool)
    requires Typed(s) && PlannerReady(s) && t < |s.inq| && BarrierHead(s)
    ensures var s' := PlanStep(s);
            t < |s'.inq| && t < |s'.workers| && Line(s', t, c) == Line(s, t, c)
  {
    hide Sel;
    hide Line;
    hide PlanStep;
    hide PlannerReady;
    var hands, s1, id := PlanCases(s);
    if hands {
      HandOverLine(s, s1, id, t, c);
    } else {
      MoveLine(s, PlanStep(s), t, c);
    }
  }

  /** Changing state moves no item, and a barrier that is over was on no line. */
  lemma MoveLine(s: Pool, s': Pool, t: nat, c: bool)
    requires t < |s.inq| && t < |s.workers| && MovesOn(s, s')
    ensures Line(s', t, c) == Line(s, t, c)
  {
    hide Sel;
    assert Ended(s') == Ended(s);
    if s'.ordered != s.ordered {
      SelHead(s.ordered, s.items, t, true);
      SelOne(s.ordered[0], s.items, t, true);
    }
  }

  lemma TakeLine(s: Pool, u: nat, t: nat, c: bool)
    requires |s.workers| == |s.inq| && Enabled(s, Take(u)) && t < |s.inq|
    ensures Line(Apply(s, Take(u)), t, c) == Line(s, t, c)
  {
    hide Sel;
    assert Ended(Apply(s, Take(u))) == Ended(s);
    if t == u {
      SelHead(s.inq[t], s.items, t, c);
    }
  }

  lemma FinishLine(s: Pool, u: nat, t: nat, c: bool)
    requires Typed(s) && Enabled(s, Finish(u)) && t < |s.inq|
    ensures Line(Apply(s, Finish(u)), t, c) == Line(s, t, c)
  {
    hide Sel;
    var s' := Apply(s, Finish(u));
    var id := s.workers[u].id;
    assert WorkerOk(s, u);
    assert Ended(s') == Ended(s) + [id];
    SelAppend(Ended(s), [id], s.items, t, c);
    SelOne(id, s.items, t, c);
    var a, x := Sel(Ended(s), s.items, t, c), Sel([id], s.items, t, c);
    assert RunningPart(s, t, c) == if t == u then x else RunningPart(s', t, c);
    if t == u {
      assert a + x + [] == a + x;
    } else {
      assert a + x == a;
    }
  }

  lemma SubmitLine(s: Pool, kind: Kind, cookie: nat, t: nat, c: bool)
    requires Typed(s) && t < |s.inq|
    ensures var s' := SubmitStep(s, kind, cookie);
            Line(s', t, c) == Line(s, t, c) + Sel([|s.items|], s'.items, t, c)
  {
    hide Sel;
    var s' := SubmitStep(s, kind, cookie);
    var id, x := |s.items|, s'.items[|s.items|];
    assert Ended(s') == Ended(s);
    SubmitKeepsSel(s, x, t, c);
    var q := if c then s.ordered else s.unordered;
    SelAppend(q, [id], s'.items, t, c);
    SelOne(id, s'.items, t, c);
    assert RunningPart(s', t, c) == RunningPart(s, t, c);
    assert Sel(if c then s'.ordered else s'.unordered, s'.items, t, c)
        == Sel(q, s.items, t, c) + Sel([id], s'.items, t, c);
  }

  lemma SubmitKeepsSel(s: Pool, x: Item, t: nat, c: bool)
    requires Typed(s) && t < |s.inq|
    ensures Sel(Ended(s), s.items + [x], t, c) == Sel(Ended(s), s.items, t, c)
    ensures Sel(s.inq[t], s.items + [x], t, c) == Sel(s.inq[t], s.items, t, c)
    ensures s.workers[t].Running? ==> Sel([s.workers[t].id], s.items + [x], t, c) == Sel([s.workers[t].id], s.items, t, c)
    ensures var q := if c then s.ordered else s.unordered; Sel(q, s.items + [x], t, c) == Sel(q, s.items, t, c)
  {
    hide Sel;
    assert WorkerOk(s, t);
    SelGrow(Ended(s), s.items, x, t, c);
    SelGrow(s.inq[t], s.items, x, t, c);
    if s.workers[t].Running? {
      SelGrow([s.workers[t].id], s.items, x, t, c);
    }
    var q := if c then s.ordered else s.unordered;
    SelGrow(q, s.items, x, t, c);
  }

  lemma SubmitIds(s: Pool, x: Item, t: nat, c: bool)
    ensures var items, n := s.items + [x], |s.items|;
            Sel(Ids(n + 1), items, t, c) == Sel(Ids(n), s.items, t, c) + Sel([n], items, t, c)
  {
    var n := |s.items|;
    assert Ids(n + 1) == Ids(n) + [n];
    SelAppend(Ids(n), [n], s.items + [x], t, c);
    SelGrow(Ids(n), s.items, x, t, c);
  }

  lemma StepPipeline(s: Pool, step: Step)
    requires Typed(s) && Pipeline(s) && BarrierHead(s) && Enabled(s, step)
    ensures Pipeline(Apply(s, step))
  {
    hide Typed;
    hide Line;
    var s' := Apply(s, step);
    StepShape(s, step);
    forall t, c | 0 <= t < |s.inq| ensures InOrder(s', t, c) {
      assert InOrder(s, t, c);
      StepLine(s, step, t, c);
    }
  }

  lemma StepShape(s: Pool, step: Step)
    requires Typed(s) && Enabled(s, step)
    ensures var s' := Apply(s, step);
            && |s'.inq| == |s.inq| && |s'.workers| == |s.workers| == |s.inq|
            && (!step.Submit? ==> s'.items == s.items)
            && (step.Submit? ==> |s'.items| == |s.items| + 1 && s'.items[..|s.items|] == s.items)
  {
  }

  lemma StepLine(s: Pool, step: Step, t: nat, c: bool)
    requires Typed(s) && BarrierHead(s) && Enabled(s, step) && t < |s.inq| && InOrder(s, t, c)
    ensures var s' := Apply(s, step);
            t < |s'.inq| && t < |s'.workers| && InOrder(s', t, c)
  {
    hide Sel;
    hide Typed;
    hide Line;
    StepShape(s, step);
    match step
    case Submit(kind, cookie) =>
      SubmitLine(s, kind, cookie, t, c);
      SubmitIds(s, Item(kind, cookie, cookie % |s.inq|), t, c);
    case Plan =>
      PlanLine(s, t, c);
    case Take(u) => TakeLine(s, u, t, c);
    case Finish(u) => FinishLine(s, u, t, c);
    case _ => OtherLine(s, step, t, c);
  }

  lemma OtherLine(s: Pool, step: Step, t: nat, c: bool)
    requires |s.workers| == |s.inq| && Enabled(s, step) && t < |s.inq|
    requires step.Account? || step.Stop? || step.Collect? || step.Complete? || step.Close?
    ensures Line(Apply(s, step), t, c) == Line(s, t, c)
  {
    hide Sel;
    assert Ended(Apply(s, step)) == Ended(s);
  }
}
