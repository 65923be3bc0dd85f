/** What holds after every run of the thread pool, whatever the order of its threads. */
module PoolTheorems {
  import opened PoolSpec
  import opened PoolInvariant

  ghost predicate Runs(s: Pool, steps: seq<Step>)
    decreases |steps|
  {
    steps == [] || (Enabled(s, steps[0]) && Runs(Apply(s, steps[0]), steps[1..]))
  }

  function Run(s: Pool, steps: seq<Step>): Pool
    requires Runs(s, steps)
    decreases |steps|
  {
    if steps == [] then s else Run(Apply(s, steps[0]), steps[1..])
  }

  lemma {:induction false} RunKeeps(s: Pool, steps: seq<Step>)
    requires Inv(s) && Runs(s, steps)
    ensures Inv(Run(s, steps))
    decreases |steps|
  {
    hide Inv;
    hide Apply;
    hide Enabled;
    if steps != [] {
      StepKeeps(s, steps[0]);
      RunKeeps(Apply(s, steps[0]), steps[1..]);
    }
  }

  /** A state that some run of a pool with some number of threads reaches. */
  ghost predicate Reachable(s: Pool) {
    exists threads: nat, qosPrio: nat, steps: seq<Step> :: Reaches(threads, qosPrio, steps, s)
  }

  ghost predicate Reaches(threads: nat, qosPrio: nat, steps: seq<Step>, s: Pool) {
    && threads > 0 && qosPrio > 0
    && Runs(Init(threads, qosPrio), steps) && s == Run(Init(threads, qosPrio), steps)
  }

  lemma ReachableInv(s: Pool)
    requires Reachable(s)
    ensures Inv(s)
  {
    var threads: nat, qosPrio: nat, steps: seq<Step> :| Reaches(threads, qosPrio, steps, s);
    InitInv(threads, qosPrio);
    RunKeeps(Init(threads, qosPrio), steps);
  }

  // Selections.

  lemma {:induction false} SelMultiplicity(q: seq<nat>, items: seq<Item>, t: nat, c: bool, id: nat)
    ensures multiset(Sel(q, items, t, c))[id] == if id < |items| && InClass(items[id], t, c) then multiset(q)[id] else 0
  {
    hide InClass;
    if q != [] {
      var n := |q| - 1;
      SelMultiplicity(q[..n], items, t, c, id);
      assert q == q[..n] + [q[n]];
      Snoc(q[..n], q[n], id);
      Snoc(Sel(q[..n], items, t, c), q[n], id);
    }
  }

  lemma Snoc(q: seq<nat>, x: nat, id: nat)
    ensures multiset(q + [x])[id] == multiset(q)[id] + if x == id then 1 else 0
  {
  }

  lemma SelMember(q: seq<nat>, items: seq<Item>, t: nat, c: bool, id: nat)
    requires id < |items| && InClass(items[id], t, c)
    ensures id in Sel(q, items, t, c) <==> id in q
  {
    SelMultiplicity(q, items, t, c, id);
    assert id in q <==> multiset(q)[id] > 0;
    assert id in Sel(q, items, t, c) <==> multiset(Sel(q, items, t, c))[id] > 0;
  }

  lemma {:induction false} IdsMultiplicity(n: nat, id: nat)
    ensures multiset(Ids(n))[id] == if id < n then 1 else 0
  {
    if n > 0 {
      IdsMultiplicity(n - 1, id);
      assert Ids(n) == Ids(n - 1) + [n - 1];
    }
  }

  predicate Increasing(q: seq<nat>) {
    forall i, j :: 0 <= i < j < |q| ==> q[i] < q[j]
  }

  lemma {:induction false} SelIncreasing(q: seq<nat>, items: seq<Item>, t: nat, c: bool)
    requires Increasing(q)
    ensures Increasing(Sel(q, items, t, c))
  {
    if q != [] {
      var n := |q| - 1;
      SelIncreasing(q[..n], items, t, c);
      forall i | 0 <= i < |Sel(q[..n], items, t, c)| ensures Sel(q[..n], items, t, c)[i] < q[n] {
        var id := Sel(q[..n], items, t, c)[i];
        SelMultiplicity(q[..n], items, t, c, id);
        assert multiset(Sel(q[..n], items, t, c))[id] > 0;
        assert id in q[..n];
      }
    }
  }

  function Queue(s: Pool, c: bool): seq<nat> {
    if c then s.ordered else s.unordered
  }

  // Conservation.

  /** How often an item is somewhere: submitted and waiting, with its worker and not yet
    * run, running, ended and not yet collected, or completed. */
  function Places(s: Pool, id: nat): nat
    requires id < |s.items| && s.items[id].thread < |s.inq| && |s.inq| == |s.workers|
  {
    var t := s.items[id].thread;
    multiset(s.done)[id] + multiset(s.batch)[id] + multiset(s.outq)[id]
    + (if s.workers[t] == Running(id) then 1 else 0) + multiset(s.inq[t])[id]
    + multiset(s.ordered)[id] + multiset(s.unordered)[id]
  }

  /** Every item but a barrier is in exactly one place, and with no other worker. */
  lemma InOnePlace(s: Pool, id: nat)
    requires Reachable(s) && id < |s.items| && s.items[id].kind != Bar
    ensures s.items[id].thread < |s.inq| == |s.workers|
    ensures Places(s, id) == 1
    ensures forall u :: 0 <= u < |s.inq| && u != s.items[id].thread ==> id !in s.inq[u] && s.workers[u] != Running(id)
  {
    hide Balance;
    hide BarrierHead;
    hide Fifo;
    hide KindsApart;
    hide Line;
    hide PushedEnded;
    hide Routed;
    hide Sel;
    hide Separated;
    ReachableInv(s);
    var t, c := s.items[id].thread, IsOrdered(s.items[id].kind);
    assert InOrder(s, t, c);
    LineMultiplicity(s, t, c, id);
    SelMultiplicity(Ids(|s.items|), s.items, t, c, id);
    IdsMultiplicity(|s.items|, id);
    assert multiset(if c then s.unordered else s.ordered)[id] == 0;
    forall u | 0 <= u < |s.inq| && u != t ensures id !in s.inq[u] && s.workers[u] != Running(id) {
      assert WorkerOk(s, u);
    }
  }

  lemma LineMultiplicity(s: Pool, t: nat, c: bool, id: nat)
    requires t < |s.inq| && t < |s.workers| && id < |s.items| && InClass(s.items[id], t, c)
    ensures multiset(Line(s, t, c))[id] ==
              multiset(s.done)[id] + multiset(s.batch)[id] + multiset(s.outq)[id]
              + (if s.workers[t] == Running(id) then 1 else 0) + multiset(s.inq[t])[id] + multiset(Queue(s, c))[id]
  {
    hide Sel;
    SelMultiplicity(Ended(s), s.items, t, c, id);
    SelMultiplicity(s.inq[t], s.items, t, c, id);
    SelMultiplicity(Queue(s, c), s.items, t, c, id);
    if s.workers[t].Running? {
      SelMultiplicity([s.workers[t].id], s.items, t, c, id);
    }
  }

  // Barriers.

  /** An ordered item is handed to a worker only when every ordered item submitted before
    * a barrier that precedes it has ended, and has been accounted for. */
  lemma BarrierSeparation(s: Pool, i: nat, b: nat, j: nat)
    requires Reachable(s) && i < b < j
    requires IsOrderedItem(s, i) && IsBarrier(s, b) && IsOrderedItem(s, j) && j !in s.ordered
    ensures |s.inq| == |s.workers| && i in Ended(s) && !Flying(s, i)
  {
    hide Balance;
    hide BarrierHead;
    hide KindsApart;
    hide Line;
    hide PushedEnded;
    hide Routed;
    hide Sel;
    ReachableInv(s);
    assert b !in s.ordered && i !in s.ordered;
    var t := s.items[i].thread;
    assert InOrder(s, t, true);
    SelMember(Ids(|s.items|), s.items, t, true, i);
    assert Ids(|s.items|)[i] == i;
    LineMember(s, t, true, i);
    assert !Flying(s, i);
    assert !FlyingAt(s, i, t);
  }

  lemma LineMember(s: Pool, t: nat, c: bool, id: nat)
    requires t < |s.inq| && t < |s.workers| && id < |s.items| && InClass(s.items[id], t, c) && id in Line(s, t, c)
    ensures id in Ended(s) || s.workers[t] == Running(id) || id in s.inq[t] || id in Queue(s, c)
  {
    hide Sel;
    SelMember(Ended(s), s.items, t, c, id);
    SelMember(s.inq[t], s.items, t, c, id);
    SelMember(Queue(s, c), s.items, t, c, id);
    if s.workers[t].Running? {
      SelMember([s.workers[t].id], s.items, t, c, id);
    }
  }

  /** Ordered items of the two kinds are never with workers at the same time. */
  lemma KindsNeverTogether(s: Pool, i: nat, j: nat)
    requires Reachable(s) && |s.inq| == |s.workers|
    requires IsOrderedItem(s, i) && IsOrderedItem(s, j) && Flying(s, i) && Flying(s, j)
    ensures s.items[i].kind == s.items[j].kind
  {
    hide Balance;
    hide BarrierHead;
    hide Fifo;
    hide Line;
    hide Pipeline;
    hide PushedEnded;
    hide Routed;
    hide Sel;
    hide Separated;
    hide Typed;
    var x, y := if i < j then i else j, if i < j then j else i;
    if s.items[x].kind != s.items[y].kind {
      ReachableInv(s);
      var b :| x < b < y && IsBarrier(s, b);
      FlyingIsHandedOver(s, y);
      BarrierSeparation(s, x, b, y);
      assert false;
    }
  }

  lemma FlyingIsHandedOver(s: Pool, id: nat)
    requires Reachable(s) && |s.inq| == |s.workers| && IsOrderedItem(s, id) && Flying(s, id)
    ensures id !in s.ordered
  {
    hide Balance;
    hide BarrierHead;
    hide Fifo;
    hide KindsApart;
    hide Line;
    hide Routed;
    hide Sel;
    hide Separated;
    ReachableInv(s);
    var t :| 0 <= t < |s.inq| && FlyingAt(s, id, t);
    assert WorkerOk(s, t) && InOrder(s, t, true);
    LineMultiplicity(s, t, true, id);
    SelMultiplicity(Ids(|s.items|), s.items, t, true, id);
    IdsMultiplicity(|s.items|, id);
    assert s.workers[t] == Pushed(id) ==> id in s.done || id in s.batch || id in s.outq;
  }

  // Order.

  /** On a list in increasing order, whatever precedes a member of a prefix is in it too. */
  lemma PrefixClosed(line: seq<nat>, n: nat, i: nat, j: nat)
    requires Increasing(line) && n <= |line| && i < j && i in line && j in line[..n]
    ensures i in line[..n]
  {
    var p :| 0 <= p < |line| && line[p] == i;
    var q :| 0 <= q < n && line[..n][q] == j;
    assert line[..n][p] == i;
  }

  /** The two items were submitted with one cookie, in one class, and i before j. */
  predicate Siblings(s: Pool, i: nat, j: nat) {
    && i < j < |s.items| && s.items[i].cookie == s.items[j].cookie
    && s.items[i].kind != Bar && s.items[j].kind != Bar
    && (s.items[i].kind == Unord <==> s.items[j].kind == Unord)
  }

  /** If a prefix of what ended, with or without the running item, has j, it has i. */
  lemma EndsInOrder(s: Pool, i: nat, j: nat, ended: seq<nat>, rest: seq<nat>)
    requires Inv(s) && Siblings(s, i, j)
    requires s.items[j].thread < |s.workers|
    requires ended + rest == Ended(s) + (if s.workers[s.items[j].thread] == Running(j) then [j] else [])
    requires j in ended
    ensures i in ended
  {
    hide Balance;
    hide Fifo;
    hide Separated;
    hide KindsApart;
    hide Sel;
    var t, c := s.items[j].thread, IsOrdered(s.items[j].kind);
    assert s.items[i].thread == t;
    assert InOrder(s, t, c);
    var line := Line(s, t, c);
    SelIncreasing(Ids(|s.items|), s.items, t, c);
    SelMember(Ids(|s.items|), s.items, t, c, i);
    assert Ids(|s.items|)[i] == i;
    var extra := if s.workers[t] == Running(j) then [j] else [];
    SelAppend(Ended(s), extra, s.items, t, c);
    SelOne(j, s.items, t, c);
    SelAppend(ended, rest, s.items, t, c);
    SelEmpty(s.items, t, c);
    var e, r := Sel(ended, s.items, t, c), Sel(rest, s.items, t, c);
    assert e + r <= line;
    assert line[..|e|] == e;
    SelMember(ended, s.items, t, c, i);
    SelMember(ended, s.items, t, c, j);
    PrefixClosed(line, |e|, i, j);
  }

  lemma SelEmpty(items: seq<Item>, t: nat, c: bool)
    ensures Sel([], items, t, c) == []
  {
  }

  /** Items of one class with one cookie run one at a time, in the order of submission,
    * and complete in that order. */
  lemma CookieOrder(s: Pool, i: nat, j: nat)
    requires Reachable(s) && Siblings(s, i, j)
    ensures s.items[i].thread == s.items[j].thread < |s.workers|
    ensures s.workers[s.items[j].thread] == Running(j) ==> i in Ended(s)
    ensures j in s.done ==> i in s.done
    ensures forall q :: 0 <= q < |Ended(s)| && Ended(s)[q] == j ==> i in Ended(s)[..q]
  {
    hide Inv;
    hide Siblings;
    hide Ended;
    ReachableInv(s);
    SiblingThread(s, i, j);
    OneRunning(s, i, j);
    OneDone(s, i, j);
    forall q | 0 <= q < |Ended(s)| && Ended(s)[q] == j ensures i in Ended(s)[..q] {
      EndedBefore(s, i, j, q);
    }
  }

  lemma OneRunning(s: Pool, i: nat, j: nat)
    requires Inv(s) && Siblings(s, i, j)
    ensures s.items[j].thread < |s.workers|
    ensures s.workers[s.items[j].thread] == Running(j) ==> i in Ended(s)
  {
    hide Inv;
    hide Ended;
    SiblingThread(s, i, j);
    if s.workers[s.items[j].thread] == Running(j) {
      EndsInOrder(s, i, j, Ended(s) + [j], []);
      assert i in Ended(s) + [j];
    }
  }

  lemma OneDone(s: Pool, i: nat, j: nat)
    requires Inv(s) && Siblings(s, i, j)
    ensures j in s.done ==> i in s.done
  {
    hide Inv;
    SiblingThread(s, i, j);
    var extra := if s.workers[s.items[j].thread] == Running(j) then [j] else [];
    if j in s.done {
      assert s.done + (s.batch + s.outq + extra) == Ended(s) + extra;
      EndsInOrder(s, i, j, s.done, s.batch + s.outq + extra);
    }
  }

  lemma SiblingThread(s: Pool, i: nat, j: nat)
    requires Inv(s) && Siblings(s, i, j)
    ensures s.items[i].thread == s.items[j].thread < |s.workers|
  {
  }

  lemma EndedBefore(s: Pool, i: nat, j: nat, q: nat)
    requires Inv(s) && Siblings(s, i, j) && q < |Ended(s)| && Ended(s)[q] == j
    ensures i in Ended(s)[..q]
  {
    hide Inv;
    SiblingThread(s, i, j);
    var extra := if s.workers[s.items[j].thread] == Running(j) then [j] else [];
    var e := Ended(s);
    assert e[..q + 1] == e[..q] + [j];
    assert e[..q + 1] + (e[q + 1..] + extra) == e + extra;
    EndsInOrder(s, i, j, e[..q + 1], e[q + 1..] + extra);
  }

  // Assertions in the code.

  /** The transitions that the planner's state machine allows. */
  predicate Allowed(from: Planner, to: Planner) {
    match from
    case Nothing => to == Draining || to == Exited
    case Draining => to == Draining || to == Nothing || to == Barrier
    case Barrier => to == DrainingUnord || to == Draining || to == Barrier
    case DrainingUnord => to == Barrier
    case Exited => false
  }

  /** What the planner's state machine checks after a transition. */
  predicate PlannerInvariant(s: Pool, prev: Planner) {
    && (s.planner == Nothing ==> s.ordered == [] && s.unordered == [])
    && (s.planner == Draining ==>
          && (prev == Barrier ==> s.inFlight == 0 && s.unordered == [])
          && (prev == Nothing ==> s.unordered != [] || s.ordered != []))
    && (s.planner == Exited ==> s.exiting && s.ordered == [] && s.unordered == [])
    && (s.planner == Barrier ==>
          && (prev == Draining ==> AtBarrier(s))
          && (prev == DrainingUnord ==> s.unordered == []))
    && (s.planner == DrainingUnord ==> s.unordered != [])
  }

  /** No assertion of the planner, the workers or the main thread can fail. */
  lemma AssertionsHold(s: Pool)
    requires Reachable(s)
    ensures PlannerReady(s) && PlanStep(s).planner != s.planner ==>
              Allowed(s.planner, PlanStep(s).planner) && PlannerInvariant(PlanStep(s), s.planner)
    ensures s.planner == Barrier ==> AtBarrier(s)
    ensures forall t :: 0 <= t < |s.workers| && s.workers[t].Pushed? ==>
              s.workers[t].id < |s.items| && (IsOrdered(s.items[s.workers[t].id].kind) ==> s.inFlight > 0)
    ensures s.batch != [] ==> s.active > 0
  {
    ReachableInv(s);
    forall t | 0 <= t < |s.workers| && s.workers[t].Pushed?
      ensures s.workers[t].id < |s.items| && (IsOrdered(s.items[s.workers[t].id].kind) ==> s.inFlight > 0)
    {
      assert WorkerOk(s, t);
      FlightAtLeast(s, t);
    }
  }

  // Progress.

  /** The planner waits only when it exited, has nothing to do, or is at a barrier with ordered
    * items in flight. */
  lemma PlannerWaits(s: Pool)
    requires Typed(s) && BarrierHead(s) && !PlannerReady(s)
    ensures || s.planner == Exited
            || (s.planner == Nothing && s.ordered == [] && s.unordered == [] && !s.exiting)
            || (s.planner == Barrier && s.unordered == [] && s.items[s.ordered[0]].kind == Bar && s.inFlight > 0)
  {
  }

  /** While no worker stopped and some item waits or is at work, the planner or a worker can
    * take a step. */
  lemma NoDeadlock(s: Pool) returns (step: Step)
    requires Inv(s) && ExitsLast(s) && forall t :: 0 <= t < |s.workers| ==> s.workers[t] != Stopped
    requires || s.ordered != [] || s.unordered != []
             || exists t :: 0 <= t < |s.workers| && t < |s.inq| && (s.workers[t] != Idle || s.inq[t] != [])
    ensures Enabled(s, step) && (step.Plan? || step.Take? || step.Finish? || step.Account?)
  {
    hide Pipeline;
    hide Fifo;
    hide Separated;
    hide KindsApart;
    if t :| 0 <= t < |s.workers| && (s.workers[t] != Idle || s.inq[t] != []) {
      assert WorkerOk(s, t);
      step := if s.workers[t].Running? then Finish(t) else if s.workers[t].Pushed? then Account(t) else Take(t);
    } else {
      step := Plan;
      var loads := Loads(s, true);
      forall t | 0 <= t < |loads| ensures loads[t] == 0 {
        assert s.workers[t] == Idle && s.inq[t] == [];
      }
      AllZero(loads);
      if !PlannerReady(s) {
        PlannerWaits(s);
        assert false;
      }
    }
  }

  // Shutting down.

  /** An item of thread t, not a barrier, is in the queue. */
  ghost predicate HasWork(q: seq<nat>, items: seq<Item>, t: nat) {
    exists i :: 0 <= i < |q| && WorkOf(q[i], items, t)
  }

  /** The planner has yet to hand over work of thread t. */
  ghost predicate Waiting(s: Pool, t: nat) {
    HasWork(s.ordered, s.items, t) || HasWork(s.unordered, s.items, t)
  }

  /** Work that only thread t can do is in its own queue or with the planner. */
  ghost predicate Owed(s: Pool, t: nat)
    requires t < |s.inq|
  {
    s.inq[t] != [] || Waiting(s, t)
  }

  /** Every worker that stopped was owed nothing. */
  ghost predicate Served(s: Pool) {
    |s.workers| == |s.inq| && forall t :: 0 <= t < |s.workers| && s.workers[t] == Stopped ==> !Owed(s, t)
  }

  ghost predicate StoppedLate(s: Pool) {
    forall t :: 0 <= t < |s.workers| && s.workers[t] == Stopped ==> s.exiting
  }

  lemma HasWorkHead(q: seq<nat>, items: seq<Item>, t: nat)
    requires q != []
    ensures HasWork(q, items, t) <==> WorkOf(q[0], items, t) || HasWork(q[1..], items, t)
  {
    if HasWork(q, items, t) && !WorkOf(q[0], items, t) {
      var i :| 0 <= i < |q| && WorkOf(q[i], items, t);
      assert WorkOf(q[1..][i - 1], items, t);
    }
    if HasWork(q[1..], items, t) {
      var i :| 0 <= i < |q[1..]| && WorkOf(q[1..][i], items, t);
      assert WorkOf(q[i + 1], items, t);
    }
  }

  /** The planner never makes work of a thread appear or disappear. */
  lemma PlanOwed(s: Pool, t: nat)
    requires Typed(s) && BarrierHead(s) && PlannerReady(s) && t < |s.inq|
    ensures |PlanStep(s).inq| == |s.inq| && (Owed(PlanStep(s), t) <==> Owed(s, t))
  {
    hide PlannerReady;
    hide PlanStep;
    var hands, s1, id := PlanCases(s);
    if hands {
      var q := if IsOrdered(s.items[id].kind) then s.ordered else s.unordered;
      HasWorkHead(q, s.items, t);
      assert WorkOf(id, s.items, t) <==> s.items[id].thread == t;
      assert PlanStep(s).items == s.items;
    } else if PlanStep(s).ordered != s.ordered {
      HasWorkHead(s.ordered, s.items, t);
    }
  }

  lemma PlanServed(s: Pool)
    requires Typed(s) && BarrierHead(s) && PlannerReady(s)
    ensures Served(PlanStep(s)) <==> Served(s)
  {
    var s' := PlanStep(s);
    assert s'.workers == s.workers && |s'.inq| == |s.inq|;
    forall t | 0 <= t < |s.inq| ensures Owed(s', t) <==> Owed(s, t) {
      PlanOwed(s, t);
    }
  }

  /** A step leaves a stopped worker with work exactly when one had some already or the
    * step stops a worker whose work is still with the planner. */
  lemma StepServed(s: Pool, step: Step)
    requires Inv(s) && StoppedLate(s) && Enabled(s, step)
    ensures StoppedLate(Apply(s, step))
    ensures Served(Apply(s, step)) <==> Served(s) && (step.Stop? ==> !Waiting(s, step.t))
  {
    hide Waiting;
    var s' := Apply(s, step);
    match step {
      case Submit(kind, cookie) =>
        forall t | 0 <= t < |s.workers| ensures s.workers[t] != Stopped {}
      case Plan => PlanServed(s);
      case _ =>
        assert s'.items == s.items && s'.ordered == s.ordered && s'.unordered == s.unordered;
        forall t | 0 <= t < |s.inq| ensures Waiting(s', t) <==> Waiting(s, t) {
          SameWaiting(s, s', t);
        }
        OtherServed(s, step);
    }
  }

  lemma SameWaiting(s: Pool, s': Pool, t: nat)
    requires s'.items == s.items && s'.ordered == s.ordered && s'.unordered == s.unordered
    ensures Waiting(s', t) <==> Waiting(s, t)
  {
  }

  lemma OtherServed(s: Pool, step: Step)
    requires Enabled(s, step) && !step.Submit? && !step.Plan? && |s.workers| == |s.inq|
    requires forall t :: 0 <= t < |s.inq| ==> (Waiting(Apply(s, step), t) <==> Waiting(s, t))
    ensures Served(Apply(s, step)) <==> Served(s) && (step.Stop? ==> !Waiting(s, step.t))
  {
    hide Waiting;
    var s' := Apply(s, step);
    if step.Stop? {
      assert s'.workers[step.t] == Stopped;
      if Served(s') {
        assert !Owed(s', step.t);
        forall t | 0 <= t < |s.workers| && s.workers[t] == Stopped ensures !Owed(s, t) {
          assert s'.workers[t] == Stopped && !Owed(s', t);
        }
      }
    } else if Served(s') {
      forall t | 0 <= t < |s.workers| && s.workers[t] == Stopped ensures !Owed(s, t) {
        assert s'.workers[t] == Stopped && !Owed(s', t);
      }
    }
  }

  /** Every worker that stops in the run does so with none of its work with the planner. */
  ghost predicate StopsInTime(s: Pool, steps: seq<Step>)
    requires Runs(s, steps)
    decreases |steps|
  {
    steps != [] ==>
      (steps[0].Stop? ==> !Waiting(s, steps[0].t)) && StopsInTime(Apply(s, steps[0]), steps[1..])
  }

  lemma {:induction false} RunServed(s: Pool, steps: seq<Step>)
    requires Inv(s) && StoppedLate(s) && Runs(s, steps)
    ensures Served(Run(s, steps)) <==> Served(s) && StopsInTime(s, steps)
    decreases |steps|
  {
    hide Inv;
    hide Served;
    hide StoppedLate;
    hide Waiting;
    hide Apply;
    hide Enabled;
    if steps != [] {
      StepServed(s, steps[0]);
      StepKeeps(s, steps[0]);
      RunServed(Apply(s, steps[0]), steps[1..]);
    }
  }

  /** The planner exits last: with nothing left to hand over and nothing more to come. */
  predicate ExitsLast(s: Pool) {
    s.planner == Exited ==> s.exiting && s.ordered == [] && s.unordered == []
  }

  lemma {:induction false} RunExitsLast(s: Pool, steps: seq<Step>)
    requires ExitsLast(s) && Runs(s, steps)
    ensures ExitsLast(Run(s, steps))
    decreases |steps|
  {
    if steps != [] {
      RunExitsLast(Apply(s, steps[0]), steps[1..]);
    }
  }

  /** Once the planner handed over all it had, the queues of the stopped workers are all
    * empty exactly when each stopped with none of its work still with the planner. */
  lemma NothingStranded(threads: nat, qosPrio: nat, steps: seq<Step>)
    requires threads > 0 && qosPrio > 0 && Runs(Init(threads, qosPrio), steps)
    ensures var s := Run(Init(threads, qosPrio), steps);
            && |s.workers| == |s.inq|
            && (s.planner == Exited ==> s.ordered == [] && s.unordered == [])
            && (s.ordered == [] && s.unordered == [] ==>
                  ((forall t :: 0 <= t < |s.workers| && s.workers[t] == Stopped ==> s.inq[t] == [])
                   <==> StopsInTime(Init(threads, qosPrio), steps)))
  {
    hide Apply;
    hide Enabled;
    var s0 := Init(threads, qosPrio);
    InitInv(threads, qosPrio);
    RunServed(s0, steps);
    RunKeeps(s0, steps);
    RunExitsLast(s0, steps);
  }

  /** Workers that stop only after the planner did leave nothing in their queues. */
  ghost predicate Drained(s: Pool) {
    && ExitsLast(s) && |s.workers| == |s.inq|
    && forall t :: 0 <= t < |s.workers| && s.workers[t] == Stopped ==> s.planner == Exited && s.inq[t] == []
  }

  /** Every worker that stops in the run does so after the planner exited. */
  ghost predicate Patient(s: Pool, steps: seq<Step>)
    requires Runs(s, steps)
    decreases |steps|
  {
    steps != [] ==>
      (steps[0].Stop? ==> s.planner == Exited) && Patient(Apply(s, steps[0]), steps[1..])
  }

  lemma {:induction false} PatientRunDrains(s: Pool, steps: seq<Step>)
    requires Drained(s) && Runs(s, steps) && Patient(s, steps)
    ensures Drained(Run(s, steps))
    decreases |steps|
  {
    hide Drained;
    if steps != [] {
      PatientStepDrains(s, steps[0]);
      PatientRunDrains(Apply(s, steps[0]), steps[1..]);
    }
  }

  /** Waiting for the planner is one way to stop in time. */
  lemma {:induction false} PatientStopsInTime(s: Pool, steps: seq<Step>)
    requires Drained(s) && Runs(s, steps) && Patient(s, steps)
    ensures StopsInTime(s, steps)
    decreases |steps|
  {
    if steps != [] {
      PatientStepDrains(s, steps[0]);
      PatientStopsInTime(Apply(s, steps[0]), steps[1..]);
    }
  }

  lemma PatientStepDrains(s: Pool, step: Step)
    requires Drained(s) && Enabled(s, step) && (step.Stop? ==> s.planner == Exited)
    ensures Drained(Apply(s, step))
  {
    if step.Plan? {
      PatientPlanDrains(s);
    }
  }

  lemma PatientPlanDrains(s: Pool)
    requires Drained(s) && PlannerReady(s)
    ensures Drained(PlanStep(s))
  {
    forall t | 0 <= t < |s.workers| ensures s.workers[t] != Stopped {}
  }

  /** The pool with one worker that stopped before it was given its only item. */
  function Stranded(planner: Planner, waits: bool): Pool {
    Pool([Item(Unord, 0, 0)], [], if waits then [0] else [], [if waits then [] else [0]], [Stopped],
         [], [], [], planner, 0, 1, true, Bar, 0, 2)
  }

  function AfterSubmit(): Pool {
    SubmitStep(Init(1, 2), Unord, 0)
  }

  lemma StopsFirst()
    ensures Enabled(Init(1, 2), Submit(Unord, 0)) && Apply(Init(1, 2), Submit(Unord, 0)) == AfterSubmit()
    ensures Enabled(AfterSubmit().(exiting := true), Stop(0))
    ensures Apply(AfterSubmit().(exiting := true), Stop(0)) == Stranded(Nothing, true)
  {
    var s := Init(1, 2);
    assert s.inq == [[]] && s.workers == [Idle];
  }

  lemma HandsOverLater()
    ensures PlannerReady(Stranded(Nothing, true)) && PlanStep(Stranded(Nothing, true)) == Stranded(Draining, true)
    ensures PlannerReady(Stranded(Draining, true)) && PlanStep(Stranded(Draining, true)) == Stranded(Draining, false)
    ensures PlannerReady(Stranded(Draining, false)) && PlanStep(Stranded(Draining, false)) == Stranded(Nothing, false)
    ensures PlannerReady(Stranded(Nothing, false)) && PlanStep(Stranded(Nothing, false)) == Stranded(Exited, false)
  {
    var s := Stranded(Draining, true);
    assert s.inq == [[]] && s.inq[0] + [0] == [0];
    assert s.inq[0 := [0]] == [[0]];
    assert s.unordered[1..] == [];
  }

  /** A worker that sees the pool closing before the planner is done can strand work: the
    * planner has exited, the only worker has stopped, and an item is left in its queue. */
  lemma StrandedWork() returns (steps: seq<Step>)
    ensures var s := Init(1, 2);
            Runs(s, steps) && Run(s, steps) == Stranded(Exited, false)
  {
    hide Stranded;
    hide AfterSubmit;
    hide PlanStep;
    hide PlannerReady;
    StopsFirst();
    HandsOverLater();
    var p1, p2, p3, p4 := [Plan], [Plan, Plan], [Plan, Plan, Plan], [Plan, Plan, Plan, Plan];
    assert p2[1..] == p1 && p3[1..] == p2 && p4[1..] == p3;
    assert Runs(Stranded(Nothing, false), p1) && Run(Stranded(Nothing, false), p1) == Stranded(Exited, false);
    assert Runs(Stranded(Draining, false), p2) && Run(Stranded(Draining, false), p2) == Stranded(Exited, false);
    assert Runs(Stranded(Draining, true), p3) && Run(Stranded(Draining, true), p3) == Stranded(Exited, false);
    assert Runs(Stranded(Nothing, true), p4) && Run(Stranded(Nothing, true), p4) == Stranded(Exited, false);
    var p5 := [Stop(0)] + p4;
    var p6 := [Close] + p5;
    steps := [Submit(Unord, 0)] + p6;
    assert p5[1..] == p4 && p6[1..] == p5 && steps[1..] == p6;
    var closing := AfterSubmit().(exiting := true);
    assert Runs(closing, p5) && Run(closing, p5) == Stranded(Exited, false);
    assert Runs(AfterSubmit(), p6) && Run(AfterSubmit(), p6) == Stranded(Exited, false);
  }
}
