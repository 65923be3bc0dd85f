/** The thread pool of src/lib/threadpool.c as the code its threads run.
  *
  * A method is what one thread does while it holds the mutex, or while no other thread
  * looks: it leaves the pool in a state that the steps recorded so far lead to.
  */
module ThreadPool {
  import opened PoolSpec
  import PoolInvariant
  import opened PoolTheorems

  lemma {:induction false} RunSnoc(s: Pool, steps: seq<Step>, step: Step)
    requires Runs(s, steps) && Enabled(Run(s, steps), step)
    ensures Runs(s, steps + [step]) && Run(s, steps + [step]) == Apply(Run(s, steps), step)
    decreases |steps|
  {
    hide Apply;
    hide Enabled;
    if steps == [] {
      assert [step][1..] == [];
      assert steps + [step] == [step];
    } else {
      RunSnoc(Apply(s, steps[0]), steps[1..], step);
      assert (steps + [step])[1..] == steps[1..] + [step];
    }
  }

  /** How far the planner is from having to wait, for queues of n items, u unordered. */
  function Rank(p: Planner, n: nat, u: nat): nat {
    match p
    case Nothing => if n > 0 then 5 else 1
    case Draining => 4
    case Barrier => if u > 0 then 3 else 0
    case DrainingUnord => if u > 0 then 2 else 1
    case Exited => 0
  }

  /** The item that quality of service puts next, and the queues without it. */
  function NextUp(s: Pool): nat
    requires s.ordered != [] || s.unordered != []
    requires s.qosPrio > 0
  {
    if ServesOrdered(s) then s.ordered[0] else s.unordered[0]
  }

  function Popped(s: Pool): Pool
    requires s.ordered != [] || s.unordered != []
    requires s.qosPrio > 0
  {
    var s' := if s.ordered != [] && s.unordered != [] then s.(qos := (s.qos + 1) % QOS_MODULUS) else s;
    if ServesOrdered(s) then s'.(ordered := s.ordered[1..]) else s'.(unordered := s.unordered[1..])
  }

  class ThreadPool {
    const threads: nat
    const qosPrio: nat
    var items: seq<Item>
    var ordered: seq<nat>
    var unordered: seq<nat>
    var inq: seq<seq<nat>>
    var workers: seq<Worker>
    var outq: seq<nat>
    var batch: seq<nat>
    var done: seq<nat>
    var planner: Planner
    var inFlight: nat
    var active: nat
    var exiting: bool
    var ordPrev: Kind
    var qos: nat

    /** What the threads did so far. */
    ghost var steps: seq<Step>

    ghost function State(): Pool
      reads this
    {
      Pool(items, ordered, unordered, inq, workers, outq, batch, done,
           planner, inFlight, active, exiting, ordPrev, qos, qosPrio)
    }

    ghost predicate Valid()
      reads this
    {
      threads > 0 && qosPrio > 0 && Reaches(threads, qosPrio, steps, State())
    }

    constructor (threads: nat, qosPrio: nat)
      requires threads > 0 && qosPrio > 0
      ensures Valid() && State() == Init(threads, qosPrio)
    {
      this.threads, this.qosPrio := threads, qosPrio;
      items, ordered, unordered := [], [], [];
      inq, workers := seq(threads, _ => []), seq(threads, _ => Idle);
      outq, batch, done := [], [], [];
      planner, inFlight, active := Nothing, 0, 0;
      exiting, ordPrev, qos := false, Bar, 0;
      steps := [];
    }

    ghost method Record(s: Pool, step: Step)
      requires Reaches(threads, qosPrio, steps, s) && Enabled(s, step) && State() == Apply(s, step)
      modifies this`steps
      ensures Valid() && steps == old(steps) + [step]
    {
      RunSnoc(Init(threads, qosPrio), steps, step);
      steps := steps + [step];
    }

    lemma Facts()
      requires Valid()
      ensures |inq| > 0
      ensures ordered != [] ==> ItemKnown(State(), ordered[0])
      ensures unordered != [] ==> ItemKnown(State(), unordered[0]) && items[unordered[0]].kind == Unord
      ensures BarrierHead(State())
    {
      ReachableInv(State());
    }

    method QueueWork(kind: Kind, cookie: nat)
      requires Valid() && MaySubmit(State(), kind)
      modifies this
      ensures Valid() && |old(inq)| > 0 && State() == SubmitStep(old(State()), kind, cookie)
      ensures steps == old(steps) + [Submit(kind, cookie)]
    {
      hide Reaches;
      Facts();
      ghost var s := State();
      var id := |items|;
      items := items + [Item(kind, cookie, cookie % |inq|)];
      if kind != Bar {
        active := active + 1;
      }
      if kind != Unord {
        ordPrev := kind;
      }
      if kind == Unord {
        unordered := unordered + [id];
      } else {
        ordered := ordered + [id];
      }
      Record(s, Submit(kind, cookie));
    }

    /** Take the next item from either queue, by quality of service. */
    method QosPop() returns (id: nat)
      requires ordered != [] || unordered != []
      modifies this`ordered, this`unordered, this`qos
      requires qosPrio > 0
      ensures id == NextUp(old(State())) && State() == Popped(old(State()))
    {
      var first: bool;
      if ordered == [] {
        first := false;
      } else if unordered == [] {
        first := true;
      } else {
        first := qos % qosPrio != 0;
        qos := (qos + 1) % QOS_MODULUS;
      }
      if first {
        id, ordered := ordered[0], ordered[1..];
      } else {
        id, unordered := unordered[0], unordered[1..];
      }
    }

    method Push(id: nat)
      requires ItemKnown(State(), id)
      modifies this`inq, this`inFlight
      ensures State() == HandOver(old(State()), id)
    {
      var t := items[id].thread;
      inq := inq[t := inq[t] + [id]];
      if IsOrdered(items[id].kind) {
        inFlight := inFlight + 1;
      }
    }

    lemma PlanDrains(s: Pool)
      requires s.planner == Draining && (s.ordered != [] || s.unordered != []) && !AtBarrier(s) && s.qosPrio > 0
      requires ItemKnown(s, if ServesOrdered(s) then s.ordered[0] else s.unordered[0])
      ensures Enabled(s, Plan) && ItemKnown(Popped(s), NextUp(s)) && Apply(s, Plan) == HandOver(Popped(s), NextUp(s))
      ensures |Popped(s).ordered| + |Popped(s).unordered| == |s.ordered| + |s.unordered| - 1
      ensures Popped(s).planner == s.planner && Popped(s).exiting == s.exiting
    {
    }

    /** The planner hands over one item, by quality of service. */
    method HandNext()
      requires Valid() && planner == Draining && (ordered != [] || unordered != []) && !AtBarrier(State())
      modifies this
      ensures Valid() && steps == old(steps) + [Plan] && planner == Draining && exiting == old(exiting)
      ensures |ordered| + |unordered| == old(|ordered| + |unordered|) - 1
    {
      hide Reaches;
      hide Apply;
      hide Enabled;
      hide BarrierHead;
      hide Popped;
      hide NextUp;
      Facts();
      PlanDrains(State());
      ghost var s := State();
      var id := QosPop();
      Push(id);
      Record(s, Plan);
    }

    /** The planner hands over items until the queues are empty or a barrier is next. */
    method Drain()
      requires Valid() && planner == Draining
      modifies this
      ensures Valid() && OnlyPlans(old(steps), steps) && exiting == old(exiting)
      ensures planner == Nothing ==> ordered == [] && unordered == []
      ensures planner == Nothing || (planner == Barrier && AtBarrier(State()))
      ensures |ordered| + |unordered| <= old(|ordered| + |unordered|)
    {
      hide Reaches;
      while ordered != [] || unordered != []
        invariant Valid() && planner == Draining && OnlyPlans(old(steps), steps) && exiting == old(exiting)
        invariant |ordered| + |unordered| <= old(|ordered| + |unordered|)
        decreases |ordered| + |unordered|
      {
        Facts();
        if ordered != [] && items[ordered[0]].kind == Bar {
          ghost var s := State();
          planner := Barrier;
          Record(s, Plan);
          return;
        }
        HandNext();
      }
      ghost var s := State();
      planner := Nothing;
      Record(s, Plan);
    }

    /** The planner hands over the unordered items while it is at a barrier. */
    method DrainUnord()
      requires Valid() && planner == DrainingUnord
      modifies this
      ensures Valid() && OnlyPlans(old(steps), steps) && exiting == old(exiting)
      ensures planner == Barrier && unordered == [] && ordered == old(ordered)
    {
      hide Reaches;
      while unordered != []
        invariant Valid() && planner == DrainingUnord && OnlyPlans(old(steps), steps)
        invariant ordered == old(ordered) && exiting == old(exiting)
        decreases |unordered|
      {
        Facts();
        ghost var s := State();
        var id := unordered[0];
        unordered := unordered[1..];
        Push(id);
        Record(s, Plan);
      }
      ghost var s := State();
      planner := Barrier;
      Record(s, Plan);
    }

    /** At a barrier the unordered items go first; then the barrier itself is dropped, once
      * no ordered item is in flight. */
    method LeaveBarrier()
      requires Valid() && planner == Barrier && (unordered != [] || inFlight == 0)
      modifies this
      ensures Valid() && steps == old(steps) + [Plan] && exiting == old(exiting) && unordered == old(unordered)
      ensures old(unordered) != [] ==> planner == DrainingUnord && ordered == old(ordered)
      ensures old(unordered) == [] ==> planner == Draining && |old(ordered)| > 0 && ordered == old(ordered)[1..]
    {
      hide Reaches;
      Facts();
      ghost var s := State();
      if unordered != [] {
        planner := DrainingUnord;
      } else {
        assert items[ordered[0]].kind == Bar;
        ordered := ordered[1..];
        planner := Draining;
      }
      Record(s, Plan);
    }

    /** The planner thread from one wait to the next: it always gets there. */
    method RunPlanner()
      requires Valid()
      modifies this
      ensures Valid() && OnlyPlans(old(steps), steps)
      ensures !PlannerReady(State())
    {
      hide Reaches;
      while true
        invariant Valid() && OnlyPlans(old(steps), steps)
        decreases |ordered| + |unordered|, Rank(planner, |ordered| + |unordered|, |unordered|)
      {
        Facts();
        ghost var s := State();
        match planner
        case Nothing =>
          if ordered == [] && unordered == [] && !exiting {
            return;
          }
          planner := if exiting && ordered == [] && unordered == [] then Exited else Draining;
          Record(s, Plan);
        case Draining =>
          Drain();
        case Barrier =>
          if unordered == [] && inFlight != 0 {
            return;
          }
          LeaveBarrier();
        case DrainingUnord =>
          DrainUnord();
        case Exited =>
          return;
      }
    }

    method TakeWork(t: nat)
      requires Valid() && Enabled(State(), Take(t))
      modifies this
      ensures Valid() && State() == Apply(old(State()), Take(t)) && steps == old(steps) + [Take(t)]
    {
      hide Reaches;
      ghost var s := State();
      workers := workers[t := Running(inq[t][0])];
      inq := inq[t := inq[t][1..]];
      Record(s, Take(t));
    }

    method FinishWork(t: nat)
      requires Valid() && Enabled(State(), Finish(t))
      modifies this
      ensures Valid() && State() == Apply(old(State()), Finish(t)) && steps == old(steps) + [Finish(t)]
    {
      hide Reaches;
      ghost var s := State();
      outq := outq + [workers[t].id];
      workers := workers[t := Pushed(workers[t].id)];
      Record(s, Finish(t));
    }

    method AccountWork(t: nat)
      requires Valid() && t < |workers| && workers[t].Pushed?
      modifies this
      ensures Enabled(old(State()), Account(t))
      ensures Valid() && State() == Apply(old(State()), Account(t)) && steps == old(steps) + [Account(t)]
    {
      hide Reaches;
      AssertionsHold(State());
      ghost var s := State();
      if IsOrdered(items[workers[t].id].kind) {
        inFlight := inFlight - 1;
      }
      workers := workers[t := Idle];
      Record(s, Account(t));
    }

    /** The oldest collected item is completed. */
    method CompleteFirst()
      requires Valid() && batch != []
      modifies this
      ensures Valid() && outq == old(outq) && batch == old(batch)[1..] && done == old(done) + [old(batch)[0]]
      ensures active == old(active) - 1 && steps == old(steps) + [Complete]
    {
      hide Reaches;
      AssertionsHold(State());
      ghost var s := State();
      done, batch := done + [batch[0]], batch[1..];
      active := active - 1;
      Record(s, Complete);
    }

    /** The main thread collects what ended and completes it, first to last. */
    method WorkDone()
      requires Valid() && batch == []
      modifies this
      ensures Valid() && batch == [] && outq == []
      ensures done == old(done) + old(outq) && active == old(active) - |old(outq)|
      ensures old(steps) <= steps && |steps| == |old(steps)| + 1 + |old(outq)|
    {
      ghost var s := State();
      batch, outq := outq, [];
      Record(s, Collect);
      hide Valid;
      while batch != []
        invariant Valid() && outq == []
        invariant done + batch == old(done) + old(outq) && active - |batch| == old(active) - |old(outq)|
        invariant old(steps) <= steps && |steps| == |old(steps)| + 1 + |old(outq)| - |batch|
        decreases |batch|
      {
        assert done + batch == done + [batch[0]] + batch[1..];
        CompleteFirst();
      }
    }
  }

  /** Only the planner made a step. */
  ghost predicate OnlyPlans(before: seq<Step>, after: seq<Step>) {
    before <= after && forall i :: |before| <= i < |after| ==> after[i] == Plan
  }
}
