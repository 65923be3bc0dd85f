/** Quality of service of the thread pool (src/lib/threadpool.c): how often the planner serves
  * either queue while both have items, told by the items that reach the workers. */
module PoolQos {
  import opened Arithmetic
  import opened PoolSpec
  import opened PoolInvariant
  import opened PoolTheorems

  /** Between the two states exactly this item joins the queue of its worker. */
  ghost predicate Gives(s: Pool, s': Pool, id: nat) {
    ItemKnown(s, id) && s'.inq == s.inq[s.items[id].thread := s.inq[s.items[id].thread] + [id]]
  }

  /** The planner hands over an item while it drains both queues. */
  ghost predicate Drains(s: Pool, step: Step)
    requires Enabled(s, step)
  {
    step.Plan? && s.planner == Draining && exists id: nat :: Gives(s, Apply(s, step), id)
  }

  ghost predicate GivesUnordered(s: Pool, step: Step)
    requires Enabled(s, step)
  {
    exists id: nat :: Gives(s, Apply(s, step), id) && s.items[id].kind == Unord
  }

  /** For each hand-over of the run while draining, whether it was of an unordered item. */
  ghost function Kinds(s: Pool, steps: seq<Step>): seq<bool>
    requires Runs(s, steps)
    decreases |steps|
  {
    if steps == [] then []
    else (if Drains(s, steps[0]) then [GivesUnordered(s, steps[0])] else []) + Kinds(Apply(s, steps[0]), steps[1..])
  }

  /** Both queues have items whenever one is handed over while draining. */
  ghost predicate Busy(s: Pool, steps: seq<Step>)
    requires Runs(s, steps)
    decreases |steps|
  {
    steps != [] ==>
      (Drains(s, steps[0]) ==> s.ordered != [] && s.unordered != []) && Busy(Apply(s, steps[0]), steps[1..])
  }

  lemma GivesOne(s: Pool, s': Pool, id: nat, id': nat)
    requires Gives(s, s', id) && Gives(s, s', id')
    ensures id == id'
  {
    var t, t' := s.items[id].thread, s.items[id'].thread;
    assert |s'.inq[t]| == |s.inq[t]| + 1;
    assert t == t';
    assert s'.inq[t][|s.inq[t]|] == id;
  }

  /** The planner hands over the head of one of the queues, or leaves the workers alone. */
  lemma PlanGives(s: Pool)
    requires Typed(s) && BarrierHead(s) && PlannerReady(s) && s.planner == Draining
    ensures var s' := PlanStep(s);
            var hands := (s.ordered != [] || s.unordered != []) && !AtBarrier(s);
            && (hands <==> exists id: nat :: Gives(s, s', id))
            && (hands ==>
                  if s.ordered != [] && (s.unordered == [] || s.qos % s.qosPrio != 0)
                  then Gives(s, s', s.ordered[0]) && s.items[s.ordered[0]].kind != Unord
                  else Gives(s, s', s.unordered[0]) && s.items[s.unordered[0]].kind == Unord)
  {
    var s' := PlanStep(s);
    if (s.ordered != [] || s.unordered != []) && !AtBarrier(s) {
      if s.ordered != [] && (s.unordered == [] || s.qos % s.qosPrio != 0) {
        assert QueueItem(s.ordered[0], s.items, |s.inq|, true);
        assert Gives(s, s', s.ordered[0]);
      } else {
        assert QueueItem(s.unordered[0], s.items, |s.inq|, false);
        assert Gives(s, s', s.unordered[0]);
      }
    } else {
      assert s'.inq == s.inq;
      forall id: nat | ItemKnown(s, id) ensures !Gives(s, s', id) {
        var t := s.items[id].thread;
        assert |s.inq[t] + [id]| == |s.inq[t]| + 1;
      }
    }
  }

  lemma PlanQos(s: Pool)
    requires s.planner == Draining && PlannerReady(s)
    ensures var s' := PlanStep(s);
            && s'.qosPrio == s.qosPrio
            && s'.qos == if s.ordered != [] && s.unordered != [] && !AtBarrier(s) then (s.qos + 1) % QOS_MODULUS else s.qos
  {
  }

  lemma OtherQos(s: Pool, step: Step)
    requires Enabled(s, step) && !(step.Plan? && s.planner == Draining)
    ensures Apply(s, step).qosPrio == s.qosPrio && Apply(s, step).qos == s.qos
  {
  }

  /** With items in both queues the token decides, and is counted up. */
  lemma StepKinds(s: Pool, step: Step)
    requires Typed(s) && BarrierHead(s) && Enabled(s, step)
    ensures Apply(s, step).qosPrio == s.qosPrio
    ensures Drains(s, step) && s.ordered != [] && s.unordered != [] ==>
              && (GivesUnordered(s, step) <==> s.qos % s.qosPrio == 0)
              && Apply(s, step).qos == (s.qos + 1) % QOS_MODULUS
    ensures !Drains(s, step) ==> Apply(s, step).qos == s.qos
  {
    if step.Plan? && s.planner == Draining {
      PlanGives(s);
      PlanQos(s);
      hide PlanStep;
      hide PlannerReady;
      hide Typed;
      var s' := PlanStep(s);
      hide Gives;
      if Drains(s, step) {
        var id: nat :| Gives(s, s', id);
        forall id': nat | Gives(s, s', id') ensures id' == id {
          GivesOne(s, s', id, id');
        }
      }
    } else {
      OtherQos(s, step);
    }
  }

  lemma InvTyped(s: Pool)
    requires Inv(s)
    ensures Typed(s) && BarrierHead(s) && s.qosPrio > 0
  {
  }

  /** The token, which has 32 bits, is a multiple of the priority after so many counts. */
  predicate Multiple(count: nat, p: nat)
    requires p > 0
  {
    count % QOS_MODULUS % p == 0
  }

  /** The k-th hand-over is of an unordered item exactly when the token is a multiple of the
    * priority by then. */
  lemma {:induction false} KindsByToken(s: Pool, steps: seq<Step>, k: nat)
    requires Inv(s) && Runs(s, steps) && Busy(s, steps) && s.qos < QOS_MODULUS && k < |Kinds(s, steps)|
    ensures s.qosPrio > 0 && (Kinds(s, steps)[k] <==> Multiple(s.qos + k, s.qosPrio))
    decreases |steps|
  {
    hide Apply;
    hide Enabled;
    hide Drains;
    hide GivesUnordered;
    hide Inv;
    hide Typed;
    hide BarrierHead;
    hide Multiple;
    InvTyped(s);
    if steps != [] {
      var s' := Apply(s, steps[0]);
      StepKinds(s, steps[0]);
      StepKeeps(s, steps[0]);
      NextToken(s.qos, k, s.qosPrio);
      if !Drains(s, steps[0]) {
        KindsByToken(s', steps[1..], k);
      } else if k > 0 {
        KindsByToken(s', steps[1..], k - 1);
      }
    }
  }

  lemma NextToken(q: nat, k: nat, p: nat)
    requires q < QOS_MODULUS && p > 0
    ensures (q + 1) % QOS_MODULUS < QOS_MODULUS
    ensures k == 0 ==> (Multiple(q + k, p) <==> q % p == 0)
    ensures k > 0 ==> (Multiple((q + 1) % QOS_MODULUS + (k - 1), p) <==> Multiple(q + k, p))
  {
    if k > 0 && q + 1 == QOS_MODULUS {
      ModPlus(k - 1, QOS_MODULUS);
    }
  }

  // How many of some consecutive tokens are multiples.

  function Count(b: seq<bool>): nat {
    if b == [] then 0 else Count(b[..|b| - 1]) + if b[|b| - 1] then 1 else 0
  }

  /** The multiples of p among n tokens from a on. */
  function Hits(a: nat, n: nat, p: nat): nat
    requires p > 0
  {
    if n == 0 then 0 else Hits(a, n - 1, p) + if Multiple(a + n - 1, p) then 1 else 0
  }

  /** The first multiple of p from a on. */
  function NextMultiple(a: nat, p: nat): nat
    requires p > 0
  {
    if a % p == 0 then a else a + p - a % p
  }

  lemma MultipleIs(a: nat, i: nat, p: nat)
    requires p > 0 && i < p
    ensures (a + i) % p == 0 <==> a + i == NextMultiple(a, p)
  {
    var q, r := a / p, a % p;
    assert a + i == q * p + (r + i);
    ModAdd(q, p, r + i);
    if r + i < p {
      DivModUnique(r + i, p, 0, r + i);
    } else {
      DivModUnique(r + i, p, 1, r + i - p);
    }
  }

  /** Fewer tokens than p in a row, without a wrap, hit one multiple at most. */
  lemma {:induction false} HitsStraight(a: nat, n: nat, p: nat)
    requires 0 < p && n <= p && a + n <= QOS_MODULUS
    ensures Hits(a, n, p) == if NextMultiple(a, p) < a + n then 1 else 0
  {
    if n > 0 {
      HitsStraight(a, n - 1, p);
      MultipleIs(a, n - 1, p);
      InRange(a + n - 1);
    }
  }

  lemma InRange(x: nat)
    ensures x < QOS_MODULUS ==> x % QOS_MODULUS == x
    ensures QOS_MODULUS <= x < 2 * QOS_MODULUS ==> x % QOS_MODULUS == x - QOS_MODULUS
  {
  }

  lemma {:induction false} HitsWrapped(a: nat, n: nat, p: nat)
    requires p > 0 && a <= QOS_MODULUS <= a + n <= 2 * QOS_MODULUS
    ensures Hits(a, n, p) == Hits(a, QOS_MODULUS - a, p) + Hits(0, a + n - QOS_MODULUS, p)
  {
    if a + n > QOS_MODULUS {
      HitsWrapped(a, n - 1, p);
      InRange(a + n - 1);
      InRange(a + n - 1 - QOS_MODULUS);
    }
  }

  /** Of p consecutive tokens one is a multiple of p; but two are, when the token wraps around
    * among them and another multiple came before. */
  lemma WindowHits(a: nat, p: nat)
    requires 0 < p <= QOS_MODULUS && a < QOS_MODULUS
    ensures Hits(a, p, p) == if a + p <= QOS_MODULUS || NextMultiple(a, p) >= QOS_MODULUS then 1 else 2
  {
    if a + p <= QOS_MODULUS {
      HitsStraight(a, p, p);
      NextIsNear(a, p);
    } else {
      HitsWrapped(a, p, p);
      HitsStraight(a, QOS_MODULUS - a, p);
      HitsStraight(0, a + p - QOS_MODULUS, p);
    }
  }

  lemma NextIsNear(a: nat, p: nat)
    requires p > 0
    ensures NextMultiple(a, p) < a + p
  {
  }

  // Runs.

  lemma {:induction false} CountHits(s: Pool, steps: seq<Step>, i: nat, n: nat)
    requires Inv(s) && Runs(s, steps) && Busy(s, steps) && s.qos < QOS_MODULUS && i + n <= |Kinds(s, steps)| && s.qosPrio > 0
    ensures Count(Kinds(s, steps)[i..i + n]) == Hits((s.qos + i) % QOS_MODULUS, n, s.qosPrio)
    decreases n
  {
    hide Kinds;
    hide Inv;
    hide Busy;
    hide Runs;
    var kinds := Kinds(s, steps);
    if n > 0 {
      CountHits(s, steps, i, n - 1);
      KindsByToken(s, steps, i + n - 1);
      assert kinds[i..i + n][..n - 1] == kinds[i..i + n - 1];
      SameToken(s.qos + i, n - 1);
    }
  }

  lemma SameToken(x: nat, k: nat)
    ensures (x % QOS_MODULUS + k) % QOS_MODULUS == (x + k) % QOS_MODULUS
  {
    var q, r := x / QOS_MODULUS, x % QOS_MODULUS;
    ModAdd(q, QOS_MODULUS, r + k);
  }

  /** While both queues have items, any qosPrio hand-overs in a row are of one unordered item
    * and otherwise ordered ones. The exception is when the token wraps around among them: then
    * two are unordered if a multiple of the priority came before, which does not happen when
    * the priority divides 2 to the 32. */
  lemma FairShare(s: Pool, steps: seq<Step>, i: nat)
    requires Inv(s) && Runs(s, steps) && Busy(s, steps) && s.qos < QOS_MODULUS && s.qosPrio <= QOS_MODULUS
    requires i + s.qosPrio <= |Kinds(s, steps)|
    ensures var a, p := (s.qos + i) % QOS_MODULUS, s.qosPrio;
            && p > 0
            && Count(Kinds(s, steps)[i..i + p]) == (if a + p <= QOS_MODULUS || NextMultiple(a, p) >= QOS_MODULUS then 1 else 2)
            && (QOS_MODULUS % p == 0 ==> Count(Kinds(s, steps)[i..i + p]) == 1)
  {
    hide Kinds;
    InvTyped(s);
    hide Inv;
    hide Busy;
    hide Runs;
    var a, p := (s.qos + i) % QOS_MODULUS, s.qosPrio;
    CountHits(s, steps, i, p);
    WindowHits(a, p);
    if QOS_MODULUS % p == 0 && a + p > QOS_MODULUS {
      MultipleIs(a, QOS_MODULUS - a, p);
    }
  }

  /** The token stays within its 32 bits. */
  lemma {:induction false} TokenBounded(s: Pool, steps: seq<Step>)
    requires Inv(s) && Runs(s, steps) && s.qos < QOS_MODULUS
    ensures Run(s, steps).qos < QOS_MODULUS
    decreases |steps|
  {
    hide Apply;
    hide Enabled;
    hide Inv;
    if steps != [] {
      StepKeeps(s, steps[0]);
      TokenStep(s, steps[0]);
      TokenBounded(Apply(s, steps[0]), steps[1..]);
    }
  }

  lemma TokenStep(s: Pool, step: Step)
    requires Enabled(s, step) && s.qos < QOS_MODULUS
    ensures Apply(s, step).qos < QOS_MODULUS
  {
    if step.Plan? && s.planner == Draining {
      PlanQos(s);
    } else {
      OtherQos(s, step);
    }
  }
}
