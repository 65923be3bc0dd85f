/** Membership changes (src/raft/client.c, src/raft/membership.c): a leader appends one
  * configuration at a time, and each differs from the one before by at most one voter.
  *
  * Of the log, only its last index and its configuration entries matter here. Whether
  * the entry can be appended and its replication started is up to the environment.
  */
module Membership {
  import opened Quorum
  import opened Configuration

  /** The configuration in use, or the memory that held it and has been released. */
  datatype InUse = Live(members: Members) | Freed

  /** A request is pending while change is set. */
  datatype Group = Group(
    self: nat, leader: bool, transfer: nat, inUse: InUse,
    uncommitted: nat, committed: nat, promotee: nat, change: bool, lastIndex: nat, configs: map<nat, Members>)

  /** ReadsFreed: the operation reads a configuration that was released.
    * Asserts: the operation reaches its assertion that no request is pending. */
  datatype Outcome =
    | Done | NotLeader | CantChange | NotFound | SameRole | Clash(error: Error) | IoError | ReadsFreed | Asserts

  datatype Op =
    | AddOp(id: nat, address: string)
    | RemoveOp(id: nat)
    | AssignOp(id: nat, role: Role, upToDate: bool)
    | PromoteOp
    | CommandOp
    | CommitOp

  /** What becomes of a new entry: it is appended and its replication starts, it cannot be
    * appended, it is appended but there is no memory to track a different number of servers,
    * or it is appended but its replication does not start. */
  datatype Fate = Works | NoEntry | NoProgress | NotStarted

  // What the operations do.

  /** Why no change can be made now. */
  function Refusal(g: Group): Outcome {
    if !g.leader || g.transfer != 0 then NotLeader
    else if g.uncommitted != 0 || g.promotee != 0 then CantChange
    else Done
  }

  /** The configuration appended, in use and uncommitted. */
  function Appended(g: Group, c: Members): Group {
    g.(inUse := Live(c), lastIndex := g.lastIndex + 1, uncommitted := g.lastIndex + 1,
       configs := g.configs[g.lastIndex + 1 := c])
  }

  /** Put a changed copy of the configuration in its place. Without memory to track its
    * servers the entry stays in the log. When the replication does not start, the entry is
    * dropped and the copy released, although it is in use by then. */
  function Replaced(g: Group, c: Members, fate: Fate): (Group, Outcome) {
    match fate
    case Works => (Appended(g, c).(change := true), if g.change then Asserts else Done)
    case NoEntry => (g, IoError)
    case NoProgress => (g.(lastIndex := g.lastIndex + 1, configs := g.configs[g.lastIndex + 1 := c]), IoError)
    case NotStarted => (g.(inUse := Freed), IoError)
  }

  /** A change of a role, which leaves the number of servers alone, fails. */
  predicate RoleFails(fate: Fate) {
    fate == NoEntry || fate == NotStarted
  }

  function Place(c: Members, id: nat): nat {
    if c == [] || c[0].id == id then 0 else 1 + Place(c[1..], id)
  }

  lemma {:induction false} PlaceIs(c: Members, id: nat)
    ensures Place(c, id) <= |c|
    ensures Place(c, id) < |c| ==> c[Place(c, id)].id == id
    ensures forall i :: 0 <= i < Place(c, id) ==> c[i].id != id
  {
    if c != [] && c[0].id != id {
      PlaceIs(c[1..], id);
      forall i | 0 <= i < Place(c, id) ensures c[i].id != id {
        if i > 0 {
          assert c[i] == c[1..][i - 1];
        }
      }
    }
  }

  /** The first configuration entry after an index, or zero. */
  function Next(configs: map<nat, Members>, i: nat, last: nat): (n: nat)
    ensures n == 0 ==> forall k :: i < k <= last ==> k !in configs
    ensures n != 0 ==> i < n <= last && n in configs && forall k :: i < k < n ==> k !in configs
    decreases last - i
  {
    if i >= last then 0 else if i + 1 in configs then i + 1 else Next(configs, i + 1, last)
  }

  function NextChange(g: Group): nat {
    Next(g.configs, g.committed, g.lastIndex)
  }

  /** The operation needs the configuration in use; the others here do not. */
  predicate Reads(g: Group, op: Op) {
    match op
    case PromoteOp => g.leader && g.promotee != 0
    case CommandOp => g.leader
    case CommitOp => g.leader && NextChange(g) != 0
    case _ => Refusal(g) == Done
  }

  /** The new state and the outcome of an operation. */
  function Apply(g: Group, op: Op, fate: Fate): (Group, Outcome) {
    if !Reads(g, op) then ApplyUnread(g, op)
    else if g.inUse.Freed? then (g, ReadsFreed)
    else ApplyLive(g, op, fate)
  }

  function Committed(g: Group, n: nat): Group {
    g.(committed := n, uncommitted := if g.uncommitted == n then 0 else g.uncommitted)
  }

  function ApplyUnread(g: Group, op: Op): (Group, Outcome)
    requires !Reads(g, op)
  {
    match op
    case PromoteOp => (g, NotLeader)
    case CommandOp => (g.(lastIndex := g.lastIndex + 1), Done)
    case CommitOp => (if NextChange(g) == 0 then g else Committed(g, NextChange(g)), Done)
    case _ => (g, Refusal(g))
  }

  function ApplyLive(g: Group, op: Op, fate: Fate): (Group, Outcome)
    requires g.inUse.Live? && Reads(g, op)
  {
    var c := g.inUse.members;
    match op
    case AddOp(id, address) =>
      if AddError(c, id, address) != Ok then (g, Clash(AddError(c, id, address)))
      else Replaced(g, c + [Member(id, address, Spare)], fate)
    case RemoveOp(id) =>
      PlaceIs(c, id);
      if Place(c, id) == |c| then (g, Clash(BadId)) else Replaced(g, Without(c, Place(c, id)), fate)
    case AssignOp(id, role, upToDate) =>
      PlaceIs(c, id);
      if Place(c, id) == |c| then (g, NotFound)
      else if c[Place(c, id)].role == role then (g, SameRole)
      else if g.change then (g, Asserts)
      else if role == Voter && !upToDate then (g.(promotee := id, change := true), Done)
      else if RoleFails(fate) then (g.(change := true), IoError)
      else (Appended(g, WithRole(c, Place(c, id), role)).(change := true), Done)
    case PromoteOp =>
      PlaceIs(c, g.promotee);
      if Place(c, g.promotee) == |c| || g.promotee in Voters(c) then (g, Asserts)
      else if RoleFails(fate) then (g, IoError)
      else (Appended(g, WithRole(c, Place(c, g.promotee), Voter)).(promotee := 0), Done)
    case CommandOp => (g.(lastIndex := g.lastIndex + 1), Done)
    case CommitOp => (Committed(g, NextChange(g)).(change := false, leader := g.self in Voters(c)), Done)
  }

  // What they keep.

  ghost predicate LogInv(g: Group) {
    && 0 < g.committed <= g.lastIndex && g.committed in g.configs
    && (forall i :: i in g.configs ==> i <= g.lastIndex)
    && (g.uncommitted != 0 ==> g.committed < g.uncommitted && g.uncommitted in g.configs)
    && (g.promotee != 0 ==> g.uncommitted == 0)
  }

  /** The configuration in use is valid, it is the uncommitted one if there is one, and a
    * server that waits for its promotion is one of its servers and no voter. */
  ghost predicate Inv(g: Group) {
    && LogInv(g) && g.inUse.Live? && Distinct(g.inUse.members)
    && (g.uncommitted != 0 ==> g.inUse.members == g.configs[g.uncommitted])
    && (g.promotee != 0 ==> Place(g.inUse.members, g.promotee) < |g.inUse.members| && g.promotee !in Voters(g.inUse.members))
  }

  /** The configuration was released together with the copy that had replaced it; no
    * change was under way at the time. */
  ghost predicate Dangling(g: Group) {
    LogInv(g) && g.inUse.Freed? && g.uncommitted == 0 && g.promotee == 0
  }

  /** An addition or removal that passes every test of the code. */
  ghost predicate Replaces(g: Group, op: Op) {
    && g.inUse.Live? && Refusal(g) == Done
    && match op
       case AddOp(id, address) => AddError(g.inUse.members, id, address) == Ok
       case RemoveOp(id) => Place(g.inUse.members, id) < |g.inUse.members|
       case _ => false
  }

  /** The step that releases the configuration in use. */
  ghost predicate Frees(g: Group, op: Op, fate: Fate) {
    Replaces(g, op) && fate == NotStarted
  }

  /** An operation releases the configuration in use exactly when it is an addition or
    * removal that passes every test and whose replication does not start. */
  lemma ApplyKeeps(g: Group, op: Op, fate: Fate)
    requires Inv(g) && (op.AddOp? ==> op.id != 0)
    ensures Frees(g, op, fate) ==> Dangling(Apply(g, op, fate).0)
    ensures !Frees(g, op, fate) ==> Inv(Apply(g, op, fate).0)
  {
    if Reads(g, op) && (op.AddOp? || op.RemoveOp?) {
      ReplaceKeeps(g, op, fate);
    } else if Reads(g, op) && (op.AssignOp? || op.PromoteOp?) {
      AssignKeeps(g, op, fate);
    }
  }

  lemma ReplaceKeeps(g: Group, op: Op, fate: Fate)
    requires Inv(g) && Refusal(g) == Done && (op.AddOp? || op.RemoveOp?) && (op.AddOp? ==> op.id != 0)
    ensures Frees(g, op, fate) ==> Dangling(Apply(g, op, fate).0)
    ensures !Frees(g, op, fate) ==> Inv(Apply(g, op, fate).0)
  {
    hide Voters;
    hide Distinct;
    hide Next;
    var c := g.inUse.members;
    if op.AddOp? {
      if AddError(c, op.id, op.address) == Ok {
        AddDistinct(c, Member(op.id, op.address, Spare));
      }
    } else {
      PlaceIs(c, op.id);
      if Place(c, op.id) < |c| {
        WithoutDistinct(c, Place(c, op.id));
      }
    }
  }

  lemma AssignKeeps(g: Group, op: Op, fate: Fate)
    requires Inv(g) && Reads(g, op) && (op.AssignOp? || op.PromoteOp?)
    ensures Inv(Apply(g, op, fate).0)
  {
    hide Distinct;
    hide Next;
    var c := g.inUse.members;
    var id := if op.AssignOp? then op.id else g.promotee;
    PlaceIs(c, id);
    if Place(c, id) < |c| {
      IsVoter(c, Place(c, id), id);
      hide Voters;
      WithRoleDistinct(c, Place(c, id), if op.AssignOp? then op.role else Voter);
    }
  }

  lemma DanglingStays(g: Group, op: Op, fate: Fate)
    requires Dangling(g)
    ensures Dangling(Apply(g, op, fate).0)
    ensures Apply(g, op, fate).1 == ReadsFreed <==> Reads(g, op)
  {
  }

  // Runs.

  function Run(g: Group, ops: seq<(Op, Fate)>): Group
    decreases |ops|
  {
    if ops == [] then g else Run(Apply(g, ops[0].0, ops[0].1).0, ops[1..])
  }

  /** No server is added under the id zero. */
  ghost predicate Legal(ops: seq<(Op, Fate)>) {
    forall i :: 0 <= i < |ops| ==> ops[i].0.AddOp? ==> ops[i].0.id != 0
  }

  ghost predicate NeverFrees(g: Group, ops: seq<(Op, Fate)>)
    decreases |ops|
  {
    ops != [] ==> !Frees(g, ops[0].0, ops[0].1) && NeverFrees(Apply(g, ops[0].0, ops[0].1).0, ops[1..])
  }

  lemma {:induction false} RunDangling(g: Group, ops: seq<(Op, Fate)>)
    requires Dangling(g)
    ensures Dangling(Run(g, ops))
    decreases |ops|
  {
    hide Apply;
    if ops != [] {
      DanglingStays(g, ops[0].0, ops[0].1);
      RunDangling(Apply(g, ops[0].0, ops[0].1).0, ops[1..]);
    }
  }

  /** A run ends with a configuration in use exactly when no operation released it. */
  lemma {:induction false} RunKeeps(g: Group, ops: seq<(Op, Fate)>)
    requires Inv(g) && Legal(ops)
    ensures if NeverFrees(g, ops) then Inv(Run(g, ops)) else Dangling(Run(g, ops))
    decreases |ops|
  {
    hide Apply;
    hide Inv;
    hide Dangling;
    hide Frees;
    if ops != [] {
      var (op, fate) := ops[0];
      ApplyKeeps(g, op, fate);
      var next := Apply(g, op, fate).0;
      if Frees(g, op, fate) {
        RunDangling(next, ops[1..]);
      } else {
        RunKeeps(next, ops[1..]);
      }
    }
  }

  /** No change is made while one is uncommitted. */
  lemma OneChangeAtATime(g: Group, op: Op, fate: Fate)
    requires Inv(g) && g.uncommitted != 0
    ensures var g' := Apply(g, op, fate).0;
            g'.inUse == g.inUse && g'.configs == g.configs
  {
  }

  // The voters of all configurations that servers can be using.

  /** The committed configuration, or one that follows it in the log. */
  ghost predicate Logged(g: Group, c: Members) {
    exists i :: i in g.configs && i >= g.committed && g.configs[i] == c
  }

  /** A configuration that some server can be using. */
  ghost predicate InForce(g: Group, c: Members) {
    Logged(g, c) || (g.inUse.Live? && g.inUse.members == c)
  }

  /** The leader's configuration can be read, and the voters of each two configurations that
    * servers can be using are one apart. */
  ghost predicate Sound(g: Group) {
    && g.inUse.Live?
    && forall a, b {:trigger InForce(g, a), InForce(g, b)} ::
         InForce(g, a) && InForce(g, b) ==> OneApart(Voters(a), Voters(b))
  }

  /** Then their majorities meet. */
  lemma SoundMeets(g: Group, a: Members, b: Members, p: set<nat>, q: set<nat>)
    requires Sound(g) && InForce(g, a) && InForce(g, b) && Majority(p, Voters(a)) && Majority(q, Voters(b))
    ensures p * q != {}
  {
    hide InForce;
    MajoritiesMeet(Voters(a), Voters(b), p, q);
  }

  /** The operation passes every test of the code and its entry stays in the log. */
  ghost predicate Appends(g: Group, op: Op, fate: Fate) {
    g.inUse.Live? && Reads(g, op) &&
    var c := g.inUse.members;
    match op
    case AddOp(_, _) => Replaces(g, op) && (fate == Works || fate == NoProgress)
    case RemoveOp(_) => Replaces(g, op) && (fate == Works || fate == NoProgress)
    case AssignOp(id, role, upToDate) =>
      && Place(c, id) < |c| && c[Place(c, id)].role != role && !g.change
      && (role != Voter || upToDate) && !RoleFails(fate)
    case PromoteOp => !RoleFails(fate)
    case _ => false
  }

  /** The server that the operation makes a voter, or no longer one. */
  function Touched(c: Members, op: Op, promotee: nat): set<nat> {
    match op
    case RemoveOp(id) => if id in Voters(c) then {id} else {}
    case AssignOp(id, role, _) => if (id in Voters(c)) != (role == Voter) then {id} else {}
    case PromoteOp => {promotee}
    case _ => {}
  }

  /** Together with a configuration that some server can be using, the operation changes two
    * voters of the one in use. */
  ghost predicate Clashes(g: Group, op: Op, fate: Fate) {
    && Appends(g, op, fate)
    && exists a :: InForce(g, a) &&
         !Lone(Touched(g.inUse.members, op, g.promotee) + Diff(Voters(g.inUse.members), Voters(a)))
  }

  /** One configuration, which touches that server, is added to those in force; the one in
    * use can only be replaced by it. */
  ghost predicate Adds(g: Group, g': Group, touched: set<nat>, c: Members) {
    && g.inUse.Live? && Diff(Voters(g.inUse.members), Voters(c)) == touched && Lone(touched)
    && g'.inUse.Live? && (g'.inUse == g.inUse || g'.inUse.members == c)
    && g'.committed == g.committed && g.committed <= g.lastIndex
    && g.lastIndex + 1 !in g.configs && g'.configs == g.configs[g.lastIndex + 1 := c]
  }

  lemma ReplaceAdds(g: Group, op: Op, fate: Fate) returns (c: Members)
    requires Inv(g) && (op.AddOp? ==> op.id != 0) && (op.AddOp? || op.RemoveOp?) && Appends(g, op, fate)
    ensures Adds(g, Apply(g, op, fate).0, Touched(g.inUse.members, op, g.promotee), c)
  {
    hide Voters;
    hide Distinct;
    hide Next;
    var m := g.inUse.members;
    if op.AddOp? {
      c := m + [Member(op.id, op.address, Spare)];
      AddDistinct(m, Member(op.id, op.address, Spare));
    } else {
      PlaceIs(m, op.id);
      c := Without(m, Place(m, op.id));
      WithoutDistinct(m, Place(m, op.id));
    }
  }

  lemma RoleAdds(g: Group, op: Op, fate: Fate) returns (c: Members)
    requires Inv(g) && (op.AssignOp? || op.PromoteOp?) && Appends(g, op, fate)
    ensures Adds(g, Apply(g, op, fate).0, Touched(g.inUse.members, op, g.promotee), c)
  {
    hide Voters;
    hide Distinct;
    hide Next;
    var m := g.inUse.members;
    var id := if op.AssignOp? then op.id else g.promotee;
    var role := if op.AssignOp? then op.role else Voter;
    PlaceIs(m, id);
    c := WithRole(m, Place(m, id), role);
    WithRoleDistinct(m, Place(m, id), role);
  }

  /** What is added is one apart from all in force exactly when it does not clash. */
  lemma AddedSound(g: Group, g': Group, touched: set<nat>, c: Members)
    requires Sound(g) && Adds(g, g', touched, c)
    ensures Sound(g') <==> forall a :: InForce(g, a) ==> Lone(touched + Diff(Voters(g.inUse.members), Voters(a)))
  {
    hide Voters;
    hide OneApart;
    hide Diff;
    hide Lone;
    hide InForce;
    var u := g.inUse.members;
    AddedForce(g, g', touched, c);
    LoneDiff(Voters(u), Voters(c));
    forall a | InForce(g, a)
      ensures OneApart(Voters(a), Voters(c)) <==> Lone(touched + Diff(Voters(u), Voters(a)))
    {
      ApartThrough(Voters(u), Voters(a), Voters(c));
      Commutes(Diff(Voters(u), Voters(a)), touched);
    }
    SelfApart(Voters(c));
    forall a, b ensures OneApart(Voters(a), Voters(b)) <==> OneApart(Voters(b), Voters(a)) {
      ApartSymmetric(Voters(a), Voters(b));
    }
  }

  lemma AddedForce(g: Group, g': Group, touched: set<nat>, c: Members)
    requires Adds(g, g', touched, c)
    ensures InForce(g, g.inUse.members) && InForce(g', c)
    ensures forall a :: InForce(g', a) ==> InForce(g, a) || a == c
    ensures forall a :: InForce(g, a) ==> InForce(g', a) || a == g.inUse.members
  {
    hide Voters;
    hide Diff;
    hide Lone;
    var n := g.lastIndex + 1;
    assert g'.configs[n] == c;
    forall a | Logged(g, a) ensures Logged(g', a) {
      var i :| i in g.configs && i >= g.committed && g.configs[i] == a;
      assert g'.configs[i] == a;
    }
    forall a | Logged(g', a) ensures Logged(g, a) || a == c {
      var i :| i in g'.configs && i >= g.committed && g'.configs[i] == a;
      assert i != n ==> g.configs[i] == a;
    }
  }

  lemma Commutes(a: set<nat>, b: set<nat>)
    ensures a + b == b + a
  {
  }

  lemma SelfApart(a: set<nat>)
    ensures OneApart(a, a)
  {
  }

  lemma ApartSymmetric(a: set<nat>, b: set<nat>)
    ensures OneApart(a, b) <==> OneApart(b, a)
  {
  }

  /** No new configuration comes into force with the other operations. */
  lemma OtherForce(g: Group, op: Op, fate: Fate)
    requires Inv(g) && !Appends(g, op, fate) && !Frees(g, op, fate)
    ensures var g' := Apply(g, op, fate).0;
            g'.inUse == g.inUse && forall a :: InForce(g', a) ==> InForce(g, a)
  {
    var g' := Apply(g, op, fate).0;
    OtherConfigs(g, op, fate);
    forall a | Logged(g', a) ensures Logged(g, a) {
      var i :| i in g'.configs && i >= g'.committed && g'.configs[i] == a;
      assert g.configs[i] == a;
    }
  }

  lemma OtherConfigs(g: Group, op: Op, fate: Fate)
    requires Inv(g) && !Appends(g, op, fate) && !Frees(g, op, fate)
    ensures var g' := Apply(g, op, fate).0;
            g'.inUse == g.inUse && g'.configs == g.configs && g'.committed >= g.committed
  {
    hide Distinct;
    if op.RemoveOp? || op.AssignOp? {
      PlaceIs(g.inUse.members, op.id);
    } else {
      PlaceIs(g.inUse.members, g.promotee);
    }
  }

  /** An operation keeps all this exactly when it neither releases the configuration in use
    * nor, together with one that is in force, changes two voters. */
  lemma SoundExactly(g: Group, op: Op, fate: Fate)
    requires Inv(g) && Sound(g) && (op.AddOp? ==> op.id != 0)
    ensures Sound(Apply(g, op, fate).0) <==> !Frees(g, op, fate) && !Clashes(g, op, fate)
  {
    hide Apply;
    hide Touched;
    hide Voters;
    hide Diff;
    hide Lone;
    hide InForce;
    hide OneApart;
    ApplyKeeps(g, op, fate);
    hide Inv;
    if Appends(g, op, fate) {
      var c;
      if op.AddOp? || op.RemoveOp? {
        c := ReplaceAdds(g, op, fate);
      } else {
        c := RoleAdds(g, op, fate);
      }
      hide Adds;
      AddedSound(g, Apply(g, op, fate).0, Touched(g.inUse.members, op, g.promotee), c);
    } else if !Frees(g, op, fate) {
      OtherForce(g, op, fate);
    }
  }

  ghost predicate AlwaysSound(g: Group, ops: seq<(Op, Fate)>)
    decreases |ops|
  {
    Sound(g) && (ops != [] ==> AlwaysSound(Apply(g, ops[0].0, ops[0].1).0, ops[1..]))
  }

  ghost predicate NeverHarms(g: Group, ops: seq<(Op, Fate)>)
    decreases |ops|
  {
    ops != [] ==>
      && !Frees(g, ops[0].0, ops[0].1) && !Clashes(g, ops[0].0, ops[0].1)
      && NeverHarms(Apply(g, ops[0].0, ops[0].1).0, ops[1..])
  }

  /** In every state of a run the configuration in use can be read and all configurations in
    * force have voters one apart, exactly when no operation releases or clashes. */
  lemma {:induction false} RunSound(g: Group, ops: seq<(Op, Fate)>)
    requires Inv(g) && Sound(g) && Legal(ops)
    ensures AlwaysSound(g, ops) <==> NeverHarms(g, ops)
    ensures AlwaysSound(g, ops) ==> Sound(Run(g, ops))
    decreases |ops|
  {
    hide Apply;
    hide Inv;
    hide Sound;
    hide Frees;
    hide Clashes;
    if ops != [] {
      var (op, fate) := ops[0];
      var next := Apply(g, op, fate).0;
      SoundExactly(g, op, fate);
      ApplyKeeps(g, op, fate);
      if Sound(next) {
        RunSound(next, ops[1..]);
      }
    }
  }

  // One change at a time.

  /** The log holds one uncommitted configuration at most, the one that is marked and in use;
    * without, the committed one is in use. */
  ghost predicate Orderly(g: Group) {
    && g.inUse.Live? && g.committed in g.configs
    && (forall i :: i in g.configs && i > g.committed ==> i == g.uncommitted)
    && (g.uncommitted == 0 ==> g.inUse.members == g.configs[g.committed])
    && OneApart(Voters(g.configs[g.committed]), Voters(g.inUse.members))
  }

  /** The step that leaves an unmarked configuration in the log: an addition or removal that
    * passes every test when there is no memory to track the servers. */
  ghost predicate Orphans(g: Group, op: Op, fate: Fate) {
    Replaces(g, op) && fate == NoProgress
  }

  lemma AddsOrderly(g: Group, g': Group, touched: set<nat>, c: Members)
    requires Inv(g) && Orderly(g) && Adds(g, g', touched, c) && g.uncommitted == 0
    ensures g'.inUse.members == c && g'.uncommitted == g.lastIndex + 1 ==> Orderly(g')
    ensures g'.uncommitted == 0 ==> !Orderly(g')
  {
    hide Voters;
    hide OneApart;
    hide Distinct;
    LoneDiff(Voters(g.inUse.members), Voters(c));
    assert g.lastIndex + 1 in g'.configs;
  }

  lemma AppendsMarked(g: Group, op: Op, fate: Fate)
    requires Inv(g) && Appends(g, op, fate)
    ensures g.uncommitted == 0
    ensures var g' := Apply(g, op, fate).0;
            if Orphans(g, op, fate) then g'.uncommitted == 0 && g'.inUse == g.inUse
            else g'.uncommitted == g.lastIndex + 1 && g'.inUse.Live? && g.lastIndex + 1 in g'.configs
                 && g'.inUse.members == g'.configs[g.lastIndex + 1]
  {
    hide Distinct;
    hide Voters;
    hide Next;
    if op.RemoveOp? || op.AssignOp? {
      PlaceIs(g.inUse.members, op.id);
    } else {
      PlaceIs(g.inUse.members, g.promotee);
    }
  }

  /** An operation keeps that order exactly when it neither releases the configuration in use
    * nor leaves one unmarked. */
  lemma OrderlyExactly(g: Group, op: Op, fate: Fate)
    requires Inv(g) && Orderly(g) && (op.AddOp? ==> op.id != 0)
    ensures Orderly(Apply(g, op, fate).0) <==> !Frees(g, op, fate) && !Orphans(g, op, fate)
  {
    hide Apply;
    hide Voters;
    hide Distinct;
    hide OneApart;
    hide Touched;
    ApplyKeeps(g, op, fate);
    if Appends(g, op, fate) {
      AppendsMarked(g, op, fate);
      var c;
      if op.AddOp? || op.RemoveOp? {
        c := ReplaceAdds(g, op, fate);
      } else {
        c := RoleAdds(g, op, fate);
      }
      AddsOrderly(g, Apply(g, op, fate).0, Touched(g.inUse.members, op, g.promotee), c);
    } else if !Frees(g, op, fate) {
      OtherOrderly(g, op, fate);
    }
  }

  lemma OtherOrderly(g: Group, op: Op, fate: Fate)
    requires Inv(g) && Orderly(g) && !Appends(g, op, fate) && !Frees(g, op, fate)
    ensures Orderly(Apply(g, op, fate).0) && !Orphans(g, op, fate)
  {
    hide Voters;
    hide Distinct;
    hide OneApart;
    OtherConfigs(g, op, fate);
    SelfApart(Voters(g.inUse.members));
    if op.CommitOp? {
      assert NextChange(g) != 0 ==> NextChange(g) == g.uncommitted;
    }
  }

  ghost predicate AlwaysOrderly(g: Group, ops: seq<(Op, Fate)>)
    decreases |ops|
  {
    Orderly(g) && (ops != [] ==> AlwaysOrderly(Apply(g, ops[0].0, ops[0].1).0, ops[1..]))
  }

  ghost predicate NeverUpsets(g: Group, ops: seq<(Op, Fate)>)
    decreases |ops|
  {
    ops != [] ==>
      && !Frees(g, ops[0].0, ops[0].1) && !Orphans(g, ops[0].0, ops[0].1)
      && NeverUpsets(Apply(g, ops[0].0, ops[0].1).0, ops[1..])
  }

  /** In every state of a run there is one change at a time, exactly when no addition or
    * removal that passes the tests fails after its entry was appended. */
  lemma {:induction false} RunOrderly(g: Group, ops: seq<(Op, Fate)>)
    requires Inv(g) && Orderly(g) && Legal(ops)
    ensures AlwaysOrderly(g, ops) <==> NeverUpsets(g, ops)
    decreases |ops|
  {
    hide Apply;
    hide Inv;
    hide Orderly;
    hide Frees;
    hide Orphans;
    if ops != [] {
      var (op, fate) := ops[0];
      var next := Apply(g, op, fate).0;
      OrderlyExactly(g, op, fate);
      ApplyKeeps(g, op, fate);
      if Orderly(next) {
        RunOrderly(next, ops[1..]);
      }
    }
  }

  /** With one change at a time all is sound. */
  lemma OrderlySound(g: Group)
    requires Inv(g) && Orderly(g)
    ensures Sound(g)
  {
    hide Voters;
    hide OneApart;
    hide Distinct;
    var c, u := g.configs[g.committed], g.inUse.members;
    forall a | InForce(g, a) ensures a == c || a == u {}
    SelfApart(Voters(c));
    SelfApart(Voters(u));
    ApartSymmetric(Voters(c), Voters(u));
  }

  /** Over every run in which no addition or removal fails after its entry was appended,
    * majorities of any two configurations that servers can be using meet. */
  lemma {:induction false} MajoritiesAlwaysMeet(g: Group, ops: seq<(Op, Fate)>, a: Members, b: Members, p: set<nat>, q: set<nat>)
    requires Inv(g) && Orderly(g) && Legal(ops) && NeverUpsets(g, ops)
    requires InForce(Run(g, ops), a) && InForce(Run(g, ops), b) && Majority(p, Voters(a)) && Majority(q, Voters(b))
    ensures p * q != {}
    decreases |ops|
  {
    hide Apply;
    hide Inv;
    hide Orderly;
    hide Frees;
    hide Orphans;
    hide InForce;
    if ops == [] {
      OrderlySound(g);
      SoundMeets(g, a, b, p, q);
    } else {
      var (op, fate) := ops[0];
      OrderlyExactly(g, op, fate);
      ApplyKeeps(g, op, fate);
      MajoritiesAlwaysMeet(Apply(g, op, fate).0, ops[1..], a, b, p, q);
    }
  }

  const FOUR: Members := [Member(1, "a", Voter), Member(2, "b", Voter), Member(3, "c", Voter), Member(4, "d", Voter)]

  /** A removal that fails for lack of memory to track servers leaves its configuration in
    * the log. The next removal appends another one, and their majorities can miss. */
  lemma UnmarkedSplits(g: Group)
    requires g == Group(4, true, 0, Live(FOUR), 0, 1, 0, false, 1, map[1 := FOUR])
    ensures Inv(g) && Orderly(g) && Orphans(g, RemoveOp(1), NoProgress)
    ensures var e := Run(g, [(RemoveOp(1), NoProgress), (RemoveOp(2), Works)]);
            InForce(e, FOUR[1..]) && InForce(e, Without(FOUR, 1))
    ensures Majority({2, 3}, Voters(FOUR[1..])) && Majority({1, 4}, Voters(Without(FOUR, 1)))
  {
    hide Apply;
    hide Voters;
    hide Orphans;
    FourInv(g);
    hide Inv;
    hide Orderly;
    FourVoters();
    FirstUnmarked(g);
    SecondRemoved(Apply(g, RemoveOp(1), NoProgress).0);
    var ops := [(RemoveOp(1), NoProgress), (RemoveOp(2), Works)];
    assert ops[1..] == [(RemoveOp(2), Works)] && ops[1..][1..] == [];
    var e := Run(g, ops);
    assert e.configs[2] == FOUR[1..];
  }

  lemma FourInv(g: Group)
    requires g == Group(4, true, 0, Live(FOUR), 0, 1, 0, false, 1, map[1 := FOUR])
    ensures Inv(g) && Orderly(g)
  {
  }

  lemma FirstUnmarked(g: Group)
    requires g == Group(4, true, 0, Live(FOUR), 0, 1, 0, false, 1, map[1 := FOUR])
    ensures Orphans(g, RemoveOp(1), NoProgress)
    ensures Apply(g, RemoveOp(1), NoProgress).0 == g.(lastIndex := 2, configs := map[1 := FOUR, 2 := FOUR[1..]])
  {
    assert FOUR[0].id == 1;
    assert Without(FOUR, 0) == FOUR[1..];
  }

  lemma SecondRemoved(g: Group)
    requires Refusal(g) == Done && g.inUse == Live(FOUR) && g.lastIndex == 2
    ensures Apply(g, RemoveOp(2), Works).0 == Appended(g, Without(FOUR, 1)).(change := true)
  {
    PlaceIs(FOUR, 2);
    assert FOUR[1].id == 2;
  }

  lemma FourVoters()
    ensures Voters(FOUR[1..]) == {2, 3, 4} && Voters(Without(FOUR, 1)) == {1, 3, 4}
  {
    var c, d := FOUR[1..], Without(FOUR, 1);
    assert c[0].id == 2 && c[1].id == 3 && c[2].id == 4 && |c| == 3;
    assert d[0].id == 1 && d[1].id == 3 && d[2].id == 4 && |d| == 3;
  }

  // The servers themselves.

  /** The same servers in the same order, but for the role of one. */
  ghost predicate Reassigned(c: Members, d: Members, id: nat, role: Role) {
    && |d| == |c| && HasId(c, id)
    && forall k :: 0 <= k < |c| ==> d[k] == Member(c[k].id, c[k].address, if c[k].id == id then role else c[k].role)
  }

  /** What an operation that appends makes of the configuration: a new server comes last and is
    * a spare; a removed one is gone, and the others stay in order; an assigned one gets the
    * role asked for, which is that of a voter only if it is up to date. */
  ghost predicate Edits(op: Op, promotee: nat, c: Members, d: Members) {
    match op
    case AddOp(id, address) =>
      && |d| == |c| + 1 && (forall k :: 0 <= k < |c| ==> d[k] == c[k])
      && d[|c|].id == id && d[|c|].address == address && d[|c|].role == Spare
    case RemoveOp(id) =>
      exists i :: 0 <= i < |c| && c[i].id == id && |d| == |c| - 1 &&
        forall k :: 0 <= k < |d| ==> d[k] == c[if k < i then k else k + 1]
    case AssignOp(id, role, upToDate) => Reassigned(c, d, id, role) && (role == Voter ==> upToDate)
    case PromoteOp => Reassigned(c, d, promotee, Voter)
    case _ => false
  }

  /** An operation that appends a configuration appends the edited one, and no other changes. */
  lemma AppendsEdited(g: Group, op: Op, fate: Fate)
    requires Inv(g) && Appends(g, op, fate)
    ensures var n, g' := g.lastIndex + 1, Apply(g, op, fate).0;
            && n in g'.configs && Edits(op, g.promotee, g.inUse.members, g'.configs[n])
            && g'.configs == g.configs[n := g'.configs[n]]
  {
    hide Next;
    hide Voters;
    hide AddError;
    var c := g.inUse.members;
    if op.AddOp? {
    } else {
      var id := if op.PromoteOp? then g.promotee else op.id;
      PlaceIs(c, id);
      var i := Place(c, id);
      if op.RemoveOp? {
        var d := Without(c, i);
        assert |d| == |c| - 1 && forall k :: 0 <= k < |d| ==> d[k] == c[if k < i then k else k + 1];
      }
    }
  }

  /** A change is refused exactly when the server does not lead or hands over, or another change
    * is under way, and then nothing happens. */
  lemma RefusesExactly(g: Group, op: Op, fate: Fate)
    requires Inv(g) && (op.AddOp? || op.RemoveOp? || op.AssignOp?)
    ensures var (g', out) := Apply(g, op, fate);
            && (out == NotLeader <==> !g.leader || g.transfer != 0)
            && (out == CantChange <==> g.leader && g.transfer == 0 && (g.uncommitted != 0 || g.promotee != 0))
            && (out == NotLeader || out == CantChange ==> g' == g)
  {
  }

  /** The roles other than spare that servers have, or are going to have, in the log. */
  ghost predicate HasRole(g: Group, id: nat, role: Role) {
    || (exists i, k :: i in g.configs && 0 <= k < |g.configs[i]| && g.configs[i][k].id == id && g.configs[i][k].role == role)
    || (g.inUse.Live? && exists k :: 0 <= k < |g.inUse.members| && g.inUse.members[k].id == id && g.inUse.members[k].role == role)
    || (g.promotee == id && id != 0 && role == Voter)
  }

  predicate Assigned(ops: seq<(Op, Fate)>, id: nat, role: Role) {
    exists i :: 0 <= i < |ops| && ops[i].0.AssignOp? && ops[i].0.id == id && ops[i].0.role == role
  }

  lemma EditedRole(op: Op, promotee: nat, c: Members, d: Members, k: nat)
    requires Edits(op, promotee, c, d) && k < |d| && d[k].role != Spare
    ensures || (exists j :: 0 <= j < |c| && c[j].id == d[k].id && c[j].role == d[k].role)
            || (op.AssignOp? && op.id == d[k].id && op.role == d[k].role)
            || (op.PromoteOp? && promotee == d[k].id && d[k].role == Voter)
  {
    if op.RemoveOp? {
      var i :| 0 <= i < |c| && c[i].id == op.id && |d| == |c| - 1 &&
        forall j :: 0 <= j < |d| ==> d[j] == c[if j < i then j else j + 1];
      assert d[k] == c[if k < i then k else k + 1];
    } else if op.AddOp? {
      assert k < |c| && d[k] == c[k];
    } else {
      assert c[k].id == d[k].id;
    }
  }

  /** A role other than spare comes from before, or from an assignment. */
  lemma StepRoles(g: Group, op: Op, fate: Fate, id: nat, role: Role)
    requires (Inv(g) || Dangling(g)) && role != Spare && HasRole(Apply(g, op, fate).0, id, role)
    ensures HasRole(g, id, role) || (op.AssignOp? && op.id == id && op.role == role)
  {
    var g' := Apply(g, op, fate).0;
    if Inv(g) && Appends(g, op, fate) {
      AppendRoles(g, op, fate, id, role);
    } else {
      QuietRoles(g, op, fate);
    }
  }

  lemma QuietRoles(g: Group, op: Op, fate: Fate)
    requires (Inv(g) || Dangling(g)) && !Appends(g, op, fate)
    ensures var g' := Apply(g, op, fate).0;
            && g'.configs == g.configs && (g'.inUse == g.inUse || g'.inUse == Freed)
            && (g'.promotee == g.promotee || (op.AssignOp? && op.role == Voter && g'.promotee == op.id))
  {
    hide Next;
    hide Distinct;
    if Inv(g) && Reads(g, op) {
      if op.RemoveOp? || op.AssignOp? {
        PlaceIs(g.inUse.members, op.id);
      } else {
        PlaceIs(g.inUse.members, g.promotee);
      }
    }
  }

  lemma AppendRoles(g: Group, op: Op, fate: Fate, id: nat, role: Role)
    requires Inv(g) && Appends(g, op, fate) && role != Spare && HasRole(Apply(g, op, fate).0, id, role)
    ensures HasRole(g, id, role) || (op.AssignOp? && op.id == id && op.role == role)
  {
    hide Apply;
    hide Edits;
    hide Distinct;
    var g', n, c := Apply(g, op, fate).0, g.lastIndex + 1, g.inUse.members;
    AppendsEdited(g, op, fate);
    AppendsMarked(g, op, fate);
    AppendsPromotee(g, op, fate);
    var d := g'.configs[n];
    forall k | 0 <= k < |d| && d[k].id == id && d[k].role == role
      ensures HasRole(g, id, role) || (op.AssignOp? && op.id == id && op.role == role)
    {
      EditedRole(op, g.promotee, c, d, k);
    }
    if i, k :| i in g'.configs && 0 <= k < |g'.configs[i]| && g'.configs[i][k].id == id && g'.configs[i][k].role == role {
      if i != n {
        assert g.configs[i][k].id == id && g.configs[i][k].role == role;
      }
    }
  }

  lemma AppendsPromotee(g: Group, op: Op, fate: Fate)
    requires Inv(g) && Appends(g, op, fate)
    ensures Apply(g, op, fate).0.promotee == 0 || Apply(g, op, fate).0.promotee == g.promotee
    ensures op.PromoteOp? ==> g.promotee != 0
  {
    hide Next;
    hide Distinct;
    hide Voters;
  }

  /** Over every run, a server has a role other than spare only if it had it at the start or was
    * assigned it. */
  lemma {:induction false} RolesAreAssigned(g: Group, ops: seq<(Op, Fate)>, id: nat, role: Role)
    requires (Inv(g) || Dangling(g)) && Legal(ops) && role != Spare && HasRole(Run(g, ops), id, role)
    ensures HasRole(g, id, role) || Assigned(ops, id, role)
    decreases |ops|
  {
    hide Apply;
    hide Inv;
    hide Dangling;
    hide HasRole;
    if ops != [] {
      var (op, fate) := ops[0];
      var next := Apply(g, op, fate).0;
      if Inv(g) {
        ApplyKeeps(g, op, fate);
      } else {
        DanglingStays(g, op, fate);
      }
      RolesAreAssigned(next, ops[1..], id, role);
      if HasRole(next, id, role) {
        StepRoles(g, op, fate, id, role);
      } else {
        var i :| 0 <= i < |ops[1..]| && ops[1..][i].0.AssignOp? && ops[1..][i].0.id == id && ops[1..][i].0.role == role;
        assert ops[i + 1] == ops[1..][i];
      }
    }
  }

  /** A leader is a voter of the configuration it uses, unless that is still to be committed. */
  ghost predicate LeadsAsVoter(g: Group) {
    g.leader && g.uncommitted == 0 && g.inUse.Live? ==> g.self in Voters(g.inUse.members)
  }

  lemma StepLeads(g: Group, op: Op, fate: Fate)
    requires Inv(g) && LeadsAsVoter(g)
    ensures LeadsAsVoter(Apply(g, op, fate).0)
  {
    hide Voters;
    hide Distinct;
    if op.RemoveOp? || op.AssignOp? {
      PlaceIs(g.inUse.members, op.id);
    } else {
      PlaceIs(g.inUse.members, g.promotee);
    }
  }

  /** In every run a leader that is no voter steps down when that is committed. */
  lemma {:induction false} RunLeads(g: Group, ops: seq<(Op, Fate)>)
    requires (Inv(g) || Dangling(g)) && Legal(ops) && LeadsAsVoter(g)
    ensures LeadsAsVoter(Run(g, ops))
    decreases |ops|
  {
    hide Apply;
    hide Inv;
    if ops != [] {
      var (op, fate) := ops[0];
      if Inv(g) {
        StepLeads(g, op, fate);
        ApplyKeeps(g, op, fate);
      } else {
        DanglingStays(g, op, fate);
      }
      RunLeads(Apply(g, op, fate).0, ops[1..]);
    }
  }

  // The pending request.

  /** A request is pending only while its change is under way. */
  ghost predicate Pending(g: Group) {
    g.change ==> g.leader && (g.uncommitted != 0 || g.promotee != 0)
  }

  /** The step that leaves a request pending behind: assigning a role at once, when the
    * entry cannot be appended or its replication does not start. */
  ghost predicate LeavesPending(g: Group, op: Op, fate: Fate) {
    && RoleFails(fate) && op.AssignOp? && g.inUse.Live? && Refusal(g) == Done && Place(g.inUse.members, op.id) < |g.inUse.members|
    && g.inUse.members[Place(g.inUse.members, op.id)].role != op.role && (op.role != Voter || op.upToDate)
  }

  /** No operation reaches its assertion while requests are pending for cause only, and an
    * operation leaves one behind exactly when it is a role assignment that fails. */
  lemma PendingExactly(g: Group, op: Op, fate: Fate)
    requires Inv(g) && Pending(g)
    ensures Apply(g, op, fate).1 != Asserts
    ensures Pending(Apply(g, op, fate).0) <==> !LeavesPending(g, op, fate)
  {
    var c := g.inUse.members;
    if op.AssignOp? {
      PlaceIs(c, op.id);
    }
    PlaceIs(c, g.promotee);
  }

  /** After such a failure, the next change that passes the tests reaches the assertion. */
  lemma AssertionReached(g: Group, op: Op, fate: Fate, next: Op)
    requires Inv(g) && Pending(g) && LeavesPending(g, op, fate)
    requires next.AddOp? || next.RemoveOp? || next.AssignOp?
    ensures var (e, out) := Apply(Apply(g, op, fate).0, next, Works);
            out == Asserts || e == Apply(g, op, fate).0
  {
    PlaceIs(g.inUse.members, op.id);
    assert Apply(g, op, fate).0 == g.(change := true);
  }

  ghost predicate NeverLeavesPending(g: Group, ops: seq<(Op, Fate)>)
    decreases |ops|
  {
    ops != [] ==> !LeavesPending(g, ops[0].0, ops[0].1) && NeverLeavesPending(Apply(g, ops[0].0, ops[0].1).0, ops[1..])
  }

  /** No operation of the run reaches its assertion. */
  ghost predicate NeverAsserts(g: Group, ops: seq<(Op, Fate)>)
    decreases |ops|
  {
    ops != [] ==> Apply(g, ops[0].0, ops[0].1).1 != Asserts && NeverAsserts(Apply(g, ops[0].0, ops[0].1).0, ops[1..])
  }

  /** Every state of the run has a request pending for cause only. */
  ghost predicate AlwaysPending(g: Group, ops: seq<(Op, Fate)>)
    decreases |ops|
  {
    Pending(g) && (ops != [] ==> AlwaysPending(Apply(g, ops[0].0, ops[0].1).0, ops[1..]))
  }

  /** Over runs: no request is ever left behind exactly when no role assignment fails to
    * append or replicate its entry, and then no assertion is reached. */
  lemma {:induction false} RunPending(g: Group, ops: seq<(Op, Fate)>)
    requires (Inv(g) || Dangling(g)) && Pending(g) && Legal(ops)
    ensures AlwaysPending(g, ops) <==> NeverLeavesPending(g, ops)
    ensures AlwaysPending(g, ops) ==> NeverAsserts(g, ops)
    decreases |ops|
  {
    hide Apply;
    hide Inv;
    hide LeavesPending;
    if ops != [] {
      var (op, fate) := ops[0];
      var next := Apply(g, op, fate).0;
      if Inv(g) {
        PendingExactly(g, op, fate);
        ApplyKeeps(g, op, fate);
      } else {
        DanglingPending(g, op, fate);
        DanglingStays(g, op, fate);
      }
      if Pending(next) {
        RunPending(next, ops[1..]);
      }
    }
  }

  lemma DanglingPending(g: Group, op: Op, fate: Fate)
    requires Dangling(g) && Pending(g)
    ensures Pending(Apply(g, op, fate).0) && Apply(g, op, fate).1 != Asserts && !LeavesPending(g, op, fate)
  {
  }

  const FIVE: Members :=
    [Member(1, "a", Voter), Member(2, "b", Voter), Member(3, "c", Voter), Member(4, "d", Voter), Member(5, "e", Voter)]

  /** A removal whose replication does not start leaves a leader that reads the released
    * configuration at its next operation, whether a change or a command. */
  lemma FailedRemovalFrees(g: Group)
    requires g == Group(5, true, 0, Live(FIVE), 0, 1, 0, false, 1, map[1 := FIVE])
    ensures Inv(g) && Frees(g, RemoveOp(1), NotStarted)
    ensures var (e, out) := Apply(g, RemoveOp(1), NotStarted);
            && out == IoError && e == g.(inUse := Freed)
            && Apply(e, RemoveOp(2), Works) == (e, ReadsFreed)
            && Apply(e, CommandOp, Works) == (e, ReadsFreed)
  {
    FiveInv(g);
    assert FIVE[0].id == 1;
  }

  lemma FiveInv(g: Group)
    requires g == Group(5, true, 0, Live(FIVE), 0, 1, 0, false, 1, map[1 := FIVE])
    ensures Inv(g)
  {
  }

  // The code.

  class Raft {
    const self: nat
    var leader: bool
    var transfer: nat
    var configuration: Servers
    var uncommitted: nat
    var committed: nat
    var promotee: nat
    var change: bool
    var lastIndex: nat
    var configs: map<nat, Members>

    ghost function View(): Group
      reads this, configuration
    {
      Group(self, leader, transfer, if configuration.live then Live(configuration.servers) else Freed,
            uncommitted, committed, promotee, change, lastIndex, configs)
    }

    /** A server whose log holds the first configuration only, committed as such. */
    constructor (self: nat, c: Members)
      requires Distinct(c)
      ensures fresh(configuration) && Inv(View()) && Orderly(View()) && View().inUse == Live(c) && !leader
    {
      this.self := self;
      leader, transfer, promotee, change := false, 0, 0, false;
      configuration := new Servers(c);
      uncommitted, committed, lastIndex, configs := 0, 1, 1, map[1 := c];
    }

    method CanChangeConfiguration() returns (out: Outcome)
      requires Inv(View())
      ensures out == Refusal(View())
    {
      if !leader || transfer != 0 {
        return NotLeader;
      }
      if uncommitted != 0 {
        return CantChange;
      }
      if promotee != 0 {
        return CantChange;
      }
      assert committed > 0 && lastIndex >= committed;
      out := Done;
    }

    /** The new configuration c is the object in use already when a role was changed in
      * place; otherwise it takes the place of the one in use, which is released. */
    method ChangeConfiguration(c: Servers, fate: Fate) returns (ok: bool)
      requires lastIndex + 1 !in configs && configuration.live && c.live
      modifies this, configuration
      ensures var resized := |c.servers| != old(|configuration.servers|);
              && ok == (fate == Works || (fate == NoProgress && !resized)) && c.live && c.servers == old(c.servers)
              && configuration == (if fate == NoEntry || (fate == NoProgress && resized) then old(configuration) else c)
              && (fate == NoEntry ==> View() == old(View()))
              && (fate == NoProgress && resized ==>
                    View() == old(View()).(lastIndex := lastIndex, configs := old(configs)[lastIndex := c.servers])
                    && lastIndex == old(lastIndex) + 1)
              && (fate == NotStarted ==> View() == old(View()).(inUse := Live(c.servers)))
              && (ok ==> View() == Appended(old(View()), c.servers))
    {
      var index := lastIndex + 1;
      if fate == NoEntry {
        return false;
      }
      lastIndex, configs := index, configs[index := c.servers];
      if |c.servers| != |configuration.servers| && fate == NoProgress {
        return false;
      }
      if c != configuration {
        configuration.Close();
        configuration := c;
      }
      if fate == NotStarted {
        lastIndex, configs := index - 1, configs - {index};
        return false;
      }
      uncommitted := index;
      ok := true;
    }

    method Add(id: nat, address: string, fate: Fate) returns (out: Outcome)
      requires Inv(View()) && id != 0
      modifies this, configuration
      ensures (View(), out) == Apply(old(View()), AddOp(id, address), fate)
    {
      out := CanChangeConfiguration();
      if out != Done {
        return;
      }
      var copy := Copy(configuration.servers);
      var e := copy.Add(id, address, Spare);
      if e != Ok {
        copy.Close();
        return Clash(e);
      }
      var ok := ChangeConfiguration(copy, fate);
      if !ok {
        copy.Close();
        return IoError;
      }
      out := if change then Asserts else Done;
      change := true;
    }

    method Remove(id: nat, fate: Fate) returns (out: Outcome)
      requires Inv(View())
      modifies this, configuration
      ensures (View(), out) == Apply(old(View()), RemoveOp(id), fate)
    {
      out := CanChangeConfiguration();
      if out != Done {
        return;
      }
      PlaceIs(configuration.servers, id);
      var copy := Copy(configuration.servers);
      var e := copy.Remove(id);
      if e != Ok {
        copy.Close();
        return Clash(e);
      }
      var ok := ChangeConfiguration(copy, fate);
      if !ok {
        copy.Close();
        return IoError;
      }
      out := if change then Asserts else Done;
      change := true;
    }

    method Assign(id: nat, role: Role, upToDate: bool, fate: Fate) returns (out: Outcome)
      requires Inv(View())
      modifies this, configuration
      ensures (View(), out) == Apply(old(View()), AssignOp(id, role, upToDate), fate)
    {
      hide Distinct;
      hide Voters;
      hide OneApart;
      hide Place;
      out := CanChangeConfiguration();
      if out != Done {
        return;
      }
      PlaceIs(configuration.servers, id);
      var i := IndexOf(configuration.servers, id);
      if i == |configuration.servers| {
        return NotFound;
      }
      if configuration.servers[i].role == role {
        return SameRole;
      }
      if change {
        return Asserts;
      }
      change := true;
      if role != Voter || upToDate {
        var oldRole := configuration.servers[i].role;
        configuration.SetRole(i, role);
        var ok := ChangeConfiguration(configuration, fate);
        if !ok {
          configuration.SetRole(i, oldRole);
          assert configuration.servers == old(configuration.servers);
          return IoError;
        }
        return Done;
      }
      promotee := id;
      out := Done;
    }

    /** The server has caught up: make it a voter. */
    method Promote(fate: Fate) returns (out: Outcome)
      requires Inv(View()) && leader && promotee != 0
      modifies this, configuration
      ensures (View(), out) == Apply(old(View()), PromoteOp, fate)
    {
      hide Distinct;
      hide Next;
      PlaceIs(configuration.servers, promotee);
      var i := IndexOf(configuration.servers, promotee);
      assert i < |configuration.servers|;
      IsVoter(configuration.servers, i, promotee);
      assert configuration.servers[i].role != Voter;
      hide Voters;
      var oldRole := configuration.servers[i].role;
      configuration.SetRole(i, Voter);
      var index := lastIndex + 1;
      if fate == NoEntry {
        configuration.SetRole(i, oldRole);
        assert configuration.servers == old(configuration.servers);
        return IoError;
      }
      lastIndex, configs := index, configs[index := configuration.servers];
      if fate == NotStarted {
        lastIndex, configs := index - 1, configs - {index};
        assert configs == old(configs);
        configuration.SetRole(i, oldRole);
        assert configuration.servers == old(configuration.servers);
        return IoError;
      }
      promotee := 0;
      uncommitted := index;
      out := Done;
    }

    /** A configuration entry was committed. */
    method ApplyChange(index: nat)
      requires Inv(View()) && index == NextChange(View()) && index != 0
      modifies this
      ensures View() == Apply(old(View()), CommitOp, Works).0
    {
      if uncommitted == index {
        uncommitted := 0;
      }
      committed := index;
      if leader {
        change := false;
        var i := IndexOf(configuration.servers, self);
        IsVoter(configuration.servers, i, self);
        if i == |configuration.servers| || configuration.servers[i].role != Voter {
          leader := false;
        }
      }
    }
  }
}
