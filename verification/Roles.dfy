/** The role allocator (src/roles.c): one pass over the cluster decides which nodes become
  * voters, standbys and spares, and queues the changes.
  *
  * The array is sorted between the phases. The comparison truncates a 64-bit difference, so
  * nothing is assumed of a sort but that it permutes the array.
  */
module Roles {
  import opened Configuration

  datatype Info = Info(id: nat, online: bool, role: Role)
  datatype Change = Change(id: nat, role: Role)

  // The cluster.

  ghost predicate Unique(s: seq<Info>) {
    forall i, j :: 0 <= i < j < |s| ==> s[i].id != s[j].id
  }

  function Online(s: seq<Info>): set<nat> {
    set x | x in s && x.online :: x.id
  }

  function Ids(s: seq<Info>): set<nat> {
    set x | x in s :: x.id
  }

  /** The online nodes with a role. */
  function Having(s: seq<Info>, role: Role): set<nat> {
    set x | x in s && x.online && x.role == role :: x.id
  }

  ghost predicate OfflineSpare(s: seq<Info>) {
    forall x :: x in s && !x.online ==> x.role == Spare
  }

  /** The same nodes, in any order. */
  ghost predicate Permuted(s: seq<Info>, s': seq<Info>) {
    |s'| == |s| && Unique(s') && forall x :: x in s' <==> x in s
  }

  function Min(a: nat, b: nat): nat {
    if a < b then a else b
  }

  /** What a pass is for: as many voters and then standbys as there are online nodes to have
    * the roles, and no more than wanted. The calling node is not demoted when it is the
    * only voter left. */
  ghost predicate Balanced(s: seq<Info>, voters: nat, standbys: nat, my: nat) {
    && OfflineSpare(s)
    && |Having(s, Voter)| == (if voters == 0 && my in Having(s, Voter) then 1 else Min(voters, |Online(s)|))
    && |Having(s, Standby)| + |Having(s, Voter)| == Min(standbys + |Having(s, Voter)|, |Online(s)|)
  }

  lemma Moved(s: seq<Info>, i: nat, role: Role)
    requires Unique(s) && i < |s| && s[i].online
    ensures var s' := s[i := s[i].(role := role)];
            && Unique(s') && Ids(s') == Ids(s) && Online(s') == Online(s) && (OfflineSpare(s) ==> OfflineSpare(s'))
            && Having(s', role) == Having(s, role) + {s[i].id}
            && forall r :: r != role ==> Having(s', r) == Having(s, r) - {s[i].id}
  {
    var s' := s[i := s[i].(role := role)];
    assert forall k :: 0 <= k < |s| && k != i ==> s'[k] == s[k] && s'[k] in s' && s[k] in s;
    assert s'[i] in s' && s[i] in s;
  }

  lemma HavingOnline(s: seq<Info>)
    requires Unique(s)
    ensures Online(s) == Having(s, Voter) + Having(s, Standby) + Having(s, Spare)
    ensures |Online(s)| == |Having(s, Voter)| + |Having(s, Standby)| + |Having(s, Spare)|
  {
    var v, b, p := Having(s, Voter), Having(s, Standby), Having(s, Spare);
    assert v !! b && v !! p && b !! p by {
      forall x, y | x in s && y in s && x.id == y.id ensures x == y {
        var i :| 0 <= i < |s| && s[i] == x;
        var j :| 0 <= j < |s| && s[j] == y;
        assert i == j;
      }
    }
    assert Online(s) == v + b + p;
    assert |v + b| == |v| + |b| && |v + b + p| == |v + b| + |p|;
  }

  // The queue of changes.

  ghost predicate OnePerNode(q: seq<Change>) {
    forall i, j :: 0 <= i < j < |q| ==> q[i].id != q[j].id
  }

  function Place(q: seq<Change>, id: nat): (i: nat)
    ensures i <= |q| && (i < |q| ==> q[i].id == id) && forall j :: 0 <= j < i ==> q[j].id != id
  {
    if q == [] || q[0].id == id then 0 else
      assert q == [q[0]] + q[1..];
      1 + Place(q[1..], id)
  }

  /** The change that replaces an earlier one for the node, or goes to the end. */
  function Queued(q: seq<Change>, id: nat, role: Role): seq<Change> {
    var i := Place(q, id);
    if i < |q| then q[i := Change(id, role)] else q + [Change(id, role)]
  }

  /** The role of a node once the queue was carried out. */
  function After(was: Role, q: seq<Change>, id: nat): Role {
    var i := Place(q, id);
    if i < |q| then q[i].role else was
  }

  /** Carrying out the queue on the original roles gives the current ones, and every record
    * changes its node's role. */
  ghost predicate Consolidated(was: map<nat, Role>, s: seq<Info>, q: seq<Change>) {
    && OnePerNode(q)
    && (forall x :: x in s ==> x.id in was && x.role == After(was[x.id], q, x.id))
    && (forall c :: c in q ==> c.id in was && c.role != was[c.id])
  }

  lemma {:induction false} PlaceIs(q: seq<Change>, id: nat, i: nat)
    requires i <= |q| && (i < |q| ==> q[i].id == id) && forall j :: 0 <= j < i ==> q[j].id != id
    ensures Place(q, id) == i
  {
  }

  lemma QueuedAfter(q: seq<Change>, id: nat, role: Role, was: Role, id': nat)
    requires OnePerNode(q)
    ensures OnePerNode(Queued(q, id, role))
    ensures After(was, Queued(q, id, role), id') == if id' == id then role else After(was, q, id')
  {
    var i, i' := Place(q, id), Place(q, id');
    var q' := Queued(q, id, role);
    if id' == id {
      PlaceIs(q', id, i);
    } else if i' < |q| || i < |q| {
      PlaceIs(q', id', i');
    } else {
      PlaceIs(q', id', |q'|);
    }
  }

  lemma ConsolidatedNext(was: map<nat, Role>, s: seq<Info>, q: seq<Change>, i: nat, role: Role)
    requires Unique(s) && Consolidated(was, s, q) && i < |s| && was[s[i].id] != role
    ensures Consolidated(was, s[i := s[i].(role := role)], Queued(q, s[i].id, role))
  {
    var s', q' := s[i := s[i].(role := role)], Queued(q, s[i].id, role);
    assert s[i] in s;
    forall x | x in s' ensures x.id in was && x.role == After(was[x.id], q', x.id) {
      var k :| 0 <= k < |s'| && s'[k] == x;
      assert s[k] in s && s[k].id == x.id;
      QueuedAfter(q, s[i].id, role, was[x.id], x.id);
    }
    QueuedAfter(q, s[i].id, role, role, s[i].id);
    forall c | c in q' ensures c.id in was && c.role != was[c.id] {
      if c != Change(s[i].id, role) {
        assert c in q;
      }
    }
  }

  // The pass.

  /** The same nodes, each with any role. */
  ghost predicate SameNodes(s: seq<Info>, s': seq<Info>) {
    |s'| == |s| && Unique(s') && Ids(s') == Ids(s) && Online(s') == Online(s)
  }

  /** The online nodes with a role had that role before. */
  ghost predicate Had(was: map<nat, Role>, s: seq<Info>, role: Role) {
    forall x :: x in s && x.online && x.role == role ==> x.id in was && was[x.id] == role
  }

  /** The online nodes with a role did not have the other role before. */
  ghost predicate HadNot(was: map<nat, Role>, s: seq<Info>, role: Role, other: Role) {
    forall x :: x in s && x.online && x.role == role ==> x.id in was && was[x.id] != other
  }

  type Swaps = seq<(nat, nat)>

  class Allocator {
    const cluster: array<Info>
    var changes: seq<Change>

    constructor (cluster: array<Info>)
      ensures this.cluster == cluster && changes == []
    {
      this.cluster := cluster;
      changes := [];
    }

    /** The state of the pass: the nodes, their queue of changes and their original roles. */
    ghost predicate Valid(was: map<nat, Role>)
      reads this, cluster
    {
      Unique(cluster[..]) && Consolidated(was, cluster[..], changes)
    }

    method QueueChange(id: nat, role: Role)
      modifies this`changes
      ensures changes == Queued(old(changes), id, role)
    {
      var i := 0;
      while i < |changes|
        invariant i <= |changes| && changes == old(changes) && forall j :: 0 <= j < i ==> changes[j].id != id
      {
        if changes[i].id == id {
          PlaceIs(changes, id, i);
          changes := changes[i := Change(id, role)];
          return;
        }
        i := i + 1;
      }
      PlaceIs(changes, id, |changes|);
      changes := changes + [Change(id, role)];
    }

    /** A sort: any swaps whatever. */
    method Sort(swaps: Swaps)
      requires Unique(cluster[..])
      modifies cluster
      ensures Permuted(old(cluster[..]), cluster[..])
    {
      for k := 0 to |swaps|
        invariant Permuted(old(cluster[..]), cluster[..])
      {
        var (i, j) := swaps[k];
        if i < j < cluster.Length {
          ghost var s := cluster[..];
          cluster[i], cluster[j] := cluster[j], cluster[i];
          assert cluster[..] == s[i := s[j]][j := s[i]];
          Swapped(s, i, j);
        }
      }
    }

    /** Give a node a role, and queue the change. */
    method Assign(i: nat, role: Role, ghost was: map<nat, Role>)
      requires Valid(was) && i < cluster.Length && cluster[i].id in was && was[cluster[i].id] != role
      modifies this`changes, cluster
      ensures Valid(was) && cluster[..] == old(cluster[..])[i := old(cluster[i]).(role := role)]
    {
      ConsolidatedNext(was, cluster[..], changes, i, role);
      assert cluster[..][i] in cluster[..];
      QueueChange(cluster[i].id, role);
      cluster[i] := cluster[i].(role := role);
      assert cluster[..] == old(cluster[..])[i := old(cluster[i]).(role := role)];
      UniqueStays(old(cluster[..]), i, role);
    }

    /** Demote the offline nodes, and count the online voters and standbys. */
    method DemoteOffline(ghost was: map<nat, Role>) returns (voterCount: nat, standbyCount: nat)
      requires Valid(was) && Original(was, cluster[..])
      modifies this`changes, cluster
      ensures Valid(was) && SameNodes(old(cluster[..]), cluster[..]) && OfflineSpare(cluster[..])
      ensures voterCount == |Having(cluster[..], Voter)| && standbyCount == |Having(cluster[..], Standby)|
      ensures forall r :: Having(cluster[..], r) == Having(old(cluster[..]), r) && Had(was, cluster[..], r)
      ensures old(OfflineSpare(cluster[..])) ==> changes == old(changes) && cluster[..] == old(cluster[..])
    {
      hide Consolidated;
      hide Having;
      ghost var s := cluster[..];
      voterCount, standbyCount := 0, 0;
      HavingNone(s);
      for i := 0 to cluster.Length
        invariant Valid(was)
        invariant forall k :: 0 <= k < i ==> cluster[k] == OfflineDemoted(s[k])
        invariant forall k :: i <= k < cluster.Length ==> cluster[k] == s[k]
        invariant voterCount == |Having(s[..i], Voter)| && standbyCount == |Having(s[..i], Standby)|
        invariant OfflineSpare(s) ==> changes == old(changes)
      {
        assert cluster[i] == s[i] && s[i] in s;
        HavingNext(s, i, Voter);
        HavingNext(s, i, Standby);
        if !cluster[i].online && cluster[i].role != Spare {
          Assign(i, Spare, was);
        } else if cluster[i].online && cluster[i].role == Voter {
          voterCount := voterCount + 1;
        } else if cluster[i].online && cluster[i].role == Standby {
          standbyCount := standbyCount + 1;
        }
      }
      assert s[..cluster.Length] == s;
      Demoted(s, cluster[..], was);
    }

    /** Promote online nodes until there are enough voters or all of them are. */
    method PromoteVoters(voters: nat, v0: nat, b0: nat, swaps: Swaps, ghost was: map<nat, Role>) returns (v: nat, b: nat)
      requires Valid(was) && OfflineSpare(cluster[..])
      requires v0 == |Having(cluster[..], Voter)| && b0 == |Having(cluster[..], Standby)|
      requires Had(was, cluster[..], Standby) && Had(was, cluster[..], Spare)
      modifies this`changes, cluster
      ensures Valid(was) && SameNodes(old(cluster[..]), cluster[..]) && OfflineSpare(cluster[..])
      ensures v == |Having(cluster[..], Voter)| && b == |Having(cluster[..], Standby)|
      ensures Had(was, cluster[..], Standby) && Had(was, cluster[..], Spare)
      ensures Having(old(cluster[..]), Voter) <= Having(cluster[..], Voter)
      ensures v0 >= voters ==> v == v0 && cluster[..] == old(cluster[..])
      ensures v0 < voters ==> v == voters || (v < voters && Having(cluster[..], Voter) == Online(cluster[..]))
      ensures v0 >= voters || Having(old(cluster[..]), Voter) == Online(old(cluster[..])) ==> changes == old(changes)
    {
      hide Consolidated;
      hide Having;
      hide Online;
      hide Unique;
      hide Ids;
      hide Had;
      hide OfflineSpare;
      ghost var s0 := cluster[..];
      v, b := v0, b0;
      if v < voters {
        Sort(swaps);
        PermutedKeeps(s0, cluster[..], was);
      }
      SortKeeps(s0, cluster[..]);
      var i := 0;
      while i < cluster.Length && v < voters
        invariant i <= cluster.Length && Valid(was) && SameNodes(s0, cluster[..]) && OfflineSpare(cluster[..])
        invariant v == |Having(cluster[..], Voter)| && b == |Having(cluster[..], Standby)| && (v <= voters || v == v0)
        invariant Had(was, cluster[..], Standby) && Had(was, cluster[..], Spare)
        invariant Having(s0, Voter) <= Having(cluster[..], Voter)
        invariant forall k :: 0 <= k < i ==> cluster[k].online ==> cluster[k].role == Voter
        invariant v0 >= voters ==> v == v0 && cluster[..] == s0
        invariant v0 >= voters || Having(s0, Voter) == Online(s0) ==> changes == old(changes)
      {
        if !cluster[i].online || cluster[i].role == Voter {
          i := i + 1;
          continue;
        }
        ghost var s := cluster[..];
        Promotable(s, i, Voter, was);
        if cluster[i].role == Standby {
          b := b - 1;
        }
        Assign(i, Voter, was);
        v := v + 1;
        i := i + 1;
      }
      if i == cluster.Length {
        AllVoters(cluster[..]);
      }
    }

    /** Demote voters other than the calling node until there are as many as wanted. */
    method DemoteVoters(voters: nat, v0: nat, my: nat, swaps: Swaps, ghost was: map<nat, Role>) returns (v: nat)
      requires Valid(was) && OfflineSpare(cluster[..]) && v0 == |Having(cluster[..], Voter)|
      requires v0 > voters ==> Had(was, cluster[..], Voter)
      requires Had(was, cluster[..], Standby) && Had(was, cluster[..], Spare)
      modifies this`changes, cluster
      ensures Valid(was) && SameNodes(old(cluster[..]), cluster[..]) && OfflineSpare(cluster[..])
      ensures v == |Having(cluster[..], Voter)| && Having(cluster[..], Standby) == Having(old(cluster[..]), Standby)
      ensures Had(was, cluster[..], Standby) && HadNot(was, cluster[..], Spare, Standby)
      ensures my in Having(old(cluster[..]), Voter) ==> my in Having(cluster[..], Voter)
      ensures v0 <= voters ==> v == v0 && cluster[..] == old(cluster[..])
      ensures v0 > voters ==> v == voters || (v == 1 && voters == 0 && my in Having(cluster[..], Voter))
      ensures v0 <= voters || Having(old(cluster[..]), Voter) <= {my} ==> changes == old(changes)
    {
      hide Consolidated;
      hide Having;
      hide Online;
      hide Unique;
      hide Ids;
      hide Had;
      hide OfflineSpare;
      hide HadNot;
      ghost var s0 := cluster[..];
      v := v0;
      if v > voters {
        Sort(swaps);
        PermutedKeeps(s0, cluster[..], was);
      }
      SortKeeps(s0, cluster[..]);
      SpareHadNot(was, cluster[..]);
      var i := 0;
      while i < cluster.Length && v > voters
        invariant i <= cluster.Length && Valid(was) && SameNodes(s0, cluster[..]) && OfflineSpare(cluster[..])
        invariant v == |Having(cluster[..], Voter)| && Having(cluster[..], Standby) == Having(s0, Standby)
        invariant v0 > voters ==> v >= voters && Had(was, cluster[..], Voter)
        invariant Had(was, cluster[..], Standby) && HadNot(was, cluster[..], Spare, Standby)
        invariant my in Having(s0, Voter) ==> my in Having(cluster[..], Voter)
        invariant Having(cluster[..], Voter) <= Having(s0, Voter)
        invariant forall k :: 0 <= k < i ==> cluster[k].role == Voter ==> cluster[k].id == my
        invariant v0 <= voters ==> v == v0 && cluster[..] == s0
        invariant v0 <= voters || Having(s0, Voter) <= {my} ==> changes == old(changes)
      {
        if cluster[i].role != Voter || cluster[i].id == my {
          i := i + 1;
          continue;
        }
        ghost var s := cluster[..];
        VoterOnline(s, i);
        Promotable(s, i, Spare, was);
        SparedHadNot(s, i, was);
        Assign(i, Spare, was);
        v := v - 1;
        i := i + 1;
      }
      if v > voters {
        OnlyMine(cluster[..], my);
      }
    }

    /** Promote online spares until there are enough standbys or no spare is left. */
    method PromoteStandbys(standbys: nat, b0: nat, swaps: Swaps, ghost was: map<nat, Role>) returns (b: nat)
      requires Valid(was) && OfflineSpare(cluster[..]) && b0 == |Having(cluster[..], Standby)|
      requires HadNot(was, cluster[..], Spare, Standby)
      modifies this`changes, cluster
      ensures Valid(was) && SameNodes(old(cluster[..]), cluster[..]) && OfflineSpare(cluster[..])
      ensures b == |Having(cluster[..], Standby)| && Having(cluster[..], Voter) == Having(old(cluster[..]), Voter)
      ensures b0 >= standbys ==> b == b0 && cluster[..] == old(cluster[..])
      ensures b0 < standbys ==> b == standbys || (b < standbys && Having(cluster[..], Spare) == {})
      ensures b0 >= standbys || Having(old(cluster[..]), Spare) == {} ==> changes == old(changes)
    {
      hide Consolidated;
      hide Having;
      hide Online;
      hide Unique;
      hide Ids;
      hide Had;
      hide OfflineSpare;
      hide HadNot;
      ghost var s0 := cluster[..];
      b := b0;
      if b < standbys {
        Sort(swaps);
        PermutedKeeps(s0, cluster[..], was);
        PermutedHadNot(s0, cluster[..], was);
      }
      SortKeeps(s0, cluster[..]);
      var i := 0;
      while i < cluster.Length && b < standbys
        invariant i <= cluster.Length && Valid(was) && SameNodes(s0, cluster[..]) && OfflineSpare(cluster[..])
        invariant b == |Having(cluster[..], Standby)| && Having(cluster[..], Voter) == Having(s0, Voter)
        invariant Having(cluster[..], Spare) <= Having(s0, Spare)
        invariant HadNot(was, cluster[..], Spare, Standby) && (b0 < standbys ==> b <= standbys)
        invariant forall k :: 0 <= k < i ==> cluster[k].online ==> cluster[k].role != Spare
        invariant b0 >= standbys ==> b == b0 && cluster[..] == s0
        invariant b0 >= standbys || Having(s0, Spare) == {} ==> changes == old(changes)
      {
        if !cluster[i].online || cluster[i].role != Spare {
          i := i + 1;
          continue;
        }
        ghost var s := cluster[..];
        Promotable(s, i, Standby, was);
        StandbyHadNot(s, i, was);
        Assign(i, Standby, was);
        b := b + 1;
        i := i + 1;
      }
      if i == cluster.Length {
        NoSpares(cluster[..]);
      }
    }

    /** Demote standbys until there are as many as wanted. */
    method DemoteStandbys(standbys: nat, b0: nat, swaps: Swaps, ghost was: map<nat, Role>) returns (b: nat)
      requires Valid(was) && OfflineSpare(cluster[..]) && b0 == |Having(cluster[..], Standby)|
      requires b0 > standbys ==> Had(was, cluster[..], Standby)
      modifies this`changes, cluster
      ensures Valid(was) && SameNodes(old(cluster[..]), cluster[..]) && OfflineSpare(cluster[..])
      ensures b == |Having(cluster[..], Standby)| == Min(b0, standbys)
      ensures Having(cluster[..], Voter) == Having(old(cluster[..]), Voter)
      ensures b0 <= standbys ==> changes == old(changes) && cluster[..] == old(cluster[..])
    {
      hide Consolidated;
      hide Having;
      hide Online;
      hide Unique;
      hide Ids;
      hide Had;
      hide OfflineSpare;
      ghost var s0 := cluster[..];
      b := b0;
      if b > standbys {
        Sort(swaps);
        PermutedKeeps(s0, cluster[..], was);
      }
      SortKeeps(s0, cluster[..]);
      var i := 0;
      while i < cluster.Length && b > standbys
        invariant i <= cluster.Length && Valid(was) && SameNodes(s0, cluster[..]) && OfflineSpare(cluster[..])
        invariant b == |Having(cluster[..], Standby)| && Having(cluster[..], Voter) == Having(s0, Voter)
        invariant b0 > standbys ==> b >= standbys && Had(was, cluster[..], Standby)
        invariant forall k :: 0 <= k < i ==> cluster[k].role != Standby
        invariant b0 <= standbys ==> b == b0 && changes == old(changes) && cluster[..] == s0
      {
        if cluster[i].role != Standby {
          i := i + 1;
          continue;
        }
        ghost var s := cluster[..];
        VoterOnline(s, i);
        Promotable(s, i, Spare, was);
        HadStays(s, i, was);
        Assign(i, Spare, was);
        b := b - 1;
        i := i + 1;
      }
      if i == cluster.Length {
        NoStandbys(cluster[..]);
      }
    }

    method AdjustVoters(voters: nat, my: nat, s1: Swaps, s2: Swaps, ghost was: map<nat, Role>) returns (b: nat)
      requires Valid(was) && Original(was, cluster[..]) && changes == []
      modifies this`changes, cluster
      ensures Valid(was) && SameNodes(old(cluster[..]), cluster[..]) && OfflineSpare(cluster[..])
      ensures VotersDone(cluster[..], voters, my) && b == |Having(cluster[..], Standby)|
      ensures Had(was, cluster[..], Standby) && HadNot(was, cluster[..], Spare, Standby)
      ensures my in Having(old(cluster[..]), Voter) ==> my in Having(cluster[..], Voter)
      ensures old(OfflineSpare(cluster[..]) && VotersDone(cluster[..], voters, my)) ==> changes == []
    {
      hide Having;
      hide Online;
      hide Unique;
      hide Ids;
      hide Had;
      hide HadNot;
      hide OfflineSpare;
      hide Consolidated;
      hide Original;
      ghost var s0 := cluster[..];
      var v;
      v, b := DemoteOffline(was);
      v, b := PromoteVoters(voters, v, b, s1, was);
      if VotersDone(s0, voters, my) && |Having(s0, Voter)| > voters {
        OneMember(Having(s0, Voter), my);
      }
      v := DemoteVoters(voters, v, my, s2, was);
    }

    method AdjustStandbys(standbys: nat, b0: nat, s3: Swaps, s4: Swaps, ghost was: map<nat, Role>)
      requires Valid(was) && OfflineSpare(cluster[..]) && b0 == |Having(cluster[..], Standby)|
      requires Had(was, cluster[..], Standby) && HadNot(was, cluster[..], Spare, Standby)
      modifies this`changes, cluster
      ensures Valid(was) && SameNodes(old(cluster[..]), cluster[..]) && OfflineSpare(cluster[..])
      ensures StandbysDone(cluster[..], standbys) && Having(cluster[..], Voter) == Having(old(cluster[..]), Voter)
      ensures old(StandbysDone(cluster[..], standbys)) ==> changes == old(changes)
    {
      hide Having;
      hide Online;
      hide Unique;
      hide Ids;
      hide Had;
      hide HadNot;
      hide OfflineSpare;
      hide Consolidated;
      var b := PromoteStandbys(standbys, b0, s3, was);
      HavingOnline(cluster[..]);
      b := DemoteStandbys(standbys, b, s4, was);
      HavingOnline(cluster[..]);
    }

    /** One pass. Whatever the sorts do, it balances the cluster, keeps the calling node a
      * voter, and queues at most one change per node, each a real one; a balanced cluster
      * is left as it is. */
    method ComputeChanges(voters: nat, standbys: nat, my: nat, s1: Swaps, s2: Swaps, s3: Swaps, s4: Swaps, ghost was: map<nat, Role>)
      requires Unique(cluster[..]) && Original(was, cluster[..]) && changes == []
      modifies this`changes, cluster
      ensures SameNodes(old(cluster[..]), cluster[..]) && Balanced(cluster[..], voters, standbys, my)
      ensures my in Having(old(cluster[..]), Voter) ==> my in Having(cluster[..], Voter)
      ensures Consolidated(was, cluster[..], changes)
      ensures old(Balanced(cluster[..], voters, standbys, my)) ==> changes == []
    {
      hide Having;
      hide Online;
      hide Unique;
      hide Ids;
      hide Had;
      hide HadNot;
      hide OfflineSpare;
      hide Consolidated;
      hide Original;
      hide Balanced;
      hide VotersDone;
      hide StandbysDone;
      ghost var s0 := cluster[..];
      StartsConsolidated(was, s0);
      BalancedParts(s0, voters, standbys, my);
      var b := AdjustVoters(voters, my, s1, s2, was);
      if changes == [] {
        Untouched(was, s0, cluster[..]);
        SameStandbys(s0, cluster[..], standbys);
      }
      ghost var s := cluster[..];
      AdjustStandbys(standbys, b, s3, s4, was);
      VotersStay(s, cluster[..], voters, my);
      BalancedParts(cluster[..], voters, standbys, my);
    }
  }

  /** Every node has its original role. */
  ghost predicate Original(was: map<nat, Role>, s: seq<Info>) {
    forall x :: x in s ==> x.id in was && x.role == was[x.id]
  }

  function OfflineDemoted(x: Info): Info {
    if x.online then x else x.(role := Spare)
  }

  lemma HavingNone(s: seq<Info>)
    ensures forall r :: Having(s[..0], r) == {}
  {
  }

  lemma HavingNext(s: seq<Info>, i: nat, r: Role)
    requires Unique(s) && i < |s|
    ensures |Having(s[..i + 1], r)| == |Having(s[..i], r)| + if s[i].online && s[i].role == r then 1 else 0
  {
    assert s[..i + 1] == s[..i] + [s[i]];
    var a := Having(s[..i], r);
    assert s[i].id !in a;
    assert Having(s[..i + 1], r) == if s[i].online && s[i].role == r then a + {s[i].id} else a;
  }

  lemma DemotedMembers(s: seq<Info>, s': seq<Info>)
    requires |s'| == |s| && forall k :: 0 <= k < |s| ==> s'[k] == OfflineDemoted(s[k])
    ensures forall x: Info :: x.online ==> (x in s' <==> x in s)
    ensures Ids(s') == Ids(s) && OfflineSpare(s')
  {
    assert forall k :: 0 <= k < |s| ==> s[k] in s && s'[k] in s';
  }

  lemma Demoted(s: seq<Info>, s': seq<Info>, was: map<nat, Role>)
    requires |s'| == |s| && Unique(s) && Original(was, s) && forall k :: 0 <= k < |s| ==> s'[k] == OfflineDemoted(s[k])
    ensures SameNodes(s, s') && OfflineSpare(s')
    ensures forall r :: Having(s', r) == Having(s, r) && Had(was, s', r)
    ensures OfflineSpare(s) ==> s' == s
  {
    hide Ids;
    DemotedMembers(s, s');
    assert Online(s') == Online(s);
    forall r ensures Having(s', r) == Having(s, r) && Had(was, s', r) {}
  }

  /** What a permutation keeps. */
  lemma SortKeeps(s: seq<Info>, s': seq<Info>)
    requires s' == s || Permuted(s, s')
    requires Unique(s)
    ensures SameNodes(s, s') && (OfflineSpare(s) ==> OfflineSpare(s')) && forall r :: Having(s', r) == Having(s, r)
  {
    assert Ids(s') == Ids(s) && Online(s') == Online(s);
    forall r ensures Having(s', r) == Having(s, r) {}
  }

  lemma PermutedKeeps(s: seq<Info>, s': seq<Info>, was: map<nat, Role>)
    requires Permuted(s, s')
    ensures forall r :: Had(was, s, r) ==> Had(was, s', r)
    ensures forall q :: Consolidated(was, s, q) ==> Consolidated(was, s', q)
  {
  }

  /** Promoting an online node that is not a voter, or demoting one. */
  lemma Promotable(s: seq<Info>, i: nat, role: Role, was: map<nat, Role>)
    requires Unique(s) && i < |s| && s[i].online && s[i].role != role && OfflineSpare(s)
    ensures var s' := s[i := s[i].(role := role)];
            && SameNodes(s, s') && OfflineSpare(s')
            && (forall r :: r != role && Had(was, s, r) ==> Had(was, s', r))
            && s[i].id in Having(s, s[i].role) && s[i].id !in Having(s, role) && s[i].id in Online(s)
            && Having(s', role) == Having(s, role) + {s[i].id} && |Having(s', role)| == |Having(s, role)| + 1
            && |Having(s', s[i].role)| == |Having(s, s[i].role)| - 1
            && (forall r :: r != role ==> Having(s', r) == Having(s, r) - {s[i].id})
            && (forall r :: r != role && r != s[i].role ==> Having(s', r) == Having(s, r))
    ensures Had(was, s, s[i].role) ==> s[i].id in was && was[s[i].id] == s[i].role
  {
    assert s[i] in s;
    Moved(s, i, role);
    OnlyOnce(s, i);
  }

  lemma OnlyOnce(s: seq<Info>, i: nat)
    requires Unique(s) && i < |s|
    ensures forall r :: r != s[i].role ==> s[i].id !in Having(s, r)
  {
  }

  /** Only online nodes have a role other than spare. */
  lemma VoterOnline(s: seq<Info>, i: nat)
    requires OfflineSpare(s) && i < |s| && s[i].role != Spare
    ensures s[i].online
  {
  }

  lemma SpareHadNot(was: map<nat, Role>, s: seq<Info>)
    requires Had(was, s, Spare)
    ensures HadNot(was, s, Spare, Standby)
  {
  }

  lemma PermutedHadNot(s: seq<Info>, s': seq<Info>, was: map<nat, Role>)
    requires Permuted(s, s') && HadNot(was, s, Spare, Standby)
    ensures HadNot(was, s', Spare, Standby)
  {
  }

  /** A voter that becomes a spare was not a standby. */
  lemma SparedHadNot(s: seq<Info>, i: nat, was: map<nat, Role>)
    requires i < |s| && s[i].online && s[i].role == Voter && Had(was, s, Voter) && HadNot(was, s, Spare, Standby)
    ensures HadNot(was, s[i := s[i].(role := Spare)], Spare, Standby) && Had(was, s[i := s[i].(role := Spare)], Voter)
  {
    assert s[i] in s;
  }

  lemma StandbyHadNot(s: seq<Info>, i: nat, was: map<nat, Role>)
    requires i < |s| && s[i].online && s[i].role == Spare && HadNot(was, s, Spare, Standby)
    ensures HadNot(was, s[i := s[i].(role := Standby)], Spare, Standby) && s[i].id in was && was[s[i].id] != Standby
  {
    assert s[i] in s;
  }

  lemma HadStays(s: seq<Info>, i: nat, was: map<nat, Role>)
    requires i < |s| && s[i].online && s[i].role == Standby && Had(was, s, Standby)
    ensures Had(was, s[i := s[i].(role := Spare)], Standby) && s[i].id in was && was[s[i].id] == Standby
  {
    assert s[i] in s;
  }

  lemma OnlyMine(s: seq<Info>, my: nat)
    requires forall k :: 0 <= k < |s| ==> s[k].role == Voter ==> s[k].id == my
    ensures Having(s, Voter) <= {my} && |Having(s, Voter)| <= 1 && (|Having(s, Voter)| == 1 ==> my in Having(s, Voter))
  {
    if my in Having(s, Voter) {
      assert Having(s, Voter) == {my};
    } else {
      assert Having(s, Voter) == {};
    }
  }

  lemma NoSpares(s: seq<Info>)
    requires forall k :: 0 <= k < |s| ==> s[k].online ==> s[k].role != Spare
    ensures Having(s, Spare) == {}
  {
  }

  lemma NoStandbys(s: seq<Info>)
    requires forall k :: 0 <= k < |s| ==> s[k].role != Standby
    ensures Having(s, Standby) == {}
  {
  }

  lemma StartsConsolidated(was: map<nat, Role>, s: seq<Info>)
    requires Original(was, s)
    ensures Consolidated(was, s, [])
  {
  }

  /** While no change is queued every node has its original role. */
  lemma Untouched(was: map<nat, Role>, s0: seq<Info>, s: seq<Info>)
    requires Original(was, s0) && Consolidated(was, s, []) && SameNodes(s0, s)
    ensures forall r :: Having(s, r) == Having(s0, r)
  {
    forall r ensures Having(s, r) == Having(s0, r) {
      OnlineWith(was, s0, r);
      OnlineWith(was, s, r);
    }
  }

  lemma OnlineWith(was: map<nat, Role>, s: seq<Info>, r: Role)
    requires Original(was, s)
    ensures Having(s, r) == set id | id in Online(s) && id in was && was[id] == r
  {
  }

  /** There are as many voters as wanted, or all online nodes are, or only the caller is. */
  ghost predicate VotersDone(s: seq<Info>, voters: nat, my: nat) {
    var n := |Having(s, Voter)|;
    n == voters || (n < voters && Having(s, Voter) == Online(s)) || (n == 1 && voters == 0 && my in Having(s, Voter))
  }

  /** There are as many standbys as wanted, or no online node is left to be one. */
  ghost predicate StandbysDone(s: seq<Info>, standbys: nat) {
    var n := |Having(s, Standby)|;
    n == standbys || (n < standbys && Having(s, Spare) == {})
  }

  lemma BalancedParts(s: seq<Info>, voters: nat, standbys: nat, my: nat)
    requires Unique(s)
    ensures Balanced(s, voters, standbys, my) <==> OfflineSpare(s) && VotersDone(s, voters, my) && StandbysDone(s, standbys)
  {
    hide Having;
    hide Online;
    hide Unique;
    HavingOnline(s);
    var v, n := Having(s, Voter), |Online(s)|;
    if |v| == n {
      assert Online(s) == v + (Having(s, Standby) + Having(s, Spare));
      assert Having(s, Standby) == {} && Having(s, Spare) == {};
    }
    if voters == 0 && |v| == 1 && my in v {
      OneMember(v, my);
    }
  }

  lemma VotersStay(s: seq<Info>, s': seq<Info>, voters: nat, my: nat)
    requires Having(s', Voter) == Having(s, Voter) && Online(s') == Online(s)
    ensures VotersDone(s', voters, my) <==> VotersDone(s, voters, my)
  {
  }

  lemma SameStandbys(s: seq<Info>, s': seq<Info>, standbys: nat)
    requires forall r :: Having(s', r) == Having(s, r)
    ensures StandbysDone(s', standbys) <==> StandbysDone(s, standbys)
  {
  }

  lemma OneMember(a: set<nat>, x: nat)
    requires |a| == 1 && x in a
    ensures a == {x}
  {
    assert |a - {x}| == 0;
  }

  lemma AllVoters(s: seq<Info>)
    requires forall k :: 0 <= k < |s| ==> s[k].online ==> s[k].role == Voter
    ensures Having(s, Voter) == Online(s)
  {
  }

  lemma Swapped(s: seq<Info>, i: nat, j: nat)
    requires Unique(s) && i < j < |s|
    ensures Permuted(s, s[i := s[j]][j := s[i]])
  {
    var s' := s[i := s[j]][j := s[i]];
    forall x | x in s ensures x in s' {
      var k :| 0 <= k < |s| && s[k] == x;
      assert s'[if k == i then j else if k == j then i else k] == x;
    }
  }

  lemma UniqueStays(s: seq<Info>, i: nat, role: Role)
    requires Unique(s) && i < |s|
    ensures Unique(s[i := s[i].(role := role)])
  {
  }
}
