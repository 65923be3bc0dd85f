/** Cluster configurations (src/raft/configuration.c): lookups, voter counting, and the
  * changes to the array of servers. */
module Configuration {
  import opened Quorum

  datatype Role = Standby | Voter | Spare
  datatype Member = Member(id: nat, address: string, role: Role)
  type Members = seq<Member>

  datatype Error = Ok | BadRole | DuplicateId | DuplicateAddress | BadId

  // What a configuration means.

  ghost predicate Distinct(c: Members) {
    && (forall i :: 0 <= i < |c| ==> c[i].id != 0)
    && (forall i, j :: 0 <= i < j < |c| ==> c[i].id != c[j].id && c[i].address != c[j].address)
  }

  /** The voters, in the order of the configuration. */
  function VoterIds(c: Members): seq<nat> {
    if c == [] then [] else
      VoterIds(c[..|c| - 1]) + if c[|c| - 1].role == Voter then [c[|c| - 1].id] else []
  }

  function Voters(c: Members): set<nat> {
    set i | 0 <= i < |c| && c[i].role == Voter :: c[i].id
  }

  predicate HasId(c: Members, id: nat) {
    exists i :: 0 <= i < |c| && c[i].id == id
  }

  lemma VoterIdsAre(c: Members)
    ensures Voters(c) == set v | v in VoterIds(c)
    ensures Distinct(c) ==> |VoterIds(c)| == |Voters(c)|
    ensures Distinct(c) ==> forall i, j :: 0 <= i < j < |VoterIds(c)| ==> VoterIds(c)[i] != VoterIds(c)[j]
  {
    VoterIdSet(c);
    if Distinct(c) {
      VoterIdsDiffer(c);
    }
  }

  lemma {:induction false} VoterIdSet(c: Members)
    ensures forall v :: v in VoterIds(c) <==> v in Voters(c)
  {
    if c != [] {
      VoterIdSet(c[..|c| - 1]);
      LastVoter(c);
      hide Voters;
    }
  }

  lemma {:induction false} VoterIdsDiffer(c: Members)
    requires Distinct(c)
    ensures |VoterIds(c)| == |Voters(c)|
    ensures forall i, j :: 0 <= i < j < |VoterIds(c)| ==> VoterIds(c)[i] != VoterIds(c)[j]
  {
    if c != [] {
      var c' := c[..|c| - 1];
      assert forall i :: 0 <= i < |c'| ==> c'[i] == c[i];
      VoterIdsDiffer(c');
      VoterIdSet(c');
      LastVoter(c);
      hide Voters;
      hide Distinct;
    }
  }

  lemma LastVoter(c: Members)
    requires c != []
    ensures var n := |c| - 1;
            && Voters(c) == Voters(c[..n]) + (if c[n].role == Voter then {c[n].id} else {})
            && (Distinct(c) ==> c[n].id !in Voters(c[..n]))
  {
    var n := |c| - 1;
    var c', last := c[..n], c[n];
    assert forall i :: 0 <= i < n ==> c[i] == c'[i];
    if last.role == Voter {
      assert last.id == c[n].id;
    }
  }

  lemma {:induction false} VoterIdsPrefix(c: Members, i: nat)
    requires i <= |c|
    ensures VoterIds(c[..i]) <= VoterIds(c)
    decreases |c|
  {
    if i < |c| {
      VoterIdsPrefix(c[..|c| - 1], i);
      assert c[..|c| - 1][..i] == c[..i];
    } else {
      assert c[..i] == c;
    }
  }

  // Lookups.

  method IndexOf(c: Members, id: nat) returns (i: nat)
    ensures i <= |c| && (i < |c| ==> c[i].id == id) && forall j :: 0 <= j < i ==> c[j].id != id
  {
    i := 0;
    while i < |c|
      invariant i <= |c| && forall j :: 0 <= j < i ==> c[j].id != id
    {
      if c[i].id == id {
        return;
      }
      i := i + 1;
    }
  }

  /** The place of a server among the voters, or the size when it is not a voter. */
  method IndexOfVoter(c: Members, id: nat) returns (j: nat)
    requires Distinct(c)
    ensures id in Voters(c) ==> j < |VoterIds(c)| && VoterIds(c)[j] == id
    ensures id !in Voters(c) ==> j == |c|
  {
    j := 0;
    assert c[..0] == [];
    for i := 0 to |c|
      invariant j == |VoterIds(c[..i])|
      invariant forall k :: 0 <= k < i ==> c[k].id != id
    {
      assert c[..i + 1][..i] == c[..i];
      VoterIdsPrefix(c, i + 1);
      if c[i].id == id {
        if c[i].role == Voter {
          assert VoterIds(c[..i + 1])[j] == id;
          return;
        }
        return |c|;
      }
      if c[i].role == Voter {
        j := j + 1;
      }
    }
    j := |c|;
  }

  method VoterCount(c: Members) returns (n: nat)
    requires Distinct(c)
    ensures n == |Voters(c)| == |VoterIds(c)|
  {
    n := 0;
    assert c[..0] == [];
    for i := 0 to |c|
      invariant n == |VoterIds(c[..i])|
    {
      assert c[..i + 1][..i] == c[..i];
      if c[i].role == Voter {
        n := n + 1;
      }
    }
    assert c[..|c|] == c;
    VoterIdsAre(c);
  }

  // Changes.

  /** The outcome of adding a server: the first clash with a server already there. */
  function AddError(c: Members, id: nat, address: string): Error {
    if c == [] then Ok
    else if c[0].id == id then DuplicateId
    else if c[0].address == address then DuplicateAddress
    else AddError(c[1..], id, address)
  }

  lemma {:induction false} AddErrorOk(c: Members, id: nat, address: string)
    ensures AddError(c, id, address) == Ok <==> forall i :: 0 <= i < |c| ==> c[i].id != id && c[i].address != address
  {
    if c != [] {
      AddErrorOk(c[1..], id, address);
      if AddError(c, id, address) == Ok {
        forall i | 0 <= i < |c| ensures c[i].id != id && c[i].address != address {
          if i > 0 {
            assert c[i] == c[1..][i - 1];
          }
        }
      }
    }
  }

  /** The first server that clashes tells the error, and its id counts before its address. */
  lemma {:induction false} FirstClash(c: Members, id: nat, address: string, i: nat)
    requires i < |c| && (c[i].id == id || c[i].address == address)
    requires forall j :: 0 <= j < i ==> c[j].id != id && c[j].address != address
    ensures AddError(c, id, address) == if c[i].id == id then DuplicateId else DuplicateAddress
  {
    if i > 0 {
      FirstClash(c[1..], id, address, i - 1);
    }
  }

  lemma AddDistinct(c: Members, m: Member)
    requires Distinct(c) && m.id != 0 && AddError(c, m.id, m.address) == Ok
    ensures Distinct(c + [m])
    ensures Voters(c + [m]) == if m.role == Voter then Voters(c) + {m.id} else Voters(c)
  {
    AddErrorOk(c, m.id, m.address);
    var d := c + [m];
    assert forall i :: 0 <= i < |c| ==> d[i] == c[i];
    if m.role == Voter {
      assert d[|c|].id == m.id;
    }
  }

  function Without(c: Members, i: nat): Members
    requires i < |c|
  {
    c[..i] + c[i + 1..]
  }

  lemma WithoutDistinct(c: Members, i: nat)
    requires Distinct(c) && i < |c|
    ensures Distinct(Without(c, i)) && Voters(Without(c, i)) == Voters(c) - {c[i].id}
  {
    var d := Without(c, i);
    assert forall j :: 0 <= j < |d| ==> d[j] == c[if j < i then j else j + 1];
    forall v | v in Voters(c) && v != c[i].id ensures v in Voters(d) {
      var j :| 0 <= j < |c| && c[j].role == Voter && c[j].id == v;
      assert d[if j < i then j else j - 1].id == v;
    }
  }

  lemma IsVoter(cfg: Members, i: nat, id: nat)
    requires Distinct(cfg) && i <= |cfg| && (i < |cfg| ==> cfg[i].id == id) && forall j :: 0 <= j < i ==> cfg[j].id != id
    ensures id in Voters(cfg) <==> i < |cfg| && cfg[i].role == Voter
  {
  }

  function WithRole(c: Members, i: nat, role: Role): Members
    requires i < |c|
  {
    c[i := c[i].(role := role)]
  }

  lemma WithRoleDistinct(c: Members, i: nat, role: Role)
    requires Distinct(c) && i < |c|
    ensures Distinct(WithRole(c, i, role))
    ensures Voters(WithRole(c, i, role)) == if role == Voter then Voters(c) + {c[i].id} else Voters(c) - {c[i].id}
  {
    var d := WithRole(c, i, role);
    assert forall j :: 0 <= j < |c| ==> d[j].id == c[j].id && d[j].address == c[j].address;
    forall v ensures v in Voters(d) <==> if v == c[i].id then role == Voter else v in Voters(c) {
      if v in Voters(c) && v != c[i].id {
        var j :| 0 <= j < |c| && c[j].role == Voter && c[j].id == v;
        assert d[j].role == Voter && d[j].id == v;
      }
      if v == c[i].id && role == Voter {
        assert d[i].id == v;
      }
      if v in Voters(d) {
        var j :| 0 <= j < |d| && d[j].role == Voter && d[j].id == v;
        assert c[j].id == v;
      }
    }
  }

  class Servers {
    var servers: seq<Member>
    /** Its memory has not been released. */
    var live: bool

    constructor (c: Members)
      ensures servers == c && live
    {
      servers, live := c, true;
    }

    method Close()
      requires live
      modifies this`live
      ensures !live
    {
      live := false;
    }

    method SetRole(i: nat, role: Role)
      requires live && i < |servers|
      modifies this`servers
      ensures servers == WithRole(old(servers), i, role)
    {
      servers := servers[i := servers[i].(role := role)];
    }

    method Add(id: nat, address: string, role: Role) returns (e: Error)
      requires live && id != 0
      modifies this`servers
      ensures e == AddError(old(servers), id, address)
      ensures servers == if e == Ok then old(servers) + [Member(id, address, role)] else old(servers)
    {
      assert servers[0..] == servers;
      for i := 0 to |servers|
        invariant servers == old(servers)
        invariant AddError(servers[i..], id, address) == AddError(servers, id, address)
      {
        assert servers[i..][1..] == servers[i + 1..];
        if servers[i].id == id {
          return DuplicateId;
        }
        if servers[i].address == address {
          return DuplicateAddress;
        }
      }
      assert servers[|servers|..] == [];
      servers := servers + [Member(id, address, role)];
      e := Ok;
    }

    method Remove(id: nat) returns (e: Error)
      requires live
      modifies this`servers
      ensures e == if HasId(old(servers), id) then Ok else BadId
      ensures e != Ok ==> servers == old(servers)
      ensures e == Ok ==> exists i :: 0 <= i < |old(servers)| && old(servers)[i].id == id && servers == Without(old(servers), i)
    {
      var i := IndexOf(servers, id);
      if i == |servers| {
        return BadId;
      }
      var rest := [];
      for j := 0 to i
        invariant rest == servers[..j]
      {
        rest := rest + [servers[j]];
      }
      for j := i + 1 to |servers|
        invariant rest == servers[..i] + servers[i + 1..j]
      {
        rest := rest + [servers[j]];
      }
      assert rest == Without(servers, i);
      servers := rest;
      e := Ok;
    }
  }

  /** Copying a configuration one server at a time gives the same configuration. */
  method Copy(c: Members) returns (copy: Servers)
    requires Distinct(c)
    ensures fresh(copy) && copy.live && copy.servers == c
  {
    copy := new Servers([]);
    for i := 0 to |c|
      invariant fresh(copy) && copy.live && copy.servers == c[..i]
    {
      AddErrorOk(c[..i], c[i].id, c[i].address);
      var e := copy.Add(c[i].id, c[i].address, c[i].role);
      assert e == Ok;
    }
  }
}
