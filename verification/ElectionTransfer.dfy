/** A run in which a leadership transfer gives a term two leaders.
  *
  * Server 1 is leader and starts a transfer to server 3. It learns of the term that server 3
  * stands in before the vote request arrives, steps down, and votes for server 2, which
  * stands in the same term. The transfer is still open, so the request of server 3 is
  * granted too.
  */
module ElectionTransfer {
  import opened Configuration
  import opened ElectionSpec
  import opened Election

  function Cfg(): Members {
    [Member(1, "1", Voter), Member(2, "2", Voter), Member(3, "3", Voter)]
  }

  lemma CfgVoters()
    ensures VoterIds(Cfg()) == [1, 2, 3] && Voters(Cfg()) == {1, 2, 3}
  {
    var c := Cfg();
    assert c[..2] == [c[0], c[1]] && c[..2][..1] == [c[0]] && c[..2][..1][..0] == [];
    assert VoterIds(c[..2][..1]) == [1];
    assert VoterIds(c[..2]) == [1, 2];
    assert c[0].role == Voter && c[1].role == Voter && c[2].role == Voter;
  }

  /** Every log holds the first configuration entry; votes are not asked for in advance. */
  function At(id: nat, term: nat, vote: nat, status: Status, votes: seq<bool>, disrupt: bool, leader: nat, transfer: nat): Server {
    Server(id, term, vote, status, votes, false, disrupt, leader, transfer, term, vote, false, Position(1, 1, 1, 1, false, false))
  }

  function Begins(): Cluster {
    Cluster(Cfg(), map[1 := At(1, 1, 0, Unavailable, [], false, 0, 0), 2 := At(2, 1, 0, Unavailable, [], false, 0, 0),
                       3 := At(3, 1, 0, Unavailable, [], false, 0, 0)], {}, {}, {})
  }

  ghost predicate Reaches(c: Cluster, c': Cluster) {
    exists steps :: Runs(c, steps) && Run(c, steps) == c'
  }

  lemma Next(c0: Cluster, c: Cluster, step: Step)
    requires Reaches(c0, c) && Enabled(c, step)
    ensures Reaches(c0, Apply(c, step))
  {
    var steps :| Runs(c0, steps) && Run(c0, steps) == c;
    var more := steps + [step];
    assert more[..|more| - 1] == steps;
    assert Runs(c0, more) && Run(c0, more) == Apply(c, step);
  }

  /** The three servers, in a state reached from the beginning. */
  ghost predicate Servers(c: Cluster, s1: Server, s2: Server, s3: Server) {
    c.cfg == Cfg() && c.servers == map[1 := s1, 2 := s2, 3 := s3] && Reaches(Begins(), c)
  }

  function Ask(i: nat, j: nat, term: nat, disrupt: bool): Msg {
    RequestVote(i, j, term, 1, 1, disrupt, false)
  }

  lemma Delivers(c: Cluster, m: Msg, s: Server, msgs: set<Msg>) returns (c': Cluster)
    requires Reaches(Begins(), c) && m in c.net && Up(c, m.dst) && Receive(c.servers[m.dst], c.cfg, m) == (s, msgs)
    ensures c' == Update(c, m.dst, s, msgs) && Reaches(Begins(), c')
  {
    hide Reaches;
    hide Receive;
    c' := Apply(c, Deliver(m, false));
    Next(Begins(), c, Deliver(m, false));
  }

  lemma Stands(c: Cluster, i: nat, s: Server) returns (c': Cluster)
    requires Reaches(Begins(), c) && c.cfg == Cfg() && i in c.servers && c.servers[i].status == Follower && i in {1, 2, 3}
    requires c.servers[i] == At(i, c.servers[i].term, c.servers[i].vote, Follower, [], false, 0, 0)
    requires s == At(i, c.servers[i].term + 1, i, Candidate, [i == 1, i == 2, i == 3], false, 0, 0)
    ensures c' == Update(c, i, s, Requests(s, c.cfg)) && Reaches(Begins(), c')
    ensures forall j :: j in {1, 2, 3} && j != i ==> Ask(i, j, s.term, false) in c'.net
  {
    hide Reaches;
    CfgVoters();
    assert Stand(c.servers[i], c.cfg, false) == s;
    var step := Timeout(i, false);
    c' := Apply(c, step);
    Next(Begins(), c, step);
  }

  lemma StartsOne(c: Cluster, i: nat) returns (c': Cluster)
    requires Reaches(Begins(), c) && c.cfg == Cfg() && i in c.servers
    requires c.servers[i] == At(i, 1, 0, Unavailable, [], false, 0, 0)
    ensures Reaches(Begins(), c') && c' == Update(c, i, At(i, 1, 0, Follower, [], false, 0, 0), {})
  {
    hide Reaches;
    CfgVoters();
    hide VoterIds;
    hide Voters;
    Next(Begins(), c, Start(i));
    c' := Apply(c, Start(i));
  }

  lemma Reached(c: Cluster)
    ensures Reaches(c, c)
  {
    assert Runs(c, []) && Run(c, []) == c;
  }

  lemma Starts() returns (c: Cluster)
    ensures Servers(c, At(1, 1, 0, Follower, [], false, 0, 0), At(2, 1, 0, Follower, [], false, 0, 0), At(3, 1, 0, Follower, [], false, 0, 0))
  {
    hide Reaches;
    c := Begins();
    Reached(c);
    c := StartsOne(c, 1);
    c := StartsOne(c, 2);
    c := StartsOne(c, 3);
  }

  /** Server 1 becomes leader with the vote of server 2. */
  lemma FirstLeader() returns (c: Cluster)
    ensures Servers(c, At(1, 2, 1, Leader, [], false, 0, 0), At(2, 2, 1, Follower, [], false, 0, 0), At(3, 1, 0, Follower, [], false, 0, 0))
  {
    hide Reaches;
    c := Starts();
    c := Stands(c, 1, At(1, 2, 1, Candidate, [true, false, false], false, 0, 0));
    CfgVoters();
    hide VoterIds;
    hide Voters;
    var reply := VoteResult(2, 1, 2, true, false);
    c := Delivers(c, Ask(1, 2, 2, false), At(2, 2, 1, Follower, [], false, 0, 0), {reply});
    c := WinsRound(c, 1, reply, At(1, 2, 1, Leader, [], false, 0, 0));
  }

  /** A candidate with its own vote and one more wins. */
  lemma WinsRound(c: Cluster, i: nat, m: Msg, s: Server) returns (c': Cluster)
    requires Reaches(Begins(), c) && c.cfg == Cfg() && i in c.servers && i in {1, 2, 3} && m in c.net
    requires m == VoteResult(m.src, i, s.term, true, false) && m.src in {1, 2, 3} && m.src != i
    requires s == At(i, s.term, i, Leader, [], s.disrupt, 0, 0)
    requires c.servers[i] == At(i, s.term, i, Candidate, [i == 1, i == 2, i == 3], s.disrupt, 0, 0)
    ensures c' == Update(c, i, s, {}) && Reaches(Begins(), c')
  {
    hide Reaches;
    CfgVoters();
    hide VoterIds;
    hide Voters;
    var o := c.servers[i];
    var p := VoterPlace(c.cfg, m.src);
    assert p == m.src - 1;
    var votes := o.votes[p := true];
    assert Tally(votes) == 2 by {
      assert votes[..2][..1][..0] == [];
      assert Tally(votes[..2][..1]) == if votes[0] then 1 else 0;
      assert Tally(votes[..2]) == Tally(votes[..2][..1]) + if votes[1] then 1 else 0;
    }
    assert Wins(Counted(o, c.cfg, m), c.cfg);
    assert Receive(o, c.cfg, m) == (s, {});
    c' := Delivers(c, m, s, {});
  }

  /** Server 3 stands for the transfer, and server 1 learns of its term. */
  lemma Transferred() returns (c: Cluster)
    ensures Servers(c, At(1, 3, 0, Follower, [], false, 0, 3), At(2, 2, 1, Follower, [], false, 0, 0),
                    At(3, 3, 3, Candidate, [false, false, true], true, 0, 0))
    ensures Ask(3, 1, 3, true) in c.net
  {
    hide Reaches;
    c := FirstLeader();
    CfgVoters();
    hide VoterIds;
    hide Voters;
    Next(Begins(), c, SendEntries(1, 3));
    c := Apply(c, SendEntries(1, 3));
    c := Delivers(c, AppendEntries(1, 3, 2), At(3, 2, 0, Follower, [], false, 1, 0), {});
    c := TransferBegun(c);
    c := Delivers(c, AppendResult(3, 1, 3), At(1, 3, 0, Follower, [], false, 0, 3), {});
  }

  lemma TransferBegun(c0: Cluster) returns (c: Cluster)
    requires Servers(c0, At(1, 2, 1, Leader, [], false, 0, 0), At(2, 2, 1, Follower, [], false, 0, 0), At(3, 2, 0, Follower, [], false, 1, 0))
    ensures Servers(c, At(1, 2, 1, Leader, [], false, 0, 3), At(2, 2, 1, Follower, [], false, 0, 0),
                    At(3, 3, 3, Candidate, [false, false, true], true, 0, 0))
    ensures Ask(3, 1, 3, true) in c.net && AppendResult(3, 1, 3) in c.net
  {
    hide Reaches;
    CfgVoters();
    hide VoterIds;
    hide Voters;
    c := c0;
    Next(Begins(), c, BeginTransfer(1, 3));
    c := Apply(c, BeginTransfer(1, 3));
    Next(Begins(), c, SendTimeoutNow(1));
    c := Apply(c, SendTimeoutNow(1));
    c := TransferTaken(c);
  }

  lemma TransferTaken(c0: Cluster) returns (c: Cluster)
    requires Servers(c0, At(1, 2, 1, Leader, [], false, 0, 3), At(2, 2, 1, Follower, [], false, 0, 0), At(3, 2, 0, Follower, [], false, 1, 0))
    requires TimeoutNow(1, 3, 2, 1, 1) in c0.net
    ensures Servers(c, At(1, 2, 1, Leader, [], false, 0, 3), At(2, 2, 1, Follower, [], false, 0, 0),
                    At(3, 3, 3, Candidate, [false, false, true], true, 0, 0))
    ensures Ask(3, 1, 3, true) in c.net && AppendResult(3, 1, 3) in c.net
  {
    hide Reaches;
    CfgVoters();
    hide VoterIds;
    hide Voters;
    c := c0;
    var s3 := At(3, 3, 3, Candidate, [false, false, true], true, 0, 0);
    assert Stand(c.servers[3], c.cfg, true) == s3;
    c := Delivers(c, TimeoutNow(1, 3, 2, 1, 1), s3, Requests(s3, c.cfg));
    Next(Begins(), c, SendResult(3, 1));
    c := Apply(c, SendResult(3, 1));
  }

  /** Server 2 becomes leader in term 3 with the vote of server 1. */
  lemma SecondLeader() returns (c: Cluster)
    ensures Servers(c, At(1, 3, 2, Follower, [], false, 0, 3), At(2, 3, 2, Leader, [], false, 0, 0),
                    At(3, 3, 3, Candidate, [false, false, true], true, 0, 0))
    ensures Ask(3, 1, 3, true) in c.net && (2, 3) in c.leaders
  {
    hide Reaches;
    c := Transferred();
    var s2 := At(2, 3, 2, Candidate, [false, true, false], false, 0, 0);
    c := Stands(c, 2, s2);
    CfgVoters();
    hide VoterIds;
    hide Voters;
    var reply := VoteResult(1, 2, 3, true, false);
    c := Delivers(c, Ask(2, 1, 3, false), At(1, 3, 2, Follower, [], false, 0, 3), {reply});
    c := WinsRound(c, 2, reply, At(2, 3, 2, Leader, [], false, 0, 0));
  }

  /** Two servers become leader in term 3. */
  lemma TwoLeaders() returns (c: Cluster)
    ensures Initial(Begins()) && Reaches(Begins(), c) && (2, 3) in c.leaders && (3, 3) in c.leaders
  {
    hide Reaches;
    c := SecondLeader();
    CfgVoters();
    hide VoterIds;
    hide Voters;
    var reply := VoteResult(1, 3, 3, true, false);
    c := Delivers(c, Ask(3, 1, 3, true), At(1, 3, 3, Follower, [], false, 0, 3), {reply});
    c := WinsRound(c, 3, reply, At(3, 3, 3, Leader, [], true, 0, 0));
  }
}
