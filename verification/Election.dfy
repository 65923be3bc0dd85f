/** Election safety: in every run of any number of servers with a fixed configuration, two
  * servers that are leader in the same term are the same server.
  *
  * Messages may be lost, repeated, delayed and reordered; servers may crash at any point,
  * also between storing a term or vote and sending what follows from it, and start again
  * from what they stored.
  */
module Election {
  import opened Quorum
  import opened Configuration
  import opened ElectionSpec

  datatype Grant = Grant(voter: nat, term: nat, candidate: nat)

  /** The servers, every message ever sent, every vote ever stored, and every server that
    * ever was leader, with its term. */
  datatype Cluster = Cluster(
    cfg: Members, servers: map<nat, Server>, net: set<Msg>, grants: set<Grant>, leaders: set<(nat, nat)>)

  datatype Step =
    | Deliver(m: Msg, crash: bool)
    | Timeout(i: nat, crash: bool)
    | Retry(i: nat, crash: bool)
    | StepDown(i: nat)
    | CrashInNewTerm(i: nat, term: nat)
    | Crash(i: nat)
    | Start(i: nat)
    | LogMove(i: nat, log: Position)
    | SendEntries(i: nat, dst: nat)
    | SendResult(i: nat, dst: nat)
    | BeginTransfer(i: nat, target: nat)
    | SendTimeoutNow(i: nat)
    | EndTransfer(i: nat)

  predicate Up(c: Cluster, i: nat) {
    i in c.servers && c.servers[i].status != Unavailable
  }

  predicate Enabled(c: Cluster, step: Step) {
    match step
    case Deliver(m, _) => m in c.net && Up(c, m.dst)
    case Timeout(i, _) =>
      && Up(c, i) && c.servers[i].status == Follower && i in Voters(c.cfg)
      && !c.servers[i].log.busy && !c.servers[i].log.appending
    case Retry(i, _) => Up(c, i) && c.servers[i].status == Candidate
    case StepDown(i) => Up(c, i) && c.servers[i].status == Leader
    case CrashInNewTerm(i, term) => Up(c, i) && term > c.servers[i].term
    case Crash(i) => Up(c, i)
    case Start(i) => i in c.servers && c.servers[i].status == Unavailable
    case LogMove(i, _) => i in c.servers
    case SendEntries(i, dst) => Up(c, i) && c.servers[i].status == Leader && dst != i
    case SendResult(i, dst) => Up(c, i)
    case BeginTransfer(i, target) =>
      && Up(c, i) && c.servers[i].status == Leader && c.servers[i].transfer == 0
      && target in Voters(c.cfg) && target != i
    case SendTimeoutNow(i) => Up(c, i) && c.servers[i].status == Leader && c.servers[i].transfer != 0
    case EndTransfer(i) => Up(c, i)
  }

  /** The server that makes a step, its new state, and the messages it sends. */
  function Outcome(c: Cluster, step: Step): (nat, Server, set<Msg>)
    requires Enabled(c, step)
  {
    match step
    case Deliver(m, crash) => Crashed(m.dst, Receive(c.servers[m.dst], c.cfg, m), crash)
    case Timeout(i, crash) =>
      var s := Stand(c.servers[i], c.cfg, false);
      Crashed(i, (s, Requests(s, c.cfg)), crash)
    case Retry(i, crash) =>
      var s := Begin(c.servers[i], c.cfg);
      Crashed(i, (s, Requests(s, c.cfg)), crash)
    case StepDown(i) => (i, Follow(c.servers[i]), {})
    case CrashInNewTerm(i, term) =>
      (i, c.servers[i].(status := Unavailable, diskTerm := term, diskVote := 0), {})
    case Crash(i) => (i, c.servers[i].(status := Unavailable), {})
    case Start(i) => (i, Restart(c.servers[i], c.cfg), {})
    case LogMove(i, log) => (i, c.servers[i].(log := log), {})
    case SendEntries(i, dst) => (i, c.servers[i], {AppendEntries(i, dst, c.servers[i].term)})
    case SendResult(i, dst) => (i, c.servers[i], {AppendResult(i, dst, c.servers[i].term)})
    case BeginTransfer(i, target) => (i, c.servers[i].(transfer := target), {})
    case SendTimeoutNow(i) =>
      var s := c.servers[i];
      (i, s, {TimeoutNow(i, s.transfer, s.term, s.log.lastIndex, s.log.lastTerm)})
    case EndTransfer(i) => (i, c.servers[i].(transfer := 0), {})
  }

  /** A crash after the disk was written loses the messages and what is in memory. */
  function Crashed(i: nat, r: (Server, set<Msg>), crash: bool): (nat, Server, set<Msg>) {
    if crash then (i, r.0.(status := Unavailable), {}) else (i, r.0, r.1)
  }

  function Update(c: Cluster, i: nat, s: Server, msgs: set<Msg>): Cluster {
    c.(servers := c.servers[i := s],
       net := c.net + msgs,
       grants := if s.diskVote != 0 then c.grants + {Grant(i, s.diskTerm, s.diskVote)} else c.grants,
       leaders := if s.status == Leader then c.leaders + {(i, s.term)} else c.leaders)
  }

  function Apply(c: Cluster, step: Step): Cluster
    requires Enabled(c, step)
  {
    var (i, s, msgs) := Outcome(c, step);
    Update(c, i, s, msgs)
  }

  // The invariant.

  ghost predicate ServersSane(c: Cluster) {
    forall i {:trigger c.servers[i]} :: i in c.servers ==> c.servers[i].id == i && Sane(c.servers[i], c.cfg)
  }

  /** Every vote was stored by its voter, and is the only one of its term. */
  ghost predicate VotesStored(c: Cluster) {
    && (forall g {:trigger g in c.grants} :: g in c.grants ==>
          && g.candidate != 0 && g.voter in c.servers && g.term <= c.servers[g.voter].diskTerm
          && (g.term == c.servers[g.voter].diskTerm ==> g.candidate == c.servers[g.voter].diskVote))
    && (forall g, h {:trigger g in c.grants, h in c.grants} ::
          g in c.grants && h in c.grants && g.voter == h.voter && g.term == h.term ==> g == h)
    && (forall i {:trigger c.servers[i]} :: i in c.servers && c.servers[i].diskVote != 0 ==>
          Grant(i, c.servers[i].diskTerm, c.servers[i].diskVote) in c.grants)
  }

  /** The votes a candidate counted were given to it in this term. */
  ghost predicate CountedVotes(c: Cluster, s: Server) {
    s.status == Candidate && !s.preVoting ==>
      forall k :: 0 <= k < |s.votes| && k < |VoterIds(c.cfg)| && s.votes[k] ==> Grant(VoterIds(c.cfg)[k], s.term, s.id) in c.grants
  }

  ghost predicate VotesCounted(c: Cluster) {
    forall i {:trigger c.servers[i]} :: i in c.servers ==> CountedVotes(c, c.servers[i])
  }

  /** What messages say is so. */
  ghost predicate Truthful(c: Cluster, m: Msg) {
    && m.src in c.servers
    && (m.VoteResult? && m.granted && !m.preVote ==> Grant(m.src, m.term, m.dst) in c.grants)
    && (m.AppendEntries? ==> (m.src, m.term) in c.leaders && m.src != m.dst)
  }

  ghost predicate NetTruthful(c: Cluster) {
    forall m {:trigger m in c.net} :: m in c.net ==> Truthful(c, m)
  }

  ghost predicate Elected(c: Cluster, l: nat, term: nat) {
    if |VoterIds(c.cfg)| == 1 then l in Voters(c.cfg)
    else exists q: set<nat> :: Majority(q, Voters(c.cfg)) && VotedFor(c, q, term, l)
  }

  ghost predicate VotedFor(c: Cluster, q: set<nat>, term: nat, l: nat) {
    forall v :: v in q ==> Grant(v, term, l) in c.grants
  }

  ghost predicate LeadersElected(c: Cluster) {
    forall l, t {:trigger (l, t) in c.leaders} :: (l, t) in c.leaders ==> Elected(c, l, t)
  }

  ghost predicate LeadersRecorded(c: Cluster) {
    forall i {:trigger c.servers[i]} :: i in c.servers && c.servers[i].status == Leader ==> (i, c.servers[i].term) in c.leaders
  }

  ghost predicate Inv(c: Cluster) {
    && Distinct(c.cfg) && 0 !in c.servers
    && ServersSane(c) && VotesStored(c) && VotesCounted(c) && NetTruthful(c) && LeadersElected(c) && LeadersRecorded(c)
  }

  // Updates.

  /** What a step of server i must satisfy, apart from counting votes and winning. */
  ghost predicate Sound(c: Cluster, i: nat, s: Server, msgs: set<Msg>) {
    && i in c.servers && s.id == i && Sane(s, c.cfg) && Honest(c.servers[i], s)
    && (forall m :: m in msgs ==> m.src == i)
    && (forall m :: m in msgs && m.VoteResult? && m.granted && !m.preVote ==>
          s.diskTerm == m.term && s.diskVote == m.dst && m.dst != 0)
    && (forall m :: m in msgs && m.AppendEntries? ==> s.status == Leader && m.term == s.term && m.dst != i)
  }

  lemma UpdateVotes(c: Cluster, i: nat, s: Server, msgs: set<Msg>)
    requires Inv(c) && Sound(c, i, s, msgs)
    ensures VotesStored(Update(c, i, s, msgs)) && ServersSane(Update(c, i, s, msgs))
  {
    hide Truthful;
    hide Elected;
    hide CountedVotes;
    hide Sane;
    var c' := Update(c, i, s, msgs);
    assert c.servers[i].id == i;
  }

  lemma UpdateNet(c: Cluster, i: nat, s: Server, msgs: set<Msg>)
    requires Inv(c) && Sound(c, i, s, msgs)
    ensures NetTruthful(Update(c, i, s, msgs))
  {
    hide Elected;
    hide CountedVotes;
    hide Sane;
    hide VotesStored;
    var c' := Update(c, i, s, msgs);
    forall m | m in c'.net ensures Truthful(c', m) {
      if m in c.net {
        assert Truthful(c, m);
      }
    }
  }

  lemma ElectedStays(c: Cluster, c': Cluster, l: nat, t: nat)
    requires Elected(c, l, t) && c'.cfg == c.cfg && c.grants <= c'.grants
    ensures Elected(c', l, t)
  {
    if |VoterIds(c.cfg)| != 1 {
      var q: set<nat> :| Majority(q, Voters(c.cfg)) && VotedFor(c, q, t, l);
      assert VotedFor(c', q, t, l);
    }
  }

  lemma UpdateLeaders(c: Cluster, i: nat, s: Server, msgs: set<Msg>)
    requires Inv(c) && Sound(c, i, s, msgs)
    requires s.status == Leader ==> Elected(Update(c, i, s, msgs), i, s.term)
    ensures LeadersElected(Update(c, i, s, msgs)) && LeadersRecorded(Update(c, i, s, msgs))
  {
    hide Elected;
    hide CountedVotes;
    hide Sane;
    hide VotesStored;
    hide Truthful;
    var c' := Update(c, i, s, msgs);
    forall l, t | (l, t) in c'.leaders ensures Elected(c', l, t) {
      if (l, t) in c.leaders {
        ElectedStays(c, c', l, t);
      }
    }
  }

  lemma UpdateCounted(c: Cluster, i: nat, s: Server, msgs: set<Msg>)
    requires Inv(c) && Sound(c, i, s, msgs) && CountedVotes(Update(c, i, s, msgs), s)
    ensures VotesCounted(Update(c, i, s, msgs))
  {
    hide Elected;
    hide Sane;
    hide VotesStored;
    hide Truthful;
    hide VoterIds;
    var c' := Update(c, i, s, msgs);
    forall j | j in c'.servers ensures CountedVotes(c', c'.servers[j]) {
      if j != i {
        assert CountedVotes(c, c.servers[j]);
      }
    }
  }

  lemma UpdateKeeps(c: Cluster, i: nat, s: Server, msgs: set<Msg>)
    requires Inv(c) && Sound(c, i, s, msgs) && CountedVotes(Update(c, i, s, msgs), s)
    requires s.status == Leader ==> Elected(Update(c, i, s, msgs), i, s.term)
    ensures Inv(Update(c, i, s, msgs))
  {
    UpdateVotes(c, i, s, msgs);
    UpdateNet(c, i, s, msgs);
    UpdateLeaders(c, i, s, msgs);
    UpdateCounted(c, i, s, msgs);
    hide Sound;
    hide ServersSane;
    hide VotesStored;
    hide VotesCounted;
    hide NetTruthful;
    hide LeadersElected;
    hide LeadersRecorded;
    assert c.servers[i] == c.servers[i];
  }

  // Winning.

  ghost function Chosen(ids: seq<nat>, votes: seq<bool>, n: nat): set<nat>
    requires n <= |votes| == |ids|
  {
    set k | 0 <= k < n && votes[k] :: ids[k]
  }

  lemma {:induction false} TallySize(ids: seq<nat>, votes: seq<bool>, n: nat)
    requires n <= |votes| == |ids| && forall i, j :: 0 <= i < j < |ids| ==> ids[i] != ids[j]
    ensures |Chosen(ids, votes, n)| == Tally(votes[..n])
  {
    if n != 0 {
      TallySize(ids, votes, n - 1);
      assert votes[..n][..n - 1] == votes[..n - 1];
      var a := Chosen(ids, votes, n - 1);
      assert Chosen(ids, votes, n) == a + if votes[n - 1] then {ids[n - 1]} else {};
      assert ids[n - 1] !in a;
    }
  }

  /** A candidate whose counted votes are a majority was elected. */
  lemma WinnerElected(c: Cluster, s: Server)
    requires Distinct(c.cfg) && s.status == Candidate && !s.preVoting
    requires |s.votes| == |VoterIds(c.cfg)| > 1 && CountedVotes(c, s) && Wins(s, c.cfg)
    ensures Elected(c, s.id, s.term)
  {
    var ids := VoterIds(c.cfg);
    VoterIdsAre(c.cfg);
    var n := |s.votes|;
    var q := Chosen(ids, s.votes, n);
    TallySize(ids, s.votes, n);
    assert s.votes[..n] == s.votes;
    assert q <= Voters(c.cfg);
    assert Majority(q, Voters(c.cfg));
    assert VotedFor(c, q, s.term, s.id);
  }

  // Steps.

  /** Starting a round counts the server's own vote, which it has stored. */
  lemma BeginCounted(c: Cluster, s: Server, msgs: set<Msg>)
    requires s.status == Candidate && s.id in c.servers && s.id != 0
    ensures var s' := Begin(s, c.cfg); CountedVotes(Update(c, s.id, s', msgs), s')
  {
  }

  lemma StandCounted(c: Cluster, s: Server, disrupt: bool, msgs: set<Msg>)
    requires s.id in c.servers && s.id != 0 && s.id in Voters(c.cfg)
    ensures var s' := Stand(s, c.cfg, disrupt);
            && CountedVotes(Update(c, s.id, s', msgs), s')
            && (s'.status == Leader ==> Elected(Update(c, s.id, s', msgs), s.id, s'.term))
  {
    var s1 := s.(status := Candidate, leader := 0, disrupt := disrupt, preVoting := !disrupt && s.preVote);
    BeginCounted(c, s1, msgs);
  }

  /** A candidate that stays in its round keeps the votes it counted. */
  lemma StaysCounted(c: Cluster, i: nat, s: Server, msgs: set<Msg>)
    requires i in c.servers && CountedVotes(c, c.servers[i]) && s.id == c.servers[i].id
    requires s.status == Candidate && !s.preVoting ==>
               c.servers[i].status == Candidate && !c.servers[i].preVoting && s.votes == c.servers[i].votes && s.term == c.servers[i].term
    ensures CountedVotes(Update(c, i, s, msgs), s)
  {
  }

  /** The delivered message leads to a state that is accounted for. */
  ghost predicate Accounted(c: Cluster, i: nat, s: Server, msgs: set<Msg>) {
    && Sound(c, i, s, msgs) && CountedVotes(Update(c, i, s, msgs), s)
    && (s.status == Leader ==> Elected(Update(c, i, s, msgs), i, s.term))
  }

  /** Facts about the server a message is delivered to. */
  lemma Receiver(c: Cluster, m: Msg)
    requires Inv(c) && m in c.net && Up(c, m.dst)
    ensures var s := c.servers[m.dst];
            && Distinct(c.cfg) && s.id == m.dst && Sane(s, c.cfg) && CountedVotes(c, s) && m.src != 0 && Truthful(c, m) && m.dst != 0
            && (s.status == Leader ==> (m.dst, s.term) in c.leaders && Elected(c, m.dst, s.term))
  {
    hide Truthful;
    hide VotesStored;
    hide Elected;
    hide Sane;
    hide CountedVotes;
    assert Truthful(c, m);
    SourceKnown(c, m);
    var s := c.servers[m.dst];
    if s.status == Leader {
      assert (m.dst, s.term) in c.leaders;
    }
  }

  lemma SourceKnown(c: Cluster, m: Msg)
    requires Truthful(c, m) && 0 !in c.servers
    ensures m.src != 0
  {
  }

  lemma LeaderStays(c: Cluster, i: nat, s: Server, msgs: set<Msg>)
    requires Elected(c, i, s.term)
    ensures Elected(Update(c, i, s, msgs), i, s.term)
  {
    ElectedStays(c, Update(c, i, s, msgs), i, s.term);
  }

  /** The reply tells of a vote that is stored. */
  lemma RequestVoteReply(s: Server, cfg: Members, m: Msg, x: Msg)
    requires m.RequestVote? && Sane(s, cfg) && s.status != Unavailable && m.src != 0 && x in OnRequestVote(s, cfg, m).1
    ensures x.VoteResult? && x.src == s.id
    ensures var s' := OnRequestVote(s, cfg, m).0;
            x.granted && !x.preVote ==> s'.diskTerm == x.term && s'.diskVote == x.dst && x.dst != 0
  {
    hide Voters;
    hide VoterIds;
    hide Grants;
    hide HasLeader;
    var s' := if m.preVote then s else EnsureTerm(s, m.term);
    if (HasLeader(s) && !m.disrupt) || s'.log.busy || m.term < s.term {
      assert !x.granted;
    } else {
      assert x == Reply(s', m, Grants(s', cfg, m));
    }
  }

  lemma RequestVoteCases(s: Server, cfg: Members, m: Msg)
    requires m.RequestVote?
    ensures var s' := Receive(s, cfg, m).0;
            && s'.id == s.id
            && (s'.status == Follower || (s'.votes == s.votes && s'.term == s.term && s'.status == s.status && s'.preVoting == s.preVoting))
  {
    hide Voters;
    hide VoterIds;
    hide Grants;
    hide HasLeader;
    hide OnVoteResult;
    hide OnTimeoutNow;
    hide OnAppendEntries;
    hide OnAppendResult;
  }

  lemma RequestVoteStep(c: Cluster, m: Msg)
    requires Inv(c) && m in c.net && Up(c, m.dst) && m.RequestVote? && !VotesTwice(c.servers[m.dst], c.cfg, m)
    ensures var (s, msgs) := Receive(c.servers[m.dst], c.cfg, m);
            Accounted(c, m.dst, s, msgs)
  {
    hide Inv;
    hide Elected;
    hide CountedVotes;
    hide Voters;
    hide VoterIds;
    hide OnRequestVote;
    hide VotesTwice;
    hide Honest;
    hide Truthful;
    hide Sane;
    Receiver(c, m);
    var o := c.servers[m.dst];
    var (s, msgs) := Receive(o, c.cfg, m);
    ReceiveHonest(o, c.cfg, m);
    RequestVoteCases(o, c.cfg, m);
    forall x | x in msgs
      ensures x.VoteResult? && x.src == m.dst
      ensures x.granted && !x.preVote ==> s.diskTerm == x.term && s.diskVote == x.dst && x.dst != 0
    {
      RequestVoteReply(o, c.cfg, m, x);
    }
    StaysCounted(c, m.dst, s, msgs);
    if s.status == Leader {
      LeaderStays(c, m.dst, s, msgs);
    }
  }

  lemma OtherMessageStep(c: Cluster, m: Msg)
    requires Inv(c) && m in c.net && Up(c, m.dst) && (m.AppendEntries? || m.AppendResult?)
    ensures var (s, msgs) := Receive(c.servers[m.dst], c.cfg, m);
            Accounted(c, m.dst, s, msgs)
  {
    hide Inv;
    hide Elected;
    hide CountedVotes;
    hide Voters;
    hide VoterIds;
    Receiver(c, m);
    var o := c.servers[m.dst];
    var (s, msgs) := Receive(o, c.cfg, m);
    ReceiveHonest(o, c.cfg, m);
    StaysCounted(c, m.dst, s, msgs);
    if s.status == Leader {
      LeaderStays(c, m.dst, s, msgs);
    }
  }

  lemma TimeoutNowStep(c: Cluster, m: Msg)
    requires Inv(c) && m in c.net && Up(c, m.dst) && m.TimeoutNow?
    ensures var (s, msgs) := Receive(c.servers[m.dst], c.cfg, m);
            Accounted(c, m.dst, s, msgs)
  {
    hide Inv;
    hide Elected;
    hide CountedVotes;
    hide Voters;
    hide VoterIds;
    hide Stand;
    Receiver(c, m);
    var o := c.servers[m.dst];
    var (s, msgs) := Receive(o, c.cfg, m);
    ReceiveHonest(o, c.cfg, m);
    var o' := EnsureTerm(o, m.term);
    if o.status == Follower && o.id in Voters(c.cfg) && s == Stand(o', c.cfg, true) {
      StandCounted(c, o', true, msgs);
    } else {
      TimeoutNowCases(o, c.cfg, m);
      StaysCounted(c, m.dst, s, msgs);
      if s.status == Leader {
        LeaderStays(c, m.dst, s, msgs);
      }
    }
  }

  lemma TimeoutNowCases(s: Server, cfg: Members, m: Msg)
    requires m.TimeoutNow?
    ensures var (s', msgs) := Receive(s, cfg, m);
            && (forall x :: x in msgs ==> x.RequestVote? && x.src == s.id)
            && s'.id == s.id
            && (|| (s'.votes == s.votes && s'.term == s.term && s'.status == s.status && s'.preVoting == s.preVoting)
                || s'.status == Follower
                || (s.status == Follower && s.id in Voters(cfg) && s' == Stand(EnsureTerm(s, m.term), cfg, true)))
  {
    hide OnRequestVote;
    hide OnVoteResult;
    hide OnAppendEntries;
    hide OnAppendResult;
  }

  /** A candidate that counts a result counts a vote that was given to it. */
  lemma CountedIsGranted(c: Cluster, m: Msg)
    requires m.VoteResult? && m.dst in c.servers && c.servers[m.dst].id == m.dst && Distinct(c.cfg)
    requires Truthful(c, m) && CountedVotes(c, c.servers[m.dst]) && Counts(c.servers[m.dst], c.cfg, m)
    ensures CountedVotes(c, Counted(c.servers[m.dst], c.cfg, m))
  {
    hide VoterIds;
  }

  lemma VoteResultStep(c: Cluster, m: Msg)
    requires Inv(c) && m in c.net && Up(c, m.dst) && m.VoteResult?
    ensures var (s, msgs) := Receive(c.servers[m.dst], c.cfg, m);
            Accounted(c, m.dst, s, msgs)
  {
    hide Inv;
    hide Elected;
    hide CountedVotes;
    hide Voters;
    hide VoterIds;
    hide Begin;
    hide Wins;
    hide Receive;
    Receiver(c, m);
    var o := c.servers[m.dst];
    var (s, msgs) := Receive(o, c.cfg, m);
    ReceiveHonest(o, c.cfg, m);
    VoteResultCases(o, c.cfg, m);
    if s.status == Candidate && Counts(o, c.cfg, m) {
      VoteResultCounted(c, m);
    } else if s.status == Leader && Counts(o, c.cfg, m) {
      VoteResultWins(c, m);
    } else {
      StaysCounted(c, m.dst, s, msgs);
      if s.status == Leader {
        LeaderStays(c, m.dst, s, msgs);
      }
    }
  }

  lemma VoteResultCounted(c: Cluster, m: Msg)
    requires m.VoteResult? && m.dst in c.servers && c.servers[m.dst].id == m.dst != 0 && Distinct(c.cfg)
    requires Truthful(c, m) && CountedVotes(c, c.servers[m.dst]) && Counts(c.servers[m.dst], c.cfg, m)
    ensures var (s, msgs) := Receive(c.servers[m.dst], c.cfg, m);
            s.status == Candidate ==> CountedVotes(Update(c, m.dst, s, msgs), s)
  {
    hide CountedVotes;
    hide Voters;
    hide VoterIds;
    hide Begin;
    hide Wins;
    var o := c.servers[m.dst];
    var (s, msgs) := Receive(o, c.cfg, m);
    var o' := Counted(o, c.cfg, m);
    CountedIsGranted(c, m);
    if o.preVoting && Wins(o', c.cfg) {
      BeginCounted(c, o'.(preVoting := false), msgs);
    } else if s.status == Candidate {
      CountedStays(c, Update(c, m.dst, s, msgs), o');
    }
  }

  lemma CountedStays(c: Cluster, c': Cluster, s: Server)
    requires CountedVotes(c, s) && c.cfg == c'.cfg && c.grants <= c'.grants
    ensures CountedVotes(c', s)
  {
  }

  lemma VoteResultWins(c: Cluster, m: Msg)
    requires m.VoteResult? && m.dst in c.servers && c.servers[m.dst].id == m.dst != 0 && Distinct(c.cfg)
    requires Truthful(c, m) && CountedVotes(c, c.servers[m.dst]) && Counts(c.servers[m.dst], c.cfg, m)
    requires |VoterIds(c.cfg)| > 1
    ensures var (s, msgs) := Receive(c.servers[m.dst], c.cfg, m);
            s.status == Leader ==>
              Elected(Update(c, m.dst, s, msgs), m.dst, s.term) && CountedVotes(Update(c, m.dst, s, msgs), s)
  {
    hide CountedVotes;
    hide Elected;
    hide Voters;
    hide VoterIds;
    hide Wins;
    var o := c.servers[m.dst];
    var (s, msgs) := Receive(o, c.cfg, m);
    var o' := Counted(o, c.cfg, m);
    CountedIsGranted(c, m);
    if s.status == Leader {
      assert Wins(o', c.cfg);
      WinnerElected(c, o');
      LeaderStays(c, m.dst, s, msgs);
      NotStanding(Update(c, m.dst, s, msgs), s);
    }
  }

  lemma NotStanding(c: Cluster, s: Server)
    requires s.status != Candidate
    ensures CountedVotes(c, s)
  {
  }

  lemma VoteResultCases(s: Server, cfg: Members, m: Msg)
    requires m.VoteResult?
    ensures var (s', msgs) := Receive(s, cfg, m);
            && s'.id == s.id
            && (forall x :: x in msgs ==> x.RequestVote? && x.src == s.id)
            && (|| (s'.votes == s.votes && s'.term == s.term && s'.status == s.status && s'.preVoting == s.preVoting)
                || s'.status == Follower
                || (s.status == Candidate && Counts(s, cfg, m) && (s'.status == Candidate || s'.status == Leader)))
  {
    hide OnRequestVote;
    hide OnTimeoutNow;
    hide OnAppendEntries;
    hide OnAppendResult;
  }

  lemma DeliverStep(c: Cluster, m: Msg)
    requires Inv(c) && m in c.net && Up(c, m.dst) && !VotesTwice(c.servers[m.dst], c.cfg, m)
    ensures Accounted(c, m.dst, Receive(c.servers[m.dst], c.cfg, m).0, Receive(c.servers[m.dst], c.cfg, m).1)
  {
    hide Inv;
    hide VotesTwice;
    hide Receive;
    hide Accounted;
    match m
    case RequestVote(_, _, _, _, _, _, _) => RequestVoteStep(c, m);
    case VoteResult(_, _, _, _, _) => VoteResultStep(c, m);
    case AppendEntries(_, _, _) => OtherMessageStep(c, m);
    case AppendResult(_, _, _) => OtherMessageStep(c, m);
    case TimeoutNow(_, _, _, _, _) => TimeoutNowStep(c, m);
  }

  /** Facts about any server. */
  lemma Known(c: Cluster, i: nat)
    requires Inv(c) && i in c.servers
    ensures var s := c.servers[i];
            && Distinct(c.cfg) && s.id == i && i != 0 && Sane(s, c.cfg) && CountedVotes(c, s)
            && (s.status == Leader ==> (i, s.term) in c.leaders && Elected(c, i, s.term))
  {
    hide VotesStored;
    hide Elected;
    hide Sane;
    hide CountedVotes;
    var s := c.servers[i];
    if s.status == Leader {
      assert (i, s.term) in c.leaders;
    }
  }

  lemma CrashedStep(c: Cluster, i: nat, s: Server, msgs: set<Msg>, crash: bool)
    requires Accounted(c, i, s, msgs)
    ensures var (j, s', msgs') := Crashed(i, (s, msgs), crash);
            j == i && Accounted(c, i, s', msgs')
  {
    hide Elected;
    hide Voters;
    hide VoterIds;
  }

  lemma RoundStep(c: Cluster, i: nat, retry: bool)
    requires Inv(c) && Up(c, i)
    requires if retry then c.servers[i].status == Candidate else c.servers[i].status == Follower && i in Voters(c.cfg)
    ensures var s := if retry then Begin(c.servers[i], c.cfg) else Stand(c.servers[i], c.cfg, false);
            Accounted(c, i, s, Requests(s, c.cfg))
  {
    hide Inv;
    hide Elected;
    hide CountedVotes;
    hide Voters;
    hide VoterIds;
    Known(c, i);
    var o := c.servers[i];
    if retry {
      BeginSane(o, c.cfg);
      BeginCounted(c, o, Requests(Begin(o, c.cfg), c.cfg));
    } else {
      StandSane(o, c.cfg, false);
      StandCounted(c, o, false, Requests(Stand(o, c.cfg, false), c.cfg));
    }
  }

  lemma StartStep(c: Cluster, i: nat)
    requires Inv(c) && i in c.servers
    ensures Accounted(c, i, Restart(c.servers[i], c.cfg), {})
  {
    hide Inv;
    hide Elected;
    hide CountedVotes;
    hide Voters;
    hide VoterIds;
    hide Stand;
    Known(c, i);
    var o := c.servers[i];
    RestartSane(o, c.cfg);
    if o.id in Voters(c.cfg) && |VoterIds(c.cfg)| == 1 {
      StandCounted(c, Follow(o.(term := o.diskTerm, vote := o.diskVote, transfer := 0)), false, {});
    } else {
      NotStanding(Update(c, i, Restart(o, c.cfg), {}), Restart(o, c.cfg));
    }
  }

  /** The step does not deliver a request that makes its receiver vote twice. */
  predicate Fair(c: Cluster, step: Step)
    requires Enabled(c, step)
  {
    step.Deliver? ==> !VotesTwice(c.servers[step.m.dst], c.cfg, step.m)
  }

  lemma OwnStep(c: Cluster, step: Step)
    requires Inv(c) && Enabled(c, step) && !step.Deliver? && !step.Timeout? && !step.Retry? && !step.Start?
    ensures var (i, s, msgs) := Outcome(c, step);
            Accounted(c, i, s, msgs)
  {
    hide Inv;
    hide Elected;
    hide CountedVotes;
    hide Voters;
    hide VoterIds;
    var (i, s, msgs) := Outcome(c, step);
    Known(c, i);
    StaysCounted(c, i, s, msgs);
    if s.status == Leader {
      LeaderStays(c, i, s, msgs);
    }
  }

  lemma StepAccounted(c: Cluster, step: Step)
    requires Inv(c) && Enabled(c, step) && Fair(c, step)
    ensures var (i, s, msgs) := Outcome(c, step);
            Accounted(c, i, s, msgs)
  {
    hide Inv;
    hide Accounted;
    hide Receive;
    hide VotesTwice;
    hide Stand;
    hide Begin;
    hide Requests;
    hide Restart;
    match step
    case Deliver(m, crash) =>
      DeliverStep(c, m);
      var r := Receive(c.servers[m.dst], c.cfg, m);
      CrashedStep(c, m.dst, r.0, r.1, crash);
    case Timeout(i, crash) =>
      RoundStep(c, i, false);
      var s := Stand(c.servers[i], c.cfg, false);
      CrashedStep(c, i, s, Requests(s, c.cfg), crash);
    case Retry(i, crash) =>
      RoundStep(c, i, true);
      var s := Begin(c.servers[i], c.cfg);
      CrashedStep(c, i, s, Requests(s, c.cfg), crash);
    case Start(i) => StartStep(c, i);
    case _ => OwnStep(c, step);
  }

  lemma StepKeeps(c: Cluster, step: Step)
    requires Inv(c) && Enabled(c, step) && Fair(c, step)
    ensures Inv(Apply(c, step))
  {
    hide Inv;
    hide Enabled;
    hide Fair;
    hide Outcome;
    hide Sound;
    hide CountedVotes;
    hide Elected;
    hide Update;
    StepAccounted(c, step);
    var (i, s, msgs) := Outcome(c, step);
    UpdateKeeps(c, i, s, msgs);
  }

  // Runs.

  predicate Runs(c: Cluster, steps: seq<Step>)
    decreases |steps|, 0
  {
    steps != [] ==> Runs(c, steps[..|steps| - 1]) && Enabled(Run(c, steps[..|steps| - 1]), steps[|steps| - 1])
  }

  function Run(c: Cluster, steps: seq<Step>): Cluster
    requires Runs(c, steps)
    decreases |steps|, 1
  {
    if steps == [] then c else Apply(Run(c, steps[..|steps| - 1]), steps[|steps| - 1])
  }

  predicate FairRun(c: Cluster, steps: seq<Step>)
    requires Runs(c, steps)
  {
    steps != [] ==> FairRun(c, steps[..|steps| - 1]) && Fair(Run(c, steps[..|steps| - 1]), steps[|steps| - 1])
  }

  /** Every server is down and has not voted; nothing was sent. */
  ghost predicate Initial(c: Cluster) {
    && Distinct(c.cfg) && 0 !in c.servers && c.net == {} && c.grants == {} && c.leaders == {}
    && forall i {:trigger c.servers[i]} :: i in c.servers ==>
         c.servers[i].id == i && c.servers[i].status == Unavailable && c.servers[i].diskVote == 0 && c.servers[i].transfer == 0
  }

  lemma {:induction false} RunKeeps(c: Cluster, steps: seq<Step>)
    requires Initial(c) && Runs(c, steps) && FairRun(c, steps)
    ensures Inv(Run(c, steps))
  {
    if steps != [] {
      hide Initial;
      hide Enabled;
      hide Fair;
      hide Apply;
      hide Inv;
      var prefix := steps[..|steps| - 1];
      RunKeeps(c, prefix);
      StepKeeps(Run(c, prefix), steps[|steps| - 1]);
    }
  }

  lemma OneLeader(c: Cluster, l1: nat, l2: nat, term: nat)
    requires Inv(c) && (l1, term) in c.leaders && (l2, term) in c.leaders
    ensures l1 == l2
  {
    hide ServersSane;
    hide VotesCounted;
    hide NetTruthful;
    hide LeadersRecorded;
    hide Majority;
    hide VoterIds;
    VoterIdsAre(c.cfg);
    if |VoterIds(c.cfg)| != 1 {
      var q1: set<nat> :| Majority(q1, Voters(c.cfg)) && VotedFor(c, q1, term, l1);
      var q2: set<nat> :| Majority(q2, Voters(c.cfg)) && VotedFor(c, q2, term, l2);
      MajoritiesMeet(Voters(c.cfg), Voters(c.cfg), q1, q2);
      var v :| v in q1 * q2;
      assert Grant(v, term, l1) in c.grants && Grant(v, term, l2) in c.grants;
    }
  }

  /** Two servers that ever were leader in the same term are the same server. */
  lemma ElectionSafety(c: Cluster, steps: seq<Step>, l1: nat, l2: nat, term: nat)
    requires Initial(c) && Runs(c, steps) && FairRun(c, steps)
    requires (l1, term) in Run(c, steps).leaders && (l2, term) in Run(c, steps).leaders
    ensures l1 == l2
  {
    RunKeeps(c, steps);
    OneLeader(Run(c, steps), l1, l2, term);
  }

  // One vote per term.

  ghost predicate OneVoteEach(c: Cluster) {
    forall g, h {:trigger g in c.grants, h in c.grants} ::
      g in c.grants && h in c.grants && g.voter == h.voter && g.term == h.term ==> g == h
  }

  /** An unfair step stores a second vote. */
  lemma SecondVote(c: Cluster, step: Step)
    requires Inv(c) && Enabled(c, step) && !Fair(c, step)
    ensures !OneVoteEach(Apply(c, step))
  {
    hide Inv;
    hide Receive;
    hide VotesTwice;
    hide Voters;
    hide VoterIds;
    hide CountedVotes;
    hide Elected;
    hide Truthful;
    var m := step.m;
    Receiver(c, m);
    var o := c.servers[m.dst];
    var s := Receive(o, c.cfg, m).0;
    ReceiveHonest(o, c.cfg, m);
    SecondStored(o, c.cfg, m);
    FirstStored(c, m.dst);
    var g, h := Grant(m.dst, s.diskTerm, o.diskVote), Grant(m.dst, s.diskTerm, s.diskVote);
    assert g in Apply(c, step).grants && h in Apply(c, step).grants;
  }

  lemma SecondStored(s: Server, cfg: Members, m: Msg)
    requires Sane(s, cfg) && s.status != Unavailable && m.src != 0 && VotesTwice(s, cfg, m)
    ensures var s' := Receive(s, cfg, m).0;
            s'.diskTerm == s.diskTerm && s'.diskVote == m.src && s.diskVote != 0 && s.diskVote != m.src
  {
    hide Voters;
    hide VoterIds;
  }

  lemma FirstStored(c: Cluster, i: nat)
    requires Inv(c) && i in c.servers && c.servers[i].diskVote != 0
    ensures Grant(i, c.servers[i].diskTerm, c.servers[i].diskVote) in c.grants
  {
  }

  lemma GrantsStay(c: Cluster, step: Step)
    requires Enabled(c, step)
    ensures c.grants <= Apply(c, step).grants
  {
  }

  lemma InvOneVote(c: Cluster)
    requires Inv(c)
    ensures OneVoteEach(c)
  {
  }

  /** No server votes for two candidates in a term exactly in the runs in which no server
    * receives the vote request of its own transfer target after voting for another. */
  lemma {:induction false} OneVotePerTerm(c: Cluster, steps: seq<Step>)
    requires Initial(c) && Runs(c, steps)
    ensures OneVoteEach(Run(c, steps)) <==> FairRun(c, steps)
  {
    hide Initial;
    hide Enabled;
    hide Fair;
    hide Apply;
    hide Inv;
    if FairRun(c, steps) {
      RunKeeps(c, steps);
      InvOneVote(Run(c, steps));
    } else {
      var prefix, last := steps[..|steps| - 1], steps[|steps| - 1];
      if FairRun(c, prefix) {
        RunKeeps(c, prefix);
        SecondVote(Run(c, prefix), last);
      } else {
        OneVotePerTerm(c, prefix);
        GrantsStay(Run(c, prefix), last);
      }
    }
  }

  // Without transfers.

  ghost predicate NoTransfers(c: Cluster) {
    forall i {:trigger c.servers[i]} :: i in c.servers ==> c.servers[i].transfer == 0
  }

  lemma ReceiveKeepsTransfer(s: Server, cfg: Members, m: Msg)
    requires s.transfer == 0
    ensures Receive(s, cfg, m).0.transfer == 0
  {
    hide Voters;
    hide VoterIds;
    hide Grants;
    hide Counts;
    hide Wins;
    hide HasLeader;
    hide Requests;
    match m
    case RequestVote(_, _, _, _, _, _, _) => assert OnRequestVote(s, cfg, m).0.transfer == 0;
    case VoteResult(_, _, _, _, _) => assert OnVoteResult(s, cfg, m).0.transfer == 0;
    case AppendEntries(_, _, _) =>
    case AppendResult(_, _, _) =>
    case TimeoutNow(_, _, _, _, _) => assert OnTimeoutNow(s, cfg, m).0.transfer == 0;
  }

  lemma NoTransferFair(s: Server, cfg: Members, m: Msg)
    requires s.transfer == 0
    ensures !VotesTwice(s, cfg, m)
  {
    hide Voters;
    hide UpToDate;
  }

  lemma NoTransferStep(c: Cluster, step: Step)
    requires NoTransfers(c) && Enabled(c, step) && !step.BeginTransfer?
    ensures NoTransfers(Apply(c, step)) && Fair(c, step)
  {
    hide Voters;
    hide VoterIds;
    hide Receive;
    hide VotesTwice;
    var i := Outcome(c, step).0;
    assert c.servers[i].transfer == 0;
    if step.Deliver? {
      ReceiveKeepsTransfer(c.servers[i], c.cfg, step.m);
      NoTransferFair(c.servers[i], c.cfg, step.m);
    }
    assert Outcome(c, step).1.transfer == 0;
  }

  lemma {:induction false} NoTransferRun(c: Cluster, steps: seq<Step>)
    requires Initial(c) && Runs(c, steps) && forall k :: 0 <= k < |steps| ==> !steps[k].BeginTransfer?
    ensures NoTransfers(Run(c, steps)) && FairRun(c, steps)
  {
    if steps != [] {
      hide Enabled;
      hide Fair;
      hide Apply;
      var prefix := steps[..|steps| - 1];
      NoTransferRun(c, prefix);
      NoTransferStep(Run(c, prefix), steps[|steps| - 1]);
    }
  }

  /** A cluster that never transfers leadership has one leader per term. */
  lemma SafeWithoutTransfers(c: Cluster, steps: seq<Step>, l1: nat, l2: nat, term: nat)
    requires Initial(c) && Runs(c, steps) && forall k :: 0 <= k < |steps| ==> !steps[k].BeginTransfer?
    requires (l1, term) in Run(c, steps).leaders && (l2, term) in Run(c, steps).leaders
    ensures l1 == l2
  {
    NoTransferRun(c, steps);
    ElectionSafety(c, steps, l1, l2, term);
  }

  /** A leader never receives entries of its own term: the assertion in the handler holds. */
  lemma NoRivalEntries(c: Cluster, steps: seq<Step>, m: Msg)
    requires Initial(c) && Runs(c, steps) && FairRun(c, steps)
    requires var c' := Run(c, steps);
             m.AppendEntries? && m in c'.net && Up(c', m.dst) && m.term == c'.servers[m.dst].term
    ensures Run(c, steps).servers[m.dst].status != Leader
  {
    hide Inv;
    hide Elected;
    hide CountedVotes;
    hide Sane;
    var c' := Run(c, steps);
    RunKeeps(c, steps);
    Receiver(c', m);
    if c'.servers[m.dst].status == Leader {
      OneLeader(c', m.src, m.dst, m.term);
    }
  }

  // Pre-votes ask for the next term at most.

  predicate TermStored(s: Server) {
    s.status != Unavailable ==> s.term == s.diskTerm
  }

  /** A server's question, and the answer to it, are about a term that the server was in or
    * could go on to. */
  predicate InReach(c: Cluster, m: Msg) {
    && (m.RequestVote? && m.preVote ==> m.src in c.servers && m.term <= c.servers[m.src].diskTerm + 1)
    && (m.VoteResult? && m.preVote ==> m.dst in c.servers && m.term <= c.servers[m.dst].diskTerm + 1)
  }

  ghost predicate PreVotesInReach(c: Cluster) {
    && (forall i {:trigger c.servers[i]} :: i in c.servers ==> c.servers[i].id == i && TermStored(c.servers[i]))
    && (forall m {:trigger InReach(c, m)} :: m in c.net ==> InReach(c, m))
  }

  /** What a server sends about pre-votes: questions about its next term, and answers that
    * repeat the term of the question m. */
  ghost predicate Answers(s: Server, msgs: set<Msg>, m: Msg) {
    && (forall a :: a in msgs && a.RequestVote? && a.preVote ==> a.src == s.id && a.term <= s.diskTerm + 1)
    && (forall a :: a in msgs && a.VoteResult? && a.preVote ==>
          m.RequestVote? && m.preVote && a.dst == m.src && a.term == m.term)
  }

  lemma AsksNext(s: Server, cfg: Members, m: Msg)
    requires s.status == Candidate ==> s.term <= s.diskTerm
    ensures Answers(s, Requests(s, cfg), m)
  {
    hide Voters;
  }

  /** A reaction to the message m that keeps terms stored and growing. */
  ghost predicate Reaches(s: Server, m: Msg, s': Server, msgs: set<Msg>) {
    s'.id == s.id && TermStored(s') && s.diskTerm <= s'.diskTerm && Answers(s', msgs, m)
  }

  lemma ReceiveInReach(s: Server, cfg: Members, m: Msg)
    requires s.status != Unavailable && s.term == s.diskTerm
    ensures Reaches(s, m, Receive(s, cfg, m).0, Receive(s, cfg, m).1)
  {
    hide OnRequestVote;
    hide OnVoteResult;
    hide OnAppendEntries;
    hide OnAppendResult;
    hide OnTimeoutNow;
    hide CloseTransfer;
    hide Reaches;
    match m {
      case RequestVote(_, _, _, _, _, _, _) =>
        RequestInReach(s, cfg, m);
        CloseInReach(s, m, OnRequestVote(s, cfg, m).0, OnRequestVote(s, cfg, m).1);
      case VoteResult(_, _, _, _, _) =>
        VoteResultInReach(s, cfg, m);
        CloseInReach(s, m, OnVoteResult(s, cfg, m).0, OnVoteResult(s, cfg, m).1);
      case AppendEntries(_, _, _) =>
        AppendInReach(s, m);
        CloseInReach(s, m, OnAppendEntries(s, m), {});
      case AppendResult(_, _, _) =>
        AppendInReach(s, m);
        CloseInReach(s, m, OnAppendResult(s, m), {});
      case TimeoutNow(_, _, _, _, _) =>
        TimeoutInReach(s, cfg, m);
        CloseInReach(s, m, OnTimeoutNow(s, cfg, m).0, OnTimeoutNow(s, cfg, m).1);
    }
  }

  lemma CloseInReach(s: Server, m: Msg, s': Server, msgs: set<Msg>)
    requires Reaches(s, m, s', msgs)
    ensures Reaches(s, m, CloseTransfer(s'), msgs)
  {
  }

  lemma AppendInReach(s: Server, m: Msg)
    requires s.status != Unavailable && s.term == s.diskTerm
    ensures m.AppendEntries? ==> Reaches(s, m, OnAppendEntries(s, m), {})
    ensures m.AppendResult? ==> Reaches(s, m, OnAppendResult(s, m), {})
  {
  }

  lemma RequestInReach(s: Server, cfg: Members, m: Msg)
    requires s.status != Unavailable && s.term == s.diskTerm && m.RequestVote?
    ensures Reaches(s, m, OnRequestVote(s, cfg, m).0, OnRequestVote(s, cfg, m).1)
  {
    hide Grants;
    hide HasLeader;
  }

  lemma VoteResultInReach(s: Server, cfg: Members, m: Msg)
    requires s.status != Unavailable && s.term == s.diskTerm && m.VoteResult?
    ensures Reaches(s, m, OnVoteResult(s, cfg, m).0, OnVoteResult(s, cfg, m).1)
  {
    hide Voters;
    hide VoterIds;
    hide Wins;
    hide Requests;
    AsksNext(OnVoteResult(s, cfg, m).0, cfg, m);
  }

  lemma TimeoutInReach(s: Server, cfg: Members, m: Msg)
    requires s.status != Unavailable && s.term == s.diskTerm && m.TimeoutNow?
    ensures Reaches(s, m, OnTimeoutNow(s, cfg, m).0, OnTimeoutNow(s, cfg, m).1)
  {
    hide Voters;
    hide VoterIds;
    hide Requests;
    AsksNext(OnTimeoutNow(s, cfg, m).0, cfg, m);
  }

  lemma OutcomeInReach(c: Cluster, step: Step)
    requires PreVotesInReach(c) && Enabled(c, step)
    ensures var (i, s, msgs) := Outcome(c, step);
            && i in c.servers && s.id == i && TermStored(s) && c.servers[i].diskTerm <= s.diskTerm
            && forall a :: a in msgs ==> InReach(c.(servers := c.servers[i := s]), a)
  {
    hide Voters;
    hide VoterIds;
    hide Receive;
    hide Requests;
    var (i, s, msgs) := Outcome(c, step);
    assert c.servers[i].id == i;
    match step {
      case Deliver(m, crash) =>
        ReceiveInReach(c.servers[i], c.cfg, m);
        assert InReach(c, m);
      case Timeout(_, crash) =>
        AsksNext(Stand(c.servers[i], c.cfg, false), c.cfg, AppendResult(0, 0, 0));
      case Retry(_, crash) =>
        AsksNext(Begin(c.servers[i], c.cfg), c.cfg, AppendResult(0, 0, 0));
      case _ =>
    }
  }

  lemma StepInReach(c: Cluster, step: Step)
    requires PreVotesInReach(c) && Enabled(c, step)
    ensures PreVotesInReach(Apply(c, step))
  {
    hide Outcome;
    hide Enabled;
    OutcomeInReach(c, step);
    var (i, s, msgs) := Outcome(c, step);
    var c' := Apply(c, step);
    forall m | m in c'.net ensures InReach(c', m) {
      if m in c.net {
        assert InReach(c, m);
      } else {
        assert InReach(c.(servers := c.servers[i := s]), m);
      }
    }
  }

  lemma {:induction false} RunInReach(c: Cluster, steps: seq<Step>)
    requires Initial(c) && Runs(c, steps)
    ensures PreVotesInReach(Run(c, steps))
  {
    if steps != [] {
      hide Initial;
      hide Enabled;
      hide Apply;
      hide PreVotesInReach;
      RunInReach(c, steps[..|steps| - 1]);
      StepInReach(Run(c, steps[..|steps| - 1]), steps[|steps| - 1]);
    }
  }

  /** The assertion on the answers to a pre-vote: in every run, none that reaches a server
    * is about a term beyond the next one, let alone grants the vote for it. */
  lemma PreVoteAnswersInReach(c: Cluster, steps: seq<Step>, m: Msg)
    requires Initial(c) && Runs(c, steps) && m in Run(c, steps).net && m.VoteResult? && m.preVote
    ensures m.dst in Run(c, steps).servers
    ensures Up(Run(c, steps), m.dst) ==> m.term <= Run(c, steps).servers[m.dst].term + 1
  {
    hide Run;
    RunInReach(c, steps);
    assert InReach(Run(c, steps), m);
  }
}
