/** Who votes for whom: what makes a server grant a vote (src/raft/election.c,
  * src/raft/recv_request_vote.c), what makes a candidate win, and, over every run, how far the
  * logs of voters reach when they vote for a leader. */
module ElectionVotes {
  import opened Quorum
  import opened Configuration
  import opened ElectionSpec
  import opened Election

  // Answers.

  /** The last entry that the request tells is not before the last one of the log, by term and
    * then by index. */
  predicate NotBehind(log: Position, m: Msg)
    requires m.RequestVote?
  {
    log.lastTerm < m.lastTerm || (log.lastTerm == m.lastTerm && log.lastIndex <= m.lastIndex)
  }

  /** The server may vote for the one that asks. */
  predicate FreeToVote(s: Server, m: Msg)
    requires m.RequestVote?
  {
    m.preVote || m.term > s.term || s.vote in {0, m.src} || (s.transfer != 0 && s.transfer == m.src)
  }

  predicate Listens(s: Server, m: Msg)
    requires m.RequestVote?
  {
    m.disrupt || !(s.status == Leader || (s.status == Follower && s.leader != 0))
  }

  ghost predicate Granted(msgs: set<Msg>) {
    exists a :: a in msgs && a.VoteResult? && a.granted
  }

  /** A request gets one answer. The vote is granted exactly when the server is a voter, follows
    * no leader or is asked to disrupt it, installs no snapshot, is not in a later term, is free
    * to vote, and its log is empty or not ahead of the one that asks. */
  lemma AnswersExactly(s: Server, cfg: Members, m: Msg)
    requires m.RequestVote?
    ensures var r := OnRequestVote(s, cfg, m);
            && (exists a :: r.1 == {a} && a.VoteResult? && a.src == s.id && a.dst == m.src && a.preVote == m.preVote)
            && (Granted(r.1) <==>
                  && Listens(s, m) && !s.log.busy && m.term >= s.term && s.id in Voters(cfg) && FreeToVote(s, m)
                  && (s.log.lastIndex == 0 || NotBehind(s.log, m)))
  {
    hide Voters;
    var r := OnRequestVote(s, cfg, m);
    var s' := if m.preVote then s else EnsureTerm(s, m.term);
    var a := if HasLeader(s) && !m.disrupt then Reply(s, m, false)
             else Reply(s', m, !(s'.log.busy || m.term < s.term) && Grants(s', cfg, m));
    assert r.1 == {a};
  }

  /** A vote is stored for the term of the request before it is granted; a pre-vote changes
    * nothing, granted or not. */
  lemma AnswersStored(s: Server, cfg: Members, m: Msg)
    requires m.RequestVote? && s.term == s.diskTerm
    ensures var r := OnRequestVote(s, cfg, m);
            && (m.preVote ==> r.0 == s)
            && (!m.preVote && Granted(r.1) ==> r.0.diskTerm == m.term && r.0.diskVote == m.src)
            && (!Granted(r.1) ==> (r.0.diskTerm, r.0.diskVote) in {(s.diskTerm, s.diskVote), (m.term, 0)})
  {
    hide Voters;
    hide UpToDate;
    var r := OnRequestVote(s, cfg, m);
    var s' := if m.preVote then s else EnsureTerm(s, m.term);
    var a := if HasLeader(s) && !m.disrupt then Reply(s, m, false)
             else Reply(s', m, !(s'.log.busy || m.term < s.term) && Grants(s', cfg, m));
    assert r.1 == {a};
  }

  // Winning.

  /** A candidate has enough votes exactly when the voters it counted are a majority. */
  lemma WinsExactly(s: Server, cfg: Members)
    requires Distinct(cfg) && |s.votes| == |VoterIds(cfg)|
    ensures Wins(s, cfg) <==> Majority(Chosen(VoterIds(cfg), s.votes, |s.votes|), Voters(cfg))
  {
    var ids, n := VoterIds(cfg), |s.votes|;
    VoterIdsAre(cfg);
    TallySize(ids, s.votes, n);
    assert s.votes[..n] == s.votes;
    assert Chosen(ids, s.votes, n) <= Voters(cfg);
  }

  /** Counting a vote ends the round exactly when it makes a majority: a candidate leads, and one
    * that asked for pre-votes stands in the next term and asks again. */
  lemma CountsExactly(s: Server, cfg: Members, m: Msg)
    requires Distinct(cfg) && m.VoteResult? && Counts(s, cfg, m)
    ensures var s' := Counted(s, cfg, m);
            var r := OnVoteResult(s, cfg, m);
            if !Majority(Chosen(VoterIds(cfg), s'.votes, |s'.votes|), Voters(cfg)) then r == (s', {})
            else if s.preVoting then
              && r.0.status == Candidate && !r.0.preVoting && r.0.term == s.term + 1 == r.0.diskTerm && r.0.diskVote == s.id
              && r.1 == Requests(r.0, cfg)
            else r.0.status == Leader && r.0.term == s.term && r.1 == {}
  {
    hide Voters;
    hide VoterIds;
    hide Chosen;
    hide Requests;
    WinsExactly(Counted(s, cfg, m), cfg);
    hide Wins;
    hide Majority;
  }

  /** Every other voter is asked, once, and nobody else. */
  lemma AsksEveryVoter(s: Server, cfg: Members, v: nat)
    requires s.status == Candidate
    ensures (v in Voters(cfg) && v != s.id) <==> exists a :: a in Requests(s, cfg) && a.dst == v
    ensures forall a :: a in Requests(s, cfg) ==>
              && a.RequestVote? && a.src == s.id && a.preVote == s.preVoting && a.disrupt == s.disrupt
              && a.term == (if s.preVoting then s.term + 1 else s.term)
              && a.lastIndex == s.log.storedIndex && a.lastTerm == s.log.storedTerm
  {
    hide Voters;
    if v in Voters(cfg) && v != s.id {
      var a := RequestVote(s.id, v, if s.preVoting then s.term + 1 else s.term, s.log.storedIndex, s.log.storedTerm, s.disrupt, s.preVoting);
      assert a in Requests(s, cfg);
    }
  }

  // Leaders and their messages.

  /** A server that gets entries of its own or a later term follows the sender in that term; its
    * vote is forgotten exactly when the term is later. Earlier terms are ignored. */
  lemma FollowsSender(s: Server, m: Msg)
    requires m.AppendEntries? && !(s.status == Leader && m.term == s.term) && s.status != Unavailable
    ensures var s' := OnAppendEntries(s, m);
            if m.term < s.term then s' == s
            else s'.status == Follower && s'.leader == m.src && s'.term == m.term && s'.vote == if m.term > s.term then 0 else s.vote
  {
  }

  /** A server stands for election at its leader's request exactly when it is a voter that
    * follows this leader and has the same last entry, with nothing being written. */
  lemma TakesOver(s: Server, cfg: Members, m: Msg)
    requires m.TimeoutNow? && |VoterIds(cfg)| > 1 && s.status != Candidate
    ensures var r := OnTimeoutNow(s, cfg, m);
            && (r.0.status == Candidate <==>
                  && s.id in Voters(cfg) && s.status == Follower && s.leader == m.src && m.term >= s.term
                  && s.log.lastIndex == m.lastIndex && s.log.lastTerm == m.lastTerm && !s.log.appending)
            && (r.0.status == Candidate ==>
                  r.0.term == m.term + 1 && r.0.vote == s.id && r.0.disrupt && !r.0.preVoting && r.1 == Requests(r.0, cfg))
  {
    hide Voters;
    hide VoterIds;
    hide Requests;
  }

  // What is remembered of a run.

  /** A vote that was granted, with the last entries of the voter's log and of the request. */
  datatype Cast = Cast(voter: nat, term: nat, candidate: nat, lastIndex: nat, lastTerm: nat, askedIndex: nat, askedTerm: nat)

  /** A server stood for election, with the last entry it had stored. */
  datatype Stood = Stood(server: nat, term: nat, index: nat, lastTerm: nat)

  ghost function CastBy(c: Cluster, step: Step): set<Cast>
    requires Enabled(c, step)
  {
    match step
    case Deliver(m, _) =>
      var s := c.servers[m.dst];
      if m.RequestVote? && !m.preVote && Granted(Receive(s, c.cfg, m).1)
      then {Cast(m.dst, m.term, m.src, s.log.lastIndex, s.log.lastTerm, m.lastIndex, m.lastTerm)} else {}
    case _ => {}
  }

  ghost function StoodBy(c: Cluster, step: Step): set<Stood>
    requires Enabled(c, step)
  {
    var (i, s', _) := Outcome(c, step);
    if i in c.servers && s'.diskTerm > c.servers[i].diskTerm && s'.diskVote == i
    then {Stood(i, s'.diskTerm, c.servers[i].log.storedIndex, c.servers[i].log.storedTerm)} else {}
  }

  ghost function Casts(c: Cluster, steps: seq<Step>): set<Cast>
    requires Runs(c, steps)
  {
    if steps == [] then {} else Casts(c, steps[..|steps| - 1]) + CastBy(Run(c, steps[..|steps| - 1]), steps[|steps| - 1])
  }

  ghost function Standings(c: Cluster, steps: seq<Step>): set<Stood>
    requires Runs(c, steps)
  {
    if steps == [] then {} else Standings(c, steps[..|steps| - 1]) + StoodBy(Run(c, steps[..|steps| - 1]), steps[|steps| - 1])
  }

  // One step.

  /** How a server's stored vote can change, and what it then sends. */
  ghost predicate Accounts(s: Server, s': Server, msgs: set<Msg>, granted: bool, m: Msg) {
    && (forall a :: a in msgs && a.RequestVote? && !a.preVote ==>
          && a.src == s.id && a.term == s'.diskTerm > s.diskTerm && s'.diskVote == s.id
          && a.lastIndex == s.log.storedIndex && a.lastTerm == s.log.storedTerm)
    && (|| (s'.diskTerm == s.diskTerm && s'.diskVote == s.diskVote)
        || s'.diskVote == 0
        || (s'.diskTerm > s.diskTerm && s'.diskVote == s.id)
        || (granted && m.RequestVote? && !m.preVote && s'.diskVote == m.src && s'.diskTerm == m.term))
  }

  lemma RequestsAccount(s: Server, s': Server, cfg: Members, m: Msg)
    requires s'.id == s.id && s'.log == s.log && s'.term == s'.diskTerm
    requires s'.status == Candidate && !s'.preVoting ==> s'.diskTerm > s.diskTerm && s'.diskVote == s.id
    requires (s'.diskTerm == s.diskTerm && s'.diskVote == s.diskVote) || s'.diskVote == 0 || (s'.diskTerm > s.diskTerm && s'.diskVote == s.id)
    ensures Accounts(s, s', Requests(s', cfg), false, m)
  {
    if s'.status == Candidate {
      AsksEveryVoter(s', cfg, 0);
    }
  }

  lemma ReceiveAccounts(s: Server, cfg: Members, m: Msg)
    requires s.status != Unavailable && s.term == s.diskTerm
    ensures var r := Receive(s, cfg, m);
            Accounts(s, r.0, r.1, Granted(r.1), m)
  {
    hide OnRequestVote;
    hide OnVoteResult;
    hide OnTimeoutNow;
    match m {
      case RequestVote(_, _, _, _, _, _, _) =>
        AnswersStored(s, cfg, m);
        AnswersExactly(s, cfg, m);
      case VoteResult(_, _, _, _, _) => ResultAccounts(s, cfg, m);
      case AppendEntries(_, _, _) =>
      case AppendResult(_, _, _) =>
      case TimeoutNow(_, _, _, _, _) => TimeoutAccounts(s, cfg, m);
    }
  }

  lemma ResultAccounts(s: Server, cfg: Members, m: Msg)
    requires s.status != Unavailable && s.term == s.diskTerm && m.VoteResult?
    ensures var r := OnVoteResult(s, cfg, m);
            Accounts(s, CloseTransfer(r.0), r.1, Granted(r.1), m)
  {
    hide Voters;
    hide VoterIds;
    hide Wins;
    hide Requests;
    var r := OnVoteResult(s, cfg, m);
    if r.1 != {} {
      RequestsAccount(s, r.0, cfg, m);
    }
  }

  lemma TimeoutAccounts(s: Server, cfg: Members, m: Msg)
    requires s.status != Unavailable && s.term == s.diskTerm && m.TimeoutNow?
    ensures var r := OnTimeoutNow(s, cfg, m);
            Accounts(s, CloseTransfer(r.0), r.1, Granted(r.1), m)
  {
    hide Voters;
    hide VoterIds;
    hide Requests;
    var r := OnTimeoutNow(s, cfg, m);
    if r.1 != {} {
      RequestsAccount(s, r.0, cfg, m);
    }
  }

  /** Some message; of use where no message is received. */
  const NO_MESSAGE: Msg := AppendResult(0, 0, 0)

  lemma OutcomeAccounts(c: Cluster, step: Step)
    requires PreVotesInReach(c) && Enabled(c, step)
    ensures var (i, s, msgs) := Outcome(c, step);
            && i in c.servers && c.servers[i].id == i && (step.Deliver? ==> i == step.m.dst)
            && if step.Deliver? then Accounts(c.servers[i], s, msgs, CastBy(c, step) != {}, step.m)
               else Accounts(c.servers[i], s, msgs, false, NO_MESSAGE)
  {
    hide Voters;
    hide VoterIds;
    hide Receive;
    hide Requests;
    var (i, s, msgs) := Outcome(c, step);
    var o := c.servers[i];
    assert o.id == i && TermStored(o);
    match step {
      case Deliver(m, crash) => ReceiveAccounts(o, c.cfg, m);
      case Timeout(_, crash) => RequestsAccount(o, Stand(o, c.cfg, false), c.cfg, NO_MESSAGE);
      case Retry(_, crash) => RequestsAccount(o, Begin(o, c.cfg), c.cfg, NO_MESSAGE);
      case Start(_) => RestartAccounts(o, c.cfg);
      case _ =>
    }
  }

  lemma RestartAccounts(s: Server, cfg: Members)
    ensures Accounts(s, Restart(s, cfg), {}, false, NO_MESSAGE)
  {
    hide Voters;
    hide VoterIds;
  }

  // Every run.

  /** The cast is the vote of that grant. */
  predicate IsVote(g: Grant, v: Cast) {
    v.voter == g.voter && v.term == g.term && v.candidate == g.candidate
  }

  /** The voter's log was empty, or not ahead of what the request told. */
  predicate Reached(v: Cast) {
    v.lastIndex == 0 || v.lastTerm < v.askedTerm || (v.lastTerm == v.askedTerm && v.lastIndex <= v.askedIndex)
  }

  /** The position in the request is the one its sender had stored when it stood. */
  predicate FromStood(v: Cast, stood: set<Stood>) {
    Stood(v.candidate, v.term, v.askedIndex, v.askedTerm) in stood
  }

  ghost predicate HasVote(g: Grant, casts: set<Cast>) {
    g.voter == g.candidate || exists v :: v in casts && IsVote(g, v)
  }

  /** What history says of the cluster: every stored vote for another server was cast; every
    * request comes from a standing, of which a server has one per term; every cast vote was
    * asked for with the position of that standing and reached it. */
  ghost predicate Recorded(c: Cluster, casts: set<Cast>, stood: set<Stood>) {
    && PreVotesInReach(c)
    && (forall i {:trigger c.servers[i]} :: i in c.servers && c.servers[i].diskVote != 0 ==>
          Grant(i, c.servers[i].diskTerm, c.servers[i].diskVote) in c.grants)
    && (forall g {:trigger HasVote(g, casts)} :: g in c.grants ==> HasVote(g, casts))
    && (forall m :: m in c.net && m.RequestVote? && !m.preVote ==> Stood(m.src, m.term, m.lastIndex, m.lastTerm) in stood)
    && (forall a :: a in stood ==> a.server in c.servers && a.term <= c.servers[a.server].diskTerm)
    && (forall a, b :: a in stood && b in stood && a.server == b.server && a.term == b.term ==> a == b)
    && (forall v :: v in casts ==> Reached(v) && FromStood(v, stood))
  }

  lemma NewCast(c: Cluster, step: Step, casts: set<Cast>, stood: set<Stood>)
    requires Recorded(c, casts, stood) && Enabled(c, step)
    ensures forall v :: v in CastBy(c, step) ==>
              && Reached(v) && FromStood(v, stood)
              && step.Deliver? && v.voter == step.m.dst && v.term == step.m.term && v.candidate == step.m.src
  {
    hide OnRequestVote;
    if CastBy(c, step) != {} {
      AnswersExactly(c.servers[step.m.dst], c.cfg, step.m);
    }
  }

  lemma StepGrants(c: Cluster, step: Step, casts: set<Cast>, stood: set<Stood>)
    requires Recorded(c, casts, stood) && Enabled(c, step)
    ensures forall g :: g in Apply(c, step).grants ==> HasVote(g, casts + CastBy(c, step))
  {
    hide Outcome;
    hide Enabled;
    OutcomeAccounts(c, step);
    NewCast(c, step, casts, stood);
    hide CastBy;
    var (i, s, msgs) := Outcome(c, step);
    var o, c', all := c.servers[i], Apply(c, step), casts + CastBy(c, step);
    forall g | g in c'.grants ensures HasVote(g, all) {
      if g in c.grants {
        VoteStays(g, casts, all);
      } else if s.diskVote != i && CastBy(c, step) != {} {
        var v :| v in CastBy(c, step);
        assert IsVote(g, v);
      }
    }
  }

  lemma VoteStays(g: Grant, casts: set<Cast>, all: set<Cast>)
    requires HasVote(g, casts) && casts <= all
    ensures HasVote(g, all)
  {
  }

  lemma StepStood(c: Cluster, step: Step, casts: set<Cast>, stood: set<Stood>)
    requires Recorded(c, casts, stood) && Enabled(c, step)
    ensures var c', all := Apply(c, step), stood + StoodBy(c, step);
            && (forall m :: m in c'.net && m.RequestVote? && !m.preVote ==> Stood(m.src, m.term, m.lastIndex, m.lastTerm) in all)
            && (forall a :: a in all ==> a.server in c'.servers && a.term <= c'.servers[a.server].diskTerm)
            && (forall a, b :: a in all && b in all && a.server == b.server && a.term == b.term ==> a == b)
  {
    hide Outcome;
    hide Enabled;
    hide CastBy;
    OutcomeAccounts(c, step);
    OutcomeInReach(c, step);
  }

  lemma StepRecorded(c: Cluster, step: Step, casts: set<Cast>, stood: set<Stood>)
    requires Recorded(c, casts, stood) && Enabled(c, step)
    ensures Recorded(Apply(c, step), casts + CastBy(c, step), stood + StoodBy(c, step))
  {
    hide Outcome;
    hide Enabled;
    StepInReach(c, step);
    StepGrants(c, step, casts, stood);
    StepStood(c, step, casts, stood);
    NewCast(c, step, casts, stood);
    hide HasVote;
    hide CastBy;
    hide StoodBy;
    hide Reached;
    hide PreVotesInReach;
    DiskGranted(c, step, casts, stood);
  }

  lemma DiskGranted(c: Cluster, step: Step, casts: set<Cast>, stood: set<Stood>)
    requires Recorded(c, casts, stood) && Enabled(c, step)
    ensures var c' := Apply(c, step);
            forall i {:trigger c'.servers[i]} :: i in c'.servers && c'.servers[i].diskVote != 0 ==>
              Grant(i, c'.servers[i].diskTerm, c'.servers[i].diskVote) in c'.grants
  {
    hide Outcome;
    hide Enabled;
    hide HasVote;
    hide PreVotesInReach;
  }

  lemma {:induction false} RunRecorded(c: Cluster, steps: seq<Step>)
    requires Initial(c) && Runs(c, steps)
    ensures Recorded(Run(c, steps), Casts(c, steps), Standings(c, steps))
  {
    if steps != [] {
      hide Initial;
      hide Enabled;
      hide Apply;
      hide Recorded;
      hide CastBy;
      hide StoodBy;
      RunRecorded(c, steps[..|steps| - 1]);
      var prefix := steps[..|steps| - 1];
      StepRecorded(Run(c, prefix), steps[|steps| - 1], Casts(c, prefix), Standings(c, prefix));
    }
  }

  /** The server v granted its vote in that term, with its log empty or not ahead. */
  ghost predicate VotedReached(v: nat, l: nat, term: nat, stood: Stood, casts: set<Cast>) {
    exists x :: x in casts && x.voter == v && x.term == term && x.candidate == l
                && x.askedIndex == stood.index && x.askedTerm == stood.lastTerm && Reached(x)
  }

  lemma VoteReached(c: Cluster, casts: set<Cast>, stood: set<Stood>, v: nat, l: nat, term: nat, at: Stood)
    requires Recorded(c, casts, stood) && Grant(v, term, l) in c.grants && v != l
    requires at in stood && at.server == l && at.term == term
    ensures VotedReached(v, l, term, at, casts)
  {
    assert HasVote(Grant(v, term, l), casts);
    var x :| x in casts && IsVote(Grant(v, term, l), x);
    assert FromStood(x, stood);
  }

  lemma SomeStanding(c: Cluster, casts: set<Cast>, stood: set<Stood>, v: nat, l: nat, term: nat) returns (at: Stood)
    requires Recorded(c, casts, stood) && Grant(v, term, l) in c.grants && v != l
    ensures at in stood && at.server == l && at.term == term
  {
    assert HasVote(Grant(v, term, l), casts);
    var x :| x in casts && IsVote(Grant(v, term, l), x);
    assert FromStood(x, stood);
    at := Stood(x.candidate, x.term, x.askedIndex, x.askedTerm);
  }

  /** The election restriction: in every run, a leader elected by several voters stood once in
    * its term, and each of a majority of the voters, besides itself, granted it its vote when
    * its own log was empty or not ahead of what the leader had stored when it stood. */
  lemma LeaderReachesVoters(c: Cluster, steps: seq<Step>, l: nat, term: nat) returns (q: set<nat>, at: Stood)
    requires Initial(c) && Runs(c, steps) && FairRun(c, steps)
    requires (l, term) in Run(c, steps).leaders && |VoterIds(Run(c, steps).cfg)| != 1
    ensures at in Standings(c, steps) && at.server == l && at.term == term
    ensures forall b :: b in Standings(c, steps) && b.server == l && b.term == term ==> b == at
    ensures Majority(q, Voters(Run(c, steps).cfg))
    ensures forall v :: v in q && v != l ==> VotedReached(v, l, term, at, Casts(c, steps))
  {
    hide Run;
    hide Runs;
    hide Casts;
    hide Standings;
    hide Reached;
    hide IsVote;
    RunKeeps(c, steps);
    RunRecorded(c, steps);
    var e := Run(c, steps);
    q := MajorityOf(e, l, term);
    hide Inv;
    var v := Another(e, q, l);
    at := SomeStanding(e, Casts(c, steps), Standings(c, steps), v, l, term);
    forall v | v in q && v != l ensures VotedReached(v, l, term, at, Casts(c, steps)) {
      VoteReached(e, Casts(c, steps), Standings(c, steps), v, l, term, at);
    }
  }

  lemma MajorityOf(c: Cluster, l: nat, term: nat) returns (q: set<nat>)
    requires Inv(c) && (l, term) in c.leaders && |VoterIds(c.cfg)| != 1
    ensures Majority(q, Voters(c.cfg)) && VotedFor(c, q, term, l) && Distinct(c.cfg)
  {
    hide VotesStored;
    hide ServersSane;
    hide VotesCounted;
    hide NetTruthful;
    hide Voters;
    hide VoterIds;
    assert Elected(c, l, term);
    q :| Majority(q, Voters(c.cfg)) && VotedFor(c, q, term, l);
  }

  /** A majority of more than one voter has another member. */
  lemma Another(c: Cluster, q: set<nat>, l: nat) returns (v: nat)
    requires Distinct(c.cfg) && Majority(q, Voters(c.cfg)) && |VoterIds(c.cfg)| != 1
    ensures v in q && v != l
  {
    VoterIdsAre(c.cfg);
    if q <= {l} {
      SubsetSize(q, {l});
      assert false;
    }
    v :| v in q && v != l;
  }
}
