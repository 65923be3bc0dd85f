/** A raft server as the program keeps it: one object whose fields the handlers of
  * src/raft/election.c, convert.c, recv.c and the recv_*.c files update in place.
  *
  * Every handler is proved to do what ElectionSpec says, message for message. Storing a
  * term or a vote, and allocating memory, may fail at any time; what is then on disk is
  * what a crash could have left there.
  */
module RaftServer {
  import opened Configuration
  import opened ElectionSpec
  import Election

  /** The role changes the program asserts to be legal. */
  predicate Legal(a: Status, b: Status) {
    || (a == Unavailable && b == Follower)
    || (a == Follower && (b == Candidate || b == Unavailable))
    || (a == Candidate && (b == Follower || b == Leader || b == Unavailable))
    || (a == Leader && (b == Follower || b == Unavailable))
  }

  /** What is on disk after a failure: nothing new, a new term without a vote, or all that
    * handling the message stores. */
  predicate Leaves(s: Server, done: Server, s': Server) {
    && s'.id == s.id
    && (|| (s'.diskTerm == s.diskTerm && s'.diskVote == s.diskVote)
        || (s'.diskTerm > s.diskTerm && s'.diskVote == 0)
        || (s'.diskTerm == done.diskTerm && s'.diskVote == done.diskVote))
  }

  class Raft {
    const id: nat
    const preVote: bool
    const cfg: Members
    var term: nat
    var votedFor: nat
    var status: Status
    var votes: array?<bool>
    var preVoting: bool
    var disrupt: bool
    var leader: nat
    var transfer: nat
    var diskTerm: nat
    var diskVote: nat
    var log: Position
    var sent: set<Msg>

    ghost function Abs(): Server
      reads this, votes
    {
      Server(id, term, votedFor, status, if votes == null then [] else votes[..], preVoting, disrupt, leader, transfer,
             diskTerm, diskVote, preVote, log)
    }

    /** Votes are kept by candidates only. */
    ghost predicate Valid()
      reads this, votes
    {
      && Distinct(cfg) && Sane(Abs(), cfg)
      && Shaped()
    }

    ghost predicate Shaped()
      reads this
    {
      status == Candidate <==> votes != null
    }

    /** A server that was never started, with what is on its disk. */
    constructor (id: nat, cfg: Members, preVote: bool, diskTerm: nat, diskVote: nat, log: Position)
      requires id != 0 && Distinct(cfg)
      ensures Valid() && status == Unavailable && this.id == id && this.cfg == cfg && this.preVote == preVote
      ensures this.diskTerm == diskTerm && this.diskVote == diskVote && this.log == log && sent == {}
    {
      this.id, this.cfg, this.preVote := id, cfg, preVote;
      this.diskTerm, this.diskVote, this.log := diskTerm, diskVote, log;
      term, votedFor, status, votes := 0, 0, Unavailable, null;
      preVoting, disrupt, leader, transfer, sent := false, false, 0, 0, {};
    }

    /** Start from what is on disk; the only voter elects itself at once. */
    method Start() returns (ok: bool)
      requires Valid() && status == Unavailable && transfer == 0
      modifies this
      ensures ok ==> Valid() && Abs() == Restart(old(Abs()), cfg) && sent == old(sent)
      ensures !ok ==> Leaves(old(Abs()), Restart(old(Abs()), cfg), Abs())
    {
      hide Stand;
      hide Voters;
      hide VoterIds;
      RestartSane(Abs(), cfg);
      term, votedFor := diskTerm, diskVote;
      ToFollower();
      var n := VoterCount(cfg);
      var i := IndexOf(cfg, id);
      IsVoter(cfg, i, id);
      ok := true;
      if n == 1 && i < |cfg| && cfg[i].role == Voter {
        ghost var s := Abs();
        ok := ToCandidate(false);
        SelfElected(s, cfg);
      }
    }

    // Storage.

    method StoreTerm(term': nat) returns (ok: bool)
      modifies this`diskTerm, this`diskVote
      ensures ok ==> diskTerm == term' && diskVote == 0
      ensures !ok ==> diskTerm == old(diskTerm) && diskVote == old(diskVote)
    {
      ok := *;
      if ok {
        diskTerm, diskVote := term', 0;
      }
    }

    method StoreVote(vote: nat) returns (ok: bool)
      modifies this`diskVote
      ensures diskVote == if ok then vote else old(diskVote)
    {
      ok := *;
      if ok {
        diskVote := vote;
      }
    }

    // Roles.

    method SetState(status': Status)
      requires Legal(status, status')
      modifies this`status
      ensures status == status'
    {
      status := status';
    }

    method Clear()
      modifies this`leader, this`votes
      ensures Abs() == old(Abs()).(leader := if status == Follower then 0 else old(leader),
                                   votes := if status == Candidate then [] else old(Abs().votes))
      ensures status == Candidate ==> votes == null
      ensures status != Candidate ==> votes == old(votes)
    {
      if status == Follower {
        leader := 0;
      } else if status == Candidate {
        votes := null;
      }
    }

    method ToFollower()
      requires Legal(status, Follower) && (status == Candidate || votes == null)
      modifies this
      ensures Abs() == Follow(old(Abs())) && votes == null && sent == old(sent)
    {
      Clear();
      SetState(Follower);
      leader := 0;
    }

    method ToLeader() returns (ok: bool)
      requires status == Candidate
      modifies this
      ensures Abs() == Lead(old(Abs())) && votes == null && sent == old(sent)
    {
      Clear();
      SetState(Leader);
      leader := 0;
      ok := *;
    }

    method ToUnavailable()
      requires status != Unavailable
      modifies this
      ensures status == Unavailable && diskTerm == old(diskTerm) && diskVote == old(diskVote) && transfer == 0
      ensures log == old(log) && sent == old(sent)
    {
      transfer := 0;
      Clear();
      SetState(Unavailable);
    }

    /** Clear the follower's state and set up the candidate's. */
    method Prepare(disrupt': bool, n: nat) returns (ok: bool)
      requires status == Follower && votes == null
      modifies this
      ensures ok ==> votes != null && fresh(votes) && votes.Length == n
      ensures ok ==> Abs() == old(Abs()).(status := Candidate, leader := 0, disrupt := disrupt', preVoting := !disrupt' && preVote,
                                          votes := votes[..])
      ensures !ok ==> Abs() == old(Abs()).(status := Candidate, leader := 0)
      ensures sent == old(sent)
    {
      Clear();
      SetState(Candidate);
      ok := *;
      if ok {
        votes := new bool[n];
        disrupt := disrupt';
        preVoting := !disrupt' && preVote;
      }
    }

    method ToCandidate(disrupt': bool) returns (ok: bool)
      requires Valid() && status == Follower && id in Voters(cfg)
      modifies this
      ensures ok ==> Valid() && Abs() == Stand(old(Abs()), cfg, disrupt') && sent == old(sent) + Requests(Abs(), cfg)
      ensures !ok ==> Leaves(old(Abs()), Stand(old(Abs()), cfg, disrupt'), Abs())
      ensures status != Unavailable
    {
      hide Voters;
      hide VoterIds;
      hide Begin;
      StandSane(Abs(), cfg, disrupt');
      var n := VoterCount(cfg);
      ok := Prepare(disrupt', n);
      if !ok {
        return;
      }
      if n == 1 {
        ok := ToLeader();
        return;
      }
      BeginForgets(Abs(), cfg, []);
      ok := ElectionStart();
      if !ok {
        status := Follower;
        votes := null;
      }
    }

    // Elections.

    method ElectionSend(to: nat)
      requires to != id
      modifies this`sent
      ensures sent == old(sent) + {RequestVote(id, to, if preVoting then term + 1 else term, log.storedIndex, log.storedTerm, disrupt, preVoting)}
    {
      var term' := term;
      if preVoting {
        term' := term' + 1;
      }
      sent := sent + {RequestVote(id, to, term', log.storedIndex, log.storedTerm, disrupt, preVoting)};
    }

    /** Store the next term and a vote for itself. */
    method NewTerm() returns (ok: bool)
      requires term == diskTerm
      modifies this`term, this`votedFor, this`diskTerm, this`diskVote
      ensures ok ==> Abs() == old(Abs()).(term := old(term) + 1, vote := id, diskTerm := old(term) + 1, diskVote := id)
      ensures !ok ==> Abs() == old(Abs()) || Abs() == old(Abs()).(diskTerm := old(term) + 1, diskVote := 0)
    {
      var term' := term + 1;
      ok := StoreTerm(term');
      if ok {
        ok := StoreVote(id);
      }
      if ok {
        term := term';
        votedFor := id;
      }
    }

    /** Start a round: on success the new term and the vote are on disk before anything is sent. */
    method ElectionStart() returns (ok: bool)
      requires Distinct(cfg) && status == Candidate && id in Voters(cfg) && votes != null && votes.Length == |VoterIds(cfg)|
      requires term == diskTerm
      modifies this, votes
      ensures votes == old(votes)
      ensures ok ==> Abs() == Begin(old(Abs()), cfg) && sent == old(sent) + Requests(Abs(), cfg)
      ensures !ok ==> Leaves(old(Abs()), Begin(old(Abs()), cfg), Abs()) && status == Candidate && sent == old(sent)
    {
      var place := IndexOfVoter(cfg, id);
      if !preVoting {
        ok := NewTerm();
        if !ok {
          return;
        }
      }
      FillVotes(place);
      SendRequests();
      ok := true;
    }

    method FillVotes(place: nat)
      requires Distinct(cfg) && votes != null && votes.Length == |VoterIds(cfg)| && place < votes.Length && VoterIds(cfg)[place] == id
      modifies votes
      ensures forall i :: 0 <= i < votes.Length ==> votes[i] == (VoterIds(cfg)[i] == id)
    {
      VoterIdsAre(cfg);
      for i := 0 to votes.Length
        invariant forall k :: 0 <= k < i ==> votes[k] == (VoterIds(cfg)[k] == id)
      {
        votes[i] := i == place;
      }
    }

    method SendRequests()
      requires status == Candidate
      modifies this`sent
      ensures sent == old(sent) + Requests(Abs(), cfg)
    {
      ghost var s := Abs();
      for i := 0 to |cfg|
        invariant sent == old(sent) + set k | 0 <= k < i && cfg[k].role == Voter && cfg[k].id != id :: Asked(s, cfg[k].id)
      {
        if cfg[i].id == id || cfg[i].role != Voter {
          continue;
        }
        ElectionSend(cfg[i].id);
      }
      RequestsAre(s, cfg);
    }

    method ElectionVote(m: Msg) returns (ok: bool, granted: bool)
      requires Distinct(cfg) && m.RequestVote? && status != Unavailable
      modifies this`votedFor, this`diskVote
      ensures ok ==> Abs() == AfterVote(old(Abs()), cfg, m) && granted == Grants(old(Abs()), cfg, m)
      ensures !ok ==> Abs() == old(Abs())
    {
      granted := false;
      var i := IndexOf(cfg, id);
      if i == |cfg| || cfg[i].role != Voter {
        return true, false;
      }
      var transferee := transfer != 0 && transfer == m.src;
      if !m.preVote && votedFor != 0 && votedFor != m.src && !transferee {
        return true, false;
      }
      if log.lastIndex != 0 {
        if m.lastTerm < log.lastTerm {
          return true, false;
        }
        if m.lastTerm == log.lastTerm && log.lastIndex > m.lastIndex {
          return true, false;
        }
      }
      if !m.preVote {
        ok := StoreVote(m.src);
        if !ok {
          return;
        }
        votedFor := m.src;
      }
      return true, true;
    }

    method ElectionTally(place: nat) returns (won: bool)
      requires Distinct(cfg) && status == Candidate && votes != null && votes.Length == |VoterIds(cfg)| && place < votes.Length
      modifies votes
      ensures Abs() == old(Abs()).(votes := old(Abs()).votes[place := true])
      ensures won == Wins(Abs(), cfg)
    {
      var n := VoterCount(cfg);
      var half := n / 2;
      votes[place] := true;
      var count := 0;
      assert votes[..0] == [];
      for i := 0 to n
        invariant count == Tally(votes[..i])
      {
        assert votes[..i + 1][..i] == votes[..i];
        if votes[i] {
          count := count + 1;
        }
      }
      assert votes[..n] == votes[..];
      won := count >= half + 1;
    }

    // Messages.

    method BumpCurrentTerm(term': nat) returns (ok: bool)
      requires Shaped() && status != Unavailable && term' > term
      modifies this
      ensures Shaped() && sent == old(sent)
      ensures Abs() == if ok then Bump(old(Abs()), term') else old(Abs())
    {
      ok := StoreTerm(term');
      if ok {
        term := term';
        votedFor := 0;
        if status != Follower {
          ToFollower();
        }
      }
    }

    method CheckMatchingTerms(term': nat) returns (order: int)
      ensures order == if term' < term then -1 else if term' > term then 1 else 0
    {
      if term' < term {
        order := -1;
      } else if term' > term {
        order := 1;
      } else {
        order := 0;
      }
    }

    method EnsureMatchingTerms(term': nat) returns (ok: bool, order: int)
      requires Shaped() && status != Unavailable
      modifies this
      ensures Shaped() && sent == old(sent)
      ensures Abs() == if ok then EnsureTerm(old(Abs()), term') else old(Abs())
      ensures order == if term' < old(term) then -1 else if term' > old(term) then 1 else 0
      ensures ok || order == 1
      ensures order != 1 ==> votes == old(votes)
    {
      order := CheckMatchingTerms(term');
      ok := true;
      if order == 1 {
        ok := BumpCurrentTerm(term');
      }
    }

    method Answer(m: Msg, granted: bool) returns (ok: bool)
      requires m.RequestVote?
      modifies this`sent
      ensures ok ==> sent == old(sent) + {Reply(Abs(), m, granted)}
    {
      var term' := term;
      if m.preVote {
        term' := m.term;
      }
      ok := *;
      if ok {
        sent := sent + {VoteResult(id, m.src, term', granted, m.preVote)};
      }
    }

    method RecvRequestVote(m: Msg) returns (ok: bool)
      requires Valid() && status != Unavailable && m.RequestVote?
      modifies this
      ensures Shaped() && status != Unavailable
      ensures ok ==> Abs() == OnRequestVote(old(Abs()), cfg, m).0 && sent == old(sent) + OnRequestVote(old(Abs()), cfg, m).1
      ensures !ok ==> Leaves(old(Abs()), OnRequestVote(old(Abs()), cfg, m).0, Abs())
    {
      hide Grants;
      var hasLeader := status == Leader || (status == Follower && leader != 0);
      if hasLeader && !m.disrupt {
        ok := Answer(m, false);
        return;
      }
      var order := 0;
      if m.preVote {
        order := CheckMatchingTerms(m.term);
      } else {
        ok, order := EnsureMatchingTerms(m.term);
        if !ok {
          return;
        }
      }
      if log.busy || order < 0 {
        ok := Answer(m, false);
        return;
      }
      assert m.preVote || term == m.term;
      var granted;
      ok, granted := ElectionVote(m);
      if ok {
        ok := Answer(m, granted);
      }
    }

    /** The vote of a peer beyond the term asked for; see Election.PreVoteAnswersInReach. */
    predicate BeyondNext(m: Msg)
      reads this
    {
      m.VoteResult? && m.granted && m.preVote && status == Candidate && preVoting && m.term > term + 1
    }

    method RecvVoteResult(m: Msg) returns (ok: bool)
      requires Valid() && status != Unavailable && m.VoteResult? && !BeyondNext(m)
      modifies this, votes
      ensures Shaped() && status != Unavailable
      ensures ok ==> Abs() == OnVoteResult(old(Abs()), cfg, m).0 && sent == old(sent) + OnVoteResult(old(Abs()), cfg, m).1
      ensures !ok ==> Leaves(old(Abs()), OnVoteResult(old(Abs()), cfg, m).0, Abs())
    {
      hide Wins;
      hide Begin;
      hide Requests;
      hide VoterIds;
      hide Voters;
      VoterIdsAreVoters(cfg);
      var place := IndexOfVoter(cfg, m.src);
      if m.src !in Voters(cfg) || status != Candidate {
        return true;
      }
      var order := 0;
      if preVoting {
        order := CheckMatchingTerms(m.term);
      } else {
        ok, order := EnsureMatchingTerms(m.term);
        if !ok {
          return;
        }
      }
      if status != Candidate || order < 0 || m.preVote != preVoting {
        return true;
      }
      if preVoting && m.term > term + 1 {
        assert !m.granted;
        ok := BumpCurrentTerm(m.term);
        return;
      }
      assert !preVoting ==> m.term == term;
      if !m.granted {
        return true;
      }
      ok := CountVote(m, place);
    }

    method CountVote(m: Msg, place: nat) returns (ok: bool)
      requires Valid() && status == Candidate && m.VoteResult? && Counts(Abs(), cfg, m)
      requires place < |VoterIds(cfg)| && VoterIds(cfg)[place] == m.src
      modifies this, votes
      ensures Shaped() && status != Unavailable
      ensures ok ==> Abs() == OnVoteResult(old(Abs()), cfg, m).0 && sent == old(sent) + OnVoteResult(old(Abs()), cfg, m).1
      ensures !ok ==> Leaves(old(Abs()), OnVoteResult(old(Abs()), cfg, m).0, Abs())
    {
      hide Wins;
      hide Begin;
      hide Requests;
      hide VoterIds;
      hide Voters;
      OnePlace(cfg, place);
      var won := ElectionTally(place);
      ok := true;
      if won {
        if preVoting {
          preVoting := false;
          BeginForgets(Abs(), cfg, []);
          ok := ElectionStart();
        } else {
          ok := ToLeader();
        }
      }
    }

    method RecvTimeoutNow(m: Msg) returns (ok: bool)
      requires Valid() && status != Unavailable && m.TimeoutNow?
      modifies this, votes
      ensures status != Unavailable && (ok ==> Shaped())
      ensures ok ==> Abs() == OnTimeoutNow(old(Abs()), cfg, m).0 && sent == old(sent) + OnTimeoutNow(old(Abs()), cfg, m).1
      ensures !ok ==> Leaves(old(Abs()), OnTimeoutNow(old(Abs()), cfg, m).0, Abs())
    {
      hide Stand;
      hide Requests;
      hide VoterIds;
      hide Voters;
      var i := IndexOf(cfg, id);
      IsVoter(cfg, i, id);
      if i == |cfg| || cfg[i].role != Voter || status != Follower || leader != m.src {
        return true;
      }
      var order;
      ok, order := EnsureMatchingTerms(m.term);
      if !ok || order < 0 {
        return;
      }
      if log.lastIndex != m.lastIndex || log.lastTerm != m.lastTerm || log.appending {
        return;
      }
      ok := ToCandidate(true);
    }

    /** A leader is never sent entries of its own term. */
    method RecvAppendEntries(m: Msg) returns (ok: bool)
      requires Valid() && status != Unavailable && m.AppendEntries? && !(status == Leader && m.term == term)
      modifies this
      ensures Shaped() && status != Unavailable && sent == old(sent)
      ensures Abs() == if ok then OnAppendEntries(old(Abs()), m) else old(Abs())
    {
      var order;
      ok, order := EnsureMatchingTerms(m.term);
      if !ok || order < 0 {
        return;
      }
      assert status == Follower || status == Candidate;
      assert term == m.term;
      if status == Candidate {
        assert order == 0;
        ToFollower();
      }
      leader := m.src;
    }

    method RecvAppendResult(m: Msg) returns (ok: bool)
      requires Valid() && status != Unavailable && m.AppendResult?
      modifies this
      ensures Shaped() && status != Unavailable && sent == old(sent)
      ensures Abs() == if ok then OnAppendResult(old(Abs()), m) else old(Abs())
    {
      ok := true;
      if status == Leader {
        var order;
        ok, order := EnsureMatchingTerms(m.term);
      }
    }

    /** Handle a message: on success exactly what the specification of the receiver says. */
    method RecvMessage(m: Msg) returns (ok: bool)
      requires Valid() && status != Unavailable && !(m.AppendEntries? && status == Leader && m.term == term) && !BeyondNext(m)
      modifies this, votes
      ensures status != Unavailable
      ensures ok ==> Shaped() && Abs() == Receive(old(Abs()), cfg, m).0 && sent == old(sent) + Receive(old(Abs()), cfg, m).1
      ensures !ok ==> Leaves(old(Abs()), Receive(old(Abs()), cfg, m).0, Abs())
    {
      hide OnRequestVote;
      hide OnVoteResult;
      hide OnAppendEntries;
      hide OnAppendResult;
      hide OnTimeoutNow;
      hide Sane;
      match m {
        case RequestVote(_, _, _, _, _, _, _) => ok := RecvRequestVote(m);
        case VoteResult(_, _, _, _, _) => ok := RecvVoteResult(m);
        case AppendEntries(_, _, _) => ok := RecvAppendEntries(m);
        case AppendResult(_, _, _) => ok := RecvAppendResult(m);
        case TimeoutNow(_, _, _, _, _) => ok := RecvTimeoutNow(m);
      }
      if ok && status == Follower && transfer != 0 && leader == transfer {
        transfer := 0;
      }
    }

    /** The callback for a message: a server that fails to handle one becomes unavailable,
      * and its disk holds what some crash would have left. */
    method RecvCb(m: Msg)
      requires Valid() && !(m.AppendEntries? && status == Leader && m.term == term) && !BeyondNext(m)
      modifies this, votes
      ensures old(status) == Unavailable ==> Abs() == old(Abs()) && sent == old(sent)
      ensures old(status) != Unavailable && status != Unavailable ==>
                && Shaped() && Abs() == Receive(old(Abs()), cfg, m).0 && sent == old(sent) + Receive(old(Abs()), cfg, m).1
      ensures old(status) != Unavailable && status == Unavailable ==> Leaves(old(Abs()), Receive(old(Abs()), cfg, m).0, Abs())
    {
      hide Receive;
      if status == Unavailable {
        return;
      }
      var ok := RecvMessage(m);
      if !ok {
        ToUnavailable();
      }
    }
  }

  function Asked(s: Server, v: nat): Msg {
    RequestVote(s.id, v, if s.preVoting then s.term + 1 else s.term, s.log.storedIndex, s.log.storedTerm, s.disrupt, s.preVoting)
  }

  /** A round starts with fresh votes. */
  lemma BeginForgets(s: Server, cfg: Members, votes: seq<bool>)
    ensures Begin(s, cfg) == Begin(s.(votes := votes), cfg) && Begin(s, cfg).status == s.status
  {
  }

  /** A server that fails while it handles a message leaves what one of the crashes of the
    * cluster leaves: before anything was stored, after the term, or after all of it. */
  lemma FailureIsCrash(c: Election.Cluster, m: Msg, s': Server)
    requires m in c.net && Election.Up(c, m.dst) && Sane(c.servers[m.dst], c.cfg)
    requires Leaves(c.servers[m.dst], Receive(c.servers[m.dst], c.cfg, m).0, s')
    ensures exists step :: Election.Enabled(c, step) && Crashes(Election.Outcome(c, step), m.dst, s')
  {
    hide Receive;
    var s := c.servers[m.dst];
    if s'.diskTerm == s.diskTerm && s'.diskVote == s.diskVote {
      assert Crashes(Election.Outcome(c, Election.Crash(m.dst)), m.dst, s');
    } else if s'.diskTerm > s.diskTerm && s'.diskVote == 0 {
      assert Crashes(Election.Outcome(c, Election.CrashInNewTerm(m.dst, s'.diskTerm)), m.dst, s');
    } else {
      assert Crashes(Election.Outcome(c, Election.Deliver(m, true)), m.dst, s');
    }
  }

  /** The server is down, has sent nothing, and has this on its disk. */
  predicate Crashes(r: (nat, Server, set<Msg>), i: nat, s': Server) {
    r.0 == i && r.1.status == Unavailable && r.2 == {} && r.1.diskTerm == s'.diskTerm && r.1.diskVote == s'.diskVote
  }

  /** The only voter asks nobody. */
  lemma SelfElected(s: Server, cfg: Members)
    requires |VoterIds(cfg)| == 1
    ensures Stand(s, cfg, false).status == Leader && Requests(Stand(s, cfg, false), cfg) == {}
  {
  }

  lemma OnePlace(cfg: Members, place: nat)
    requires Distinct(cfg) && place < |VoterIds(cfg)|
    ensures VoterPlace(cfg, VoterIds(cfg)[place]) == place
  {
    VoterIdsAre(cfg);
  }

  lemma RequestsAre(s: Server, cfg: Members)
    requires s.status == Candidate
    ensures Requests(s, cfg) == set k | 0 <= k < |cfg| && cfg[k].role == Voter && cfg[k].id != s.id :: Asked(s, cfg[k].id)
  {
    var a, b := Requests(s, cfg), set k | 0 <= k < |cfg| && cfg[k].role == Voter && cfg[k].id != s.id :: Asked(s, cfg[k].id);
    forall x | x in a ensures x in b {
      var v :| v in Voters(cfg) && v != s.id && x == Asked(s, v);
      var k :| 0 <= k < |cfg| && cfg[k].role == Voter && cfg[k].id == v;
    }
    forall x | x in b ensures x in a {
      var k :| 0 <= k < |cfg| && cfg[k].role == Voter && cfg[k].id != s.id && x == Asked(s, cfg[k].id);
      assert cfg[k].id in Voters(cfg);
    }
  }
}
