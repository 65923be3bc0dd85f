/** What one raft server does with terms, votes and roles: src/raft/election.c, recv.c,
  * convert.c, recv_request_vote.c, recv_request_vote_result.c, recv_timeout_now.c, and the
  * parts of recv_append_entries.c, recv_append_entries_result.c, tick.c and start.c that
  * take part in elections.
  *
  * The position of the log is whatever the rest of the program made it. The stored term
  * and vote are what a server finds when it starts again.
  */
module ElectionSpec {
  import opened Configuration

  datatype Status = Unavailable | Follower | Candidate | Leader

  /** The last entry in memory and the last one on disk; busy while a snapshot is being
    * installed, appending while entries are being written. */
  datatype Position = Position(
    lastIndex: nat, lastTerm: nat, storedIndex: nat, storedTerm: nat, busy: bool, appending: bool)

  datatype Server = Server(
    id: nat, term: nat, vote: nat, status: Status,
    votes: seq<bool>, preVoting: bool, disrupt: bool, leader: nat, transfer: nat,
    diskTerm: nat, diskVote: nat, preVote: bool, log: Position)

  datatype Msg =
    | RequestVote(src: nat, dst: nat, term: nat, lastIndex: nat, lastTerm: nat, disrupt: bool, preVote: bool)
    | VoteResult(src: nat, dst: nat, term: nat, granted: bool, preVote: bool)
    | AppendEntries(src: nat, dst: nat, term: nat)
    | AppendResult(src: nat, dst: nat, term: nat)
    | TimeoutNow(src: nat, dst: nat, term: nat, lastIndex: nat, lastTerm: nat)

  // Terms and roles.

  /** Step down, or come up. */
  function Follow(s: Server): Server {
    s.(status := Follower, leader := 0, votes := [])
  }

  /** A higher term was seen: store it without a vote, and step down. */
  function Bump(s: Server, term: nat): Server {
    var s' := s.(term := term, vote := 0, diskTerm := term, diskVote := 0);
    if s.status != Follower then Follow(s') else s'
  }

  function EnsureTerm(s: Server, term: nat): Server {
    if term > s.term then Bump(s, term) else s
  }

  function Lead(s: Server): Server {
    s.(status := Leader, leader := 0, votes := [])
  }

  /** Start an election round: a new term and a vote for itself, unless it is only asking
    * whether it would be voted for. */
  function Begin(s: Server, cfg: Members): Server {
    var s' := if s.preVoting then s else
                s.(term := s.term + 1, vote := s.id, diskTerm := s.term + 1, diskVote := s.id);
    s'.(votes := seq(|VoterIds(cfg)|, i requires 0 <= i < |VoterIds(cfg)| => VoterIds(cfg)[i] == s.id))
  }

  function Stand(s: Server, cfg: Members, disrupt: bool): Server {
    var s' := s.(status := Candidate, leader := 0, disrupt := disrupt, preVoting := !disrupt && s.preVote);
    if |VoterIds(cfg)| == 1 then Lead(s') else Begin(s', cfg)
  }

  /** The vote requests of a round that was just started. */
  function Requests(s: Server, cfg: Members): set<Msg> {
    if s.status != Candidate then {} else
      set v | v in Voters(cfg) && v != s.id ::
        RequestVote(s.id, v, if s.preVoting then s.term + 1 else s.term, s.log.storedIndex, s.log.storedTerm,
                    s.disrupt, s.preVoting)
  }

  // Votes.

  /** The log of a candidate is at least as up to date as the local one. */
  predicate UpToDate(s: Server, m: Msg)
    requires m.RequestVote?
  {
    || s.log.lastIndex == 0
    || m.lastTerm > s.log.lastTerm
    || (m.lastTerm == s.log.lastTerm && s.log.lastIndex <= m.lastIndex)
  }

  predicate Grants(s: Server, cfg: Members, m: Msg)
    requires m.RequestVote?
  {
    && s.id in Voters(cfg)
    && (m.preVote || s.vote == 0 || s.vote == m.src || (s.transfer != 0 && s.transfer == m.src))
    && UpToDate(s, m)
  }

  function AfterVote(s: Server, cfg: Members, m: Msg): Server
    requires m.RequestVote?
  {
    if Grants(s, cfg, m) && !m.preVote then s.(vote := m.src, diskVote := m.src) else s
  }

  predicate HasLeader(s: Server) {
    s.status == Leader || (s.status == Follower && s.leader != 0)
  }

  function Reply(s: Server, m: Msg, granted: bool): Msg
    requires m.RequestVote?
  {
    VoteResult(s.id, m.src, if m.preVote then m.term else s.term, granted, m.preVote)
  }

  function OnRequestVote(s: Server, cfg: Members, m: Msg): (Server, set<Msg>)
    requires m.RequestVote?
  {
    if HasLeader(s) && !m.disrupt then (s, {Reply(s, m, false)}) else
      var s' := if m.preVote then s else EnsureTerm(s, m.term);
      if s'.log.busy || m.term < s.term then (s', {Reply(s', m, false)})
      else (AfterVote(s', cfg, m), {Reply(s', m, Grants(s', cfg, m))})
  }

  function Tally(votes: seq<bool>): nat {
    if votes == [] then 0 else Tally(votes[..|votes| - 1]) + if votes[|votes| - 1] then 1 else 0
  }

  /** The place of a voter, or the number of voters. */
  function VoterPlace(cfg: Members, id: nat): (i: nat)
    ensures i <= |VoterIds(cfg)| && (i < |VoterIds(cfg)| ==> VoterIds(cfg)[i] == id)
    ensures i == |VoterIds(cfg)| ==> id !in VoterIds(cfg)
  {
    Find(VoterIds(cfg), id)
  }

  function Find(ids: seq<nat>, id: nat): (i: nat)
    ensures i <= |ids| && (i < |ids| ==> ids[i] == id)
    ensures i == |ids| ==> id !in ids
  {
    if ids == [] then 0
    else if ids[0] == id then 0
    else
      assert ids == [ids[0]] + ids[1..];
      1 + Find(ids[1..], id)
  }

  /** The result counts: it belongs to this round and grants the vote. */
  predicate Counts(s: Server, cfg: Members, m: Msg)
    requires m.VoteResult?
  {
    && s.status == Candidate && m.src in VoterIds(cfg) && |s.votes| == |VoterIds(cfg)|
    && m.preVote == s.preVoting && m.granted
    && (if s.preVoting then s.term <= m.term <= s.term + 1 else m.term == s.term)
  }

  function Counted(s: Server, cfg: Members, m: Msg): Server
    requires m.VoteResult? && Counts(s, cfg, m)
  {
    s.(votes := s.votes[VoterPlace(cfg, m.src) := true])
  }

  predicate Wins(s: Server, cfg: Members) {
    Tally(s.votes) >= |VoterIds(cfg)| / 2 + 1
  }

  function OnVoteResult(s: Server, cfg: Members, m: Msg): (Server, set<Msg>)
    requires m.VoteResult?
  {
    if m.src !in VoterIds(cfg) || s.status != Candidate then (s, {})
    else if !s.preVoting && m.term > s.term then (Bump(s, m.term), {})
    else if m.term < s.term || m.preVote != s.preVoting then (s, {})
    else if s.preVoting && m.term > s.term + 1 then (Bump(s, m.term), {})
    else if !m.granted || !Counts(s, cfg, m) then (s, {})
    else
      var s' := Counted(s, cfg, m);
      if !Wins(s', cfg) then (s', {})
      else if s.preVoting then
        var s'' := Begin(s'.(preVoting := false), cfg);
        (s'', Requests(s'', cfg))
      else (Lead(s'), {})
  }

  // Other messages.

  function OnAppendEntries(s: Server, m: Msg): Server
    requires m.AppendEntries?
  {
    if m.term < s.term then s else
      var s' := EnsureTerm(s, m.term);
      (if s'.status == Candidate then Follow(s') else s').(leader := m.src)
  }

  function OnAppendResult(s: Server, m: Msg): Server
    requires m.AppendResult?
  {
    if s.status != Leader then s else EnsureTerm(s, m.term)
  }

  function OnTimeoutNow(s: Server, cfg: Members, m: Msg): (Server, set<Msg>)
    requires m.TimeoutNow?
  {
    if s.id !in Voters(cfg) || s.status != Follower || s.leader != m.src || m.term < s.term then (s, {})
    else
      var s' := EnsureTerm(s, m.term);
      if s.log.lastIndex != m.lastIndex || s.log.lastTerm != m.lastTerm || s.log.appending then (s', {})
      else
        var s'' := Stand(s', cfg, true);
        (s'', Requests(s'', cfg))
  }

  /** A leadership transfer is over when its target is the leader. */
  function CloseTransfer(s: Server): Server {
    if s.status == Follower && s.transfer != 0 && s.leader == s.transfer then s.(transfer := 0) else s
  }

  function Receive(s: Server, cfg: Members, m: Msg): (Server, set<Msg>) {
    var r := match m
             case RequestVote(_, _, _, _, _, _, _) => OnRequestVote(s, cfg, m)
             case VoteResult(_, _, _, _, _) => OnVoteResult(s, cfg, m)
             case AppendEntries(_, _, _) => (OnAppendEntries(s, m), {})
             case AppendResult(_, _, _) => (OnAppendResult(s, m), {})
             case TimeoutNow(_, _, _, _, _) => OnTimeoutNow(s, cfg, m);
    (CloseTransfer(r.0), r.1)
  }

  // Starting again.

  function Restart(s: Server, cfg: Members): Server {
    var s' := Follow(s.(term := s.diskTerm, vote := s.diskVote, transfer := 0));
    if s.id in Voters(cfg) && |VoterIds(cfg)| == 1 then Stand(s', cfg, false) else s'
  }

  // What every server keeps.

  /** What is in memory is on disk, and a candidate is a voter with a vote per voter. */
  predicate Sane(s: Server, cfg: Members) {
    && s.id != 0
    && (s.status != Unavailable ==> s.term == s.diskTerm && s.vote == s.diskVote)
    && (s.status == Candidate ==>
          && s.id in Voters(cfg) && |VoterIds(cfg)| > 1 && |s.votes| == |VoterIds(cfg)|
          && (!s.preVoting ==> s.vote == s.id))
  }

  /** A stored vote is never changed within its term. */
  predicate Honest(s: Server, s': Server) {
    && s'.id == s.id
    && s.diskTerm <= s'.diskTerm
    && (s'.diskTerm == s.diskTerm && s.diskVote != 0 ==> s'.diskVote == s.diskVote)
  }

  /** A vote request that would make the server vote twice in its term: it already voted
    * for another server, and the one that asks is the target of its leadership transfer. */
  predicate VotesTwice(s: Server, cfg: Members, m: Msg) {
    && m.RequestVote? && !m.preVote && !(HasLeader(s) && !m.disrupt) && !s.log.busy
    && m.term == s.term && s.vote != 0 && s.vote != m.src
    && Grants(s, cfg, m)
  }

  lemma BeginSane(s: Server, cfg: Members)
    requires Sane(s, cfg) && s.status == Candidate
    ensures Sane(Begin(s, cfg), cfg) && Honest(s, Begin(s, cfg))
  {
  }

  /** Receiving a message keeps one vote per term, unless the transfer exception makes
    * the server vote twice: it breaks the rule exactly then. */
  lemma ReceiveHonest(s: Server, cfg: Members, m: Msg)
    requires Sane(s, cfg) && s.status != Unavailable && m.src != 0
    ensures !VotesTwice(s, cfg, m) ==> Sane(Receive(s, cfg, m).0, cfg)
    ensures Honest(s, Receive(s, cfg, m).0) <==> !VotesTwice(s, cfg, m)
  {
    hide VoterIds;
    hide Voters;
    hide OnRequestVote;
    hide OnVoteResult;
    hide OnTimeoutNow;
    hide OnAppendEntries;
    hide OnAppendResult;
    hide VotesTwice;
    NotRequested(s, cfg, m);
    match m
    case RequestVote(_, _, _, _, _, _, _) => RequestVoteHonest(s, cfg, m);
    case VoteResult(_, _, _, _, _) => VoteResultSane(s, cfg, m);
    case AppendEntries(_, _, _) => AppendHonest(s, cfg, m);
    case AppendResult(_, _, _) => AppendHonest(s, cfg, m);
    case TimeoutNow(_, _, _, _, _) => TimeoutNowSane(s, cfg, m);
  }

  lemma AppendHonest(s: Server, cfg: Members, m: Msg)
    requires Sane(s, cfg) && s.status != Unavailable
    ensures m.AppendEntries? ==> Sane(OnAppendEntries(s, m), cfg) && Honest(s, OnAppendEntries(s, m))
    ensures m.AppendResult? ==> Sane(OnAppendResult(s, m), cfg) && Honest(s, OnAppendResult(s, m))
  {
    hide VoterIds;
    hide Voters;
  }

  lemma NotRequested(s: Server, cfg: Members, m: Msg)
    ensures VotesTwice(s, cfg, m) ==> m.RequestVote?
  {
  }

  lemma RequestVoteHonest(s: Server, cfg: Members, m: Msg)
    requires Sane(s, cfg) && s.status != Unavailable && m.RequestVote? && m.src != 0
    ensures !VotesTwice(s, cfg, m) ==> Sane(OnRequestVote(s, cfg, m).0, cfg)
    ensures Honest(s, OnRequestVote(s, cfg, m).0) <==> !VotesTwice(s, cfg, m)
  {
    hide VoterIds;
    hide Voters;
  }

  lemma TimeoutNowSane(s: Server, cfg: Members, m: Msg)
    requires Sane(s, cfg) && s.status != Unavailable && m.TimeoutNow?
    ensures Sane(OnTimeoutNow(s, cfg, m).0, cfg) && Honest(s, OnTimeoutNow(s, cfg, m).0)
  {
    VoterIdsAreVoters(cfg);
    hide VoterIds;
    hide Voters;
    if s.id in Voters(cfg) && s.status == Follower && m.term >= s.term {
      var s' := EnsureTerm(s, m.term);
      StandSane(s', cfg, true);
    }
  }

  lemma StandSane(s: Server, cfg: Members, disrupt: bool)
    requires Sane(s, cfg) && s.status == Follower && s.id in Voters(cfg)
    ensures Sane(Stand(s, cfg, disrupt), cfg) && Honest(s, Stand(s, cfg, disrupt))
  {
    VoterIdsAreVoters(cfg);
  }

  lemma VoterIdsAreVoters(cfg: Members)
    ensures forall v :: v in VoterIds(cfg) <==> v in Voters(cfg)
  {
    VoterIdsAre(cfg);
  }

  lemma VoteResultSane(s: Server, cfg: Members, m: Msg)
    requires Sane(s, cfg) && s.status != Unavailable && m.VoteResult?
    ensures Sane(OnVoteResult(s, cfg, m).0, cfg) && Honest(s, OnVoteResult(s, cfg, m).0)
  {
    hide VoterIds;
    hide Voters;
    hide Tally;
  }

  lemma RestartSane(s: Server, cfg: Members)
    requires Sane(s, cfg)
    ensures Sane(Restart(s, cfg), cfg) && Honest(s, Restart(s, cfg))
  {
    hide VoterIds;
    hide Voters;
    var s' := Follow(s.(term := s.diskTerm, vote := s.diskVote, transfer := 0));
    if s.id in Voters(cfg) {
      StandSane(s', cfg, false);
    }
  }
}
