/** The configuration of a follower (src/raft/membership.c, src/raft/replication.c,
  * src/raft/snapshot.c): taken from the log as soon as an entry is stored, given up again
  * when the entry is truncated, and backed by a snapshot when the log loses its prefix.
  *
  * The log is kept whole here; of its entries, the first dropped ones are no longer in
  * memory. Storing entries and learning what is committed is one step, as in the code.
  */
module Follower {
  import opened Bytes
  import opened Configuration
  import opened ConfigurationCodec

  datatype Entry = Change(data: seq<byte>) | Other
  datatype Pending = Nothing | Taken(index: nat, configuration: Members)

  datatype State = State(
    log: seq<Entry>, dropped: nat, applied: nat,
    configuration: Members, uncommitted: nat, committed: nat, lastSnapshot: Members, pending: Pending)

  datatype Step =
    | Store(entries: seq<Entry>, commit: nat)
    | Truncate(index: nat)
    | Take
    | Put(trailing: nat)
    | PutFails
    | Install(log: seq<Entry>)

  // What the steps do.

  predicate IsChange(log: seq<Entry>, i: nat) {
    0 < i <= |log| && log[i - 1].Change? && Decode(log[i - 1].data).Fine?
  }

  function ConfigurationAt(log: seq<Entry>, i: nat): Members
    requires IsChange(log, i)
  {
    Decode(log[i - 1].data).members
  }

  /** The last configuration entry among the first n, or zero. */
  function LastChange(log: seq<Entry>, n: nat): (i: nat)
    requires n <= |log|
    ensures i <= n && (i > 0 ==> IsChange(log, i))
    ensures forall k {:trigger IsChange(log, k)} :: i < k <= n ==> !IsChange(log, k)
  {
    if n == 0 then 0 else if IsChange(log, n) then n else LastChange(log, n - 1)
  }

  /** The last committed configuration, from the log or from the snapshot. */
  function LastCommitted(s: State): Decoded {
    if s.dropped < s.committed <= |s.log| then
      if s.log[s.committed - 1].Change? then Decode(s.log[s.committed - 1].data) else Malformed
    else Fine(s.lastSnapshot)
  }

  function UncommittedChange(s: State, i: nat): State
    requires IsChange(s.log, i)
  {
    s.(configuration := ConfigurationAt(s.log, i), uncommitted := i)
  }

  /** Use the configurations among the entries from index i on. */
  function UncommittedFrom(s: State, i: nat): (r: State)
    requires 0 < i <= |s.log| + 1
    ensures r == s.(configuration := r.configuration, uncommitted := r.uncommitted)
    decreases |s.log| + 1 - i
  {
    if i > |s.log| then s
    else UncommittedFrom(if IsChange(s.log, i) then UncommittedChange(s, i) else s, i + 1)
  }

  function ApplyOne(s: State): State
    requires s.applied < |s.log|
  {
    var i := s.applied + 1;
    if s.log[i - 1].Change?
    then s.(applied := i, committed := i, uncommitted := if s.uncommitted == i then 0 else s.uncommitted)
    else s.(applied := i)
  }

  function ApplyTo(s: State, n: nat): State
    requires n <= |s.log|
    decreases n - s.applied
  {
    if n <= s.applied then s else ApplyTo(ApplyOne(s), n)
  }

  function Rollback(s: State): State
    requires LastCommitted(s).Fine?
  {
    s.(configuration := LastCommitted(s).members, uncommitted := 0)
  }

  /** A leader's entries decode: see DecodeEncode. */
  predicate Enabled(s: State, step: Step) {
    match step
    case Store(entries, commit) => Decodable(entries) && commit <= |s.log| + |entries|
    case Truncate(i) => s.applied < i <= |s.log| && (s.uncommitted >= i ==> s.committed > 0 && LastCommitted(s).Fine?)
    case Take => s.pending == Nothing && s.applied > 0 && LastCommitted(s).Fine?
    case Put(trailing) => s.pending != Nothing
    case PutFails => s.pending != Nothing
    case Install(log) => s.pending == Nothing && s.applied < |log| && GoodLog(log)
  }

  predicate Decodable(log: seq<Entry>) {
    forall e :: e in log && e.Change? ==> Decode(e.data).Fine?
  }

  /** The log begins with the configuration it was bootstrapped with. */
  predicate GoodLog(log: seq<Entry>) {
    Decodable(log) && IsChange(log, 1)
  }

  function Apply(s: State, step: Step): State
    requires Enabled(s, step)
  {
    match step
    case Store(entries, commit) =>
      ApplyTo(UncommittedFrom(s.(log := s.log + entries), |s.log| + 1), commit)
    case Truncate(i) =>
      (if s.uncommitted >= i then Rollback(s) else s).(log := s.log[..i - 1])
    case Take => s.(pending := Taken(s.applied, LastCommitted(s).members))
    case Put(trailing) =>
      s.(lastSnapshot := s.pending.configuration, pending := Nothing,
         dropped := if s.pending.index > trailing + s.dropped then s.pending.index - trailing else s.dropped)
    case PutFails => s.(pending := Nothing)
    case Install(log) =>
      var i := LastChange(log, |log|);
      LastChangeFound(log, |log|);
      var c := ConfigurationAt(log, i);
      State(log, |log|, |log|, c, 0, i, c, Nothing)
  }

  lemma LastChangeFound(log: seq<Entry>, n: nat)
    requires IsChange(log, 1) && 0 < n <= |log|
    ensures LastChange(log, n) > 0
  {
  }

  // What holds after every run.

  /** The configuration to fall back to is the last one committed, wherever it is kept. */
  ghost predicate Backed(s: State) {
    && GoodLog(s.log) && s.dropped <= s.applied && 0 < s.applied <= |s.log|
    && s.committed == LastChange(s.log, s.applied) && s.committed > 0
    && LastCommitted(s) == Fine(ConfigurationAt(s.log, s.committed))
    && (s.uncommitted > 0 ==> s.applied < s.uncommitted && IsChange(s.log, s.uncommitted))
    && (s.pending.Taken? ==> Snapped(s))
  }

  ghost predicate Snapped(s: State)
    requires s.pending.Taken? && s.applied <= |s.log| && GoodLog(s.log)
  {
    && 0 < s.pending.index <= s.applied && s.dropped <= s.pending.index && LastChange(s.log, s.pending.index) > 0
    && s.pending.configuration == ConfigurationAt(s.log, LastChange(s.log, s.pending.index))
  }

  /** The configuration in use is the latest of the log, marked if it is not committed. */
  ghost predicate Tracks(s: State) {
    var last := LastChange(s.log, |s.log|);
    && last > 0 && s.configuration == ConfigurationAt(s.log, last)
    && s.uncommitted == if s.applied < last then last else 0
  }

  // The log.

  lemma LastSame(a: seq<Entry>, b: seq<Entry>, n: nat)
    requires 0 < n <= |a| && n <= |b| && a[..n] == b[..n]
    ensures a[n - 1] == b[n - 1] && a[..n - 1] == b[..n - 1]
  {
    assert a[n - 1] == a[..n][n - 1] && b[n - 1] == b[..n][n - 1];
    assert a[..n - 1] == a[..n][..n - 1] && b[..n - 1] == b[..n][..n - 1];
  }

  lemma {:induction false} LastChangeSame(a: seq<Entry>, b: seq<Entry>, n: nat)
    requires n <= |a| && n <= |b| && a[..n] == b[..n]
    ensures LastChange(a, n) == LastChange(b, n)
    ensures LastChange(a, n) > 0 ==>
              ConfigurationAt(a, LastChange(a, n)) == ConfigurationAt(b, LastChange(b, n))
  {
    hide Decode;
    if n > 0 {
      LastSame(a, b, n);
      LastChangeSame(a, b, n - 1);
    }
  }

  lemma LastChangeMonotone(log: seq<Entry>, m: nat, n: nat)
    requires m <= n <= |log|
    ensures LastChange(log, m) <= LastChange(log, n)
    ensures LastChange(log, n) <= m ==> LastChange(log, m) == LastChange(log, n)
  {
    var i, j := LastChange(log, m), LastChange(log, n);
    assert i > 0 ==> IsChange(log, i);
    assert j > 0 ==> IsChange(log, j);
  }

  lemma ChangesDecode(log: seq<Entry>, i: nat)
    requires Decodable(log) && 0 < i <= |log| && log[i - 1].Change?
    ensures IsChange(log, i)
  {
    assert log[i - 1] in log;
  }

  // Storing entries.

  lemma {:induction false} UncommittedFromIs(s: State, i: nat)
    requires 0 < i <= |s.log| + 1
    ensures var last := LastChange(s.log, |s.log|);
            UncommittedFrom(s, i) == if i <= last then UncommittedChange(s, last) else s
    decreases |s.log| + 1 - i
  {
    hide IsChange;
    if i <= |s.log| {
      var next := if IsChange(s.log, i) then UncommittedChange(s, i) else s;
      UncommittedFromIs(next, i + 1);
    }
  }

  lemma {:induction false} ApplyToIs(s: State, n: nat)
    requires Decodable(s.log) && s.applied <= n <= |s.log| && s.committed == LastChange(s.log, s.applied)
    requires s.uncommitted > 0 ==> IsChange(s.log, s.uncommitted)
    ensures ApplyTo(s, n) == s.(applied := n, committed := LastChange(s.log, n),
                                uncommitted := if s.applied < s.uncommitted <= n then 0 else s.uncommitted)
    decreases n - s.applied
  {
    hide Decode;
    if s.applied < n {
      var next := ApplyOne(s);
      if s.log[s.applied].Change? {
        ChangesDecode(s.log, s.applied + 1);
      }
      assert next.committed == LastChange(s.log, s.applied + 1);
      ApplyToIs(next, n);
    }
  }

  /** What storing entries comes to. */
  lemma StoreIs(s: State, entries: seq<Entry>, commit: nat)
    requires Backed(s) && Enabled(s, Store(entries, commit))
    ensures var log := s.log + entries;
            var last, n := LastChange(log, |log|), if commit > s.applied then commit else s.applied;
            var u := if last > |s.log| then last else s.uncommitted;
            Apply(s, Store(entries, commit)) ==
              s.(log := log, applied := n, committed := LastChange(log, n), uncommitted := if u <= n then 0 else u,
                 configuration := if last > |s.log| then ConfigurationAt(log, last) else s.configuration)
  {
    hide IsChange;
    hide LastChange;
    hide ConfigurationAt;
    hide Snapped;
    hide LastCommitted;
    hide GoodLog;
    hide ApplyTo;
    hide UncommittedFrom;
    var log := s.log + entries;
    GoodLogGrows(s.log, entries);
    UncommittedFromIs(s.(log := log), |s.log| + 1);
    var s2 := UncommittedFrom(s.(log := log), |s.log| + 1);
    StoreKeepsOld(s, entries, s.applied);
    if s.uncommitted > 0 {
      ChangeStays(s.log, entries, s.uncommitted);
    }
    ApplyToIs(s2, if commit > s.applied then commit else s.applied);
    ApplyToLess(s2, commit);
  }

  lemma ApplyToLess(s: State, n: nat)
    requires n <= |s.log|
    ensures n <= s.applied ==> ApplyTo(s, n) == s
  {
  }

  lemma ChangeStays(log: seq<Entry>, entries: seq<Entry>, i: nat)
    requires IsChange(log, i)
    ensures IsChange(log + entries, i) && ConfigurationAt(log + entries, i) == ConfigurationAt(log, i)
  {
    assert (log + entries)[i - 1] == log[i - 1];
  }

  lemma StoreKeepsOld(s: State, entries: seq<Entry>, n: nat)
    requires n <= |s.log|
    ensures LastChange(s.log + entries, n) == LastChange(s.log, n)
    ensures LastChange(s.log, n) > 0 ==>
              ConfigurationAt(s.log + entries, LastChange(s.log, n)) == ConfigurationAt(s.log, LastChange(s.log, n))
  {
    assert (s.log + entries)[..n] == s.log[..n];
    LastChangeSame(s.log, s.log + entries, n);
  }

  lemma GoodLogGrows(a: seq<Entry>, b: seq<Entry>)
    requires GoodLog(a) && Decodable(b)
    ensures GoodLog(a + b)
  {
    assert (a + b)[0] == a[0];
  }

  lemma StoreBacked(s: State, entries: seq<Entry>, commit: nat)
    requires Backed(s) && Enabled(s, Store(entries, commit))
    ensures Backed(Apply(s, Store(entries, commit)))
  {
    hide IsChange;
    hide Apply;
    hide LastChange;
    hide ConfigurationAt;
    hide GoodLog;
    hide LastCommitted;
    var s' := Apply(s, Store(entries, commit));
    StoreIs(s, entries, commit);
    GoodLogGrows(s.log, entries);
    if s.uncommitted > 0 {
      ChangeStays(s.log, entries, s.uncommitted);
    }
    StoreKeepsOld(s, entries, s.applied);
    LastChangeMonotone(s'.log, s.applied, s'.applied);
    StoreFallback(s, s');
    if s.pending.Taken? {
      StoreKeepsOld(s, entries, s.pending.index);
    }
  }

  lemma StoreFallback(s: State, s': State)
    requires s.log <= s'.log && s'.dropped == s.dropped && s'.lastSnapshot == s.lastSnapshot
    requires IsChange(s.log, s.committed) && LastCommitted(s) == Fine(ConfigurationAt(s.log, s.committed))
    requires IsChange(s'.log, s'.committed) && (s'.committed == s.committed || s'.committed > s.dropped)
    ensures LastCommitted(s') == Fine(ConfigurationAt(s'.log, s'.committed))
  {
    hide Decode;
    if s'.committed == s.committed {
      assert s'.log[s.committed - 1] == s.log[s.committed - 1];
    }
  }

  // One step.

  /** A truncation that drops the configuration in use while the log keeps another one
    * that is not committed either. */
  ghost predicate Skips(s: State, step: Step) {
    && step.Truncate? && 0 < step.index <= |s.log| && s.uncommitted >= step.index
    && LastChange(s.log, step.index - 1) > s.applied
  }

  lemma GoodLogCut(log: seq<Entry>, n: nat)
    requires GoodLog(log) && 0 < n <= |log|
    ensures GoodLog(log[..n])
  {
    assert forall e :: e in log[..n] ==> e in log;
  }

  lemma TruncateBacked(s: State, i: nat)
    requires Backed(s) && Enabled(s, Truncate(i))
    ensures Backed(Apply(s, Truncate(i)))
  {
    hide Decode;
    hide LastChange;
    var s' := Apply(s, Truncate(i));
    GoodLogCut(s.log, i - 1);
    assert s'.log[..s.applied] == s.log[..s.applied];
    LastChangeSame(s.log, s'.log, s.applied);
    if s.pending.Taken? {
      assert s'.log[..s.pending.index] == s.log[..s.pending.index];
      LastChangeSame(s.log, s'.log, s.pending.index);
    }
  }

  /** A snapshot's configuration is the last committed one once the log lost that entry. */
  lemma PutBacked(s: State, trailing: nat)
    requires Backed(s) && Enabled(s, Put(trailing))
    ensures Backed(Apply(s, Put(trailing)))
  {
    hide Decode;
    hide LastChange;
    LastChangeMonotone(s.log, s.pending.index, s.applied);
  }

  /** Every step keeps the last committed configuration within reach. */
  lemma StepBacked(s: State, step: Step)
    requires Backed(s) && Enabled(s, step)
    ensures Backed(Apply(s, step))
  {
    hide Decode;
    match step
    case Store(entries, commit) => StoreBacked(s, entries, commit);
    case Truncate(i) => TruncateBacked(s, i);
    case Put(trailing) => PutBacked(s, trailing);
    case Install(log) => LastChangeFound(log, |log|);
    case _ =>
  }

  lemma StoreTracks(s: State, entries: seq<Entry>, commit: nat)
    requires Backed(s) && Tracks(s) && Enabled(s, Store(entries, commit))
    ensures Tracks(Apply(s, Store(entries, commit)))
  {
    hide Decode;
    hide Apply;
    hide LastChange;
    StoreIs(s, entries, commit);
    var log := s.log + entries;
    assert log[..|s.log|] == s.log[..|s.log|];
    LastChangeSame(s.log, log, |s.log|);
    LastChangeMonotone(log, |s.log|, |log|);
  }

  lemma TruncateTracks(s: State, i: nat)
    requires Backed(s) && Tracks(s) && Enabled(s, Truncate(i))
    ensures Tracks(Apply(s, Truncate(i))) <==> !Skips(s, Truncate(i))
  {
    hide Decode;
    hide LastChange;
    hide GoodLog;
    hide Snapped;
    var log := s.log[..i - 1];
    assert log[..i - 1] == s.log[..i - 1];
    LastChangeSame(s.log, log, i - 1);
    LastChangeMonotone(s.log, i - 1, |s.log|);
    LastChangeMonotone(s.log, s.applied, i - 1);
  }

  /** A step keeps the configuration in use the latest of the log exactly when it does not
    * roll back past a configuration that stays in the log. */
  lemma StepTracks(s: State, step: Step)
    requires Backed(s) && Tracks(s) && Enabled(s, step)
    ensures Tracks(Apply(s, step)) <==> !Skips(s, step)
  {
    hide Decode;
    match step
    case Store(entries, commit) => StoreTracks(s, entries, commit);
    case Truncate(i) => TruncateTracks(s, i);
    case Install(log) => LastChangeFound(log, |log|);
    case _ =>
  }

  /** Truncating the entry of a configuration undoes its use exactly when no other
    * configuration was waiting to be committed. */
  lemma RollbackUndoes(s: State, data: seq<byte>)
    requires Backed(s) && Tracks(s) && Decode(data).Fine?
    ensures var step := Store([Change(data)], 0);
            && Enabled(s, step) && Enabled(Apply(s, step), Truncate(|s.log| + 1))
            && Apply(s, step).configuration == Decode(data).members
            && (Apply(Apply(s, step), Truncate(|s.log| + 1)) == s <==> s.uncommitted == 0)
  {
    hide Decode;
    hide LastChange;
    hide IsChange;
    hide Apply;
    hide LastCommitted;
    hide ConfigurationAt;
    var step := Store([Change(data)], 0);
    StoredChange(s, data);
    StoreBacked(s, [Change(data)], 0);
    var s1 := Apply(s, step);
    TruncateIs(s1, |s.log| + 1);
    ChangeStays(s.log, [Change(data)], s.committed);
    LastChangeMonotone(s.log, s.applied, |s.log|);
    assert s1.log[..|s.log|] == s.log;
  }

  lemma StoredChange(s: State, data: seq<byte>)
    requires Backed(s) && Decode(data).Fine?
    ensures Enabled(s, Store([Change(data)], 0))
    ensures Apply(s, Store([Change(data)], 0)) ==
              s.(log := s.log + [Change(data)], configuration := Decode(data).members, uncommitted := |s.log| + 1)
  {
    hide Decode;
    hide LastChange;
    hide ApplyTo;
    hide UncommittedFrom;
    hide Snapped;
    hide LastCommitted;
    StoreIs(s, [Change(data)], 0);
    LastIsLast(s.log, data);
    StoreKeepsOld(s, [Change(data)], s.applied);
  }

  lemma LastIsLast(log: seq<Entry>, data: seq<byte>)
    requires Decode(data).Fine?
    ensures var log' := log + [Change(data)];
            LastChange(log', |log'|) == |log'| && ConfigurationAt(log', |log'|) == Decode(data).members
  {
  }

  lemma TruncateIs(s: State, i: nat)
    requires Backed(s) && Enabled(s, Truncate(i))
    ensures Apply(s, Truncate(i)) ==
              if s.uncommitted < i then s.(log := s.log[..i - 1])
              else s.(log := s.log[..i - 1], configuration := ConfigurationAt(s.log, s.committed), uncommitted := 0)
  {
  }

  // Runs.

  ghost predicate Runs(s: State, steps: seq<Step>)
    decreases |steps|
  {
    steps == [] || (Enabled(s, steps[0]) && Runs(Apply(s, steps[0]), steps[1..]))
  }

  function Run(s: State, steps: seq<Step>): State
    requires Runs(s, steps)
    decreases |steps|
  {
    if steps == [] then s else Run(Apply(s, steps[0]), steps[1..])
  }

  /** A server whose log holds the configuration it was bootstrapped with. */
  function Bootstrapped(data: seq<byte>): State
    requires Decode(data).Fine?
  {
    var c := Decode(data).members;
    State([Change(data)], 0, 1, c, 0, 1, c, Nothing)
  }

  lemma BootstrappedTracks(data: seq<byte>)
    requires Decode(data).Fine?
    ensures Backed(Bootstrapped(data)) && Tracks(Bootstrapped(data))
  {
    hide Decode;
    assert IsChange([Change(data)], 1);
  }

  /** Over every run, what a rollback or a snapshot uses is the last committed configuration. */
  lemma {:induction false} RunBacked(s: State, steps: seq<Step>)
    requires Backed(s) && Runs(s, steps)
    ensures Backed(Run(s, steps))
    decreases |steps|
  {
    hide Apply;
    hide Enabled;
    hide Backed;
    if steps != [] {
      StepBacked(s, steps[0]);
      RunBacked(Apply(s, steps[0]), steps[1..]);
    }
  }

  /** A step leaves entry i in memory unless it stores a snapshot that was taken so many entries
    * later, or installs one that covers it. */
  predicate Spares(s: State, step: Step, i: nat)
    requires Enabled(s, step)
  {
    match step
    case Put(trailing) => s.pending.index < i + trailing
    case Install(log) => |log| < i
    case _ => true
  }

  ghost predicate AlwaysSpares(s: State, steps: seq<Step>, i: nat)
    requires Runs(s, steps)
    decreases |steps|
  {
    steps == [] || (Spares(s, steps[0], i) && AlwaysSpares(Apply(s, steps[0]), steps[1..], i))
  }

  lemma StepTrims(s: State, step: Step, i: nat)
    requires Backed(s) && Enabled(s, step)
    ensures Apply(s, step).dropped < i <==> s.dropped < i && Spares(s, step, i)
  {
    hide Decode;
    hide LastChange;
    if step.Store? {
      StoreIs(s, step.entries, step.commit);
    }
  }

  /** Over every run, entry i is still in memory exactly when it was at first and every step
    * spared it. */
  lemma {:induction false} RunTrims(s: State, steps: seq<Step>, i: nat)
    requires Backed(s) && Runs(s, steps)
    ensures Run(s, steps).dropped < i <==> s.dropped < i && AlwaysSpares(s, steps, i)
    decreases |steps|
  {
    hide Apply;
    hide Enabled;
    hide Backed;
    hide Spares;
    if steps != [] {
      StepBacked(s, steps[0]);
      StepTrims(s, steps[0], i);
      RunTrims(Apply(s, steps[0]), steps[1..], i);
    }
  }

  ghost predicate AlwaysTracks(s: State, steps: seq<Step>)
    requires Runs(s, steps)
    decreases |steps|
  {
    Tracks(s) && (steps != [] ==> AlwaysTracks(Apply(s, steps[0]), steps[1..]))
  }

  ghost predicate NeverSkips(s: State, steps: seq<Step>)
    requires Runs(s, steps)
    decreases |steps|
  {
    steps != [] ==> !Skips(s, steps[0]) && NeverSkips(Apply(s, steps[0]), steps[1..])
  }

  /** In every state of a run the configuration in use is the latest of the log, exactly
    * when no truncation rolls back past a configuration that stays in the log. */
  lemma {:induction false} RunTracks(s: State, steps: seq<Step>)
    requires Backed(s) && Tracks(s) && Runs(s, steps)
    ensures AlwaysTracks(s, steps) <==> NeverSkips(s, steps)
    decreases |steps|
  {
    hide Apply;
    hide Enabled;
    hide Backed;
    hide Tracks;
    hide Skips;
    if steps != [] {
      StepBacked(s, steps[0]);
      StepTracks(s, steps[0]);
      if Tracks(Apply(s, steps[0])) {
        RunTracks(Apply(s, steps[0]), steps[1..]);
      }
    }
  }

  /** Leaders make one change at a time: the log holds one that is not committed at most. */
  ghost predicate OneAtATime(s: State) {
    forall i: nat, j: nat :: IsChange(s.log, i) && IsChange(s.log, j) && i > s.applied && j > s.applied ==> i == j
  }

  ghost predicate AlwaysOneAtATime(s: State, steps: seq<Step>)
    requires Runs(s, steps)
    decreases |steps|
  {
    OneAtATime(s) && (steps != [] ==> AlwaysOneAtATime(Apply(s, steps[0]), steps[1..]))
  }

  /** Then no truncation rolls back too far. */
  lemma {:induction false} OneAtATimeTracks(s: State, steps: seq<Step>)
    requires Backed(s) && Runs(s, steps) && AlwaysOneAtATime(s, steps)
    ensures NeverSkips(s, steps)
    decreases |steps|
  {
    hide Apply;
    hide Enabled;
    if steps != [] {
      StepBacked(s, steps[0]);
      OneAtATimeTracks(Apply(s, steps[0]), steps[1..]);
    }
  }

  /** With two configurations waiting, truncating the second rolls back past the first; when
    * the first is committed, neither it nor anything later in the log is in use. */
  lemma RollbackSkipsOne(c0: Members, c1: Members, c2: Members)
    requires Distinct(c0) && Encodable(c0) && Distinct(c1) && Encodable(c1) && Distinct(c2) && Encodable(c2)
    ensures Decode(Encode(c0)) == Fine(c0)
    ensures var s := Bootstrapped(Encode(c0));
            var steps := [Store([Change(Encode(c1)), Change(Encode(c2))], 1), Truncate(3), Store([], 2)];
            && Runs(s, steps) && !NeverSkips(s, steps)
            && var e := Run(s, steps);
               e.committed == 2 && LastCommitted(e) == Fine(c1) && e.configuration == c0 && e.uncommitted == 0
  {
    hide Decode;
    hide Encode;
    hide Distinct;
    hide Encodable;
    hide Apply;
    hide Enabled;
    hide Skips;
    DecodeAlone(c0);
    DecodeAlone(c1);
    DecodeAlone(c2);
    var a, b, c := Change(Encode(c0)), Change(Encode(c1)), Change(Encode(c2));
    SkipsOne(a, b, c);
    var s1 := State([a, b, c], 0, 1, c2, 3, 1, c0, Nothing);
    var s2 := State([a, b], 0, 1, c0, 0, 1, c0, Nothing);
    var p1, p2 := [Store([], 2)], [Truncate(3), Store([], 2)];
    var steps := [Store([b, c], 1), Truncate(3), Store([], 2)];
    assert p2[1..] == p1 && steps[1..] == p2;
    assert Runs(s2, p1) && Run(s2, p1) == s2.(applied := 2, committed := 2);
    assert Runs(s1, p2) && Run(s1, p2) == s2.(applied := 2, committed := 2) && !NeverSkips(s1, p2);
  }

  lemma SkipsOne(a: Entry, b: Entry, c: Entry)
    requires a.Change? && b.Change? && c.Change?
    requires Decode(a.data).Fine? && Decode(b.data).Fine? && Decode(c.data).Fine?
    ensures var c0 := Decode(a.data).members;
            var s0 := Bootstrapped(a.data);
            var s1 := State([a, b, c], 0, 1, Decode(c.data).members, 3, 1, c0, Nothing);
            var s2 := State([a, b], 0, 1, c0, 0, 1, c0, Nothing);
            && Enabled(s0, Store([b, c], 1)) && Apply(s0, Store([b, c], 1)) == s1
            && Skips(s1, Truncate(3)) && Enabled(s1, Truncate(3)) && Apply(s1, Truncate(3)) == s2
            && Enabled(s2, Store([], 2)) && Apply(s2, Store([], 2)) == s2.(applied := 2, committed := 2)
            && LastCommitted(s2.(applied := 2, committed := 2)) == Decode(b.data)
  {
    hide Decode;
    hide ApplyTo;
    hide UncommittedFrom;
    ThreeChanges(a, b, c);
    var c0 := Decode(a.data).members;
    var s0 := Bootstrapped(a.data);
    BootstrappedTracks(a.data);
    StoreIs(s0, [b, c], 1);
    assert s0.log + [b, c] == [a, b, c] && [a, b, c][..2] == [a, b];
    var s2 := State([a, b], 0, 1, c0, 0, 1, c0, Nothing);
    assert Backed(s2);
    StoreIs(s2, [], 2);
    assert s2.log + [] == [a, b];
  }

  lemma DecodeAlone(c: Members)
    requires Distinct(c) && Encodable(c)
    ensures Decode(Encode(c)) == Fine(c)
  {
    DecodeEncode(c, []);
    assert Encode(c) + [] == Encode(c);
  }

  lemma ThreeChanges(a: Entry, b: Entry, c: Entry)
    requires a.Change? && b.Change? && c.Change?
    requires Decode(a.data).Fine? && Decode(b.data).Fine? && Decode(c.data).Fine?
    ensures LastChange([a, b, c], 3) == 3 && LastChange([a, b, c], 2) == 2 && LastChange([a, b, c], 1) == 1
    ensures LastChange([a, b], 2) == 2 && LastChange([a, b], 1) == 1
  {
    hide Decode;
    var l, m := [a, b, c], [a, b];
    assert IsChange(l, 3) && IsChange(l, 2) && IsChange(l, 1);
    assert IsChange(m, 2) && IsChange(m, 1);
  }

  // The code.

  class Server {
    var log: seq<Entry>
    var dropped: nat
    var applied: nat
    var configuration: Members
    var uncommitted: nat
    var committed: nat
    var lastSnapshot: Members
    var pending: Pending

    ghost function View(): State
      reads this
    {
      State(log, dropped, applied, configuration, uncommitted, committed, lastSnapshot, pending)
    }

    constructor (data: seq<byte>)
      requires Decode(data).Fine?
      ensures View() == Bootstrapped(data)
    {
      log, dropped, applied, uncommitted, committed, pending := [Change(data)], 0, 1, 0, 1, Nothing;
      var r := DecodeBuf(data);
      configuration, lastSnapshot := r.members, r.members;
    }

    method FetchLastCommitted() returns (r: Decoded)
      ensures r == LastCommitted(View())
    {
      if dropped < committed <= |log| {
        match log[committed - 1]
        case Change(data) => r := DecodeBuf(data);
        case Other => r := Malformed;
      } else {
        r := Fine(lastSnapshot);
      }
    }

    /** An entry that does not decode changes nothing. */
    method UseChange(index: nat, data: seq<byte>) returns (ok: bool)
      requires 0 < index <= |log| && log[index - 1] == Change(data)
      modifies this`configuration, this`uncommitted
      ensures ok == Decode(data).Fine?
      ensures View() == if ok then UncommittedChange(old(View()), index) else old(View())
    {
      var r := DecodeBuf(data);
      if !r.Fine? {
        return false;
      }
      configuration := r.members;
      uncommitted := index;
      ok := true;
    }

    method RollBack()
      requires uncommitted > 0 && committed > 0 && LastCommitted(View()).Fine?
      modifies this`configuration, this`uncommitted
      ensures View() == Rollback(old(View()))
    {
      var r := FetchLastCommitted();
      configuration := r.members;
      uncommitted := 0;
    }

    method ApplyChange(index: nat)
      requires index == applied + 1 && applied < |log| && log[applied].Change?
      modifies this`uncommitted, this`committed, this`applied
      ensures View() == ApplyOne(old(View()))
    {
      if uncommitted == index {
        uncommitted := 0;
      }
      committed := index;
      applied := index;
    }

    method UseChanges(first: nat)
      requires Decodable(log) && 0 < first <= |log| + 1
      modifies this`configuration, this`uncommitted
      ensures View() == UncommittedFrom(old(View()), first)
    {
      hide Decode;
      ghost var s := View();
      for i := first to |log| + 1
        invariant View() == s.(configuration := configuration, uncommitted := uncommitted)
        invariant UncommittedFrom(View(), i) == UncommittedFrom(s, first)
      {
        match log[i - 1]
        case Change(data) =>
          ChangesDecode(log, i);
          var ok := UseChange(i, data);
        case Other =>
      }
    }

    method ApplyUpTo(commit: nat)
      requires commit <= |log|
      modifies this`uncommitted, this`committed, this`applied
      ensures View() == ApplyTo(old(View()), commit)
    {
      while applied < commit
        invariant ApplyTo(View(), commit) == ApplyTo(old(View()), commit)
        decreases commit - applied
      {
        if log[applied].Change? {
          ApplyChange(applied + 1);
        } else {
          applied := applied + 1;
        }
      }
    }

    /** Entries were stored, and the leader said which are committed. */
    method Stored(entries: seq<Entry>, leaderCommit: nat)
      requires Decodable(log) && Decodable(entries)
      modifies this
      ensures var last := old(|log|) + |entries|;
              View() == Apply(old(View()), Store(entries, if leaderCommit < last then leaderCommit else last))
    {
      hide Decode;
      var first := |log| + 1;
      log := log + entries;
      UseChanges(first);
      ApplyUpTo(if leaderCommit < |log| then leaderCommit else |log|);
    }

    method DeleteConflicting(index: nat)
      requires Enabled(View(), Truncate(index))
      modifies this
      ensures View() == Apply(old(View()), Truncate(index))
    {
      if uncommitted >= index {
        RollBack();
      }
      log := log[..index - 1];
    }

    method TakeSnapshot()
      requires Enabled(View(), Take)
      modifies this`pending
      ensures View() == Apply(old(View()), Take)
    {
      var r := FetchLastCommitted();
      pending := Taken(applied, r.members);
    }

    method PutSnapshot(trailing: nat)
      requires Enabled(View(), Put(trailing))
      modifies this
      ensures View() == Apply(old(View()), Put(trailing))
    {
      lastSnapshot := pending.configuration;
      if pending.index > trailing && pending.index - trailing > dropped {
        dropped := pending.index - trailing;
      }
      pending := Nothing;
    }

    /** A snapshot of the leader stands for the log up to its index. */
    method Restore(whole: seq<Entry>, index: nat, c: Members)
      requires Enabled(View(), Install(whole))
      requires IsChange(whole, index) && index == LastChange(whole, |whole|) && c == ConfigurationAt(whole, index)
      modifies this
      ensures View() == Apply(old(View()), Install(whole))
    {
      hide Decode;
      hide LastChange;
      hide LastCommitted;
      hide Decodable;
      configuration := c;
      committed := index;
      uncommitted := 0;
      lastSnapshot := c;
      log, dropped, applied := whole, |whole|, |whole|;
    }
  }
}
