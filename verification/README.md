# dqlite in Dafny

A model of the parts of dqlite whose correctness is hard to see from the code, with proofs:
the Raft in-memory log, the worker thread pool, Raft elections and membership changes, the
replicated write-ahead log with its commands and snapshots, the role allocator, and the
wire codecs with the streaming hash.

Code that updates things in place is modelled by classes, arrays and loops. Each method is
proved against a specification written as functions on values, and the theorems are about
those specifications: what every run keeps, what one operation undoes, what two nodes agree
on. `dafny verify dfyconfig.toml` checks everything.

## What is proved

* **Log** (`EntryRefs`, `LogSpec`, `LogBatches`, `RaftLog`). The circular buffer is a
  sequence with an offset through growth and wrap-around. Which entries and terms are known
  after an operation is said index by index, with the snapshot's term known also when its
  entry is gone. In every run the count of an entry is one for the log plus one per
  acquisition that holds it, a payload of its own is freed once, when the count reaches
  zero, and no batch is lost. The counters have 16 bits: an acquisition conserves references
  if and only if none of its counters is full, and a run of 65536 references that breaks it
  is given. The snapshot marker and the log agree on the term of the snapshot's last entry
  all along a run if and only if nothing of another term is appended there. The reference
  table grows without collisions and refuses an index exactly when a live index still shares
  its bucket at 512 times the starting size.
* **Thread pool** (`PoolSpec`, `PoolInvariant`, `PoolTheorems`, `PoolQos`, `ThreadPool`). In
  every interleaving an item is in one place, barriers separate ordered work, items of one
  cookie run and complete in order, no assertion fails, and something can move while there
  is work. While both queues have items, of any hand-overs in a row as many as the priority
  exactly one is unordered, except that two are when the 32-bit token wraps around among
  them after another multiple of the priority. A worker that leaves early on shutdown can
  strand work. For any number of threads, once the planner is done the queues of the workers
  that left are empty if and only if each left with none of its work still with the planner,
  which is what the test before leaving does not look at; waiting for the planner is one
  way.
* **Elections** (`ElectionSpec`, `Election`, `ElectionVotes`, `ElectionTransfer`,
  `RaftServer`). One leader per term over every run with lost, repeated and reordered
  messages and crashes at any point, provided no server receives the vote request of its own
  transfer target after it voted for another in that term. That condition is exact for one
  vote per term, holds in every run without leadership transfers, and a run that violates it
  and gives a term two leaders is given: stepping down does not close the transfer. In every
  run each of a majority of voters granted a leader its vote when its own log was empty or
  not ahead of what the leader had stored when it stood. Votes, pre-votes and counting have
  exact conditions. The handlers are proved to be the transitions of that machine.
* **Membership** (`Quorum`, `Configuration`, `Membership`, `Follower`). The configurations
  that servers can be using are the leader's, the committed one and those that follow it in
  the log. In every state of a run the leader's can be read and the voters of each two of
  them are one apart, so that their majorities meet, if and only if no operation does one of
  two things. An addition or removal that passes every test and whose replication does not
  start releases the configuration that is in use by then: the error path closes the copy
  that has already taken the place of the old one, and the leader's next change or command
  reads released memory. One that fails for lack of memory to track the servers leaves its
  configuration in the log unmarked, and a later change clashes with it exactly when the two
  change different voters; a run in which their majorities miss is given. Each change edits
  one server: added ones are spares, and over every run a server has another role only if it
  was bootstrapped with it or assigned it. One change at a time is kept if and only if
  neither failure occurs. A role assignment that fails leaves its request pending, which is
  exactly how the assertion that none is pending comes to be reached.

  A follower's configuration is the latest of its log in every state of a run, if and only
  if no truncation rolls back past a configuration that stays in the log; that cannot happen
  while leaders make one change at a time, and a run with two pending changes in which it
  does is given. What a rollback or a snapshot falls back to is always the last committed
  configuration, also after the log lost its entry.
* **Replication** (`Bytes`, `Serialize`, `Wal`, `WalChecksum`, `WalLog`, `Replica`,
  `Command`, `Vfs`). A checksum is the sum of the words weighted by Fibonacci numbers, as
  section 4.2 of the SQLite file format says, and that of every frame goes over all frames
  before it. In the log of every run, which begins with a whole batch, the commit field is
  non-zero exactly on the last frame of each batch, where it is the size that all batches so
  far give the database. A transaction that is polled, encoded, decoded and applied adds
  exactly its pages. Nodes that apply the same batches hold the same database whatever salts
  they draw and whenever each of them checkpoints. Cut to the 16 bits of a command, the page
  size lets a transaction through if and only if it is below 65536 or there are no pages;
  the largest size does not survive the log header either.
* **Snapshots** (`SnapshotFormat`, `Snapshots`, `Fsm`). Restoring a snapshot gives back
  every database in it and leaves the others alone, if and only if every database it goes to
  has a first page that tells the same page size; otherwise an assertion fails. Its buffers
  point at live pages; the read lock keeps them as they were through any applies and
  registrations until it is finalized, which frees what the snapshot owns and unlocks what
  it locked. Names stay distinct and first pages keep telling the page size, so a snapshot
  of any run can be restored elsewhere.
* **Roles** (`Roles`). Whatever the sorts do, a pass reaches its targets, keeps the calling
  node a voter, queues at most one change per node, and leaves a balanced cluster alone.
  With a target of zero voters the calling node stays the only one.
* **Codecs** (`Tuple`, `TupleCoder`, `Rows`, `ConfigurationCodec`, `WireLayout`, `Sha1`).
  Where the fields of commands, tuples, configurations and snapshots are, and in which order
  their bytes, is said position by position. Tuples and rows are read back if and only if
  they hold no time value, which is written but cannot be read. No row starts like an end
  marker. The batches that answer a query deliver all rows, once and in order, if and only
  if the message header and the column names are shorter than a memory page; otherwise the
  client is sent empty batches for ever. Configurations are read back. The digest does not
  depend on how the message was split, as long as what is in the buffer and the next piece
  add up to less than 2 to the 32, which is exactly when the code stays inside its buffer,
  and padding is that of section 5.1.1 of FIPS 180-4, byte by byte.

Storage and network failures are choices of the model. Clocks and timers, random numbers
(salts) and what SQLite does are parameters or steps of an environment.

## Model

| member | source | states |
|---|---|---|
| EntryRefs.TryInsert | src/raft/log.c:34-118 | a new reference is stored exactly unless a live entry of another index has its bucket; a refused one changes nothing |
| EntryRefs.Incr | src/raft/log.c:268-295 | the count of the reference, and nothing else, goes up by one, modulo 65536 |
| EntryRefs.Decr | src/raft/log.c:299-350 | the count goes down by one; the reference leaves the table, and the caller is told, exactly when it was the last one |
| EntryRefs.Grow | src/raft/log.c:123-212 | doubling the table keeps all references, and no move collides |
| EntryRefs.Init | src/raft/log.c:216-265 | a first reference is stored unless a live index shares its bucket even at 512 times the starting size, and only then it fails |
| EntryRefs.NarrowNeverBlocks | src/raft/log.c:216-265 | live indexes that lie within 512 times the table size of a new one never make its insertion fail |
| LogSpec.AcquireKeeps | src/raft/log.c:743-792 | acquiring conserves references if and only if no counter involved is full |
| LogSpec.StepKeeps | src/raft/log.c:545-1000 | every operation keeps counts, payload lifetimes and the offset bound |
| LogSpec.EveryRunConserves | src/raft/log.c:268-350 | in every run a count is one for the log plus the unreleased acquisitions, and the offset never exceeds the snapshot's last index |
| LogSpec.EveryRunFreesOnce | src/raft/log.c:869-880 | in every run an unbatched payload is freed once, when its last reference is gone |
| LogSpec.CounterWraps | src/raft/log.c:268-295 | a run in which 65536 references make a 16-bit count zero |
| LogSpec.CoherentExactly | src/raft/log.c:687-712 | an operation keeps marker and log in agreement on the term of the snapshot's last entry exactly when it does not append another term at that index |
| LogSpec.RunCoherent | src/raft/log.c:687-712 | the assertion on that term holds all along a run if and only if no such entry is appended |
| LogSpec.StartTerms | src/raft/log.c:441-453 | a log that starts behind its snapshot holds no entry, and knows the term of the snapshot's last index, and no other, exactly when it starts right after it |
| LogSpec.AppendTerms | src/raft/log.c:545-586 | an append adds one entry behind the last one and changes no other entry or term |
| LogSpec.SuffixAt | src/raft/log.c:743-792 | an acquisition gets every entry from its index on, in order, or none when the index is not in the log |
| LogSpec.TruncateTerms | src/raft/log.c:920-926 | a truncation forgets every entry and term from its index on and nothing before it |
| LogSpec.SnapshotEntries | src/raft/log.c:969-987 | an entry stays in the log exactly when it is after the trailing place, or that place is not in the log; the last index stays, and the marker has the term of its index |
| LogSpec.SnapshotTerms | src/raft/log.c:969-987 | no term from the snapshot's index on changes, also when its entry is dropped; before it exactly those of the entries that stay are known |
| LogSpec.RestoreTerms | src/raft/log.c:989-1000 | after a restore the log is empty, and the snapshot's term, and no other, is known at its index |
| LogBatches.StepBatches | src/raft/log.c:796-880 | no operation loses a batch: it was freed, or an entry of it is still referred to; and none frees a batch that an entry of the log belongs to |
| LogBatches.NoBatchLost | src/raft/log.c:796-880 | over every run a batch that came with some entry has been freed or is still referred to |
| RaftLog.RaftLog.constructor | src/raft/log.c:352-371 | a new log is empty and satisfies the invariant |
| RaftLog.RaftLog.Start | src/raft/log.c:441-453 | sets snapshot and offset, as the specification says |
| RaftLog.RaftLog.NumEntries | src/raft/log.c:646-657 | the number of entries of the sequence, wrapped around or not |
| RaftLog.RaftLog.LastIndex | src/raft/log.c:659-667 | offset plus number of entries |
| RaftLog.RaftLog.LocateEntry | src/raft/log.c:673-685 | finds the entry of an index exactly when it is in the log |
| RaftLog.RaftLog.TermOf | src/raft/log.c:687-712 | the term of an entry, or of the snapshot also when its entry left the log, and zero for every other index: see the terms after each operation above |
| RaftLog.RaftLog.LastTerm | src/raft/log.c:719-724 | the term at the last index |
| RaftLog.RaftLog.Get | src/raft/log.c:726-741 | the entry at an index, if it is there |
| RaftLog.RaftLog.EnsureCapacity | src/raft/log.c:457-496 | makes room for one more entry and changes nothing that can be seen |
| RaftLog.RaftLog.Append | src/raft/log.c:545-586 | appends to the sequence with a count of one, or fails and changes nothing, exactly when the reference is refused |
| RaftLog.RaftLog.Acquire | src/raft/log.c:743-792 | returns the suffix and references all of it; the invariant survives if and only if the counters fit |
| RaftLog.RaftLog.IsBatchReferenced | src/raft/log.c:796-811 | whether an entry in the log belongs to the batch |
| RaftLog.RaftLog.Release | src/raft/log.c:813-853 | gives the references back and frees payloads as the specification says |
| RaftLog.RaftLog.DestroyEntry | src/raft/log.c:869-880 | frees the payload, or the batch when no entry refers to it |
| RaftLog.RaftLog.ClearIfEmpty | src/raft/log.c:856-866 | releases the array of an empty log and changes nothing that can be seen |
| RaftLog.RaftLog.RemoveSuffix | src/raft/log.c:884-918 | drops the last entries one by one, with their references |
| RaftLog.RaftLog.Truncate | src/raft/log.c:920-926 | the sequence loses its entries from the index on |
| RaftLog.RaftLog.RemovePrefix | src/raft/log.c:934-967 | drops the first entries one by one, with their references, and moves the offset |
| RaftLog.RaftLog.Snapshot | src/raft/log.c:969-987 | moves the snapshot marker and drops all but the trailing entries before it |
| RaftLog.RaftLog.Restore | src/raft/log.c:989-1000 | empties the log and starts it after the snapshot |
| PoolInvariant.StepKeeps | src/lib/threadpool.c:227-359 | every step of the submitter, planner, a worker or the main thread keeps the invariant of the pool |
| PoolTheorems.InOnePlace | src/lib/threadpool.c:254-359 | in every reachable state an item other than a barrier is in exactly one queue, worker or list, and with no other worker |
| PoolTheorems.BarrierSeparation | src/lib/threadpool.c:227-303 | an ordered item is handed over only when all ordered items before an earlier barrier have ended and none is in flight |
| PoolTheorems.KindsNeverTogether | src/lib/threadpool.c:48-75 | ordered items of the two kinds are never in flight together |
| PoolTheorems.CookieOrder | src/lib/threadpool.c:450-512 | items of one class and cookie run one at a time in submission order and complete in that order |
| PoolTheorems.AssertionsHold | src/lib/threadpool.c:204-303 | state changes are allowed ones, the planner invariant holds after them, and the counters asserted positive are positive |
| PoolTheorems.PlannerWaits | src/lib/threadpool.c:227-303 | the planner waits only when it exited, has nothing to do, or is at a barrier with ordered items in flight |
| PoolTheorems.NoDeadlock | src/lib/threadpool.c:227-359 | while no worker stopped and some item waits or is at work, the planner or a worker can take a step |
| PoolQos.PlanGives | src/lib/threadpool.c:254-294 | a planner step gives one worker the head of one of the queues, or leaves the workers alone |
| PoolQos.KindsByToken | src/lib/threadpool.c:176-187 | in every run with items in both queues the k-th hand-over is of an unordered item exactly when the token, counted up modulo 2 to the 32, is a multiple of the priority |
| PoolQos.FairShare | src/lib/threadpool.c:176-187 | any hand-overs in a row as many as the priority hold exactly one unordered item; they hold two exactly when the token wraps around among them after another multiple, never when the priority divides 2 to the 32 |
| PoolQos.TokenBounded | src/lib/threadpool.c:176-187 | over every run the token stays within 32 bits |
| PoolTheorems.RunServed | src/lib/threadpool.c:318-359 | a run leaves no stopped worker any work, in its queue or with the planner, if and only if it began so and each worker that stopped had none with the planner |
| PoolTheorems.NothingStranded | src/lib/threadpool.c:329-335 | in every run, for any number of threads, that ends with nothing left to hand over, the queues of all stopped workers are empty if and only if each stopped with none of its work still with the planner; the planner exits only then |
| PoolTheorems.PatientStopsInTime | src/lib/threadpool.c:329-335 | workers that stop only after the planner exited stop in time |
| PoolTheorems.PatientRunDrains | src/lib/threadpool.c:318-359 | in such a run no stopped worker has items in its queue, at any time |
| PoolTheorems.StrandedWork | src/lib/threadpool.c:331-335 | a run in which a worker stops early and an item stays in its queue for good |
| ThreadPool.ThreadPool.constructor | src/lib/threadpool.c:514-557 | the initial state of the machine |
| ThreadPool.ThreadPool.QueueWork | src/lib/threadpool.c:450-512 | is the submit step of the machine |
| ThreadPool.ThreadPool.QosPop | src/lib/threadpool.c:176-187 | takes the item that the quality of service puts next: with items in both queues an unordered one exactly when the token is a multiple of the priority |
| ThreadPool.ThreadPool.Drain | src/lib/threadpool.c:254-271 | hands items over by planner steps alone, until the queues are empty or a barrier is first |
| ThreadPool.ThreadPool.DrainUnord | src/lib/threadpool.c:287-294 | hands over all unordered items at a barrier and leaves the ordered queue alone |
| ThreadPool.ThreadPool.HandNext | src/lib/threadpool.c:262-267 | hands over one item by one planner step |
| ThreadPool.ThreadPool.LeaveBarrier | src/lib/threadpool.c:272-286 | turns to the unordered items, or drops the barrier once no ordered item is in flight |
| ThreadPool.ThreadPool.RunPlanner | src/lib/threadpool.c:227-303 | the planner always gets to a wait, by steps of the machine |
| ThreadPool.ThreadPool.TakeWork | src/lib/threadpool.c:330-344 | is the step of a worker that takes the first item of its queue |
| ThreadPool.ThreadPool.FinishWork | src/lib/threadpool.c:342-349 | is the step of a worker that ends its item |
| ThreadPool.ThreadPool.AccountWork | src/lib/threadpool.c:351-358 | is the step of a worker that accounts for its item |
| ThreadPool.ThreadPool.WorkDone | src/lib/threadpool.c:471-483 | completes what ended, first to last, and counts it off |
| Quorum.MajoritiesMeet | src/raft/election.c:306-325 | majorities of two sets that differ by one member meet |
| Configuration.IndexOf | src/raft/configuration.c:29-40 | the first server with the id, or the size |
| Configuration.IndexOfVoter | src/raft/configuration.c:42-63 | the place of the server among the voters, or the size when it is not a voter |
| Configuration.VoterCount | src/raft/configuration.c:84-95 | the number of voters |
| Configuration.Copy | src/raft/configuration.c:97-119 | copying server by server never fails and gives the same configuration |
| Configuration.Servers.Add | src/raft/configuration.c:121-185 | appends the server, or reports the first clash and changes nothing |
| Configuration.FirstClash | src/raft/configuration.c:121-185 | the first server that clashes tells the error, and its id counts before its address |
| Configuration.Servers.Remove | src/raft/configuration.c:187-244 | removes exactly the server with the id, or reports that there is none |
| Configuration.WithRoleDistinct | src/raft/client.c:218-319 | changing a role changes the voters by at most that server |
| Configuration.Servers.Close | src/raft/configuration.c:16-27 | the memory of the servers is released |
| Quorum.ApartThrough | src/raft/client.c:117-373 | two sets that are one apart from a third are one apart of each other exactly when they differ from it in the same member or one not at all |
| Membership.ApplyKeeps | src/raft/client.c:117-373 | an operation releases the configuration in use exactly when it is an addition or removal that passes every test and whose replication does not start; otherwise it stays valid, the uncommitted one if there is one, and a server waiting for promotion stays a non-voter in it |
| Membership.RunKeeps | src/raft/client.c:117-373 | a run, whatever fails in it, ends with a configuration in use if and only if no operation released it; once released it stays so |
| Membership.SoundExactly | src/raft/client.c:117-373 | an operation keeps the configuration in use readable and all configurations in force one voter apart, each two of them, if and only if it neither releases it nor changes a second voter besides one of them |
| Membership.RunSound | src/raft/client.c:117-373 | the same in every state of a run, with any failures, if and only if no operation of the run does so |
| Membership.SoundMeets | src/raft/election.c:306-325 | then majorities of any two configurations that servers can be using meet |
| Membership.OrderlyExactly | src/raft/client.c:131-166 | an operation keeps one uncommitted configuration at most, marked and in use, if and only if it is not an addition or removal that passes every test and fails after its entry was appended |
| Membership.RunOrderly | src/raft/client.c:131-166 | the same in every state of a run |
| Membership.MajoritiesAlwaysMeet | src/raft/client.c:117-373 | over every run without such a failure majorities of any two configurations that servers can be using meet |
| Membership.UnmarkedSplits | src/raft/client.c:137-142 | a run in which a removal fails for lack of memory and the next one leaves configurations with disjoint majorities |
| Membership.OneChangeAtATime | src/raft/membership.c:12-55 | while a change is uncommitted no operation changes the configuration or adds one to the log |
| Membership.RefusesExactly | src/raft/membership.c:12-55 | a change is refused exactly when the server does not lead or hands over, or another change or promotion is under way, and then nothing happens |
| Membership.AppendsEdited | src/raft/client.c:171-373 | the configuration an operation appends is the one in use with one edit: a spare with the given id and address at the end, the server with the id taken out, or its role replaced, the promoted one by voter; all others stay in place |
| Membership.RolesAreAssigned | src/raft/client.c:171-319 | over every run a server is voter or standby in some configuration only if it was so at first or was assigned that role |
| Membership.RunLeads | src/raft/replication.c:1503-1547 | in every run a leader is a voter of the configuration it uses unless that is still to be committed |
| Membership.DanglingStays | src/raft/client.c:211-212 | once released the configuration stays so, and exactly the operations that need it read released memory |
| Membership.FailedRemovalFrees | src/raft/client.c:321-373 | a removal whose replication does not start, after which both a removal and a command read the released configuration |
| Membership.PendingExactly | src/raft/client.c:278-299 | no operation reaches the assertion on pending requests while each has its cause, and exactly a role assignment that fails at once leaves one without |
| Membership.RunPending | src/raft/client.c:278-299 | over every run requests are pending for cause only if and only if no role assignment fails so, and then no assertion is reached |
| Membership.AssertionReached | src/raft/client.c:204-205 | after such a failure every change that passes the tests reaches the assertion |
| Membership.Raft.constructor | src/raft/start.c:26-40 | a server with the first configuration, committed by default |
| Membership.Raft.CanChangeConfiguration | src/raft/membership.c:12-55 | refuses exactly when the server does not lead, transfers leadership, or has a change or promotion under way |
| Membership.Raft.ChangeConfiguration | src/raft/client.c:117-169 | appends the configuration and puts the given object in use, releasing the old one; without memory to track the servers the entry stays; when replication does not start the entry is dropped and the object stays in use |
| Membership.Raft.Add | src/raft/client.c:171-216 | the add operation, with all its refusals: the new server is a spare; on failure the copy is released, in use or not |
| Membership.Raft.Remove | src/raft/client.c:321-373 | the remove operation, with all its refusals; on failure the copy is released, in use or not |
| Membership.Raft.Assign | src/raft/client.c:218-319 | the assign operation: immediate, with the old role restored and the request left pending on failure, or a promotion that waits for the server to catch up |
| Membership.Raft.Promote | src/raft/replication.c:667-719 | makes the waiting server a voter in place, or restores its role on failure; the assertions on it hold |
| Membership.Raft.ApplyChange | src/raft/replication.c:1503-1547 | the next configuration entry is committed, the request is answered, and a leader that is no voter steps down |
| Follower.StepBacked | src/raft/membership.c:57-83 | storing, truncating, committing, taking, writing and installing snapshots keep the last committed configuration within reach: in the log, or equal to the snapshot's once the log lost it |
| Follower.RunBacked | src/raft/membership.c:57-83 | over every run a rollback or a snapshot uses the last committed configuration |
| Follower.RunTrims | src/raft/replication.c:1588-1618 | over every run an entry is still in memory exactly when it was at first and no snapshot was stored that was taken the trailing number of entries after it, or installed that covers it |
| Follower.StepTracks | src/raft/replication.c:1061-1099 | a step keeps the configuration in use the latest of the log, marked when uncommitted, if and only if it does not roll back past a configuration that stays in the log |
| Follower.RunTracks | src/raft/replication.c:892-966 | in every state of a run the configuration in use is the latest of the log, if and only if no truncation does that |
| Follower.OneAtATimeTracks | src/raft/membership.c:12-55 | it does not happen while the log holds at most one configuration that is not committed |
| Follower.RollbackUndoes | src/raft/membership.c:141-199 | truncating the entry of a configuration gives back the state before it was stored, if and only if no other one was waiting |
| Follower.RollbackSkipsOne | src/raft/membership.c:177-199 | a run with two waiting configurations after which neither the latest nor the last committed one is in use |
| Follower.Server.constructor | src/raft/start.c:26-40 | a log with the configuration it was bootstrapped with |
| Follower.Server.FetchLastCommitted | src/raft/membership.c:57-83 | decodes the entry at the committed index, or takes the snapshot's configuration |
| Follower.Server.UseChange | src/raft/membership.c:141-175 | decodes the entry and uses it as uncommitted; one that does not decode changes nothing |
| Follower.Server.RollBack | src/raft/membership.c:177-199 | is the rollback of the machine |
| Follower.Server.ApplyChange | src/raft/replication.c:1503-1523 | the entry is the committed configuration and no longer an uncommitted one |
| Follower.Server.Stored | src/raft/replication.c:934-966 | the loops over stored and committed entries are the store step of the machine |
| Follower.Server.DeleteConflicting | src/raft/replication.c:1085-1099 | is the truncation of the machine, with its rollback |
| Follower.Server.TakeSnapshot | src/raft/replication.c:1671-1689 | remembers the applied index and the last committed configuration |
| Follower.Server.PutSnapshot | src/raft/replication.c:1588-1618 | caches the snapshot's configuration and drops all but the trailing entries |
| Follower.Server.Restore | src/raft/snapshot.c:28-72 | a snapshot of the leader replaces log and configuration |
| ElectionSpec.ReceiveHonest | src/raft/recv.c:19-88 | handling a message changes a stored vote within its term exactly when the transfer exception applies to a server that already voted |
| Election.StepKeeps | src/raft/recv.c:19-197 | every step of the cluster other than a second vote keeps votes stored, counted and truthfully reported, and leaders elected by a majority |
| Election.ElectionSafety | src/raft/election.c:113-325 | in every run without such a second vote, servers that were leader in one term are one server |
| Election.OneVotePerTerm | src/raft/election.c:196-304 | over every run, no server votes twice in a term if and only if no such request is delivered |
| Election.SafeWithoutTransfers | src/raft/election.c:220-223 | every run without leadership transfers has one leader per term |
| Election.NoRivalEntries | src/raft/recv_append_entries.c:64-94 | a leader never receives entries of its own term, so the assertion in the handler holds |
| Election.PreVoteAnswersInReach | src/raft/recv_request_vote_result.c:92-99 | in every run no answer to a pre-vote that reaches a server is about a term beyond its next one, so the assertion that such an answer grants nothing holds |
| ElectionVotes.AnswersExactly | src/raft/recv_request_vote.c:15-148 | a request gets one answer, and grants exactly when the server is a voter, follows no leader or is asked to disrupt it, installs no snapshot, is not in a later term, is free to vote, and its log is empty or not ahead of the asker's, by term and then index |
| ElectionVotes.AnswersStored | src/raft/election.c:196-304 | a granted vote is stored for the term of the request; a pre-vote, granted or not, changes nothing |
| ElectionVotes.WinsExactly | src/raft/election.c:306-325 | a candidate has enough votes exactly when the voters it counted are more than half of all |
| ElectionVotes.CountsExactly | src/raft/recv_request_vote_result.c:11-152 | counting a vote ends the round exactly when it makes a majority: a candidate leads, and one that asked for pre-votes stands in the next term |
| ElectionVotes.AsksEveryVoter | src/raft/election.c:113-194 | every other voter is asked once, in the candidate's name and with its last entry, and nobody else |
| ElectionVotes.FollowsSender | src/raft/recv_append_entries.c:19-112 | entries of the own or a later term make the server follow the sender in that term, and its vote is forgotten exactly when the term is later; earlier terms are ignored |
| ElectionVotes.TakesOver | src/raft/recv_timeout_now.c:10-79 | a server stands at its leader's request exactly when it is a voter that follows this leader and has the same last entry, with nothing being written |
| ElectionVotes.LeaderReachesVoters | src/raft/election.c:255-304 | in every run a leader of several voters stood once in its term, and each of a majority, besides itself, granted it its vote when its own log was empty or not ahead of what the leader had stored when it stood |
| ElectionTransfer.TwoLeaders | src/raft/election.c:220-223 | a run of three servers in which a transfer that outlives its leader gives a term two leaders |
| RaftServer.Raft.constructor | src/raft/raft.c:38-114 | a new server is unavailable |
| RaftServer.Raft.Start | src/raft/start.c:114-229 | a server starts as a follower with the stored term and vote, or elects itself when it is the only voter |
| RaftServer.Raft.ToFollower | src/raft/convert.c:139-150 | clears the old role, keeps term and vote; the transition is a legal one |
| RaftServer.Raft.ToLeader | src/raft/convert.c:199-259 | clears the votes and leads; the transition is a legal one |
| RaftServer.Raft.ToCandidate | src/raft/convert.c:152-191 | stands for election, or leads when it is the only voter; after a failure the disk is as a crash could have left it |
| RaftServer.Raft.ToUnavailable | src/raft/convert.c:261-269 | closes a transfer and leaves the disk alone |
| RaftServer.Raft.ElectionStart | src/raft/election.c:113-194 | the new term and the own vote are on disk before any request is sent; only the own vote is counted; every other voter is asked |
| RaftServer.Raft.ElectionVote | src/raft/election.c:196-304 | grants exactly the votes of the specification, stored before they are granted; its conditions, with the comparison of logs, are those of ElectionVotes.AnswersExactly |
| RaftServer.Raft.ElectionTally | src/raft/election.c:306-325 | counts the vote and reports exactly whether more than half of the voters granted theirs |
| RaftServer.Raft.BumpCurrentTerm | src/raft/recv.c:115-146 | stores the term without a vote, then steps down; a failure changes nothing |
| RaftServer.Raft.EnsureMatchingTerms | src/raft/recv.c:159-197 | raises a lower current term, and reports how the terms compared |
| RaftServer.Raft.RecvRequestVote | src/raft/recv_request_vote.c:15-148 | state and reply are those of the specification, for votes and pre-votes |
| RaftServer.Raft.RecvVoteResult | src/raft/recv_request_vote_result.c:11-152 | counts, starts the second phase, leads, steps down or ignores as the specification says; the assertions on term and vote hold |
| RaftServer.Raft.RecvTimeoutNow | src/raft/recv_timeout_now.c:10-79 | stands for election at the leader's request when the log is up to date |
| RaftServer.Raft.RecvAppendEntries | src/raft/recv_append_entries.c:19-112 | follows the sender, stepping down from candidate; the assertions on role and term hold |
| RaftServer.Raft.RecvMessage | src/raft/recv.c:19-88 | on success the transition of the election machine; on failure the disk is as a crash could have left it |
| RaftServer.Raft.RecvCb | src/raft/recv.c:90-113 | a server that fails to handle a message becomes unavailable; an unavailable one ignores it |
| RaftServer.FailureIsCrash | src/raft/recv.c:90-113 | a failure while handling a message leaves the disk as one of the crash steps of the machine does |
| Serialize.GetPutText | src/lib/serialize.h:204-210 | decoding a string undoes encoding it, padding included |
| Serialize.GetPutBlob | src/lib/serialize.h:212-219 | decoding a blob undoes encoding it, whatever the padding holds, unless its padded length wraps around 64 bits |
| Serialize.GetPutAll | src/lib/serialize.h:71-114 | decoding fields of given widths undoes encoding them |
| Serialize.Cursor.Uint | src/lib/serialize.h:221-270 | reads the number and moves past it, or reports that too few bytes are left |
| Serialize.Cursor.Text | src/lib/serialize.h:299-312 | reads up to the zero byte and skips the padding; when the padding is missing the count of bytes left wraps around |
| Serialize.Cursor.Blob | src/lib/serialize.h:314-332 | reads length and data and skips the padding, or fails; a length whose padding wraps around is reported as read and nothing is skipped |
| Serialize.BlobLengths | src/lib/serialize.h:314-332 | that happens exactly for lengths within seven of 2 to the 64; any other length is accepted if and only if the padded bytes are there |
| Bytes.LeAt | src/lib/serialize.h:163-202 | byte i of a number on the wire is its digit i to the base 256 |
| Bytes.BeAt | src/lib/byte.h:130-136 | byte i of a big-endian number of n bytes is digit n - 1 - i |
| Wal.Checksum | src/vfs.c:121-154 | the loop computes the checksum, which WalChecksum.ChecksumIs gives in closed form |
| Wal.CheckConcat | src/vfs.c:121-154 | a checksum goes on where the one of the data before it ended |
| WalChecksum.ChecksumIs | src/vfs.c:121-154 | both sums are sums of the little-endian words of the data weighted by Fibonacci numbers in reverse order, on top of the start weighted by those that come next, modulo 2 to the 32 |
| Wal.StartHeaderOk | src/vfs.c:2308-2333 | a new header has magic, version, page size, salt and its own checksum; the page size can be read back unless it is 65536 |
| Wal.RestartHeaderOk | src/format.c:107-130 | a restarted header has a valid checksum, the same page size and the new second salt |
| Wal.RestartHeaderCounts | src/format.c:107-130 | it counts one more checkpoint and the next first salt, so it differs from the one it replaces |
| Wal.RestartInPlace | src/format.c:107-130 | restarting a header byte by byte in place gives that header |
| Wal.FrameFill | src/vfs.c:1311-1332 | fills a frame and goes on with the checksum |
| Wal.FrameFields | src/vfs.c:1286-1332 | number, commit field, salt and checksum can be read back from a frame, and the checksum goes over header and page |
| WalLog.ChecksumCoversAll | src/vfs.c:2222-2305 | in a chained log the checksum of the last frame is the one of all frames from the header's on |
| WalLog.FilledChained | src/vfs.c:2222-2305 | appending a batch keeps the chain, page sizes and salts |
| WalLog.FilledView | src/vfs.c:2222-2305 | appending a batch adds exactly its pages in order, with a commit field on the last one |
| WalLog.FilledSize | src/vfs.c:2252-2264 | the next batch starts from the size that this one grew the database to |
| WalLog.CommitMarks | src/vfs.c:2274-2300 | in one batch a commit field is non-zero exactly on the last frame unless nothing has a page, and is the largest of the size and the page numbers |
| Replica.ApplyKeeps | src/vfs.c:2359-2413 | applying a batch keeps the log well formed, overlays its pages and grows the database |
| Replica.CheckpointKeeps | src/vfs.c:591-624 | a checkpoint keeps size and content and restarts the log |
| Replica.RunReplicates | src/vfs.c:2359-2413 | in every run of batches and checkpoints size, content and log are functions of the batches |
| Replica.ReplicasAgree | src/vfs.c:2359-2413 | nodes that applied the same batches hold the same database and show the same frames, whenever each checkpointed |
| Replica.LogHoldsBatches | src/vfs.c:2222-2305 | in every run the log holds the frames of whole batches, those since the last checkpoint |
| Replica.CommitsEndBatches | src/vfs.c:2252-2300 | in the log of every run a commit field is non-zero exactly on the last frame of a batch, and there it is the size that all batches so far give the database |
| Replica.GrownAllIsMax | src/vfs.c:2252-2264 | that size is the largest of the base size and all page numbers of all those batches |
| Replica.LogStaysChained | src/vfs.c:2222-2333 | in every run of batches and checkpoints the checksums chain from the header on |
| Command.FramesEncode | src/command.c:32-48 | the loops write count, page size, page numbers and pages |
| Command.PageNumbers | src/command.c:138-162 | the loop reads all page numbers, and they lie inside the data exactly when the data is long enough |
| Command.DecodeEncode | src/command.c:70-136 | decoding undoes encoding for every command whose fields fit |
| Command.PagesSurvive | src/command.c:32-67 | for page sizes of 16 bits the pages of a transaction come out of a decoded command unchanged and in order |
| Command.PagesSurviveExactly | src/leader.c:313-319 | for every page size, cut to 16 bits when it is sent, a node that splits the decoded data by its own page size gets the pages of the transaction if and only if there are none or the size is below 65536, and the same for the number of bytes |
| WireLayout.CommandHead | src/command.c:10-20 | a command begins with format 1, its type from 1 to 4, and six zeros |
| WireLayout.FramesLayout | src/command.h:33-40 | a frames command goes on with the padded file name and, each at its place and width, the transaction, the truncation size, the commit flag, the number of pages, the page size and the data |
| Vfs.Database.constructor | src/vfs.c:238-255 | a database whose first page tells the page size and whose log was never written satisfies the invariant |
| Vfs.Database.WalAppend | src/vfs.c:2222-2305 | the loop appends the frames of the specification |
| Vfs.Database.Apply | src/vfs.c:2359-2413 | starts the log if need be and appends the batch |
| Vfs.Database.Poll | src/vfs.c:2101-2143 | returns and clears a transaction exactly when its last frame has a commit field |
| Vfs.Database.WalTruncate | src/vfs.c:591-624 | only truncation to zero is accepted; a log that has frames is restarted |
| Vfs.Database.WritePage | src/vfs.c:327-392 | replaces a page or adds the next one; skipping pages is refused |
| Vfs.Database.Checkpoint | src/fsm.c:168-183 | writing the newest frame of every page and truncating the log is the checkpoint of the specification, and no write is refused |
| Vfs.TransactionReplicated | src/vfs.c:2101-2143 | a transaction that is polled, encoded, decoded and applied by any node adds exactly its pages to that node's log |
| SnapshotFormat.ImageTrip | src/vfs.c:2607-2772 | restoring the image of a database works if and only if the target has a first page that tells the same page size, and stops on an assertion otherwise; it gives pages and frames, and the log header when there are frames |
| SnapshotFormat.SnapshotTrip | src/fsm.c:382-484 | restoring a snapshot works if and only if every database in it goes to one with a first page of the same page size, and stops otherwise; it gives each the same pages and frames and leaves the others alone |
| WireLayout.SnapshotHead | src/fsm.c:365-380 | a snapshot begins with format 1 and the number of databases |
| WireLayout.DatabaseLayout | src/fsm.c:382-432 | a database in it is its padded name, the size of its pages, the size of its log, the pages and the log |
| Snapshots.BufsContents | src/fsm.c:499-555 | the buffers of a snapshot, concatenated, are the snapshot |
| Snapshots.RunGuards | src/fsm.c:65-183 | over every run of snapshots, applies, checkpoints, transactions and registrations exactly the databases of an outstanding snapshot are locked, with their pages unchanged; names stay distinct, and every version of a first page tells the page size |
| Snapshots.SnapshotIsFrozen | src/fsm.c:85-183 | through any applies and registrations the buffers keep holding the databases as they were when the snapshot was taken |
| Snapshots.CheckpointsExactly | src/fsm.c:85-183 | the log is emptied exactly when a checkpoint is wanted and the database is not locked, its latest pages are then on file, and the database reads the same either way |
| Snapshots.SnapshotTravels | src/fsm.c:680-711 | restored on another node at any time until it is finalized, a snapshot of any run gives those databases if and only if the ones it goes to there have a first page of the same page size; otherwise that node stops |
| Snapshots.FinalizeUnlocks | src/fsm.c:630-678 | while a snapshot is out exactly its databases are locked, and finalizing unlocks them |
| Snapshots.FreesOwned | src/fsm.c:525-555 | exactly headers and log copies are freed, each once, and never a page |
| Fsm.Fsm.MaybeCheckpoint | src/fsm.c:85-183 | a checkpoint is skipped exactly while the database is locked: see Snapshots.CheckpointsExactly |
| Fsm.Fsm.NumBufs | src/fsm.c:499-513 | counts the buffers of the snapshot |
| Fsm.Fsm.Snapshot | src/fsm.c:557-628 | busy with a transaction or lock, or corrupt, it changes nothing; otherwise it locks all databases and returns the buffers |
| Fsm.Fsm.FreeSnapshotBufs | src/fsm.c:525-555 | walking over the databases as they are now finds the buffers of the snapshot as it was |
| Fsm.Fsm.Finalize | src/fsm.c:630-678 | frees exactly what the snapshot owns and unlocks exactly what it locked, also when databases were added since |
| Fsm.Fsm.Restore | src/fsm.c:680-711 | restores by name, creating databases as needed; success, refusal with what it leaves behind, and failed assertions are those of the specification, and what remains reads past the end |
| Fsm.Fsm.LoadOne | src/fsm.c:434-482 | one database by name, registered and with its log truncated also when its image is refused |
| Fsm.RestoreNode | src/vfs.c:2607-2772 | checking the page size of the target and cutting pages and frames out of the data one by one is the restore of the specification |
| Fsm.WalSnapshot | src/vfs.c:2482-2504 | the copy of the log is its header and frames in order, or nothing |
| Roles.Allocator.QueueChange | src/roles.c:223-247 | replaces the queued change of a node or adds one at the end |
| Roles.Allocator.DemoteOffline | src/roles.c:263-278 | offline nodes become spares; online ones are counted and left alone |
| Roles.Allocator.PromoteVoters | src/roles.c:280-298 | there are enough voters afterwards, or all online nodes are voters |
| Roles.Allocator.DemoteVoters | src/roles.c:300-317 | there are no more voters than wanted, unless only the calling node is left |
| Roles.Allocator.PromoteStandbys | src/roles.c:319-332 | there are enough standbys afterwards, or no online spare is left |
| Roles.Allocator.DemoteStandbys | src/roles.c:334-347 | there are no more standbys than wanted |
| Roles.Allocator.ComputeChanges | src/roles.c:249-348 | for any sorts the cluster ends up balanced, the caller stays a voter, the queue holds one real change per changed node, and a balanced cluster gets none |
| Roles.ConsolidatedNext | src/roles.c:223-247 | queueing a change that differs from the original role keeps the queue equal to the difference between original and current roles |
| Roles.BalancedParts | src/roles.c:280-347 | the targets are met exactly when no phase has anything left to do |
| Tuple.GetPutValue | src/tuple.c:121-157 | a value is read back, except a time value, which is refused |
| Tuple.GetHeaderCode | src/tuple.c:101-118 | the type code of every value can be read from the header in all formats |
| Tuple.Aligned | src/tuple.c:10-40 | every encoded tuple takes up whole words |
| Tuple.TupleTrip | src/tuple.c:44-309 | a tuple is read back in all three formats if and only if it holds no time value |
| WireLayout.TypesLayout | src/tuple.c:166-231 | in row format two type numbers share a byte, the first in the lower half; otherwise each has a byte after the count of one or four bytes; the numbers are 1 to 5 and 9 to 11 |
| WireLayout.ValueLayout | src/tuple.c:233-309 | the values follow one after the other, from the end of the header on |
| WireLayout.SignedByte | src/lib/serialize.h:190-195 | an integer is written in two's complement: byte i is its digit i to the base 256, also below zero |
| TupleCoder.Encoder.constructor | src/tuple.c:166-211 | writes the count and a header of zeros |
| TupleCoder.Encoder.SetType | src/tuple.c:214-231 | sets one type code in place and leaves the others alone |
| TupleCoder.Encoder.Next | src/tuple.c:233-309 | the buffer holds the encoding of the values so far, and of the whole tuple at the end |
| TupleCoder.Decoder.Init | src/tuple.c:44-92 | reads the count and skips the header, or fails |
| TupleCoder.Decoder.Next | src/tuple.c:121-157 | reads the next value by its type code, or fails |
| Rows.Batch | src/query.c:97-147 | writes the rows that fit the page after what is there, and says whether the page is full, whether or not rows are left |
| Rows.RecvRows | src/client/protocol.c:702-799 | reads names and rows up to the marker; an error, an unpadded string that makes it read past the end, and stopping for too many columns or a blob of an impossible length are told apart |
| Rows.RowIsNoMarker | src/client/protocol.c:753-761 | the first word of a row is never an end marker |
| Rows.RowsTrip | src/client/protocol.c:702-799 | with fewer than 2 to the 32 columns the client reads back the names, the rows and whether there are more, if and only if no row holds a time value; with more it stops on its assertion |
| WireLayout.RowsLayout | src/gateway.c:541-548 | a message of rows begins with the number of columns and ends with eight bytes 0xff when it is the last one and 0xee otherwise |
| Rows.AllDelivered | src/conn.c:23-47 | when the head of a message is shorter than a page, the client that reads the batches of a query in turn has all rows, once and in order, after at most one message more than rows |
| Rows.NothingDelivered | src/gateway.c:1485-1500 | when it is not, every batch is empty and none is the last, even without rows |
| Rows.DeliveredExactly | src/gateway.c:520-555 | the rows of a query arrive after finitely many messages if and only if message header, column count and column names are shorter than a page |
| ConfigurationCodec.EncodeToBuf | src/raft/configuration.c:269-288 | writes format, count and servers in order |
| ConfigurationCodec.DecodeBuf | src/raft/configuration.c:317-383 | reads them back, refusing bad formats, roles and duplicates, and tells a failed assertion from reading past the end |
| ConfigurationCodec.DecodeEncode | src/raft/configuration.c:246-383 | decoding undoes encoding for every valid configuration, whatever follows in the buffer |
| WireLayout.ConfigurationHead | src/raft/configuration.c:269-288 | a configuration begins with format 1 and the number of servers |
| WireLayout.ServerLayout | src/raft/configuration.c:280-287 | a server is its id in eight bytes, its address up to a zero, and 0, 1 or 2 for standby, voter or spare |
| Sha1.FoldSplit | src/raft/byte.c:303-327 | hashing may be interrupted at any block boundary |
| Sha1.CountsBits | src/raft/byte.c:309-312 | the two words count the bits of the message modulo 2 to the 64, carries included |
| Sha1.PaddedWhole | src/raft/byte.c:331-365 | padding makes whole blocks with the fewest zeros that leave room for the length |
| Sha1.PaddedByte | src/raft/byte.c:331-364 | after the message come 0x80, zeros, and the number of bits modulo 2 to the 64 with its most significant byte first |
| Sha1.HashByte | src/raft/byte.c:365-368 | the digest has every word of the state with its most significant byte first |
| Sha1.Context.constructor | src/raft/byte.c:292-301 | the empty message |
| Sha1.Context.Update | src/raft/byte.c:303-327 | for any piece of a length in 32 bits the state is the fold over all whole blocks so far and the buffer holds the rest, if and only if the bytes in the buffer and the length do not add up to 2 to the 32; otherwise the copy runs past the buffer |
| Sha1.TakesBlock | src/raft/byte.c:314-315 | the test for a whole block, made on 32 bits, is right if and only if the sum does not wrap around |
| Sha1.OverrunsBuffer | src/raft/byte.c:315-325 | one byte in the buffer and the largest length: the whole piece is copied to the 64 bytes |
| Sha1.NextBlock | src/raft/byte.c:318 | the index of the block loop never wraps around |
| Sha1.Context.Finish | src/raft/byte.c:331-372 | the digest is the one of the whole message, padded once |

## Left out

- RaftLog.RaftLog.Release: payload lifetime is stated for entries with a payload of their own; a batch is freed when no entry in the log refers to it, which does not look at other acquisitions.
- LogSpec.StepKeeps: reinstating an entry, which advances before it writes, and discarding are not operations of the model.
- Election.ElectionSafety: the set of voters is fixed; configuration changes during elections are covered by Membership only.
- RaftServer.Raft.RecvMessage: closing a transfer is modelled for followers; in other roles the code compares memory of another member of a union. Snapshot installation messages are left out.
- RaftServer.Raft.RecvAppendEntries: terms, roles and the leader only; what is done with the entries is not modelled.
- RaftServer.Raft.RecvVoteResult: the tests for peers of the first message version, whose answers do not say whether they are to a pre-vote, are left out.
- Follower.Server.Stored: entries are in memory and on disk at once, and configuration entries decode; starting again from disk is not a step of the machine.
- Membership.Raft.Assign: catching up rounds are one bit that says whether the server is up to date.
- Replica.ReplicasAgree: batches skip no page number, so the page that holds SQLite's pending byte, beyond one gigabyte, is not modelled.
- Wal.Checksum: the host is little-endian; on a big-endian one the words and the magic number differ.
- Vfs.Database.constructor: a database starts with the first page, which SQLite writes when it creates it; without one, starting the log fails an assertion.
- Vfs.Database.WritePage: the same page is left out; page sizes are 512 to 32768.
- Vfs.Database.Apply: the shared-memory index and its locks are not modelled.
- Fsm.Fsm.Restore: snapshots have fewer than 2 to the 32 databases; the index of the loop never gets beyond that.
- Roles.Allocator.ComputeChanges: failure domains and weights only order the sorts and are left out with them.
- Rows.Batch: column types are given; how they follow from declared types is not modelled.
- Sha1.Context.Update: the transform of a block is a parameter; what the copy past the buffer overwrites is not modelled.
- The compression of snapshots, the disk mode of file system and state machine, and the second file system in src/vfs2.c.
- Log matching, commit rules and progress of replication, the tick that times elections, and how a follower finds out which entries conflict.
- The gateway, connections, transport, leader and server modules around libuv and SQLite.
- Allocation failure, except where it changes terms, votes, roles or configurations.
- The upgrade path that collects uncommitted pages of old commands before it applies them.
