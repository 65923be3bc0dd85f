/** Entries that share a batch of memory (src/raft/log.c): the batch is freed with the last
  * entry of the log that belongs to it, or the last reference that was given back. */
module LogBatches {
  import opened EntryRefs
  import opened LogSpec

  /** Some reference to an entry of the batch is left. */
  ghost predicate BatchLive(l: Log, b: Ptr) {
    exists k :: k in l.refs && l.refs[k].batch == b
  }

  /** The batch has not been lost: it was freed, or something still refers to it. */
  ghost predicate Kept(l: Log, b: Ptr) {
    b in l.freedBatches || BatchLive(l, b)
  }

  /** A batch that is freed here is in no entry of the log. */
  ghost predicate FreesUnlisted(l: Log, l': Log, b: Ptr) {
    multiset(l'.freedBatches)[b] > multiset(l.freedBatches)[b] ==> !BatchReferenced(l'.entries, b)
  }

  // One reference.

  lemma ListedLive(l: Log, b: Ptr)
    requires LogKnown(l) && BatchReferenced(l.entries, b)
    ensures BatchLive(l, b)
  {
    var i :| 0 <= i < |l.entries| && l.entries[i].batch == b;
    assert KnownAt(l, i);
    var h := EntryHandle(l.offset + 1 + i, l.entries[i]);
    assert l.refs[h.Id()].batch == b;
  }

  /** What giving up one reference does to the batches. */
  ghost predicate GivesUp(l: Log, k: Key, l': Log) {
    && Counted(l, k) && l'.refs == Decremented(l.refs, k)
    && (l'.freedBatches == l.freedBatches || l'.freedBatches == l.freedBatches + [l.refs[k].batch])
    && (LastReference(l, k) && l.refs[k].batch != NULL ==>
          l.refs[k].batch in l'.freedBatches || BatchReferenced(l'.entries, l.refs[k].batch))
    && FreesUnlisted(l, l', l.refs[k].batch)
  }

  lemma GivesUpKeeps(l: Log, k: Key, l': Log, b: Ptr)
    requires GivesUp(l, k, l') && LogKnown(l') && b != NULL
    ensures Kept(l, b) ==> Kept(l', b)
    ensures FreesUnlisted(l, l', b)
  {
    if BatchLive(l, b) && b !in l'.freedBatches {
      var k' :| k' in l.refs && l.refs[k'].batch == b;
      if k' in l'.refs {
        assert l'.refs[k'].batch == b;
      } else {
        ListedLive(l', b);
      }
    }
  }

  lemma DestroyGivesUp(l: Log, k: Key, l1: Log, b: Ptr)
    requires Counted(l, k) && l1.refs == Decremented(l.refs, k) && l1.freedBatches == l.freedBatches
    requires b == l.refs[k].batch
    ensures GivesUp(l, k, if LastReference(l, k) then Destroy(l1, l.refs[k].base, b) else l1)
  {
  }

  lemma DropLastBatches(l: Log, b: Ptr)
    requires Inv(l) && l.entries != [] && b != NULL
    ensures CanDrop(l, |l.entries| - 1)
    ensures (Kept(l, b) ==> Kept(DropLast(l), b)) && FreesUnlisted(l, DropLast(l), b)
  {
    var n := |l.entries| - 1;
    assert KnownAt(l, n);
    DropLastKeeps(l);
    var e := l.entries[n];
    var k := Key(e.term, LastIndex(l));
    DestroyGivesUp(l, k, l.(entries := l.entries[..n], refs := Decremented(l.refs, k)), e.batch);
    GivesUpKeeps(l, k, DropLast(l), b);
  }

  lemma DropFirstBatches(l: Log, b: Ptr)
    requires Inv(l) && l.entries != [] && b != NULL
    ensures CanDrop(l, 0)
    ensures (Kept(l, b) ==> Kept(DropFirst(l), b)) && FreesUnlisted(l, DropFirst(l), b)
  {
    assert KnownAt(l, 0);
    DropFirstKeeps(l);
    var e := l.entries[0];
    var k := Key(e.term, l.offset + 1);
    DestroyGivesUp(l, k, l.(offset := l.offset + 1, entries := l.entries[1..], refs := Decremented(l.refs, k)), e.batch);
    GivesUpKeeps(l, k, DropFirst(l), b);
  }

  /** A release remembers the batch it freed last, so that it frees it once. */
  lemma ReleaseOneBatches(l: Log, h: Handle, last: Ptr, b: Ptr)
    requires Inv(l) && h in l.held && b != NULL && (last == NULL || last in l.freedBatches)
    ensures Counted(l, h.Id())
    ensures var r := ReleaseOne(l, h, last);
            (Kept(l, b) ==> Kept(r.0, b)) && FreesUnlisted(l, r.0, b) && (r.1 == NULL || r.1 in r.0.freedBatches)
  {
    assert Known(l, h) && Balanced(l, h.Id());
    ReleaseOneKeeps(l, h, last);
    var r := ReleaseOne(l, h, last);
    GivesUpKeeps(l, h.Id(), r.0, b);
  }

  // Whole operations.

  /** Some entries were removed, and none was added. */
  ghost predicate Fewer(l: Log, l': Log) {
    forall b :: BatchReferenced(l'.entries, b) ==> BatchReferenced(l.entries, b)
  }

  lemma FewerEntries(l: Log, l': Log, i: nat, j: nat)
    requires i <= j <= |l.entries| && l'.entries == l.entries[i..j]
    ensures Fewer(l, l')
  {
    forall b | BatchReferenced(l'.entries, b) ensures BatchReferenced(l.entries, b) {
      var n :| 0 <= n < |l'.entries| && l'.entries[n].batch == b;
      assert l.entries[i + n].batch == b;
    }
  }

  lemma FreesThen(l: Log, l1: Log, l': Log, b: Ptr)
    requires FreesUnlisted(l, l1, b) && FreesUnlisted(l1, l', b) && Fewer(l1, l')
    ensures FreesUnlisted(l, l', b)
  {
  }

  lemma {:induction false} DropLastNBatches(l: Log, n: nat, b: Ptr)
    requires Inv(l) && n <= |l.entries| && b != NULL
    ensures (Kept(l, b) ==> Kept(DropLastN(l, n), b)) && FreesUnlisted(l, DropLastN(l, n), b)
  {
    hide Inv;
    hide DropLast;
    if n > 0 {
      var l1 := DropLastN(l, n - 1);
      DropLastNBatches(l, n - 1, b);
      DropLastNKeeps(l, n - 1);
      DropLastBatches(l1, b);
      DropLastKeeps(l1);
      FewerEntries(l1, DropLast(l1), 0, |l1.entries| - 1);
      FreesThen(l, l1, DropLast(l1), b);
    }
  }

  lemma {:induction false} DropFirstNBatches(l: Log, n: nat, b: Ptr)
    requires Inv(l) && n <= |l.entries| && b != NULL
    ensures (Kept(l, b) ==> Kept(DropFirstN(l, n), b)) && FreesUnlisted(l, DropFirstN(l, n), b)
  {
    hide Inv;
    hide DropFirst;
    if n > 0 {
      var l1 := DropFirstN(l, n - 1);
      DropFirstNBatches(l, n - 1, b);
      DropFirstNKeeps(l, n - 1);
      DropFirstBatches(l1, b);
      DropFirstKeeps(l1);
      FewerEntries(l1, DropFirst(l1), 1, |l1.entries|);
      FreesThen(l, l1, DropFirst(l1), b);
    }
  }

  lemma {:induction false} ReleaseNBatches(l: Log, index: nat, es: seq<Entry>, n: nat, b: Ptr)
    requires Inv(l) && n <= |es| && multiset(Handles(index, es)) <= l.held && b != NULL
    ensures var r := ReleaseN(l, index, es, n);
            (Kept(l, b) ==> Kept(r.0, b)) && FreesUnlisted(l, r.0, b) && (r.1 == NULL || r.1 in r.0.freedBatches)
    decreases n
  {
    hide Inv;
    hide ReleaseOne;
    hide Handles;
    if n > 0 {
      ReleaseNBatches(l, index, es, n - 1, b);
      ReleaseNKeeps(l, index, es, n - 1);
      var r := ReleaseN(l, index, es, n - 1);
      var h := EntryHandle(index + n - 1, es[n - 1]);
      NextHandle(index, es, n - 1, r.0.held);
      ReleaseOneBatches(r.0, h, r.1, b);
      ReleaseOneKeeps(r.0, h, r.1);
      FreesThen(l, r.0, ReleaseOne(r.0, h, r.1).0, b);
    }
  }

  lemma SameRefsKept(l: Log, l': Log, b: Ptr)
    requires l'.freedBatches == l.freedBatches && l.refs.Keys <= l'.refs.Keys
    requires forall k :: k in l.refs ==> l'.refs[k].batch == l.refs[k].batch
    ensures Kept(l, b) ==> Kept(l', b)
  {
    if BatchLive(l, b) {
      var k :| k in l.refs && l.refs[k].batch == b;
      assert l'.refs[k].batch == b;
    }
  }

  /** No operation loses a batch, and none frees one that an entry of the log belongs to. */
  lemma StepBatches(l: Log, op: Op, b: Ptr)
    requires Good(l) && Enabled(l, op) && b != NULL
    ensures Kept(l, b) ==> Kept(Apply(l, op), b)
    ensures op.AppendOp? && op.entry.batch == b ==> Kept(Apply(l, op), b)
    ensures FreesUnlisted(l, Apply(l, op), b)
  {
    hide Inv;
    hide DropLastN;
    hide DropFirstN;
    hide ReleaseN;
    match op
    case StartOp(_, _, _) => SameRefsKept(l, Apply(l, op), b);
    case AppendOp(e) => AppendBatches(l, e, b);
    case AcquireOp(_) => SameRefsKept(l, Apply(l, op), b);
    case ReleaseOp(index, es) => ReleaseNBatches(l, index, es, |es|, b);
    case TruncateOp(index) =>
      if l.entries != [] {
        DropLastNBatches(l, LastIndex(l) - index + 1, b);
      }
    case SnapshotOp(index, trailing) => SnapshotBatches(l, index, trailing, b);
    case RestoreOp(index, term) =>
      DropLastNBatches(l, |l.entries|, b);
      DropLastNKeeps(l, |l.entries|);
  }

  lemma AppendBatches(l: Log, e: Entry, b: Ptr)
    requires CanAppend(l, e)
    ensures Kept(l, b) ==> Kept(Append(l, e), b)
    ensures e.batch == b ==> Kept(Append(l, e), b)
  {
    var k := Key(e.term, LastIndex(l) + 1);
    assert Append(l, e).refs[k].batch == e.batch;
    SameRefsKept(l, Append(l, e), b);
  }

  lemma SnapshotBatches(l: Log, index: nat, trailing: nat, b: Ptr)
    requires Good(l) && index > 0 && TermOf(l, index) != 0 && b != NULL
    ensures var l' := Snapshot(l, index, trailing);
            (Kept(l, b) ==> Kept(l', b)) && FreesUnlisted(l, l', b)
  {
    hide Inv;
    hide DropFirstN;
    var l1 := l.(snapshotIndex := index, snapshotTerm := TermOf(l, index));
    MarkerKeeps(l, l1);
    SameRefsKept(l, l1, b);
    if index > trailing && Has(l, index - trailing) {
      DropFirstNBatches(l1, index - trailing - l.offset, b);
    }
  }

  // Runs.

  lemma {:induction false} RunBatches(l: Log, ops: seq<Op>, b: Ptr)
    requires Good(l) && Runs(l, ops) && b != NULL
    requires Kept(l, b) || exists i :: 0 <= i < |ops| && ops[i].AppendOp? && ops[i].entry.batch == b
    ensures Kept(Run(l, ops), b)
    decreases |ops|
  {
    hide Good;
    hide Kept;
    hide Enabled;
    hide Apply;
    if ops != [] {
      StepKeeps(l, ops[0]);
      StepBatches(l, ops[0], b);
      if !Kept(Apply(l, ops[0]), b) {
        var i :| 0 <= i < |ops| && ops[i].AppendOp? && ops[i].entry.batch == b;
        assert ops[1..][i - 1] == ops[i];
      }
      RunBatches(Apply(l, ops[0]), ops[1..], b);
    }
  }

  /** Over every run, a batch that came with some entry has been freed or is still referred to:
    * none is ever lost. */
  lemma NoBatchLost(ops: seq<Op>, i: nat)
    requires Runs(EMPTY, ops) && i < |ops| && ops[i].AppendOp? && ops[i].entry.batch != NULL
    ensures var l := Run(EMPTY, ops);
            ops[i].entry.batch in l.freedBatches || exists k :: k in l.refs && l.refs[k].batch == ops[i].entry.batch
  {
    hide Runs;
    hide Run;
    EmptyGood();
    RunBatches(EMPTY, ops, ops[i].entry.batch);
  }

  lemma EmptyGood()
    ensures Good(EMPTY)
  {
  }
}
