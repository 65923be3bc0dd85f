/** What the in-memory raft log means: a plain sequence of entries with an index offset,
  * the references held to them, and the payloads that were freed.
  *
  * The operations below are those of src/raft/log.c on plain values. RaftLog.dfy proves
  * that the circular buffer and the hash table compute them; here they are shown to
  * conserve references and to free every payload exactly once, over every run.
  */
module LogSpec {
  import opened EntryRefs

  datatype Kind = Command | Barrier | Change
  datatype Entry = Entry(term: nat, kind: Kind, base: Ptr, batch: Ptr, local: bool)

  /** One reference to one entry, given out by an acquisition. */
  datatype Handle = Handle(index: nat, term: nat, base: Ptr, batch: Ptr) {
    function Id(): Key { Key(term, index) }
  }

  datatype Log = Log(
    offset: nat, entries: seq<Entry>, snapshotIndex: nat, snapshotTerm: nat,
    refs: map<Key, Ref>, held: multiset<Handle>,
    freed: seq<Ptr>, freedBatches: seq<Ptr>, used: set<Ptr>)

  const EMPTY: Log := Log(0, [], 0, 0, map[], multiset{}, [], [], {})

  function HandleOf(k: Key, r: Ref): Handle {
    Handle(k.index, k.term, r.base, r.batch)
  }

  function EntryHandle(index: nat, e: Entry): Handle {
    Handle(index, e.term, e.base, e.batch)
  }

  function LastIndex(l: Log): nat {
    l.offset + |l.entries|
  }

  predicate Has(l: Log, index: nat) {
    l.offset < index <= LastIndex(l)
  }

  function At(l: Log, index: nat): Entry
    requires Has(l, index)
  {
    l.entries[index - l.offset - 1]
  }

  /** The marker agrees with the entry it stands for, while that entry is still there. */
  predicate Coherent(l: Log) {
    Has(l, l.snapshotIndex) ==> At(l, l.snapshotIndex).term == l.snapshotTerm
  }

  /** The term of an index, or zero when the log cannot know it. */
  function TermOf(l: Log, index: nat): nat {
    if Has(l, index) then At(l, index).term
    else if index == l.snapshotIndex && index <= LastIndex(l) then l.snapshotTerm
    else 0
  }

  // Operations.

  function Append(l: Log, e: Entry): Log {
    l.(entries := l.entries + [e],
       refs := l.refs[Key(e.term, LastIndex(l) + 1) := Ref(1, e.base, e.batch)],
       used := if Owned(e.base, e.batch) then l.used + {e.base} else l.used)
  }

  /** The entries from an index onward; none when the log does not have the index. */
  function Suffix(l: Log, index: nat): seq<Entry> {
    if Has(l, index) then l.entries[index - l.offset - 1..] else []
  }

  /** The key k is one of the entries es, which start at the given index. */
  predicate Covers(index: nat, es: seq<Entry>, k: Key) {
    index <= k.index < index + |es| && es[k.index - index].term == k.term
  }

  function AcquiredRefs(refs: map<Key, Ref>, index: nat, es: seq<Entry>): map<Key, Ref> {
    map k | k in refs :: if Covers(index, es, k) then Incremented(refs[k]) else refs[k]
  }

  function Handles(index: nat, es: seq<Entry>): set<Handle> {
    set i | 0 <= i < |es| :: EntryHandle(index + i, es[i])
  }

  function Acquire(l: Log, index: nat): Log {
    var es := Suffix(l, index);
    l.(refs := AcquiredRefs(l.refs, index, es), held := l.held + multiset(Handles(index, es)))
  }

  /** A payload of its own, not part of a batch. */
  predicate Owned(base: Ptr, batch: Ptr) {
    batch == NULL && base != NULL
  }

  predicate BatchReferenced(es: seq<Entry>, batch: Ptr) {
    exists i :: 0 <= i < |es| && es[i].batch == batch
  }

  /** Free what an entry without references leaves behind. */
  function Destroy(l: Log, base: Ptr, batch: Ptr): Log {
    if batch == NULL then
      if base != NULL then l.(freed := l.freed + [base]) else l
    else if !BatchReferenced(l.entries, batch) then l.(freedBatches := l.freedBatches + [batch])
    else l
  }

  predicate Counted(l: Log, k: Key) {
    k in l.refs && l.refs[k].count > 0
  }

  predicate LastReference(l: Log, k: Key) {
    Counted(l, k) && l.refs[k].count == 1
  }

  /** The entry at an end of the log is counted, as it is in every state that can arise. */
  predicate CanDrop(l: Log, i: int) {
    0 <= i < |l.entries| && Counted(l, Key(l.entries[i].term, l.offset + 1 + i))
  }

  function DropLast(l: Log): Log
    requires CanDrop(l, |l.entries| - 1)
  {
    var e := l.entries[|l.entries| - 1];
    var k := Key(e.term, LastIndex(l));
    var l' := l.(entries := l.entries[..|l.entries| - 1], refs := Decremented(l.refs, k));
    if LastReference(l, k) then Destroy(l', e.base, e.batch) else l'
  }

  function DropFirst(l: Log): Log
    requires CanDrop(l, 0)
  {
    var e := l.entries[0];
    var k := Key(e.term, l.offset + 1);
    var l' := l.(offset := l.offset + 1, entries := l.entries[1..], refs := Decremented(l.refs, k));
    if LastReference(l, k) then Destroy(l', e.base, e.batch) else l'
  }

  /** The log loses its last n entries, newest first. */
  function DropLastN(l: Log, n: nat): Log {
    if n == 0 then l else
      var l' := DropLastN(l, n - 1);
      if CanDrop(l', |l'.entries| - 1) then DropLast(l') else l'
  }

  /** The log loses its first n entries, oldest first. */
  function DropFirstN(l: Log, n: nat): Log {
    if n == 0 then l else
      var l' := DropFirstN(l, n - 1);
      if CanDrop(l', 0) then DropFirst(l') else l'
  }

  function Truncate(l: Log, index: nat): Log
    requires l.entries != [] ==> Has(l, index)
  {
    if l.entries == [] then l else DropLastN(l, LastIndex(l) - index + 1)
  }

  function Snapshot(l: Log, index: nat, trailing: nat): Log {
    var l' := l.(snapshotIndex := index, snapshotTerm := TermOf(l, index));
    if index <= trailing || !Has(l, index - trailing) then l'
    else DropFirstN(l', index - trailing - l.offset)
  }

  function Restore(l: Log, index: nat, term: nat): Log {
    DropLastN(l, |l.entries|).(snapshotIndex := index, snapshotTerm := term, offset := index)
  }

  /** Give back one reference; last is the batch freed most recently by this release. */
  function ReleaseOne(l: Log, h: Handle, last: Ptr): (Log, Ptr)
    requires Counted(l, h.Id())
  {
    var l' := l.(refs := Decremented(l.refs, h.Id()), held := l.held - multiset{h});
    if !LastReference(l, h.Id()) then (l', last)
    else if h.batch == NULL then (Destroy(l', h.base, h.batch), last)
    else if h.batch != last && !BatchReferenced(l'.entries, h.batch) then (Destroy(l', h.base, h.batch), h.batch)
    else (l', last)
  }

  /** Give back the first n of the references that an acquisition at index took. */
  function ReleaseN(l: Log, index: nat, es: seq<Entry>, n: nat): (Log, Ptr)
    requires n <= |es|
    decreases n
  {
    if n == 0 then (l, NULL) else
      var r := ReleaseN(l, index, es, n - 1);
      var h := EntryHandle(index + n - 1, es[n - 1]);
      if Counted(r.0, h.Id()) then ReleaseOne(r.0, h, r.1) else r
  }

  function Release(l: Log, index: nat, es: seq<Entry>): Log {
    ReleaseN(l, index, es, |es|).0
  }

  // Conservation.

  ghost predicate SameOutside(l: Log, l': Log) {
    l'.snapshotIndex == l.snapshotIndex && l'.snapshotTerm == l.snapshotTerm && l'.held == l.held && l'.used == l.used
  }

  ghost predicate SameLog(l: Log, l': Log) {
    && l'.snapshotIndex == l.snapshotIndex && l'.snapshotTerm == l.snapshotTerm
    && l'.offset == l.offset && l'.entries == l.entries && l'.used == l.used
  }

  predicate InLog(l: Log, k: Key) {
    Has(l, k.index) && At(l, k.index).term == k.term
  }

  /** How many references exist: the log's own, and the acquisitions not yet released. */
  function References(l: Log, k: Key): nat
    requires k in l.refs
  {
    (if InLog(l, k) then 1 else 0) + l.held[HandleOf(k, l.refs[k])]
  }

  ghost predicate LogKnown(l: Log) {
    forall i :: 0 <= i < |l.entries| ==> KnownAt(l, i)
  }

  ghost predicate KnownAt(l: Log, i: nat)
    requires i < |l.entries|
  {
    Known(l, EntryHandle(l.offset + 1 + i, l.entries[i]))
  }

  ghost predicate HeldKnown(l: Log) {
    forall h {:trigger Known(l, h)} :: h in l.held ==> Known(l, h)
  }

  ghost predicate Known(l: Log, h: Handle) {
    h.Id() in l.refs && HandleOf(h.Id(), l.refs[h.Id()]) == h
  }

  /** Reference conservation: each count is the number of references that exist. */
  ghost predicate Conserved(l: Log) {
    && LogKnown(l) && HeldKnown(l)
    && forall k {:trigger Balanced(l, k)} :: k in l.refs ==> Balanced(l, k)
  }

  predicate Balanced(l: Log, k: Key) {
    k in l.refs && l.refs[k].count == References(l, k) && l.refs[k].count > 0
  }

  ghost predicate OwnedRef(l: Log, k: Key) {
    k in l.refs && Owned(l.refs[k].base, l.refs[k].batch)
  }

  /** A payload is still owned by a reference. */
  ghost predicate Live(l: Log, p: Ptr) {
    exists k :: OwnedRef(l, k) && l.refs[k].base == p
  }

  /** Every payload given to the log is either live or freed, once; and never both. */
  ghost predicate FreedOnce(l: Log) {
    && (forall k :: OwnedRef(l, k) ==> l.refs[k].base in l.used && l.refs[k].base !in l.freed)
    && (forall k, k' :: OwnedRef(l, k) && OwnedRef(l, k') && l.refs[k].base == l.refs[k'].base ==> k == k')
    && (forall i, j :: 0 <= i < j < |l.freed| ==> l.freed[i] != l.freed[j])
    && (forall p :: p in l.freed ==> p in l.used)
    && (forall p :: p in l.used ==> p in l.freed || Live(l, p))
  }

  ghost predicate Inv(l: Log) {
    ValidKeys(l.refs) && Conserved(l) && FreedOnce(l)
  }

  /** The snapshot marker has no part in the accounting. */
  lemma MarkerKeeps(l: Log, l': Log)
    requires Inv(l) && l' == l.(snapshotIndex := l'.snapshotIndex, snapshotTerm := l'.snapshotTerm)
    ensures Inv(l')
  {
    MarkerKeepsCounts(l, l');
    SameRefsKeepPayloads(l, l');
  }

  lemma MarkerKeepsCounts(l: Log, l': Log)
    requires Conserved(l) && l' == l.(snapshotIndex := l'.snapshotIndex, snapshotTerm := l'.snapshotTerm)
    ensures Conserved(l')
  {
    forall i | 0 <= i < |l'.entries| ensures KnownAt(l', i) {
      assert KnownAt(l, i);
    }
    forall h | h in l'.held ensures Known(l', h) {
      assert Known(l, h);
    }
    forall k | k in l'.refs ensures Balanced(l', k) {
      assert Balanced(l, k);
      MarkerBalanced(l, l', k);
    }
  }

  lemma MarkerBalanced(l: Log, l': Log, k: Key)
    requires Balanced(l, k) && l' == l.(snapshotIndex := l'.snapshotIndex, snapshotTerm := l'.snapshotTerm)
    ensures Balanced(l', k)
  {
    assert InLog(l', k) <==> InLog(l, k);
  }

  /** Payloads are accounted for by the references, whatever their counts. */
  lemma SameRefsKeepPayloads(l: Log, l': Log)
    requires FreedOnce(l) && l'.freed == l.freed && l'.used == l.used && l'.refs.Keys == l.refs.Keys
    requires forall k :: k in l.refs ==> l'.refs[k].base == l.refs[k].base && l'.refs[k].batch == l.refs[k].batch
    ensures FreedOnce(l')
  {
    assert forall k :: OwnedRef(l, k) <==> OwnedRef(l', k);
    forall p | p in l'.used ensures p in l'.freed || Live(l', p) {
      if p !in l.freed {
        var k :| OwnedRef(l, k) && l.refs[k].base == p;
        assert OwnedRef(l', k) && l'.refs[k].base == p;
      }
    }
  }

  /** Dropping a reference, given where it came from, keeps the payload accounting. */
  lemma DropRefFrees(l: Log, l1: Log, k: Key, l': Log)
    requires FreedOnce(l) && Counted(l, k)
    requires l1.refs == Decremented(l.refs, k) && l1.freed == l.freed && l1.used == l.used
    requires l'.refs == l1.refs && l'.used == l1.used
    requires l'.freed == if LastReference(l, k) && OwnedRef(l, k) then l.freed + [l.refs[k].base] else l.freed
    ensures FreedOnce(l')
  {
    forall p | p in l'.used ensures p in l'.freed || Live(l', p) {
      if p !in l'.freed {
        assert p !in l.freed;
        var k' :| OwnedRef(l, k') && l.refs[k'].base == p;
        assert OwnedRef(l', k') && l'.refs[k'].base == p;
      }
    }
    forall k' | OwnedRef(l', k') ensures OwnedRef(l, k') && l'.refs[k'].base == l.refs[k'].base {}
  }

  lemma DropLastKeeps(l: Log)
    requires Inv(l) && l.entries != []
    ensures CanDrop(l, |l.entries| - 1)
    ensures Inv(DropLast(l)) && DropLast(l).entries == l.entries[..|l.entries| - 1]
    ensures SameOutside(l, DropLast(l)) && DropLast(l).offset == l.offset
  {
    var n := |l.entries|;
    var e := l.entries[n - 1];
    var k := Key(e.term, LastIndex(l));
    assert KnownAt(l, n - 1) && Balanced(l, k);
    var l1 := l.(entries := l.entries[..n - 1], refs := Decremented(l.refs, k));
    var l' := DropLast(l);
    DropRefFrees(l, l1, k, l');
    UnlistKeeps(l, k, l', 0);
  }

  lemma DropFirstKeeps(l: Log)
    requires Inv(l) && l.entries != []
    ensures CanDrop(l, 0)
    ensures Inv(DropFirst(l)) && DropFirst(l).entries == l.entries[1..]
    ensures SameOutside(l, DropFirst(l)) && DropFirst(l).offset == l.offset + 1
  {
    var e := l.entries[0];
    var k := Key(e.term, l.offset + 1);
    assert KnownAt(l, 0) && Balanced(l, k);
    var l1 := l.(offset := l.offset + 1, entries := l.entries[1..], refs := Decremented(l.refs, k));
    var l' := DropFirst(l);
    DropRefFrees(l, l1, k, l');
    UnlistKeeps(l, k, l', 1);
  }

  /** The log keeps all but one of its entries, which are those from the given start on. */
  ghost predicate OneLess(l: Log, k: Key, l': Log, start: nat) {
    && |l'.entries| == |l.entries| - 1 && start <= 1
    && l'.entries == l.entries[start..start + |l'.entries|]
    && l'.offset == l.offset + start
    && k.index == if start == 1 then l.offset + 1 else LastIndex(l)
  }

  /** The entry at one end of the log leaves it, together with the log's reference. */
  lemma UnlistKeeps(l: Log, k: Key, l': Log, start: nat)
    requires Conserved(l) && InLog(l, k) && Balanced(l, k) && ValidKeys(l.refs)
    requires l'.refs == Decremented(l.refs, k) && l'.held == l.held
    requires l.entries != [] && OneLess(l, k, l', start)
    ensures Conserved(l') && ValidKeys(l'.refs)
  {
    forall i | 0 <= i < |l'.entries| ensures KnownAt(l', i) {
      assert KnownAt(l, start + i);
    }
    forall h | h in l'.held ensures Known(l', h) {
      HeldOutlives(l, k, h);
    }
    forall k' | k' in l'.refs ensures Balanced(l', k') {
      StillInLog(l, k, l', start, k');
      assert Balanced(l, k');
    }
  }

  /** The log's own reference is not the one an acquisition holds. */
  lemma HeldOutlives(l: Log, k: Key, h: Handle)
    requires Conserved(l) && InLog(l, k) && Balanced(l, k) && h in l.held
    ensures Known(l.(refs := Decremented(l.refs, k)), h)
  {
    assert Known(l, h);
  }

  lemma StillInLog(l: Log, k: Key, l': Log, start: nat, k': Key)
    requires l.entries != [] && OneLess(l, k, l', start) && InLog(l, k)
    ensures InLog(l', k') <==> InLog(l, k') && k' != k
  {
  }

  lemma ReleaseOneKeeps(l: Log, h: Handle, last: Ptr)
    requires Inv(l) && h in l.held
    ensures Counted(l, h.Id()) && Inv(ReleaseOne(l, h, last).0) && SameLog(l, ReleaseOne(l, h, last).0)
    ensures ReleaseOne(l, h, last).0.held == l.held - multiset{h}
  {
    var k := h.Id();
    assert Known(l, h) && Balanced(l, k);
    var l1 := l.(refs := Decremented(l.refs, k), held := l.held - multiset{h});
    var l' := ReleaseOne(l, h, last).0;
    DropRefFrees(l, l1, k, l');
    GiveBackKeeps(l, h, l');
  }

  lemma GiveBackKeeps(l: Log, h: Handle, l': Log)
    requires Conserved(l) && h in l.held && Counted(l, h.Id()) && Known(l, h)
    requires l'.refs == Decremented(l.refs, h.Id()) && l'.held == l.held - multiset{h}
    requires l'.entries == l.entries && l'.offset == l.offset
    ensures Conserved(l')
  {
    var k := h.Id();
    assert Balanced(l, k);
    forall i | 0 <= i < |l'.entries| ensures KnownAt(l', i) {
      assert KnownAt(l, i);
    }
    forall h' | h' in l'.held ensures Known(l', h') {
      assert h' in l.held && Known(l, h');
    }
    forall k' | k' in l'.refs ensures Balanced(l', k') {
      assert Balanced(l, k');
      assert HandleOf(k', l'.refs[k']) == HandleOf(k', l.refs[k']);
    }
  }

  /** The handles of an acquisition, with the first one set apart. */
  lemma NextHandle(index: nat, es: seq<Entry>, n: nat, held: multiset<Handle>)
    requires n < |es| && multiset(Handles(index + n, es[n..])) <= held
    ensures EntryHandle(index + n, es[n]) in held
    ensures multiset(Handles(index + n + 1, es[n + 1..])) <= held - multiset{EntryHandle(index + n, es[n])}
  {
    var h := EntryHandle(index + n, es[n]);
    var now, later := Handles(index + n, es[n..]), Handles(index + n + 1, es[n + 1..]);
    assert es[n..][0] == es[n];
    assert h == EntryHandle(index + n + 0, es[n..][0]);
    assert h in now;
    forall h' | h' in later ensures h' in now && h' != h {
      var i :| 0 <= i < |es[n + 1..]| && h' == EntryHandle(index + n + 1 + i, es[n + 1..][i]);
      assert h' == EntryHandle(index + n + (i + 1), es[n..][i + 1]);
    }
    assert multiset(later) <= multiset(now) - multiset{h};
  }

  lemma AppendKeeps(l: Log, e: Entry)
    requires Inv(l) && CanAppend(l, e)
    ensures Inv(Append(l, e))
  {
    AppendKeepsCounts(l, e);
    AppendKeepsPayloads(l, e);
  }

  lemma AppendKeepsCounts(l: Log, e: Entry)
    requires Conserved(l) && CanAppend(l, e)
    ensures Conserved(Append(l, e))
  {
    var k := Key(e.term, LastIndex(l) + 1);
    var l' := Append(l, e);
    forall i | 0 <= i < |l'.entries| ensures KnownAt(l', i) {
      if i < |l.entries| {
        assert KnownAt(l, i);
      }
    }
    forall h | h in l'.held ensures Known(l', h) && h.Id() != k {
      assert Known(l, h);
    }
    assert l'.held[HandleOf(k, l'.refs[k])] == 0 by {
      assert HandleOf(k, l'.refs[k]).Id() == k;
    }
    forall k' | k' in l'.refs ensures Balanced(l', k') {
      if k' != k {
        assert Balanced(l, k');
        AppendKeepsCount(l, e, k');
      }
    }
  }

  lemma AppendKeepsCount(l: Log, e: Entry, k: Key)
    requires k in l.refs && k != Key(e.term, LastIndex(l) + 1)
    ensures References(Append(l, e), k) == References(l, k)
  {
    assert InLog(Append(l, e), k) <==> InLog(l, k);
  }

  lemma AppendKeepsPayloads(l: Log, e: Entry)
    requires FreedOnce(l) && CanAppend(l, e)
    ensures FreedOnce(Append(l, e))
  {
    var k := Key(e.term, LastIndex(l) + 1);
    var l' := Append(l, e);
    assert forall k' :: OwnedRef(l', k') && k' != k ==> OwnedRef(l, k') && l.refs[k'] == l'.refs[k'];
    forall p | p in l'.used ensures p in l'.freed || Live(l', p) {
      if p in l.used && p !in l.freed {
        var k' :| OwnedRef(l, k') && l.refs[k'].base == p;
        assert OwnedRef(l', k') && l'.refs[k'].base == p;
      } else if p !in l.used {
        assert OwnedRef(l', k) && l'.refs[k].base == p;
      }
    }
  }

  /** What the code asserts of an append, and that the payload was not given to it before. */
  ghost predicate CanAppend(l: Log, e: Entry) {
    && e.term > 0
    && Key(e.term, LastIndex(l) + 1) !in l.refs
    && (Owned(e.base, e.batch) ==> e.base !in l.used)
  }

  /** One more reference to each entry from the index onward still fits in its counter. */
  ghost predicate CountersFit(l: Log, index: nat) {
    forall k :: k in l.refs && Covers(index, Suffix(l, index), k) ==> l.refs[k].count + 1 < COUNT_MODULUS
  }

  /** An acquisition conserves references exactly when no counter wraps around. */
  lemma AcquireKeeps(l: Log, index: nat)
    requires Inv(l) && forall k :: k in l.refs ==> l.refs[k].count < COUNT_MODULUS
    ensures CountersFit(l, index) <==> Inv(Acquire(l, index))
    ensures CountersFit(l, index) <==> Positive(Acquire(l, index).refs)
  {
    hide Conserved;
    hide FreedOnce;
    var l' := Acquire(l, index);
    if CountersFit(l, index) {
      AcquireKeepsCounts(l, index);
      SameRefsKeepPayloads(l, l');
      ConservedPositive(l');
    } else {
      var k :| k in l.refs && Covers(index, Suffix(l, index), k) && !(l.refs[k].count + 1 < COUNT_MODULUS);
      assert l'.refs[k].count == 0;
      if Conserved(l') {
        ConservedPositive(l');
        assert false;
      }
    }
  }

  lemma ConservedPositive(l: Log)
    requires Conserved(l)
    ensures Positive(l.refs)
  {
    forall k | k in l.refs ensures l.refs[k].count > 0 {
      assert Balanced(l, k);
    }
  }

  lemma AcquireKeepsCounts(l: Log, index: nat)
    requires Conserved(l) && CountersFit(l, index)
    ensures Conserved(Acquire(l, index))
  {
    var l' := Acquire(l, index);
    AcquireKeepsKnown(l, index);
    forall k | k in l'.refs ensures Balanced(l', k) {
      assert Balanced(l, k);
      AcquireAdds(l, index, k);
      AcquireCounts(l, index, k);
    }
  }

  lemma AcquireCounts(l: Log, index: nat, k: Key)
    requires CountersFit(l, index) && k in l.refs
    ensures Acquire(l, index).refs[k].count == l.refs[k].count + if Covers(index, Suffix(l, index), k) then 1 else 0
  {
  }

  lemma AcquireKeepsKnown(l: Log, index: nat)
    requires LogKnown(l) && HeldKnown(l)
    ensures LogKnown(Acquire(l, index)) && HeldKnown(Acquire(l, index))
  {
    var l' := Acquire(l, index);
    forall h | h in l'.held ensures Known(l', h) {
      if h !in l.held {
        SuffixKnown(l, index, h);
      }
      assert Known(l, h);
    }
    forall i | 0 <= i < |l'.entries| ensures KnownAt(l', i) {
      assert KnownAt(l, i);
    }
  }

  lemma AcquireAdds(l: Log, index: nat, k: Key)
    requires LogKnown(l) && k in l.refs
    ensures References(Acquire(l, index), k) == References(l, k) + if Covers(index, Suffix(l, index), k) then 1 else 0
  {
    HandleTaken(l, index, k);
  }

  lemma SuffixKnown(l: Log, index: nat, h: Handle)
    requires LogKnown(l) && h in Handles(index, Suffix(l, index))
    ensures Known(l, h)
  {
    var es := Suffix(l, index);
    var i :| 0 <= i < |es| && h == EntryHandle(index + i, es[i]);
    var j := index - l.offset - 1 + i;
    assert es[i] == l.entries[j] && KnownAt(l, j);
  }

  lemma HandleTaken(l: Log, index: nat, k: Key)
    requires LogKnown(l) && k in l.refs
    ensures HandleOf(k, l.refs[k]) in Handles(index, Suffix(l, index)) <==> Covers(index, Suffix(l, index), k)
  {
    var es := Suffix(l, index);
    if Covers(index, es, k) {
      var i := k.index - index;
      var j := index - l.offset - 1 + i;
      assert es[i] == l.entries[j] && KnownAt(l, j);
      assert HandleOf(k, l.refs[k]) == EntryHandle(index + i, es[i]);
    }
  }

  // Whole operations.

  lemma {:induction false} DropLastNKeeps(l: Log, n: nat)
    requires Inv(l) && n <= |l.entries|
    ensures var l' := DropLastN(l, n);
            Inv(l') && l'.entries == l.entries[..|l.entries| - n] && SameOutside(l, l') && l'.offset == l.offset
  {
    hide Inv;
    hide DropLast;
    if n > 0 {
      DropLastNKeeps(l, n - 1);
      DropLastKeeps(DropLastN(l, n - 1));
    }
  }

  lemma {:induction false} DropFirstNKeeps(l: Log, n: nat)
    requires Inv(l) && n <= |l.entries|
    ensures var l' := DropFirstN(l, n);
            Inv(l') && l'.entries == l.entries[n..] && SameOutside(l, l') && l'.offset == l.offset + n
  {
    hide Inv;
    hide DropFirst;
    if n > 0 {
      DropFirstNKeeps(l, n - 1);
      DropFirstKeeps(DropFirstN(l, n - 1));
    }
  }

  lemma {:induction false} ReleaseNKeeps(l: Log, index: nat, es: seq<Entry>, n: nat)
    requires Inv(l) && n <= |es| && multiset(Handles(index, es)) <= l.held
    ensures var l' := ReleaseN(l, index, es, n).0;
            Inv(l') && SameLog(l, l') && multiset(Handles(index + n, es[n..])) <= l'.held
    decreases n
  {
    hide Inv;
    hide ReleaseOne;
    hide Handles;
    if n == 0 {
      assert es[0..] == es;
    } else {
      ReleaseNKeeps(l, index, es, n - 1);
      var r := ReleaseN(l, index, es, n - 1);
      var h := EntryHandle(index + n - 1, es[n - 1]);
      NextHandle(index, es, n - 1, r.0.held);
      ReleaseOneKeeps(r.0, h, r.1);
    }
  }

  /** An empty log may move its offset. */
  lemma MoveEmptyKeeps(l: Log, l': Log)
    requires Inv(l) && l.entries == [] && l' == l.(offset := l'.offset)
    ensures Inv(l')
  {
    forall h | h in l'.held ensures Known(l', h) {
      assert Known(l, h);
    }
    forall k | k in l'.refs ensures Balanced(l', k) {
      assert Balanced(l, k);
    }
    SameRefsKeepPayloads(l, l');
  }

  // Runs.

  datatype Op =
    | StartOp(snapshotIndex: nat, snapshotTerm: nat, startIndex: nat)
    | AppendOp(entry: Entry)
    | AcquireOp(index: nat)
    | ReleaseOp(index: nat, entries: seq<Entry>)
    | TruncateOp(index: nat)
    | SnapshotOp(index: nat, trailing: nat)
    | RestoreOp(index: nat, term: nat)

  function Start(l: Log, snapshotIndex: nat, snapshotTerm: nat, startIndex: nat): Log
    requires startIndex > 0
  {
    l.(snapshotIndex := snapshotIndex, snapshotTerm := snapshotTerm, offset := startIndex - 1)
  }

  /** What the code asserts of its callers, and that no counter wraps. */
  ghost predicate Enabled(l: Log, op: Op) {
    match op
    case StartOp(si, st, start) => l.entries == [] && 0 < start <= si + 1 && (si == 0 || st != 0)
    case AppendOp(e) => CanAppend(l, e)
    case AcquireOp(index) => index > 0 && CountersFit(l, index)
    case ReleaseOp(index, es) => multiset(Handles(index, es)) <= l.held
    case TruncateOp(index) => l.entries != [] ==> Has(l, index)
    case SnapshotOp(index, trailing) => index > 0 && TermOf(l, index) != 0
    case RestoreOp(index, term) => index > 0 && term > 0
  }

  function Apply(l: Log, op: Op): Log {
    match op
    case StartOp(si, st, start) => if start > 0 then Start(l, si, st, start) else l
    case AppendOp(e) => Append(l, e)
    case AcquireOp(index) => Acquire(l, index)
    case ReleaseOp(index, es) => Release(l, index, es)
    case TruncateOp(index) => if l.entries != [] ==> Has(l, index) then Truncate(l, index) else l
    case SnapshotOp(index, trailing) => Snapshot(l, index, trailing)
    case RestoreOp(index, term) => Restore(l, index, term)
  }

  /** The log starts behind its snapshot, so nothing is missing between the two. */
  predicate NoGap(l: Log) {
    l.offset <= l.snapshotIndex && (l.snapshotIndex > 0 ==> l.snapshotTerm > 0)
  }

  ghost predicate Good(l: Log) {
    Inv(l) && NoGap(l) && forall k :: k in l.refs ==> l.refs[k].count < COUNT_MODULUS
  }

  lemma GoodFacts(l: Log)
    requires Good(l)
    ensures Inv(l) && NoGap(l) && LogKnown(l) && Positive(l.refs) && ValidKeys(l.refs)
  {
    ConservedPositive(l);
  }

  /** Dropping references never makes a count larger. */
  ghost predicate NoLarger(refs: map<Key, Ref>, refs': map<Key, Ref>) {
    forall k :: k in refs' ==> k in refs && refs'[k].count <= refs[k].count
  }

  lemma NoLargerTransitive(a: map<Key, Ref>, b: map<Key, Ref>, c: map<Key, Ref>)
    requires NoLarger(a, b) && NoLarger(b, c)
    ensures NoLarger(a, c)
  {
  }

  lemma DropsLower(l: Log)
    ensures CanDrop(l, 0) ==> NoLarger(l.refs, DropFirst(l).refs)
    ensures CanDrop(l, |l.entries| - 1) ==> NoLarger(l.refs, DropLast(l).refs)
  {
  }

  lemma ReleaseOneLower(l: Log, h: Handle, last: Ptr)
    requires Counted(l, h.Id())
    ensures NoLarger(l.refs, ReleaseOne(l, h, last).0.refs)
  {
  }

  lemma {:induction false} DropLastLower(l: Log, n: nat)
    ensures NoLarger(l.refs, DropLastN(l, n).refs)
  {
    if n > 0 {
      hide NoLarger;
      hide DropLast;
      hide CanDrop;
      DropLastLower(l, n - 1);
      DropsLower(DropLastN(l, n - 1));
      NoLargerTransitive(l.refs, DropLastN(l, n - 1).refs, DropLastN(l, n).refs);
    }
  }

  lemma {:induction false} DropFirstLower(l: Log, n: nat)
    ensures NoLarger(l.refs, DropFirstN(l, n).refs)
  {
    if n > 0 {
      hide NoLarger;
      hide DropFirst;
      hide CanDrop;
      DropFirstLower(l, n - 1);
      DropsLower(DropFirstN(l, n - 1));
      NoLargerTransitive(l.refs, DropFirstN(l, n - 1).refs, DropFirstN(l, n).refs);
    }
  }

  lemma {:induction false} ReleasesLower(l: Log, index: nat, es: seq<Entry>, n: nat)
    requires n <= |es|
    ensures NoLarger(l.refs, ReleaseN(l, index, es, n).0.refs)
    decreases n
  {
    if n > 0 {
      var r := ReleaseN(l, index, es, n - 1);
      var h := EntryHandle(index + n - 1, es[n - 1]);
      ReleasesLower(l, index, es, n - 1);
      if Counted(r.0, h.Id()) {
        hide NoLarger;
        hide ReleaseOne;
        ReleaseOneLower(r.0, h, r.1);
        NoLargerTransitive(l.refs, r.0.refs, ReleaseOne(r.0, h, r.1).0.refs);
      }
    }
  }

  lemma StepKeeps(l: Log, op: Op)
    requires Good(l) && Enabled(l, op)
    ensures Good(Apply(l, op))
  {
    match op
    case StartOp(si, st, start) => StartGood(l, si, st, start);
    case AppendOp(e) => AppendGood(l, e);
    case AcquireOp(index) => AcquireGood(l, index);
    case ReleaseOp(index, es) => ReleaseGood(l, index, es);
    case TruncateOp(index) => TruncateGood(l, index);
    case SnapshotOp(index, trailing) => SnapshotGood(l, index, trailing);
    case RestoreOp(index, term) => RestoreGood(l, index, term);
  }

  lemma StartGood(l: Log, si: nat, st: nat, start: nat)
    requires Good(l) && Enabled(l, StartOp(si, st, start))
    ensures Good(Start(l, si, st, start))
  {
    hide Inv;
    var l' := l.(snapshotIndex := si, snapshotTerm := st);
    MarkerKeeps(l, l');
    MoveEmptyKeeps(l', Start(l, si, st, start));
  }

  lemma AppendGood(l: Log, e: Entry)
    requires Good(l) && CanAppend(l, e)
    ensures Good(Append(l, e))
  {
    hide Inv;
    AppendKeeps(l, e);
  }

  lemma AcquireGood(l: Log, index: nat)
    requires Good(l) && CountersFit(l, index)
    ensures Good(Acquire(l, index))
  {
    hide Inv;
    hide Acquire;
    AcquireKeeps(l, index);
    AcquireBounded(l, index);
  }

  lemma ReleaseGood(l: Log, index: nat, es: seq<Entry>)
    requires Good(l) && multiset(Handles(index, es)) <= l.held
    ensures Good(Release(l, index, es))
  {
    hide Inv;
    hide ReleaseN;
    ReleaseNKeeps(l, index, es, |es|);
    ReleasesLower(l, index, es, |es|);
  }

  lemma TruncateGood(l: Log, index: nat)
    requires Good(l) && (l.entries != [] ==> Has(l, index))
    ensures Good(Truncate(l, index))
  {
    hide Inv;
    hide DropLastN;
    if l.entries != [] {
      DropLastNKeeps(l, LastIndex(l) - index + 1);
      DropLastLower(l, LastIndex(l) - index + 1);
    }
  }

  lemma RestoreGood(l: Log, index: nat, term: nat)
    requires Good(l) && index > 0 && term > 0
    ensures Good(Restore(l, index, term))
  {
    hide Inv;
    hide DropLastN;
    var l1 := DropLastN(l, |l.entries|);
    DropLastNKeeps(l, |l.entries|);
    DropLastLower(l, |l.entries|);
    var l2 := l1.(offset := index);
    MoveEmptyKeeps(l1, l2);
    MarkerKeeps(l2, Restore(l, index, term));
  }

  lemma AcquireBounded(l: Log, index: nat)
    requires forall k :: k in l.refs ==> l.refs[k].count < COUNT_MODULUS
    ensures var l' := Acquire(l, index);
            && (forall k :: k in l'.refs ==> l'.refs[k].count < COUNT_MODULUS)
            && l'.offset == l.offset && l'.snapshotIndex == l.snapshotIndex && l'.snapshotTerm == l.snapshotTerm
  {
  }

  lemma SnapshotGood(l: Log, index: nat, trailing: nat)
    requires Good(l) && index > 0 && TermOf(l, index) != 0
    ensures Good(Snapshot(l, index, trailing))
  {
    hide Inv;
    hide DropFirstN;
    var l' := l.(snapshotIndex := index, snapshotTerm := TermOf(l, index));
    MarkerKeeps(l, l');
    if index > trailing && Has(l, index - trailing) {
      DropFirstNKeeps(l', index - trailing - l.offset);
      DropFirstLower(l', index - trailing - l.offset);
    }
  }

  ghost predicate Runs(l: Log, ops: seq<Op>)
    decreases |ops|
  {
    ops == [] || (Enabled(l, ops[0]) && Runs(Apply(l, ops[0]), ops[1..]))
  }

  function Run(l: Log, ops: seq<Op>): Log
    decreases |ops|
  {
    if ops == [] then l else Run(Apply(l, ops[0]), ops[1..])
  }

  lemma {:induction false} RunKeeps(l: Log, ops: seq<Op>)
    requires Good(l) && Runs(l, ops)
    ensures Good(Run(l, ops))
    decreases |ops|
  {
    hide Good;
    hide Apply;
    if ops != [] {
      StepKeeps(l, ops[0]);
      RunKeeps(Apply(l, ops[0]), ops[1..]);
    }
  }

  // The term of the snapshot's last entry.

  /** Another term is appended at the index of the snapshot's last entry. */
  predicate Contradicts(l: Log, op: Op) {
    op.AppendOp? && LastIndex(l) + 1 == l.snapshotIndex && op.entry.term != l.snapshotTerm
  }

  lemma SnapshotCoherent(l: Log, index: nat, trailing: nat)
    requires Good(l) && Coherent(l) && index > 0 && TermOf(l, index) != 0
    ensures Coherent(Snapshot(l, index, trailing))
  {
    hide Inv;
    hide DropFirstN;
    var l' := l.(snapshotIndex := index, snapshotTerm := TermOf(l, index));
    MarkerKeeps(l, l');
    if index > trailing && Has(l, index - trailing) {
      DropFirstNKeeps(l', index - trailing - l.offset);
    }
  }

  /** An operation keeps the marker and the log in agreement on the term of the snapshot's
    * last entry, exactly when it does not append another term there. */
  lemma CoherentExactly(l: Log, op: Op)
    requires Good(l) && Coherent(l) && Enabled(l, op)
    ensures Coherent(Apply(l, op)) <==> !Contradicts(l, op)
  {
    hide Inv;
    hide DropLastN;
    hide ReleaseN;
    match op
    case ReleaseOp(index, es) => ReleaseNKeeps(l, index, es, |es|);
    case TruncateOp(index) =>
      if l.entries != [] {
        DropLastNKeeps(l, LastIndex(l) - index + 1);
      }
    case SnapshotOp(index, trailing) => SnapshotCoherent(l, index, trailing);
    case RestoreOp(index, term) => DropLastNKeeps(l, |l.entries|);
    case _ =>
  }

  ghost predicate AlwaysCoherent(l: Log, ops: seq<Op>)
    decreases |ops|
  {
    Coherent(l) && (ops != [] ==> AlwaysCoherent(Apply(l, ops[0]), ops[1..]))
  }

  ghost predicate NeverContradicts(l: Log, ops: seq<Op>)
    decreases |ops|
  {
    ops != [] ==> !Contradicts(l, ops[0]) && NeverContradicts(Apply(l, ops[0]), ops[1..])
  }

  /** The assertion on the term of the snapshot's last entry holds all along a run exactly
    * when nothing of another term is appended at that index. */
  lemma {:induction false} RunCoherent(l: Log, ops: seq<Op>)
    requires Good(l) && Coherent(l) && Runs(l, ops)
    ensures AlwaysCoherent(l, ops) <==> NeverContradicts(l, ops)
    decreases |ops|
  {
    hide Good;
    hide Apply;
    hide Coherent;
    hide Contradicts;
    if ops != [] {
      StepKeeps(l, ops[0]);
      CoherentExactly(l, ops[0]);
      if Coherent(Apply(l, ops[0])) {
        RunCoherent(Apply(l, ops[0]), ops[1..]);
      }
    }
  }

  // What the operations do to the entries and terms, index by index.

  /** The index keeps its place in the log, if it has one, and its entry. */
  predicate SameAt(l: Log, l': Log, j: nat) {
    (Has(l', j) <==> Has(l, j)) && (Has(l, j) ==> At(l', j) == At(l, j))
  }

  /** An acquisition gets every entry from its index on, or none. */
  lemma SuffixAt(l: Log, index: nat, k: nat)
    ensures |Suffix(l, index)| == if Has(l, index) then LastIndex(l) + 1 - index else 0
    ensures k < |Suffix(l, index)| ==> Has(l, index + k) && Suffix(l, index)[k] == At(l, index + k)
  {
    if k < |Suffix(l, index)| {
      assert Suffix(l, index)[k] == l.entries[index - l.offset - 1 + k];
    }
  }

  /** After a restore the log is empty, and only the term of the snapshot is known. */
  lemma RestoreTerms(l: Log, index: nat, term: nat, j: nat)
    requires Good(l) && index > 0 && term > 0
    ensures var l' := Restore(l, index, term);
            !Has(l', j) && LastIndex(l') == index && TermOf(l', j) == if j == index then term else 0
  {
    hide Inv;
    hide DropLastN;
    DropLastNKeeps(l, |l.entries|);
  }

  /** A log that starts right after its snapshot knows the snapshot's term and no other. */
  lemma StartTerms(l: Log, si: nat, st: nat, start: nat, j: nat)
    requires l.entries == [] && 0 < start <= si + 1 && j > 0
    ensures var l' := Start(l, si, st, start);
            !Has(l', j) && LastIndex(l') == start - 1 && TermOf(l', j) == if j == si && start == si + 1 then st else 0
  {
  }

  /** An append adds one entry behind the last one. */
  lemma AppendTerms(l: Log, e: Entry, j: nat)
    ensures var l' := Append(l, e);
            && LastIndex(l') == LastIndex(l) + 1 && Has(l', LastIndex(l')) && At(l', LastIndex(l')) == e
            && (j != LastIndex(l') ==> SameAt(l, l', j) && TermOf(l', j) == TermOf(l, j))
            && TermOf(l', LastIndex(l')) == e.term
  {
  }

  /** A truncation forgets everything from its index on and nothing before it. */
  lemma TruncateTerms(l: Log, index: nat, j: nat)
    requires Good(l) && l.entries != [] && Has(l, index)
    ensures var l' := Truncate(l, index);
            && LastIndex(l') == index - 1
            && (j < index ==> SameAt(l, l', j) && TermOf(l', j) == TermOf(l, j))
            && (j >= index ==> !Has(l', j) && TermOf(l', j) == 0)
  {
    hide Inv;
    hide DropLastN;
    DropLastNKeeps(l, LastIndex(l) - index + 1);
  }

  /** A snapshot keeps the entries after the given number before its index, or all of them
    * when that place is not in the log; the last index stays. */
  lemma SnapshotEntries(l: Log, index: nat, trailing: nat, j: nat)
    requires Good(l) && index > 0 && TermOf(l, index) != 0
    ensures var l' := Snapshot(l, index, trailing);
            var trims := index > trailing && Has(l, index - trailing);
            && LastIndex(l') == LastIndex(l)
            && (Has(l', j) <==> Has(l, j) && (trims ==> j > index - trailing))
            && (Has(l', j) ==> At(l', j) == At(l, j))
            && l'.snapshotIndex == index && l'.snapshotTerm == TermOf(l, index)
  {
    hide Inv;
    hide DropFirstN;
    var l1 := l.(snapshotIndex := index, snapshotTerm := TermOf(l, index));
    MarkerKeeps(l, l1);
    if index > trailing && Has(l, index - trailing) {
      DropFirstNKeeps(l1, index - trailing - l.offset);
    }
  }

  /** It changes no term from its index on, also when the entry there is dropped, and before
    * its index it forgets exactly the terms of the entries it drops and of the old marker. */
  lemma SnapshotTerms(l: Log, index: nat, trailing: nat, j: nat)
    requires Good(l) && Coherent(l) && index > 0 && TermOf(l, index) != 0
    ensures var l' := Snapshot(l, index, trailing);
            && (j >= index ==> TermOf(l', j) == TermOf(l, j))
            && (j < index ==> TermOf(l', j) == if Has(l', j) then At(l', j).term else 0)
  {
    hide Inv;
    hide Snapshot;
    SnapshotEntries(l, index, trailing, j);
    SnapshotEntries(l, index, trailing, index);
  }

  function Occurrences(s: seq<Ptr>, p: Ptr): nat {
    multiset(s)[p]
  }

  /** Reference conservation over every run: a count is one for the log, if the entry is
    * still there, plus one for every acquisition that still holds it. */
  lemma EveryRunConserves(ops: seq<Op>)
    requires Runs(EMPTY, ops)
    ensures var l := Run(EMPTY, ops);
            && NoGap(l)
            && (forall index: nat :: Has(l, index) ==> Key(At(l, index).term, index) in l.refs)
            && (forall h :: h in l.held ==> h.Id() in l.refs)
            && (forall k :: k in l.refs ==> l.refs[k].count == References(l, k) > 0)
  {
    var l := Run(EMPTY, ops);
    RunKeeps(EMPTY, ops);
    forall k | k in l.refs ensures l.refs[k].count == References(l, k) > 0 {
      assert Balanced(l, k);
    }
    forall index: nat | Has(l, index) ensures Key(At(l, index).term, index) in l.refs {
      assert KnownAt(l, index - l.offset - 1);
    }
    forall h | h in l.held ensures h.Id() in l.refs {
      assert Known(l, h);
    }
  }

  /** Over every run a payload of its own is freed once when its last reference is gone,
    * and not before. */
  lemma EveryRunFreesOnce(ops: seq<Op>, p: Ptr)
    requires Runs(EMPTY, ops) && p in Run(EMPTY, ops).used
    ensures var l := Run(EMPTY, ops);
            Occurrences(l.freed, p) == if Live(l, p) then 0 else 1
  {
    var l := Run(EMPTY, ops);
    RunKeeps(EMPTY, ops);
    DistinctOccurrences(l.freed, p);
    if Live(l, p) {
      var k :| OwnedRef(l, k) && l.refs[k].base == p;
      assert p !in l.freed;
    }
  }

  lemma {:induction false} DistinctOccurrences(s: seq<Ptr>, p: Ptr)
    requires forall i, j :: 0 <= i < j < |s| ==> s[i] != s[j]
    ensures Occurrences(s, p) == if p in s then 1 else 0
  {
    if s != [] {
      var n := |s| - 1;
      DistinctOccurrences(s[..n], p);
      assert s == s[..n] + [s[n]];
    }
  }

  // The counter is too narrow.

  /** One entry that is in the log and held by c - 1 acquisitions. */
  function OneEntry(c: nat): Log
    requires c > 0
  {
    Log(0, [Entry(1, Command, 1, NULL, true)], 0, 0, map[Key(1, 1) := Ref(c, 1, NULL)],
        multiset{}[Handle(1, 1, 1, NULL) := c - 1], [], [], {1})
  }

  function Acquires(n: nat): seq<Op> {
    if n == 0 then [] else [AcquireOp(1)] + Acquires(n - 1)
  }

  lemma OneMore(c: nat)
    requires 0 < c < COUNT_MODULUS - 1
    ensures Enabled(OneEntry(c), AcquireOp(1)) && Acquire(OneEntry(c), 1) == OneEntry(c + 1)
  {
    var l := OneEntry(c);
    assert Suffix(l, 1) == l.entries;
    var h := Handle(1, 1, 1, NULL);
    assert Handles(1, l.entries) == {h} by {
      assert h == EntryHandle(1 + 0, l.entries[0]);
    }
    assert multiset{}[h := c - 1] + multiset{h} == multiset{}[h := c];
  }

  lemma {:induction false} ManyMore(c: nat, n: nat)
    requires 0 < c && c + n < COUNT_MODULUS
    ensures Runs(OneEntry(c), Acquires(n)) && Run(OneEntry(c), Acquires(n)) == OneEntry(c + n)
    decreases n
  {
    hide OneEntry;
    hide Acquire;
    if n > 0 {
      OneMore(c);
      ManyMore(c + 1, n - 1);
      assert Acquires(n)[1..] == Acquires(n - 1);
    }
  }

  lemma FirstReference()
    ensures Enabled(EMPTY, AppendOp(OneEntry(1).entries[0])) && Append(EMPTY, OneEntry(1).entries[0]) == OneEntry(1)
  {
    assert multiset{}[Handle(1, 1, 1, NULL) := 0] == multiset{};
  }

  lemma Wrapped()
    ensures var l := Acquire(OneEntry(COUNT_MODULUS - 1), 1);
            l.refs[Key(1, 1)].count == 0 && References(l, Key(1, 1)) == COUNT_MODULUS
  {
    var l := OneEntry(COUNT_MODULUS - 1);
    assert KnownAt(l, 0);
    assert Covers(1, Suffix(l, 1), Key(1, 1));
    AcquireAdds(l, 1, Key(1, 1));
  }

  /** A run in which the 65536th reference to one entry makes its count zero. */
  lemma CounterWraps() returns (ops: seq<Op>)
    ensures Runs(EMPTY, ops)
    ensures var l := Acquire(Run(EMPTY, ops), 1);
            Key(1, 1) in l.refs && l.refs[Key(1, 1)].count == 0 && References(l, Key(1, 1)) == COUNT_MODULUS
  {
    FirstReference();
    ManyMore(1, COUNT_MODULUS - 2);
    Wrapped();
    hide OneEntry;
    hide Acquire;
    hide Append;
    ops := [AppendOp(OneEntry(1).entries[0])] + Acquires(COUNT_MODULUS - 2);
    assert ops[1..] == Acquires(COUNT_MODULUS - 2);
  }
}
