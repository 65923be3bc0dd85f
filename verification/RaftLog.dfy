/** The in-memory raft log of src/raft/log.c: a circular buffer that grows, a snapshot
  * marker, and the table of reference counts. Every operation is shown to do to the
  * buffer and the table what LogSpec does to a plain sequence and a map.
  *
  * An array that is not allocated has length zero. The two lists of freed blocks record
  * the calls to raft_free for payloads and for batches, in order.
  */
module RaftLog {
  import opened Arithmetic
  import opened EntryRefs
  import Spec = LogSpec
  import opened LogSpec

  datatype Option<+T> = None | Some(value: T)

  // The circular buffer.

  /** The position i places after front. */
  function Wrap(front: nat, i: nat, size: nat): (p: nat)
    requires front < size && i <= size
    ensures p < size
  {
    if front + i < size then front + i else front + i - size
  }

  lemma WrapIsModulo(front: nat, i: nat, size: nat)
    requires front < size && i <= size
    ensures (front + i) % size == Wrap(front, i, size)
  {
    if front + i < size {
      DivModUnique(front + i, size, 0, front + i);
    } else {
      DivModUnique(front + i, size, 1, front + i - size);
    }
  }

  predicate RingOk(size: nat, front: nat, back: nat) {
    if size == 0 then front == 0 && back == 0 else front < size && back < size
  }

  function Count(size: nat, front: nat, back: nat): (n: nat)
    requires RingOk(size, front, back)
    ensures n < size || n == 0
  {
    if front <= back then back - front else size - front + back
  }

  /** The n entries of a buffer that start at front. */
  function Ring(buf: seq<Entry>, front: nat, n: nat): (s: seq<Entry>)
    requires n > 0 ==> front < |buf| && n < |buf|
    ensures |s| == n
  {
    seq(n, i requires 0 <= i < n => buf[Wrap(front, i, |buf|)])
  }

  lemma BackIsNext(size: nat, front: nat, back: nat)
    requires RingOk(size, front, back) && size > 0
    ensures back == Wrap(front, Count(size, front, back), size)
  {
  }

  lemma PushBack(buf: seq<Entry>, front: nat, back: nat, e: Entry)
    requires RingOk(|buf|, front, back) && Count(|buf|, front, back) + 1 < |buf|
    ensures var back' := (back + 1) % |buf|;
            && RingOk(|buf|, front, back')
            && Count(|buf|, front, back') == Count(|buf|, front, back) + 1
            && Ring(buf[back := e], front, Count(|buf|, front, back'))
               == Ring(buf, front, Count(|buf|, front, back)) + [e]
  {
    WrapIsModulo(back, 1, |buf|);
    BackIsNext(|buf|, front, back);
  }

  lemma PopBack(buf: seq<Entry>, front: nat, back: nat)
    requires RingOk(|buf|, front, back) && Count(|buf|, front, back) > 0
    ensures var n, back' := Count(|buf|, front, back), if back == 0 then |buf| - 1 else back - 1;
            && RingOk(|buf|, front, back')
            && Count(|buf|, front, back') == n - 1
            && buf[back'] == Ring(buf, front, n)[n - 1]
            && Ring(buf, front, n - 1) == Ring(buf, front, n)[..n - 1]
  {
  }

  lemma PopFront(buf: seq<Entry>, front: nat, back: nat)
    requires RingOk(|buf|, front, back) && Count(|buf|, front, back) > 0
    ensures var n, front' := Count(|buf|, front, back), if front == |buf| - 1 then 0 else front + 1;
            && RingOk(|buf|, front', back)
            && Count(|buf|, front', back) == n - 1
            && buf[front] == Ring(buf, front, n)[0]
            && Ring(buf, front', n - 1) == Ring(buf, front, n)[1..]
  {
  }

  lemma RingFrom(size: nat, front: nat, back: nat, d: nat)
    requires RingOk(size, front, back) && d < Count(size, front, back)
    ensures var i := Wrap(front, d, size);
            Count(size, front, back) - d == if i < back then back - i else size - i + back
  {
  }

  lemma WrapTwice(front: nat, d: nat, j: nat, size: nat)
    requires front < size && d + j < size
    ensures (Wrap(front, d, size) + j) % size == Wrap(front, d + j, size)
  {
    WrapIsModulo(Wrap(front, d, size), j, size);
  }

  lemma AcquireNone(m: map<Key, Ref>, index: nat)
    ensures AcquiredRefs(m, index, []) == m
  {
  }

  /** Counting one more of the acquired entries. */
  lemma AcquireNext(m: map<Key, Ref>, index: nat, es: seq<Entry>, j: nat)
    requires j < |es| && Key(es[j].term, index + j) in m
    ensures var k, part := Key(es[j].term, index + j), AcquiredRefs(m, index, es[..j]);
            k in part && AcquiredRefs(m, index, es[..j + 1]) == part[k := Incremented(part[k])]
  {
    var k, part := Key(es[j].term, index + j), AcquiredRefs(m, index, es[..j]);
    assert part[k] == m[k];
    forall k' | k' in m && k' != k ensures Covers(index, es[..j + 1], k') <==> Covers(index, es[..j], k') {}
  }

  class RaftLog {
    var entries: array<Entry>
    var front: nat
    var back: nat
    var offset: nat
    var refs: array<Bucket>
    var snapshotIndex: nat
    var snapshotTerm: nat
    var freed: seq<Ptr>
    var freedBatches: seq<Ptr>

    /** What the table stores, what acquisitions hold, and the payloads ever appended. */
    ghost var counts: map<Key, Ref>
    ghost var held: multiset<Handle>
    ghost var used: set<Ptr>

    ghost predicate Shape()
      reads this, entries, refs
    {
      RingOk(entries.Length, front, back) && Stores(refs[..], counts)
    }

    ghost function View(): seq<Entry>
      requires RingOk(entries.Length, front, back)
      reads this, entries
    {
      Ring(entries[..], front, Count(entries.Length, front, back))
    }

    ghost function Model(): Log
      requires RingOk(entries.Length, front, back)
      reads this, entries
    {
      Log(offset, View(), snapshotIndex, snapshotTerm, counts, held, freed, freedBatches, used)
    }

    ghost predicate Valid()
      reads this, entries, refs
    {
      Shape() && Good(Model())
    }

    constructor ()
      ensures Valid() && Model() == EMPTY && fresh(entries) && fresh(refs)
    {
      entries := new Entry[0];
      front, back, offset := 0, 0, 0;
      refs := new Bucket[0];
      snapshotIndex, snapshotTerm := 0, 0;
      freed, freedBatches := [], [];
      counts, held, used := map[], multiset{}, {};
    }

    method Start(snapshotIndex: nat, snapshotTerm: nat, startIndex: nat)
      requires Valid() && Enabled(Model(), StartOp(snapshotIndex, snapshotTerm, startIndex))
      modifies this
      ensures Valid() && entries == old(entries) && refs == old(refs)
      ensures Model() == Spec.Start(old(Model()), snapshotIndex, snapshotTerm, startIndex)
    {
      hide Inv;
      hide Stores;
      StartGood(Model(), snapshotIndex, snapshotTerm, startIndex);
      this.snapshotIndex, this.snapshotTerm := snapshotIndex, snapshotTerm;
      offset := startIndex - 1;
    }

    method NumEntries() returns (n: nat)
      requires Shape()
      ensures n == |Model().entries|
    {
      if front <= back {
        return back - front;
      }
      n := entries.Length - front + back;
    }

    method LastIndex() returns (index: nat)
      requires Shape()
      ensures index == Spec.LastIndex(Model())
    {
      var n := NumEntries();
      index := offset + n;
    }

    /** The position of the entry with the given index, or the length of the array. */
    method LocateEntry(index: nat) returns (p: nat)
      requires Shape()
      ensures p < entries.Length <==> Has(Model(), index)
      ensures p < entries.Length ==>
                p == Wrap(front, index - 1 - offset, entries.Length) && entries[p] == At(Model(), index)
      ensures p <= entries.Length
    {
      var n := NumEntries();
      if n == 0 || index < offset + 1 || index > offset + n {
        return entries.Length;
      }
      WrapIsModulo(front, index - 1 - offset, entries.Length);
      p := (front + (index - 1 - offset)) % entries.Length;
    }

    method TermOf(index: nat) returns (term: nat)
      requires Shape() && index > 0 && NoGap(Model())
      requires index == snapshotIndex ==> Coherent(Model())
      ensures term == Spec.TermOf(Model(), index)
    {
      var last := LastIndex();
      if (index < offset + 1 && index != snapshotIndex) || index > last {
        return 0;
      }
      if index == snapshotIndex {
        assert snapshotTerm != 0;
        var i := LocateEntry(index);
        if i != entries.Length {
          assert entries[i].term == snapshotTerm;
        }
        return snapshotTerm;
      }
      var i := LocateEntry(index);
      term := entries[i].term;
    }

    method LastTerm() returns (term: nat)
      requires Shape() && NoGap(Model()) && Coherent(Model())
      ensures term == if Spec.LastIndex(Model()) > 0 then Spec.TermOf(Model(), Spec.LastIndex(Model())) else 0
    {
      var last := LastIndex();
      if last > 0 {
        term := TermOf(last);
      } else {
        term := 0;
      }
    }

    method Get(index: nat) returns (e: Option<Entry>)
      requires Shape()
      ensures e == if Has(Model(), index) then Some(At(Model(), index)) else None
    {
      var i := LocateEntry(index);
      if i == entries.Length {
        return None;
      }
      e := Some(entries[i]);
    }

    /** Make room for one more entry, moving the entries to the start of a new array. */
    method EnsureCapacity()
      requires Shape()
      modifies this`entries, this`front, this`back
      ensures Shape() && Model() == old(Model())
      ensures entries == old(entries) || fresh(entries)
      ensures |View()| + 1 < entries.Length
    {
      hide Stores;
      var n := NumEntries();
      if n + 1 < entries.Length {
        return;
      }
      var size := (entries.Length + 1) * 2;
      ghost var view := View();
      var bigger := new Entry[size](_ => Entry(0, Command, NULL, NULL, false));
      for i := 0 to n
        modifies bigger
        invariant bigger[..i] == view[..i]
      {
        WrapIsModulo(front, i, entries.Length);
        bigger[i] := entries[(front + i) % entries.Length];
        assert bigger[..i + 1] == view[..i] + [view[i]];
      }
      entries, front, back := bigger, 0, n;
      assert View() == view[..n];
    }

    /** Write an entry at the back. */
    method Store(e: Entry)
      requires RingOk(entries.Length, front, back) && |View()| + 1 < entries.Length
      modifies this`back, entries
      ensures RingOk(entries.Length, front, back) && View() == old(View()) + [e]
    {
      ghost var buf := entries[..];
      PushBack(buf, front, back, e);
      entries[back] := e;
      assert entries[..] == buf[back := e];
      back := (back + 1) % entries.Length;
    }

    /** Start counting references to a new entry. */
    method StoreRef(e: Entry, index: nat) returns (ok: bool)
      requires Stores(refs[..], counts) && Positive(counts)
      requires index > 0 && e.term > 0 && Key(e.term, index) !in counts
      modifies this`refs, this`counts, refs
      ensures refs == old(refs) || fresh(refs)
      ensures Stores(refs[..], counts)
      ensures ok <==> !Blocked(old(counts), index, 512 * StartSize(old(refs.Length)))
      ensures counts == if ok then old(counts)[Key(e.term, index) := Ref(1, e.base, e.batch)] else old(counts)
    {
      ok, refs := EntryRefs.Init(refs, Slot(e.term, index, 1, e.base, e.batch), counts);
      if ok {
        counts := counts[Key(e.term, index) := Ref(1, e.base, e.batch)];
      }
    }

    /** Store the entry and its reference count, given room for it. */
    method Place(e: Entry) returns (ok: bool)
      requires Shape() && |View()| + 1 < entries.Length && Positive(counts)
      requires e.term > 0 && Key(e.term, Spec.LastIndex(Model()) + 1) !in counts
      modifies this`refs, this`counts, this`used, this`back, entries, refs
      ensures Shape() && (refs == old(refs) || fresh(refs))
      ensures ok <==> !Blocked(old(counts), Spec.LastIndex(old(Model())) + 1, 512 * StartSize(old(refs.Length)))
      ensures Model() == if ok then Spec.Append(old(Model()), e) else old(Model())
    {
      hide Stores;
      hide Blocked;
      hide Ring;
      var last := LastIndex();
      ok := StoreRef(e, last + 1);
      if ok {
        used := if Owned(e.base, e.batch) then used + {e.base} else used;
        Store(e);
      }
    }

    method Append(e: Entry) returns (ok: bool)
      requires Valid() && CanAppend(Model(), e)
      modifies this, entries, refs
      ensures Valid()
      ensures (entries == old(entries) || fresh(entries)) && (refs == old(refs) || fresh(refs))
      ensures ok <==> !Blocked(old(counts), Spec.LastIndex(old(Model())) + 1, 512 * StartSize(old(refs.Length)))
      ensures Model() == if ok then Spec.Append(old(Model()), e) else old(Model())
    {
      hide Good;
      hide Stores;
      hide Blocked;
      hide Ring;
      AppendGood(Model(), e);
      GoodFacts(Model());
      EnsureCapacity();
      ok := Place(e);
    }

    /** Take a reference to every entry from an index onward.
      *
      * References are conserved exactly when none of the counters involved is full. */
    method Acquire(index: nat) returns (es: seq<Entry>)
      requires Valid() && index > 0
      modifies this`counts, this`held, refs
      ensures es == Suffix(old(Model()), index)
      ensures Shape() && Model() == Spec.Acquire(old(Model()), index)
      ensures Valid() <==> CountersFit(old(Model()), index)
    {
      hide Inv;
      hide Stores;
      GoodFacts(Model());
      ghost var m := Model();
      ghost var suffix := Suffix(m, index);
      var i := LocateEntry(index);
      es := [];
      AcquireNone(counts, index);
      if i < entries.Length {
        ghost var d := index - 1 - offset;
        RingFrom(entries.Length, front, back, d);
        var n := if i < back then back - i else entries.Length - i + back;
        es := AcquireFrom(i, n, index, d);
        assert suffix[..n] == suffix;
      }
      assert counts == AcquiredRefs(m.refs, index, suffix);
      held := held + multiset(Handles(index, suffix));
      AcquireKeeps(m, index);
      AcquireBounded(m, index);
    }

    method AddRef(term: nat, index: nat)
      requires Stores(refs[..], counts) && Key(term, index) in counts
      modifies this`counts, refs
      ensures Key(term, index) in old(counts) && Stores(refs[..], counts)
      ensures counts == old(counts)[Key(term, index) := Incremented(old(counts)[Key(term, index)])]
    {
      EntryRefs.Incr(refs, term, index, counts);
      counts := counts[Key(term, index) := Incremented(counts[Key(term, index)])];
    }

    /** The j-th entry from position i on. */
    method EntryFrom(i: nat, j: nat, ghost d: nat) returns (e: Entry)
      requires RingOk(entries.Length, front, back) && d + j < |View()| && i == Wrap(front, d, entries.Length)
      ensures e == View()[d + j]
    {
      WrapTwice(front, d, j, entries.Length);
      e := entries[(i + j) % entries.Length];
    }

    method AcquireFrom(i: nat, n: nat, index: nat, ghost d: nat) returns (es: seq<Entry>)
      requires Shape() && LogKnown(Model()) && Has(Model(), index) && d == index - 1 - offset
      requires i == Wrap(front, d, entries.Length) && n == |Suffix(Model(), index)|
      modifies this`counts, refs
      ensures es == Suffix(old(Model()), index)
      ensures Shape() && counts == AcquiredRefs(old(counts), index, es)
    {
      hide Stores;
      hide AcquiredRefs;
      hide Ring;
      hide Wrap;
      ghost var m := Model();
      ghost var suffix := Suffix(m, index);
      es := [];
      AcquireNone(counts, index);
      for j := 0 to n
        invariant es == suffix[..j]
        invariant Stores(refs[..], counts) && counts == AcquiredRefs(m.refs, index, suffix[..j])
      {
        var e := EntryFrom(i, j, d);
        assert e == suffix[j] && KnownAt(m, d + j);
        AcquireNext(m.refs, index, suffix, j);
        AddRef(e.term, index + j);
        es := es + [e];
      }
      assert suffix[..n] == suffix;
    }

    /** Whether an entry in the log belongs to a batch. */
    method IsBatchReferenced(batch: Ptr) returns (yes: bool)
      requires RingOk(entries.Length, front, back)
      ensures yes <==> BatchReferenced(View(), batch)
    {
      var n := if front <= back then back - front else entries.Length - front + back;
      for i := 0 to n
        invariant forall j :: 0 <= j < i ==> View()[j].batch != batch
      {
        WrapIsModulo(front, i, entries.Length);
        if entries[(front + i) % entries.Length].batch == batch {
          assert View()[i].batch == batch;
          return true;
        }
      }
      yes := false;
    }

    method DestroyEntry(base: Ptr, batch: Ptr)
      requires RingOk(entries.Length, front, back)
      modifies this`freed, this`freedBatches
      ensures RingOk(entries.Length, front, back) && Model() == Destroy(old(Model()), base, batch)
    {
      if batch == NULL {
        if base != NULL {
          freed := freed + [base];
        }
      } else {
        var referenced := IsBatchReferenced(batch);
        if !referenced {
          freedBatches := freedBatches + [batch];
        }
      }
    }

    method DropRef(term: nat, index: nat) returns (unref: bool)
      requires Stores(refs[..], counts) && Key(term, index) in counts && counts[Key(term, index)].count > 0
      modifies this`counts, refs
      ensures Stores(refs[..], counts) && counts == Decremented(old(counts), Key(term, index))
      ensures unref <==> old(counts)[Key(term, index)].count == 1
    {
      unref := EntryRefs.Decr(refs, term, index, counts);
      counts := Decremented(counts, Key(term, index));
    }

    /** Give back the references that an acquisition at the given index took. */
    method Release(index: nat, es: seq<Entry>)
      requires Valid() && multiset(Handles(index, es)) <= held
      modifies this`counts, this`held, this`freed, this`freedBatches, refs
      ensures Valid() && Model() == Spec.Release(old(Model()), index, es)
    {
      hide Good;
      hide Inv;
      hide Stores;
      hide ReleaseOne;
      hide Handles;
      hide Ring;
      GoodFacts(Model());
      ghost var m := Model();
      ReleaseGood(m, index, es);
      var batch := NULL;
      for i := 0 to |es|
        invariant Shape() && (Model(), batch) == ReleaseN(m, index, es, i)
      {
        ReleaseNKeeps(m, index, es, i);
        NextHandle(index, es, i, held);
        batch := ReleaseEntry(EntryHandle(index + i, es[i]), batch);
      }
    }

    method ReleaseEntry(h: Handle, last: Ptr) returns (batch: Ptr)
      requires Shape() && Inv(Model()) && h in held
      modifies this`counts, this`held, this`freed, this`freedBatches, refs
      ensures Counted(old(Model()), h.Id())
      ensures Shape() && (Model(), batch) == ReleaseOne(old(Model()), h, last)
    {
      hide Inv;
      hide Stores;
      hide Ring;
      ReleaseOneKeeps(Model(), h, last);
      batch := last;
      var unref := DropRef(h.term, h.index);
      held := held - multiset{h};
      if unref {
        if h.batch == NULL {
          DestroyEntry(h.base, NULL);
        } else if h.batch != batch {
          var referenced := IsBatchReferenced(h.batch);
          if !referenced {
            batch := h.batch;
            freedBatches := freedBatches + [batch];
          }
        }
      }
    }

    /** Release the array of a log that became empty. */
    method ClearIfEmpty()
      requires Shape()
      modifies this`entries, this`front, this`back
      ensures Shape() && Model() == old(Model())
      ensures entries == old(entries) || fresh(entries)
    {
      var n := NumEntries();
      if n > 0 {
        return;
      }
      entries := new Entry[0];
      front, back := 0, 0;
    }

    method RemoveLast()
      requires Shape() && Inv(Model()) && View() != []
      modifies this`back, this`counts, this`freed, this`freedBatches, refs
      ensures CanDrop(old(Model()), |old(Model()).entries| - 1)
      ensures Shape() && Model() == DropLast(old(Model()))
    {
      hide Inv;
      hide Stores;
      DropLastKeeps(Model());
      PopBack(entries[..], front, back);
      var last := LastIndex();
      if back == 0 {
        back := entries.Length - 1;
      } else {
        back := back - 1;
      }
      var e := entries[back];
      var unref := DropRef(e.term, last);
      if unref {
        DestroyEntry(e.base, e.batch);
      }
    }

    method RemoveFirst()
      requires Shape() && Inv(Model()) && View() != []
      modifies this`front, this`offset, this`counts, this`freed, this`freedBatches, refs
      ensures CanDrop(old(Model()), 0)
      ensures Shape() && Model() == DropFirst(old(Model()))
    {
      hide Inv;
      hide Stores;
      DropFirstKeeps(Model());
      PopFront(entries[..], front, back);
      var e := entries[front];
      if front == entries.Length - 1 {
        front := 0;
      } else {
        front := front + 1;
      }
      offset := offset + 1;
      var unref := DropRef(e.term, offset);
      if unref {
        DestroyEntry(e.base, e.batch);
      }
    }

    method RemoveLastN(n: nat)
      requires Shape() && Inv(Model()) && n <= |View()|
      modifies this`back, this`counts, this`freed, this`freedBatches, refs
      ensures Shape() && Model() == DropLastN(old(Model()), n)
    {
      hide Inv;
      hide Stores;
      hide DropLast;
      hide Ring;
      ghost var m := Model();
      for i := 0 to n
        invariant Shape() && Model() == DropLastN(m, i)
      {
        DropLastNKeeps(m, i);
        RemoveLast();
      }
    }

    method RemoveSuffix(index: nat)
      requires Valid() && Has(Model(), index)
      modifies this, refs
      ensures Shape() && Model() == DropLastN(old(Model()), Spec.LastIndex(old(Model())) - index + 1)
      ensures (entries == old(entries) || fresh(entries)) && refs == old(refs)
    {
      hide Good;
      hide Inv;
      hide Stores;
      hide DropLast;
      hide Ring;
      GoodFacts(Model());
      var last := LastIndex();
      RemoveLastN(last - index + 1);
      ClearIfEmpty();
    }

    method Truncate(index: nat)
      requires Valid() && Enabled(Model(), TruncateOp(index))
      modifies this, refs
      ensures Valid() && Model() == Spec.Truncate(old(Model()), index)
      ensures (entries == old(entries) || fresh(entries)) && refs == old(refs)
    {
      hide Good;
      hide Stores;
      hide Ring;
      TruncateGood(Model(), index);
      var n := NumEntries();
      if n == 0 {
        return;
      }
      RemoveSuffix(index);
    }

    method RemovePrefix(index: nat)
      requires Shape() && Inv(Model()) && Has(Model(), index)
      modifies this, refs
      ensures Shape() && Model() == DropFirstN(old(Model()), index - old(offset))
      ensures (entries == old(entries) || fresh(entries)) && refs == old(refs)
    {
      hide Inv;
      hide Stores;
      hide DropFirst;
      hide Ring;
      ghost var m := Model();
      var n := index - (offset + 1) + 1;
      for i := 0 to n
        modifies this`front, this`offset, this`counts, this`freed, this`freedBatches, refs
        invariant Shape() && Model() == DropFirstN(m, i)
      {
        DropFirstNKeeps(m, i);
        RemoveFirst();
      }
      ClearIfEmpty();
    }

    method Snapshot(index: nat, trailing: nat)
      requires Valid() && Enabled(Model(), SnapshotOp(index, trailing))
      requires index == snapshotIndex ==> Coherent(Model())
      modifies this, refs
      ensures Valid() && Model() == Spec.Snapshot(old(Model()), index, trailing)
      ensures (entries == old(entries) || fresh(entries)) && refs == old(refs)
    {
      hide Good;
      hide Inv;
      hide Stores;
      hide Ring;
      GoodFacts(Model());
      ghost var m := Model();
      SnapshotGood(m, index, trailing);
      var term := TermOf(index);
      snapshotIndex, snapshotTerm := index, term;
      MarkerKeeps(m, Model());
      if index <= trailing {
        return;
      }
      var i := LocateEntry(index - trailing);
      if i == entries.Length {
        return;
      }
      RemovePrefix(index - trailing);
    }

    method Restore(index: nat, term: nat)
      requires Valid() && index > 0 && term > 0
      modifies this, refs
      ensures Valid() && Model() == Spec.Restore(old(Model()), index, term)
      ensures (entries == old(entries) || fresh(entries)) && refs == old(refs)
    {
      hide Good;
      hide Inv;
      hide Stores;
      hide Ring;
      RestoreGood(Model(), index, term);
      var n := NumEntries();
      var last := LastIndex();
      if n > 0 {
        Truncate(last - n + 1);
      }
      snapshotIndex, snapshotTerm := index, term;
      offset := index;
    }
  }
}
