/** The replicated state machine as the program keeps it (src/fsm.c): a registry of databases
  * with their read locks, taking, finalizing and restoring snapshots. */
module Fsm {
  import opened Bytes
  import opened Serialize
  import opened Wal
  import opened WalLog
  import R = Replica
  import opened SnapshotFormat
  import opened Snapshots

  datatype Result = Done | Busy | Corrupt

  /** How restoring a snapshot ends. */
  datatype Ending = Complete | Refused | Stopped | Overran

  class Fsm {
    const pageSize: nat
    var dbs: seq<Db>

    constructor (pageSize: nat)
      ensures this.pageSize == pageSize && dbs == []
    {
      this.pageSize := pageSize;
      dbs := [];
    }

    method ReadLock(k: nat) returns (ok: bool)
      requires k < |dbs|
      modifies this`dbs
      ensures ok <==> !old(dbs)[k].locked
      ensures dbs == old(dbs)[k := old(dbs)[k].(locked := true)]
    {
      ok := !dbs[k].locked;
      if ok {
        dbs := dbs[k := dbs[k].(locked := true)];
      }
    }

    method ReadUnlock(k: nat) returns (ok: bool)
      requires k < |dbs|
      modifies this`dbs
      ensures ok <==> old(dbs)[k].locked
      ensures dbs == old(dbs)[k := old(dbs)[k].(locked := false)]
    {
      ok := dbs[k].locked;
      if ok {
        dbs := dbs[k := dbs[k].(locked := false)];
      }
    }

    /** A checkpoint takes the read lock, so it is skipped while a snapshot holds it. */
    method MaybeCheckpoint(k: nat, wants: bool, salt2: seq<byte>)
      requires k < |dbs| && |salt2| == 4 && R.Inv(dbs[k].node, pageSize)
      modifies this`dbs
      ensures dbs == old(dbs)[k := Snapshots.MaybeCheckpoint(old(dbs)[k], wants, salt2)]
    {
      hide R.Checkpoint;
      ghost var db := dbs[k];
      var ok := ReadLock(k);
      if !ok {
        assert dbs == old(dbs);
        return;
      }
      if wants {
        dbs := dbs[k := dbs[k].(node := R.Checkpoint(dbs[k].node, salt2))];
      }
      ok := ReadUnlock(k);
      assert ok;
      assert dbs[k] == Snapshots.MaybeCheckpoint(db, wants, salt2);
    }

    /** The number of buffers that a snapshot needs. */
    method NumBufs() returns (n: nat)
      requires Countable(dbs)
      ensures n == |Bufs(dbs, pageSize)|
    {
      hide DbBufs;
      n := 1;
      for k := 0 to |dbs|
        invariant n == |FirstBufs(dbs, k, |dbs|, pageSize)|
      {
        n := n + 2 + CountField(dbs[k].node.pages[0]);
      }
    }

    /** Take a snapshot: all or nothing. On success every database is locked. */
    method Snapshot() returns (r: Result, bufs: seq<Buf>)
      requires Headed(dbs)
      modifies this`dbs
      ensures r == Busy <==> !Idle(old(dbs))
      ensures r == Done <==> Idle(old(dbs)) && Countable(old(dbs))
      ensures r == Done ==> bufs == Bufs(old(dbs), pageSize) && dbs == WithLock(old(dbs), |old(dbs)|, true)
      ensures r != Done ==> dbs == old(dbs)
    {
      bufs := [];
      var idle := IsIdle();
      if !idle {
        return Busy, [];
      }
      LockFirst(|dbs|, true);
      assert forall k :: 0 <= k < |dbs| ==> dbs[k].node == old(dbs)[k].node && dbs[k].name == old(dbs)[k].name;
      var ok;
      ok, bufs := Encode();
      SameBufs(dbs, old(dbs), |dbs|, |dbs|, pageSize);
      if !ok {
        LockFirst(|dbs|, false);
        assert dbs == old(dbs);
        return Corrupt, [];
      }
      r := Done;
    }

    method IsIdle() returns (idle: bool)
      ensures idle <==> Idle(dbs)
    {
      for k := 0 to |dbs|
        invariant forall j :: 0 <= j < k ==> dbs[j].txId == 0 && !dbs[j].locked
      {
        if dbs[k].txId != 0 || dbs[k].locked {
          return false;
        }
      }
      idle := true;
    }

    /** Set the lock of the first n databases. */
    method LockFirst(n: nat, locked: bool)
      requires n <= |dbs| && forall k :: 0 <= k < n ==> dbs[k].locked == !locked
      modifies this`dbs
      ensures dbs == WithLock(old(dbs), n, locked)
    {
      for k := 0 to n
        invariant dbs == WithLock(old(dbs), k, locked)
      {
        var ok;
        if locked {
          ok := ReadLock(k);
        } else {
          ok := ReadUnlock(k);
        }
        assert ok;
      }
    }

    /** Encode the databases; it fails when a first page disagrees with its database. */
    method Encode() returns (ok: bool, bufs: seq<Buf>)
      requires Headed(dbs)
      ensures ok <==> Countable(dbs)
      ensures ok ==> bufs == Bufs(dbs, pageSize)
    {
      hide DbBufs;
      bufs := [Owned(PutAll([SNAPSHOT_FORMAT, |dbs|], SIZES))];
      for k := 0 to |dbs|
        invariant bufs == FirstBufs(dbs, k, |dbs|, pageSize)
        invariant forall j :: 0 <= j < k ==> CountField(dbs[j].node.pages[0]) == |dbs[j].node.pages|
      {
        if CountField(dbs[k].node.pages[0]) != |dbs[k].node.pages| {
          return false, [];
        }
        bufs := bufs + DbBufs(dbs[k], k, pageSize);
      }
      ok := true;
    }

    /** Free what a snapshot owns, found by walking over the databases as they are now. */
    method FreeSnapshotBufs(nBufs: nat, ghost taken: seq<Db>) returns (freed: seq<nat>)
      requires Countable(taken) && SamePages(taken, dbs) && nBufs == |Bufs(taken, pageSize)|
      ensures freed == FreeList(taken, |taken|, |taken|, pageSize)
    {
      hide FirstBufs;
      hide FreeList;
      hide CountField;
      FreeStart(taken, pageSize);
      freed := [0];
      var i := 1;
      var k := 0;
      while k < |dbs| && i != nBufs
        invariant k <= |taken| && i == |FirstBufs(taken, k, |taken|, pageSize)|
        invariant freed == FreeList(taken, k, |taken|, pageSize)
      {
        FreeNext(taken, dbs, k, pageSize);
        freed := freed + [i];
        i := i + 1 + CountField(dbs[k].node.pages[0]) + 1;
        freed := freed + [i - 1];
        k := k + 1;
      }
      if k < |taken| {
        FreeNext(taken, dbs, k, pageSize);
        assert false;
      }
    }

    /** Finalize a snapshot: free its buffers and unlock its databases. */
    method Finalize(bufs: seq<Buf>, ghost taken: seq<Db>) returns (ok: bool, freed: seq<nat>)
      requires Locks(State(dbs, Some(Taken(taken, bufs))), pageSize) && |taken| < U64
      modifies this`dbs
      ensures ok && |taken| <= |old(dbs)| && dbs == WithLock(old(dbs), |taken|, false)
      ensures Frees(freed, bufs)
    {
      hide Frees;
      hide FirstBufs;
      hide FreeList;
      hide GetAll;
      hide PutAll;
      FirstIsHeader(taken, |taken|, |taken|, pageSize);
      SizesTrip(SNAPSHOT_FORMAT, |taken|, []);
      assert PutAll([SNAPSHOT_FORMAT, |taken|], SIZES) + [] == PutAll([SNAPSHOT_FORMAT, |taken|], SIZES);
      var header := GetAll(bufs[0].data, SIZES);
      if !header.Got? || header.value[0] != SNAPSHOT_FORMAT {
        return false, [];
      }
      freed := FreeSnapshotBufs(|bufs|, taken);
      FreesOwned(taken, |taken|, |taken|, pageSize);
      LockFirst(header.value[1], false);
      ok := true;
    }

    // Restoring.

    ghost predicate Named()
      reads this
    {
      forall j, k :: 0 <= j < k < |dbs| ==> dbs[j].name != dbs[k].name
    }

    method Find(name: Name) returns (k: nat)
      ensures k <= |dbs| && (k < |dbs| ==> dbs[k].name == name) && forall j :: 0 <= j < k ==> dbs[j].name != name
    {
      k := 0;
      while k < |dbs|
        invariant k <= |dbs| && forall j :: 0 <= j < k ==> dbs[j].name != name
      {
        if dbs[k].name == name {
          return;
        }
        k := k + 1;
      }
    }

    /** Restore one database from the data after its header, creating it if need be. It is
      * registered, and its log truncated, also when that fails. */
    method LoadOne(name: Name, data: seq<byte>, size: nat, blank: R.Node, salt2: seq<byte>) returns (r: Restored)
      requires Named() && HeadersOk(Held(dbs), blank) && |salt2| == 4
      modifies this`dbs
      ensures r == RestoreImage(Existing(old(Held(dbs)), name, blank), data, size, salt2)
      ensures r.Fine? || r.Failed? ==> Named() && Held(dbs) == old(Held(dbs))[name := r.node]
    {
      hide RestoreImage;
      hide Held;
      var k := Find(name);
      FoundHeld(dbs, name, k);
      var node := if k < |dbs| then dbs[k].node else blank;
      r := RestoreNode(node, data, size, salt2);
      if r.Stops? || r.PastEnd? {
        return;
      }
      HeldPut(dbs, name, k, r.node);
      if k < |dbs| {
        dbs := dbs[k := dbs[k].(node := r.node)];
      } else {
        dbs := dbs + [Db(name, r.node, false, 0)];
      }
    }

    /** Restore a snapshot. */
    method Restore(buf: seq<byte>, blank: R.Node, salt2: seq<byte>) returns (e: Ending)
      requires Named() && HeadersOk(Held(dbs), blank) && |salt2| == 4
      modifies this`dbs
      ensures var r := SnapshotFormat.Restore(old(Held(dbs)), buf, blank, salt2);
              && (e == Complete <==> r.Loaded?) && (e == Refused <==> r.Malformed?) && (e == Stopped <==> r.Halted?)
              && (e == Complete || e == Refused ==> Named() && Held(dbs) == r.held)
    {
      hide RestoreImage;
      hide Held;
      hide GetAll;
      hide GetText;
      var header := GetAll(buf, SIZES);
      if !header.Got? || header.value[0] != SNAPSHOT_FORMAT {
        return Refused;
      }
      var rest, n := header.rest, header.value[1];
      for i := 0 to n
        invariant Named() && HeadersOk(Held(dbs), blank)
        invariant LoadAll(old(Held(dbs)), header.rest, n, true, blank, salt2) == LoadAll(Held(dbs), rest, n - i, i == 0, blank, salt2)
      {
        var name := GetText(rest);
        if name.Past? {
          return Overran;
        }
        if !name.Got? {
          return if i == 0 then Refused else Overran;
        }
        var sizes := GetAll(name.rest, SIZES);
        if !sizes.Got? {
          return if i == 0 then Refused else Overran;
        }
        var size := (sizes.value[0] + sizes.value[1]) % U64;
        var r := LoadOne(name.value, sizes.rest, size, blank, salt2);
        match r {
          case Fine(_) => rest := sizes.rest[size..];
          case Failed(_) => return Refused;
          case Stops => return Stopped;
          case PastEnd => return Overran;
        }
      }
      e := Complete;
    }
  }

  /** The databases by name. */
  ghost function Held(dbs: seq<Db>): map<Name, R.Node> {
    if dbs == [] then map[] else Held(dbs[..|dbs| - 1])[dbs[|dbs| - 1].name := dbs[|dbs| - 1].node]
  }

  lemma {:induction false} FoundHeld(dbs: seq<Db>, name: Name, k: nat)
    requires forall i, j :: 0 <= i < j < |dbs| ==> dbs[i].name != dbs[j].name
    requires k <= |dbs| && (k < |dbs| ==> dbs[k].name == name) && forall j :: 0 <= j < k ==> dbs[j].name != name
    ensures k < |dbs| <==> name in Held(dbs)
    ensures k < |dbs| ==> Held(dbs)[name] == dbs[k].node
  {
    if dbs != [] {
      var n := |dbs| - 1;
      FoundHeld(dbs[..n], name, if k <= n then k else n);
    }
  }

  lemma {:induction false} HeldPut(dbs: seq<Db>, name: Name, k: nat, node: R.Node)
    requires forall i, j :: 0 <= i < j < |dbs| ==> dbs[i].name != dbs[j].name
    requires k <= |dbs| && (k < |dbs| ==> dbs[k].name == name)
    ensures k < |dbs| ==> Held(dbs[k := dbs[k].(node := node)]) == Held(dbs)[name := node]
    ensures k == |dbs| ==> Held(dbs + [Db(name, node, false, 0)]) == Held(dbs)[name := node]
  {
    if k == |dbs| {
      assert (dbs + [Db(name, node, false, 0)])[..|dbs|] == dbs;
    } else {
      var n := |dbs| - 1;
      var dbs' := dbs[k := dbs[k].(node := node)];
      if k < n {
        HeldPut(dbs[..n], name, k, node);
        assert dbs'[..n] == dbs[..n][k := dbs[k].(node := node)];
        assert dbs'[n] == dbs[n] && dbs[n].name != name;
      } else {
        assert dbs'[..n] == dbs[..n];
      }
    }
  }

  // Images.

  method RestorePages(data: seq<byte>, size: nat, n: nat) returns (pages: seq<Page>)
    requires size > 0 && |data| == n * size
    ensures pages == Cut(data, size)
  {
    pages := [];
    var offset := 0;
    assert data[0..] == data;
    for i := 0 to n
      invariant offset == i * size && offset <= |data|
      invariant Cut(data, size) == pages + Cut(data[offset..], size)
    {
      StepFits(i, n, size);
      pages := pages + [data[offset..offset + size]];
      CutNext(data, offset, size);
      offset := offset + size;
    }
    assert data[offset..] == [];
  }

  lemma StepFits(i: nat, n: nat, size: nat)
    requires i < n
    ensures i * size + size <= n * size && (i + 1) * size == i * size + size
  {
    var d := n - i - 1;
    assert n * size == (i + 1 + d) * size == i * size + size + d * size;
  }

  lemma CutNext(data: seq<byte>, offset: nat, size: nat)
    requires size > 0 && offset + size <= |data|
    ensures Cut(data[offset..], size) == [data[offset..offset + size]] + Cut(data[offset + size..], size)
  {
    var d := data[offset..];
    assert d[..size] == data[offset..offset + size] && d[size..] == data[offset + size..];
  }

  method RestoreFrames(data: seq<byte>, size: nat) returns (frames: seq<Frame>)
    ensures frames == CutFrames(data, size)
  {
    frames := [];
    var offset, n := 0, FRAME_HEADER_SIZE + size;
    assert data[0..] == data;
    while offset + n <= |data|
      invariant offset <= |data| && CutFrames(data, size) == frames + CutFrames(data[offset..], size)
    {
      var d := data[offset..];
      frames := frames + [Frame(d[..FRAME_HEADER_SIZE], d[FRAME_HEADER_SIZE..n])];
      assert d[n..] == data[offset + n..];
      offset := offset + n;
    }
  }

  method RestoreNode(node: R.Node, data: seq<byte>, size: nat, salt2: seq<byte>) returns (r: Restored)
    requires |node.hdr| == HEADER_SIZE && |salt2| == 4
    ensures r == RestoreImage(node, data, size, salt2)
  {
    hide RestartHeader;
    hide FromBe;
    hide ParsePageSize;
    var e := Emptied(node, salt2);
    if |data| < 18 {
      return PastEnd;
    }
    var pageSize := ParsePageSize(FromBe(data[16..18]));
    if pageSize == 0 || !R.FirstTells(node.pages, pageSize) {
      return Stops;
    }
    if |data| < 32 {
      return PastEnd;
    }
    var n := FromBe(data[28..32]);
    var main: nat := n * pageSize;
    if size < main {
      return Failed(e);
    }
    if |data| < main {
      return PastEnd;
    }
    var pages := RestorePages(data[..main], pageSize, n);
    if n == 0 {
      return Stops;
    }
    if size == main {
      return Fine(e.(pages := pages));
    }
    if size - main <= HEADER_SIZE || (size - main - HEADER_SIZE) % (FRAME_HEADER_SIZE + pageSize) != 0 {
      return Stops;
    }
    if |data| < size {
      return PastEnd;
    }
    var frames := RestoreFrames(data[main + HEADER_SIZE..size], pageSize);
    return Fine(R.Node(pages, data[main..main + HEADER_SIZE], frames));
  }

  /** The log as the snapshot has it. */
  method WalSnapshot(node: R.Node) returns (data: seq<byte>)
    ensures data == WalBytes(node)
  {
    if node.frames == [] {
      return [];
    }
    data := node.hdr;
    assert node.frames[0..] == node.frames;
    for i := 0 to |node.frames|
      invariant WalBytes(node) == data + FlatFrames(node.frames[i..])
    {
      var f := node.frames[i];
      assert node.frames[i..][1..] == node.frames[i + 1..];
      assert data + (f.header + f.page + FlatFrames(node.frames[i + 1..])) == data + f.header + f.page + FlatFrames(node.frames[i + 1..]);
      data := data + f.header;
      data := data + f.page;
    }
  }

  lemma SameBufs(a: seq<Db>, b: seq<Db>, n: nat, count: nat, pageSize: nat)
    requires |a| == |b| && n <= |a| && Headed(a)
    requires forall k :: 0 <= k < |a| ==> a[k].node == b[k].node && a[k].name == b[k].name
    ensures Headed(b) && FirstBufs(a, n, count, pageSize) == FirstBufs(b, n, count, pageSize)
  {
    if n > 0 {
      SameBufs(a, b, n - 1, count, pageSize);
    }
  }

  lemma {:induction false} FirstIsHeader(dbs: seq<Db>, n: nat, count: nat, pageSize: nat)
    requires n <= |dbs| && Headed(dbs)
    ensures FirstBufs(dbs, n, count, pageSize)[0] == Owned(PutAll([SNAPSHOT_FORMAT, count], SIZES))
  {
    hide PutAll;
    if n > 0 {
      FirstIsHeader(dbs, n - 1, count, pageSize);
    }
  }

  /** There are always buffers left while there are databases left. */
  lemma {:induction false} BufsGrow(dbs: seq<Db>, k: nat, count: nat, pageSize: nat)
    requires k < |dbs| && Headed(dbs)
    ensures |FirstBufs(dbs, k, count, pageSize)| + 2 + |dbs[k].node.pages| == |FirstBufs(dbs, k + 1, count, pageSize)|
    ensures |FirstBufs(dbs, k + 1, count, pageSize)| <= |FirstBufs(dbs, |dbs|, count, pageSize)|
    decreases |dbs| - k
  {
    if k + 1 < |dbs| {
      BufsGrow(dbs, k + 1, count, pageSize);
    }
  }

  lemma FreeStart(taken: seq<Db>, pageSize: nat)
    requires Headed(taken)
    ensures |FirstBufs(taken, 0, |taken|, pageSize)| == 1 && FreeList(taken, 0, |taken|, pageSize) == [0]
  {
  }

  /** The buffers of one more database, whose pages are still those of the snapshot. */
  lemma FreeNext(taken: seq<Db>, dbs: seq<Db>, k: nat, pageSize: nat)
    requires Countable(taken) && SamePages(taken, dbs) && k < |taken|
    ensures HasHeader(EntryOf(dbs[k]))
    ensures var i, j := |FirstBufs(taken, k, |taken|, pageSize)|, |FirstBufs(taken, k + 1, |taken|, pageSize)|;
            && j == i + 1 + CountField(dbs[k].node.pages[0]) + 1 && i < |Bufs(taken, pageSize)|
            && FreeList(taken, k + 1, |taken|, pageSize) == FreeList(taken, k, |taken|, pageSize) + [i] + [j - 1]
  {
    hide DbBufs;
    hide CountField;
    BufsGrow(taken, k, |taken|, pageSize);
    assert dbs[k].node.pages == taken[k].node.pages;
  }
}
