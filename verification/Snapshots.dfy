/** Snapshots of the state machine while it keeps applying (src/fsm.c): the buffers of a
  * snapshot point at live pages, and a lock keeps checkpoints away from them until the
  * snapshot is finalized. */
module Snapshots {
  import opened Bytes
  import opened Serialize
  import opened Wal
  import opened WalLog
  import opened Replica
  import opened SnapshotFormat

  datatype Db = Db(name: Name, node: Node, locked: bool, txId: nat)

  /** A buffer that was allocated for the snapshot, or a reference to a page of a database. */
  datatype Buf = Owned(data: seq<byte>) | PageRef(db: nat, page: nat)

  // The buffers.

  function Refs(k: nat, n: nat): (bufs: seq<Buf>)
    ensures |bufs| == n
  {
    seq(n, j requires 0 <= j => PageRef(k, j))
  }

  function DbBufs(db: Db, k: nat, pageSize: nat): (bufs: seq<Buf>)
    requires HasHeader(Entry(db.name, db.node))
    ensures |bufs| == |db.node.pages| + 2
  {
    [Owned(DbHeader(db.name, MainSize(db.node, pageSize), |WalBytes(db.node)|))]
    + Refs(k, |db.node.pages|)
    + [Owned(WalBytes(db.node))]
  }

  predicate Headed(dbs: seq<Db>) {
    forall k :: 0 <= k < |dbs| ==> HasHeader(Entry(dbs[k].name, dbs[k].node))
  }

  /** The buffers of the first n databases, after the snapshot header. */
  function FirstBufs(dbs: seq<Db>, n: nat, count: nat, pageSize: nat): (bufs: seq<Buf>)
    requires n <= |dbs| && Headed(dbs)
    ensures |bufs| > 0
  {
    if n == 0 then [Owned(PutAll([SNAPSHOT_FORMAT, count], SIZES))]
    else FirstBufs(dbs, n - 1, count, pageSize) + DbBufs(dbs[n - 1], n - 1, pageSize)
  }

  function Bufs(dbs: seq<Db>, pageSize: nat): (bufs: seq<Buf>)
    requires Headed(dbs)
    ensures |bufs| > 0
  {
    FirstBufs(dbs, |dbs|, |dbs|, pageSize)
  }

  // Reading them.

  predicate Points(dbs: seq<Db>, b: Buf) {
    b.PageRef? ==> b.db < |dbs| && b.page < |dbs[b.db].node.pages|
  }

  predicate Readable(dbs: seq<Db>, bufs: seq<Buf>) {
    forall i :: 0 <= i < |bufs| ==> Points(dbs, bufs[i])
  }

  function DataOf(dbs: seq<Db>, b: Buf): seq<byte>
    requires Points(dbs, b)
  {
    if b.Owned? then b.data else dbs[b.db].node.pages[b.page]
  }

  /** What is read from the buffers, with the pages as they are now. */
  function Contents(dbs: seq<Db>, bufs: seq<Buf>): seq<byte>
    requires Readable(dbs, bufs)
  {
    if bufs == [] then [] else Contents(dbs, bufs[..|bufs| - 1]) + DataOf(dbs, bufs[|bufs| - 1])
  }

  lemma ReadableConcat(dbs: seq<Db>, a: seq<Buf>, b: seq<Buf>)
    requires Readable(dbs, a) && Readable(dbs, b)
    ensures Readable(dbs, a + b)
  {
    hide Points;
  }

  lemma {:induction false} ContentsConcat(dbs: seq<Db>, a: seq<Buf>, b: seq<Buf>)
    requires Readable(dbs, a) && Readable(dbs, b)
    ensures Readable(dbs, a + b) && Contents(dbs, a + b) == Contents(dbs, a) + Contents(dbs, b)
  {
    hide Points;
    hide DataOf;
    ReadableConcat(dbs, a, b);
    if b == [] {
      assert a + b == a;
    } else {
      var n := |b| - 1;
      ContentsConcat(dbs, a, b[..n]);
      hide Readable;
      assert (a + b)[..|a + b| - 1] == a + b[..n];
      Assoc(Contents(dbs, a), Contents(dbs, b[..n]), DataOf(dbs, b[n]));
    }
  }

  /** Databases whose pages are the same read the same. */
  predicate SamePages(dbs: seq<Db>, dbs': seq<Db>) {
    |dbs| <= |dbs'| && forall k :: 0 <= k < |dbs| ==> dbs'[k].node.pages == dbs[k].node.pages
  }

  lemma {:induction false} SameContents(dbs: seq<Db>, dbs': seq<Db>, bufs: seq<Buf>)
    requires Readable(dbs, bufs) && SamePages(dbs, dbs')
    ensures Readable(dbs', bufs) && Contents(dbs', bufs) == Contents(dbs, bufs)
  {
    if bufs != [] {
      SameContents(dbs, dbs', bufs[..|bufs| - 1]);
      assert bufs == bufs[..|bufs| - 1] + [bufs[|bufs| - 1]];
    }
  }

  lemma {:induction false} RefsContents(dbs: seq<Db>, k: nat, n: nat)
    requires k < |dbs| && n <= |dbs[k].node.pages|
    ensures Readable(dbs, Refs(k, n)) && Contents(dbs, Refs(k, n)) == Flat(dbs[k].node.pages[..n])
  {
    var pages := dbs[k].node.pages;
    if n > 0 {
      RefsContents(dbs, k, n - 1);
      assert Refs(k, n)[..n - 1] == Refs(k, n - 1);
      FlatSnoc(pages[..n - 1], pages[n - 1]);
      assert pages[..n - 1] + [pages[n - 1]] == pages[..n];
    }
  }

  lemma {:induction false} FlatSnoc(pages: seq<Page>, p: Page)
    ensures Flat(pages + [p]) == Flat(pages) + p
  {
    if pages == [] {
      assert pages + [p] == [p];
      assert Flat([p]) == p + Flat([p][1..]);
    } else {
      FlatSnoc(pages[1..], p);
      assert (pages + [p])[1..] == pages[1..] + [p];
    }
  }

  function EntryOf(db: Db): Entry {
    Entry(db.name, db.node)
  }

  function Entries(dbs: seq<Db>): (es: seq<Entry>)
    ensures |es| == |dbs|
  {
    seq(|dbs|, k requires 0 <= k < |dbs| => EntryOf(dbs[k]))
  }

  lemma OneContents(dbs: seq<Db>, b: Buf)
    requires Points(dbs, b)
    ensures Readable(dbs, [b]) && Contents(dbs, [b]) == DataOf(dbs, b)
  {
    assert [b][..0] == [];
  }

  lemma Framed(dbs: seq<Db>, first: seq<byte>, mid: seq<Buf>, last: seq<byte>)
    requires Readable(dbs, mid)
    ensures var bufs := [Owned(first)] + mid + [Owned(last)];
            Readable(dbs, bufs) && Contents(dbs, bufs) == first + (Contents(dbs, mid) + last)
  {
    hide Contents;
    hide Readable;
    OneContents(dbs, Owned(first));
    OneContents(dbs, Owned(last));
    ContentsConcat(dbs, [Owned(first)], mid);
    ContentsConcat(dbs, [Owned(first)] + mid, [Owned(last)]);
    Assoc(first, Contents(dbs, mid), last);
  }

  lemma DbContents(dbs: seq<Db>, k: nat, pageSize: nat)
    requires k < |dbs| && HasHeader(EntryOf(dbs[k]))
    ensures Readable(dbs, DbBufs(dbs[k], k, pageSize))
    ensures Contents(dbs, DbBufs(dbs[k], k, pageSize)) == DbBytes(EntryOf(dbs[k]), pageSize)
  {
    hide Contents;
    hide DbHeader;
    hide WalBytes;
    hide Readable;
    hide Refs;
    hide Flat;
    hide MainSize;
    var db := dbs[k];
    var n := |db.node.pages|;
    RefsContents(dbs, k, n);
    assert db.node.pages[..n] == db.node.pages;
    Framed(dbs, DbHeader(db.name, MainSize(db.node, pageSize), |WalBytes(db.node)|), Refs(k, n), WalBytes(db.node));
  }

  lemma {:induction false} AllBytesSnoc(es: seq<Entry>, e: Entry, pageSize: nat)
    requires HaveHeaders(es) && HasHeader(e)
    ensures HaveHeaders(es + [e]) && AllBytes(es + [e], pageSize) == AllBytes(es, pageSize) + DbBytes(e, pageSize)
  {
    hide DbBytes;
    hide HasHeader;
    if es == [] {
      assert es + [e] == [e] && [e][1..] == [];
    } else {
      AllBytesSnoc(es[1..], e, pageSize);
      assert (es + [e])[1..] == es[1..] + [e];
    }
  }

  lemma {:induction false} FirstContents(dbs: seq<Db>, n: nat, count: nat, pageSize: nat)
    requires n <= |dbs| && Headed(dbs)
    ensures HaveHeaders(Entries(dbs)[..n]) && Readable(dbs, FirstBufs(dbs, n, count, pageSize))
    ensures Contents(dbs, FirstBufs(dbs, n, count, pageSize))
            == PutAll([SNAPSHOT_FORMAT, count], SIZES) + AllBytes(Entries(dbs)[..n], pageSize)
  {
    hide Contents;
    hide DbBufs;
    hide DbBytes;
    hide HasHeader;
    hide PutAll;
    hide Readable;
    var es := Entries(dbs);
    if n == 0 {
      OneContents(dbs, Owned(PutAll([SNAPSHOT_FORMAT, count], SIZES)));
    } else {
      FirstContents(dbs, n - 1, count, pageSize);
      DbContents(dbs, n - 1, pageSize);
      ContentsConcat(dbs, FirstBufs(dbs, n - 1, count, pageSize), DbBufs(dbs[n - 1], n - 1, pageSize));
      AllBytesSnoc(es[..n - 1], es[n - 1], pageSize);
      assert es[..n] == es[..n - 1] + [es[n - 1]];
    }
  }

  /** The buffers of a snapshot hold the snapshot, and the pages they point at exist. */
  lemma BufsContents(dbs: seq<Db>, pageSize: nat)
    requires Headed(dbs)
    ensures HaveHeaders(Entries(dbs)) && Readable(dbs, Bufs(dbs, pageSize))
    ensures Contents(dbs, Bufs(dbs, pageSize)) == SnapshotBytes(Entries(dbs), pageSize)
  {
    FirstContents(dbs, |dbs|, |dbs|, pageSize);
    assert Entries(dbs)[..|dbs|] == Entries(dbs);
  }

  // Freeing them.

  /** The places that are freed: the snapshot header, database headers and logs. */
  function FreeList(dbs: seq<Db>, n: nat, count: nat, pageSize: nat): seq<nat>
    requires n <= |dbs| && Headed(dbs)
  {
    if n == 0 then [0]
    else FreeList(dbs, n - 1, count, pageSize)
         + [|FirstBufs(dbs, n - 1, count, pageSize)|, |FirstBufs(dbs, n, count, pageSize)| - 1]
  }

  /** Exactly the owned buffers are on the list, each once; no page is. */
  ghost predicate Frees(free: seq<nat>, bufs: seq<Buf>) {
    && (forall i :: 0 <= i < |free| ==> free[i] < |bufs| && bufs[free[i]].Owned?)
    && (forall i, j :: 0 <= i < j < |free| ==> free[i] < free[j])
    && (forall k: nat {:trigger bufs[k]} :: k < |bufs| && bufs[k].Owned? ==> k in free)
  }

  lemma FreesNext(free: seq<nat>, bufs: seq<Buf>, more: seq<Buf>)
    requires Frees(free, bufs) && |more| >= 2 && more[0].Owned? && more[|more| - 1].Owned?
    requires forall i :: 0 < i < |more| - 1 ==> more[i].PageRef?
    ensures Frees(free + [|bufs|, |bufs| + |more| - 1], bufs + more)
  {
    var all, free' := bufs + more, free + [|bufs|, |bufs| + |more| - 1];
    assert free'[|free|] == |bufs| && free'[|free| + 1] == |all| - 1;
    forall i | 0 <= i < |free'| ensures free'[i] < |all| && all[free'[i]].Owned? {
      if i < |free| {
        assert all[free[i]] == bufs[free[i]];
      }
    }
    forall k: nat | k < |all| && all[k].Owned? ensures k in free' {
      if k < |bufs| {
        assert all[k] == bufs[k] && k in free;
      } else {
        assert all[k] == more[k - |bufs|];
      }
    }
  }

  lemma FreesHeader(data: seq<byte>)
    ensures Frees([0], [Owned(data)])
  {
  }

  lemma {:induction false} FreesOwned(dbs: seq<Db>, n: nat, count: nat, pageSize: nat)
    requires n <= |dbs| && Headed(dbs)
    ensures Frees(FreeList(dbs, n, count, pageSize), FirstBufs(dbs, n, count, pageSize))
  {
    hide DbBufs;
    hide Frees;
    hide HasHeader;
    FreesHeader(PutAll([SNAPSHOT_FORMAT, count], SIZES));
    if n > 0 {
      FreesOwned(dbs, n - 1, count, pageSize);
      DbOwned(dbs[n - 1], n - 1, pageSize);
      FreesNext(FreeList(dbs, n - 1, count, pageSize), FirstBufs(dbs, n - 1, count, pageSize), DbBufs(dbs[n - 1], n - 1, pageSize));
    }
  }

  lemma DbOwned(db: Db, k: nat, pageSize: nat)
    requires HasHeader(EntryOf(db))
    ensures var bufs := DbBufs(db, k, pageSize);
            && bufs[0].Owned? && bufs[|bufs| - 1].Owned?
            && forall i :: 0 < i < |bufs| - 1 ==> bufs[i].PageRef?
  {
  }

  // Runs.

  datatype Taken = Taken(dbs: seq<Db>, bufs: seq<Buf>)
  datatype Option<T> = None | Some(value: T)

  /** The registry, and the snapshot that was taken and not yet finalized. */
  datatype State = State(dbs: seq<Db>, snap: Option<Taken>)

  datatype Step =
    | Snap
    | ApplyTo(k: nat, batch: Batch, salt: seq<byte>, wants: bool, salt2: seq<byte>)
    | Register(name: Name, node: Node)
    | Transact(k: nat, txId: nat)
    | Finalize

  function WithLock(dbs: seq<Db>, n: nat, locked: bool): (r: seq<Db>)
    requires n <= |dbs|
    ensures |r| == |dbs|
  {
    seq(|dbs|, k requires 0 <= k < |dbs| => if k < n then dbs[k].(locked := locked) else dbs[k])
  }

  /** No transaction, checkpoint or other snapshot is in progress. */
  predicate Idle(dbs: seq<Db>) {
    forall k :: 0 <= k < |dbs| ==> dbs[k].txId == 0 && !dbs[k].locked
  }

  /** The first page of every database tells its size. */
  predicate Countable(dbs: seq<Db>) {
    Headed(dbs) && forall k :: 0 <= k < |dbs| ==> CountField(dbs[k].node.pages[0]) == |dbs[k].node.pages|
  }

  /** A checkpoint is made when it is wanted and the database is not locked. */
  function MaybeCheckpoint(db: Db, wants: bool, salt2: seq<byte>): Db
    requires |salt2| == 4 && |db.node.hdr| == HEADER_SIZE && FramesOk(db.node.frames) && Content(db.node).Keys == UpTo(Size(db.node))
  {
    if wants && !db.locked then db.(node := Checkpoint(db.node, salt2)) else db
  }

  /** The log is emptied exactly when a checkpoint is wanted and the database is not locked, its
    * latest pages then being the ones on file, and the database reads the same either way. */
  lemma CheckpointsExactly(db: Db, pageSize: nat, wants: bool, salt2: seq<byte>)
    requires Inv(db.node, pageSize) && |salt2| == 4
    ensures var n := MaybeCheckpoint(db, wants, salt2).node;
            && MaybeCheckpoint(db, wants, salt2) == db.(node := n) && Inv(n, pageSize)
            && Size(n) == Size(db.node) && Content(n) == Content(db.node)
            && (n.frames == [] <==> db.node.frames == [] || (wants && !db.locked))
            && (n.frames == [] && db.node.frames != [] ==>
                  |n.pages| == Size(db.node) && forall i :: 0 <= i < |n.pages| ==> i + 1 in Content(db.node) && n.pages[i] == Content(db.node)[i + 1])
            && (n.frames == db.node.frames ==> n == db.node)
  {
    hide Inv;
    if wants && !db.locked {
      CheckpointKeeps(db.node, pageSize, salt2);
    }
  }

  /** No transaction changes the page size. */
  predicate FirstPagesTell(batch: Batch, pageSize: nat) {
    forall i :: 0 <= i < |batch| && batch[i].number == 1 ==> Tells(batch[i].page, pageSize)
  }

  /** All pages are of the page size, and every version of the first page says so. */
  ghost predicate TellsSize(n: Node, pageSize: nat)
    requires FramesOk(n.frames)
  {
    && Sized(n.pages, pageSize) && (n.pages != [] ==> Tells(n.pages[0], pageSize))
    && ShownTell(View(n.frames), pageSize)
  }

  ghost predicate ShownTell(v: seq<Seen>, pageSize: nat) {
    forall i :: 0 <= i < |v| ==> |v[i].page| == pageSize && (v[i].number == 1 ==> Tells(v[i].page, pageSize))
  }

  ghost predicate Enabled(s: State, pageSize: nat, step: Step) {
    match step
    case Snap => s.snap == None && Idle(s.dbs) && Countable(s.dbs)
    case ApplyTo(k, batch, salt, wants, salt2) =>
      && k < |s.dbs| && Inv(s.dbs[k].node, pageSize) && BatchOk(Size(s.dbs[k].node), batch, pageSize)
      && FirstPagesTell(batch, pageSize) && |salt| == 8 && |salt2| == 4
    case Register(name, node) =>
      Inv(node, pageSize) && TellsSize(node, pageSize) && IsText(name) && forall k :: 0 <= k < |s.dbs| ==> s.dbs[k].name != name
    case Transact(k, _) => k < |s.dbs|
    case Finalize => s.snap != None && |s.snap.value.dbs| <= |s.dbs|
  }

  ghost function ApplyDb(db: Db, pageSize: nat, batch: Batch, salt: seq<byte>, wants: bool, salt2: seq<byte>): Db
    requires Inv(db.node, pageSize) && BatchOk(Size(db.node), batch, pageSize) && |salt| == 8 && |salt2| == 4
  {
    ApplyKeeps(db.node, pageSize, batch, salt);
    MaybeCheckpoint(db.(node := Apply(db.node, pageSize, batch, salt)), wants, salt2)
  }

  ghost function Take(s: State, pageSize: nat, step: Step): State
    requires Enabled(s, pageSize, step)
  {
    match step
    case Snap => State(WithLock(s.dbs, |s.dbs|, true), Some(Taken(s.dbs, Bufs(s.dbs, pageSize))))
    case ApplyTo(k, batch, salt, wants, salt2) =>
      s.(dbs := s.dbs[k := ApplyDb(s.dbs[k], pageSize, batch, salt, wants, salt2)])
    case Register(name, node) => s.(dbs := s.dbs + [Db(name, node, false, 0)])
    case Transact(k, txId) => s.(dbs := s.dbs[k := s.dbs[k].(txId := txId)])
    case Finalize => State(WithLock(s.dbs, |s.snap.value.dbs|, false), None)
  }

  /** While a snapshot is out, exactly its databases are locked and their pages are the ones
    * it was taken of; otherwise no database is locked. */
  ghost predicate Locks(s: State, pageSize: nat) {
    match s.snap
    case None => forall k :: 0 <= k < |s.dbs| ==> !s.dbs[k].locked
    case Some(t) =>
      && Countable(t.dbs) && t.bufs == Bufs(t.dbs, pageSize) && SamePages(t.dbs, s.dbs)
      && forall k :: 0 <= k < |s.dbs| ==> (s.dbs[k].locked <==> k < |t.dbs|)
  }

  /** What holds of every database, and of their names. */
  ghost predicate Settled(dbs: seq<Db>, pageSize: nat) {
    && (forall k {:trigger dbs[k]} :: 0 <= k < |dbs| ==> SettledDb(dbs[k], pageSize))
    && (forall i, j :: 0 <= i < j < |dbs| ==> dbs[i].name != dbs[j].name)
  }

  ghost predicate SettledDb(db: Db, pageSize: nat) {
    Inv(db.node, pageSize) && TellsSize(db.node, pageSize) && IsText(db.name)
  }

  ghost predicate Guarded(s: State, pageSize: nat) {
    && Locks(s, pageSize) && Settled(s.dbs, pageSize)
    && (s.snap != None ==> Settled(s.snap.value.dbs, pageSize))
  }

  lemma StepGuards(s: State, pageSize: nat, step: Step)
    requires Guarded(s, pageSize) && Enabled(s, pageSize, step)
    ensures Guarded(Take(s, pageSize, step), pageSize)
  {
    StepLocks(s, pageSize, step);
    StepSettles(s, pageSize, step);
  }

  lemma StepLocks(s: State, pageSize: nat, step: Step)
    requires Guarded(s, pageSize) && Enabled(s, pageSize, step)
    ensures Locks(Take(s, pageSize, step), pageSize)
  {
    hide Bufs;
    hide Inv;
    hide BatchOk;
    hide Checkpoint;
    hide Apply;
    hide Countable;
    hide Settled;
    hide FirstPagesTell;
    hide TellsSize;
    if step.ApplyTo? {
      ApplyDbPages(s.dbs[step.k], pageSize, step.batch, step.salt, step.wants, step.salt2);
      hide ApplyDb;
    }
  }

  lemma StepSettles(s: State, pageSize: nat, step: Step)
    requires Guarded(s, pageSize) && Enabled(s, pageSize, step)
    ensures var s' := Take(s, pageSize, step);
            Settled(s'.dbs, pageSize) && (s'.snap != None ==> Settled(s'.snap.value.dbs, pageSize))
  {
    hide Bufs;
    hide Inv;
    hide BatchOk;
    hide Countable;
    hide Locks;
    hide TellsSize;
    hide FirstPagesTell;
    match step
    case ApplyTo(k, batch, salt, wants, salt2) =>
      ApplyDbPages(s.dbs[k], pageSize, batch, salt, wants, salt2);
      ApplyDbTells(s.dbs[k], pageSize, batch, salt, wants, salt2);
      hide ApplyDb;
    case _ =>
  }

  /** Applying leaves the lock alone, and the pages of a locked database. */
  lemma ApplyDbPages(db: Db, pageSize: nat, batch: Batch, salt: seq<byte>, wants: bool, salt2: seq<byte>)
    requires Inv(db.node, pageSize) && BatchOk(Size(db.node), batch, pageSize) && |salt| == 8 && |salt2| == 4
    ensures var db' := ApplyDb(db, pageSize, batch, salt, wants, salt2);
            && db'.locked == db.locked && db'.name == db.name && (db.locked ==> db'.node.pages == db.node.pages)
            && Inv(db'.node, pageSize)
  {
    hide BatchOk;
    hide Checkpoint;
    hide Apply;
    ApplyKeeps(db.node, pageSize, batch, salt);
    CheckpointKeeps(Apply(db.node, pageSize, batch, salt), pageSize, salt2);
    hide Inv;
  }

  lemma ApplyDbTells(db: Db, pageSize: nat, batch: Batch, salt: seq<byte>, wants: bool, salt2: seq<byte>)
    requires Inv(db.node, pageSize) && BatchOk(Size(db.node), batch, pageSize) && |salt| == 8 && |salt2| == 4
    requires TellsSize(db.node, pageSize) && FirstPagesTell(batch, pageSize)
    ensures var db' := ApplyDb(db, pageSize, batch, salt, wants, salt2);
            FramesOk(db'.node.frames) && TellsSize(db'.node, pageSize)
  {
    hide BatchOk;
    hide Checkpoint;
    hide Apply;
    hide TellsSize;
    ApplyTells(db.node, pageSize, batch, salt);
    var n := Apply(db.node, pageSize, batch, salt);
    ApplyKeeps(db.node, pageSize, batch, salt);
    CheckpointTells(n, pageSize, salt2);
  }

  lemma ApplyTells(n: Node, pageSize: nat, batch: Batch, salt: seq<byte>)
    requires Inv(n, pageSize) && BatchOk(Size(n), batch, pageSize) && |salt| == 8
    requires TellsSize(n, pageSize) && FirstPagesTell(batch, pageSize)
    ensures TellsSize(Apply(n, pageSize, batch, salt), pageSize)
  {
    hide Apply;
    hide Added;
    hide ShownTell;
    hide View;
    ApplyKeeps(n, pageSize, batch, salt);
    hide Inv;
    AddedTells(Size(n), batch, pageSize);
    ShownConcat(View(n.frames), Added(Size(n), batch), pageSize);
  }

  lemma AddedTells(size: nat, batch: Batch, pageSize: nat)
    requires BatchOk(size, batch, pageSize) && FirstPagesTell(batch, pageSize)
    ensures ShownTell(Added(size, batch), pageSize)
  {
    hide Tells;
    hide Grown;
  }

  lemma ShownConcat(a: seq<Seen>, b: seq<Seen>, pageSize: nat)
    requires ShownTell(a, pageSize) && ShownTell(b, pageSize)
    ensures ShownTell(a + b, pageSize)
  {
    hide Tells;
  }

  /** A page of the content is one of the base or one that the log shows. */
  lemma {:induction false} OverlayFrom(m: map<nat, Page>, v: seq<Seen>, p: nat)
    requires p in Overlay(m, v)
    ensures || (p in m && Overlay(m, v)[p] == m[p])
            || exists i :: 0 <= i < |v| && v[i].number == p && Overlay(m, v)[p] == v[i].page
  {
    if v != [] {
      var n := |v| - 1;
      if v[n].number != p {
        OverlayFrom(m, v[..n], p);
        if !(p in m && Overlay(m, v)[p] == m[p]) {
          var i :| 0 <= i < |v[..n]| && v[..n][i].number == p && Overlay(m, v[..n])[p] == v[..n][i].page;
          assert v[i].number == p;
        }
      }
    }
  }

  lemma ContentTells(n: Node, pageSize: nat, p: nat)
    requires FramesOk(n.frames) && TellsSize(n, pageSize) && p in Content(n)
    ensures |Content(n)[p]| == pageSize && (p == 1 ==> Tells(Content(n)[p], pageSize))
  {
    hide Tells;
    hide Overlay;
    hide View;
    OverlayFrom(Base(n.pages), View(n.frames), p);
  }

  lemma CheckpointTells(n: Node, pageSize: nat, salt2: seq<byte>)
    requires Inv(n, pageSize) && TellsSize(n, pageSize) && |salt2| == 4
    ensures TellsSize(Checkpoint(n, salt2), pageSize)
  {
    hide Tells;
    hide Content;
    hide RestartHeader;
    hide LogOk;
    hide View;
    hide UpTo;
    NoView();
    LogHas(n, pageSize);
    var n' := Checkpoint(n, salt2);
    if n.frames != [] {
      forall i | 0 <= i < |n'.pages|
        ensures |n'.pages[i]| == pageSize && (i == 0 ==> Tells(n'.pages[i], pageSize))
      {
        assert i + 1 in UpTo(Size(n));
        ContentTells(n, pageSize, i + 1);
      }
    }
  }

  ghost predicate Runs(s: State, pageSize: nat, steps: seq<Step>)
    decreases |steps|, 0
  {
    steps != [] ==>
      Runs(s, pageSize, steps[..|steps| - 1]) && Enabled(Run(s, pageSize, steps[..|steps| - 1]), pageSize, steps[|steps| - 1])
  }

  ghost function Run(s: State, pageSize: nat, steps: seq<Step>): State
    requires Runs(s, pageSize, steps)
    decreases |steps|, 1
  {
    if steps == [] then s else Take(Run(s, pageSize, steps[..|steps| - 1]), pageSize, steps[|steps| - 1])
  }

  lemma {:induction false} RunGuards(s: State, pageSize: nat, steps: seq<Step>)
    requires Guarded(s, pageSize) && Runs(s, pageSize, steps)
    ensures Guarded(Run(s, pageSize, steps), pageSize)
  {
    hide Guarded;
    hide Enabled;
    hide Take;
    if steps != [] {
      RunGuards(s, pageSize, steps[..|steps| - 1]);
      StepGuards(Run(s, pageSize, steps[..|steps| - 1]), pageSize, steps[|steps| - 1]);
    }
  }

  /** Whenever the buffers of a snapshot are read, whatever was applied or registered since,
    * they hold the databases as they were when it was taken. */
  lemma SnapshotIsFrozen(s: State, pageSize: nat, steps: seq<Step>)
    requires Guarded(s, pageSize) && Runs(s, pageSize, steps) && Run(s, pageSize, steps).snap != None
    ensures var s' := Run(s, pageSize, steps);
            var t := s'.snap.value;
            && HaveHeaders(Entries(t.dbs)) && Readable(s'.dbs, t.bufs)
            && Contents(s'.dbs, t.bufs) == SnapshotBytes(Entries(t.dbs), pageSize)
  {
    hide Bufs;
    hide Contents;
    hide SnapshotBytes;
    RunGuards(s, pageSize, steps);
    var s' := Run(s, pageSize, steps);
    BufsContents(s'.snap.value.dbs, pageSize);
    SameContents(s'.snap.value.dbs, s'.dbs, s'.snap.value.bufs);
  }

  /** The number of databases fits into 32 bits and the sizes of the images into 64. */
  ghost predicate Addressable(dbs: seq<Db>) {
    |dbs| < U32 && forall k :: 0 <= k < |dbs| ==> |Image(dbs[k].node)| < U64
  }

  lemma SettledEntries(dbs: seq<Db>, pageSize: nat)
    requires Settled(dbs, pageSize) && Countable(dbs) && Addressable(dbs)
    ensures EntriesOk(Entries(dbs), pageSize)
  {
    hide EntryOk;
    hide SettledDb;
    hide HasHeader;
    forall k | 0 <= k < |dbs| ensures EntryOk(Entries(dbs)[k], pageSize) {
      assert SettledDb(dbs[k], pageSize);
      SettledEntry(dbs[k], pageSize);
    }
  }

  lemma SettledEntry(db: Db, pageSize: nat)
    requires SettledDb(db, pageSize) && HasHeader(EntryOf(db)) && |Image(db.node)| < U64
    requires CountField(db.node.pages[0]) == |db.node.pages|
    ensures EntryOk(EntryOf(db), pageSize)
  {
    hide Image;
    hide Content;
    hide View;
  }

  /** A snapshot restored on another node gives it the databases as they were when the
    * snapshot was taken, exactly when every one of them that the node has, or else a new one,
    * has a first page of the same page size; otherwise that node stops. */
  lemma SnapshotTravels(s: State, pageSize: nat, steps: seq<Step>, held: map<Name, Node>, blank: Node, salt2: seq<byte>)
    requires Guarded(s, pageSize) && Runs(s, pageSize, steps) && Run(s, pageSize, steps).snap != None
    requires HeadersOk(held, blank) && |salt2| == 4 && Addressable(Run(s, pageSize, steps).snap.value.dbs)
    ensures var s' := Run(s, pageSize, steps);
            && Readable(s'.dbs, s'.snap.value.bufs)
            && var es := Entries(s'.snap.value.dbs);
               var r := Restore(held, Contents(s'.dbs, s'.snap.value.bufs), blank, salt2);
               if Ready(held, es, pageSize, blank) then r.Loaded? && Restores(held, r.held, es) else r == Halted
  {
    hide Restore;
    hide Contents;
    hide Restores;
    hide EntriesOk;
    hide Settled;
    hide Ready;
    hide Run;
    hide Runs;
    RunGuards(s, pageSize, steps);
    SettledEntries(Run(s, pageSize, steps).snap.value.dbs, pageSize);
    SnapshotIsFrozen(s, pageSize, steps);
    SnapshotTrip(held, Entries(Run(s, pageSize, steps).snap.value.dbs), pageSize, blank, salt2);
  }

  /** Finalizing unlocks exactly the databases of the snapshot. */
  lemma FinalizeUnlocks(s: State, pageSize: nat, steps: seq<Step>)
    requires Guarded(s, pageSize) && Runs(s, pageSize, steps) && Run(s, pageSize, steps).snap != None
    ensures var s' := Run(s, pageSize, steps);
            && |s'.snap.value.dbs| <= |s'.dbs|
            && (forall k :: 0 <= k < |s'.dbs| ==> (s'.dbs[k].locked <==> k < |s'.snap.value.dbs|))
            && (forall k :: 0 <= k < |s'.dbs| ==> !WithLock(s'.dbs, |s'.snap.value.dbs|, false)[k].locked)
  {
    hide Run;
    hide Settled;
    hide Countable;
    hide Bufs;
    RunGuards(s, pageSize, steps);
  }
}
