/** Replicas of a database: nodes that apply the same batches of pages hold the same
  * database, whenever each of them checkpoints and whatever salts it draws.
  *
  * A checkpoint is run by SQLite; its effect on the image is that every page of the log
  * is copied into the database and the log is restarted.
  */
module Replica {
  import opened Bytes
  import opened Wal
  import opened WalLog

  /** A database image and its log. */
  datatype Node = Node(pages: seq<Page>, hdr: seq<byte>, frames: seq<Frame>)

  datatype Op = ApplyOp(batch: Batch, salt: seq<byte>) | CheckpointOp(salt2: seq<byte>)

  predicate LegalSize(pageSize: nat) {
    pageSize in {512, 1024, 2048, 4096, 8192, 16384, 32768}
  }

  /** The page size as a first page tells it. */
  function PageSizeField(page: Page): nat
    requires |page| >= 32
  {
    ParsePageSize(FromBe(page[16..18]))
  }

  predicate Tells(page: Page, pageSize: nat) {
    |page| >= 32 && PageSizeField(page) == pageSize
  }

  /** There is a first page, and it tells the page size. */
  predicate FirstTells(pages: seq<Page>, pageSize: nat) {
    pages != [] && Tells(pages[0], pageSize)
  }

  // What a node holds.

  function UpTo(n: nat): (s: set<nat>)
    ensures forall p: nat :: p in s <==> 1 <= p <= n
  {
    if n == 0 then {} else UpTo(n - 1) + {n}
  }

  function Base(pages: seq<Page>): map<nat, Page> {
    map p: nat | p in UpTo(|pages|) :: pages[p - 1]
  }

  function Overlay(m: map<nat, Page>, v: seq<Seen>): map<nat, Page> {
    if v == [] then m else Overlay(m, v[..|v| - 1])[v[|v| - 1].number := v[|v| - 1].page]
  }

  function Content(n: Node): map<nat, Page>
    requires FramesOk(n.frames)
  {
    Overlay(Base(n.pages), View(n.frames))
  }

  function Size(n: Node): nat
    requires FramesOk(n.frames)
  {
    SizeOf(|n.pages|, n.frames)
  }

  /** Page numbers are positive 32-bit numbers, and no page is skipped. */
  ghost predicate BatchOk(size: nat, batch: Batch, pageSize: nat) {
    && PagesOk(batch, pageSize)
    && (forall i :: 0 <= i < |batch| ==> 0 < batch[i].number < U32)
    && (forall p: nat {:trigger Touches(batch, p)} :: size < p <= Grown(size, batch) ==> Touches(batch, p))
  }

  predicate Touches(batch: Batch, p: nat) {
    exists i :: 0 <= i < |batch| && batch[i].number == p
  }

  // Steps.

  function HeaderFor(n: Node, pageSize: nat, salt: seq<byte>): (hdr: seq<byte>)
    requires |n.hdr| == HEADER_SIZE && |salt| == 8
    ensures |hdr| == HEADER_SIZE
  {
    if WalPageSize(n.hdr) == 0 then StartHeader(pageSize, salt) else n.hdr
  }

  function Apply(n: Node, pageSize: nat, batch: Batch, salt: seq<byte>): (n': Node)
    requires |n.hdr| == HEADER_SIZE && |salt| == 8 && FramesOk(n.frames)
    ensures |n'.hdr| == HEADER_SIZE && FramesOk(n'.frames) && n'.pages == n.pages
  {
    var hdr := HeaderFor(n, pageSize, salt);
    n.(hdr := hdr, frames := Filled(hdr, n.frames, Size(n), batch, |batch|))
  }

  function Checkpoint(n: Node, salt2: seq<byte>): (n': Node)
    requires |n.hdr| == HEADER_SIZE && |salt2| == 4 && FramesOk(n.frames) && Content(n).Keys == UpTo(Size(n))
    ensures |n'.hdr| == HEADER_SIZE && FramesOk(n'.frames)
  {
    if n.frames == [] then n
    else Node(seq(Size(n), i requires 0 <= i < Size(n) => assert i + 1 in UpTo(Size(n)); Content(n)[i + 1]),
              RestartHeader(n.hdr, salt2), [])
  }

  /** The log is chained under a header for the page size, or was never written; then the
    * first page of the database tells the size to start it with. */
  ghost predicate LogOk(n: Node, pageSize: nat) {
    && |n.hdr| == HEADER_SIZE && FramesOk(n.frames)
    && (WalPageSize(n.hdr) == 0 ==> n.frames == [] && FirstTells(n.pages, pageSize))
    && (WalPageSize(n.hdr) != 0 ==> WalPageSize(n.hdr) == pageSize && Chained(n.hdr, n.frames, pageSize))
  }

  ghost predicate Inv(n: Node, pageSize: nat) {
    && LegalSize(pageSize) && LogOk(n, pageSize)
    && Size(n) < U32 && Content(n).Keys == UpTo(Size(n))
  }

  ghost predicate Enabled(n: Node, pageSize: nat, op: Op) {
    && |n.hdr| == HEADER_SIZE && FramesOk(n.frames)
    && match op
       case ApplyOp(batch, salt) => BatchOk(Size(n), batch, pageSize) && |salt| == 8
       case CheckpointOp(salt2) => |salt2| == 4 && Content(n).Keys == UpTo(Size(n))
  }

  ghost function Step(n: Node, pageSize: nat, op: Op): Node
    requires Enabled(n, pageSize, op)
  {
    match op
    case ApplyOp(batch, salt) => Apply(n, pageSize, batch, salt)
    case CheckpointOp(salt2) => Checkpoint(n, salt2)
  }

  // Applying a batch.

  lemma ApplyLog(n: Node, pageSize: nat, batch: Batch, salt: seq<byte>)
    requires LegalSize(pageSize) && LogOk(n, pageSize) && Size(n) < U32 && PagesOk(batch, pageSize) && |salt| == 8
    ensures LogOk(Apply(n, pageSize, batch, salt), pageSize)
  {
    hide Filled;
    hide Running;
    hide StartHeader;
    StartHeaderOk(pageSize, salt);
    var hdr := HeaderFor(n, pageSize, salt);
    if WalPageSize(n.hdr) == 0 {
      NothingChained(hdr, pageSize);
    }
    FilledChained(hdr, n.frames, Size(n), batch, |batch|, pageSize);
    hide Chained;
    hide LegalSize;
  }

  lemma NothingChained(hdr: seq<byte>, pageSize: nat)
    requires HeaderOk(hdr)
    ensures Chained(hdr, [], pageSize)
  {
  }

  /** Applying a batch adds exactly its pages, in order, and grows the database. */
  lemma ApplyView(n: Node, pageSize: nat, batch: Batch, salt: seq<byte>)
    requires |n.hdr| == HEADER_SIZE && |salt| == 8 && FramesOk(n.frames) && Size(n) < U32
    requires PagesOk(batch, pageSize) && pageSize % 8 == 0
    ensures var n' := Apply(n, pageSize, batch, salt);
            && View(n'.frames) == View(n.frames) + Added(Size(n), batch)
            && Size(n') == Grown(Size(n), batch)
  {
    hide Filled;
    hide View;
    hide Added;
    hide Grown;
    var hdr := HeaderFor(n, pageSize, salt);
    FilledView(hdr, n.frames, Size(n), batch, |batch|);
    FilledSize(hdr, n.frames, |n.pages|, batch);
    assert Added(Size(n), batch)[..|batch|] == Added(Size(n), batch);
  }

  lemma {:induction false} OverlayConcat(m: map<nat, Page>, a: seq<Seen>, b: seq<Seen>)
    ensures Overlay(m, a + b) == Overlay(Overlay(m, a), b)
  {
    if b == [] {
      assert a + b == a;
    } else {
      var n := |b| - 1;
      OverlayConcat(m, a, b[..n]);
      assert (a + b)[..|a + b| - 1] == a + b[..n];
    }
  }

  predicate Shows(v: seq<Seen>, p: nat) {
    exists i :: 0 <= i < |v| && v[i].number == p
  }

  lemma {:induction false} OverlayKey(m: map<nat, Page>, v: seq<Seen>, p: nat)
    ensures p in Overlay(m, v) <==> p in m || Shows(v, p)
  {
    if v != [] {
      var n := |v| - 1;
      OverlayKey(m, v[..n], p);
      assert Shows(v, p) <==> Shows(v[..n], p) || v[n].number == p by {
        if Shows(v, p) {
          var i :| 0 <= i < |v| && v[i].number == p;
          assert i < n ==> v[..n][i].number == p;
        }
      }
    }
  }

  lemma AddedShows(size: nat, batch: Batch, pageSize: nat, p: nat)
    requires BatchOk(size, batch, pageSize)
    ensures Shows(Added(size, batch), p) <==> Touches(batch, p)
    ensures Touches(batch, p) ==> 0 < p <= Grown(size, batch)
  {
    hide Grown;
    GrownIsMax(size, batch);
    var v := Added(size, batch);
    if Shows(v, p) {
      var i :| 0 <= i < |v| && v[i].number == p;
      assert batch[i].number == p;
    }
    if Touches(batch, p) {
      var i :| 0 <= i < |batch| && batch[i].number == p;
      assert v[i].number == p;
    }
  }

  lemma ApplyKeys(size: nat, m: map<nat, Page>, batch: Batch, pageSize: nat)
    requires m.Keys == UpTo(size) && BatchOk(size, batch, pageSize)
    ensures Overlay(m, Added(size, batch)).Keys == UpTo(Grown(size, batch))
  {
    hide Overlay;
    hide Grown;
    hide UpTo;
    hide BatchOk;
    hide Added;
    var keys := Overlay(m, Added(size, batch)).Keys;
    forall p: nat ensures p in keys <==> 1 <= p <= Grown(size, batch) {
      ApplyKey(size, m, batch, pageSize, p);
    }
  }

  lemma ApplyKey(size: nat, m: map<nat, Page>, batch: Batch, pageSize: nat, p: nat)
    requires m.Keys == UpTo(size) && BatchOk(size, batch, pageSize)
    ensures p in Overlay(m, Added(size, batch)).Keys <==> 1 <= p <= Grown(size, batch)
  {
    hide Overlay;
    hide Grown;
    hide UpTo;
    hide Added;
    hide Shows;
    OverlayKey(m, Added(size, batch), p);
    AddedShows(size, batch, pageSize, p);
    assert size < p <= Grown(size, batch) ==> Touches(batch, p);
  }

  lemma ApplyKeeps(n: Node, pageSize: nat, batch: Batch, salt: seq<byte>)
    requires Inv(n, pageSize) && BatchOk(Size(n), batch, pageSize) && |salt| == 8
    ensures var n' := Apply(n, pageSize, batch, salt);
            && Inv(n', pageSize) && Size(n') == Grown(Size(n), batch)
            && Content(n') == Overlay(Content(n), Added(Size(n), batch))
            && View(n'.frames) == View(n.frames) + Added(Size(n), batch)
  {
    hide Apply;
    hide LogOk;
    hide Overlay;
    hide View;
    hide Added;
    LogHas(n, pageSize);
    ApplyLog(n, pageSize, batch, salt);
    ApplyView(n, pageSize, batch, salt);
    ApplyKeys(Size(n), Content(n), batch, pageSize);
    OverlayConcat(Base(n.pages), View(n.frames), Added(Size(n), batch));
  }

  lemma LogHas(n: Node, pageSize: nat)
    requires LogOk(n, pageSize)
    ensures |n.hdr| == HEADER_SIZE && FramesOk(n.frames)
  {
  }

  // Checkpointing.

  lemma CheckpointLog(n: Node, pageSize: nat, salt2: seq<byte>)
    requires LogOk(n, pageSize) && Content(n).Keys == UpTo(Size(n)) && |salt2| == 4
    ensures LogOk(Checkpoint(n, salt2), pageSize)
  {
    hide RestartHeader;
    hide Content;
    if n.frames != [] {
      RestartHeaderOk(n.hdr, salt2);
      NothingChained(RestartHeader(n.hdr, salt2), pageSize);
    }
  }

  lemma CheckpointKeeps(n: Node, pageSize: nat, salt2: seq<byte>)
    requires Inv(n, pageSize) && |salt2| == 4
    ensures var n' := Checkpoint(n, salt2);
            Inv(n', pageSize) && Size(n') == Size(n) && Content(n') == Content(n) && n'.frames == []
  {
    hide LogOk;
    hide View;
    hide Base;
    hide RestartHeader;
    hide LegalSize;
    LogHas(n, pageSize);
    CheckpointLog(n, pageSize, salt2);
    NoView();
    if n.frames != [] {
      SamePages(Content(n), Checkpoint(n, salt2).pages);
    }
  }

  lemma SamePages(m: map<nat, Page>, pages: seq<Page>)
    requires m.Keys == UpTo(|pages|) && forall i :: 0 <= i < |pages| ==> i + 1 in m && pages[i] == m[i + 1]
    ensures Base(pages) == m
  {
    assert Base(pages).Keys == UpTo(|pages|);
    forall p | p in m ensures Base(pages)[p] == m[p] {
      assert p in UpTo(|pages|);
      assert pages[p - 1] == m[p - 1 + 1];
    }
  }

  // Runs.

  ghost predicate Runs(n: Node, pageSize: nat, ops: seq<Op>)
    decreases |ops|, 0
  {
    ops != [] ==>
      && Runs(n, pageSize, ops[..|ops| - 1])
      && Enabled(Run(n, pageSize, ops[..|ops| - 1]), pageSize, ops[|ops| - 1])
  }

  ghost function Run(n: Node, pageSize: nat, ops: seq<Op>): Node
    requires Runs(n, pageSize, ops)
    decreases |ops|, 1
  {
    if ops == [] then n else Step(Run(n, pageSize, ops[..|ops| - 1]), pageSize, ops[|ops| - 1])
  }

  /** The batches of a run, without its checkpoints. */
  function Batches(ops: seq<Op>): seq<Batch> {
    if ops == [] then [] else
      var last := ops[|ops| - 1];
      Batches(ops[..|ops| - 1]) + if last.ApplyOp? then [last.batch] else []
  }

  function GrownAll(size: nat, batches: seq<Batch>): nat {
    if batches == [] then size else Grown(GrownAll(size, batches[..|batches| - 1]), batches[|batches| - 1])
  }

  /** All that a log without checkpoints would show. */
  function AllAdded(size: nat, batches: seq<Batch>): seq<Seen> {
    if batches == [] then [] else
      var rest := batches[..|batches| - 1];
      AllAdded(size, rest) + Added(GrownAll(size, rest), batches[|batches| - 1])
  }

  /** What a node holds depends on the batches alone; its log shows the most recent part of
    * what the batches add. */
  ghost predicate Replicated(n: Node, pages: seq<Page>, batches: seq<Batch>)
    requires FramesOk(n.frames)
  {
    var all := AllAdded(|pages|, batches);
    && Size(n) == GrownAll(|pages|, batches)
    && Content(n) == Overlay(Base(pages), all)
    && |n.frames| <= |all| && View(n.frames) == all[|all| - |n.frames|..]
  }

  /** A database of some pages and a log that was never written or has just been restarted. */
  ghost predicate Fresh(n: Node, pageSize: nat) {
    LegalSize(pageSize) && LogOk(n, pageSize) && n.frames == [] && |n.pages| < U32
  }

  lemma FreshInv(n: Node, pageSize: nat)
    requires Fresh(n, pageSize)
    ensures Inv(n, pageSize) && Replicated(n, n.pages, [])
  {
    assert View(n.frames) == [];
    assert Base(n.pages).Keys == UpTo(|n.pages|);
  }

  lemma StepReplicates(n: Node, pageSize: nat, op: Op, pages: seq<Page>, batches: seq<Batch>)
    requires Inv(n, pageSize) && Enabled(n, pageSize, op) && Replicated(n, pages, batches)
    ensures var n' := Step(n, pageSize, op);
            Inv(n', pageSize) && Replicated(n', pages, if op.ApplyOp? then batches + [op.batch] else batches)
  {
    hide LogOk;
    hide View;
    hide Apply;
    hide Checkpoint;
    hide Added;
    hide Grown;
    hide Overlay;
    hide BatchOk;
    LogHas(n, pageSize);
    match op
    case ApplyOp(batch, salt) =>
      ApplyKeeps(n, pageSize, batch, salt);
      var bs := batches + [batch];
      assert bs[..|bs| - 1] == batches;
      OverlayConcat(Base(pages), AllAdded(|pages|, batches), Added(Size(n), batch));
      SuffixGrows(AllAdded(|pages|, batches), View(n.frames), Added(Size(n), batch));
    case CheckpointOp(salt2) =>
      CheckpointKeeps(n, pageSize, salt2);
      NoView();
  }

  lemma NoView()
    ensures View([]) == []
  {
  }

  lemma SuffixGrows(all: seq<Seen>, v: seq<Seen>, more: seq<Seen>)
    requires |v| <= |all| && v == all[|all| - |v|..]
    ensures v + more == (all + more)[|all + more| - |v + more|..]
  {
  }

  lemma {:induction false} RunReplicates(n: Node, pageSize: nat, ops: seq<Op>)
    requires Fresh(n, pageSize) && Runs(n, pageSize, ops)
    ensures Inv(Run(n, pageSize, ops), pageSize) && Replicated(Run(n, pageSize, ops), n.pages, Batches(ops))
  {
    if ops == [] {
      FreshInv(n, pageSize);
    } else {
      hide Fresh;
      hide Inv;
      hide Enabled;
      hide Step;
      hide Replicated;
      var most, last := ops[..|ops| - 1], ops[|ops| - 1];
      RunReplicates(n, pageSize, most);
      StepReplicates(Run(n, pageSize, most), pageSize, last, n.pages, Batches(most));
      assert Batches(most) + [] == Batches(most);
    }
  }

  /** Two nodes that start from the same pages and apply the same batches hold the same
    * database; their logs show the same page numbers, commit fields and pages, as far back
    * as both reach. */
  lemma ReplicasAgree(a: Node, b: Node, pageSize: nat, opsA: seq<Op>, opsB: seq<Op>)
    requires Fresh(a, pageSize) && Fresh(b, pageSize) && a.pages == b.pages
    requires Runs(a, pageSize, opsA) && Runs(b, pageSize, opsB) && Batches(opsA) == Batches(opsB)
    ensures var a', b' := Run(a, pageSize, opsA), Run(b, pageSize, opsB);
            && FramesOk(a'.frames) && FramesOk(b'.frames) && Size(a') == Size(b') && Content(a') == Content(b')
            && (|a'.frames| <= |b'.frames| ==> View(a'.frames) == View(b'.frames)[|b'.frames| - |a'.frames|..])
  {
    hide Fresh;
    hide LogOk;
    hide View;
    hide Replicated;
    hide Content;
    hide Size;
    RunReplicates(a, pageSize, opsA);
    RunReplicates(b, pageSize, opsB);
    LogHas(Run(a, pageSize, opsA), pageSize);
    LogHas(Run(b, pageSize, opsB), pageSize);
    SameHistory(Run(a, pageSize, opsA), Run(b, pageSize, opsB), a.pages, Batches(opsA));
  }

  lemma SameHistory(a: Node, b: Node, pages: seq<Page>, batches: seq<Batch>)
    requires FramesOk(a.frames) && FramesOk(b.frames) && Replicated(a, pages, batches) && Replicated(b, pages, batches)
    ensures Size(a) == Size(b) && Content(a) == Content(b)
    ensures |a.frames| <= |b.frames| ==> View(a.frames) == View(b.frames)[|b.frames| - |a.frames|..]
  {
    hide View;
    hide AllAdded;
    hide Overlay;
    hide Content;
    hide Size;
    var all := AllAdded(|pages|, batches);
    if |a.frames| <= |b.frames| {
      SuffixOfSuffix(all, |a.frames|, |b.frames|);
    }
  }

  lemma SuffixOfSuffix(all: seq<Seen>, m: nat, n: nat)
    requires m <= n <= |all|
    ensures all[|all| - m..] == all[|all| - n..][n - m..]
  {
  }

  lemma InvChained(n: Node, pageSize: nat)
    requires Inv(n, pageSize) && n.frames != []
    ensures Chained(n.hdr, n.frames, pageSize) && WalPageSize(n.hdr) == pageSize && pageSize % 8 == 0
  {
    hide Chained;
    hide WalPageSize;
    hide Size;
    hide Content;
  }

  /** In every run the log is well formed: its checksums chain from the header on. */
  lemma LogStaysChained(n: Node, pageSize: nat, ops: seq<Op>)
    requires Fresh(n, pageSize) && Runs(n, pageSize, ops)
    ensures var n' := Run(n, pageSize, ops);
            n'.frames != [] ==>
              && Chained(n'.hdr, n'.frames, pageSize) && WalPageSize(n'.hdr) == pageSize
              && Running(n'.hdr, n'.frames) == Check(AllCovered(n'.frames), HeaderSums(n'.hdr))
  {
    hide Fresh;
    hide Replicated;
    hide Inv;
    hide Run;
    hide Runs;
    hide WalPageSize;
    hide Chained;
    hide Check;
    hide Running;
    hide AllCovered;
    RunReplicates(n, pageSize, ops);
    var n' := Run(n, pageSize, ops);
    if n'.frames != [] {
      InvChained(n', pageSize);
      ChecksumCoversAll(n'.hdr, n'.frames, pageSize);
    }
  }

  // Where batches begin and end in the log.

  /** How many frames the batches make. */
  function Count(batches: seq<Batch>): nat {
    if batches == [] then 0 else Count(batches[..|batches| - 1]) + |batches[|batches| - 1]|
  }

  /** How many batches came before the last checkpoint. */
  function Behind(ops: seq<Op>): (k: nat)
    ensures k <= |Batches(ops)|
  {
    if ops == [] then 0
    else if ops[|ops| - 1].CheckpointOp? then |Batches(ops)|
    else Behind(ops[..|ops| - 1])
  }

  /** Frame j of all that were added is the last one of the m-th batch. */
  predicate EndsAt(batches: seq<Batch>, m: nat, j: nat) {
    0 < m <= |batches| && batches[m - 1] != [] && Count(batches[..m]) == j + 1
  }

  /** The commit field of frame j: non-zero exactly where a batch ends, and there the size
    * that the batches so far give the database. */
  ghost predicate CommitRight(commit: nat, size: nat, batches: seq<Batch>, j: nat) {
    && (commit != 0 <==> exists m: nat :: EndsAt(batches, m, j))
    && forall m: nat :: EndsAt(batches, m, j) ==> commit == GrownAll(size, batches[..m])
  }

  predicate PositiveNumbers(batch: Batch) {
    forall i :: 0 <= i < |batch| ==> 0 < batch[i].number < U32
  }

  lemma {:induction false} CountMonotone(batches: seq<Batch>, m: nat)
    requires m <= |batches|
    ensures Count(batches[..m]) <= Count(batches)
  {
    if m < |batches| {
      var most := batches[..|batches| - 1];
      CountMonotone(most, m);
      assert most[..m] == batches[..m];
    } else {
      assert batches[..m] == batches;
    }
  }

  lemma {:induction false} AllAddedCount(size: nat, batches: seq<Batch>)
    ensures |AllAdded(size, batches)| == Count(batches)
  {
    hide Added;
    if batches != [] {
      AllAddedCount(size, batches[..|batches| - 1]);
    }
  }

  lemma EndsAtLast(batches: seq<Batch>, m: nat, j: nat)
    requires batches != []
    ensures var n := |batches| - 1;
            EndsAt(batches, m, j) <==>
              if m <= n then EndsAt(batches[..n], m, j) && j < Count(batches[..n])
              else m == n + 1 && batches[n] != [] && j == Count(batches[..n]) + |batches[n]| - 1
  {
    var n := |batches| - 1;
    if m <= n {
      assert batches[..n][..m] == batches[..m];
      CountMonotone(batches[..n], m);
    } else if m == n + 1 {
      assert batches[..m] == batches;
    }
  }

  lemma CommitBefore(commit: nat, size: nat, batches: seq<Batch>, j: nat)
    requires batches != [] && j < Count(batches[..|batches| - 1])
    requires CommitRight(commit, size, batches[..|batches| - 1], j)
    ensures CommitRight(commit, size, batches, j)
  {
    hide EndsAt;
    hide Count;
    hide GrownAll;
    var n := |batches| - 1;
    forall m: nat ensures (EndsAt(batches[..n], m, j) <==> EndsAt(batches, m, j)) && (EndsAt(batches, m, j) ==> m <= n) {
      EndsAtLast(batches, m, j);
      EndsInside(batches[..n], m, j);
    }
    forall m: nat | m <= n && EndsAt(batches, m, j) ensures commit == GrownAll(size, batches[..m]) {
      assert batches[..n][..m] == batches[..m];
    }
  }

  lemma EndsInside(batches: seq<Batch>, m: nat, j: nat)
    ensures EndsAt(batches, m, j) ==> m <= |batches|
  {
  }

  lemma CommitAfter(commit: nat, size: nat, batches: seq<Batch>, j: nat)
    requires batches != []
    requires var n := |batches| - 1;
             && Count(batches[..n]) <= j < Count(batches[..n]) + |batches[n]|
             && commit == if j == Count(batches[..n]) + |batches[n]| - 1 then GrownAll(size, batches) else 0
    requires GrownAll(size, batches) > 0
    ensures CommitRight(commit, size, batches, j)
  {
    hide EndsAt;
    hide Count;
    hide GrownAll;
    var n := |batches| - 1;
    forall m: nat ensures EndsAt(batches, m, j) <==> m == n + 1 && j == Count(batches[..n]) + |batches[n]| - 1 {
      EndsAtLast(batches, m, j);
    }
    assert batches[..n + 1] == batches;
    assert commit != 0 ==> EndsAt(batches, n + 1, j);
  }

  lemma {:induction false} AllAddedCommits(size: nat, batches: seq<Batch>, j: nat)
    requires forall i :: 0 <= i < |batches| ==> PositiveNumbers(batches[i])
    requires j < |AllAdded(size, batches)|
    ensures CommitRight(AllAdded(size, batches)[j].commit, size, batches, j)
  {
    hide Added;
    hide Grown;
    hide CommitRight;
    hide PositiveNumbers;
    hide Count;
    var n := |batches| - 1;
    var most, batch := batches[..n], batches[n];
    AllAddedCount(size, most);
    if j < Count(most) {
      AllAddedCommits(size, most, j);
      CommitBefore(AllAdded(size, most)[j].commit, size, batches, j);
    } else {
      LastCommit(GrownAll(size, most), batch, j - Count(most));
      CommitAfter(AllAdded(size, batches)[j].commit, size, batches, j);
    }
  }

  lemma LastCommit(size: nat, batch: Batch, i: nat)
    requires PositiveNumbers(batch) && i < |batch|
    ensures Added(size, batch)[i].commit == if i == |batch| - 1 then Grown(size, batch) else 0
    ensures Grown(size, batch) > 0
  {
    CommitMarks(size, batch, |batch| - 1);
    assert batch[0].number % U32 > 0;
  }

  /** The size after some batches: the base size or the largest page number of them all. */
  lemma {:induction false} GrownAllIsMax(size: nat, batches: seq<Batch>)
    requires forall i :: 0 <= i < |batches| ==> PositiveNumbers(batches[i])
    ensures GrownAll(size, batches) >= size
    ensures forall i, k :: 0 <= i < |batches| && 0 <= k < |batches[i]| ==> batches[i][k].number <= GrownAll(size, batches)
    ensures GrownAll(size, batches) == size ||
            exists i, k :: 0 <= i < |batches| && 0 <= k < |batches[i]| && batches[i][k].number == GrownAll(size, batches)
  {
    hide Grown;
    if batches != [] {
      var n := |batches| - 1;
      var most, batch := batches[..n], batches[n];
      GrownAllIsMax(size, most);
      GrownIsMax(GrownAll(size, most), batch);
      GrownAtLeast(GrownAll(size, most), batch);
      var g := GrownAll(size, batches);
      if g == GrownAll(size, most) && g != size {
        var i, k :| 0 <= i < |most| && 0 <= k < |most[i]| && most[i][k].number == g;
        assert batches[i][k].number == g;
      } else if g != GrownAll(size, most) {
        var k :| 0 <= k < |batch| && batch[k].number % U32 == g;
        assert batches[n][k].number == g;
      }
    }
  }

  lemma {:induction false} GrownAtLeast(size: nat, batch: Batch)
    ensures Grown(size, batch) >= size
  {
    if batch != [] {
      GrownAtLeast(size, batch[..|batch| - 1]);
    }
  }

  lemma {:induction false} RunNumbers(n: Node, pageSize: nat, ops: seq<Op>)
    requires Runs(n, pageSize, ops)
    ensures forall i :: 0 <= i < |Batches(ops)| ==> PositiveNumbers(Batches(ops)[i])
  {
    hide Step;
    if ops != [] {
      RunNumbers(n, pageSize, ops[..|ops| - 1]);
    }
  }

  /** The log holds the frames of whole batches: of those since the last checkpoint. */
  lemma {:induction false} LogHoldsBatches(n: Node, pageSize: nat, ops: seq<Op>)
    requires Fresh(n, pageSize) && Runs(n, pageSize, ops)
    ensures |Run(n, pageSize, ops).frames| == Count(Batches(ops)) - Count(Batches(ops)[..Behind(ops)])
  {
    hide Fresh;
    hide Inv;
    hide Replicated;
    hide BatchOk;
    hide Content;
    if ops == [] {
      assert Fresh(n, pageSize) ==> n.frames == [] by {
        FreshEmpty(n, pageSize);
      }
    } else {
      var most, last := ops[..|ops| - 1], ops[|ops| - 1];
      RunReplicates(n, pageSize, most);
      LogHoldsBatches(n, pageSize, most);
      StepFrames(Run(n, pageSize, most), pageSize, last);
      var bs, k := Batches(ops), Behind(ops);
      if last.ApplyOp? {
        assert bs[..|bs| - 1] == Batches(most) && bs[..k] == Batches(most)[..k];
      } else {
        assert bs[..k] == bs;
      }
    }
  }

  lemma FreshEmpty(n: Node, pageSize: nat)
    requires Fresh(n, pageSize)
    ensures n.frames == []
  {
  }

  lemma StepFrames(n: Node, pageSize: nat, op: Op)
    requires Inv(n, pageSize) && Enabled(n, pageSize, op)
    ensures |Step(n, pageSize, op).frames| == if op.ApplyOp? then |n.frames| + |op.batch| else 0
  {
    hide Added;
    hide Content;
    hide Filled;
    match op
    case ApplyOp(batch, salt) => ApplyKeeps(n, pageSize, batch, salt);
    case CheckpointOp(salt2) =>
  }

  /** The log of every run begins with a whole batch, and its commit fields are non-zero
    * exactly on the last frame of each batch, where they give the size so far. */
  lemma CommitsEndBatches(n: Node, pageSize: nat, ops: seq<Op>)
    requires Fresh(n, pageSize) && Runs(n, pageSize, ops)
    ensures var v := ViewOf(Run(n, pageSize, ops));
            var batches := Batches(ops);
            var first := Count(batches[..Behind(ops)]);
            && |v| == Count(batches) - first
            && forall j :: 0 <= j < |v| ==> CommitRight(v[j].commit, |n.pages|, batches, first + j)
  {
    hide Fresh;
    hide Run;
    hide Runs;
    hide AllAdded;
    hide CommitRight;
    hide PositiveNumbers;
    hide ViewOf;
    RunView(n, pageSize, ops);
    RunNumbers(n, pageSize, ops);
    SuffixCommits(|n.pages|, Batches(ops), Count(Batches(ops)[..Behind(ops)]));
  }

  lemma SuffixCommits(size: nat, batches: seq<Batch>, first: nat)
    requires forall i :: 0 <= i < |batches| ==> PositiveNumbers(batches[i])
    requires first <= |AllAdded(size, batches)|
    ensures var v := AllAdded(size, batches)[first..];
            |v| == Count(batches) - first && forall j :: 0 <= j < |v| ==> CommitRight(v[j].commit, size, batches, first + j)
  {
    hide AllAdded;
    hide CommitRight;
    hide PositiveNumbers;
    AllAddedCount(size, batches);
    var v := AllAdded(size, batches)[first..];
    forall j | 0 <= j < |v| ensures CommitRight(v[j].commit, size, batches, first + j) {
      AllAddedCommits(size, batches, first + j);
    }
  }

  lemma RunView(n: Node, pageSize: nat, ops: seq<Op>)
    requires Fresh(n, pageSize) && Runs(n, pageSize, ops)
    ensures var all, first := AllAdded(|n.pages|, Batches(ops)), Count(Batches(ops)[..Behind(ops)]);
            first <= |all| && ViewOf(Run(n, pageSize, ops)) == all[first..]
  {
    hide Fresh;
    hide Runs;
    hide Run;
    hide LogOk;
    hide Content;
    hide Size;
    hide AllAdded;
    hide Overlay;
    hide View;
    RunReplicates(n, pageSize, ops);
    LogHoldsBatches(n, pageSize, ops);
    LogHas(Run(n, pageSize, ops), pageSize);
    AllAddedCount(|n.pages|, Batches(ops));
  }

  function ViewOf(n: Node): seq<Seen> {
    if FramesOk(n.frames) then View(n.frames) else []
  }
}
