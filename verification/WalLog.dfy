/** Appending batches of pages to the write-ahead log, and what the log then is: every frame
  * checksum goes over all frames before it, and only the last frame of a batch has a commit
  * field, the size of the database after the batch. */
module WalLog {
  import opened Bytes
  import opened Wal

  type Batch = seq<PageWrite>

  /** What a reader of the log sees of a frame, apart from salts and checksums. */
  datatype Seen = Seen(number: nat, commit: nat, page: Page)

  function Look(f: Frame): Seen
    requires |f.header| == FRAME_HEADER_SIZE
  {
    Seen(Number(f), Commit(f), f.page)
  }

  predicate FramesOk(frames: seq<Frame>) {
    forall i :: 0 <= i < |frames| ==> |frames[i].header| == FRAME_HEADER_SIZE
  }

  function View(frames: seq<Frame>): (v: seq<Seen>)
    requires FramesOk(frames)
    ensures |v| == |frames|
  {
    seq(|frames|, i requires 0 <= i < |frames| => Look(frames[i]))
  }

  // What appending does.

  function Running(hdr: seq<byte>, frames: seq<Frame>): Sums
    requires |hdr| == HEADER_SIZE && FramesOk(frames)
  {
    if frames == [] then HeaderSums(hdr) else FrameSums(frames[|frames| - 1])
  }

  /** The size of the database as the log has it. */
  function SizeOf(nPages: nat, frames: seq<Frame>): nat
    requires FramesOk(frames)
  {
    if frames == [] then nPages else Commit(frames[|frames| - 1])
  }

  /** The larger of a size and the page numbers of a batch, as 32-bit numbers. */
  function Grown(size: nat, batch: Batch): (n: nat)
    ensures n >= size
    ensures size < U32 ==> n < U32
  {
    if batch == [] then size else
      var n := Grown(size, batch[..|batch| - 1]);
      var p := batch[|batch| - 1].number % U32;
      if p > n then p else n
  }

  /** The log after the first i pages of a batch. */
  function Filled(hdr: seq<byte>, frames: seq<Frame>, size: nat, batch: Batch, i: nat): (fs: seq<Frame>)
    requires |hdr| == HEADER_SIZE && FramesOk(frames) && i <= |batch|
    ensures FramesOk(fs) && |fs| == |frames| + i
  {
    if i == 0 then frames else
      var fs := Filled(hdr, frames, size, batch, i - 1);
      fs + [NextFrame(hdr, fs, size, batch, i - 1)]
  }

  /** The frame for the i-th page of a batch. */
  function NextFrame(hdr: seq<byte>, fs: seq<Frame>, size: nat, batch: Batch, i: nat): (f: Frame)
    requires |hdr| == HEADER_SIZE && FramesOk(fs) && i < |batch|
    ensures |f.header| == FRAME_HEADER_SIZE
  {
    MakeFrame(batch[i].number % U32, if i == |batch| - 1 then Grown(size, batch) else 0, Salt(hdr), Running(hdr, fs), batch[i].page)
  }

  lemma NextFrameFields(hdr: seq<byte>, fs: seq<Frame>, size: nat, batch: Batch, i: nat)
    requires |hdr| == HEADER_SIZE && FramesOk(fs) && i < |batch| && size < U32 && |batch[i].page| % 8 == 0
    ensures var f := NextFrame(hdr, fs, size, batch, i);
            && Look(f) == Added(size, batch)[i] && f.header[8..16] == Salt(hdr) && f.page == batch[i].page
            && FrameSums(f) == Check(Covered(Number(f), Commit(f), f.page), Running(hdr, fs))
  {
    hide Running;
    hide FrameSums;
    hide Check;
    hide MakeFrame;
    RunningBounded(hdr, fs);
    FrameFields(batch[i].number % U32, if i == |batch| - 1 then Grown(size, batch) else 0, Salt(hdr), Running(hdr, fs), batch[i].page);
  }

  // What appending means.

  /** The checksum of a frame goes on from the one before it. */
  ghost predicate LinkOk(hdr: seq<byte>, frames: seq<Frame>, i: nat)
    requires |hdr| == HEADER_SIZE && FramesOk(frames) && i < |frames|
  {
    var f := frames[i];
    && FrameSums(f) == Check(Covered(Number(f), Commit(f), f.page), Running(hdr, frames[..i]))
    && f.header[8..16] == Salt(hdr)
  }

  ghost predicate Chained(hdr: seq<byte>, frames: seq<Frame>, pageSize: nat) {
    && HeaderOk(hdr) && FramesOk(frames)
    && (forall i {:trigger frames[i]} :: 0 <= i < |frames| ==> FrameOk(frames[i], pageSize))
    && (forall i: nat {:trigger LinkOk(hdr, frames, i)} :: i < |frames| ==> LinkOk(hdr, frames, i))
  }

  /** Everything the checksum of the last frame goes over. */
  function AllCovered(frames: seq<Frame>): seq<byte>
    requires FramesOk(frames)
  {
    if frames == [] then [] else
      var f := frames[|frames| - 1];
      AllCovered(frames[..|frames| - 1]) + Covered(Number(f), Commit(f), f.page)
  }

  /** The checksum of every frame is the one of all frames up to it, from the header's on. */
  lemma {:induction false} ChecksumCoversAll(hdr: seq<byte>, frames: seq<Frame>, pageSize: nat)
    requires Chained(hdr, frames, pageSize) && pageSize % 8 == 0
    ensures Running(hdr, frames) == Check(AllCovered(frames), HeaderSums(hdr))
  {
    hide Check;
    hide FrameSums;
    hide HeaderSums;
    hide Chained;
    hide Number;
    hide Commit;
    ChainedHeader(hdr, frames, pageSize);
    CheckNone(HeaderSums(hdr));
    if frames != [] {
      var n: nat := |frames| - 1;
      var f := frames[n];
      ChainedPrefix(hdr, frames, pageSize, n);
      ChecksumCoversAll(hdr, frames[..n], pageSize);
      LastLink(hdr, frames, pageSize);
      CheckConcat(AllCovered(frames[..n]), Covered(Number(f), Commit(f), f.page), HeaderSums(hdr));
    }
  }

  lemma LastLink(hdr: seq<byte>, frames: seq<Frame>, pageSize: nat)
    requires Chained(hdr, frames, pageSize) && frames != []
    ensures LinkOk(hdr, frames, |frames| - 1) && |frames[|frames| - 1].page| == pageSize
  {
    var n: nat := |frames| - 1;
    assert LinkOk(hdr, frames, n) && FrameOk(frames[n], pageSize);
  }

  lemma ChainedPrefix(hdr: seq<byte>, frames: seq<Frame>, pageSize: nat, n: nat)
    requires Chained(hdr, frames, pageSize) && n <= |frames|
    ensures Chained(hdr, frames[..n], pageSize)
  {
    hide FrameOk;
    forall i: nat | i < n ensures LinkOk(hdr, frames[..n], i) {
      assert LinkOk(hdr, frames, i);
      assert frames[..n][..i] == frames[..i];
    }
  }

  lemma ChainedSnoc(hdr: seq<byte>, frames: seq<Frame>, pageSize: nat, f: Frame)
    requires Chained(hdr, frames, pageSize) && FrameOk(f, pageSize)
    requires FrameSums(f) == Check(Covered(Number(f), Commit(f), f.page), Running(hdr, frames)) && f.header[8..16] == Salt(hdr)
    ensures Chained(hdr, frames + [f], pageSize)
  {
    var fs := frames + [f];
    forall i: nat | i < |fs| ensures LinkOk(hdr, fs, i) {
      if i < |frames| {
        assert LinkOk(hdr, frames, i);
        assert fs[..i] == frames[..i];
      } else {
        assert fs[..i] == frames;
      }
    }
  }

  lemma RunningBounded(hdr: seq<byte>, frames: seq<Frame>)
    requires |hdr| == HEADER_SIZE && FramesOk(frames)
    ensures Running(hdr, frames).s1 < U32 && Running(hdr, frames).s2 < U32
  {
    Widths();
    if frames == [] {
      FromBeBound(hdr[24..28]);
      FromBeBound(hdr[28..32]);
    } else {
      var h := frames[|frames| - 1].header;
      FromBeBound(h[16..20]);
      FromBeBound(h[20..24]);
    }
  }

  predicate PagesOk(batch: Batch, pageSize: nat) {
    forall i :: 0 <= i < |batch| ==> |batch[i].page| == pageSize
  }

  /** Appending keeps the chain of checksums. */
  lemma {:induction false} FilledChained(hdr: seq<byte>, frames: seq<Frame>, size: nat, batch: Batch, i: nat, pageSize: nat)
    requires Chained(hdr, frames, pageSize) && PagesOk(batch, pageSize) && pageSize % 8 == 0 && size < U32 && i <= |batch|
    ensures Chained(hdr, Filled(hdr, frames, size, batch, i), pageSize)
  {
    hide Chained;
    hide NextFrame;
    hide Running;
    hide Check;
    hide FrameSums;
    hide Look;
    hide Added;
    ChainedHeader(hdr, frames, pageSize);
    if i > 0 {
      var fs := Filled(hdr, frames, size, batch, i - 1);
      FilledChained(hdr, frames, size, batch, i - 1, pageSize);
      NextFrameFields(hdr, fs, size, batch, i - 1);
      ChainedSnoc(hdr, fs, pageSize, NextFrame(hdr, fs, size, batch, i - 1));
    }
  }

  lemma ChainedHeader(hdr: seq<byte>, frames: seq<Frame>, pageSize: nat)
    requires Chained(hdr, frames, pageSize)
    ensures |hdr| == HEADER_SIZE && FramesOk(frames)
  {
  }

  /** What a batch adds to the view: a commit field on its last frame only. */
  function Added(size: nat, batch: Batch): (v: seq<Seen>)
    ensures |v| == |batch|
  {
    seq(|batch|, i requires 0 <= i < |batch| =>
      Seen(batch[i].number % U32, if i == |batch| - 1 then Grown(size, batch) else 0, batch[i].page))
  }

  lemma {:induction false} FilledView(hdr: seq<byte>, frames: seq<Frame>, size: nat, batch: Batch, i: nat)
    requires |hdr| == HEADER_SIZE && FramesOk(frames) && size < U32 && i <= |batch|
    requires forall k :: 0 <= k < |batch| ==> |batch[k].page| % 8 == 0
    ensures View(Filled(hdr, frames, size, batch, i)) == View(frames) + Added(size, batch)[..i]
  {
    hide NextFrame;
    hide View;
    hide Check;
    hide Look;
    hide Running;
    hide FrameSums;
    hide Added;
    if i > 0 {
      var fs := Filled(hdr, frames, size, batch, i - 1);
      FilledView(hdr, frames, size, batch, i - 1);
      NextFrameFields(hdr, fs, size, batch, i - 1);
      ViewSnoc(fs, NextFrame(hdr, fs, size, batch, i - 1));
      assert Added(size, batch)[..i] == Added(size, batch)[..i - 1] + [Added(size, batch)[i - 1]];
    }
  }

  lemma ViewSnoc(fs: seq<Frame>, f: Frame)
    requires FramesOk(fs) && |f.header| == FRAME_HEADER_SIZE
    ensures FramesOk(fs + [f]) && View(fs + [f]) == View(fs) + [Look(f)]
  {
  }

  /** The size field of the last frame is the size the batch grew the database to. */
  lemma FilledSize(hdr: seq<byte>, frames: seq<Frame>, nPages: nat, batch: Batch)
    requires |hdr| == HEADER_SIZE && FramesOk(frames) && SizeOf(nPages, frames) < U32
    requires forall k :: 0 <= k < |batch| ==> |batch[k].page| % 8 == 0
    ensures var size := SizeOf(nPages, frames);
            SizeOf(nPages, Filled(hdr, frames, size, batch, |batch|)) == Grown(size, batch)
  {
    var size := SizeOf(nPages, frames);
    var fs := Filled(hdr, frames, size, batch, |batch|);
    FilledView(hdr, frames, size, batch, |batch|);
    if batch != [] {
      assert View(fs)[|fs| - 1] == Added(size, batch)[|batch| - 1];
    }
  }

  /** A commit field is non-zero exactly on the last frame of a batch, unless the database
    * was empty and the batch has no page number. */
  lemma CommitMarks(size: nat, batch: Batch, i: nat)
    requires i < |batch|
    ensures Added(size, batch)[i].commit != 0 <==> i == |batch| - 1 && (size > 0 || exists k :: 0 <= k < |batch| && batch[k].number % U32 > 0)
    ensures Added(size, batch)[i].commit != 0 ==>
              && Added(size, batch)[i].commit >= size
              && (forall k :: 0 <= k < |batch| ==> batch[k].number % U32 <= Added(size, batch)[i].commit)
              && (Added(size, batch)[i].commit == size || exists k :: 0 <= k < |batch| && batch[k].number % U32 == Added(size, batch)[i].commit)
  {
    GrownIsMax(size, batch);
  }

  lemma {:induction false} GrownIsMax(size: nat, batch: Batch)
    ensures forall k :: 0 <= k < |batch| ==> batch[k].number % U32 <= Grown(size, batch)
    ensures Grown(size, batch) == size || exists k :: 0 <= k < |batch| && batch[k].number % U32 == Grown(size, batch)
  {
    if batch != [] {
      var n := |batch| - 1;
      GrownIsMax(size, batch[..n]);
      forall k | 0 <= k < |batch| ensures batch[k].number % U32 <= Grown(size, batch) {
        if k < n {
          assert batch[..n][k] == batch[k];
        }
      }
      var m := Grown(size, batch[..n]);
      if m != size {
        var k :| 0 <= k < n && batch[..n][k].number % U32 == m;
        assert batch[k].number % U32 == m;
      }
      assert batch[n].number % U32 == Grown(size, batch) || m == Grown(size, batch);
    }
  }
}
