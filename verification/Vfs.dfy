/** A database of the in-memory file system (src/vfs.c): its pages, its write-ahead log and
  * the frames of the transaction that SQLite is writing. */
module Vfs {
  import opened Bytes
  import opened Wal
  import opened WalLog
  import Replica
  import Command
  import Serialize

  datatype Result = Ok | IoError | Protocol

  /** What polling a finished transaction returns. */
  function Polled(tx: seq<Frame>): (list: seq<PageWrite>)
    requires FramesOk(tx)
    ensures |list| == |tx|
  {
    seq(|tx|, i requires 0 <= i < |tx| => PageWrite(Number(tx[i]), tx[i].page))
  }

  class Database {
    const pageSize: nat
    var pages: seq<Page>
    var hdr: seq<byte>
    var frames: seq<Frame>
    var tx: seq<Frame>

    ghost function Node(): Replica.Node
      reads this
    {
      Replica.Node(pages, hdr, frames)
    }

    ghost predicate Valid()
      reads this
    {
      Replica.Inv(Node(), pageSize) && FramesOk(tx)
    }

    /** A database of some pages, the first of which tells the page size, and whose log was
      * never written. */
    constructor (pageSize: nat, pages: seq<Page>)
      requires Replica.LegalSize(pageSize) && |pages| < U32 && Replica.FirstTells(pages, pageSize)
      ensures Valid() && this.pageSize == pageSize && this.pages == pages && frames == [] && tx == []
      ensures Replica.Fresh(Node(), pageSize)
    {
      this.pageSize, this.pages := pageSize, pages;
      hdr, frames, tx := Zeros(HEADER_SIZE), [], [];
      new;
      hide Zeros;
      NewFresh(pageSize, pages);
      hide Replica.Fresh;
      hide Replica.FirstTells;
      Replica.FreshInv(Node(), pageSize);
      hide Replica.Inv;
    }

    /** The i-th page of a batch. */
    method PageAt(numbers: seq<nat>, data: seq<byte>, i: nat) returns (number: nat, page: Page)
      requires |data| == |numbers| * pageSize && i < |numbers|
      ensures PageWrite(number, page) == Command.Applied(numbers, data, pageSize)[i] && |page| == pageSize
    {
      Command.AppliedAt(numbers, data, pageSize, i);
      number, page := numbers[i], data[i * pageSize..i * pageSize + pageSize];
    }

    /** Add a frame, given the running checksum. */
    method AddFrame(number: nat, commit: nat, c: Sums, page: Page) returns (c': Sums)
      requires |hdr| == HEADER_SIZE && FramesOk(frames) && c == Running(hdr, frames)
      requires Replica.LegalSize(pageSize) && |page| == pageSize
      modifies this`frames
      ensures frames == old(frames) + [MakeFrame(number, commit, Salt(hdr), c, page)]
      ensures FramesOk(frames) && c' == Running(hdr, frames)
    {
      hide Check;
      hide Be;
      hide FromBe;
      hide MakeFrame;
      RunningBounded(hdr, frames);
      SumsStored(number, commit, Salt(hdr), c, page);
      var f;
      f, c' := FrameFill(number, commit, Salt(hdr), c, page);
      frames := frames + [f];
    }

    /** Append the given pages as new frames. */
    method WalAppend(nPages: nat, numbers: seq<nat>, data: seq<byte>)
      requires |hdr| == HEADER_SIZE && FramesOk(frames) && tx == [] && SizeOf(nPages, frames) < U32
      requires WalPageSize(hdr) == pageSize && Replica.LegalSize(pageSize) && |data| == |numbers| * pageSize
      modifies this`frames
      ensures frames == Filled(hdr, old(frames), SizeOf(nPages, old(frames)), Command.Applied(numbers, data, pageSize), |numbers|)
    {
      hide MakeFrame;
      hide Command.Applied;
      hide Filled;
      hide FrameSums;
      hide HeaderSums;
      hide Grown;
      hide Salt;
      ghost var batch := Command.Applied(numbers, data, pageSize);
      ghost var start := SizeOf(nPages, frames);
      var size, c;
      if frames == [] {
        size, c := nPages, HeaderSums(hdr);
      } else {
        var last := frames[|frames| - 1];
        size, c := Commit(last), FrameSums(last);
      }
      FilledNone(hdr, frames, start, batch);
      assert batch[..0] == [];
      for i := 0 to |numbers|
        invariant FramesOk(frames) && frames == Filled(hdr, old(frames), start, batch, i)
        invariant c == Running(hdr, frames) && size == Grown(start, batch[..i])
      {
        var number, page := PageAt(numbers, data, i);
        number := number % U32;
        GrownNext(start, batch, i);
        if number > size {
          size := number;
        }
        var commit := 0;
        if i == |numbers| - 1 {
          commit := size;
          assert batch[..i + 1] == batch;
        }
        FilledNext(hdr, old(frames), start, batch, i + 1);
        c := AddFrame(number, commit, c, page);
      }
    }

    /** Apply a batch that was replicated, starting the log when it was never written. */
    method Apply(numbers: seq<nat>, data: seq<byte>, salt: seq<byte>)
      requires Valid() && tx == [] && |data| == |numbers| * pageSize && |salt| == 8
      modifies this`hdr, this`frames
      ensures |old(hdr)| == HEADER_SIZE && FramesOk(old(frames))
      ensures Node() == Replica.Apply(old(Node()), pageSize, Command.Applied(numbers, data, pageSize), salt)
    {
      hide Command.Applied;
      hide Filled;
      hide StartHeader;
      StartHeaderOk(pageSize, salt);
      if WalPageSize(hdr) == 0 {
        hdr := StartHeader(Replica.PageSizeField(pages[0]), salt);
      }
      WalAppend(|pages|, numbers, data);
    }

    /** Take the frames of a transaction that is complete. */
    method Poll() returns (list: seq<PageWrite>)
      requires FramesOk(tx)
      modifies this`tx
      ensures var done := old(tx) != [] && Commit(old(tx)[|old(tx)| - 1]) != 0;
              list == (if done then Polled(old(tx)) else []) && tx == if done then [] else old(tx)
    {
      list := [];
      if tx == [] {
        return;
      }
      var commit := Commit(tx[|tx| - 1]);
      if commit == 0 {
        return;
      }
      for i := 0 to |tx|
        invariant list == Polled(tx)[..i]
      {
        list := list + [PageWrite(Number(tx[i]), tx[i].page)];
      }
      tx := [];
    }

    /** Restart the log after a checkpoint. */
    method WalTruncate(size: nat, salt2: seq<byte>) returns (r: Result)
      requires |hdr| == HEADER_SIZE && |salt2| == 4
      modifies this`hdr, this`frames
      ensures r == if size != 0 then Protocol else Ok
      ensures hdr == (if size == 0 && old(frames) != [] then RestartHeader(old(hdr), salt2) else old(hdr))
      ensures frames == if size == 0 then [] else old(frames)
    {
      if size != 0 {
        return Protocol;
      }
      if frames == [] {
        return Ok;
      }
      hdr := RestartHeader(hdr, salt2);
      frames := [];
      return Ok;
    }

    /** Write a page of the database: an existing one, or the next one. */
    method WritePage(number: nat, page: Page) returns (r: Result)
      requires number > 0
      modifies this`pages
      ensures r == if number > |old(pages)| + 1 then IoError else Ok
      ensures number > |old(pages)| + 1 ==> pages == old(pages)
      ensures number == |old(pages)| + 1 ==> pages == old(pages) + [page]
      ensures number <= |old(pages)| ==> pages == old(pages)[number - 1 := page]
    {
      if number > |pages| + 1 {
        return IoError;
      }
      if number <= |pages| {
        pages := pages[number - 1 := page];
      } else {
        pages := pages + [page];
      }
      return Ok;
    }

    /** The newest frame of a page, or the number of frames. */
    method Newest(number: nat) returns (i: nat)
      requires FramesOk(frames)
      ensures i <= |frames| && (i < |frames| ==> Number(frames[i]) == number)
      ensures i < |frames| ==> forall k :: i < k < |frames| ==> Number(frames[k]) != number
      ensures i == |frames| ==> forall k :: 0 <= k < |frames| ==> Number(frames[k]) != number
    {
      i := |frames|;
      while i > 0
        invariant i <= |frames| && forall k :: i <= k < |frames| ==> Number(frames[k]) != number
      {
        i := i - 1;
        if Number(frames[i]) == number {
          return;
        }
      }
      i := |frames|;
    }

    /** A checkpoint: SQLite writes the newest frame of every page to the database, in the
      * order of the pages, and truncates the log. No page is refused. */
    method Checkpoint(salt2: seq<byte>)
      requires Valid() && |salt2| == 4
      modifies this`pages, this`hdr, this`frames
      ensures Valid() && Node() == Replica.Checkpoint(old(Node()), salt2)
    {
      hide Replica.LogOk;
      hide Replica.Overlay;
      hide Replica.Base;
      hide View;
      hide RestartHeader;
      ghost var n := Node();
      Replica.LogHas(n, pageSize);
      Replica.CheckpointKeeps(n, pageSize, salt2);
      if frames != [] {
        CopyPages(Commit(frames[|frames| - 1]));
        assert pages == Replica.Checkpoint(n, salt2).pages;
      }
      var r := WalTruncate(0, salt2);
    }

    method CopyPages(size: nat)
      requires FramesOk(frames) && Replica.Content(Node()).Keys == Replica.UpTo(size)
      modifies this`pages
      ensures |pages| == size
      ensures forall k :: 0 <= k < size ==> k + 1 in Replica.Content(old(Node())) && pages[k] == Replica.Content(old(Node()))[k + 1]
    {
      hide Replica.Content;
      ghost var n := Node();
      ContentCovers(n, size);
      for p := 0 to size
        invariant |pages| == if p <= |old(pages)| then |old(pages)| else p
        invariant forall k :: 0 <= k < p ==> k + 1 in Replica.Content(n) && pages[k] == Replica.Content(n)[k + 1]
        invariant forall k :: p <= k < |pages| ==> pages[k] == n.pages[k]
      {
        assert p + 1 in Replica.Content(n);
        var i := Newest(p + 1);
        ContentIs(n, p + 1, i);
        if i < |frames| {
          var r := WritePage(p + 1, frames[i].page);
        }
      }
    }
  }

  /** The content of a page is its newest frame, or else the page in the database. */
  lemma ContentIs(n: Replica.Node, number: nat, i: nat)
    requires FramesOk(n.frames) && number in Replica.Content(n) && i <= |n.frames|
    requires forall k :: 0 <= k < |n.frames| && (i < k || i == |n.frames|) ==> Number(n.frames[k]) != number
    requires i < |n.frames| ==> Number(n.frames[i]) == number
    ensures i < |n.frames| ==> Replica.Content(n)[number] == n.frames[i].page
    ensures i == |n.frames| ==> 1 <= number <= |n.pages| && Replica.Content(n)[number] == n.pages[number - 1]
  {
    var v := View(n.frames);
    if i < |v| {
      OverlayNewest(Replica.Base(n.pages), v, number, i);
    } else {
      OverlayMissing(Replica.Base(n.pages), v, number);
    }
  }

  lemma {:induction false} OverlayNewest(m: map<nat, Page>, v: seq<Seen>, number: nat, i: nat)
    requires i < |v| && v[i].number == number && forall k :: i < k < |v| ==> v[k].number != number
    ensures number in Replica.Overlay(m, v) && Replica.Overlay(m, v)[number] == v[i].page
  {
    var n := |v| - 1;
    if i < n {
      OverlayNewest(m, v[..n], number, i);
    }
  }

  lemma {:induction false} OverlayMissing(m: map<nat, Page>, v: seq<Seen>, number: nat)
    requires forall k :: 0 <= k < |v| ==> v[k].number != number
    requires number in Replica.Overlay(m, v)
    ensures number in m && Replica.Overlay(m, v)[number] == m[number]
  {
    if v != [] {
      OverlayMissing(m, v[..|v| - 1], number);
    }
  }

  lemma ContentCovers(n: Replica.Node, size: nat)
    requires FramesOk(n.frames) && Replica.Content(n).Keys == Replica.UpTo(size)
    ensures |n.pages| <= size
  {
    if n.pages != [] {
      Replica.OverlayKey(Replica.Base(n.pages), View(n.frames), |n.pages|);
    }
  }

  lemma PolledFits(tx: seq<Frame>, pageSize: nat)
    requires FramesOk(tx) && forall i :: 0 <= i < |tx| ==> |tx[i].page| == pageSize
    ensures |Polled(tx)| == |tx|
    ensures forall i :: 0 <= i < |tx| ==> Polled(tx)[i].number < U64 && |Polled(tx)[i].page| == pageSize
  {
    forall i | 0 <= i < |tx| ensures Polled(tx)[i].number < U64 && |Polled(tx)[i].page| == pageSize {
      FromBeBound(tx[i].header[0..4]);
      Widths();
    }
  }

  lemma PagesAdded(n: Replica.Node, pageSize: nat, batch: Batch, salt: seq<byte>)
    requires Replica.Inv(n, pageSize) && |salt| == 8 && PagesOk(batch, pageSize)
    ensures |n.hdr| == HEADER_SIZE && FramesOk(n.frames) && pageSize < U16
    ensures View(Replica.Apply(n, pageSize, batch, salt).frames) == View(n.frames) + Added(Replica.Size(n), batch)
  {
    hide Replica.Apply;
    hide View;
    hide Added;
    Replica.LogHas(n, pageSize);
    Replica.ApplyView(n, pageSize, batch, salt);
  }

  /** A transaction that SQLite finished on the leader, polled, encoded as a command, decoded
    * and applied by any node, adds exactly the pages of the transaction to the node's log. */
  lemma TransactionReplicated(tx: seq<Frame>, filename: seq<byte>, txId: nat, n: Replica.Node, pageSize: nat, salt: seq<byte>)
    requires FramesOk(tx) && |tx| < U32 && forall i :: 0 <= i < |tx| ==> |tx[i].page| == pageSize
    requires Serialize.IsText(filename) && txId < U64
    requires Replica.Inv(n, pageSize) && |salt| == 8
    ensures var list := Polled(tx);
            var sent := Command.Frames(filename, txId, 0, 1, |list|, pageSize, Command.Numbers(list) + Command.PageBytes(list, pageSize));
            var got := Command.Decode(Command.Encode(sent));
            && got.Ok? && got.command.Frames? && 8 * |tx| <= |got.command.data|
            && var batch := Command.Applied(Command.NumbersOf(got.command.data, |tx|), Command.Pages(got.command.data, |tx|), pageSize);
               && batch == list
               && |n.hdr| == HEADER_SIZE && FramesOk(n.frames)
               && FramesOk(Replica.Apply(n, pageSize, batch, salt).frames)
               && View(Replica.Apply(n, pageSize, batch, salt).frames) == View(n.frames) + Added(Replica.Size(n), list)
  {
    hide Command.Encode;
    hide Command.Decode;
    hide Command.Applied;
    hide Command.PageBytes;
    hide Replica.Apply;
    hide View;
    hide Added;
    hide Polled;
    hide Replica.Inv;
    var list := Polled(tx);
    PolledFits(tx, pageSize);
    PagesAdded(n, pageSize, list, salt);
    Command.PagesSurvive(filename, txId, list, pageSize);
  }

  lemma NewFresh(pageSize: nat, pages: seq<Page>)
    requires Replica.LegalSize(pageSize) && |pages| < U32 && Replica.FirstTells(pages, pageSize)
    ensures Replica.Fresh(Replica.Node(pages, Zeros(HEADER_SIZE), []), pageSize)
  {
    hide WalPageSize;
    hide Replica.FirstTells;
    hide Zeros;
    NeverWritten();
  }

  lemma NeverWritten()
    ensures WalPageSize(Zeros(HEADER_SIZE)) == 0
  {
    var z := Zeros(HEADER_SIZE)[8..12];
    assert z == [0, 0, 0, 0] && z[..3] == [0, 0, 0] && z[..3][..2] == [0, 0] && z[..3][..2][..1] == [0];
    assert FromBe(z[..3][..2][..1]) == 0;
    assert FromBe(z[..3]) == 0;
  }

  lemma FilledNone(hdr: seq<byte>, frames: seq<Frame>, size: nat, batch: Batch)
    requires |hdr| == HEADER_SIZE && FramesOk(frames)
    ensures Filled(hdr, frames, size, batch, 0) == frames && Grown(size, []) == size
  {
  }

  lemma GrownNext(size: nat, batch: Batch, i: nat)
    requires i < |batch|
    ensures var n, p := Grown(size, batch[..i]), batch[i].number % U32;
            Grown(size, batch[..i + 1]) == if p > n then p else n
  {
    assert batch[..i + 1][..i] == batch[..i];
  }

  lemma FilledNext(hdr: seq<byte>, frames: seq<Frame>, size: nat, batch: Batch, i: nat)
    requires |hdr| == HEADER_SIZE && FramesOk(frames) && 0 < i <= |batch|
    ensures var fs := Filled(hdr, frames, size, batch, i - 1);
            Filled(hdr, frames, size, batch, i) ==
              fs + [MakeFrame(batch[i - 1].number % U32, if i == |batch| then Grown(size, batch) else 0, Salt(hdr),
                              Running(hdr, fs), batch[i - 1].page)]
  {
  }

  /** The checksum that goes on to the next frame is the one stored in this one. */
  lemma SumsStored(number: nat, commit: nat, salt: seq<byte>, c: Sums, page: Page)
    requires |salt| == 8 && c.s1 < U32 && c.s2 < U32
    ensures FrameSums(MakeFrame(number, commit, salt, c, page)) == Check(page, Check(Be(number, 4) + Be(commit, 4), c))
  {
    var f := MakeFrame(number, commit, salt, c, page);
    var c1 := Check(Be(number, 4) + Be(commit, 4), c);
    var c' := Check(page, c1);
    CheckBounded(Be(number, 4) + Be(commit, 4), c);
    CheckBounded(page, c1);
    Widths();
    BeTrip(c'.s1, 4);
    BeTrip(c'.s2, 4);
    assert f.header[16..20] == Be(c'.s1, 4) && f.header[20..24] == Be(c'.s2, 4);
  }
}
