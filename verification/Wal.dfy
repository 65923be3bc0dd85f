/** The write-ahead log image that every node keeps in memory (src/vfs.c, src/format.c):
  * rolling checksums, commit markers, appending a batch, restarting after a checkpoint.
  *
  * Checksums add up words in the host's byte order, which is taken to be little-endian;
  * all other numbers in headers are big-endian. Random salts are parameters.
  */
module Wal {
  import opened Bytes

  const HEADER_SIZE: nat := 32
  const FRAME_HEADER_SIZE: nat := 24
  const PAGE_SIZE_MAX: nat := 65536
  const WAL_MAGIC: nat := 0x377f0682
  const WAL_VERSION: nat := 3007000

  type Page = seq<byte>
  datatype Frame = Frame(header: seq<byte>, page: Page)
  datatype Sums = Sums(s1: nat, s2: nat)

  /** A page of a batch: its number and its content. */
  datatype PageWrite = PageWrite(number: nat, page: Page)

  // Checksums.

  function Mix(c: Sums, a: nat, b: nat): Sums {
    var s1 := (c.s1 + a + c.s2) % U32;
    Sums(s1, (c.s2 + b + s1) % U32)
  }

  /** The checksum of some data that goes on from a given one. */
  function Check(data: seq<byte>, c: Sums): Sums {
    var n := |data|;
    if n < 8 then c else Mix(Check(data[..n - 8], c), FromLe(data[n - 8..n - 4]), FromLe(data[n - 4..]))
  }

  method Checksum(data: seq<byte>, c: Sums) returns (out: Sums)
    requires 8 <= |data| <= 65536 && |data| % 8 == 0
    ensures out == Check(data, c)
  {
    hide Check;
    hide FromLe;
    CheckNone(c);
    var s1: nat, s2: nat := c.s1, c.s2;
    var cur := 0;
    assert data[..0] == [];
    while cur < |data|
      invariant cur <= |data| && cur % 8 == 0
      invariant Sums(s1, s2) == Check(data[..cur], c)
    {
      CheckNext(data, c, cur);
      s1 := (s1 + FromLe(data[cur..cur + 4]) + s2) % U32;
      s2 := (s2 + FromLe(data[cur + 4..cur + 8]) + s1) % U32;
      cur := cur + 8;
    }
    assert data[..cur] == data;
    out := Sums(s1, s2);
  }

  lemma CheckNone(c: Sums)
    ensures Check([], c) == c
  {
  }

  lemma CheckNext(data: seq<byte>, c: Sums, cur: nat)
    requires cur + 8 <= |data|
    ensures Check(data[..cur + 8], c) == Mix(Check(data[..cur], c), FromLe(data[cur..cur + 4]), FromLe(data[cur + 4..cur + 8]))
  {
    var d := data[..cur + 8];
    assert d[..cur] == data[..cur] && d[cur..cur + 4] == data[cur..cur + 4] && d[cur + 4..] == data[cur + 4..cur + 8];
  }

  /** A checksum goes on where the checksum of the data before it ended. */
  lemma {:induction false} CheckConcat(a: seq<byte>, b: seq<byte>, c: Sums)
    requires |b| % 8 == 0
    ensures Check(a + b, c) == Check(b, Check(a, c))
  {
    hide Check;
    hide FromLe;
    hide Mix;
    if b == [] {
      assert a + b == a;
      CheckNone(Check(a, c));
    } else {
      var n := |b| - 8;
      CheckConcat(a, b[..n], c);
      CheckNext(a + b, c, |a| + n);
      CheckNext(b, Check(a, c), n);
      LastWords(a, b);
    }
  }

  /** The last eight bytes of two pieces of data are those of the second. */
  lemma LastWords(a: seq<byte>, b: seq<byte>)
    requires |b| >= 8
    ensures var s, k, n := a + b, |a + b| - 8, |b| - 8;
            && s[..k] == a + b[..n] && s[..k + 8] == s && b[..n + 8] == b
            && s[k..k + 4] == b[n..n + 4] && s[k + 4..k + 8] == b[n + 4..n + 8]
  {
  }

  // Headers.

  /** A power of two from 512 to 32768, or 1 for 65536; zero when it is neither. */
  function ParsePageSize(n: nat): nat {
    if n == 1 then PAGE_SIZE_MAX
    else if n in {512, 1024, 2048, 4096, 8192, 16384, 32768} then n
    else 0
  }

  function WalPageSize(hdr: seq<byte>): nat
    requires |hdr| == HEADER_SIZE
  {
    ParsePageSize(FromBe(hdr[8..12]))
  }

  function Salt(hdr: seq<byte>): (s: seq<byte>)
    requires |hdr| == HEADER_SIZE
    ensures |s| == 8
  {
    hdr[16..24]
  }

  function HeaderSums(hdr: seq<byte>): Sums
    requires |hdr| == HEADER_SIZE
  {
    Sums(FromBe(hdr[24..28]), FromBe(hdr[28..32]))
  }

  function Sealed(fields: seq<byte>): (hdr: seq<byte>)
    requires |fields| == 24
    ensures |hdr| == HEADER_SIZE
  {
    var c := Check(fields, Sums(0, 0));
    fields + Be(c.s1, 4) + Be(c.s2, 4)
  }

  function StartHeader(pageSize: nat, salt: seq<byte>): (hdr: seq<byte>)
    requires |salt| == 8
    ensures |hdr| == HEADER_SIZE
  {
    Sealed(Be(WAL_MAGIC, 4) + Be(WAL_VERSION, 4) + Be(pageSize, 4) + Be(0, 4) + salt)
  }

  /** After a checkpoint: the next sequence number, the next first salt, a new second one. */
  function RestartHeader(hdr: seq<byte>, salt2: seq<byte>): (hdr': seq<byte>)
    requires |hdr| == HEADER_SIZE && |salt2| == 4
    ensures |hdr'| == HEADER_SIZE
  {
    Sealed(hdr[..12] + Be((FromBe(hdr[12..16]) + 1) % U32, 4) + Be((FromBe(hdr[16..20]) + 1) % U32, 4) + salt2)
  }

  /** The checksum in a header is the one of its first 24 bytes. */
  predicate HeaderOk(hdr: seq<byte>) {
    |hdr| == HEADER_SIZE && HeaderSums(hdr) == Check(hdr[..24], Sums(0, 0))
  }

  lemma CheckBounded(data: seq<byte>, c: Sums)
    requires c.s1 < U32 && c.s2 < U32
    ensures Check(data, c).s1 < U32 && Check(data, c).s2 < U32
  {
  }

  lemma SealedOk(fields: seq<byte>)
    requires |fields| == 24
    ensures HeaderOk(Sealed(fields)) && Sealed(fields)[..24] == fields
  {
    var c := Check(fields, Sums(0, 0));
    CheckBounded(fields, Sums(0, 0));
    Widths();
    BeTrip(c.s1, 4);
    BeTrip(c.s2, 4);
    var hdr := Sealed(fields);
    assert hdr[..24] == fields && hdr[24..28] == Be(c.s1, 4) && hdr[28..32] == Be(c.s2, 4);
  }

  /** A page size survives the header unless it is the largest one. */
  lemma StartHeaderOk(pageSize: nat, salt: seq<byte>)
    requires |salt| == 8 && pageSize < U32
    ensures HeaderOk(StartHeader(pageSize, salt)) && Salt(StartHeader(pageSize, salt)) == salt
    ensures FromBe(StartHeader(pageSize, salt)[0..4]) == WAL_MAGIC && FromBe(StartHeader(pageSize, salt)[4..8]) == WAL_VERSION
    ensures WalPageSize(StartHeader(pageSize, salt)) == ParsePageSize(pageSize)
    ensures pageSize in {512, 1024, 2048, 4096, 8192, 16384, 32768, 65536} ==>
              (WalPageSize(StartHeader(pageSize, salt)) == pageSize <==> pageSize != 65536)
  {
    hide Be;
    hide FromBe;
    hide Check;
    hide Sealed;
    var fields := Be(WAL_MAGIC, 4) + Be(WAL_VERSION, 4) + Be(pageSize, 4) + Be(0, 4) + salt;
    SealedOk(fields);
    Widths();
    BeTrip(pageSize, 4);
    BeTrip(WAL_MAGIC, 4);
    BeTrip(WAL_VERSION, 4);
    var hdr := Sealed(fields);
    assert hdr[0..4] == hdr[..24][0..4] == Be(WAL_MAGIC, 4) && hdr[4..8] == hdr[..24][4..8] == Be(WAL_VERSION, 4);
    assert hdr[8..12] == hdr[..24][8..12] == Be(pageSize, 4);
    assert hdr[16..24] == hdr[..24][16..24] == salt;
  }

  lemma RestartHeaderOk(hdr: seq<byte>, salt2: seq<byte>)
    requires |hdr| == HEADER_SIZE && |salt2| == 4
    ensures HeaderOk(RestartHeader(hdr, salt2)) && WalPageSize(RestartHeader(hdr, salt2)) == WalPageSize(hdr)
    ensures RestartHeader(hdr, salt2)[..12] == hdr[..12] && RestartHeader(hdr, salt2)[20..24] == salt2
  {
    var fields := hdr[..12] + Be((FromBe(hdr[12..16]) + 1) % U32, 4) + Be((FromBe(hdr[16..20]) + 1) % U32, 4) + salt2;
    SealedOk(fields);
    assert Sealed(fields)[8..12] == Sealed(fields)[..24][8..12] == hdr[8..12];
    assert Sealed(fields)[..12] == Sealed(fields)[..24][..12] && Sealed(fields)[20..24] == Sealed(fields)[..24][20..24];
  }

  /** A restarted header counts one more checkpoint and has the next first salt, so it is
    * never the header it replaces. */
  lemma RestartHeaderCounts(hdr: seq<byte>, salt2: seq<byte>)
    requires |hdr| == HEADER_SIZE && |salt2| == 4
    ensures var hdr' := RestartHeader(hdr, salt2);
            && FromBe(hdr'[12..16]) == (FromBe(hdr[12..16]) + 1) % U32 && FromBe(hdr'[16..20]) == (FromBe(hdr[16..20]) + 1) % U32
            && hdr'[12..20] != hdr[12..20]
  {
    hide Sealed;
    var c, s := (FromBe(hdr[12..16]) + 1) % U32, (FromBe(hdr[16..20]) + 1) % U32;
    var fields := hdr[..12] + Be(c, 4) + Be(s, 4) + salt2;
    SealedOk(fields);
    Widths();
    BeTrip(c, 4);
    BeTrip(s, 4);
    FromBeBound(hdr[12..16]);
    var hdr' := Sealed(fields);
    assert hdr'[12..16] == hdr'[..24][12..16] == Be(c, 4) && hdr'[16..20] == hdr'[..24][16..20] == Be(s, 4);
    assert hdr'[12..20][..4] == hdr'[12..16] && hdr[12..20][..4] == hdr[12..16];
  }

  method Put32(header: array<byte>, at: nat, v: nat)
    requires at + 4 <= header.Length && v < U32
    modifies header
    ensures header[..] == old(header[..at]) + Be(v, 4) + old(header[at + 4..])
  {
    BeBytes(v);
    header[at], header[at + 1], header[at + 2], header[at + 3] := v / 0x100_0000, v / 0x1_0000 % 256, v / 0x100 % 256, v % 256;
  }

  lemma BeBytes(v: nat)
    requires v < U32
    ensures Be(v, 4) == [v / 0x100_0000, v / 0x1_0000 % 256, v / 0x100 % 256, v % 256]
  {
    var a, b, c := v / 0x100, v / 0x1_0000, v / 0x100_0000;
    Shifts(v);
    assert Be(c / 256, 0) == [] && Be(c, 1) == [c];
    assert Be(b, 2) == Be(b / 256, 1) + [b % 256];
    assert Be(a, 3) == Be(a / 256, 2) + [a % 256];
    assert Be(v, 4) == Be(v / 256, 3) + [v % 256];
  }

  lemma Shifts(v: nat)
    requires v < U32
    ensures v / 0x100 / 256 == v / 0x1_0000 && v / 0x1_0000 / 256 == v / 0x100_0000 && v / 0x100_0000 < 256
  {
  }

  /** Restart a header in place. */
  method RestartInPlace(header: array<byte>, salt2: seq<byte>)
    requires header.Length == HEADER_SIZE && |salt2| == 4
    modifies header
    ensures header[..] == RestartHeader(old(header[..]), salt2)
  {
    hide Check;
    hide Be;
    hide FromBe;
    ghost var h := header[..];
    Put32(header, 12, (FromBe(header[12..16]) + 1) % U32);
    assert header[16..20] == h[16..20];
    Put32(header, 16, (FromBe(header[16..20]) + 1) % U32);
    assert header[..20] == h[..12] + Be((FromBe(h[12..16]) + 1) % U32, 4) + Be((FromBe(h[16..20]) + 1) % U32, 4);
    header[20], header[21], header[22], header[23] := salt2[0], salt2[1], salt2[2], salt2[3];
    ghost var fields := h[..12] + Be((FromBe(h[12..16]) + 1) % U32, 4) + Be((FromBe(h[16..20]) + 1) % U32, 4) + salt2;
    assert header[..24] == fields;
    var c := Checksum(header[..24], Sums(0, 0));
    CheckBounded(fields, Sums(0, 0));
    Put32(header, 24, c.s1);
    assert header[..28] == fields + Be(c.s1, 4);
    Put32(header, 28, c.s2);
    assert header[..] == fields + Be(c.s1, 4) + Be(c.s2, 4);
  }

  // Frames.

  predicate FrameOk(f: Frame, pageSize: nat) {
    |f.header| == FRAME_HEADER_SIZE && |f.page| == pageSize
  }

  function Number(f: Frame): nat
    requires |f.header| == FRAME_HEADER_SIZE
  {
    FromBe(f.header[0..4])
  }

  function Commit(f: Frame): nat
    requires |f.header| == FRAME_HEADER_SIZE
  {
    FromBe(f.header[4..8])
  }

  function FrameSums(f: Frame): Sums
    requires |f.header| == FRAME_HEADER_SIZE
  {
    Sums(FromBe(f.header[16..20]), FromBe(f.header[20..24]))
  }

  /** What the checksum of a frame goes over. */
  function Covered(number: nat, commit: nat, page: Page): seq<byte> {
    Be(number, 4) + Be(commit, 4) + page
  }

  function MakeFrame(number: nat, commit: nat, salt: seq<byte>, c: Sums, page: Page): (f: Frame)
    requires |salt| == 8
    ensures |f.header| == FRAME_HEADER_SIZE && f.page == page
  {
    var c' := Check(page, Check(Be(number, 4) + Be(commit, 4), c));
    Frame(Be(number, 4) + Be(commit, 4) + salt + Be(c'.s1, 4) + Be(c'.s2, 4), page)
  }

  method FrameFill(number: nat, commit: nat, salt: seq<byte>, c: Sums, page: Page) returns (f: Frame, c': Sums)
    requires |salt| == 8 && 8 <= |page| <= 65536 && |page| % 8 == 0
    ensures f == MakeFrame(number, commit, salt, c, page)
    ensures c' == Check(page, Check(Be(number, 4) + Be(commit, 4), c))
  {
    var header := Be(number, 4) + Be(commit, 4);
    c' := Checksum(header, c);
    c' := Checksum(page, c');
    header := header + salt + Be(c'.s1, 4) + Be(c'.s2, 4);
    f := Frame(header, page);
  }

  lemma FrameFields(number: nat, commit: nat, salt: seq<byte>, c: Sums, page: Page)
    requires number < U32 && commit < U32 && |salt| == 8 && c.s1 < U32 && c.s2 < U32 && |page| % 8 == 0
    ensures var f := MakeFrame(number, commit, salt, c, page);
            && Number(f) == number && Commit(f) == commit && f.header[8..16] == salt
            && FrameSums(f) == Check(Covered(number, commit, page), c)
            && f.header[..8] == Be(number, 4) + Be(commit, 4)
            && FrameSums(f).s1 < U32 && FrameSums(f).s2 < U32
  {
    var f := MakeFrame(number, commit, salt, c, page);
    var start := Be(number, 4) + Be(commit, 4);
    var c' := Check(page, Check(start, c));
    CheckBounded(start, c);
    CheckBounded(page, Check(start, c));
    CheckConcat(start, page, c);
    Widths();
    BeTrip(number, 4);
    BeTrip(commit, 4);
    BeTrip(c'.s1, 4);
    BeTrip(c'.s2, 4);
    assert f.header[0..4] == Be(number, 4) && f.header[4..8] == Be(commit, 4) && f.header[8..16] == salt;
    assert f.header[16..20] == Be(c'.s1, 4) && f.header[20..24] == Be(c'.s2, 4) && f.header[..8] == start;
  }
}
