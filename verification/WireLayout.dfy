/** Where the bytes are: the formats on the wire and in snapshots, position by position
  * (src/command.h, src/tuple.h, src/raft/configuration.c, src/fsm.c). Round trips alone would
  * also hold of other formats. */
module WireLayout {
  import opened Arithmetic
  import opened Bytes
  import opened Serialize
  import Command
  import Tuple
  import Rows
  import Configuration
  import ConfigurationCodec
  import SnapshotFormat

  // Fields one after the other.

  function Offset(widths: seq<nat>, i: nat): nat
    requires i <= |widths|
  {
    if i == 0 then 0 else Offset(widths, i - 1) + widths[i - 1]
  }

  lemma {:induction false} OffsetTail(widths: seq<nat>, i: nat)
    requires 0 < i <= |widths|
    ensures Offset(widths, i) == widths[0] + Offset(widths[1..], i - 1)
  {
    if i > 1 {
      OffsetTail(widths, i - 1);
    }
  }

  lemma {:induction false} FieldAt(values: seq<nat>, widths: seq<nat>, i: nat)
    requires |values| == |widths| && i < |values|
    ensures |PutAll(values, widths)| == Offset(widths, |widths|)
    ensures Offset(widths, i) + widths[i] <= |PutAll(values, widths)|
    ensures PutAll(values, widths)[Offset(widths, i)..Offset(widths, i) + widths[i]] == Le(values[i], widths[i])
    decreases |values|
  {
    hide Le;
    var s := PutAll(values, widths);
    var rest := PutAll(values[1..], widths[1..]);
    OffsetTail(widths, |widths|);
    if |values| > 1 {
      FieldAt(values[1..], widths[1..], if i > 0 then i - 1 else 0);
    }
    if i > 0 {
      OffsetTail(widths, i);
      var o := Offset(widths[1..], i - 1);
      assert s[widths[0] + o..widths[0] + o + widths[i]] == rest[o..o + widths[i]];
    } else {
      assert s[..widths[0]] == Le(values[0], widths[0]);
    }
  }

  lemma HeaderOffsets()
    ensures var w := Command.HEADER_FIELDS;
            Offset(w, 0) == 0 && Offset(w, 1) == 1 && Offset(w, 2) == 2 && Offset(w, 3) == 3 && Offset(w, 4) == 4 && Offset(w, 5) == 8
  {
    var w := Command.HEADER_FIELDS;
    assert Offset(w, 2) == 2;
    assert Offset(w, 4) == 4;
  }

  lemma FramesOffsets()
    ensures var w := Command.FRAMES_FIELDS;
            && Offset(w, 0) == 0 && Offset(w, 1) == 8 && Offset(w, 2) == 12 && Offset(w, 3) == 13 && Offset(w, 4) == 14
            && Offset(w, 5) == 16 && Offset(w, 6) == 20 && Offset(w, 7) == 22 && Offset(w, 8) == 24
  {
    var w := Command.FRAMES_FIELDS;
    assert Offset(w, 2) == 12;
    assert Offset(w, 4) == 14;
    assert Offset(w, 6) == 20;
  }

  lemma OneByte(v: nat)
    ensures Le(v, 1) == [v % 256]
  {
  }

  lemma ZeroBytes(n: nat)
    ensures Le(0, n) == Zeros(n)
  {
    if n > 0 {
      ZeroBytes(n - 1);
      assert Le(0, n) == [0] + Le(0, n - 1);
    }
  }

  // Commands.

  /** A command begins with its format, its type and six zeros. */
  lemma CommandHead(c: Command.Command)
    ensures var s := Command.Encode(c);
            && |s| >= 8 && s[0] == 1
            && s[1] == (match c case Open(_) => 1 case Frames(_, _, _, _, _, _, _) => 2 case Undo(_) => 3 case Checkpoint(_) => 4)
            && s[2..8] == Zeros(6) && s[8..] == Command.Body(c)
  {
    hide PutAll;
    hide Le;
    var values := [Command.FORMAT, Command.TypeOf(c), 0, 0, 0];
    var w := Command.HEADER_FIELDS;
    var h := PutAll(values, w);
    HeaderOffsets();
    FieldAt(values, w, 0);
    FieldAt(values, w, 1);
    FieldAt(values, w, 2);
    FieldAt(values, w, 3);
    FieldAt(values, w, 4);
    OneByte(1);
    OneByte(Command.TypeOf(c));
    OneByte(0);
    ZeroBytes(4);
    assert h[0..1][0] == h[0] && h[1..2][0] == h[1] && h[2..3][0] == h[2] && h[3..4][0] == h[3];
    assert h[2..8] == h[2..3] + h[3..4] + h[4..8];
    assert h[2..8] == Zeros(6);
    assert Command.Encode(c)[2..8] == h[2..8];
  }

  /** A frames command goes on with the padded file name, the transaction, the truncation size,
    * whether it commits, the number of pages and their size, each in its place, and the data. */
  lemma FramesLayout(filename: seq<byte>, txId: nat, truncate: nat, isCommit: nat, nPages: nat, pageSize: nat, data: seq<byte>)
    ensures var s := Command.Body(Command.Frames(filename, txId, truncate, isCommit, nPages, pageSize, data));
            var k := Pad64(|filename| + 1);
            && |s| == k + 24 + |data| && s[..|filename|] == filename && s[|filename|..k] == Zeros(k - |filename|)
            && s[k..k + 8] == Le(txId, 8) && s[k + 8..k + 12] == Le(truncate, 4) && s[k + 12] == isCommit % 256
            && s[k + 16..k + 20] == Le(nPages, 4) && s[k + 20..k + 22] == Le(pageSize, 2) && s[k + 24..] == data
  {
    hide PutAll;
    hide Le;
    var values := [txId, truncate, isCommit, 0, 0, nPages, pageSize, 0];
    var w := Command.FRAMES_FIELDS;
    var f := PutAll(values, w);
    FramesOffsets();
    FieldAt(values, w, 0);
    FieldAt(values, w, 1);
    FieldAt(values, w, 2);
    FieldAt(values, w, 5);
    FieldAt(values, w, 6);
    OneByte(isCommit);
    Middle(PutText(filename), f, data);
    assert f[12..13][0] == f[12];
    var s := PutText(filename) + (f + data);
    var k := Pad64(|filename| + 1);
    assert s[k..k + 24] == f;
    assert s[k..k + 8] == f[0..8] && s[k + 8..k + 12] == f[8..12] && s[k + 16..k + 20] == f[16..20] && s[k + 20..k + 22] == f[20..22];
    assert s[..|filename|] == filename && s[|filename|..k] == Zeros(k - |filename|);
  }

  lemma Middle(a: seq<byte>, b: seq<byte>, c: seq<byte>)
    ensures (a + (b + c))[|a|..|a| + |b|] == b && (a + (b + c))[|a| + |b|..] == c
  {
  }

  // Tuples.

  /** The numbers that stand for the types. */
  function TypeNumber(v: Tuple.Value): nat {
    if v.Integer? then 1 else if v.Float? then 2 else if v.Text? then 3 else if v.Blob? then 4
    else if v.Null? then 5 else if v.Unixtime? then 9 else if v.Iso8601? then 10 else 11
  }

  /** In row format two types share a byte, the first in its lower half; otherwise each has its
    * own byte after the number of values, which takes one byte or four. */
  lemma TypesLayout(xs: seq<Tuple.Item>, f: Tuple.Format, i: nat)
    requires Tuple.ItemsOk(xs) && i < |xs|
    ensures var s := Tuple.Encode(xs, f);
            match f
            case Row => i / 2 < |s| && TypeNumber(xs[i].value) == if i % 2 == 0 then s[i / 2] % 16 else s[i / 2] / 16
            case Params => 1 + i < |s| && s[0] == |xs| % 256 && s[1 + i] == TypeNumber(xs[i].value)
            case Params32 => 4 + i < |s| && s[..4] == Le(|xs|, 4) && s[4 + i] == TypeNumber(xs[i].value)
  {
    hide Tuple.PutValues;
    hide Tuple.ItemsOk;
    var codes := Tuple.Codes(xs);
    var h := Tuple.Header(codes, |xs|, f);
    Tuple.GetHeaderCode(codes, |xs|, f, i);
    OneByte(|xs|);
    assert Tuple.Encode(xs, f) == Tuple.Count(|xs|, f) + h + Tuple.PutValues(xs);
    match f
    case Row => assert Tuple.Encode(xs, f)[i / 2] == h[i / 2];
    case Params => assert Tuple.Encode(xs, f)[1 + i] == h[i];
    case Params32 => assert Tuple.Encode(xs, f)[4 + i] == h[i];
  }

  /** The values follow one after the other, from the end of the header on. */
  lemma {:induction false} ValueLayout(xs: seq<Tuple.Item>, f: Tuple.Format, i: nat)
    requires Tuple.ItemsOk(xs) && i < |xs|
    ensures var s, at := Tuple.Encode(xs, f), |Tuple.Count(|xs|, f)| + Tuple.HeaderSize(|xs|, f) + |Tuple.PutValues(xs[..i])|;
            var x := Tuple.PutValue(xs[i]);
            at + |x| <= |s| && s[at..at + |x|] == x
  {
    hide Tuple.PutValue;
    hide Tuple.PutValues;
    hide Tuple.ItemOk;
    hide Tuple.Count;
    hide Tuple.HeaderSize;
    var head := Tuple.Count(|xs|, f) + Tuple.Header(Tuple.Codes(xs), |xs|, f);
    var all, before, x := Tuple.PutValues(xs), Tuple.PutValues(xs[..i]), Tuple.PutValue(xs[i]);
    ValueIn(xs, i);
    assert Tuple.Encode(xs, f) == head + all;
    assert (head + all)[|head| + |before|..|head| + |before| + |x|] == all[|before|..|before| + |x|];
  }

  lemma {:induction false} ValueIn(xs: seq<Tuple.Item>, i: nat)
    requires Tuple.ItemsOk(xs) && i < |xs|
    ensures var all, at, x := Tuple.PutValues(xs), |Tuple.PutValues(xs[..i])|, Tuple.PutValue(xs[i]);
            at + |x| <= |all| && all[at..at + |x|] == x
    decreases |xs|
  {
    hide Tuple.PutValue;
    hide Tuple.ItemOk;
    var n := |xs| - 1;
    if i < n {
      ValueIn(xs[..n], i);
      assert xs[..n][..i] == xs[..i];
      var at, x, most := |Tuple.PutValues(xs[..i])|, Tuple.PutValue(xs[i]), Tuple.PutValues(xs[..n]);
      assert Tuple.PutValues(xs) == most + Tuple.PutValue(xs[n]);
      assert (most + Tuple.PutValue(xs[n]))[at..at + |x|] == most[at..at + |x|];
    }
  }

  /** An integer is written in two's complement: byte i is its digit i, also below zero. */
  lemma SignedByte(v: int, i: nat)
    requires -Tuple.I63 <= v < Tuple.I63 && i < 8
    ensures Le(Tuple.FromSigned(v), 8)[i] == v / Pow256(i) % 256
  {
    hide Le;
    LeAt(Tuple.FromSigned(v), 8, i);
    if v < 0 {
      Widths();
      PowSplit(8, i);
      Shift(v, Pow256(i), Pow256(8 - i));
      Shift(v / Pow256(i), 256, Pow256(7 - i));
    }
  }

  lemma {:induction false} PowSplit(n: nat, i: nat)
    requires i <= n
    ensures Pow256(n) == Pow256(i) * Pow256(n - i)
  {
    if i > 0 {
      PowSplit(n - 1, i - 1);
      var a, b := Pow256(i - 1), Pow256(n - i);
      assert 256 * (a * b) == 256 * a * b;
    }
  }

  lemma Shift(v: int, d: nat, q: nat)
    requires d > 0
    ensures (v + d * q) / d == v / d + q && (v + d * q) % d == v % d
  {
    var r, k := v % d, (v + d * q) / d - (v / d + q);
    assert v == d * (v / d) + r;
    assert v + d * q == d * (v / d + q) + r;
    assert d * k == r - (v + d * q) % d;
    MulNonzero(k, d);
  }

  // Rows.

  /** A message of rows begins with the number of columns and ends with eight bytes that are all
    * 0xff when it is the last one, and all 0xee otherwise. */
  lemma RowsLayout(names: seq<Rows.Name>, rows: seq<seq<Tuple.Item>>, done: bool, i: nat)
    requires Rows.RowsOk(rows, |names|) && i < 8
    ensures var s := Rows.Message(names, rows, done);
            |s| >= 16 && s[..8] == Le(|names|, 8) && s[|s| - 8 + i] == if done then 0xff else 0xee
  {
    hide Le;
    var end := Le(if done then Rows.ROWS_DONE else Rows.ROWS_PART, 8);
    MarkerByte(done, i);
    var body := Rows.PutNames(names) + (Rows.PutRows(rows, |names|) + end);
    assert Rows.Message(names, rows, done) == Le(|names|, 8) + body;
    assert body[|body| - 8..] == end;
    assert (Le(|names|, 8) + body)[8..] == body;
  }

  /** The number whose bytes are all the same. */
  function Repeated(b: nat, n: nat): nat {
    if n == 0 then 0 else b + 256 * Repeated(b, n - 1)
  }

  lemma {:induction false} RepeatedByte(b: nat, n: nat, i: nat)
    requires b < 256 && i < n
    ensures Le(Repeated(b, n), n)[i] == b
  {
    if i > 0 {
      RepeatedByte(b, n - 1, i - 1);
    }
  }

  lemma MarkerByte(done: bool, i: nat)
    requires i < 8
    ensures Le(if done then Rows.ROWS_DONE else Rows.ROWS_PART, 8)[i] == if done then 0xff else 0xee
  {
    hide Le;
    RepeatedByte(if done then 0xff else 0xee, 8, i);
    assert Repeated(0xff, 8) == Rows.ROWS_DONE;
    assert Repeated(0xee, 8) == Rows.ROWS_PART;
  }

  // Configurations.

  /** A configuration begins with its format and the number of servers. */
  lemma ConfigurationHead(c: Configuration.Members)
    requires ConfigurationCodec.Encodable(c)
    ensures var s := ConfigurationCodec.Encode(c);
            |s| >= 9 && s[0] == 1 && s[1..9] == Le(|c|, 8) && s[9..] == ConfigurationCodec.PutServers(c)
  {
    hide Le;
    OneByte(1);
    Middle(Le(1, 1), Le(|c|, 8), ConfigurationCodec.PutServers(c));
  }

  /** A server is its id, its address up to a zero, and one byte: 0 for a standby, 1 for a voter,
    * 2 for a spare. */
  lemma ServerLayout(m: Configuration.Member)
    requires ConfigurationCodec.IsAddress(m.address)
    ensures var s, n := ConfigurationCodec.PutServer(m), |m.address|;
            && |s| == 8 + n + 2 && s[..8] == Le(m.id, 8)
            && (forall i :: 0 <= i < n ==> s[8 + i] == m.address[i] as int)
            && s[8 + n] == 0 && s[8 + n + 1] == if m.role.Standby? then 0 else if m.role.Voter? then 1 else 2
  {
    hide Le;
  }

  // Snapshots.

  /** A snapshot begins with its format and the number of databases. */
  lemma SnapshotHead(es: seq<SnapshotFormat.Entry>, pageSize: nat)
    requires SnapshotFormat.HaveHeaders(es)
    ensures var s := SnapshotFormat.SnapshotBytes(es, pageSize);
            |s| >= 16 && s[..8] == Le(1, 8) && s[8..16] == Le(|es|, 8) && s[16..] == SnapshotFormat.AllBytes(es, pageSize)
  {
    TwoFields(1, |es|);
    var p := PutAll([1, |es|], SnapshotFormat.SIZES);
    hide PutAll;
    hide Le;
    var rest := SnapshotFormat.AllBytes(es, pageSize);
    assert SnapshotFormat.SnapshotBytes(es, pageSize) == p + rest;
    assert (p + rest)[..8] == p[..8] && (p + rest)[8..16] == p[8..16];
  }

  lemma TwoFields(a: nat, b: nat)
    ensures var p := PutAll([a, b], SnapshotFormat.SIZES);
            |p| == 16 && p[..8] == Le(a, 8) && p[8..16] == Le(b, 8)
  {
    hide Le;
    var w := SnapshotFormat.SIZES;
    assert Offset(w, 1) == 8 && Offset(w, 2) == 16;
    FieldAt([a, b], w, 0);
    FieldAt([a, b], w, 1);
  }

  lemma FourParts(a: seq<byte>, b: seq<byte>, c: seq<byte>, d: seq<byte>, i: nat)
    requires i <= |a| && |b| == 16
    ensures var s, k := a + b + (c + d), |a|;
            && s[..i] == a[..i] && s[i..k] == a[i..] && s[k..k + 8] == b[..8] && s[k + 8..k + 16] == b[8..16]
            && s[k + 16..k + 16 + |c|] == c && s[k + 16 + |c|..] == d
  {
  }

  /** A database in it: its padded name, the size of its pages, the size of its log, its pages
    * and its log. */
  lemma DatabaseLayout(e: SnapshotFormat.Entry, pageSize: nat)
    requires SnapshotFormat.HasHeader(e)
    ensures var s, k := SnapshotFormat.DbBytes(e, pageSize), Pad64(|e.name| + 1);
            var n := |SnapshotFormat.Flat(e.node.pages)|;
            && |s| >= k + 16 + n && s[..|e.name|] == e.name && s[|e.name|..k] == Zeros(k - |e.name|)
            && s[k..k + 8] == Le(SnapshotFormat.MainSize(e.node, pageSize), 8)
            && s[k + 8..k + 16] == Le(|SnapshotFormat.WalBytes(e.node)|, 8)
            && s[k + 16..k + 16 + n] == SnapshotFormat.Flat(e.node.pages) && s[k + 16 + n..] == SnapshotFormat.WalBytes(e.node)
  {
    var main, wal := SnapshotFormat.MainSize(e.node, pageSize), |SnapshotFormat.WalBytes(e.node)|;
    TwoFields(main, wal);
    var t, p, f, w := PutText(e.name), PutAll([main, wal], SnapshotFormat.SIZES), SnapshotFormat.Flat(e.node.pages), SnapshotFormat.WalBytes(e.node);
    hide PutAll;
    hide Le;
    hide SnapshotFormat.Flat;
    hide SnapshotFormat.WalBytes;
    hide SnapshotFormat.MainSize;
    assert SnapshotFormat.DbBytes(e, pageSize) == t + p + (f + w);
    FourParts(t, p, f, w, |e.name|);
    assert t[..|e.name|] == e.name && t[|e.name|..] == Zeros(|t| - |e.name|);
  }
}
