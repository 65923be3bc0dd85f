/** Fields on the wire (src/lib/serialize.h): what an encoder writes and what a decoder
  * reads back from a cursor. */
module Serialize {
  import opened Bytes

  /** A value and what is left to read; an error; a value whose padding is missing, after
    * which the cursor is past the end of the buffer; or success with a length that no buffer
    * has, and what is left to read. */
  datatype Read<T> = Got(value: T, rest: seq<byte>) | Parse | Past(value: T) | Overlong(rest: seq<byte>)

  /** C strings hold no zero byte. */
  predicate IsText(t: seq<byte>) {
    forall i :: 0 <= i < |t| ==> t[i] != 0
  }

  // Writing.

  function PutText(t: seq<byte>): (s: seq<byte>)
    ensures |s| == Pad64(|t| + 1) && |s| % 8 == 0
  {
    t + Zeros(Pad64(|t| + 1) - |t|)
  }

  /** The bytes that fill up the last word of a blob are whatever the buffer held. */
  function PutBlob(b: seq<byte>, fill: seq<byte>): (s: seq<byte>)
    requires |fill| == Pad64(|b|) - |b|
    ensures |s| == 8 + Pad64(|b|) && |s| % 8 == 0
  {
    Le(|b|, 8) + b + fill
  }

  // Reading.

  function GetLe(s: seq<byte>, n: nat): Read<nat> {
    if n > |s| then Parse else Got(FromLe(s[..n]), s[n..])
  }

  /** The place of the first zero byte, or the length. */
  function TextLength(s: seq<byte>): (n: nat)
    ensures n <= |s| && (n < |s| ==> s[n] == 0) && IsText(s[..n])
  {
    if s == [] || s[0] == 0 then 0 else
      var n := TextLength(s[1..]);
      assert s[1..][..n] == s[1..n + 1];
      1 + n
  }

  /** A string and its padding, which is not checked to be there. */
  function GetText(s: seq<byte>): Read<seq<byte>> {
    var n := TextLength(s);
    if n == |s| then Parse
    else if Pad64(n + 1) > |s| then Past(s[..n])
    else Got(s[..n], s[Pad64(n + 1)..])
  }

  /** The padded length, in 64 bits. */
  function PadLength(v: nat): nat {
    Pad64(v) % U64
  }

  /** A length and as many bytes, padded. The padded length can wrap around. */
  function GetBlob(s: seq<byte>): Read<seq<byte>> {
    var r := GetLe(s, 8);
    if !r.Got? then Parse else
      var n := PadLength(r.value);
      if n > |r.rest| then Parse
      else if r.value > n then Overlong(r.rest[n..])
      else Got(r.rest[..r.value], r.rest[n..])
  }

  /** It does so exactly for the last seven lengths, which are then taken for read; every
    * other length is refused exactly when so many padded bytes are not there. */
  lemma BlobLengths(s: seq<byte>)
    ensures |s| < 8 ==> GetBlob(s) == Parse
    ensures |s| >= 8 ==>
              var v := FromLe(s[..8]);
              && (GetBlob(s).Overlong? <==> U64 - 8 < v)
              && (v <= U64 - 8 ==> (GetBlob(s).Got? <==> 8 + Pad64(v) <= |s|))
              && (U64 - 8 < v ==> GetBlob(s) == Overlong(s[8..]))
  {
    hide FromLe;
    if |s| >= 8 {
      Widths();
      FromLeBound(s[..8]);
      var v := FromLe(s[..8]);
      PadWraps(v);
      assert s[8..][0..] == s[8..];
    }
  }

  lemma PadWraps(v: nat)
    requires v < U64
    ensures PadLength(v) == if U64 - 8 < v then 0 else Pad64(v)
  {
  }

  // Reading undoes writing.

  lemma GetPutLe(v: nat, n: nat, rest: seq<byte>)
    requires v < Pow256(n)
    ensures GetLe(Le(v, n) + rest, n) == Got(v, rest)
  {
    LeTrip(v, n);
    var s := Le(v, n) + rest;
    assert s[..n] == Le(v, n) && s[n..] == rest;
  }

  lemma {:induction false} FirstZero(t: seq<byte>, s: seq<byte>)
    requires IsText(t) && s != [] && s[0] == 0
    ensures TextLength(t + s) == |t|
  {
    if t == [] {
      assert t + s == s;
    } else {
      FirstZero(t[1..], s);
      assert (t + s)[1..] == t[1..] + s;
    }
  }

  lemma GetPutText(t: seq<byte>, rest: seq<byte>)
    requires IsText(t)
    ensures GetText(PutText(t) + rest) == Got(t, rest)
  {
    var s := PutText(t) + rest;
    var tail := s[|t|..];
    assert s == t + tail;
    FirstZero(t, tail);
    assert s[..|t|] == t && s[Pad64(|t| + 1)..] == rest;
  }

  lemma GetPutBlob(b: seq<byte>, fill: seq<byte>, rest: seq<byte>)
    requires |fill| == Pad64(|b|) - |b| && |b| < U64
    ensures GetBlob(PutBlob(b, fill) + rest) == if |b| <= U64 - 8 then Got(b, rest) else Overlong(b + fill + rest)
  {
    Widths();
    PadWraps(|b|);
    GetPutLe(|b|, 8, b + fill + rest);
    var s := b + fill + rest;
    assert PutBlob(b, fill) + rest == Le(|b|, 8) + s;
    assert s[..|b|] == b && s[Pad64(|b|)..] == rest;
  }

  // Several numbers.

  function PutAll(values: seq<nat>, widths: seq<nat>): seq<byte>
    requires |values| == |widths|
  {
    if values == [] then [] else Le(values[0], widths[0]) + PutAll(values[1..], widths[1..])
  }

  /** Read fields of the given widths one after the other. */
  function GetAll(s: seq<byte>, widths: seq<nat>): (r: Read<seq<nat>>)
    ensures r.Got? ==> |r.value| == |widths|
    decreases |widths|
  {
    if widths == [] then Got([], s) else
      var r := GetLe(s, widths[0]);
      if !r.Got? then Parse else
        var rs := GetAll(r.rest, widths[1..]);
        if !rs.Got? then Parse else Got([r.value] + rs.value, rs.rest)
  }

  lemma {:induction false} GetPutAll(values: seq<nat>, widths: seq<nat>, rest: seq<byte>)
    requires |values| == |widths| && forall i :: 0 <= i < |values| ==> values[i] < Pow256(widths[i])
    ensures GetAll(PutAll(values, widths) + rest, widths) == Got(values, rest)
  {
    hide GetLe;
    hide Le;
    hide Pow256;
    if values == [] {
      assert PutAll(values, widths) + rest == rest;
    } else {
      var more := PutAll(values[1..], widths[1..]);
      GetPutAll(values[1..], widths[1..], rest);
      GetPutLe(values[0], widths[0], more + rest);
      assert PutAll(values, widths) + rest == Le(values[0], widths[0]) + (more + rest);
      assert [values[0]] + values[1..] == values;
    }
  }

  /** A place in a buffer, and the number of bytes believed to be left. */
  class Cursor {
    const buf: seq<byte>
    var p: nat
    var cap: nat

    ghost predicate Valid()
      reads this
    {
      p + cap == |buf|
    }

    ghost function Rest(): seq<byte>
      requires Valid()
      reads this
    {
      buf[p..]
    }

    constructor (buf: seq<byte>)
      ensures Valid() && this.buf == buf && Rest() == buf
    {
      this.buf, p, cap := buf, 0, |buf|;
    }

    method Uint(n: nat) returns (ok: bool, v: nat)
      requires Valid()
      modifies this
      ensures Valid()
      ensures (if ok then Got(v, Rest()) else Parse) == GetLe(old(Rest()), n)
      ensures ok ==> p == old(p) + n
      ensures !ok ==> p == old(p)
    {
      if n > cap {
        return false, 0;
      }
      assert buf[p..][..n] == buf[p..p + n];
      ok, v := true, FromLe(buf[p..p + n]);
      assert buf[p..][n..] == buf[p + n..];
      p, cap := p + n, cap - n;
    }

    /** The next n bytes, which are known to be there. */
    method Skip(n: nat) returns (s: seq<byte>)
      requires Valid() && n <= cap
      modifies this
      ensures Valid() && n <= |old(Rest())| && s == old(Rest())[..n] && Rest() == old(Rest())[n..]
    {
      s := buf[p..p + n];
      assert buf[p..][..n] == s && buf[p..][n..] == buf[p + n..];
      p, cap := p + n, cap - n;
    }

    method Text() returns (ok: bool, t: seq<byte>)
      requires Valid()
      modifies this
      ensures ok <==> GetText(old(Rest())) != Parse
      ensures ok ==> GetText(old(Rest())).value == t
      ensures GetText(old(Rest())).Got? ==> Valid() && Rest() == GetText(old(Rest())).rest
      ensures GetText(old(Rest())).Past? ==> p > |buf| && cap == (old(cap) - Pad64(|t| + 1)) % U64
      ensures !ok ==> Valid() && Rest() == old(Rest())
    {
      hide TextLength;
      var len := Scan();
      ghost var rest := Rest();
      if len == cap {
        return false, [];
      }
      ok, t := true, buf[p..p + len];
      var n := Pad64(len + 1);
      assert rest[..len] == t;
      assert p + n <= |buf| ==> rest[n..] == buf[p + n..];
      p, cap := p + n, if n <= cap then cap - n else (cap - n) % U64;
    }

    /** The length of the string at the cursor, or what is left when it does not end. */
    method Scan() returns (len: nat)
      requires Valid()
      ensures len == TextLength(Rest())
    {
      hide TextLength;
      len := 0;
      ghost var rest := Rest();
      while len < cap && buf[p + len] != 0
        invariant len <= cap && IsText(rest[..len])
      {
        len := len + 1;
      }
      ScanStops(rest, len);
    }

    /** The bytes from the cursor on that are there, and the length that is reported. */
    method Blob() returns (ok: bool, b: seq<byte>, len: nat)
      requires Valid()
      modifies this
      ensures Valid()
      ensures var r := GetBlob(old(Rest()));
              && (ok <==> !r.Parse?)
              && (r.Got? ==> b == r.value && len == |b| && Rest() == r.rest)
              && (r.Overlong? ==> b == r.rest && len > U64 - 8 && Rest() == r.rest)
    {
      hide FromLe;
      hide PadLength;
      hide Pad64;
      BlobLengths(Rest());
      ok, len := Uint(8);
      if !ok {
        return false, [], 0;
      }
      var n := PadLength(len);
      if n > cap {
        return false, [], len;
      }
      Slices(buf, p, n, if len > n then 0 else len);
      b := if len > n then buf[p..] else buf[p..p + len];
      p, cap := p + n, cap - n;
    }
  }

  lemma Slices(s: seq<byte>, p: nat, n: nat, k: nat)
    requires p + n <= |s| && k <= n
    ensures s[p..][..k] == s[p..p + k] && s[p..][n..] == s[p + n..]
  {
  }

  lemma {:induction false} ScanStops(s: seq<byte>, n: nat)
    requires n <= |s| && IsText(s[..n]) && (n < |s| ==> s[n] == 0)
    ensures TextLength(s) == n
  {
    if n > 0 {
      assert s[1..][..n - 1] == s[..n][1..];
      assert s[0] == s[..n][0];
      ScanStops(s[1..], n - 1);
    }
  }
}
