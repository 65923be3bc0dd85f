/** Configurations as bytes (src/raft/configuration.c, src/raft/byte.h): a format byte, the
  * number of servers, and for each its id, its address as a C string and its role. */
module ConfigurationCodec {
  import opened Bytes
  import opened Serialize
  import opened Configuration

  const ENCODING_FORMAT: nat := 1

  // Addresses are C strings.

  predicate IsAddress(a: string) {
    forall i :: 0 <= i < |a| ==> 0 < a[i] as int < 256
  }

  function ToBytes(a: string): (s: seq<byte>)
    requires IsAddress(a)
    ensures |s| == |a| && IsText(s)
  {
    seq(|a|, i requires 0 <= i < |a| => a[i] as int)
  }

  function FromBytes(s: seq<byte>): (a: string)
    ensures |a| == |s|
  {
    seq(|s|, i requires 0 <= i < |s| => s[i] as char)
  }

  lemma AddressTrip(a: string)
    requires IsAddress(a)
    ensures FromBytes(ToBytes(a)) == a
  {
  }

  function RoleCode(r: Role): byte {
    match r
    case Standby => 0
    case Voter => 1
    case Spare => 2
  }

  // Encoding.

  predicate Encodable(c: Members) {
    |c| < U64 && forall i :: 0 <= i < |c| ==> c[i].id < U64 && IsAddress(c[i].address)
  }

  function PutServer(m: Member): seq<byte>
    requires IsAddress(m.address)
  {
    Le(m.id, 8) + (ToBytes(m.address) + [0] + [RoleCode(m.role)])
  }

  function PutServers(c: Members): seq<byte>
    requires Encodable(c)
  {
    if c == [] then [] else PutServer(c[0]) + PutServers(c[1..])
  }

  function Encode(c: Members): seq<byte>
    requires Encodable(c)
  {
    Le(ENCODING_FORMAT, 1) + (Le(|c|, 8) + PutServers(c))
  }

  method EncodeToBuf(c: Members) returns (out: seq<byte>)
    requires Encodable(c)
    ensures out == Encode(c)
  {
    hide PutServer;
    hide Le;
    out := Le(ENCODING_FORMAT, 1);
    out := out + Le(|c|, 8);
    ghost var head := out;
    assert c[0..] == c;
    for i := 0 to |c|
      invariant head + PutServers(c) == out + PutServers(c[i..])
    {
      assert c[i..][1..] == c[i + 1..];
      Assoc(out, PutServer(c[i]), PutServers(c[i + 1..]));
      out := out + PutServer(c[i]);
    }
    assert c[|c|..] == [];
    Assoc(Le(ENCODING_FORMAT, 1), Le(|c|, 8), PutServers(c));
  }

  // Decoding.

  /** A configuration; an error; or the program stops on an assertion, or reads past the
    * end of the buffer. */
  datatype Decoded = Fine(members: Members) | Malformed | Stops | PastEnd

  function GetString(s: seq<byte>): Read<seq<byte>> {
    var n := TextLength(s);
    if n == |s| then Parse else Got(s[..n], s[n + 1..])
  }

  function AddServer(c: Members, id: nat, address: string, code: nat): Decoded {
    if id == 0 then Stops
    else if code > 2 || AddError(c, id, address) != Ok then Malformed
    else Fine(c + [Member(id, address, if code == 0 then Standby else if code == 1 then Voter else Spare)])
  }

  function DecodeServers(s: seq<byte>, n: nat, c: Members): Decoded
    decreases n
  {
    if n == 0 then Fine(c) else
      var id := GetLe(s, 8);
      if !id.Got? then PastEnd else
        var address := GetString(id.rest);
        if !address.Got? then Malformed else
          var code := GetLe(address.rest, 1);
          if !code.Got? then PastEnd else
            var r := AddServer(c, id.value, FromBytes(address.value), code.value);
            if !r.Fine? then r else DecodeServers(code.rest, n - 1, r.members)
  }

  function Decode(s: seq<byte>): Decoded {
    var format := GetLe(s, 1);
    if !format.Got? then PastEnd
    else if format.value != ENCODING_FORMAT then Malformed
    else
      var n := GetLe(format.rest, 8);
      if !n.Got? then PastEnd else DecodeServers(n.rest, n.value, [])
  }

  method DecodeBuf(buf: seq<byte>) returns (r: Decoded)
    ensures r == Decode(buf)
  {
    hide GetLe;
    hide GetString;
    hide AddError;
    var format := GetLe(buf, 1);
    if !format.Got? {
      return PastEnd;
    }
    if format.value != ENCODING_FORMAT {
      return Malformed;
    }
    var n := GetLe(format.rest, 8);
    if !n.Got? {
      return PastEnd;
    }
    var rest := n.rest;
    var c := new Servers([]);
    for i := 0 to n.value
      invariant fresh(c) && c.live
      invariant DecodeServers(n.rest, n.value, []) == DecodeServers(rest, n.value - i, c.servers)
    {
      var id := GetLe(rest, 8);
      if !id.Got? {
        return PastEnd;
      }
      var address := GetString(id.rest);
      if !address.Got? {
        return Malformed;
      }
      var code := GetLe(address.rest, 1);
      if !code.Got? {
        return PastEnd;
      }
      if id.value == 0 {
        return Stops;
      }
      if code.value > 2 {
        return Malformed;
      }
      var e := c.Add(id.value, FromBytes(address.value),
                     if code.value == 0 then Standby else if code.value == 1 then Voter else Spare);
      if e != Ok {
        return Malformed;
      }
      rest := code.rest;
    }
    r := Fine(c.servers);
  }

  // Decoding undoes encoding.

  lemma ServerTrip(m: Member, c: Members, n: nat, rest: seq<byte>)
    requires 0 < m.id < U64 && IsAddress(m.address) && AddError(c, m.id, m.address) == Ok && n > 0
    ensures DecodeServers(PutServer(m) + rest, n, c) == DecodeServers(rest, n - 1, c + [m])
  {
    hide Le;
    hide GetLe;
    hide AddError;
    Widths();
    var a := ToBytes(m.address);
    var s2 := Le(RoleCode(m.role), 1) + rest;
    var s1 := a + ([0] + s2);
    GetPutLe(m.id, 8, s1);
    OneByte(RoleCode(m.role));
    assert PutServer(m) + rest == Le(m.id, 8) + s1;
    FirstZero(a, [0] + s2);
    assert s1[..|a|] == a && s1[|a| + 1..] == s2;
    AddressTrip(m.address);
    GetPutLe(RoleCode(m.role), 1, rest);
  }

  lemma OneByte(b: byte)
    ensures Le(b, 1) == [b]
  {
    assert Le(b / 256, 0) == [];
  }

  lemma NoneLeft(s: seq<byte>, c: Members)
    ensures DecodeServers(s, 0, c) == Fine(c)
  {
  }

  lemma {:induction false} ServersTrip(c: Members, k: nat, rest: seq<byte>)
    requires Distinct(c) && Encodable(c) && k <= |c|
    ensures DecodeServers(PutServers(c[k..]) + rest, |c| - k, c[..k]) == Fine(c)
    decreases |c| - k
  {
    hide PutServer;
    hide IsAddress;
    hide DecodeServers;
    hide AddError;
    if k == |c| {
      assert c[..k] == c;
      NoneLeft(PutServers(c[k..]) + rest, c);
    } else {
      AddErrorOk(c[..k], c[k].id, c[k].address);
      var more := PutServers(c[k + 1..]) + rest;
      assert c[k..][1..] == c[k + 1..];
      assert PutServers(c[k..]) + rest == PutServer(c[k]) + more;
      ServerTrip(c[k], c[..k], |c| - k, more);
      assert c[..k] + [c[k]] == c[..k + 1];
      ServersTrip(c, k + 1, rest);
    }
  }

  /** Every valid configuration is read back as it was, whatever follows it in the buffer. */
  lemma DecodeEncode(c: Members, fill: seq<byte>)
    requires Distinct(c) && Encodable(c)
    ensures Decode(Encode(c) + fill) == Fine(c)
  {
    hide Le;
    hide GetLe;
    hide DecodeServers;
    hide PutServers;
    Widths();
    var s := PutServers(c) + fill;
    assert Encode(c) + fill == Le(ENCODING_FORMAT, 1) + (Le(|c|, 8) + s);
    GetPutLe(ENCODING_FORMAT, 1, Le(|c|, 8) + s);
    GetPutLe(|c|, 8, s);
    ServersTrip(c, 0, fill);
    assert c[0..] == c && c[..0] == [];
  }
}
