/** Tuples of database values on the wire (src/tuple.c): a header of type codes, then the
  * values. Decoding returns what was encoded, in all three formats. */
module Tuple {
  import opened Bytes
  import opened Serialize

  const I63: int := 0x8000_0000_0000_0000

  datatype Format = Row | Params | Params32

  /** A value; a float is its 64 bits. */
  datatype Value =
    | Integer(integer: int)
    | Float(bits: nat)
    | Text(text: seq<byte>)
    | Blob(blob: seq<byte>)
    | Null(word: nat)
    | Unixtime(seconds: int)
    | Iso8601(date: seq<byte>)
    | Boolean(truth: nat)

  function Code(v: Value): (c: byte)
    ensures 0 < c < 12
  {
    match v
    case Integer(_) => 1
    case Float(_) => 2
    case Text(_) => 3
    case Blob(_) => 4
    case Null(_) => 5
    case Unixtime(_) => 9
    case Iso8601(_) => 10
    case Boolean(_) => 11
  }

  /** The value, or the padded length of a blob, fits its 64 bits, and a string has no zero
    * byte. */
  predicate Fits(v: Value) {
    match v
    case Integer(i) => -I63 <= i < I63
    case Float(bits) => bits < U64
    case Text(t) => IsText(t)
    case Blob(b) => |b| <= U64 - 8
    case Null(w) => w < U64
    case Unixtime(i) => -I63 <= i < I63
    case Iso8601(t) => IsText(t)
    case Boolean(w) => w < U64
  }

  // One value.

  function FromSigned(i: int): nat
    requires -I63 <= i < I63
  {
    if i < 0 then i + U64 else i
  }

  function ToSigned(n: nat): int {
    if n < I63 then n else n - U64
  }

  /** A value, and what the buffer held where a blob is padded. */
  datatype Item = Item(value: Value, fill: seq<byte>)

  predicate ItemOk(x: Item) {
    Fits(x.value) && (x.value.Blob? ==> |x.fill| == Pad64(|x.value.blob|) - |x.value.blob|)
  }

  function PutValue(x: Item): seq<byte>
    requires ItemOk(x)
  {
    match x.value
    case Integer(i) => Le(FromSigned(i), 8)
    case Float(bits) => Le(bits, 8)
    case Text(t) => PutText(t)
    case Blob(b) => PutBlob(b, x.fill)
    case Null(w) => Le(w, 8)
    case Unixtime(i) => Le(FromSigned(i), 8)
    case Iso8601(t) => PutText(t)
    case Boolean(w) => Le(w, 8)
  }

  /** There is no case for the time code: it cannot be read. */
  function GetValue(code: nat, s: seq<byte>): Read<Value> {
    if code in {1, 2, 5, 11} then
      var r := GetLe(s, 8);
      if !r.Got? then Parse
      else Got(if code == 1 then Integer(ToSigned(r.value)) else if code == 2 then Float(r.value)
               else if code == 5 then Null(r.value) else Boolean(r.value), r.rest)
    else if code in {3, 10} then
      var r := GetText(s);
      if r.Parse? then Parse else
        var v := if code == 3 then Text(r.value) else Iso8601(r.value);
        if r.Past? then Past(v) else Got(v, r.rest)
    else if code == 4 then
      var r := GetBlob(s);
      if r.Got? then Got(Blob(r.value), r.rest) else if r.Overlong? then Overlong(r.rest) else Parse
    else Parse
  }

  /** A value is read back exactly unless it is a time, which is refused. */
  lemma GetPutValue(x: Item, rest: seq<byte>)
    requires ItemOk(x)
    ensures GetValue(Code(x.value), PutValue(x) + rest) == if x.value.Unixtime? then Parse else Got(x.value, rest)
  {
    Widths();
    match x.value
    case Integer(i) => GetPutLe(FromSigned(i), 8, rest);
    case Float(bits) => GetPutLe(bits, 8, rest);
    case Text(t) => GetPutText(t, rest);
    case Blob(b) => GetPutBlob(b, x.fill, rest);
    case Null(w) => GetPutLe(w, 8, rest);
    case Unixtime(i) =>
    case Iso8601(t) => GetPutText(t, rest);
    case Boolean(w) => GetPutLe(w, 8, rest);
  }

  // The header.

  function HeaderSize(n: nat, f: Format): (size: nat)
    ensures f == Row ==> size % 8 == 0 && 2 * size >= n
    ensures f == Params ==> (size + 1) % 8 == 0 && size >= n
    ensures f == Params32 ==> (size + 4) % 8 == 0 && size >= n
  {
    match f
    case Row => Pad64((n + 1) / 2)
    case Params => Pad64(n + 1) - 1
    case Params32 => Pad64(n + 4) - 4
  }

  function CodeAt(codes: seq<byte>, i: nat): byte {
    if i < |codes| then codes[i] else 0
  }

  predicate CodesOk(codes: seq<byte>) {
    forall i :: 0 <= i < |codes| ==> codes[i] < 16
  }

  function HeaderByte(codes: seq<byte>, f: Format, k: nat): byte
    requires CodesOk(codes)
  {
    if f == Row then CodeAt(codes, 2 * k) + 16 * CodeAt(codes, 2 * k + 1) else CodeAt(codes, k)
  }

  /** The header for n values, when the codes of some of them have been set. */
  function Header(codes: seq<byte>, n: nat, f: Format): (h: seq<byte>)
    requires CodesOk(codes)
    ensures |h| == HeaderSize(n, f)
  {
    seq(HeaderSize(n, f), k requires 0 <= k => HeaderByte(codes, f, k))
  }

  function GetCode(header: seq<byte>, f: Format, i: nat): byte
    requires if f == Row then i / 2 < |header| else i < |header|
  {
    if f == Row then (if i % 2 == 0 then header[i / 2] % 16 else header[i / 2] / 16) else header[i]
  }

  lemma GetHeaderCode(codes: seq<byte>, n: nat, f: Format, i: nat)
    requires CodesOk(codes) && i < |codes| <= n
    ensures if f == Row then i / 2 < HeaderSize(n, f) else i < HeaderSize(n, f)
    ensures GetCode(Header(codes, n, f), f, i) == codes[i]
  {
    if f == Row {
      var k := i / 2;
      assert i == 2 * k || i == 2 * k + 1;
      assert HeaderByte(codes, f, k) == CodeAt(codes, 2 * k) + 16 * CodeAt(codes, 2 * k + 1);
    }
  }

  // A tuple.

  predicate ItemsOk(xs: seq<Item>) {
    forall i :: 0 <= i < |xs| ==> ItemOk(xs[i])
  }

  function Codes(xs: seq<Item>): (codes: seq<byte>)
    ensures |codes| == |xs| && CodesOk(codes)
  {
    seq(|xs|, i requires 0 <= i < |xs| => Code(xs[i].value))
  }

  function Values(xs: seq<Item>): (vs: seq<Value>)
    ensures |vs| == |xs|
  {
    seq(|xs|, i requires 0 <= i < |xs| => xs[i].value)
  }

  function PutValues(xs: seq<Item>): seq<byte>
    requires ItemsOk(xs)
  {
    if xs == [] then [] else PutValues(xs[..|xs| - 1]) + PutValue(xs[|xs| - 1])
  }

  function Count(n: nat, f: Format): seq<byte> {
    match f
    case Row => []
    case Params => Le(n, 1)
    case Params32 => Le(n, 4)
  }

  function Encode(xs: seq<Item>, f: Format): seq<byte>
    requires ItemsOk(xs)
  {
    Count(|xs|, f) + Header(Codes(xs), |xs|, f) + PutValues(xs)
  }

  lemma WholeWords(a: nat, b: nat)
    requires a % 8 == 0 && b % 8 == 0
    ensures (a + b) % 8 == 0
  {
  }

  lemma {:induction false} ValuesAligned(xs: seq<Item>)
    requires ItemsOk(xs)
    ensures |PutValues(xs)| % 8 == 0
  {
    if xs != [] {
      var n := |xs| - 1;
      ValuesAligned(xs[..n]);
      assert ItemOk(xs[n]) && |PutValue(xs[n])| % 8 == 0;
      WholeWords(|PutValues(xs[..n])|, |PutValue(xs[n])|);
    }
  }

  /** Every tuple takes up whole words. */
  lemma Aligned(xs: seq<Item>, f: Format)
    requires ItemsOk(xs)
    ensures |Encode(xs, f)| % 8 == 0
  {
    hide PutValues;
    hide Header;
    ValuesAligned(xs);
    var head := |Count(|xs|, f)| + HeaderSize(|xs|, f);
    assert head % 8 == 0;
    WholeWords(head, |PutValues(xs)|);
  }

  /** A string that is not padded out leaves the cursor past the end of the buffer: that is
    * noticed only by reading on, so a tuple that ends with it is taken as it is. A blob of a
    * length that no buffer has is taken as well. */
  function DecodeValues(header: seq<byte>, f: Format, n: nat, i: nat, s: seq<byte>): Read<seq<Value>>
    requires i <= n && |header| == HeaderSize(n, f)
    decreases n - i
  {
    if i == n then Got([], s) else
      assert f == Row ==> i / 2 < |header|;
      var r := GetValue(GetCode(header, f, i), s);
      if r.Parse? then Parse
      else if r.Past? then Past([r.value])
      else if r.Overlong? then Overlong(r.rest)
      else
        var rs := DecodeValues(header, f, n, i + 1, r.rest);
        match rs
        case Got(values, rest) => Got([r.value] + values, rest)
        case Past(values) => Past([r.value] + values)
        case Parse => Parse
        case Overlong(rest) => Overlong(rest)
  }

  /** In row format the number of values is known; otherwise it comes first. */
  function Decode(s: seq<byte>, n: nat, f: Format): Read<seq<Value>> {
    var r := if f == Row then Got(n, s) else GetLe(s, if f == Params then 1 else 4);
    if !r.Got? || HeaderSize(r.value, f) > |r.rest| then Parse
    else
      var h := HeaderSize(r.value, f);
      DecodeValues(r.rest[..h], f, r.value, 0, r.rest[h..])
  }

  predicate NoTimes(xs: seq<Item>) {
    forall i :: 0 <= i < |xs| ==> !xs[i].value.Unixtime?
  }

  lemma {:induction false} PutValuesFrom(xs: seq<Item>, i: nat)
    requires ItemsOk(xs) && i < |xs|
    ensures PutValues(xs[i..]) == PutValue(xs[i]) + PutValues(xs[i + 1..])
    decreases |xs| - i
  {
    hide PutValue;
    hide ItemOk;
    PutValuesCons(xs[i], xs[i + 1..]);
    assert [xs[i]] + xs[i + 1..] == xs[i..];
  }

  lemma {:induction false} PutValuesCons(x: Item, xs: seq<Item>)
    requires ItemOk(x) && ItemsOk(xs)
    ensures ItemsOk([x] + xs) && PutValues([x] + xs) == PutValue(x) + PutValues(xs)
  {
    hide PutValue;
    hide ItemOk;
    if xs == [] {
      assert [x] + xs == [x] && [x][..0] == [];
    } else {
      var n := |xs| - 1;
      PutValuesCons(x, xs[..n]);
      assert ([x] + xs)[..n + 1] == [x] + xs[..n];
    }
  }

  lemma ItemCode(xs: seq<Item>, f: Format, i: nat)
    requires i < |xs|
    ensures if f == Row then i / 2 < HeaderSize(|xs|, f) else i < HeaderSize(|xs|, f)
    ensures GetCode(Header(Codes(xs), |xs|, f), f, i) == Code(xs[i].value)
  {
    hide GetCode;
    hide Header;
    GetHeaderCode(Codes(xs), |xs|, f, i);
  }

  lemma NextItem(xs: seq<Item>, i: nat)
    requires i < |xs|
    ensures Values(xs)[i..] == [xs[i].value] + Values(xs)[i + 1..]
    ensures NoTimes(xs[i..]) <==> !xs[i].value.Unixtime? && NoTimes(xs[i + 1..])
  {
    assert xs[i..] == [xs[i]] + xs[i + 1..];
  }

  lemma {:induction false} ValuesTrip(xs: seq<Item>, f: Format, i: nat, rest: seq<byte>)
    requires ItemsOk(xs) && i <= |xs|
    ensures var r := DecodeValues(Header(Codes(xs), |xs|, f), f, |xs|, i, PutValues(xs[i..]) + rest);
            r == if NoTimes(xs[i..]) then Got(Values(xs)[i..], rest) else Parse
    decreases |xs| - i
  {
    hide GetValue;
    hide PutValue;
    hide Header;
    hide Codes;
    hide Code;
    hide GetCode;
    hide ItemOk;
    hide Values;
    hide NoTimes;
    if i == |xs| {
      assert PutValues(xs[i..]) + rest == rest;
      Nothing(xs);
    } else {
      ValuesTrip(xs, f, i + 1, rest);
      PutValuesFrom(xs, i);
      ItemCode(xs, f, i);
      var more := PutValues(xs[i + 1..]) + rest;
      assert PutValues(xs[i..]) + rest == PutValue(xs[i]) + more;
      GetPutValue(xs[i], more);
      NextItem(xs, i);
    }
  }

  lemma Nothing(xs: seq<Item>)
    ensures NoTimes(xs[|xs|..]) && Values(xs)[|xs|..] == []
  {
  }

  /** A tuple is read back exactly when it holds no time value; otherwise it is refused. */
  lemma TupleTrip(xs: seq<Item>, f: Format, rest: seq<byte>)
    requires ItemsOk(xs) && (f == Params ==> |xs| < 256) && (f == Params32 ==> |xs| < U32)
    ensures Decode(Encode(xs, f) + rest, |xs|, f) == if NoTimes(xs) then Got(Values(xs), rest) else Parse
  {
    hide DecodeValues;
    hide PutValues;
    hide Header;
    hide GetLe;
    hide Codes;
    hide Values;
    hide NoTimes;
    hide ItemOk;
    hide Count;
    var header, body := Header(Codes(xs), |xs|, f), PutValues(xs) + rest;
    Parts(Count(|xs|, f), header, PutValues(xs), rest);
    CountTrip(|xs|, f, header + body);
    ValuesTrip(xs, f, 0, rest);
    assert xs[0..] == xs && Values(xs)[0..] == Values(xs);
  }

  lemma Parts(count: seq<byte>, header: seq<byte>, values: seq<byte>, rest: seq<byte>)
    ensures count + header + values + rest == count + (header + (values + rest))
    ensures (header + (values + rest))[..|header|] == header && (header + (values + rest))[|header|..] == values + rest
  {
  }

  lemma CountTrip(n: nat, f: Format, s: seq<byte>)
    requires (f == Params ==> n < 256) && (f == Params32 ==> n < U32)
    ensures f == Row ==> Count(n, f) + s == s
    ensures f != Row ==> GetLe(Count(n, f) + s, if f == Params then 1 else 4) == Got(n, s)
  {
    hide GetLe;
    Widths();
    if f == Row {
      assert [] + s == s;
    } else {
      GetPutLe(n, if f == Params then 1 else 4, s);
    }
  }
}
