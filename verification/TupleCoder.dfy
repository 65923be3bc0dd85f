/** The tuple encoder and decoder as the program runs them (src/tuple.c): the encoder goes
  * back to set the type code of every value it appends, the decoder moves a cursor. */
module TupleCoder {
  import opened Bytes
  import opened Serialize
  import opened Tuple

  class Encoder {
    const n: nat
    const format: Format
    const header: nat
    var buffer: seq<byte>
    var i: nat

    /** What the buffer held before, and the values written so far. */
    ghost const start: seq<byte>
    ghost var items: seq<Item>

    ghost predicate Valid()
      reads this
    {
      && i == |items| <= n && ItemsOk(items)
      && header == |start| + |Count(n, format)|
      && buffer == start + Count(n, format) + Header(Codes(items), n, format) + PutValues(items)
    }

    constructor (buffer: seq<byte>, n: nat, format: Format)
      requires (format == Params ==> n < 256) && (format == Params32 ==> n < U32)
      ensures Valid() && items == [] && start == buffer && this.n == n && this.format == format
    {
      var count := if format == Params then Le(n, 1) else if format == Params32 then Le(n, 4) else [];
      this.n, this.format := n, format;
      header := |buffer + count|;
      this.buffer := buffer + count + Zeros(HeaderSize(n, format));
      i := 0;
      start, items := buffer, [];
      new;
      assert Zeros(HeaderSize(n, format)) == Header(Codes([]), n, format);
    }

    /** Set the type code of the next value: a half or a whole byte of the header. */
    method SetType(code: byte)
      requires Valid() && i < n && code < 16
      modifies this`buffer
      ensures buffer == start + Count(n, format) + Header(Codes(items) + [code], n, format) + PutValues(items)
    {
      hide PutValues;
      ghost var codes := Codes(items);
      CodeSet(codes, code, n, format);
      ghost var before, body := start + Count(n, format), PutValues(items);
      if format == Row {
        var slot := header + i / 2;
        ghost var h := Header(codes, n, format);
        assert buffer[slot] == h[i / 2];
        if i % 2 == 0 {
          buffer := buffer[slot := code];
        } else {
          assert buffer[slot] < 16;
          buffer := buffer[slot := buffer[slot] + 16 * code];
        }
        assert buffer == before + h[i / 2 := buffer[slot]] + body;
      } else {
        ghost var h := Header(codes, n, format);
        buffer := buffer[header + i := code];
        assert buffer == before + h[i := code] + body;
      }
    }

    /** Append a value. */
    method Next(x: Item)
      requires Valid() && i < n && ItemOk(x)
      modifies this
      ensures Valid() && items == old(items) + [x]
      ensures i == n ==> buffer == start + Encode(items, format)
    {
      hide PutValue;
      hide PutValues;
      hide Header;
      hide HeaderSize;
      hide Codes;
      hide ItemOk;
      SetType(Code(x.value));
      ItemsSnoc(items, x);
      Assoc(start + Count(n, format) + Header(Codes(items + [x]), n, format), PutValues(items), PutValue(x));
      buffer := buffer + PutValue(x);
      items, i := items + [x], i + 1;
      AssocThree(start, Count(n, format), Header(Codes(items), n, format), PutValues(items));
    }
  }

  lemma ItemsSnoc(items: seq<Item>, x: Item)
    requires ItemsOk(items) && ItemOk(x)
    ensures ItemsOk(items + [x]) && PutValues(items + [x]) == PutValues(items) + PutValue(x)
    ensures Codes(items + [x]) == Codes(items) + [Code(x.value)]
  {
    hide PutValue;
    hide ItemOk;
    var all := items + [x];
    assert all[..|all| - 1] == items;
  }

  lemma AssocThree(a: seq<byte>, b: seq<byte>, c: seq<byte>, d: seq<byte>)
    ensures a + b + c + d == a + (b + c + d)
  {
  }

  /** Setting one code changes one byte of the header. */
  lemma CodeSet(codes: seq<byte>, code: byte, n: nat, f: Format)
    requires CodesOk(codes) && |codes| < n && code < 16
    ensures CodesOk(codes + [code])
    ensures var i, h := |codes|, Header(codes, n, f);
            if f == Row then
              && i / 2 < |h| && (i % 2 == 1 ==> h[i / 2] < 16)
              && Header(codes + [code], n, f) == h[i / 2 := if i % 2 == 0 then code else h[i / 2] + 16 * code]
            else i < |h| && Header(codes + [code], n, f) == h[i := code]
  {
    var i := |codes|;
    var more := codes + [code];
    forall k: nat ensures CodeAt(more, k) == if k == i then code else CodeAt(codes, k) {}
    if f == Row {
      var j := i / 2;
      assert i == 2 * j || i == 2 * j + 1;
      forall k: nat | k != j ensures HeaderByte(more, f, k) == HeaderByte(codes, f, k) {
        assert 2 * k != i && 2 * k + 1 != i;
      }
    }
  }

  class Decoder {
    const cursor: Cursor
    const format: Format
    var header: seq<byte>
    var n: nat
    var i: nat

    ghost predicate Valid()
      reads this, cursor
    {
      cursor.Valid() && i <= n && |header| == HeaderSize(n, format)
    }

    constructor (cursor: Cursor, format: Format)
      ensures this.cursor == cursor && this.format == format
    {
      this.cursor, this.format := cursor, format;
      header, n, i := [], 0, 0;
    }

    /** Read the number of values, unless it is known, and skip the header. */
    method Init(columns: nat) returns (ok: bool)
      requires cursor.Valid() && (format == Row ==> columns > 0)
      modifies this, cursor
      ensures ok ==> Valid() && i == 0 && Decode(old(cursor.Rest()), columns, format) == DecodeValues(header, format, n, 0, cursor.Rest())
      ensures !ok ==> Decode(old(cursor.Rest()), columns, format) == Parse
    {
      hide DecodeValues;
      hide HeaderSize;
      hide FromLe;
      ok, n := true, columns;
      if format == Params {
        ok, n := cursor.Uint(1);
      } else if format == Params32 {
        ok, n := cursor.Uint(4);
      }
      if !ok {
        return;
      }
      i := 0;
      var size := HeaderSize(n, format);
      if size > cursor.cap {
        return false;
      }
      header := cursor.Skip(size);
    }

    method Next() returns (ok: bool, value: Value)
      requires Valid() && i < n
      modifies this`i, cursor
      ensures var code := GetCode(header, format, old(i));
              var r := GetValue(code, old(cursor.Rest()));
              && (ok <==> r != Parse) && (ok ==> i == old(i) + 1)
              && (r.Got? || r.Past? ==> value == r.value)
              && (r.Got? || r.Overlong? ==> Valid() && cursor.Rest() == r.rest)
    {
      var code := GetCode(header, format, i);
      value := Null(0);
      if code in {1, 2, 5, 11} {
        var w;
        ok, w := cursor.Uint(8);
        value := if code == 1 then Integer(ToSigned(w)) else if code == 2 then Float(w) else if code == 5 then Null(w) else Boolean(w);
      } else if code in {3, 10} {
        var t;
        ok, t := cursor.Text();
        value := if code == 3 then Text(t) else Iso8601(t);
      } else if code == 4 {
        var b, len;
        ok, b, len := cursor.Blob();
        value := Blob(b);
      } else {
        ok := false;
      }
      if ok {
        i := i + 1;
      }
    }
  }
}
