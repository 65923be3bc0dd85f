/** The rows of a query on the wire: what the server writes batch by batch (src/query.c) and
  * what the client reads (src/client/protocol.c). */
module Rows {
  import opened Bytes
  import opened Serialize
  import T = Tuple

  const ROWS_PART: nat := 0xeeee_eeee_eeee_eeee
  const ROWS_DONE: nat := 0xffff_ffff_ffff_ffff

  type Name = seq<byte>

  predicate IsMarker(w: nat) {
    w == ROWS_PART || w == ROWS_DONE
  }

  // Writing.

  function PutNames(names: seq<Name>): seq<byte> {
    if names == [] then [] else PutText(names[0]) + PutNames(names[1..])
  }

  predicate RowsOk(rows: seq<seq<T.Item>>, columns: nat) {
    forall i :: 0 <= i < |rows| ==> |rows[i]| == columns && T.ItemsOk(rows[i])
  }

  function PutRows(rows: seq<seq<T.Item>>, columns: nat): seq<byte>
    requires RowsOk(rows, columns)
  {
    if rows == [] then [] else T.Encode(rows[0], T.Row) + PutRows(rows[1..], columns)
  }

  function Message(names: seq<Name>, rows: seq<seq<T.Item>>, done: bool): seq<byte>
    requires RowsOk(rows, |names|)
  {
    Le(|names|, 8) + (PutNames(names) + (PutRows(rows, |names|) + Le(if done then ROWS_DONE else ROWS_PART, 8)))
  }

  method WriteNames(names: seq<Name>) returns (out: seq<byte>)
    ensures out == PutNames(names)
  {
    hide PutText;
    out := [];
    assert names[0..] == names;
    for i := 0 to |names|
      invariant PutNames(names) == out + PutNames(names[i..])
    {
      assert names[i..][1..] == names[i + 1..];
      Assoc(out, PutText(names[i]), PutNames(names[i + 1..]));
      out := out + PutText(names[i]);
    }
    assert names[|names|..] == [];
  }

  /** How many rows fit a batch that has used some bytes: rows are added until a memory page
    * is full or none is left. */
  function Fitting(used: nat, rows: seq<seq<T.Item>>, columns: nat, pageSize: nat): (n: nat)
    requires RowsOk(rows, columns)
    ensures n <= |rows|
    decreases |rows|
  {
    if used >= pageSize || rows == [] then 0
    else 1 + Fitting(used + |T.Encode(rows[0], T.Row)|, rows[1..], columns, pageSize)
  }

  /** The batch ends because the page is full, whether or not rows are left. */
  predicate Fills(used: nat, rows: seq<seq<T.Item>>, columns: nat, pageSize: nat)
    requires RowsOk(rows, columns)
    decreases |rows|
  {
    used >= pageSize || (rows != [] && Fills(used + |T.Encode(rows[0], T.Row)|, rows[1..], columns, pageSize))
  }

  /** Write one batch after what the buffer holds already. */
  method Batch(buffer0: seq<byte>, names: seq<Name>, rows: seq<seq<T.Item>>, pageSize: nat)
    returns (buffer: seq<byte>, n: nat, more: bool)
    requires RowsOk(rows, |names|)
    ensures var used := |buffer0| + 8 + |PutNames(names)|;
            n == Fitting(used, rows, |names|, pageSize) && (more <==> Fills(used, rows, |names|, pageSize))
    ensures buffer == buffer0 + (Le(|names|, 8) + PutNames(names)) + PutRows(rows[..n], |names|)
    ensures more ==> |buffer| >= pageSize
    ensures !more ==> n == |rows|
  {
    hide T.Encode;
    hide T.ItemsOk;
    hide Le;
    hide PutNames;
    var head := WriteNames(names);
    buffer := buffer0 + (Le(|names|, 8) + head);
    ghost var start := buffer;
    n := 0;
    assert rows[..0] == [] && rows[0..] == rows;
    while true
      invariant n <= |rows| && buffer == start + PutRows(rows[..n], |names|)
      invariant Fitting(|start|, rows, |names|, pageSize) == n + Fitting(|buffer|, rows[n..], |names|, pageSize)
      invariant Fills(|start|, rows, |names|, pageSize) <==> Fills(|buffer|, rows[n..], |names|, pageSize)
      decreases |rows| - n
    {
      if |buffer| >= pageSize {
        more := true;
        return;
      }
      if n == |rows| {
        more := false;
        return;
      }
      PutRowsSnoc(rows[..n], rows[n], |names|);
      assert rows[..n] + [rows[n]] == rows[..n + 1] && rows[n..][1..] == rows[n + 1..];
      Assoc(start, PutRows(rows[..n], |names|), T.Encode(rows[n], T.Row));
      buffer := buffer + T.Encode(rows[n], T.Row);
      n := n + 1;
    }
  }

  lemma {:induction false} PutRowsSnoc(rows: seq<seq<T.Item>>, row: seq<T.Item>, columns: nat)
    requires RowsOk(rows, columns) && |row| == columns && T.ItemsOk(row)
    ensures RowsOk(rows + [row], columns) && PutRows(rows + [row], columns) == PutRows(rows, columns) + T.Encode(row, T.Row)
  {
    hide T.Encode;
    hide T.ItemsOk;
    if rows == [] {
      assert rows + [row] == [row] && [row][1..] == [];
    } else {
      PutRowsSnoc(rows[1..], row, columns);
      assert (rows + [row])[1..] == rows[1..] + [row];
    }
  }

  // Reading.

  /** What the client makes of a message: names, rows and whether it is the last one; an
    * error; a string that is not padded out, after which the client reads past the end; or
    * the client stops, because the number of columns does not fit into 32 bits or there is
    * no memory for a blob of a length that no buffer has. */
  datatype Received =
    | Received(names: seq<Name>, rows: seq<seq<T.Value>>, done: bool)
    | ProtoError
    | PastEnd
    | Stops

  function GetNames(s: seq<byte>, n: nat): Read<seq<Name>>
    decreases n
  {
    if n == 0 then Got([], s) else
      var r := GetText(s);
      if r.Past? then Past([r.value])
      else if !r.Got? then Parse
      else
        var rs := GetNames(r.rest, n - 1);
        if rs.Got? then Got([r.value] + rs.value, rs.rest)
        else if rs.Past? then Past([r.value] + rs.value)
        else Parse
  }

  /** Rows up to a marker: a word that is not one starts a row. */
  function GetRows(s: seq<byte>, columns: nat): (r: Received)
    requires columns > 0
    ensures r.Received? ==> r.names == []
    decreases |s|
  {
    var w := GetLe(s, 8);
    if !w.Got? then ProtoError
    else if IsMarker(w.value) then Received([], [], w.value == ROWS_DONE)
    else
      var r := T.Decode(s, columns, T.Row);
      if r.Parse? then ProtoError
      else if r.Past? then PastEnd
      else if r.Overlong? then Stops
      else
        RowShrinks(s, columns);
        var rs := GetRows(r.rest, columns);
        if rs.Received? then Received([], [r.value] + rs.rows, rs.done) else rs
  }

  /** Without columns there can be no row. */
  function NoColumns(s: seq<byte>): Received {
    var w := GetLe(s, 8);
    if w.Got? && IsMarker(w.value) then Received([], [], w.value == ROWS_DONE) else ProtoError
  }

  function Recv(s: seq<byte>): Received {
    var n := GetLe(s, 8);
    if !n.Got? then ProtoError
    else if n.value >= U32 then Stops
    else if n.value == 0 then NoColumns(n.rest)
    else
      var names := GetNames(n.rest, n.value);
      if names.Past? then PastEnd
      else if !names.Got? then ProtoError
      else
        var rows := GetRows(names.rest, n.value);
        if rows.Received? then Received(names.value, rows.rows, rows.done) else rows
  }

  method RecvRows(s: seq<byte>) returns (r: Received)
    ensures r == Recv(s)
  {
    hide GetLe;
    hide GetNames;
    hide GetRows;
    var n := GetLe(s, 8);
    if !n.Got? {
      return ProtoError;
    }
    if n.value >= U32 {
      return Stops;
    }
    if n.value == 0 {
      return NoColumns(n.rest);
    }
    var names := ReadNames(n.rest, n.value);
    if names.Past? {
      return PastEnd;
    }
    if !names.Got? {
      return ProtoError;
    }
    r := ReadRows(names.rest, n.value);
    if r.Received? {
      r := r.(names := names.value);
    }
  }

  method ReadNames(s: seq<byte>, n: nat) returns (r: Read<seq<Name>>)
    ensures r == GetNames(s, n)
  {
    hide GetText;
    var names: seq<Name>, rest := [], s;
    assert GetNames(s, n).Got? || GetNames(s, n).Past? ==> [] + GetNames(s, n).value == GetNames(s, n).value;
    for i := 0 to n
      invariant Onward(GetNames(s, n), names, GetNames(rest, n - i))
    {
      var t := GetText(rest);
      if t.Past? {
        return Past(names + [t.value]);
      }
      if !t.Got? {
        return Parse;
      }
      OnwardNext(GetNames(s, n), names, t.value, GetNames(rest, n - i), GetNames(t.rest, n - i - 1));
      names, rest := names + [t.value], t.rest;
    }
    assert names + [] == names;
    r := Got(names, rest);
  }

  /** Reading all is reading some, then the rest. */
  ghost predicate Onward(all: Read<seq<Name>>, some: seq<Name>, left: Read<seq<Name>>) {
    if left.Got? then all == Got(some + left.value, left.rest)
    else if left.Past? then all == Past(some + left.value)
    else all == left
  }

  lemma OnwardNext(all: Read<seq<Name>>, some: seq<Name>, next: Name, left: Read<seq<Name>>, left': Read<seq<Name>>)
    requires Onward(all, some, left) && Onward(left, [next], left')
    ensures Onward(all, some + [next], left')
  {
    if left'.Got? || left'.Past? {
      assert some + ([next] + left'.value) == some + [next] + left'.value;
    }
  }

  method ReadRows(s: seq<byte>, columns: nat) returns (r: Received)
    requires columns > 0
    ensures r == GetRows(s, columns)
  {
    hide GetLe;
    hide T.Decode;
    var rows: seq<seq<T.Value>>, rest := [], s;
    assert GetRows(s, columns).Received? ==> [] + GetRows(s, columns).rows == GetRows(s, columns).rows;
    while true
      invariant Further(GetRows(s, columns), rows, GetRows(rest, columns))
      decreases |rest|
    {
      var w := GetLe(rest, 8);
      if !w.Got? {
        return ProtoError;
      }
      if IsMarker(w.value) {
        assert rows + [] == rows;
        return Received([], rows, w.value == ROWS_DONE);
      }
      var row := T.Decode(rest, columns, T.Row);
      if row.Parse? {
        return ProtoError;
      }
      if row.Past? {
        return PastEnd;
      }
      if row.Overlong? {
        return Stops;
      }
      RowShrinks(rest, columns);
      FurtherNext(GetRows(s, columns), rows, row.value, GetRows(rest, columns), GetRows(row.rest, columns));
      rows, rest := rows + [row.value], row.rest;
    }
  }

  ghost predicate Further(all: Received, some: seq<seq<T.Value>>, left: Received) {
    if left.Received? then all == Received([], some + left.rows, left.done) else all == left
  }

  lemma FurtherNext(all: Received, some: seq<seq<T.Value>>, next: seq<T.Value>, left: Received, left': Received)
    requires Further(all, some, left) && Further(left, [next], left')
    ensures Further(all, some + [next], left')
  {
    if left'.Received? {
      assert some + ([next] + left'.rows) == some + [next] + left'.rows;
    }
  }

  lemma ValueShrinks(code: nat, s: seq<byte>)
    ensures var r := T.GetValue(code, s); r.Got? ==> |r.rest| <= |s|
  {
  }

  lemma {:induction false} ValuesShrink(header: seq<byte>, f: T.Format, n: nat, i: nat, s: seq<byte>)
    requires i <= n && |header| == T.HeaderSize(n, f)
    ensures var r := T.DecodeValues(header, f, n, i, s); r.Got? ==> |r.rest| <= |s|
    decreases n - i
  {
    hide T.GetValue;
    hide T.GetCode;
    if i < n {
      assert f == T.Row ==> i / 2 < |header|;
      var r := T.GetValue(T.GetCode(header, f, i), s);
      ValueShrinks(T.GetCode(header, f, i), s);
      if r.Got? {
        ValuesShrink(header, f, n, i + 1, r.rest);
      }
    }
  }

  lemma RowShrinks(s: seq<byte>, columns: nat)
    requires columns > 0
    ensures var r := T.Decode(s, columns, T.Row); r.Got? ==> |r.rest| < |s|
  {
    hide T.DecodeValues;
    var h := T.HeaderSize(columns, T.Row);
    if h <= |s| {
      ValuesShrink(s[..h], T.Row, columns, 0, s[h..]);
    }
  }

  // Reading undoes writing.

  lemma {:induction false} NamesTrip(names: seq<Name>, rest: seq<byte>)
    requires forall i :: 0 <= i < |names| ==> IsText(names[i])
    ensures GetNames(PutNames(names) + rest, |names|) == Got(names, rest)
  {
    hide GetText;
    hide PutText;
    hide IsText;
    if names == [] {
      assert PutNames(names) + rest == rest;
    } else {
      NamesTrip(names[1..], rest);
      var more := PutNames(names[1..]) + rest;
      GetPutText(names[0], more);
      assert PutNames(names) + rest == PutText(names[0]) + more;
      assert [names[0]] + names[1..] == names;
    }
  }

  lemma FirstCode(row: seq<T.Item>)
    requires row != [] && T.ItemsOk(row)
    ensures var s := T.Encode(row, T.Row); |s| >= 8 && s[0] % 16 == T.Code(row[0].value)
  {
    hide T.PutValues;
    hide T.ItemsOk;
    hide T.Code;
    var codes := T.Codes(row);
    var h := T.Header(codes, |row|, T.Row);
    assert |h| >= 8;
    assert T.Encode(row, T.Row)[0] == h[0] == T.HeaderByte(codes, T.Row, 0);
  }

  lemma FirstByte(s: seq<byte>)
    requires s != []
    ensures FromLe(s) % 16 == s[0] % 16
  {
    var t := FromLe(s[1..]);
    assert FromLe(s) == s[0] + 16 * (16 * t);
  }

  /** The first word of a row is not a marker: its lowest half byte is a type code. */
  lemma RowIsNoMarker(row: seq<T.Item>, rest: seq<byte>)
    requires row != [] && T.ItemsOk(row)
    ensures var w := GetLe(T.Encode(row, T.Row) + rest, 8); w.Got? && !IsMarker(w.value)
  {
    hide T.Encode;
    hide T.ItemsOk;
    hide FromLe;
    FirstCode(row);
    var s := T.Encode(row, T.Row) + rest;
    FirstByte(s[..8]);
  }

  function RowValues(rows: seq<seq<T.Item>>): (vs: seq<seq<T.Value>>)
    ensures |vs| == |rows|
  {
    seq(|rows|, i requires 0 <= i < |rows| => T.Values(rows[i]))
  }

  predicate NoTimes(rows: seq<seq<T.Item>>) {
    forall i :: 0 <= i < |rows| ==> T.NoTimes(rows[i])
  }

  lemma {:induction false} GetPutRows(rows: seq<seq<T.Item>>, columns: nat, done: bool)
    requires RowsOk(rows, columns) && columns > 0
    ensures GetRows(PutRows(rows, columns) + Le(if done then ROWS_DONE else ROWS_PART, 8), columns)
            == if NoTimes(rows) then Received([], RowValues(rows), done) else ProtoError
  {
    hide T.Encode;
    hide T.Decode;
    hide T.ItemsOk;
    hide T.NoTimes;
    hide T.Values;
    hide Le;
    var end := Le(if done then ROWS_DONE else ROWS_PART, 8);
    if rows == [] {
      Widths();
      GetPutLe(if done then ROWS_DONE else ROWS_PART, 8, []);
      assert PutRows(rows, columns) + end == end + [];
    } else {
      hide GetLe;
      GetPutRows(rows[1..], columns, done);
      var more := PutRows(rows[1..], columns) + end;
      assert PutRows(rows, columns) + end == T.Encode(rows[0], T.Row) + more;
      RowIsNoMarker(rows[0], more);
      T.TupleTrip(rows[0], T.Row, more);
      NextRow(rows);
    }
  }

  lemma NextRow(rows: seq<seq<T.Item>>)
    requires rows != []
    ensures RowValues(rows) == [T.Values(rows[0])] + RowValues(rows[1..])
    ensures NoTimes(rows) <==> T.NoTimes(rows[0]) && NoTimes(rows[1..])
  {
    hide T.NoTimes;
    hide T.Values;
    assert rows == [rows[0]] + rows[1..];
  }

  /** The client reads back exactly the names and rows of the batch, and whether it is the
    * last one, unless a row holds a time value. */
  lemma RowsTrip(names: seq<Name>, rows: seq<seq<T.Item>>, done: bool)
    requires 0 < |names| < U64 && RowsOk(rows, |names|) && forall i :: 0 <= i < |names| ==> IsText(names[i])
    ensures Recv(Message(names, rows, done)) ==
              if |names| >= U32 then Stops
              else if NoTimes(rows) then Received(names, RowValues(rows), done)
              else ProtoError
  {
    hide GetNames;
    hide PutNames;
    hide GetRows;
    hide PutRows;
    hide RowsOk;
    hide IsText;
    hide NoTimes;
    hide RowValues;
    hide GetLe;
    var end := PutRows(rows, |names|) + Le(if done then ROWS_DONE else ROWS_PART, 8);
    Widths();
    GetPutLe(|names|, 8, PutNames(names) + end);
    NamesTrip(names, end);
    GetPutRows(rows, |names|, done);
  }

  // All batches of a query.

  /** The size of the message header, which is reserved before a batch is written. */
  const MESSAGE_HEADER: nat := 8

  /** What every batch begins with: the header, the number of columns and their names. */
  function Head(names: seq<Name>): nat {
    MESSAGE_HEADER + 8 + |PutNames(names)|
  }

  /** The first k messages that answer a query, fewer if they are all. */
  function Answers(names: seq<Name>, rows: seq<seq<T.Item>>, pageSize: nat, k: nat): seq<seq<byte>>
    requires RowsOk(rows, |names|)
  {
    if k == 0 then [] else
      var n := Fitting(Head(names), rows, |names|, pageSize);
      var more := Fills(Head(names), rows, |names|, pageSize);
      [Message(names, rows[..n], !more)] + if more then Answers(names, rows[n..], pageSize, k - 1) else []
  }

  datatype Result = Result(rows: seq<seq<T.Value>>, done: bool) | Failed

  /** What a client has after reading some messages in turn. */
  function Collected(msgs: seq<seq<byte>>): Result {
    if msgs == [] then Result([], false) else
      var r := Recv(msgs[0]);
      if !r.Received? then Failed
      else if r.done then Result(r.rows, true)
      else
        var rest := Collected(msgs[1..]);
        if rest.Failed? then Failed else Result(r.rows + rest.rows, rest.done)
  }

  lemma {:induction false} AllFit(used: nat, rows: seq<seq<T.Item>>, columns: nat, pageSize: nat)
    requires RowsOk(rows, columns)
    ensures !Fills(used, rows, columns, pageSize) ==> Fitting(used, rows, columns, pageSize) == |rows|
    decreases |rows|
  {
    hide T.Encode;
    hide T.ItemsOk;
    if used < pageSize && rows != [] {
      AllFit(used + |T.Encode(rows[0], T.Row)|, rows[1..], columns, pageSize);
    }
  }

  lemma RowsSplit(rows: seq<seq<T.Item>>, n: nat)
    requires n <= |rows| && NoTimes(rows)
    ensures NoTimes(rows[..n]) && NoTimes(rows[n..]) && RowValues(rows[..n]) + RowValues(rows[n..]) == RowValues(rows)
  {
    hide T.NoTimes;
    hide T.Values;
  }

  predicate Plain(names: seq<Name>, rows: seq<seq<T.Item>>) {
    0 < |names| < U32 && RowsOk(rows, |names|) && NoTimes(rows) && forall i :: 0 <= i < |names| ==> IsText(names[i])
  }

  /** Reading the first message and then the others. */
  lemma CollectedNext(names: seq<Name>, rows: seq<seq<T.Item>>, pageSize: nat, k: nat)
    requires Plain(names, rows) && k > 0
    ensures var n := Fitting(Head(names), rows, |names|, pageSize);
            && Plain(names, rows[n..])
            && var rest := Collected(Answers(names, rows[n..], pageSize, k - 1));
               Collected(Answers(names, rows, pageSize, k)) ==
                 if !Fills(Head(names), rows, |names|, pageSize) then Result(RowValues(rows), true)
                 else if rest.Failed? then Failed
                 else Result(RowValues(rows[..n]) + rest.rows, rest.done)
  {
    hide T.Encode;
    hide T.ItemsOk;
    hide Recv;
    hide Message;
    hide RowValues;
    hide NoTimes;
    hide IsText;
    hide Fills;
    hide Fitting;
    var n := Fitting(Head(names), rows, |names|, pageSize);
    var more := Fills(Head(names), rows, |names|, pageSize);
    RowsSplit(rows, n);
    AllFit(Head(names), rows, |names|, pageSize);
    RowsTrip(names, rows[..n], !more);
    assert !more ==> rows[..n] == rows;
  }

  /** With room for rows after the head of a message, the client has all rows, once and in
    * order, after as many messages as there are rows and one more. */
  lemma {:induction false} AllDelivered(names: seq<Name>, rows: seq<seq<T.Item>>, pageSize: nat, k: nat)
    requires Plain(names, rows) && Head(names) < pageSize && k > |rows|
    ensures Collected(Answers(names, rows, pageSize, k)) == Result(RowValues(rows), true)
    decreases k
  {
    hide Collected;
    hide Answers;
    hide RowValues;
    CollectedNext(names, rows, pageSize, k);
    var n := Fitting(Head(names), rows, |names|, pageSize);
    if Fills(Head(names), rows, |names|, pageSize) {
      assert n > 0;
      AllDelivered(names, rows[n..], pageSize, k - 1);
      RowsSplit(rows, n);
    }
  }

  /** Without, it is sent empty messages for ever, even for a query that has no rows. */
  lemma {:induction false} NothingDelivered(names: seq<Name>, rows: seq<seq<T.Item>>, pageSize: nat, k: nat)
    requires Plain(names, rows) && Head(names) >= pageSize
    ensures Collected(Answers(names, rows, pageSize, k)) == Result([], false)
    decreases k
  {
    hide Plain;
    hide Message;
    hide Recv;
    if k > 0 {
      CollectedNext(names, rows, pageSize, k);
      NothingDelivered(names, rows, pageSize, k - 1);
      assert rows[0..] == rows && RowValues(rows[..0]) + [] == [];
    }
  }

  /** The rows of a query arrive exactly when the head of a message is shorter than a page. */
  lemma DeliveredExactly(names: seq<Name>, rows: seq<seq<T.Item>>, pageSize: nat)
    requires Plain(names, rows)
    ensures (exists k :: Collected(Answers(names, rows, pageSize, k)) == Result(RowValues(rows), true))
            <==> Head(names) < pageSize
  {
    hide Collected;
    hide Answers;
    hide RowValues;
    if Head(names) < pageSize {
      AllDelivered(names, rows, pageSize, |rows| + 1);
    } else {
      forall k: nat ensures Collected(Answers(names, rows, pageSize, k)) == Result([], false) {
        NothingDelivered(names, rows, pageSize, k);
      }
    }
  }
}
