/** The commands that replicate databases (src/command.c, src/command.h): what is encoded is
  * decoded again, and the pages of a transaction reach every node unchanged and in order. */
module Command {
  import opened Arithmetic
  import opened Bytes
  import opened Serialize
  import opened Wal

  const FORMAT: nat := 1

  datatype Command =
    | Open(filename: seq<byte>)
    | Frames(filename: seq<byte>, txId: nat, truncate: nat, isCommit: nat, nPages: nat, pageSize: nat, data: seq<byte>)
    | Undo(txId: nat)
    | Checkpoint(filename: seq<byte>)

  datatype Decoded = Ok(command: Command) | BadParse | BadProto | PastEnd

  // The pages of a transaction.

  function Numbers(list: seq<PageWrite>): (s: seq<byte>)
    ensures |s| == 8 * |list|
  {
    if list == [] then [] else Numbers(list[..|list| - 1]) + Le(list[|list| - 1].number, 8)
  }

  /** The first bytes of every page, as many as the page size says. */
  function PageBytes(list: seq<PageWrite>, pageSize: nat): seq<byte>
    requires forall i :: 0 <= i < |list| ==> pageSize <= |list[i].page|
  {
    if list == [] then [] else PageBytes(list[..|list| - 1], pageSize) + list[|list| - 1].page[..pageSize]
  }

  /** The page size is a field of 16 bits. */
  method FramesEncode(list: seq<PageWrite>, pageSize: nat) returns (out: seq<byte>)
    requires pageSize < U16
    requires forall i :: 0 <= i < |list| ==> pageSize <= |list[i].page|
    ensures out == Le(|list|, 4) + Le(pageSize, 2) + Le(0, 2) + (Numbers(list) + PageBytes(list, pageSize))
  {
    var head := Le(|list|, 4) + Le(pageSize, 2) + Le(0, 2);
    var numbers, pages := [], [];
    for i := 0 to |list|
      invariant numbers == Numbers(list[..i])
    {
      assert list[..i + 1][..i] == list[..i];
      numbers := numbers + Le(list[i].number, 8);
    }
    for i := 0 to |list|
      invariant pages == PageBytes(list[..i], pageSize)
    {
      assert list[..i + 1][..i] == list[..i];
      pages := pages + list[i].page[..pageSize];
    }
    assert list[..|list|] == list;
    out := head + (numbers + pages);
  }

  /** The page numbers at the start of the data of a command. */
  function NumbersOf(data: seq<byte>, n: nat): (numbers: seq<nat>)
    requires 8 * n <= |data|
    ensures |numbers| == n
  {
    seq(n, i requires 0 <= i < n => FromLe(data[8 * i..8 * i + 8]))
  }

  /** The code reads as many numbers as the command announces and does not test whether
    * they are inside the data. */
  method PageNumbers(data: seq<byte>, n: nat) returns (inside: bool, numbers: seq<nat>)
    ensures inside <==> 8 * n <= |data|
    ensures inside ==> numbers == NumbersOf(data, n)
  {
    hide FromLe;
    hide NumbersOf;
    hide GetLe;
    var cursor := new Cursor(data);
    numbers := [];
    NoNumbers(data);
    for i := 0 to n
      invariant cursor.Valid() && cursor.buf == data && cursor.p == 8 * i && 8 * i <= |data|
      invariant numbers == NumbersOf(data, i)
    {
      var v;
      NextNumber(data, i);
      inside, v := cursor.Uint(8);
      if !inside {
        return;
      }
      numbers := numbers + [v];
    }
    inside := true;
  }

  lemma NoNumbers(data: seq<byte>)
    ensures NumbersOf(data, 0) == []
  {
  }

  lemma NextNumber(data: seq<byte>, i: nat)
    requires 8 * i <= |data|
    ensures GetLe(data[8 * i..], 8).Got? <==> 8 * i + 8 <= |data|
    ensures 8 * i + 8 <= |data| ==> NumbersOf(data, i + 1) == NumbersOf(data, i) + [GetLe(data[8 * i..], 8).value]
  {
    if 8 * i + 8 <= |data| {
      assert data[8 * i..][..8] == data[8 * i..8 * i + 8];
    }
  }

  function Pages(data: seq<byte>, n: nat): seq<byte>
    requires 8 * n <= |data|
  {
    data[8 * n..]
  }

  // Commands as bytes.

  /** The widths of the fields of a header, and of a frames command after its file name. */
  const HEADER_FIELDS: seq<nat> := [1, 1, 1, 1, 4]
  const FRAMES_FIELDS: seq<nat> := [8, 4, 1, 1, 2, 4, 2, 2]

  function TypeOf(c: Command): nat {
    match c
    case Open(_) => 1
    case Frames(_, _, _, _, _, _, _) => 2
    case Undo(_) => 3
    case Checkpoint(_) => 4
  }

  function Body(c: Command): seq<byte> {
    match c
    case Open(filename) => PutText(filename)
    case Frames(filename, txId, truncate, isCommit, nPages, pageSize, data) =>
      PutText(filename) + (PutAll([txId, truncate, isCommit, 0, 0, nPages, pageSize, 0], FRAMES_FIELDS) + data)
    case Undo(txId) => Le(txId, 8)
    case Checkpoint(filename) => PutText(filename)
  }

  function Encode(c: Command): seq<byte> {
    PutAll([FORMAT, TypeOf(c), 0, 0, 0], HEADER_FIELDS) + Body(c)
  }

  function ParseFrames(filename: seq<byte>, s: seq<byte>): Decoded {
    var r := GetAll(s, FRAMES_FIELDS);
    if !r.Got? then BadParse
    else Ok(Frames(filename, r.value[0], r.value[1], r.value[2], r.value[5], r.value[6], r.rest))
  }

  /** A file name that is not padded out leaves the cursor past the end of the buffer. */
  function ParseBody(kind: nat, s: seq<byte>): Decoded {
    if kind == 3 then
      var r := GetLe(s, 8);
      if r.Got? then Ok(Undo(r.value)) else BadParse
    else if kind in {1, 2, 4} then
      var r := GetText(s);
      if r.Parse? then BadParse
      else if kind == 1 then Ok(Open(r.value))
      else if kind == 4 then Ok(Checkpoint(r.value))
      else if r.Past? then PastEnd
      else ParseFrames(r.value, r.rest)
    else BadProto
  }

  function Decode(s: seq<byte>): Decoded {
    var r := GetAll(s, HEADER_FIELDS);
    if !r.Got? then BadParse
    else if r.value[0] != FORMAT then BadProto
    else ParseBody(r.value[1], r.rest)
  }

  /** The fields fit into the widths they are sent with. */
  predicate Fits(c: Command) {
    match c
    case Open(filename) => IsText(filename)
    case Frames(filename, txId, truncate, isCommit, nPages, pageSize, _) =>
      IsText(filename) && txId < U64 && truncate < U32 && isCommit < 256 && nPages < U32 && pageSize < U16
    case Undo(txId) => txId < U64
    case Checkpoint(filename) => IsText(filename)
  }

  /** Decoding undoes encoding, for every command. */
  lemma DecodeEncode(c: Command)
    requires Fits(c)
    ensures Decode(Encode(c)) == Ok(c)
  {
    hide GetLe;
    hide GetAll;
    hide PutAll;
    hide PutText;
    hide GetText;
    Widths();
    hide Pow256;
    var head := [FORMAT, TypeOf(c), 0, 0, 0];
    assert forall i :: 0 <= i < 5 ==> head[i] < Pow256(HEADER_FIELDS[i]);
    GetPutAll(head, HEADER_FIELDS, Body(c));
    match c
    case Open(filename) =>
      GetPutText(filename, []);
      assert PutText(filename) + [] == PutText(filename);
    case Checkpoint(filename) =>
      GetPutText(filename, []);
      assert PutText(filename) + [] == PutText(filename);
    case Undo(txId) =>
      GetPutLe(txId, 8, []);
      assert Le(txId, 8) + [] == Le(txId, 8);
    case Frames(filename, txId, truncate, isCommit, nPages, pageSize, data) =>
      var fields := [txId, truncate, isCommit, 0, 0, nPages, pageSize, 0];
      assert forall i :: 0 <= i < 8 ==> fields[i] < Pow256(FRAMES_FIELDS[i]);
      GetPutAll(fields, FRAMES_FIELDS, data);
      GetPutText(filename, PutAll(fields, FRAMES_FIELDS) + data);
  }

  // From the pages of a transaction to the pages that are applied.

  /** The batch that a node applies: numbers, and the page bytes cut into pages. */
  function Applied(numbers: seq<nat>, pages: seq<byte>, pageSize: nat): (batch: seq<PageWrite>)
    ensures |batch| == |numbers|
  {
    if numbers == [] then [] else
      var n := |numbers| - 1;
      var k := if |pages| < pageSize then 0 else |pages| - pageSize;
      Applied(numbers[..n], pages[..k], pageSize) + [PageWrite(numbers[n], pages[k..])]
  }

  /** The i-th page is the one at offset i times the page size. */
  lemma {:induction false} AppliedAt(numbers: seq<nat>, pages: seq<byte>, pageSize: nat, i: nat)
    requires |pages| == |numbers| * pageSize && i < |numbers|
    ensures 0 <= i * pageSize && i * pageSize + pageSize <= |pages|
    ensures Applied(numbers, pages, pageSize)[i] == PageWrite(numbers[i], pages[i * pageSize..i * pageSize + pageSize])
  {
    var n: nat := |numbers| - 1;
    Times(n, pageSize);
    var k := n * pageSize;
    assert |pages| == k + pageSize;
    if i < n {
      AppliedAt(numbers[..n], pages[..k], pageSize, i);
    } else {
      assert pages[k..k + pageSize] == pages[k..];
    }
  }

  lemma {:induction false} NumbersAt(list: seq<PageWrite>, i: nat)
    requires i < |list|
    ensures Numbers(list)[8 * i..8 * i + 8] == Le(list[i].number, 8)
  {
    hide Le;
    var n := |list| - 1;
    var most, last := Numbers(list[..n]), Le(list[n].number, 8);
    if i < n {
      NumbersAt(list[..n], i);
      SliceFirst(most, last, 8 * i, 8 * i + 8);
    } else {
      SliceLast(most, last);
    }
  }

  lemma SliceFirst(a: seq<byte>, b: seq<byte>, i: nat, j: nat)
    requires i <= j <= |a|
    ensures (a + b)[i..j] == a[i..j]
  {
  }

  lemma SliceLast(a: seq<byte>, b: seq<byte>)
    ensures (a + b)[|a|..|a| + |b|] == b
  {
  }

  lemma AppliedSnoc(numbers: seq<nat>, pages: seq<byte>, number: nat, page: Page)
    ensures Applied(numbers + [number], pages + page, |page|) == Applied(numbers, pages, |page|) + [PageWrite(number, page)]
  {
    var ns, ps := numbers + [number], pages + page;
    assert ns[..|ns| - 1] == numbers && ps[..|ps| - |page|] == pages && ps[|ps| - |page|..] == page;
  }

  lemma {:induction false} PagesApplied(list: seq<PageWrite>, numbers: seq<nat>, pageSize: nat)
    requires |numbers| == |list|
    requires forall k :: 0 <= k < |list| ==> |list[k].page| == pageSize && numbers[k] == list[k].number
    ensures Applied(numbers, PageBytes(list, pageSize), pageSize) == list
  {
    if list == [] {
      assert numbers == [];
    } else {
      hide Applied;
      var n := |list| - 1;
      PagesApplied(list[..n], numbers[..n], pageSize);
      WholePage(list[n].page);
      AppliedSnoc(numbers[..n], PageBytes(list[..n], pageSize), numbers[n], list[n].page);
      LastApart(numbers);
      LastApart(list);
    }
  }

  lemma WholePage(page: Page)
    ensures page[..|page|] == page
  {
  }

  lemma LastApart<T>(s: seq<T>)
    requires s != []
    ensures s[..|s| - 1] + [s[|s| - 1]] == s
  {
  }

  lemma {:induction false} PageBytesLength(list: seq<PageWrite>, pageSize: nat)
    requires forall k :: 0 <= k < |list| ==> pageSize <= |list[k].page|
    ensures |PageBytes(list, pageSize)| == |list| * pageSize
  {
    if list != [] {
      PageBytesLength(list[..|list| - 1], pageSize);
      Times(|list| - 1, pageSize);
    }
  }

  /** The frames of a transaction, encoded, decoded and split up again, are the same pages
    * in the same order. The page size is sent in 16 bits. */
  lemma PagesSurvive(filename: seq<byte>, txId: nat, list: seq<PageWrite>, pageSize: nat)
    requires IsText(filename) && txId < U64 && |list| < U32 && pageSize < U16
    requires forall k :: 0 <= k < |list| ==> |list[k].page| == pageSize && list[k].number < U64
    ensures var n := |list|;
            var d := Decode(Encode(Frames(filename, txId, 0, 1, n, pageSize, Numbers(list) + PageBytes(list, pageSize))));
            && d.Ok? && d.command.Frames? && d.command.nPages == n && 8 * n <= |d.command.data|
            && |Pages(d.command.data, n)| == n * pageSize
            && Applied(NumbersOf(d.command.data, n), Pages(d.command.data, n), pageSize) == list
  {
    hide Encode;
    hide Decode;
    hide Applied;
    hide Le;
    hide FromLe;
    var data := Numbers(list) + PageBytes(list, pageSize);
    DecodeEncode(Frames(filename, txId, 0, 1, |list|, pageSize, data));
    assert Pages(data, |list|) == PageBytes(list, pageSize);
    Widths();
    forall i | 0 <= i < |list| ensures NumbersOf(data, |list|)[i] == list[i].number {
      NumbersAt(list, i);
      LeTrip(list[i].number, 8);
      assert data[8 * i..8 * i + 8] == Numbers(list)[8 * i..8 * i + 8];
    }
    PagesApplied(list, NumbersOf(data, |list|), pageSize);
    PageBytesLength(list, pageSize);
  }

  lemma {:induction false} NoPagesSent(list: seq<PageWrite>)
    ensures PageBytes(list, 0) == []
  {
    if list != [] {
      NoPagesSent(list[..|list| - 1]);
    }
  }

  lemma {:induction false} NothingApplied(numbers: seq<nat>, pageSize: nat, i: nat)
    requires i < |numbers| && pageSize > 0
    ensures Applied(numbers, [], pageSize)[i] == PageWrite(numbers[i], [])
  {
    var n := |numbers| - 1;
    if i < n {
      NothingApplied(numbers[..n], pageSize, i);
    }
  }

  /** For every page size a database can have: the size is cut to 16 bits when it is put
    * into the command, and a node that splits the data by its own page size gets back the
    * pages of the transaction exactly when there are none or the size fits into 16 bits. */
  lemma PagesSurviveExactly(filename: seq<byte>, txId: nat, list: seq<PageWrite>, pageSize: nat)
    requires IsText(filename) && txId < U64 && |list| < U32 && 0 < pageSize <= PAGE_SIZE_MAX
    requires forall k :: 0 <= k < |list| ==> |list[k].page| == pageSize && list[k].number < U64
    ensures var n, sent := |list|, pageSize % U16;
            var d := Decode(Encode(Frames(filename, txId, 0, 1, n, sent, Numbers(list) + PageBytes(list, sent))));
            && d.Ok? && d.command.Frames? && d.command.nPages == n && d.command.pageSize == sent
            && 8 * n <= |d.command.data|
            && (|Pages(d.command.data, n)| == n * pageSize <==> list == [] || pageSize < U16)
            && (Applied(NumbersOf(d.command.data, n), Pages(d.command.data, n), pageSize) == list
                <==> list == [] || pageSize < U16)
  {
    hide Encode;
    hide Decode;
    hide Applied;
    hide Le;
    hide NumbersOf;
    var n, sent := |list|, pageSize % U16;
    var data := Numbers(list) + PageBytes(list, sent);
    DecodeEncode(Frames(filename, txId, 0, 1, n, sent, data));
    if pageSize < U16 {
      PagesSurvive(filename, txId, list, pageSize);
    } else {
      NoPagesSent(list);
      assert Pages(data, n) == [];
      if n > 0 {
        NothingApplied(NumbersOf(data, n), pageSize, 0);
        MulAtLeast(n, pageSize);
      } else {
        assert |Applied(NumbersOf(data, n), [], pageSize)| == 0;
      }
    }
  }
}
