/** Snapshots as bytes (src/fsm.c, src/vfs.c): a header, then for every database its name and
  * sizes, its pages and its write-ahead log. Restoring undoes it. */
module SnapshotFormat {
  import opened Arithmetic
  import opened Bytes
  import opened Serialize
  import opened Wal
  import opened WalLog
  import opened Replica

  const SNAPSHOT_FORMAT: nat := 1

  type Name = seq<byte>

  // Pages.

  function Flat(pages: seq<Page>): seq<byte> {
    if pages == [] then [] else pages[0] + Flat(pages[1..])
  }

  function Cut(data: seq<byte>, size: nat): (pages: seq<Page>)
    requires size > 0
    ensures forall i :: 0 <= i < |pages| ==> |pages[i]| == size
    decreases |data|
  {
    if |data| < size then [] else [data[..size]] + Cut(data[size..], size)
  }

  predicate Sized(pages: seq<Page>, size: nat) {
    forall i :: 0 <= i < |pages| ==> |pages[i]| == size
  }

  lemma {:induction false} CutFlat(pages: seq<Page>, size: nat)
    requires size > 0 && Sized(pages, size)
    ensures Cut(Flat(pages), size) == pages && |Flat(pages)| == |pages| * size
  {
    if pages != [] {
      CutFlat(pages[1..], size);
      var data := Flat(pages);
      assert data[..size] == pages[0] && data[size..] == Flat(pages[1..]);
      assert [pages[0]] + pages[1..] == pages;
      Times(|pages| - 1, size);
    }
  }

  // Logs.

  function FlatFrames(frames: seq<Frame>): seq<byte> {
    if frames == [] then [] else frames[0].header + frames[0].page + FlatFrames(frames[1..])
  }

  function CutFrames(data: seq<byte>, size: nat): (frames: seq<Frame>)
    ensures FramesOk(frames)
    decreases |data|
  {
    if |data| < FRAME_HEADER_SIZE + size then [] else
      [Frame(data[..FRAME_HEADER_SIZE], data[FRAME_HEADER_SIZE..FRAME_HEADER_SIZE + size])]
      + CutFrames(data[FRAME_HEADER_SIZE + size..], size)
  }

  predicate FramesSized(frames: seq<Frame>, size: nat) {
    forall i :: 0 <= i < |frames| ==> FrameOk(frames[i], size)
  }

  lemma {:induction false} CutFlatFrames(frames: seq<Frame>, size: nat)
    requires FramesSized(frames, size)
    ensures CutFrames(FlatFrames(frames), size) == frames
    ensures |FlatFrames(frames)| == |frames| * (FRAME_HEADER_SIZE + size)
  {
    if frames != [] {
      CutFlatFrames(frames[1..], size);
      var n := FRAME_HEADER_SIZE + size;
      var data := FlatFrames(frames);
      assert FrameOk(frames[0], size);
      assert data[..FRAME_HEADER_SIZE] == frames[0].header && data[FRAME_HEADER_SIZE..n] == frames[0].page;
      assert data[n..] == FlatFrames(frames[1..]);
      assert [frames[0]] + frames[1..] == frames;
      Times(|frames| - 1, n);
    }
  }

  function WalBytes(n: Node): seq<byte> {
    if n.frames == [] then [] else n.hdr + FlatFrames(n.frames)
  }

  // Databases.

  /** The number of pages as a first page tells it. */
  function CountField(page: Page): nat
    requires |page| >= 32
  {
    FromBe(page[28..32])
  }

  /** A database whose first page tells its page size and its number of pages. */
  ghost predicate Coherent(n: Node, pageSize: nat) {
    && LegalSize(pageSize) && n.pages != [] && Sized(n.pages, pageSize)
    && FirstTells(n.pages, pageSize) && CountField(n.pages[0]) == |n.pages|
    && FramesSized(n.frames, pageSize) && |n.hdr| == HEADER_SIZE
  }

  function Image(n: Node): seq<byte> {
    Flat(n.pages) + WalBytes(n)
  }

  /** A restored database; a failure, and what it leaves; or the program stops on an
    * assertion, or reads past the end of the buffer. */
  datatype Restored = Fine(node: Node) | Failed(node: Node) | Stops | PastEnd

  /** The log is truncated before anything is looked at. */
  function Emptied(n: Node, salt2: seq<byte>): Node
    requires |n.hdr| == HEADER_SIZE && |salt2| == 4
  {
    if n.frames == [] then n else n.(hdr := RestartHeader(n.hdr, salt2), frames := [])
  }

  /** Restore an image of the given size from what is left of a buffer: the database must have
    * a first page that tells the page size of the image; then pages and frames are cut out. */
  function RestoreImage(n: Node, data: seq<byte>, size: nat, salt2: seq<byte>): (r: Restored)
    requires |n.hdr| == HEADER_SIZE && |salt2| == 4
    ensures r.Fine? ==> size <= |data|
    ensures r.Fine? || r.Failed? ==> |r.node.hdr| == HEADER_SIZE
  {
    var e := Emptied(n, salt2);
    if |data| < 18 then PastEnd else
      var pageSize := ParsePageSize(FromBe(data[16..18]));
      if pageSize == 0 || !FirstTells(n.pages, pageSize) then Stops
      else if |data| < 32 then PastEnd
      else
        var count := FromBe(data[28..32]);
        var main: nat := count * pageSize;
        if size < main then Failed(e)
        else if |data| < main then PastEnd
        else if count == 0 then Stops
        else if size == main then Fine(e.(pages := Cut(data[..main], pageSize)))
        else if size - main <= HEADER_SIZE || (size - main - HEADER_SIZE) % (FRAME_HEADER_SIZE + pageSize) != 0 then Stops
        else if |data| < size then PastEnd
        else Fine(Node(Cut(data[..main], pageSize), data[main..main + HEADER_SIZE], CutFrames(data[main + HEADER_SIZE..size], pageSize)))
  }

  lemma FirstPage(n: Node, pageSize: nat, rest: seq<byte>)
    requires Coherent(n, pageSize)
    ensures var s := Image(n) + rest;
            |s| >= 512 && s[16..18] == n.pages[0][16..18] && s[28..32] == n.pages[0][28..32]
  {
    var p, s := n.pages[0], Image(n) + rest;
    assert |p| >= 512;
    assert s[..|p|] == p;
    assert s[16..18] == s[..|p|][16..18];
    assert s[28..32] == s[..|p|][28..32];
  }

  /** Restoring an image works exactly when the target has a first page that tells the same
    * page size, and the program stops otherwise. It gives back the pages and the frames, and
    * the log header with them. */
  lemma ImageTrip(n: Node, pageSize: nat, target: Node, rest: seq<byte>, salt2: seq<byte>)
    requires Coherent(n, pageSize) && |target.hdr| == HEADER_SIZE && |salt2| == 4
    ensures var r := RestoreImage(target, Image(n) + rest, |Image(n)|, salt2);
            && (r.Fine? <==> FirstTells(target.pages, pageSize)) && (!r.Fine? ==> r == Stops)
            && (r.Fine? ==> r.node.pages == n.pages && r.node.frames == n.frames && (n.frames != [] ==> r.node == n))
  {
    hide Cut;
    hide CutFrames;
    hide RestartHeader;
    hide Image;
    hide Tells;
    FirstPage(n, pageSize, rest);
    CutFlat(n.pages, pageSize);
    CutFlatFrames(n.frames, pageSize);
    ImageParts(n, rest);
    assert Tells(n.pages[0], pageSize) && CountField(n.pages[0]) == |n.pages|;
    TellsIs(n.pages[0], pageSize);
    WholeFrames(|n.frames|, FRAME_HEADER_SIZE + pageSize);
  }

  lemma TellsIs(page: Page, pageSize: nat)
    requires Tells(page, pageSize)
    ensures |page| >= 32 && ParsePageSize(FromBe(page[16..18])) == pageSize
  {
  }

  lemma WholeFrames(k: nat, n: nat)
    requires n > 0
    ensures (k * n) % n == 0 && (k > 0 ==> k * n > 0)
  {
    if k > 0 {
      MulAtLeast(k, n);
    }
    DivModUnique(k * n, n, k, 0);
  }

  lemma ImageParts(n: Node, rest: seq<byte>)
    ensures var s, m := Image(n) + rest, |Flat(n.pages)|;
            && |Image(n)| >= m && s[..m] == Flat(n.pages)
            && (n.frames == [] ==> |Image(n)| == m)
            && (n.frames != [] && |n.hdr| == HEADER_SIZE ==>
                  && |Image(n)| == m + HEADER_SIZE + |FlatFrames(n.frames)|
                  && s[m..m + HEADER_SIZE] == n.hdr && s[m + HEADER_SIZE..|Image(n)|] == FlatFrames(n.frames))
  {
  }

  // All databases.

  datatype Entry = Entry(name: Name, node: Node)

  const SIZES: seq<nat> := [8, 8]

  function DbHeader(name: Name, main: nat, wal: nat): seq<byte> {
    PutText(name) + PutAll([main, wal], SIZES)
  }

  function MainSize(n: Node, pageSize: nat): nat
    requires n.pages != [] && |n.pages[0]| >= 32
  {
    CountField(n.pages[0]) * pageSize
  }

  predicate HasHeader(e: Entry) {
    e.node.pages != [] && |e.node.pages[0]| >= 32
  }

  function DbBytes(e: Entry, pageSize: nat): seq<byte>
    requires HasHeader(e)
  {
    DbHeader(e.name, MainSize(e.node, pageSize), |WalBytes(e.node)|) + Image(e.node)
  }

  ghost predicate EntryOk(e: Entry, pageSize: nat) {
    HasHeader(e) && IsText(e.name) && Coherent(e.node, pageSize) && |Image(e.node)| < U64
  }

  predicate NamesDiffer(es: seq<Entry>) {
    forall i, j :: 0 <= i < j < |es| ==> es[i].name != es[j].name
  }

  ghost predicate EntriesOk(es: seq<Entry>, pageSize: nat) {
    (forall i :: 0 <= i < |es| ==> EntryOk(es[i], pageSize)) && NamesDiffer(es)
  }

  predicate HaveHeaders(es: seq<Entry>) {
    forall i :: 0 <= i < |es| ==> HasHeader(es[i])
  }

  function AllBytes(es: seq<Entry>, pageSize: nat): seq<byte>
    requires HaveHeaders(es)
  {
    if es == [] then [] else DbBytes(es[0], pageSize) + AllBytes(es[1..], pageSize)
  }

  function SnapshotBytes(es: seq<Entry>, pageSize: nat): seq<byte>
    requires HaveHeaders(es)
  {
    PutAll([SNAPSHOT_FORMAT, |es|], SIZES) + AllBytes(es, pageSize)
  }

  /** The databases after all were loaded, and what is left of the buffer; an error, and the
    * databases as it leaves them; or the program stops or reads past the end. */
  datatype Loaded = Loaded(held: map<Name, Node>, rest: seq<byte>) | Malformed(held: map<Name, Node>) | Halted | Overread

  /** The database of that name, or a new one. */
  function Existing(held: map<Name, Node>, name: Name, blank: Node): Node {
    if name in held then held[name] else blank
  }

  predicate HeadersOk(held: map<Name, Node>, blank: Node) {
    |blank.hdr| == HEADER_SIZE && forall name :: name in held ==> |held[name].hdr| == HEADER_SIZE
  }

  /** Load one database. What is left to read is counted right for the first one only, so a
    * header that is cut short is noticed only there. */
  function LoadDb(held: map<Name, Node>, s: seq<byte>, first: bool, blank: Node, salt2: seq<byte>): (r: Loaded)
    requires HeadersOk(held, blank) && |salt2| == 4
    ensures r.Loaded? ==> HeadersOk(r.held, blank)
  {
    var short := if first then Malformed(held) else Overread;
    var t := GetText(s);
    if t.Past? then Overread else if !t.Got? then short else
      var r := GetAll(t.rest, SIZES);
      if !r.Got? then short else
        var n := (r.value[0] + r.value[1]) % U64;
        match RestoreImage(Existing(held, t.value, blank), r.rest, n, salt2)
        case Fine(node) => Loaded(held[t.value := node], r.rest[n..])
        case Failed(node) => Malformed(held[t.value := node])
        case Stops => Halted
        case PastEnd => Overread
  }

  function LoadAll(held: map<Name, Node>, s: seq<byte>, n: nat, first: bool, blank: Node, salt2: seq<byte>): Loaded
    requires HeadersOk(held, blank) && |salt2| == 4
    decreases n
  {
    if n == 0 then Loaded(held, s) else
      var r := LoadDb(held, s, first, blank, salt2);
      if r.Loaded? then LoadAll(r.held, r.rest, n - 1, false, blank, salt2) else r
  }

  function Restore(held: map<Name, Node>, s: seq<byte>, blank: Node, salt2: seq<byte>): Loaded
    requires HeadersOk(held, blank) && |salt2| == 4
  {
    var r := GetAll(s, SIZES);
    if !r.Got? || r.value[0] != SNAPSHOT_FORMAT then Malformed(held)
    else LoadAll(held, r.rest, r.value[1], true, blank, salt2)
  }

  lemma MainIsFlat(n: Node, pageSize: nat)
    requires Coherent(n, pageSize)
    ensures MainSize(n, pageSize) == |Flat(n.pages)| && |Image(n)| == MainSize(n, pageSize) + |WalBytes(n)|
  {
    CutFlat(n.pages, pageSize);
  }

  /** The database that an entry goes to has a first page that tells the page size. */
  predicate ReadyFor(held: map<Name, Node>, e: Entry, pageSize: nat, blank: Node) {
    FirstTells(Existing(held, e.name, blank).pages, pageSize)
  }

  lemma DbTrip(held: map<Name, Node>, e: Entry, rest: seq<byte>, first: bool, pageSize: nat, blank: Node, salt2: seq<byte>)
    requires HeadersOk(held, blank) && |salt2| == 4
    requires EntryOk(e, pageSize)
    ensures var r := LoadDb(held, DbBytes(e, pageSize) + rest, first, blank, salt2);
            if !ReadyFor(held, e, pageSize, blank) then r == Halted
            else
              && r.Loaded? && r.rest == rest && e.name in r.held && r.held == held[e.name := r.held[e.name]]
              && r.held[e.name].pages == e.node.pages && r.held[e.name].frames == e.node.frames
  {
    hide GetText;
    hide PutText;
    hide GetAll;
    hide PutAll;
    hide RestoreImage;
    hide Image;
    hide Pow256;
    hide WalBytes;
    hide Flat;
    hide CountField;
    hide MainSize;
    hide Tells;
    MainIsFlat(e.node, pageSize);
    var main, wal := MainSize(e.node, pageSize), |WalBytes(e.node)|;
    var image := Image(e.node);
    var sizes := PutAll([main, wal], SIZES);
    Widths();
    GetPutText(e.name, sizes + (image + rest));
    SizesTrip(main, wal, image + rest);
    assert DbBytes(e, pageSize) + rest == PutText(e.name) + (sizes + (image + rest));
    assert (image + rest)[|image|..] == rest;
    ImageTrip(e.node, pageSize, Existing(held, e.name, blank), rest, salt2);
  }

  lemma SizesTrip(a: nat, b: nat, rest: seq<byte>)
    requires a < U64 && b < U64
    ensures GetAll(PutAll([a, b], SIZES) + rest, SIZES) == Got([a, b], rest)
  {
    Widths();
    GetPutAll([a, b], SIZES, rest);
  }

  /** The entry is held as it was when the snapshot was taken. */
  predicate Holds(held: map<Name, Node>, e: Entry) {
    e.name in held && held[e.name].pages == e.node.pages && held[e.name].frames == e.node.frames
  }

  predicate Listed(es: seq<Entry>, name: Name) {
    exists i :: 0 <= i < |es| && es[i].name == name
  }

  /** The listed databases are held as they were, and no other one changed. */
  ghost predicate Restores(held: map<Name, Node>, held': map<Name, Node>, es: seq<Entry>) {
    && (forall i :: 0 <= i < |es| ==> Holds(held', es[i]))
    && (forall name :: !Listed(es, name) ==> (name in held' <==> name in held) && (name in held ==> held'[name] == held[name]))
  }

  lemma RestoresNext(held: map<Name, Node>, held1: map<Name, Node>, held': map<Name, Node>, es: seq<Entry>)
    requires es != [] && NamesDiffer(es) && Holds(held1, es[0]) && held1 == held[es[0].name := held1[es[0].name]]
    requires Restores(held1, held', es[1..])
    ensures Restores(held, held', es)
  {
    assert forall i :: 0 <= i < |es[1..]| ==> es[1..][i] == es[i + 1];
    assert !Listed(es[1..], es[0].name);
    forall i | 0 <= i < |es| ensures Holds(held', es[i]) {
      if i > 0 {
        assert es[1..][i - 1] == es[i];
      }
    }
    forall name | !Listed(es, name) ensures (name in held' <==> name in held) && (name in held ==> held'[name] == held[name]) {
      NotListed(es, name);
    }
  }

  lemma NotListed(es: seq<Entry>, name: Name)
    requires es != [] && !Listed(es, name)
    ensures es[0].name != name && !Listed(es[1..], name)
  {
    assert forall i :: 0 <= i < |es[1..]| ==> es[1..][i] == es[i + 1];
  }

  /** Every database that an entry goes to is ready for it. */
  predicate Ready(held: map<Name, Node>, es: seq<Entry>, pageSize: nat, blank: Node) {
    forall i :: 0 <= i < |es| ==> ReadyFor(held, es[i], pageSize, blank)
  }

  lemma ReadyNext(held: map<Name, Node>, held1: map<Name, Node>, es: seq<Entry>, pageSize: nat, blank: Node)
    requires es != [] && NamesDiffer(es) && es[0].name in held1 && held1 == held[es[0].name := held1[es[0].name]]
    ensures Ready(held, es, pageSize, blank) <==> ReadyFor(held, es[0], pageSize, blank) && Ready(held1, es[1..], pageSize, blank)
  {
    hide FirstTells;
    forall i | 0 < i < |es| ensures ReadyFor(held, es[i], pageSize, blank) <==> ReadyFor(held1, es[1..][i - 1], pageSize, blank) {
      assert es[1..][i - 1] == es[i] && es[i].name != es[0].name;
    }
    if Ready(held1, es[1..], pageSize, blank) && ReadyFor(held, es[0], pageSize, blank) {
      forall i | 0 <= i < |es| ensures ReadyFor(held, es[i], pageSize, blank) {
        if i > 0 {
          assert ReadyFor(held1, es[1..][i - 1], pageSize, blank);
        }
      }
    }
    if Ready(held, es, pageSize, blank) {
      forall i | 0 <= i < |es[1..]| ensures ReadyFor(held1, es[1..][i], pageSize, blank) {
        assert ReadyFor(held, es[i + 1], pageSize, blank);
      }
    }
  }

  lemma {:induction false} AllTrip(held: map<Name, Node>, es: seq<Entry>, rest: seq<byte>, first: bool, pageSize: nat, blank: Node, salt2: seq<byte>)
    requires HeadersOk(held, blank) && |salt2| == 4 && EntriesOk(es, pageSize)
    ensures HaveHeaders(es)
    ensures var r := LoadAll(held, AllBytes(es, pageSize) + rest, |es|, first, blank, salt2);
            if Ready(held, es, pageSize, blank) then r.Loaded? && r.rest == rest && Restores(held, r.held, es)
            else r == Halted
    decreases |es|
  {
    hide LoadDb;
    hide DbBytes;
    hide EntryOk;
    hide Holds;
    hide Listed;
    hide HasHeader;
    hide ReadyFor;
    forall i | 0 <= i < |es| ensures HasHeader(es[i]) {
      EntryHeader(es[i], pageSize);
    }
    if es == [] {
      assert AllBytes(es, pageSize) + rest == rest;
    } else {
      var more := AllBytes(es[1..], pageSize) + rest;
      assert AllBytes(es, pageSize) + rest == DbBytes(es[0], pageSize) + more;
      assert EntriesOk(es[1..], pageSize);
      DbTrip(held, es[0], more, first, pageSize, blank, salt2);
      if ReadyFor(held, es[0], pageSize, blank) {
        var held1 := LoadDb(held, DbBytes(es[0], pageSize) + more, first, blank, salt2).held;
        AllTrip(held1, es[1..], rest, false, pageSize, blank, salt2);
        ReadyNext(held, held1, es, pageSize, blank);
        hide Ready;
        FirstHeld(held1, es[0]);
        var r := LoadAll(held1, more, |es| - 1, false, blank, salt2);
        if r.Loaded? {
          RestoresNext(held, held1, r.held, es);
        }
      }
    }
  }

  lemma FirstHeld(held: map<Name, Node>, e: Entry)
    requires e.name in held && held[e.name].pages == e.node.pages && held[e.name].frames == e.node.frames
    ensures Holds(held, e)
  {
  }

  lemma EntryHeader(e: Entry, pageSize: nat)
    requires EntryOk(e, pageSize)
    ensures HasHeader(e)
  {
  }

  /** Restoring a snapshot works exactly when every database in it goes to one that has a
    * first page of the same page size, and the program stops otherwise. It gives every
    * database the same pages and frames, and leaves every other one alone. */
  lemma SnapshotTrip(held: map<Name, Node>, es: seq<Entry>, pageSize: nat, blank: Node, salt2: seq<byte>)
    requires HeadersOk(held, blank) && |salt2| == 4 && EntriesOk(es, pageSize) && |es| < U32
    ensures HaveHeaders(es)
    ensures var r := Restore(held, SnapshotBytes(es, pageSize), blank, salt2);
            if Ready(held, es, pageSize, blank) then r.Loaded? && Restores(held, r.held, es) else r == Halted
  {
    hide GetAll;
    hide PutAll;
    hide LoadAll;
    hide AllBytes;
    hide EntriesOk;
    hide Restores;
    hide HaveHeaders;
    hide Ready;
    AllTrip(held, es, [], true, pageSize, blank, salt2);
    SizesTrip(SNAPSHOT_FORMAT, |es|, AllBytes(es, pageSize));
    assert AllBytes(es, pageSize) + [] == AllBytes(es, pageSize);
  }
}
