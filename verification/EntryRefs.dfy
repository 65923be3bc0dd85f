/** The table that counts references to log entries (src/raft/log.c).
  *
  * A bucket is the chain of slots hanging off one array cell, in chain order. A cell
  * whose first slot has count zero and no successor is the empty chain. The tables that
  * the code allocates are arrays of buckets; a table that is not allocated yet has no
  * cells. The meaning of a table is the map from (term, index) to the stored reference.
  */
module EntryRefs {
  import opened Arithmetic

  /** The address of a block of memory, or NULL. */
  type Ptr = nat
  const NULL: Ptr := 0

  datatype Key = Key(term: nat, index: nat)
  datatype Ref = Ref(count: nat, base: Ptr, batch: Ptr)
  datatype Slot = Slot(term: nat, index: nat, count: nat, base: Ptr, batch: Ptr) {
    function Id(): Key { Key(term, index) }
    function Content(): Ref { Ref(count, base, batch) }
  }
  type Bucket = seq<Slot>

  const INITIAL_SIZE := 256
  const TRIES := 10
  /** Reference counts are unsigned 16-bit integers. */
  const COUNT_MODULUS := 0x10000

  function RefsKey(index: nat, size: nat): (key: nat)
    requires index > 0 && size > 0
    ensures key < size
  {
    (index - 1) % size
  }

  /** Two indexes that share a bucket in a table of the given size. */
  ghost predicate Collide(a: nat, b: nat, size: nat)
    requires a > 0 && b > 0 && size > 0
  {
    a != b && RefsKey(a, size) == RefsKey(b, size)
  }

  ghost predicate HasSlot(b: Bucket, k: Key) {
    exists i :: 0 <= i < |b| && b[i].Id() == k
  }

  ghost predicate ValidKeys(m: map<Key, Ref>) {
    forall k :: k in m ==> k.term > 0 && k.index > 0
  }

  /** Every reference of the map m whose home is bucket b has its slot there. */
  ghost predicate Complete(bucket: Bucket, b: nat, size: nat, m: map<Key, Ref>)
    requires size > 0 && ValidKeys(m)
  {
    forall k :: k in m && RefsKey(k.index, size) == b ==> HasSlot(bucket, k)
  }

  /** Every slot of bucket b is a reference of m whose home is b; the slots of a bucket
    * have one index and distinct terms. */
  ghost predicate Sound(bucket: Bucket, b: nat, size: nat, m: map<Key, Ref>)
    requires size > 0 && ValidKeys(m)
  {
    && (forall i :: 0 <= i < |bucket| ==> bucket[i].Id() in m && m[bucket[i].Id()] == bucket[i].Content())
    && (forall i :: 0 <= i < |bucket| ==> bucket[i].index > 0 && RefsKey(bucket[i].index, size) == b)
    && (forall i, j :: 0 <= i < j < |bucket| ==> bucket[i].index == bucket[j].index && bucket[i].term != bucket[j].term)
  }

  /** The table t stores exactly the references of m: each bucket holds one index with
    * distinct terms, and every reference is found in the bucket of its index. */
  ghost predicate Stores(t: seq<Bucket>, m: map<Key, Ref>) {
    && ValidKeys(m)
    && (t == [] ==> m == map[])
    && forall b :: 0 <= b < |t| ==> Sound(t[b], b, |t|, m) && Complete(t[b], b, |t|, m)
  }

  /** No stored count is zero. */
  ghost predicate Positive(m: map<Key, Ref>) {
    forall k :: k in m ==> m[k].count > 0
  }

  /** A live index other than the given one has the same home. */
  ghost predicate Blocked(m: map<Key, Ref>, index: nat, size: nat)
    requires ValidKeys(m) && index > 0 && size > 0
  {
    exists k :: k in m && Collide(k.index, index, size)
  }

  /** Replacing the home of k in a table, when the map changes at k only. */
  lemma ReplaceBucket(t: seq<Bucket>, m: map<Key, Ref>, home: nat, bucket: Bucket, m': map<Key, Ref>, k: Key)
    requires Stores(t, m) && home < |t| && ValidKeys(m') && k.index > 0 && RefsKey(k.index, |t|) == home
    requires forall k' :: k' != k ==> (k' in m <==> k' in m') && (k' in m ==> m[k'] == m'[k'])
    requires Sound(bucket, home, |t|, m') && Complete(bucket, home, |t|, m')
    ensures Stores(t[home := bucket], m')
  {
    var t' := t[home := bucket];
    forall b | 0 <= b < |t| && b != home
      ensures Sound(t'[b], b, |t|, m') && Complete(t'[b], b, |t|, m')
    {
      assert t'[b] == t[b] && Sound(t[b], b, |t|, m) && Complete(t[b], b, |t|, m);
    }
  }

  lemma AppendSlot(b: Bucket, home: nat, size: nat, m: map<Key, Ref>, slot: Slot)
    requires size > 0 && ValidKeys(m) && Sound(b, home, size, m) && Complete(b, home, size, m)
    requires slot.term > 0 && slot.index > 0 && slot.Id() !in m && RefsKey(slot.index, size) == home
    requires b != [] ==> b[0].index == slot.index
    ensures var m' := m[slot.Id() := slot.Content()];
            ValidKeys(m') && Sound(b + [slot], home, size, m') && Complete(b + [slot], home, size, m')
    ensures !Blocked(m, slot.index, size)
  {
    var b', m' := b + [slot], m[slot.Id() := slot.Content()];
    forall k | k in m' && RefsKey(k.index, size) == home ensures HasSlot(b', k) {
      if k == slot.Id() {
        assert b'[|b|].Id() == k;
      } else {
        var i :| 0 <= i < |b| && b[i].Id() == k;
        assert b'[i].Id() == k;
      }
    }
  }

  lemma UpdateSlot(b: Bucket, home: nat, size: nat, m: map<Key, Ref>, i: nat, slot: Slot)
    requires size > 0 && ValidKeys(m) && Sound(b, home, size, m) && Complete(b, home, size, m)
    requires i < |b| && slot.Id() == b[i].Id()
    ensures var m' := m[slot.Id() := slot.Content()];
            ValidKeys(m') && Sound(b[i := slot], home, size, m') && Complete(b[i := slot], home, size, m')
  {
    var b', m' := b[i := slot], m[slot.Id() := slot.Content()];
    forall k | k in m' && RefsKey(k.index, size) == home ensures HasSlot(b', k) {
      var j :| 0 <= j < |b| && b[j].Id() == k;
      assert b'[j].Id() == k;
    }
  }

  lemma RemoveSlot(b: Bucket, home: nat, size: nat, m: map<Key, Ref>, i: nat)
    requires size > 0 && ValidKeys(m) && Sound(b, home, size, m) && Complete(b, home, size, m)
    requires i < |b|
    ensures var m', b' := m - {b[i].Id()}, b[..i] + b[i + 1..];
            ValidKeys(m') && Sound(b', home, size, m') && Complete(b', home, size, m')
  {
    var b', m' := b[..i] + b[i + 1..], m - {b[i].Id()};
    assert Sound(b', home, size, m') by {
      assert forall j :: 0 <= j < |b'| ==> b'[j] == b[if j < i then j else j + 1];
      assert forall j :: 0 <= j < |b| && j != i ==> b[j].Id() != b[i].Id();
    }
    forall k | k in m' && RefsKey(k.index, size) == home ensures HasSlot(b', k) {
      assert HasSlot(b, k);
      HasSlotRemove(b, i, k);
    }
  }

  lemma HasSlotRemove(b: Bucket, i: nat, k: Key)
    requires i < |b| && HasSlot(b, k) && b[i].Id() != k
    ensures HasSlot(b[..i] + b[i + 1..], k)
  {
    var j :| 0 <= j < |b| && b[j].Id() == k;
    assert (b[..i] + b[i + 1..])[if j < i then j else j - 1].Id() == k;
  }

  /** Where a slot is inserted, and that a bucket of another index refuses it. */
  method TryInsert(table: array<Bucket>, slot: Slot, ghost m: map<Key, Ref>) returns (collision: bool)
    requires table.Length > 0 && Stores(table[..], m) && Positive(m)
    requires slot.term > 0 && slot.index > 0 && slot.count > 0 && slot.Id() !in m
    modifies table
    ensures collision <==> Blocked(m, slot.index, table.Length)
    ensures collision ==> table[..] == old(table[..])
    ensures !collision ==> Stores(table[..], m[slot.Id() := slot.Content()])
  {
    var key := RefsKey(slot.index, table.Length);
    var bucket := table[key];
    ghost var t := table[..];
    assert t[key] == bucket;
    if bucket != [] {
      if bucket[0].index != slot.index {
        assert Collide(bucket[0].Id().index, slot.index, table.Length);
        return true;
      }
      for i := 0 to |bucket| {
        assert bucket[i].index == slot.index && bucket[i].term != slot.term;
      }
    }
    table[key] := bucket + [slot];
    collision := false;
    AppendSlot(bucket, key, |t|, m, slot);
    ReplaceBucket(t, m, key, bucket + [slot], m[slot.Id() := slot.Content()], slot.Id());
    assert table[..] == t[key := bucket + [slot]];
  }

  /** Find the slot of a stored reference, walking its chain. */
  method Locate(table: array<Bucket>, term: nat, index: nat, ghost m: map<Key, Ref>) returns (key: nat, i: nat)
    requires Stores(table[..], m) && Key(term, index) in m
    ensures index > 0 && table.Length > 0 && key == RefsKey(index, table.Length)
    ensures i < |table[key]| && table[key][i].Id() == Key(term, index)
  {
    assert table[..] != [];
    key := RefsKey(index, table.Length);
    var bucket := table[key];
    assert table[..][key] == bucket;
    assert HasSlot(bucket, Key(term, index));
    i := 0;
    while bucket[i].term != term
      invariant i < |bucket|
      invariant forall j :: 0 <= j < i ==> bucket[j].term != term
      decreases |bucket| - i
    {
      i := i + 1;
    }
  }

  function Incremented(r: Ref): Ref {
    r.(count := (r.count + 1) % COUNT_MODULUS)
  }

  method Incr(table: array<Bucket>, term: nat, index: nat, ghost m: map<Key, Ref>)
    requires Stores(table[..], m) && Key(term, index) in m
    modifies table
    ensures Stores(table[..], m[Key(term, index) := Incremented(m[Key(term, index)])])
  {
    var key, i := Locate(table, term, index, m);
    ghost var t := table[..];
    var slot := table[key][i].(count := (table[key][i].count + 1) % COUNT_MODULUS);
    table[key] := table[key][i := slot];
    UpdateSlot(t[key], key, |t|, m, i, slot);
    ReplaceBucket(t, m, key, t[key][i := slot], m[slot.Id() := slot.Content()], slot.Id());
    assert table[..] == t[key := t[key][i := slot]];
  }

  function Decremented(m: map<Key, Ref>, k: Key): map<Key, Ref>
    requires k in m && m[k].count > 0
  {
    if m[k].count > 1 then m[k := m[k].(count := m[k].count - 1)] else m - {k}
  }

  /** Drop one reference; a reference that reaches zero leaves the table. */
  method Decr(table: array<Bucket>, term: nat, index: nat, ghost m: map<Key, Ref>) returns (unref: bool)
    requires Stores(table[..], m) && Key(term, index) in m && m[Key(term, index)].count > 0
    modifies table
    ensures unref <==> m[Key(term, index)].count == 1
    ensures Stores(table[..], Decremented(m, Key(term, index)))
  {
    var key, i := Locate(table, term, index, m);
    ghost var t := table[..];
    var bucket := table[key];
    var slot := bucket[i].(count := bucket[i].count - 1);
    if slot.count > 0 {
      table[key] := bucket[i := slot];
      UpdateSlot(bucket, key, |t|, m, i, slot);
      ReplaceBucket(t, m, key, bucket[i := slot], m[slot.Id() := slot.Content()], slot.Id());
      assert table[..] == t[key := bucket[i := slot]];
      return false;
    }
    var rest := bucket[..i] + bucket[i + 1..];
    table[key] := rest;
    RemoveSlot(bucket, key, |t|, m, i);
    ReplaceBucket(t, m, key, rest, m - {slot.Id()}, slot.Id());
    assert table[..] == t[key := rest];
    unref := true;
  }

  // Growing.

  /** Growing a table by a whole factor never makes two indexes collide. */
  lemma CollideShrinks(a: nat, b: nat, size: nat, c: nat, big: nat)
    requires a > 0 && b > 0 && size > 0 && c > 0 && big == c * size && big > 0 && Collide(a, b, big)
    ensures Collide(a, b, size)
  {
    ModMultiple(a - 1, size, c, big);
    ModMultiple(b - 1, size, c, big);
  }

  /** d holds the references of the first b buckets and of the first i slots of bucket b. */
  ghost predicate Moved(t: seq<Bucket>, b: nat, i: nat, m: map<Key, Ref>, d: map<Key, Ref>)
    requires |t| > 0 && ValidKeys(m) && (b < |t| ==> i <= |t[b]|)
  {
    && (forall k :: k in d ==> k in m && d[k] == m[k])
    && (forall k :: k in m ==> (k in d <==> RefsKey(k.index, |t|) < b || (b < |t| && HasSlot(t[b][..i], k))))
  }

  /** Double the table and move every slot over: no move collides and nothing is lost. */
  method Grow(table: array<Bucket>, ghost m: map<Key, Ref>) returns (bigger: array<Bucket>)
    requires table.Length > 0 && Stores(table[..], m) && Positive(m)
    ensures fresh(bigger) && bigger.Length == 2 * table.Length
    ensures Stores(bigger[..], m)
    ensures table[..] == old(table[..])
  {
    bigger := new Bucket[2 * table.Length](_ => []);
    ghost var t := table[..];
    ghost var d: map<Key, Ref> := map[];
    for b := 0 to table.Length
      invariant table[..] == t
      invariant Moved(t, b, 0, m, d) && Stores(bigger[..], d)
    {
      assert t[b] == table[b];
      for i := 0 to |table[b]|
        invariant table[..] == t
        invariant Moved(t, b, i, m, d) && Stores(bigger[..], d)
      {
        var slot := table[b][i];
        NextSlot(t, m, b, i, d);
        var collision := TryInsert(bigger, slot, d);
        assert !collision;
        d := d[slot.Id() := slot.Content()];
      }
      BucketMoved(t, m, b, d);
    }
    assert forall k :: k in m ==> RefsKey(k.index, |t|) < |t|;
    assert d == m;
  }

  /** The next slot to move is new to the larger table and meets no other index there. */
  lemma NextSlot(t: seq<Bucket>, m: map<Key, Ref>, b: nat, i: nat, d: map<Key, Ref>)
    requires Stores(t, m) && Positive(m) && b < |t| && i < |t[b]| && Moved(t, b, i, m, d) && ValidKeys(d)
    ensures var slot := t[b][i];
            && slot.Id() !in d && slot.index > 0 && slot.term > 0 && slot.count > 0
            && !Blocked(d, slot.index, 2 * |t|)
            && Moved(t, b, i + 1, m, d[slot.Id() := slot.Content()])
  {
    var slot := t[b][i];
    assert Sound(t[b], b, |t|, m);
    assert slot.Id() in m;
    forall k | k in d ensures !Collide(k.index, slot.index, 2 * |t|) {
      if Collide(k.index, slot.index, 2 * |t|) {
        CollideShrinks(k.index, slot.index, |t|, 2, 2 * |t|);
        assert false;
      }
    }
    forall k | k in m ensures HasSlot(t[b][..i + 1], k) <==> HasSlot(t[b][..i], k) || k == slot.Id() {
      HasSlotExtend(t[b], i, k);
    }
  }

  lemma HasSlotExtend(b: Bucket, i: nat, k: Key)
    requires i < |b|
    ensures HasSlot(b[..i + 1], k) <==> HasSlot(b[..i], k) || k == b[i].Id()
  {
    if HasSlot(b[..i], k) {
      var j :| 0 <= j < i && b[..i][j].Id() == k;
      assert b[..i + 1][j].Id() == k;
    }
    if k == b[i].Id() {
      assert b[..i + 1][i].Id() == k;
    }
    if HasSlot(b[..i + 1], k) {
      var j :| 0 <= j < i + 1 && b[..i + 1][j].Id() == k;
      if j < i {
        assert b[..i][j].Id() == k;
      }
    }
  }

  lemma BucketMoved(t: seq<Bucket>, m: map<Key, Ref>, b: nat, d: map<Key, Ref>)
    requires Stores(t, m) && b < |t| && Moved(t, b, |t[b]|, m, d)
    ensures Moved(t, b + 1, 0, m, d)
  {
    assert t[b][..|t[b]|] == t[b];
    forall k | k in m && HasSlot(t[b], k) ensures RefsKey(k.index, |t|) == b {
      assert Sound(t[b], b, |t|, m);
    }
    forall k | k in m && RefsKey(k.index, |t|) == b ensures HasSlot(t[b], k) {
      assert Complete(t[b], b, |t|, m);
    }
    if b + 1 < |t| {
      assert t[b + 1][..0] == [];
    }
  }

  // Inserting.

  /** The table size after n doublings. */
  function Doubled(size: nat, n: nat): (r: nat)
    ensures size > 0 ==> r > 0
  {
    if n == 0 then size else 2 * Doubled(size, n - 1)
  }

  lemma {:induction false} DoubledMultiple(size: nat, i: nat, j: nat) returns (q: nat)
    requires i <= j
    ensures q > 0 && Doubled(size, j) == q * Doubled(size, i)
    decreases j
  {
    if i == j {
      q := 1;
    } else {
      q := DoubledMultiple(size, i, j - 1);
      q := 2 * q;
    }
  }

  lemma NineDoublings(size: nat)
    ensures Doubled(size, 9) == 512 * size
  {
    assert Doubled(size, 1) == 2 * size;
    assert Doubled(size, 3) == 8 * size;
    assert Doubled(size, 5) == 32 * size;
    assert Doubled(size, 7) == 128 * size;
  }

  /** Store a first reference, growing the table while another index is in the way.
    *
    * It fails exactly when some live index still shares the bucket in a table of 512
    * times the size it started with. */
  method Init(table: array<Bucket>, slot: Slot, ghost m: map<Key, Ref>) returns (ok: bool, table': array<Bucket>)
    requires Stores(table[..], m) && Positive(m)
    requires slot.term > 0 && slot.index > 0 && slot.count == 1 && slot.Id() !in m
    modifies table
    ensures table' != table ==> fresh(table')
    ensures table'.Length > 0
    ensures ok <==> !Blocked(m, slot.index, 512 * StartSize(table.Length))
    ensures ok ==> Stores(table'[..], m[slot.Id() := slot.Content()])
    ensures !ok ==> Stores(table'[..], m)
  {
    table' := table;
    if table.Length == 0 {
      table' := new Bucket[INITIAL_SIZE](_ => []);
      assert Stores(table'[..], m);
    }
    ghost var size := table'.Length;
    NineDoublings(size);
    for i := 0 to TRIES
      invariant table' != table ==> fresh(table')
      invariant size > 0 && table'.Length == Doubled(size, i)
      invariant Stores(table'[..], m)
      invariant i > 0 ==> Blocked(m, slot.index, Doubled(size, i - 1))
    {
      var collision := TryInsert(table', slot, m);
      if !collision {
        Unblocked(m, slot.index, size, i);
        return true, table';
      }
      table' := Grow(table', m);
    }
    ok := false;
  }

  function StartSize(size: nat): nat {
    if size == 0 then INITIAL_SIZE else size
  }

  lemma Unblocked(m: map<Key, Ref>, index: nat, size: nat, i: nat)
    requires size > 0 && index > 0 && ValidKeys(m) && i <= 9
    requires Doubled(size, i) > 0 && !Blocked(m, index, Doubled(size, i))
    ensures !Blocked(m, index, 512 * size)
  {
    NineDoublings(size);
    var q := DoubledMultiple(size, i, 9);
    forall k | k in m ensures !Collide(k.index, index, 512 * size) {
      if Collide(k.index, index, 512 * size) {
        CollideShrinks(k.index, index, Doubled(size, i), q, 512 * size);
        assert false;
      }
    }
  }

  /** Live indexes that lie within 512 times the table size of the new one never block it. */
  lemma NarrowNeverBlocks(m: map<Key, Ref>, index: nat, size: nat)
    requires ValidKeys(m) && index > 0 && size > 0
    requires forall k :: k in m ==> k.index < index + 512 * size && index < k.index + 512 * size
    ensures !Blocked(m, index, 512 * size)
  {
    var n := 512 * size;
    forall k | k in m ensures !Collide(k.index, index, n) {
      if k.index < index {
        Distinct(k.index - 1, index - 1, n);
      } else if index < k.index {
        Distinct(index - 1, k.index - 1, n);
      }
    }
  }
}
