/** The streaming hash (src/raft/byte.c): data arrives in pieces of any length, whole blocks
  * go through the transform, the rest is buffered, and padding ends the message as section
  * 5.1.1 of FIPS 180-4 says. The transform of one block is a parameter. */
module Sha1 {
  import opened Arithmetic
  import opened Bytes

  type Hash = seq<nat>
  type Transform = (Hash, seq<byte>) -> Hash

  const INIT: Hash := [0x67452301, 0xEFCDAB89, 0x98BADCFE, 0x10325476, 0xC3D2E1F0]

  // Messages.

  /** The transforms of all whole blocks of a message, one after the other. */
  function Fold(f: Transform, h: Hash, m: seq<byte>): Hash {
    if |m| < 64 then h else f(Fold(f, h, m[..|m| - 64]), m[|m| - 64..])
  }

  /** Hashing may be interrupted at any block boundary. */
  lemma {:induction false} FoldSplit(f: Transform, h: Hash, a: seq<byte>, b: seq<byte>)
    requires |b| % 64 == 0
    ensures Fold(f, h, a + b) == Fold(f, Fold(f, h, a), b)
  {
    if b == [] {
      assert a + b == a;
    } else {
      var n := |b| - 64;
      FoldSplit(f, h, a, b[..n]);
      assert (a + b)[..|a + b| - 64] == a + b[..n];
      assert (a + b)[|a + b| - 64..] == b[n..];
    }
  }

  function Tail(m: seq<byte>): nat {
    |m| % 64
  }

  /** The whole blocks of a message, and what is left. */
  function Whole(m: seq<byte>): seq<byte> {
    m[..|m| - Tail(m)]
  }

  function Left(m: seq<byte>): seq<byte> {
    m[|m| - Tail(m)..]
  }

  /** The number of zero bytes after the first byte of padding. */
  function ZeroCount(n: nat): nat {
    if n % 64 < 56 then 55 - n % 64 else 119 - n % 64
  }

  function Padded(m: seq<byte>): seq<byte> {
    m + [0x80] + Zeros(ZeroCount(|m|)) + Be((8 * |m|) % U64, 8)
  }

  lemma Remainder(n: nat, x: nat)
    ensures (n + x) % 64 == if n % 64 + x < 64 then n % 64 + x else (n % 64 + x) % 64
  {
    var q, r := n / 64, n % 64;
    assert n + x == q * 64 + (r + x);
    ModAdd(q, 64, r + x);
  }

  /** Padding makes whole blocks, with the fewest zeros that leave room for the length. */
  lemma PaddedWhole(m: seq<byte>, k: nat)
    ensures |Padded(m)| % 64 == 0 && (|m| + 1 + ZeroCount(|m|)) % 64 == 56
    ensures k < ZeroCount(|m|) ==> (|m| + 1 + k) % 64 != 56
  {
    var z := ZeroCount(|m|);
    Remainder(|m|, 1 + z);
    Remainder(|m|, 1 + z + 8);
    assert |Padded(m)| == |m| + (1 + z + 8);
    if k < z {
      Remainder(|m|, 1 + k);
    }
  }

  /** Byte i after the message is 0x80, zero, or a byte of the number of bits modulo 2 to the
    * 64, the most significant one first. */
  lemma PaddedByte(m: seq<byte>, i: nat)
    requires |m| + i < |Padded(m)|
    ensures Padded(m)[..|m|] == m
    ensures var k := |Padded(m)| - |m| - i;
            Padded(m)[|m| + i] == if i == 0 then 0x80 else if k > 8 then 0 else (8 * |m|) % U64 / Pow256(k - 1) % 256
  {
    hide Be;
    hide Pow256;
    var z := ZeroCount(|m|);
    if i > z {
      BeAt((8 * |m|) % U64, 8, i - 1 - z);
    }
  }

  function Digest(f: Transform, m: seq<byte>): Hash {
    Fold(f, INIT, Padded(m))
  }

  function HashBytes(h: Hash): seq<byte> {
    if h == [] then [] else HashBytes(h[..|h| - 1]) + Be(h[|h| - 1], 4)
  }

  /** Every word of the hash is written with its most significant byte first. */
  lemma {:induction false} HashByte(h: Hash, i: nat, j: nat)
    requires i < |h| && j < 4
    ensures |HashBytes(h)| == 4 * |h| && HashBytes(h)[4 * i + j] == h[i] / Pow256(3 - j) % 256
    decreases |h|
  {
    hide Be;
    hide Pow256;
    var n := |h| - 1;
    if n > 0 {
      HashByte(h[..n], if i < n then i else 0, j);
    }
    if i == n {
      BeAt(h[n], 4, j);
    }
  }

  // Counting bits.

  /** The number of bits in two 32-bit words, after a piece of the given length. */
  function CountUp(count0: nat, count1: nat, len: nat): (nat, nat) {
    var low := (count0 + (len * 8) % U32) % U32;
    var carry := if low < count0 then 1 else 0;
    (low, (count1 + carry + len / 0x2000_0000) % U32)
  }

  lemma Once(x: nat)
    requires x < U32 + U32
    ensures x % U32 == if x < U32 then x else x - U32
  {
  }

  lemma Shifted(len: nat)
    requires len < U32
    ensures var top, bits := len / 0x2000_0000, (len * 8) % U32;
            top < 8 && bits < U32 && len * 8 == U32 * top + bits
  {
  }

  lemma CountsBits(count0: nat, count1: nat, n: nat, len: nat)
    requires count0 < U32 && count1 < U32 && len < U32 && count0 + U32 * count1 == (8 * n) % U64
    ensures var (low, high) := CountUp(count0, count1, len);
            low < U32 && high < U32 && low + U32 * high == (8 * (n + len)) % U64
  {
    var top, bits := len / 0x2000_0000, (len * 8) % U32;
    Shifted(len);
    Once(count0 + bits);
    var (low, high) := CountUp(count0, count1, len);
    var carry := if low < count0 then 1 else 0;
    Once(count1 + carry + top);
    var over := if count1 + carry + top < U32 then 0 else 1;
    assert count0 + bits == low + U32 * carry;
    assert count1 + carry + top == high + U32 * over;
    WrapsTo(8 * n, len * 8, over, low + U32 * high);
  }

  lemma WrapsTo(a: nat, b: nat, over: nat, r: nat)
    requires a % U64 + b == U64 * over + r && r < U64
    ensures (a + b) % U64 == r
  {
    var q := a / U64;
    assert a + b == (q + over) * U64 + r;
    DivModUnique(a + b, U64, q + over, r);
  }

  /** The fill of the buffer is the length of the message modulo 64. */
  lemma FillIs(count0: nat, count1: nat, n: nat)
    requires count0 < U32 && count1 < U32 && count0 + U32 * count1 == (8 * n) % U64
    ensures (count0 / 8) % 64 == n % 64
  {
    var q := (8 * n) / U64;
    assert 8 * n == U64 * q + U32 * count1 + count0;
    assert count0 % 8 == 0;
    var c := count0 / 8;
    assert n == 0x2000_0000 * (U32 * q + count1) + c;
    assert n == (0x80_0000 * (U32 * q + count1)) * 64 + c;
    ModAdd(0x80_0000 * (U32 * q + count1), 64, c);
  }

  lemma FoldNext(f: Transform, m: seq<byte>, k: nat)
    requires k + 64 <= |m|
    ensures Fold(f, INIT, m[..k + 64]) == f(Fold(f, INIT, m[..k]), m[k..k + 64])
  {
    var n := m[..k + 64];
    assert n[..|n| - 64] == m[..k] && n[|n| - 64..] == m[k..k + 64];
  }

  /** What is whole and what is left of a message after a piece that fits the buffer. */
  lemma Short(m: seq<byte>, data: seq<byte>)
    requires Tail(m) + |data| < 64
    ensures Whole(m + data) == Whole(m) && Left(m + data) == Left(m) + data
    ensures Tail(m + data) == Tail(m) + |data|
  {
    Remainder(|m|, |data|);
  }

  /** What is left when all blocks up to k were taken. */
  lemma Long(m: seq<byte>, k: nat)
    requires k <= |m| < k + 64 && k % 64 == 0
    ensures Tail(m) == |m| - k && Whole(m) == m[..k] && Left(m) == m[k..]
  {
    Remainder(k, |m| - k);
  }

  /** The test whether a piece completes a block, made on 32 bits, is right exactly when the
    * sum does not wrap around; otherwise it says no although the piece does not fit. */
  lemma TakesBlock(j: nat, len: nat)
    requires j < 64 && len < U32
    ensures (j + len) % U32 > 63 <==> 63 < j + len < U32
    ensures ((j + len) % U32 > 63 <==> j + len > 63) <==> j + len < U32
  {
  }

  /** One byte in the buffer and a piece of the largest length: all of it is copied. */
  lemma OverrunsBuffer()
    ensures var j, len := 1, U32 - 1;
            (j + len) % U32 <= 63 && j + len > 64
  {
  }

  /** The index after which a block is looked for does not wrap around. */
  lemma NextBlock(i: nat, j: nat)
    requires (i + j) % 64 == 0 && i + j < U32
    ensures (i + 63) % U32 == i + 63 && (i + 64 + j) % 64 == 0
  {
    assert i + j + 64 <= U32;
  }

  class Context {
    const f: Transform
    const buffer: array<byte>
    var state: Hash
    var count0: nat
    var count1: nat

    /** All the data so far. */
    ghost var message: seq<byte>

    ghost predicate Valid()
      reads this, buffer
    {
      && buffer.Length == 64 && count0 < U32 && count1 < U32
      && count0 + U32 * count1 == (8 * |message|) % U64
      && state == Fold(f, INIT, Whole(message))
      && buffer[..Tail(message)] == Left(message)
    }

    constructor (f: Transform)
      ensures Valid() && message == [] && this.f == f && fresh(buffer)
    {
      this.f := f;
      buffer := new byte[64];
      state, count0, count1, message := INIT, 0, 0, [];
    }

    /** Copy data into the buffer. */
    method Copy(at: nat, data: seq<byte>)
      requires buffer.Length == 64 && at + |data| <= 64
      modifies buffer
      ensures buffer[..at + |data|] == old(buffer[..at]) + data
    {
      for i := 0 to |data|
        invariant buffer[..at + i] == old(buffer[..at]) + data[..i]
      {
        buffer[at + i] := data[i];
        assert data[..i + 1] == data[..i] + [data[i]];
      }
      assert data[..|data|] == data;
    }

    method Count(len: nat)
      requires count0 < U32 && count1 < U32 && len < U32 && count0 + U32 * count1 == (8 * |message|) % U64
      modifies this`count0, this`count1
      ensures count0 < U32 && count1 < U32 && count0 + U32 * count1 == (8 * (|message| + len)) % U64
    {
      CountsBits(count0, count1, |message|, len);
      var j := count0;
      count0 := (count0 + (len * 8) % U32) % U32;
      if count0 < j {
        count1 := (count1 + 1 + len / 0x2000_0000) % U32;
      } else {
        count1 := (count1 + len / 0x2000_0000) % U32;
      }
    }

    /** Take in a piece of data, however the message was split up. The length has 32 bits, and
      * so have the sums that are compared; where the first one wraps around, the whole piece
      * is copied to the buffer and runs past its end. */
    method Update(data: seq<byte>) returns (inside: bool)
      requires Valid() && |data| < U32
      modifies this`state, this`count0, this`count1, this`message, buffer
      ensures inside <==> Tail(old(message)) + |data| < U32
      ensures inside ==> Valid() && message == old(message) + data
    {
      hide Fold;
      FillIs(count0, count1, |message|);
      var j := (count0 / 8) % 64;
      TakesBlock(j, |data|);
      Count(|data|);
      ghost var all := message + data;
      if (j + |data|) % U32 > 63 {
        var i := 64 - j;
        Blocks(data, j, i);
      } else {
        if j + |data| > 64 {
          return false;
        }
        Short(message, data);
        Copy(j, data);
      }
      message := all;
      inside := true;
    }

    /** Fill up the buffer and take it in. */
    method FirstBlock(data: seq<byte>, j: nat, i: nat)
      requires buffer.Length == 64 && j == Tail(message) && i == 64 - j <= |data|
      requires state == Fold(f, INIT, Whole(message)) && buffer[..j] == Left(message)
      modifies this`state, buffer
      ensures state == Fold(f, INIT, (message + data)[..|message| + i])
    {
      hide Fold;
      ghost var all, n := message + data, |message|;
      Copy(j, data[..i]);
      assert buffer[..64] == buffer[..];
      assert all[n - j..n - j + 64] == Left(message) + data[..i];
      FoldNext(f, all, n - j);
      assert all[..n - j] == Whole(message);
      state := f(state, buffer[..]);
    }

    method Blocks(data: seq<byte>, j: nat, i0: nat)
      requires buffer.Length == 64 && j == Tail(message) && i0 == 64 - j <= |data| && j + |data| < U32
      requires state == Fold(f, INIT, Whole(message)) && buffer[..j] == Left(message)
      modifies this`state, buffer
      ensures var all := message + data;
              state == Fold(f, INIT, Whole(all)) && buffer[..Tail(all)] == Left(all)
    {
      hide Fold;
      hide Whole;
      hide Left;
      ghost var all, n := message + data, |message|;
      var i := i0;
      FirstBlock(data, j, i);
      BoundaryIs(n);
      NextBlock(i, j);
      while (i + 63) % U32 < |data|
        invariant i0 <= i <= |data| && (n + i) % 64 == 0 && state == Fold(f, INIT, all[..n + i])
        invariant (i + j) % 64 == 0 && (i + 63) % U32 == i + 63
      {
        FoldNext(f, all, n + i);
        assert all[n + i..n + i + 64] == data[i..i + 64];
        Remainder(n + i, 64);
        state := f(state, data[i..i + 64]);
        NextBlock(i, j);
        i := i + 64;
        NextBlock(i, j);
      }
      Long(all, n + i);
      assert all[n + i..] == data[i..];
      Copy(0, data[i..]);
    }

    /** Pad the message and give its digest: the one of the whole message at once. */
    method Finish() returns (value: seq<byte>)
      requires Valid()
      modifies this`state, this`count0, this`count1, this`message, buffer
      ensures value == HashBytes(Digest(f, old(message)))
    {
      hide Fold;
      hide Be;
      hide Zeros;
      ghost var m := message;
      var length := Be(count1, 4) + Be(count0, 4);
      TwoWords(count0, count1);
      Pad();
      var inside := Update(length);
      assert message == Padded(m);
      PaddedWhole(m, 0);
      assert Whole(message) == message;
      value := HashBytes(state);
    }

    /** Append a one bit and zeros until there is room for the length. */
    method Pad()
      requires Valid()
      modifies this`state, this`count0, this`count1, this`message, buffer
      ensures Valid() && message == old(message) + [0x80] + Zeros(ZeroCount(|old(message)|))
    {
      hide Fold;
      hide Whole;
      hide Left;
      ghost var m := message;
      var inside := Update([0x80]);
      ghost var k: nat := 0;
      assert Zeros(0) == [];
      FillIs(count0, count1, |message|);
      while (count0 / 8) % 64 != 56
        invariant Valid() && k <= ZeroCount(|m|) && message == m + [0x80] + Zeros(k)
        invariant (count0 / 8) % 64 == |message| % 64
        decreases ZeroCount(|m|) - k
      {
        PaddedWhole(m, k);
        assert Zeros(k + 1) == Zeros(k) + [0];
        inside := Update([0]);
        k := k + 1;
        FillIs(count0, count1, |message|);
      }
      PaddedWhole(m, k);
    }
  }

  /** The two words of the count, highest first, are the count in eight bytes. */
  lemma TwoWords(low: nat, high: nat)
    requires low < U32 && high < U32
    ensures Be(low + U32 * high, 8) == Be(high, 4) + Be(low, 4)
  {
    BeSplit(low, high, 4);
    Widths();
  }

  lemma {:induction false} BeSplit(low: nat, high: nat, n: nat)
    requires low < Pow256(n)
    ensures Be(low + Pow256(n) * high, 4 + n) == Be(high, 4) + Be(low, n)
  {
    if n == 0 {
      assert low + Pow256(n) * high == high;
    } else {
      var v := low + Pow256(n) * high;
      assert v == low + 256 * (Pow256(n - 1) * high);
      assert v % 256 == low % 256 && v / 256 == low / 256 + Pow256(n - 1) * high;
      BeSplit(low / 256, high, n - 1);
    }
  }

  lemma BoundaryIs(n: nat)
    ensures (n + (64 - n % 64)) % 64 == 0
  {
    Remainder(n, 64 - n % 64);
  }
}
