/** What the checksum of the write-ahead log is: section 4.2 of the SQLite database file format
  * describes it as sums of the words of the data, weighted by Fibonacci numbers in reverse
  * order. */
module WalChecksum {
  import opened Arithmetic
  import opened Bytes
  import opened Wal

  function Fib(n: nat): nat {
    if n < 2 then n else Fib(n - 1) + Fib(n - 2)
  }

  /** The Fibonacci number before the n-th one; the one before the first is one. */
  function Before(n: nat): nat {
    if n == 0 then 1 else Fib(n - 1)
  }

  /** The i-th word of 32 bits, lowest byte first. */
  function WordAt(data: seq<byte>, i: nat): nat
    requires 4 * i + 4 <= |data|
  {
    var a: nat, b: nat, c: nat, d: nat := data[4 * i], data[4 * i + 1], data[4 * i + 2], data[4 * i + 3];
    a + 0x100 * b + 0x1_0000 * c + 0x100_0000 * d
  }

  /** The first n words, the last one weighted by the k-th Fibonacci number, the one before it
    * by the next, and so on. */
  function Weighted(data: seq<byte>, n: nat, k: nat): nat
    requires 4 * n <= |data|
    decreases n
  {
    if n == 0 then 0 else Weighted(data, n - 1, k + 1) + Fib(k) * WordAt(data, n - 1)
  }

  lemma {:induction false} WeightedAdds(data: seq<byte>, n: nat, k: nat)
    requires 4 * n <= |data|
    ensures Weighted(data, n, k) + Weighted(data, n, k + 1) == Weighted(data, n, k + 2)
    decreases n
  {
    if n > 0 {
      WeightedAdds(data, n - 1, k + 1);
      Distributes(Fib(k), Fib(k + 1), WordAt(data, n - 1));
    }
  }

  lemma Distributes(a: nat, b: nat, x: nat)
    ensures (a + b) * x == a * x + b * x
  {
  }

  lemma WordIs(data: seq<byte>, i: nat)
    requires 4 * i + 4 <= |data|
    ensures FromLe(data[4 * i..4 * i + 4]) == WordAt(data, i)
  {
    var w := data[4 * i..4 * i + 4];
    var b: nat, c: nat, d: nat := w[1], w[2], w[3];
    assert w[1..][1..][1..][1..] == [];
    assert FromLe(w[1..][1..][1..]) == d;
    assert FromLe(w[1..][1..]) == c + 0x100 * d;
    assert FromLe(w[1..]) == b + 0x100 * (c + 0x100 * d);
  }

  /** The sums without a modulus, from a start c over n words. */
  function First(data: seq<byte>, n: nat, c: Sums): nat
    requires 4 * n <= |data|
  {
    Before(n) * c.s1 + Fib(n) * c.s2 + Weighted(data, n, 0)
  }

  function Second(data: seq<byte>, n: nat, c: Sums): nat
    requires 4 * n <= |data|
  {
    Fib(n) * c.s1 + Fib(n + 1) * c.s2 + Weighted(data, n, 1)
  }

  lemma SumsNext(data: seq<byte>, n: nat, c: Sums)
    requires 4 * n + 8 <= |data|
    ensures First(data, n + 2, c) == First(data, n, c) + WordAt(data, n) + Second(data, n, c)
    ensures Second(data, n + 2, c) == Second(data, n, c) + WordAt(data, n + 1) + First(data, n + 2, c)
  {
    hide WordAt;
    WeightsNext(data, n);
    hide Weighted;
    FibNext(n);
    Distributes(Before(n), Fib(n), c.s1);
    Distributes(Fib(n), Fib(n + 1), c.s2);
    Distributes(Fib(n), Fib(n + 1), c.s1);
    Distributes(Fib(n + 1), Fib(n + 2), c.s2);
  }

  lemma FibNext(n: nat)
    ensures Before(n) + Fib(n) == Fib(n + 1) && Before(n + 2) == Fib(n + 1)
    ensures Fib(n) + Fib(n + 1) == Fib(n + 2) && Fib(n + 1) + Fib(n + 2) == Fib(n + 3)
  {
  }

  lemma WeightsNext(data: seq<byte>, n: nat)
    requires 4 * n + 8 <= |data|
    ensures Weighted(data, n + 2, 0) == Weighted(data, n, 0) + Weighted(data, n, 1) + WordAt(data, n)
    ensures Weighted(data, n + 2, 1) == Weighted(data, n, 1) + Weighted(data, n + 2, 0) + WordAt(data, n + 1)
  {
    hide WordAt;
    WeightedAdds(data, n, 0);
    WeightedAdds(data, n, 1);
    assert Fib(2) == 1;
    assert Weighted(data, n + 1, 1) == Weighted(data, n, 2) + Fib(1) * WordAt(data, n);
    assert Weighted(data, n + 1, 2) == Weighted(data, n, 3) + Fib(2) * WordAt(data, n);
  }

  lemma SumMod(x: nat, a: nat, y: nat)
    ensures (x % U32 + a + y % U32) % U32 == (x + a + y) % U32
  {
    var p, q := x / U32, y / U32;
    var r := x % U32 + a + y % U32;
    assert x + a + y == (p + q) * U32 + r;
    ModAdd(p + q, U32, r);
  }

  lemma MixMod(x: nat, y: nat, a: nat, b: nat)
    ensures Mix(Sums(x % U32, y % U32), a, b) == Sums((x + a + y) % U32, (y + b + (x + a + y)) % U32)
  {
    SumMod(x, a, y);
    SumMod(y, b, x + a + y);
  }

  /** The checksum of some data: both sums are sums of its words, weighted by Fibonacci numbers
    * in reverse order, on top of the start weighted by those that come next. */
  lemma {:induction false} ChecksumIs(data: seq<byte>, c: Sums)
    requires |data| % 8 == 0 && c.s1 < U32 && c.s2 < U32
    ensures var n := |data| / 4;
            && Check(data, c).s1 == First(data, n, c) % U32
            && Check(data, c).s2 == Second(data, n, c) % U32
  {
    hide Check;
    hide First;
    hide Second;
    ChecksumUpTo(data, c, |data| / 8);
    assert data[..|data|] == data;
  }

  lemma {:induction false} ChecksumUpTo(data: seq<byte>, c: Sums, k: nat)
    requires 8 * k <= |data| && c.s1 < U32 && c.s2 < U32
    ensures Check(data[..8 * k], c) == Sums(First(data, 2 * k, c) % U32, Second(data, 2 * k, c) % U32)
  {
    hide FromLe;
    hide WordAt;
    if k == 0 {
      CheckNone(c);
      assert data[..0] == [];
    } else {
      hide Check;
      hide First;
      hide Second;
      hide Mix;
      var n := 2 * (k - 1);
      ChecksumUpTo(data, c, k - 1);
      CheckNext(data, c, 8 * (k - 1));
      WordIs(data, n);
      WordIs(data, n + 1);
      SumsNext(data, n, c);
      MixMod(First(data, n, c), Second(data, n, c), WordAt(data, n), WordAt(data, n + 1));
    }
  }
}
