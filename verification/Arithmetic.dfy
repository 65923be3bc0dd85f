/** Facts about multiplication and remainders. */
module Arithmetic {

  lemma {:induction false} ModAdd(q: nat, n: nat, r: nat)
    requires n > 0
    ensures (q * n + r) % n == r % n
  {
    if q > 0 {
      ModAdd(q - 1, n, r);
      var a := (q - 1) * n + r;
      assert q * n + r == a + n;
      ModPlus(a, n);
    }
  }

  lemma ModPlus(a: nat, n: nat)
    requires n > 0
    ensures (a + n) % n == a % n
  {
    var q, r := a / n, a % n;
    assert a + n == (q + 1) * n + r;
    DivModUnique(a + n, n, q + 1, r);
  }

  lemma DivModUnique(a: nat, n: nat, q: nat, r: nat)
    requires n > 0 && a == q * n + r && r < n
    ensures a % n == r && a / n == q
  {
    var d := a / n - q;
    assert a == (a / n) * n + a % n;
    assert (a / n) * n == (q + d) * n == q * n + d * n;
    assert d * n == r - a % n;
    MulNonzero(d, n);
  }

  lemma MulNonzero(d: int, n: int)
    requires n > 0
    ensures d != 0 ==> d * n >= n || d * n <= -n
  {
    if d > 0 {
      MulAtLeast(d, n);
    } else if d < 0 {
      MulAtLeast(-d, n);
      assert d * n == -((-d) * n);
    }
  }

  lemma {:induction false} MulAtLeast(d: int, n: int)
    requires d > 0 && n > 0
    ensures d * n >= n
    decreases d
  {
    if d > 1 {
      MulAtLeast(d - 1, n);
      assert d * n == (d - 1) * n + n;
    }
  }

  lemma ModMultiple(a: nat, n: nat, c: nat, big: nat)
    requires n > 0 && c > 0 && big == c * n && big > 0
    ensures (a % big) % n == a % n
  {
    var q, r := a / big, a % big;
    assert a == q * big + r;
    assert q * big == (q * c) * n;
    ModAdd(q * c, n, r);
  }

  lemma Distinct(a: nat, b: nat, n: nat)
    requires a < b < a + n
    ensures a % n != b % n
  {
    var q, r := a / n, a % n;
    assert a == q * n + r;
    var d := b - a;
    if r + d < n {
      DivModUnique(b, n, q, r + d);
    } else {
      assert b == (q + 1) * n + (r + d - n);
      DivModUnique(b, n, q + 1, r + d - n);
    }
  }

  lemma Times(n: nat, size: nat)
    ensures (n + 1) * size == n * size + size && n * size >= 0
  {
  }

  lemma MulBelow(m: nat, n: nat, t: nat)
    requires t < n
    ensures m * t + m <= m * n
  {
    var d := n - t - 1;
    assert m * n == m * (t + 1 + d) == m * t + m + m * d;
  }

  lemma MulOut(v: nat, m: nat, n: nat, a: nat, r: nat, q: nat, t: nat)
    requires v == m * a + r && a == n * q + t && r < m && t < n
    ensures m * n > 0 && v == q * (m * n) + (m * t + r) && m * t + r < m * n
  {
    MulBelow(m, n, t);
    calc {
      m * a;
      m * (n * q + t);
      m * (n * q) + m * t;
      q * (m * n) + m * t;
    }
  }

  /** Dividing by two numbers in turn is dividing by their product. */
  lemma DivDiv(v: nat, m: nat, n: nat)
    requires m > 0 && n > 0
    ensures m * n > 0 && v / (m * n) == v / m / n
  {
    var a, r := v / m, v % m;
    MulOut(v, m, n, a, r, a / n, a % n);
    DivModUnique(v, m * n, a / n, m * (a % n) + r);
  }
}
