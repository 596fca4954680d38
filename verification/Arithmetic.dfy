/** Facts about products, quotients and remainders that the solver does not find by itself. */
module Arithmetic {
  lemma MulBound(d: int, m: nat)
    ensures d >= 1 ==> d * m >= m
    ensures d <= -1 ==> d * m + m <= 0
  {
    if d >= 1 {
      assert (d - 1) * m >= 0;
    } else if d <= -1 {
      assert (-1 - d) * m >= 0;
    }
  }

  lemma ModUnique(x: nat, m: nat, q: nat, r: nat)
    requires m > 0 && r < m && x == q * m + r
    ensures x % m == r && x / m == q
  {
    var d := x / m - q;
    assert x == (x / m) * m + x % m;
    assert d * m == r - x % m;
    MulBound(d, m);
  }

  lemma HalveMod(x: nat, h: nat)
    requires h > 0
    ensures x % (2 * h) == x % 2 + 2 * ((x / 2) % h)
  {
    var q, r := (x / 2) / h, (x / 2) % h;
    assert x / 2 == q * h + r;
    assert x == q * (2 * h) + (2 * r + x % 2);
    ModUnique(x, 2 * h, q, 2 * r + x % 2);
  }

  lemma Distribute(a: int, b: int, n: int)
    ensures (a - b) * n == a * n - b * n
  {
  }

  /** Two numbers with the same remainder modulo n are at least n apart. */
  lemma SameRemainder(p: nat, q: nat, n: nat)
    requires n > 0 && p % n == q % n && p < q
    ensures q >= p + n
  {
    var d, r := q / n - p / n, p % n;
    assert p == (p / n) * n + r;
    assert q == (q / n) * n + r;
    Distribute(q / n, p / n, n);
    MulBound(d, n);
  }

  lemma NextRemainder(p: nat, n: nat)
    requires n >= 2
    ensures p % n != (p + 1) % n
  {
    if p % n == (p + 1) % n {
      SameRemainder(p, p + 1, n);
    }
  }

  lemma AddModulus(p: nat, n: nat)
    requires n > 0
    ensures (p + n) % n == p % n
  {
    var q, r := p / n, p % n;
    assert p == q * n + r;
    Distribute(q, -1, n);
    ModUnique(p + n, n, q + 1, r);
  }
}
