/** Division facts the solver does not find by itself. */
module Numbers {

  lemma Multiple(d: int, m: int)
    requires d >= 1 && m > 0
    ensures d * m >= m
  {
  }

  lemma DivModUnique(x: int, m: int, q: int, r: int)
    requires 0 <= r < m && x == q * m + r
    ensures x / m == q && x % m == r
  {
    var d := x / m - q;
    assert x == (x / m) * m + x % m;
    assert d * m == r - x % m by {
      assert d * m == (x / m) * m - q * m;
    }
    if d >= 1 {
      Multiple(d, m);
    } else if d <= -1 {
      Multiple(-d, m);
    }
  }

  /** Counting modulo m, one step at a time. */
  lemma NextModulo(n: nat, m: nat)
    requires m > 0
    ensures (n + 1) % m == if n % m + 1 == m then 0 else n % m + 1
  {
    var q, r := n / m, n % m;
    assert n == q * m + r;
    if r + 1 == m {
      assert n + 1 == (q + 1) * m;
      DivModUnique(n + 1, m, q + 1, 0);
    } else {
      DivModUnique(n + 1, m, q, r + 1);
    }
  }

  lemma SmallModulo(n: nat, m: nat)
    requires n < m
    ensures n % m == n && n / m == 0
  {
    DivModUnique(n, m, 0, n);
  }

  lemma TimesCommute(a: int, b: int, c: int)
    ensures a * (b * c) == b * (a * c)
  {
  }
}
