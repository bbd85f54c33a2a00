/** Facts about quotients and remainders. */
module Arithmetic {

  function Min(a: int, b: int): int {
    if a < b then a else b
  }

  lemma Multiple(n: nat, d: int)
    ensures d >= 1 ==> n * d >= n
    ensures d <= -1 ==> n * d <= -(n as int)
  {
  }

  lemma RemainderIs(x: nat, n: nat, q: nat, r: nat)
    requires n >= 1 && r < n && x == n * q + r
    ensures x % n == r
  {
    var d := x / n - q;
    assert n * d == r - x % n;
    Multiple(n, d);
  }

  /** Numbers of equal remainder stay so when one is added. */
  lemma NextRemainder(a: nat, b: nat, n: nat)
    requires n >= 1 && a % n == b % n
    ensures (a + 1) % n == (b + 1) % n
  {
    var p, q, r := a / n, b / n, a % n;
    assert a == n * p + r && b == n * q + r;
    if r + 1 < n {
      RemainderIs(a + 1, n, p, r + 1);
      RemainderIs(b + 1, n, q, r + 1);
    } else {
      assert a + 1 == n * (p + 1) + 0 && b + 1 == n * (q + 1) + 0;
      RemainderIs(a + 1, n, p + 1, 0);
      RemainderIs(b + 1, n, q + 1, 0);
    }
  }

  /** A remainder, one digit of base b at a time. */
  lemma RemainderStep(n: nat, b: nat, m: nat)
    requires b >= 1 && m >= 1
    ensures b * m >= 1 && n % (b * m) == (n / b % m) * b + n % b
  {
    var k := n / b;
    RemainderOf(n, b, m, k, n % b, k / m, k % m);
  }

  lemma RemainderOf(n: nat, b: nat, m: nat, k: nat, s: nat, q: nat, r: nat)
    requires n == b * k + s && s < b && k == m * q + r && r < m
    ensures b * m >= 1 && n % (b * m) == r * b + s
  {
    BelowProduct(b, m, r, s);
    assert n == (b * m) * q + (r * b + s) by { Distribute(b, m, q, r); }
    RemainderIs(n, b * m, q, r * b + s);
  }

  lemma Distribute(b: nat, m: nat, q: nat, r: nat)
    ensures b * (m * q + r) == (b * m) * q + r * b
  {
  }

  lemma BelowProduct(b: nat, m: nat, r: nat, s: nat)
    requires r < m && s < b
    ensures r * b + s < b * m
  {
    var d := m - 1 - r;
    assert m == d + r + 1;
    Expand(b, d, r);
  }

  lemma Expand(b: nat, d: nat, r: nat)
    ensures b * (d + r + 1) == b * d + r * b + b
    ensures b * d >= 0
  {
  }
}
