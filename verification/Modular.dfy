/** Arithmetic modulo a positive number. */
module Modular {
  import opened Bits

  lemma Rebracket(x: int, y: int, z: int)
    ensures x * y * z == x * (y * z)
  {
  }

  lemma ModShift(x: int, m: int, k: int)
    requires m > 0
    ensures (x + m * k) % m == x % m
  {
    var q, r := x / m, x % m;
    assert m * (q + k) == m * q + m * k;
    DivModUnique(x + m * k, m, q + k, r);
  }

  lemma ModIs(x: int, m: int, k: int, r: int)
    requires 0 <= r < m && x == m * k + r
    ensures x % m == r
  {
    DivModUnique(x, m, k, r);
  }

  lemma ModSmall(x: int, m: int)
    requires 0 <= x < m
    ensures x % m == x
  {
    ModIs(x, m, 0, x);
  }

  lemma ModDiff(x: int, y: int, m: int, k: int)
    requires m > 0 && x == y + m * k
    ensures x % m == y % m
  {
    ModShift(y, m, k);
  }

  /** The difference of congruent numbers, as a multiple. */
  lemma ModQuotient(x: int, y: int, m: int) returns (k: int)
    requires m > 0 && x % m == y % m
    ensures x == y + m * k
  {
    k := x / m - y / m;
    assert m * (x / m - y / m) == m * (x / m) - m * (y / m);
  }

  lemma ModAdd(a: int, b: int, c: int, d: int, m: int)
    requires m > 0 && a % m == b % m && c % m == d % m
    ensures (a + c) % m == (b + d) % m
  {
    var j := ModQuotient(a, b, m);
    var k := ModQuotient(c, d, m);
    assert m * (j + k) == m * j + m * k;
    ModDiff(a + c, b + d, m, j + k);
  }

  lemma ModMulOne(a: int, b: int, c: int, m: int)
    requires m > 0 && a % m == b % m
    ensures (a * c) % m == (b * c) % m && (c * a) % m == (c * b) % m
  {
    var k := ModQuotient(a, b, m);
    assert a * c == b * c + m * (k * c) by { Expand(b, m, k, c); }
    ModDiff(a * c, b * c, m, k * c);
  }

  lemma Expand(b: int, m: int, k: int, c: int)
    ensures (b + m * k) * c == b * c + m * (k * c)
  {
    assert m * k * c == m * (k * c);
  }

  lemma ModMul(a: int, b: int, c: int, d: int, m: int)
    requires m > 0 && a % m == b % m && c % m == d % m
    ensures (a * c) % m == (b * d) % m
  {
    ModMulOne(a, b, c, m);
    ModMulOne(c, d, b, m);
  }

  lemma ModMod(x: int, m: int)
    requires m > 0
    ensures x % m % m == x % m
  {
    ModSmall(x % m, m);
  }

  lemma ModSub(a: int, b: int, c: int, d: int, m: int)
    requires m > 0 && a % m == b % m && c % m == d % m
    ensures (a - c) % m == (b - d) % m
  {
    var j := ModQuotient(a, b, m);
    var k := ModQuotient(c, d, m);
    assert m * (j - k) == m * j - m * k;
    ModDiff(a - c, b - d, m, j - k);
  }
}
