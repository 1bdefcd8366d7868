/** Numbers in 64-bit limbs, least significant first, and the limb loops of the mpn_ primitives. */
module Limbs {

  const BASE: nat := 0x1_0000_0000_0000_0000

  type limb = x: nat | x < 0x1_0000_0000_0000_0000

  function Val(s: seq<limb>): nat {
    if s == [] then 0 else s[0] + BASE * Val(s[1..])
  }

  function Place(n: nat): (r: nat)
    ensures r > 0
  {
    if n == 0 then 1 else BASE * Place(n - 1)
  }

  lemma {:induction false} ValBound(s: seq<limb>)
    ensures Val(s) < Place(|s|)
  {
    if s != [] { ValBound(s[1..]); }
  }

  lemma {:induction false} ValConcat(s: seq<limb>, t: seq<limb>)
    ensures Val(s + t) == Val(s) + Place(|s|) * Val(t)
  {
    if s == [] {
      assert s + t == t;
    } else {
      assert (s + t)[1..] == s[1..] + t;
      ValConcat(s[1..], t);
      Shifted(Place(|s| - 1), Val(t));
    }
  }

  lemma Shifted(p: int, v: int)
    ensures BASE * (p * v) == (BASE * p) * v
  {
  }

  /** Taking one more limb. */
  lemma ValNext(s: seq<limb>, i: nat)
    requires i < |s|
    ensures Val(s[..i + 1]) == Val(s[..i]) + Place(i) * s[i]
  {
    assert s[..i + 1] == s[..i] + [s[i]];
    ValConcat(s[..i], [s[i]]);
    assert [s[i]][1..] == [];
  }

  lemma PlaceNext(i: nat, c: int)
    ensures Place(i + 1) * c == Place(i) * (BASE * c)
  {
    Shifted(Place(i), c);
    assert Place(i) * (BASE * c) == BASE * (Place(i) * c) by { Commute(Place(i), c); }
  }

  lemma Commute(p: int, c: int)
    ensures p * (BASE * c) == BASE * (p * c)
  {
  }

  /** One digit: what came in at place p goes out as a digit and a carry to the next place. */
  lemma DigitStep(p: nat, r: int, c: int, x: int, d: int, c1: int, w: int)
    requires r + p * c == w && d + BASE * c1 == x + c
    ensures r + p * d + p * (BASE * c1) == w + p * x
  {
    assert p * (d + BASE * c1) == p * d + p * (BASE * c1);
    assert p * (x + c) == p * x + p * c;
  }

  lemma SpreadSum(p: nat, x: int, y: int)
    ensures p * (x + y) == p * x + p * y && p * (x - y) == p * x - p * y
  {
  }

  // ---------- addition ----------

  method AddN(r: array<limb>, a: array<limb>, b: array<limb>, n: nat) returns (carry: limb)
    requires n <= r.Length && n <= a.Length && n <= b.Length
    modifies r
    ensures Val(r[..n]) + Place(n) * carry == Val(old(a[..n])) + Val(old(b[..n]))
    ensures carry <= 1 && forall k | n <= k < r.Length :: r[k] == old(r[k])
  {
    ghost var sa, sb := a[..n], b[..n];
    carry := 0;
    for i := 0 to n
      invariant carry <= 1 && forall k | i <= k < r.Length :: r[k] == old(r[k])
      invariant forall k | i <= k < n :: a[k] == sa[k] && b[k] == sb[k]
      invariant Val(r[..i]) + Place(i) * carry == Val(sa[..i]) + Val(sb[..i])
    {
      assert a[i] == sa[i] && b[i] == sb[i];
      var t := a[i] + b[i] + carry;
      ghost var c := carry;
      r[i], carry := t % BASE, t / BASE;
      AddDigit(sa, sb, r[..], i, c, carry);
    }
    assert sa[..n] == sa && sb[..n] == sb;
  }

  lemma AddDigit(a: seq<limb>, b: seq<limb>, r: seq<limb>, i: nat, c: nat, c1: nat)
    requires i < |a| && i < |b| && i < |r|
    requires Val(r[..i]) + Place(i) * c == Val(a[..i]) + Val(b[..i])
    requires r[i] + BASE * c1 == a[i] + b[i] + c
    ensures Val(r[..i + 1]) + Place(i + 1) * c1 == Val(a[..i + 1]) + Val(b[..i + 1])
  {
    ValNext(a, i); ValNext(b, i); ValNext(r, i); PlaceNext(i, c1);
    SpreadSum(Place(i), a[i], b[i]);
    var x: nat := a[i] as nat + b[i] as nat;
    DigitStep(Place(i), Val(r[..i]), c, x, r[i], c1, Val(a[..i]) + Val(b[..i]));
  }

  /** r := a + b with a single limb b. */
  method Add1(r: array<limb>, a: array<limb>, n: nat, b: limb) returns (carry: limb)
    requires 0 < n <= r.Length && n <= a.Length
    modifies r
    ensures Val(r[..n]) + Place(n) * carry == Val(old(a[..n])) + b
    ensures carry <= 1 && forall k | n <= k < r.Length :: r[k] == old(r[k])
  {
    ghost var sa := a[..n];
    carry := b;
    assert Place(0) == 1;
    for i := 0 to n
      invariant (i > 0 ==> carry <= 1) && forall k | i <= k < r.Length :: r[k] == old(r[k])
      invariant forall k | i <= k < n :: a[k] == sa[k]
      invariant Val(r[..i]) + Place(i) * carry == Val(sa[..i]) + b
    {
      assert a[i] == sa[i];
      var t := a[i] + carry as nat;
      ghost var c := carry;
      r[i], carry := t % BASE, t / BASE;
      CarryDigit(sa, r[..], i, b, c, carry);
    }
    assert sa[..n] == sa;
  }

  lemma CarryDigit(a: seq<limb>, r: seq<limb>, i: nat, w: int, c: int, c1: int)
    requires i < |a| && i < |r|
    requires Val(r[..i]) + Place(i) * c == Val(a[..i]) + w
    requires r[i] + BASE * c1 == a[i] + c
    ensures Val(r[..i + 1]) + Place(i + 1) * c1 == Val(a[..i + 1]) + w
  {
    ValNext(a, i); ValNext(r, i); PlaceNext(i, c1);
    DigitStep(Place(i), Val(r[..i]), c, a[i], r[i], c1, Val(a[..i]) + w);
  }

  /** r[..n] := r[..n] + b[off..off + m] with m <= n; what leaves the top limb is the carry. */
  method AddShorter(r: array<limb>, n: nat, b: array<limb>, off: nat, m: nat) returns (carry: limb)
    requires m <= n <= r.Length && off + m <= b.Length && r != b
    modifies r
    ensures Val(r[..n]) + Place(n) * carry == Val(old(r[..n])) + Val(b[off..off + m])
    ensures carry <= 1 && forall k | n <= k < r.Length :: r[k] == old(r[k])
  {
    ghost var sr, sb := r[..], b[off..off + m];
    carry := 0;
    for i := 0 to m
      invariant carry <= 1 && forall k | i <= k < r.Length :: r[k] == sr[k]
      invariant Val(r[..i]) + Place(i) * carry == Val(sr[..i]) + Val(sb[..i])
    {
      assert b[off + i] == sb[i];
      var t := r[i] + b[off + i] + carry as nat;
      ghost var c := carry;
      r[i], carry := t % BASE, t / BASE;
      AddDigit(sr, sb, r[..], i, c, carry);
    }
    assert sb[..m] == sb;
    for i := m to n
      invariant carry <= 1 && forall k | i <= k < r.Length :: r[k] == sr[k]
      invariant Val(r[..i]) + Place(i) * carry == Val(sr[..i]) + Val(sb)
    {
      var t := r[i] + carry as nat;
      ghost var c := carry;
      r[i], carry := t % BASE, t / BASE;
      CarryDigit(sr, r[..], i, Val(sb), c, carry);
    }
  }

  // ---------- subtraction ----------

  method SubN(r: array<limb>, a: array<limb>, b: array<limb>, n: nat) returns (borrow: limb)
    requires n <= r.Length && n <= a.Length && n <= b.Length
    modifies r
    ensures Val(r[..n]) - Place(n) * borrow == Val(old(a[..n])) - Val(old(b[..n]))
    ensures borrow <= 1 && forall k | n <= k < r.Length :: r[k] == old(r[k])
  {
    ghost var sa, sb := a[..n], b[..n];
    borrow := 0;
    for i := 0 to n
      invariant borrow <= 1 && forall k | i <= k < r.Length :: r[k] == old(r[k])
      invariant forall k | i <= k < n :: a[k] == sa[k] && b[k] == sb[k]
      invariant Val(r[..i]) - Place(i) * borrow == Val(sa[..i]) - Val(sb[..i])
    {
      assert a[i] == sa[i] && b[i] == sb[i];
      var t: int := a[i] as int - b[i] as int - borrow as int;
      ghost var c := borrow;
      if t < 0 {
        r[i], borrow := t + BASE, 1;
      } else {
        r[i], borrow := t, 0;
      }
      SubDigit(sa, sb, r[..], i, c, borrow);
    }
    assert sa[..n] == sa && sb[..n] == sb;
  }

  lemma SubDigit(a: seq<limb>, b: seq<limb>, r: seq<limb>, i: nat, c: nat, c1: nat)
    requires i < |a| && i < |b| && i < |r|
    requires Val(r[..i]) - Place(i) * c == Val(a[..i]) - Val(b[..i])
    requires r[i] - BASE * c1 == a[i] as int - b[i] as int - c
    ensures Val(r[..i + 1]) - Place(i + 1) * c1 == Val(a[..i + 1]) - Val(b[..i + 1])
  {
    ValNext(a, i); ValNext(b, i); ValNext(r, i); PlaceNext(i, c1);
    SpreadSum(Place(i), a[i], b[i]);
    var x: int, w: int := a[i] as int - b[i] as int, Val(a[..i]) as int - Val(b[..i]) as int;
    var n: int, n1: int := 0 - c, 0 - c1;
    Negate(Place(i), c); Negate(Place(i), BASE * c1);
    DigitStep(Place(i), Val(r[..i]), n, x, r[i], n1, w);
  }

  lemma Negate(p: int, c: int)
    ensures p * (-c) == -(p * c)
  {
  }

  /** r := a - b with a single limb b. */
  method Sub1(r: array<limb>, a: array<limb>, n: nat, b: limb) returns (borrow: limb)
    requires 0 < n <= r.Length && n <= a.Length
    modifies r
    ensures Val(r[..n]) - Place(n) * borrow == Val(old(a[..n])) - b
    ensures borrow <= 1 && forall k | n <= k < r.Length :: r[k] == old(r[k])
  {
    ghost var sa := a[..n];
    borrow := b;
    assert Place(0) == 1;
    for i := 0 to n
      invariant (i > 0 ==> borrow <= 1) && forall k | i <= k < r.Length :: r[k] == old(r[k])
      invariant forall k | i <= k < n :: a[k] == sa[k]
      invariant Val(r[..i]) - Place(i) * borrow == Val(sa[..i]) - b
    {
      assert a[i] == sa[i];
      var t: int := a[i] as int - borrow as int;
      ghost var c := borrow;
      if t < 0 {
        r[i], borrow := t + BASE, 1;
      } else {
        r[i], borrow := t, 0;
      }
      Negate(Place(i), c); Negate(Place(i + 1), borrow);
      CarryDigit(sa, r[..], i, 0 - b as int, 0 - c as int, 0 - borrow as int);
    }
    assert sa[..n] == sa;
  }

  // ---------- multiplication by a limb ----------

  lemma ProductFits(x: limb, y: limb)
    ensures x * y <= (BASE - 1) * (BASE - 1)
  {
    LimbMono(x, BASE - 1, y);
    LimbMono(y, BASE - 1, BASE - 1);
  }

  lemma LimbMono(a: nat, b: nat, c: nat)
    requires a <= b
    ensures a * c <= b * c
  {
  }

  /** r := a * x. */
  method Mul1(r: array<limb>, a: array<limb>, n: nat, x: limb) returns (carry: limb)
    requires n <= r.Length && n <= a.Length && r != a
    modifies r
    ensures Val(r[..n]) + Place(n) * carry == Val(a[..n]) * x
    ensures forall k | n <= k < r.Length :: r[k] == old(r[k])
  {
    ghost var zeros := seq(n, _ => 0);
    carry := 0;
    for i := 0 to n
      invariant forall k | i <= k < r.Length :: r[k] == old(r[k])
      invariant Val(r[..i]) + Place(i) * carry == Val(a[..i]) * x
    {
      ProductFits(a[i], x);
      var t := a[i] * x + carry as nat;
      ghost var c := carry;
      TopFits(t);
      r[i], carry := t % BASE, t / BASE;
      MulDigit(a[..], r[..], i, x, 0, 0, c, carry);
    }
  }

  lemma TopFits(t: nat)
    requires t <= (BASE - 1) * (BASE - 1) + 2 * (BASE - 1)
    ensures t / BASE < BASE && t == BASE * (t / BASE) + t % BASE
  {
  }

  /** y: the limb added in at this place, w: the sum of those before. */
  lemma MulDigit(a: seq<limb>, r: seq<limb>, i: nat, x: limb, y: nat, w: nat, c: nat, c1: nat)
    requires i < |a| && i < |r|
    requires Val(r[..i]) + Place(i) * c == w + Val(a[..i]) * x
    requires r[i] + BASE * c1 == y + a[i] * x + c
    ensures Val(r[..i + 1]) + Place(i + 1) * c1 == w + Place(i) * y + Val(a[..i + 1]) * x
  {
    ValNext(a, i); ValNext(r, i); PlaceNext(i, c1);
    var p, v, d: nat := Place(i), Val(a[..i]), a[i];
    DigitStep(p, Val(r[..i]), c, y + d * x, r[i], c1, w + v * x);
    SpreadProduct(p, v, d, x, y);
  }

  lemma SpreadProduct(p: nat, v: nat, d: nat, x: nat, y: nat)
    ensures (v + p * d) * x == v * x + p * (d * x) && p * (y + d * x) == p * y + p * (d * x)
  {
    assert (v + p * d) * x == v * x + p * d * x;
    assert p * d * x == p * (d * x);
  }

  /** r := r + a * x. */
  method AddMul1(r: array<limb>, a: array<limb>, n: nat, x: limb) returns (carry: limb)
    requires n <= r.Length && n <= a.Length && r != a
    modifies r
    ensures Val(r[..n]) + Place(n) * carry == Val(old(r[..n])) + Val(a[..n]) * x
    ensures forall k | n <= k < r.Length :: r[k] == old(r[k])
  {
    ghost var sr := r[..];
    carry := 0;
    for i := 0 to n
      invariant forall k | i <= k < r.Length :: r[k] == sr[k]
      invariant Val(r[..i]) + Place(i) * carry == Val(sr[..i]) + Val(a[..i]) * x
    {
      ProductFits(a[i], x);
      var t := r[i] + a[i] * x + carry as nat;
      ghost var c := carry;
      TopFits(t);
      r[i], carry := t % BASE, t / BASE;
      MulDigit(a[..], r[..], i, x, sr[i], Val(sr[..i]), c, carry);
      ValNext(sr, i);
    }
  }

  // ---------- comparison, copies ----------

  lemma HigherDigit(u: nat, v: nat, p: nat, x: nat, y: nat)
    requires u < p && x < y
    ensures u + p * x < v + p * y
  {
    LimbMono(x + 1, y, p);
  }

  lemma HigherWins(a: seq<limb>, b: seq<limb>, i: nat)
    requires |a| == |b| && i < |a| && a[i] < b[i] && a[i + 1..] == b[i + 1..]
    ensures Val(a) < Val(b)
  {
    assert a == a[..i + 1] + a[i + 1..] && b == b[..i + 1] + b[i + 1..];
    ValConcat(a[..i + 1], a[i + 1..]); ValConcat(b[..i + 1], b[i + 1..]);
    ValNext(a, i); ValNext(b, i);
    ValBound(a[..i]);
    HigherDigit(Val(a[..i]), Val(b[..i]), Place(i), a[i], b[i]);
  }

  /** The sign of a - b, found from the top limb down. */
  method Cmp(a: array<limb>, b: array<limb>, n: nat) returns (c: int)
    requires n <= a.Length && n <= b.Length
    ensures c == 0 <==> Val(a[..n]) == Val(b[..n])
    ensures c < 0 <==> Val(a[..n]) < Val(b[..n])
  {
    var i := n;
    while i > 0
      invariant 0 <= i <= n && a[i..n] == b[i..n]
    {
      i := i - 1;
      if a[i] != b[i] {
        assert a[..n][i + 1..] == a[i + 1..n] && b[..n][i + 1..] == b[i + 1..n];
        if a[i] < b[i] {
          HigherWins(a[..n], b[..n], i);
          return -1;
        } else {
          HigherWins(b[..n], a[..n], i);
          return 1;
        }
      }
    }
    assert a[..n] == a[0..n] && b[..n] == b[0..n];
    c := 0;
  }

  /** r[..n] := a[off..off + n]. */
  method CopyFrom(r: array<limb>, a: array<limb>, off: nat, n: nat)
    requires n <= r.Length && off + n <= a.Length && (r == a ==> off == 0)
    modifies r
    ensures r[..n] == old(a[off..off + n]) && forall k | n <= k < r.Length :: r[k] == old(r[k])
  {
    for i := 0 to n
      invariant forall k | i <= k < r.Length :: r[k] == old(r[k])
      invariant forall k | 0 <= k < i :: r[k] == old(a[off + k])
    {
      r[i] := a[off + i];
    }
  }

  method IsZero(a: array<limb>, n: nat) returns (z: bool)
    requires n <= a.Length
    ensures z == (Val(a[..n]) == 0)
  {
    var zero := new limb[n](_ => 0);
    ZeroVal(zero[..]);
    var c := Cmp(a, zero, n);
    assert zero[..n] == zero[..];
    z := c == 0;
  }

  lemma {:induction false} ZeroVal(s: seq<limb>)
    requires forall i | 0 <= i < |s| :: s[i] == 0
    ensures Val(s) == 0
  {
    if s != [] { ZeroVal(s[1..]); }
  }
}
