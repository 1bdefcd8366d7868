/** Scalar multiplication by the signed digits of the recoding. */
module ScalarMul {
  import opened Algebra
  import opened Bits
  import opened Bytes
  import opened Naf

  /** A place that holds a point. The result and the operands of an operation may be one place. */
  class Element<T> {
    var point: T
    constructor (p: T)
      ensures point == p
    {
      point := p;
    }
  }

  method Copy<T>(r: Element<T>, a: Element<T>)
    modifies r
    ensures r.point == old(a.point)
  {
    r.point := a.point;
  }

  method Double<T(!new)>(G: Group<T>, r: Element<T>, a: Element<T>)
    modifies r
    ensures r.point == G.Add(old(a.point), old(a.point))
  {
    r.point := G.Add(a.point, a.point);
  }

  method Add<T(!new)>(G: Group<T>, r: Element<T>, a: Element<T>, b: Element<T>)
    modifies r
    ensures r.point == G.Add(old(a.point), old(b.point))
  {
    r.point := G.Add(a.point, b.point);
  }

  method Subtract<T(!new)>(G: Group<T>, r: Element<T>, a: Element<T>, b: Element<T>)
    modifies r
    ensures r.point == G.Sub(old(a.point), old(b.point))
  {
    r.point := G.Sub(a.point, b.point);
  }

  /** The value of the digits from i up to w, counted from place i. */
  function HighSum(n: nat, i: nat, w: nat): int
    decreases w - i
  {
    if i >= w then 0 else Signed(CodeAt(n, i)) + 2 * HighSum(n, i + 1, w)
  }

  lemma {:induction false} HighAndLow(n: nat, i: nat, w: nat)
    requires i <= w
    ensures HighSum(n, i, w) * Exp2(i) + DigitSum(n, i) == DigitSum(n, w)
    decreases w - i
  {
    if i < w {
      HighAndLow(n, i + 1, w);
      ShiftDigit(HighSum(n, i + 1, w), Signed(CodeAt(n, i)), Exp2(i));
    }
  }

  lemma ShiftDigit(h: int, d: int, e: int)
    ensures (d + 2 * h) * e == h * (2 * e) + d * e
  {
  }

  /** The digits scanned, two more than the scalar has bits, are enough. */
  lemma ScanIsEnough(scalar: seq<byte>)
    ensures HighSum(LE(scalar), 0, 8 * |scalar| + 2) == LE(scalar)
  {
    LEBound(scalar);
    TwoMoreDigits(LE(scalar), 8 * |scalar|);
    AllDigits(LE(scalar), 8 * |scalar| + 2);
  }

  lemma TwoMoreDigits(n: nat, w: nat)
    requires n < Exp2(w)
    ensures DigitSum(n, w + 2) == n
  {
    DigitsSumToScalar(n, w);
    DrainsAbove(n, w, w + 1);
  }

  lemma AllDigits(n: nat, w: nat)
    ensures HighSum(n, 0, w) == DigitSum(n, w)
  {
    HighAndLow(n, 0, w);
    assert HighSum(n, 0, w) * Exp2(0) == HighSum(n, 0, w);
  }

  /** One step of the scan on multiples of p. */
  lemma ScanStep<T(!new)>(G: Group<T>, h: int, code: byte, p: T)
    requires G.Valid() && code <= 2
    ensures var d := G.Add(G.Mul(h, p), G.Mul(h, p));
            G.Mul(Signed(code) + 2 * h, p) ==
            if code == 1 then G.Add(d, p) else if code == 2 then G.Sub(d, p) else d
  {
    G.MulDouble(h, p);
    if code == 1 { G.MulSucc(2 * h, p); }
    if code == 2 { G.MulPred(2 * h, p); }
  }

  /** r := 2 * r plus the digit times base. */
  method DoubleAndAdd<T(!new)>(G: Group<T>, r: Element<T>, base: Element<T>, digit: byte, ghost h: int)
    requires G.Valid() && r != base && digit <= 2 && r.point == G.Mul(h, base.point)
    modifies r
    ensures r.point == G.Mul(Signed(digit) + 2 * h, base.point)
  {
    ScanStep(G, h, digit, base.point);
    Double(G, r, r);
    if digit == 1 {
      Add(G, r, r, base);
    } else if digit == 2 {
      Subtract(G, r, r, base);
    }
  }

  /** r := scalar * base, also when r is base. */
  method NafMulByScalar<T(!new)>(G: Group<T>, table: array<nat>, r: Element<T>, base: Element<T>, scalar: seq<byte>)
    requires G.Valid() && TableReady(table) && |scalar| >= 1
    modifies r
    ensures r.point == G.Times(LE(scalar), old(base.point))
  {
    ghost var n, w, p := LE(scalar), 8 * |scalar| + 2, base.point;
    var nBits := |scalar| * 8 + 2;
    var naf := new byte[(|scalar| + 2) * 8];
    BuildNaf(table, naf, scalar);
    var baseCopy := new Element<T>(G.zero);
    var zero := new Element<T>(G.zero);
    Copy(baseCopy, base);
    Copy(r, zero);
    var i := nBits - 1;
    while i >= 0 && naf[i] == 0
      invariant -1 <= i < w && Written(naf, n, naf.Length)
      invariant HighSum(n, i + 1, w) == 0
    {
      assert HighSum(n, i, w) == 0;
      i := i - 1;
    }
    while i >= 0
      invariant -1 <= i < w && Written(naf, n, naf.Length)
      invariant baseCopy.point == p && baseCopy != r
      invariant r.point == G.Mul(HighSum(n, i + 1, w), p)
    {
      DoubleAndAdd(G, r, baseCopy, naf[i], HighSum(n, i + 1, w));
      i := i - 1;
    }
    ScanIsEnough(scalar);
  }
}
