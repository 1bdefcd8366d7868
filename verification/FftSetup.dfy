/** Building the table of roots: exponentiation by squaring, the search for a root of unity, and the
    parallel fill. Residues held as big integers are identified with the elements they convert to. */
module FftSetup {
  import opened Algebra
  import opened Bits
  import opened Fourier
  import opened Fft
  import opened ParallelFor

  datatype Result<+T> = Ok(value: T) | DomainTooBig

  // ---------- exponentiation ----------

  lemma {:induction false} ShrStep(x: nat, i: nat)
    ensures Shr(x, i) == 2 * Shr(x, i + 1) + (if Bit(x, i) then 1 else 0)
  {
    if i > 0 { ShrStep(x / 2, i - 1); }
  }

  /** Left-to-right square and multiply over the bits of a scalar of scalarSize bytes. */
  method Exp<T(!new)>(R: Ring<T>, base: T, scalar: nat, scalarSize: nat) returns (r: T)
    requires R.Valid() && scalar < Exp2(scalarSize * 8)
    ensures r == R.Pow(base, scalar)
  {
    var oneFound := false;
    r := R.one;
    ShrGone(scalar, scalarSize * 8, scalarSize * 8);
    R.PowSmall(base);
    for i := scalarSize * 8 downto 0
      invariant oneFound || Shr(scalar, i) == 0
      invariant oneFound ==> r == R.Pow(base, Shr(scalar, i))
      invariant !oneFound ==> r == R.one
    {
      ShrStep(scalar, i);
      if !oneFound {
        if !Bit(scalar, i) { continue; }
        r := base;
        oneFound := true;
        continue;
      }
      ghost var k := Shr(scalar, i + 1);
      r := R.Mul(r, r);
      R.PowAdd(base, k, k);
      if Bit(scalar, i) {
        r := R.Mul(r, base);
        R.Comm(R.Pow(base, 2 * k), base);
      }
    }
    if !oneFound { r := R.one; }
  }

  // ---------- the parallel fill ----------

  /** Bounds of one span of the fill. */
  function SpanStart(nRoots: nat, nSpan: nat, id: nat): nat
    requires nSpan > 0
  {
    if id == 0 then 2 else id * (nRoots / nSpan)
  }

  function SpanEnd(nRoots: nat, nSpan: nat, id: nat): nat
    requires nSpan > 0
  {
    if id == nSpan - 1 then nRoots else (id + 1) * (nRoots / nSpan)
  }

  lemma SpanBound(nRoots: nat, nSpan: nat, id: nat)
    requires nSpan > 0 && id < nSpan
    ensures SpanEnd(nRoots, nSpan, id) <= nRoots
  {
    var inc := nRoots / nSpan;
    assert nRoots == nSpan * inc + nRoots % nSpan;
    if id != nSpan - 1 { MulMono(id + 1, nSpan, inc); }
  }

  /** Every index from 2 up lies in some span, even when there are more spans than roots. */
  lemma SpansCover(nRoots: nat, nSpan: nat, i: nat) returns (id: nat)
    requires nSpan > 0 && 2 <= i < nRoots
    ensures id < nSpan && SpanStart(nRoots, nSpan, id) <= i < SpanEnd(nRoots, nSpan, id)
  {
    var inc := nRoots / nSpan;
    if inc == 0 {
      id := nSpan - 1;
      assert id * inc == 0;
    } else {
      id := SpanHolding(inc, nSpan, i);
    }
  }

  lemma SpanHolding(inc: nat, nSpan: nat, i: nat) returns (id: nat)
    requires inc > 0 && nSpan > 0
    ensures id < nSpan && id * inc <= i && (id == nSpan - 1 || i < (id + 1) * inc)
  {
    var b, j := Split(i, inc);
    id := if b < nSpan then b else nSpan - 1;
    MulMono(id, b, inc);
    assert (id + 1) * inc == id * inc + inc;
  }

  ghost predicate Filled<T(!new)>(R: Ring<T>, roots: seq<T>, w: T, filled: set<nat>) {
    && |roots| >= 2 && roots[0] == R.one && roots[1] == w
    && forall i: nat | i in filled :: i < |roots| && roots[i] == R.Pow(w, i)
  }

  /** One multiplication up from the entry below. */
  method FillNext<T(!new)>(R: Ring<T>, roots: array<T>, i: nat, ghost filled: set<nat>)
    requires R.Valid() && 1 <= i < roots.Length && roots.Length >= 2
    requires Filled(R, roots[..], roots[1], filled) && i - 1 in filled
    modifies roots
    ensures roots[1] == old(roots[1]) && Filled(R, roots[..], roots[1], filled + {i})
  {
    ghost var before, w := roots[..], roots[1];
    assert before[i - 1] == R.Pow(w, i - 1);
    R.Comm(roots[i - 1], roots[1]);
    R.PowSmall(w);
    roots[i] := R.Mul(roots[i - 1], roots[1]);
    assert roots[..] == before[i := R.Pow(w, i)];
  }

  /** One span: exponentiate at its start, then multiply up. */
  method FillSpan<T(!new)>(R: Ring<T>, roots: array<T>, start: nat, end: nat, ghost filled: set<nat>)
    returns (ghost filled': set<nat>)
    requires R.Valid() && end <= roots.Length < Exp2(64)
    requires roots.Length >= 2 && Filled(R, roots[..], roots[1], filled)
    modifies roots
    ensures roots[1] == old(roots[1]) && Filled(R, roots[..], roots[1], filled')
    ensures filled <= filled' && forall i: nat :: start <= i < end ==> i in filled'
  {
    ghost var w := roots[1];
    filled' := filled;
    R.PowSmall(w);
    if end > start {
      roots[start] := Exp(R, roots[1], start, 8);
      filled' := filled' + {start};
    }
    var i := start + 1;
    while i < end
      invariant i > start && filled <= filled' && Filled(R, roots[..], w, filled')
      invariant forall k: nat :: start <= k < i && k < end ==> k in filled'
    {
      FillNext(R, roots, i, filled');
      filled' := filled' + {i};
      i := i + 1;
    }
  }

  /** After the parallel fill roots[i] is the i-th power of roots[1], for every number of spans. */
  method FillRoots<T(!new)>(R: Ring<T>, roots: array<T>, nSpan: nat)
    requires R.Valid() && nSpan > 0 && 2 <= roots.Length < Exp2(64) && roots[0] == R.one
    modifies roots
    ensures roots[1] == old(roots[1])
    ensures forall i: nat | i < roots.Length :: roots[i] == R.Pow(roots[1], i)
  {
    ghost var w := roots[1];
    ghost var filled: set<nat> := {};
    var todo := Iterations(0, nSpan);
    while todo != {}
      invariant todo <= Iterations(0, nSpan) && roots[1] == w && Filled(R, roots[..], w, filled)
      invariant forall id: nat, i: nat | id < nSpan && id !in todo && InSpan(roots.Length, nSpan, id, i) :: i in filled
    {
      var idSpan :| idSpan in todo;
      SpanBound(roots.Length, nSpan, idSpan);
      filled := FillSpan(R, roots, SpanStart(roots.Length, nSpan, idSpan), SpanEnd(roots.Length, nSpan, idSpan),
        filled);
      todo := todo - {idSpan};
    }
    R.PowSmall(w);
    forall i: nat | i < roots.Length
      ensures roots[i] == R.Pow(w, i)
    {
      if i >= 2 {
        var id := SpansCover(roots.Length, nSpan, i);
        assert InSpan(roots.Length, nSpan, id, i);
        assert roots[..][i] == R.Pow(w, i);
      }
    }
  }

  ghost predicate InSpan(nRoots: nat, nSpan: nat, id: nat, i: nat)
    requires nSpan > 0
  {
    SpanStart(nRoots, nSpan, id) <= i < SpanEnd(nRoots, nSpan, id)
  }

  // ---------- the constructor ----------

  /** The element an integer converts to. */
  function FromInt<T(!new)>(R: Ring<T>, k: nat): T { R.g.Times(k, R.one) }

  ghost predicate NoZeroDivisor<T(!new)>(R: Ring<T>, a: T, b: T) {
    R.Mul(a, b) == R.Zero() ==> a == R.Zero() || b == R.Zero()
  }

  ghost predicate Fermat<T(!new)>(R: Ring<T>, q: nat, a: T)
    requires q > 0
  {
    a != R.Zero() ==> R.Pow(a, q - 1) == R.one
  }

  /** A field of odd prime order q whose integers from 2 to nonResidue are not zero, the last of them
      not a square. */
  ghost predicate PrimeField<T(!new)>(R: Ring<T>, q: nat, nonResidue: nat) {
    && R.Valid() && q >= 3 && q % 2 == 1 && nonResidue >= 2
    && (forall a, b :: NoZeroDivisor(R, a, b))
    && (forall a :: Fermat(R, q, a))
    && (forall k: nat | 2 <= k <= nonResidue :: FromInt(R, k) != R.Zero())
    && R.Pow(FromInt(R, nonResidue), (q - 1) / 2) != R.one
  }

  /** By Euler's criterion the half-order power of a non-residue is -1. */
  lemma HalfOrderPower<T(!new)>(R: Ring<T>, q: nat, nonResidue: nat, a: T)
    requires PrimeField(R, q, nonResidue) && a != R.Zero() && R.Pow(a, (q - 1) / 2) != R.one
    ensures R.Pow(a, (q - 1) / 2) == R.Neg(R.one)
  {
    var h := R.Pow(a, (q - 1) / 2);
    assert Fermat(R, q, a);
    R.PowAdd(a, (q - 1) / 2, (q - 1) / 2);
    var p, m := R.Add(h, R.one), R.Sub(h, R.one);
    R.DistributeSub(p, h, R.one); R.Distribute(h, h, R.one); R.Unit(h); R.Unit(p);
    R.g.Comm(R.one, h); R.g.Inverse(p);
    assert NoZeroDivisor(R, p, m);
    R.g.SubZero(h, R.one);
    R.g.Comm(R.one, h); R.g.NegUnique(R.one, h);
  }

  /** k is the least integer from 2 up whose half-order power is not 1. */
  ghost predicate LeastNonResidue<T(!new)>(R: Ring<T>, q: nat, k: nat)
    requires q > 0
  {
    && k >= 2 && R.Pow(FromInt(R, k), (q - 1) / 2) != R.one
    && forall j: nat | 2 <= j < k :: R.Pow(FromInt(R, j), (q - 1) / 2) == R.one
  }

  /** The power of the least non-residue that the table is built on. */
  ghost predicate BuiltOn<T(!new)>(f: FFT<T>, q: nat, k: nat)
    requires q > 0 && |f.roots| >= 2
  {
    LeastNonResidue(f.R, q, k) && f.roots[1] == f.R.Pow(FromInt(f.R, k), (q - 1) / Exp2(f.s))
  }

  /** The search for the smallest non-residue. */
  method FindNonResidue<T(!new, ==)>(R: Ring<T>, q: nat, ghost nonResidue: nat) returns (nqr: nat)
    requires PrimeField(R, q, nonResidue)
    ensures nqr <= nonResidue && LeastNonResidue(R, q, nqr)
    ensures R.Pow(FromInt(R, nqr), (q - 1) / 2) == R.Neg(R.one)
  {
    nqr := 2;
    while R.Pow(FromInt(R, nqr), (q - 1) / 2) == R.one
      invariant 2 <= nqr <= nonResidue
      invariant forall k: nat | 2 <= k < nqr :: R.Pow(FromInt(R, k), (q - 1) / 2) == R.one
      decreases nonResidue - nqr
    {
      nqr := nqr + 1;
    }
    HalfOrderPower(R, q, nonResidue, FromInt(R, nqr));
  }

  /** The powers of 1/2, by repeated multiplication. */
  method InversePowers<T(!new)>(R: Ring<T>, half: T, s: nat) returns (inv: array<T>)
    requires R.Valid() && s >= 1 && R.Mul(half, Two(R)) == R.one
    ensures fresh(inv) && inv.Length == s + 1
    ensures forall i: nat | i <= s :: R.Mul(inv[i], R.Pow(Two(R), i)) == R.one
  {
    inv := new T[s + 1](_ => R.one);
    inv[1] := half;
    R.PowSmall(half);
    for i := 2 to s + 1
      invariant forall k: nat | k < i :: inv[k] == R.Pow(half, k)
    {
      R.Comm(inv[i - 1], inv[1]);
      inv[i] := R.Mul(inv[i - 1], inv[1]);
    }
    forall i: nat | i <= s
      ensures R.Mul(inv[i], R.Pow(Two(R), i)) == R.one
    {
      HalfTimesTwo(R, half, i);
    }
  }

  lemma HalfTimesTwo<T(!new)>(R: Ring<T>, half: T, i: nat)
    requires R.Valid() && R.Mul(half, Two(R)) == R.one
    ensures R.Mul(R.Pow(half, i), R.Pow(Two(R), i)) == R.one
  {
    R.PowMul(half, Two(R), i); R.PowOne(i);
  }

  /** n is a multiple of 2^d. */
  predicate HasTwos(n: nat, d: nat) {
    d == 0 || (n % 2 == 0 && HasTwos(n / 2, d - 1))
  }

  lemma {:induction false} HasTwosIs(n: nat, d: nat)
    ensures HasTwos(n, d) <==> n % Exp2(d) == 0
  {
    if d > 0 {
      HasTwosIs(n / 2, d - 1);
      HalveDivMod(n, Exp2(d - 1));
    }
  }

  /** 2^d is the largest power of two up to maxDomainSize, and q - 1 is not a multiple of it. */
  ghost predicate TooBig(q: nat, maxDomainSize: nat, d: nat)
    requires q > 0
  {
    Exp2(d) <= maxDomainSize < Exp2(d + 1) && (q - 1) % Exp2(d) != 0
  }

  lemma PowerBelow(d: nat, n: nat, m: nat)
    requires Exp2(d) <= n < Exp2(m + 1)
    ensures d <= m
  {
    if d > m { Exp2Mono(m + 1, d); }
  }

  lemma OnlyDomain(q: nat, n: nat, domainPow: nat)
    requires q > 0 && Exp2(domainPow) <= n < Exp2(domainPow + 1)
    ensures forall d: nat | TooBig(q, n, d) :: d == domainPow
  {
    forall d: nat | TooBig(q, n, d)
      ensures d == domainPow
    {
      PowerBelow(d, n, domainPow); PowerBelow(domainPow, n, d);
    }
  }

  /** Dividing twos out of q - 1, up to domainPow of them. */
  method TwoPart(q: nat, domainPow: nat) returns (s: nat, aux: nat)
    requires q >= 3 && q % 2 == 1
    ensures 1 <= s && (s <= domainPow || s == 1) && aux * Exp2(s) == q - 1
    ensures aux == (q - 1) / Exp2(s)
    ensures s < domainPow <==> (q - 1) % Exp2(domainPow) != 0
  {
    HasTwosIs(q - 1, domainPow);
    aux := (q - 1) / 2;
    s := 1;
    while aux % 2 == 0 && s < domainPow
      invariant aux > 0 && 1 <= s && (s <= domainPow || s == 1)
      invariant aux * Exp2(s) == q - 1
      invariant s <= domainPow ==> HasTwos(q - 1, domainPow) == HasTwos(aux, domainPow - s)
    {
      assert aux / 2 * (2 * Exp2(s)) == aux / 2 * 2 * Exp2(s);
      aux := aux / 2;
      s := s + 1;
    }
    DivModUnique(q - 1, Exp2(s), aux, 0);
  }

  lemma RootFromNonResidue<T(!new)>(R: Ring<T>, q: nat, x: T, aux: nat, s: nat)
    requires R.Valid() && s >= 1 && q % 2 == 1 && aux * Exp2(s) == q - 1
    requires R.Pow(x, (q - 1) / 2) == R.Neg(R.one)
    ensures IsRoot(R, R.Pow(x, aux), s)
  {
    R.PowPow(x, aux, Exp2(s - 1));
    assert aux * (2 * Exp2(s - 1)) == 2 * (aux * Exp2(s - 1));
  }

  method MakeRoots<T(!new)>(R: Ring<T>, w: T, s: nat, nSpan: nat) returns (roots: array<T>)
    requires R.Valid() && 1 <= s <= MAX_POWER && nSpan > 0
    ensures fresh(roots) && roots.Length == Exp2(s) && roots[1] == w
    ensures forall i: nat | i < roots.Length :: roots[i] == R.Pow(w, i)
  {
    Exp2Mono(1, s); Exp2Mono(s, 63);
    roots := new T[Exp2(s)](_ => R.one);
    roots[1] := w;
    FillRoots(R, roots, nSpan);
  }

  /** The tables from a root w of order 2^s and an inverse of two. */
  method MakeTables<T(!new, ==)>(R: Ring<T>, w: T, half: T, s: nat, nSpan: nat) returns (f: FFT<T>)
    requires R.Valid() && 1 <= s <= MAX_POWER && nSpan > 0
    requires IsRoot(R, w, s) && R.Mul(half, Two(R)) == R.one
    ensures f.Valid() && f.R == R && f.s == s && f.roots[1] == w
  {
    var roots := MakeRoots(R, w, s, nSpan);
    var inv := InversePowers(R, half, s);
    f := new FFT(R, s, roots[..], inv[..]);
  }

  /** The tables on the power of the non-residue k. */
  method MakeOn<T(!new, ==)>(R: Ring<T>, q: nat, k: nat, half: T, s: nat, aux: nat, nSpan: nat) returns (f: FFT<T>)
    requires R.Valid() && q % 2 == 1 && R.Mul(half, Two(R)) == R.one
    requires LeastNonResidue(R, q, k) && R.Pow(FromInt(R, k), (q - 1) / 2) == R.Neg(R.one)
    requires 1 <= s <= MAX_POWER && nSpan > 0 && aux * Exp2(s) == q - 1 && aux == (q - 1) / Exp2(s)
    ensures f.Valid() && f.R == R && f.s == s && BuiltOn(f, q, k)
  {
    RootFromNonResidue(R, q, FromInt(R, k), aux, s);
    f := MakeTables(R, R.Pow(FromInt(R, k), aux), half, s, nSpan);
  }

  /** FFT::FFT. Inverting 2 modulo q is taken as given: half is that inverse. The domain is refused
      exactly when q - 1 has too few factors of two for it. */
  method Make<T(!new, ==)>(R: Ring<T>, q: nat, half: T, maxDomainSize: nat, nSpan: nat, ghost nonResidue: nat)
    returns (r: Result<FFT<T>>)
    requires PrimeField(R, q, nonResidue) && R.Mul(half, Two(R)) == R.one
    requires 0 < maxDomainSize < Exp2(MAX_POWER + 1) && nSpan > 0
    ensures r.Ok? ==> r.value.Valid() && r.value.R == R && maxDomainSize < Exp2(r.value.s + 1)
    ensures r.Ok? ==> Exp2(r.value.s) <= maxDomainSize || r.value.s == 1
    ensures r.Ok? ==> exists k: nat :: BuiltOn(r.value, q, k)
    ensures r.DomainTooBig? <==> exists d: nat :: TooBig(q, maxDomainSize, d)
  {
    var domainPow := FFT<T>.Log2(maxDomainSize);
    PowerBelow(domainPow, maxDomainSize, MAX_POWER);
    var nqr := FindNonResidue(R, q, nonResidue);
    var s, aux := TwoPart(q, domainPow);
    OnlyDomain(q, maxDomainSize, domainPow);
    if s < domainPow {
      assert TooBig(q, maxDomainSize, domainPow);
      return DomainTooBig;
    }
    Exp2Mono(domainPow + 1, s + 1);
    var f := MakeOn(R, q, nqr, half, s, aux, nSpan);
    return Ok(f);
  }
}
