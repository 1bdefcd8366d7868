/** The quotient in the proof: from the values on the coset to the sum over the points of the key, in the
    real scalar field. */
module QuotientSum {
  import opened Algebra
  import opened Bits
  import opened BucketSums
  import opened Bytes
  import opened Fft
  import opened Fourier
  import opened Limbs
  import opened Modular
  import opened MontgomeryRing
  import opened Naf
  import opened ParallelMultiexp
  import opened ProofAssembly
  import opened ProverQuotient
  import opened Quotient
  import opened RawField
  import opened ScalarMul

  /** The bytes of a field element in memory. */
  const ELEMENT_SIZE: nat := 32

  /** What RawFromMontgomery does to the number in the limbs. */
  function FromMontgomery(x: ScalarElement): ScalarElement { Decode(SCALAR_MODULUS, SCALAR_R_INVERSE, x) }

  /** The memory of an array of elements. */
  function Memory(v: seq<ScalarElement>): (r: seq<byte>)
    ensures |r| == |v| * ELEMENT_SIZE
  {
    if v == [] then [] else Memory(v[..|v| - 1]) + NumberBytes(v[|v| - 1], ELEMENT_SIZE)
  }

  lemma ElementFits(x: ScalarElement)
    ensures x < Exp2(8 * ELEMENT_SIZE)
  {
    WordSizes();
    Exp2Add(64, 64); Exp2Add(128, 128);
  }

  /** Element i of the array is scalar i of its memory. */
  lemma {:induction false} MemoryScalar(v: seq<ScalarElement>, i: nat)
    requires i < |v|
    ensures HasScalar(Memory(v), ELEMENT_SIZE, i) && Scalar(Memory(v), ELEMENT_SIZE, i) == v[i]
  {
    var last := |v| - 1;
    var low, high := Memory(v[..last]), NumberBytes(v[last], ELEMENT_SIZE);
    if i < last {
      MemoryScalar(v[..last], i);
      assert ScalarBytes(Memory(v), ELEMENT_SIZE, i) == ScalarBytes(low, ELEMENT_SIZE, i);
    } else {
      assert ScalarBytes(Memory(v), ELEMENT_SIZE, i) == high;
      ElementFits(v[i]);
      NumberBytesValue(v[i], ELEMENT_SIZE);
    }
  }

  /** The sum over the packed memory is the sum over the elements. */
  lemma {:induction false} MemorySum<T(!new)>(G: Group<T>, bases: seq<T>, v: seq<ScalarElement>, k: nat)
    requires k <= |bases| && k <= |v| && Packed(Memory(v), ELEMENT_SIZE, k)
    ensures ScalarSum(G, bases, Memory(v), ELEMENT_SIZE, k) == ValueSum(G, bases, v, k)
  {
    if k > 0 {
      MemorySum(G, bases, v, k - 1);
      MemoryScalar(v, k - 1);
    }
  }

  /** v[k] is the number that is encoded by the element -2 h(z^(2k+1)). */
  ghost predicate PlainQuotients(R: Ring<ScalarElement>, v: seq<ScalarElement>, h: seq<ScalarElement>,
      z: ScalarElement) {
    |v| == |h| && forall k: nat | k < |v| :: Encodes(v[k], R.Neg(R.Mul(Two(R), Eval(R, h, R.Pow(z, 2 * k + 1)))))
  }

  /** x is v * 2^256 modulo q. */
  ghost predicate Encodes(v: nat, x: ScalarElement) { Encode(SCALAR_MODULUS, Place(4), v) == x }

  lemma DecodedEncodes(x: ScalarElement)
    ensures Encodes(FromMontgomery(x), x)
  {
    ScalarModulus();
    EncodeDecode(SCALAR_MODULUS, Place(4), SCALAR_R_INVERSE, x);
    ModSmall(x, SCALAR_MODULUS);
  }

  lemma ValuesArePlain(R: Ring<ScalarElement>, v: seq<ScalarElement>, h: seq<ScalarElement>, z: ScalarElement)
    requires QuotientsOnCoset(R, v, h, z, FromMontgomery)
    ensures PlainQuotients(R, v, h, z)
  {
    forall k: nat | k < |v|
      ensures Encodes(v[k], MinusTwiceAt(R, h, R.Pow(z, 2 * k + 1)))
    {
      DecodedEncodes(MinusTwiceAt(R, h, R.Pow(z, 2 * k + 1)));
    }
  }

  /** pih is the sum of -2 H(z^(2k+1)), as plain numbers, times pointsH[k], where A * B - C is H * (X^n - 1). */
  method CommitQuotient<T(!new, ==)>(f: FFT<ScalarElement>, g1: Multiexp<T>, table: array<nat>, pih: Element<T>,
      a: array<ScalarElement>, b: array<ScalarElement>, c: array<ScalarElement>, domainPower: nat,
      pointsH: seq<T>, nThreads: nat)
    returns (ghost pa: seq<ScalarElement>, ghost pb: seq<ScalarElement>, ghost pc: seq<ScalarElement>,
             ghost h: seq<ScalarElement>, ghost values: seq<ScalarElement>)
    requires f.Valid() && f.R == ScalarRing() && domainPower < f.s
    requires a.Length == b.Length == c.Length == Exp2(domainPower) && a != b && a != c && b != c
    requires g1.G.Valid() && TableReady(table) && nThreads > 0 && |pointsH| >= a.Length
    modifies a, b, c, g1, pih
    ensures |pa| == |pb| == |pc| == |h| == |values| == a.Length
    ensures Dft(f.R, pa, f.Omega(domainPower)) == old(a[..])
    ensures Dft(f.R, pb, f.Omega(domainPower)) == old(b[..])
    ensures Dft(f.R, pc, f.Omega(domainPower)) == MulSeq(f.R, old(a[..]), old(b[..]))
    ensures SubSeq(f.R, PolyMul(f.R, pa, pb), pc + Zeros(f.R, |pc|)) == TimesXnMinusOne(f.R, h)
    ensures PlainQuotients(f.R, values, h, f.Omega(domainPower + 1))
    ensures pih.point == ValueSum(g1.G, pointsH, values, a.Length)
  {
    pa, pb, pc, h := QuotientValues(f, a, b, c, domainPower, FromMontgomery);
    values := a[..];
    Exp2Mono(domainPower, 31);
    Exp2Mono(31, 32);
    WordSizes();
    g1.MultiExp(pih, table, pointsH, Memory(a[..]), ELEMENT_SIZE, a.Length, nThreads);
    MemorySum(g1.G, pointsH, values, a.Length);
    ValuesArePlain(f.R, values, h, f.Omega(domainPower + 1));
  }
}
