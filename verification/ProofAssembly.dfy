/** How the prover blinds and joins the sums into a proof, and why the verifier's pairing equation keeps
    the part that depends on the witness. */
module ProofAssembly {
  import opened Algebra
  import opened Bits
  import opened Bytes
  import opened Limbs
  import opened MontgomeryRing
  import opened Naf
  import opened RawField
  import opened ScalarMul

  // ---------- limbs as bytes ----------

  function NumberBytes(v: nat, n: nat): (r: seq<byte>)
    ensures |r| == n
  {
    if n == 0 then [] else [v % 256] + NumberBytes(v / 256, n - 1)
  }

  /** The memory of a number in limbs on a little-endian machine. */
  function LimbBytes(s: seq<limb>): (r: seq<byte>)
    ensures |r| == 8 * |s|
  {
    if s == [] then [] else NumberBytes(s[0], 8) + LimbBytes(s[1..])
  }

  lemma {:induction false} NumberBytesValue(v: nat, n: nat)
    requires v < Exp2(8 * n)
    ensures LE(NumberBytes(v, n)) == v
  {
    if n > 0 {
      Exp2Add(8, 8 * (n - 1));
      assert Exp2(8) == 256;
      var t := NumberBytes(v / 256, n - 1);
      assert ([v % 256] + t)[1..] == t;
      NumberBytesValue(v / 256, n - 1);
    }
  }

  lemma {:induction false} LEAppend(s: seq<byte>, t: seq<byte>, e: nat)
    requires e == Exp2(8 * |s|)
    ensures LE(s + t) == LE(s) + e * LE(t)
  {
    if s == [] {
      assert s + t == t;
    } else {
      assert (s + t)[1..] == s[1..] + t;
      Exp2Add(8, 8 * |s[1..]|);
      assert Exp2(8) == 256;
      var f := Exp2(8 * |s[1..]|);
      LEAppend(s[1..], t, f);
      Carried(f, LE(t));
    }
  }

  lemma Carried(f: nat, x: nat)
    ensures 256 * (f * x) == 256 * f * x
  {
  }

  lemma {:induction false} LimbBytesValue(s: seq<limb>)
    ensures LE(LimbBytes(s)) == Limbs.Val(s)
  {
    if s != [] {
      WordSizes();
      NumberBytesValue(s[0], 8);
      LEAppend(NumberBytes(s[0], 8), LimbBytes(s[1..]), Exp2(64));
      LimbBytesValue(s[1..]);
    }
  }

  // ---------- the product of the blinding factors ----------

  /** rs := r * s modulo q for plain r and s: the Montgomery product, brought back by R. */
  method BlindingProduct(F: Raw, rs: array<limb>, r: array<limb>, s: array<limb>)
    requires F.Valid() && F.Free(rs) && r.Length == s.Length == 4 && Number(s) < F.Q
    modifies rs
    ensures Number(rs) == (old(Number(r)) * old(Number(s))) % F.Q
  {
    ghost var x: int, y: int := Number(r), Number(s);
    F.RawMMul(rs, r, s);
    EncodeDecode(F.Q, F.R, F.rInv, x * y);
    F.RawToMontgomery(rs, rs);
  }

  // ---------- the assembly ----------

  /** Scalar multiplication by the number in four limbs. */
  method MulByLimbs<T(!new)>(G: Group<T>, table: array<nat>, r: Element<T>, base: T, k: array<limb>)
    requires G.Valid() && TableReady(table) && k.Length == 4
    modifies r
    ensures r.point == G.Times(Number(k), base)
  {
    var b := new Element<T>(base);
    LimbBytesValue(k[..4]);
    NafMulByScalar(G, table, r, b, LimbBytes(k[..4]));
  }

  method AddPoint<T(!new)>(G: Group<T>, r: Element<T>, p: T)
    modifies r
    ensures r.point == G.Add(old(r.point), p)
  {
    var b := new Element<T>(p);
    Add(G, r, r, b);
  }

  /** p1 := k * base; r := r + p1. */
  method AddMultiple<T(!new)>(G: Group<T>, table: array<nat>, r: Element<T>, base: T, k: array<limb>)
    requires G.Valid() && TableReady(table) && k.Length == 4
    modifies r
    ensures r.point == G.Add(old(r.point), G.Times(Number(k), base))
  {
    var p1 := new Element<T>(G.zero);
    MulByLimbs(G, table, p1, base, k);
    Add(G, r, r, p1);
  }

  method SubtractMultiple<T(!new)>(G: Group<T>, table: array<nat>, r: Element<T>, base: T, k: array<limb>)
    requires G.Valid() && TableReady(table) && k.Length == 4
    modifies r
    ensures r.point == G.Sub(old(r.point), G.Times(Number(k), base))
  {
    var p1 := new Element<T>(G.zero);
    MulByLimbs(G, table, p1, base, k);
    Subtract(G, r, r, p1);
  }

  /** sum := sum + key + k * delta. */
  method Blind<T(!new)>(G: Group<T>, table: array<nat>, sum: Element<T>, key: T, delta: T, k: array<limb>)
    requires G.Valid() && TableReady(table) && k.Length == 4
    modifies sum
    ensures sum.point == G.Add(G.Add(old(sum.point), key), G.Times(Number(k), delta))
  {
    AddPoint(G, sum, key);
    AddMultiple(G, table, sum, delta, k);
  }

  /** pi_c := pi_c + pih + s * pi_a + r * pib1. */
  method JoinC<T(!new)>(G: Group<T>, table: array<nat>, pi_c: Element<T>, pih: T, pi_a: T, pib1: T, r: array<limb>,
      s: array<limb>)
    requires G.Valid() && TableReady(table) && r.Length == s.Length == 4
    modifies pi_c
    ensures pi_c.point ==
            G.Add(G.Add(G.Add(old(pi_c.point), pih), G.Times(Number(s), pi_a)), G.Times(Number(r), pib1))
  {
    AddPoint(G, pi_c, pih);
    AddMultiple(G, table, pi_c, pi_a, s);
    AddMultiple(G, table, pi_c, pib1, r);
  }

  /** From the sums over the witness and the verification key to the three points of the proof. */
  method Assemble<T(!new), U(!new)>(G1: Group<T>, G2: Group<U>, F: Raw, table: array<nat>,
      pi_a: Element<T>, pi_b: Element<U>, pib1: Element<T>, pi_c: Element<T>, pih: T,
      alpha1: T, beta1: T, delta1: T, beta2: U, delta2: U, r: array<limb>, s: array<limb>)
    requires G1.Valid() && G2.Valid() && F.Valid() && TableReady(table)
    requires r.Length == s.Length == 4 && Number(s) < F.Q
    requires pi_a != pib1 && pi_a != pi_c && pib1 != pi_c
    requires pi_b as object != pi_a && pi_b as object != pib1 && pi_b as object != pi_c
    modifies pi_a, pi_b, pib1, pi_c
    ensures pi_a.point == G1.Add(G1.Add(old(pi_a.point), alpha1), G1.Times(Number(r), delta1))
    ensures pi_b.point == G2.Add(G2.Add(old(pi_b.point), beta2), G2.Times(Number(s), delta2))
    ensures pib1.point == G1.Add(G1.Add(old(pib1.point), beta1), G1.Times(Number(s), delta1))
    ensures pi_c.point ==
            G1.Sub(G1.Add(G1.Add(G1.Add(old(pi_c.point), pih), G1.Times(Number(s), pi_a.point)),
              G1.Times(Number(r), pib1.point)),
                   G1.Times((Number(r) * Number(s)) % F.Q, delta1))
  {
    Blind(G1, table, pi_a, alpha1, delta1, r);
    Blind(G2, table, pi_b, beta2, delta2, s);
    Blind(G1, table, pib1, beta1, delta1, s);
    JoinC(G1, table, pi_c, pih, pi_a.point, pib1.point, r, s);
    var rs := new limb[4];
    BlindingProduct(F, rs, r, s);
    SubtractMultiple(G1, table, pi_c, delta1, rs);
  }

  // ---------- the pairing equation ----------

  datatype Pairing<!T(!new), !U(!new), !V(!new)> = Pairing(G1: Group<T>, G2: Group<U>, GT: Group<V>, e: (T, U) -> V)
  {
    ghost predicate LeftLaw(a: T, b: T, c: U) { e(G1.Add(a, b), c) == GT.Add(e(a, c), e(b, c)) }
    ghost predicate RightLaw(a: T, b: U, c: U) { e(a, G2.Add(b, c)) == GT.Add(e(a, b), e(a, c)) }

    ghost predicate Valid() {
      && G1.Valid() && G2.Valid() && GT.Valid()
      && (forall a, b, c :: LeftLaw(a, b, c)) && (forall a, b, c :: RightLaw(a, b, c))
    }

    lemma Left(a: T, b: T, c: U)
      requires Valid()
      ensures e(G1.Add(a, b), c) == GT.Add(e(a, c), e(b, c))
    {
      assert LeftLaw(a, b, c);
    }

    lemma Right(a: T, b: U, c: U)
      requires Valid()
      ensures e(a, G2.Add(b, c)) == GT.Add(e(a, b), e(a, c))
    {
      assert RightLaw(a, b, c);
    }

    lemma ZeroLaws(a: T, c: U)
      requires Valid()
      ensures e(G1.zero, c) == GT.zero && e(a, G2.zero) == GT.zero
    {
      G1.Unit(G1.zero); Left(G1.zero, G1.zero, c); GT.Unit(e(G1.zero, c));
      GT.Cancel(e(G1.zero, c), GT.zero, e(G1.zero, c));
      G2.Unit(G2.zero); Right(a, G2.zero, G2.zero); GT.Unit(e(a, G2.zero));
      GT.Cancel(e(a, G2.zero), GT.zero, e(a, G2.zero));
    }

    lemma {:induction false} LeftTimes(k: nat, a: T, c: U)
      requires Valid()
      ensures e(G1.Times(k, a), c) == GT.Times(k, e(a, c))
    {
      if k == 0 {
        ZeroLaws(a, c);
      } else {
        LeftTimes(k - 1, a, c);
        Left(a, G1.Times(k - 1, a), c);
      }
    }

    lemma {:induction false} RightTimes(k: nat, a: T, c: U)
      requires Valid()
      ensures e(a, G2.Times(k, c)) == GT.Times(k, e(a, c))
    {
      if k == 0 {
        ZeroLaws(a, c);
      } else {
        RightTimes(k - 1, a, c);
        Right(a, c, G2.Times(k - 1, c));
      }
    }
  }

  /** In a group of order q, multiples depend on the factor modulo q only. */
  lemma TimesModulo<T(!new)>(G: Group<T>, q: nat, k: nat, p: T)
    requires G.Valid() && q > 0 && G.Times(q, p) == G.zero
    ensures G.Times(k % q, p) == G.Times(k, p)
  {
    var b, j := Split(k, q);
    G.TimesAdd(b * q, j, p);
    G.TimesTimes(b, q, p);
    G.TimesZero(b);
    G.Unit(G.Times(j, p));
  }

  /** Points with the same exponents in both groups pair alike. */
  lemma SameExponents<T(!new), U(!new), V(!new)>(P: Pairing<T, U, V>, g1: T, g2: U, b: nat, d: nat)
    requires P.Valid()
    ensures P.e(P.G1.Times(b, g1), P.G2.Times(d, g2)) == P.e(P.G1.Times(d, g1), P.G2.Times(b, g2))
  {
    P.LeftTimes(b, g1, P.G2.Times(d, g2)); P.RightTimes(d, g1, g2);
    P.LeftTimes(d, g1, P.G2.Times(b, g2)); P.RightTimes(b, g1, g2);
    P.GT.TimesTimes(b, d, P.e(g1, g2)); P.GT.TimesTimes(d, b, P.e(g1, g2));
    assert b * d == d * b;
  }

  /** What is blinded cancels: with a and b the unblinded left sides and x = s A' + r B' - r s delta,
      e(a + r delta, b + s delta) = e(a, b) + e(x, delta). */
  lemma BlindingCancels<T(!new), U(!new), V(!new)>(P: Pairing<T, U, V>, a: T, b1: T, b2: U, d1: T, d2: U, r: nat,
      s: nat, x: T)
    requires P.Valid() && P.e(b1, d2) == P.e(d1, b2)
    requires var pa, pb := P.G1.Add(a, P.G1.Times(r, d1)), P.G1.Add(b1, P.G1.Times(s, d1));
             x == P.G1.Sub(P.G1.Add(P.G1.Times(s, pa), P.G1.Times(r, pb)), P.G1.Times(r * s, d1))
    ensures P.e(P.G1.Add(a, P.G1.Times(r, d1)), P.G2.Add(b2, P.G2.Times(s, d2))) == P.GT.Add(P.e(a, b2), P.e(x, d2))
  {
    var G, K := P.G1, P.GT;
    var rd, sd := G.Times(r, d1), P.G2.Times(s, d2);
    // the left side, term by term
    P.Left(a, rd, P.G2.Add(b2, sd));
    P.Right(a, b2, sd); P.RightTimes(s, a, d2);
    P.Right(rd, b2, sd); P.LeftTimes(r, d1, b2); P.RightTimes(s, rd, d2); P.LeftTimes(r, d1, d2);
    // x without the products of both factors
    XReduced(G, a, b1, d1, r, s, x);
    P.Left(G.Times(s, G.Add(a, rd)), G.Times(r, b1), d2);
    P.LeftTimes(s, G.Add(a, rd), d2); P.Left(a, rd, d2);
    P.LeftTimes(r, b1, d2);
    var ab, ad, bd, dd := P.e(a, b2), P.e(a, d2), P.e(b1, d2), P.e(rd, d2);
    K.TimesSum(s, ad, dd);
    // (ab + s ad) + (r bd + s dd) = ab + ((s ad + s dd) + r bd)
    K.Assoc(ab, K.Times(s, ad), K.Add(K.Times(r, bd), K.Times(s, dd)));
    K.Comm(K.Times(r, bd), K.Times(s, dd));
    K.Assoc(K.Times(s, ad), K.Times(s, dd), K.Times(r, bd));
  }

  lemma XReduced<T(!new)>(G: Group<T>, a: T, b1: T, d1: T, r: nat, s: nat, x: T)
    requires G.Valid()
    requires var pa, pb := G.Add(a, G.Times(r, d1)), G.Add(b1, G.Times(s, d1));
             x == G.Sub(G.Add(G.Times(s, pa), G.Times(r, pb)), G.Times(r * s, d1))
    ensures x == G.Add(G.Times(s, G.Add(a, G.Times(r, d1))), G.Times(r, b1))
  {
    var spa := G.Times(s, G.Add(a, G.Times(r, d1)));
    G.TimesSum(r, b1, G.Times(s, d1));
    G.TimesTimes(r, s, d1);
    G.Assoc(spa, G.Times(r, b1), G.Times(r * s, d1));
    G.SubAdd(G.Add(spa, G.Times(r, b1)), G.Times(r * s, d1));
  }

  /** The assembled points satisfy e(pi_a, pi_b) = e(alpha + a, beta + b) + e(pi_c - c - h, delta), when the
      G1 and G2 forms of beta + b and of delta agree and q is the order of delta. */
  lemma PairingEquation<T(!new), U(!new), V(!new)>(P: Pairing<T, U, V>, q: nat,
      a: T, b1: T, b2: U, c: T, h: T, alpha1: T, beta1: T, delta1: T, beta2: U, delta2: U, r: nat, s: nat,
      pa: T, pb1: T, pb2: U, pc: T)
    requires P.Valid() && q > 0 && P.G1.Times(q, delta1) == P.G1.zero
    requires P.e(P.G1.Add(b1, beta1), delta2) == P.e(delta1, P.G2.Add(b2, beta2))
    requires pa == P.G1.Add(P.G1.Add(a, alpha1), P.G1.Times(r, delta1))
    requires pb2 == P.G2.Add(P.G2.Add(b2, beta2), P.G2.Times(s, delta2))
    requires pb1 == P.G1.Add(P.G1.Add(b1, beta1), P.G1.Times(s, delta1))
    requires pc == P.G1.Sub(P.G1.Add(P.G1.Add(P.G1.Add(c, h), P.G1.Times(s, pa)), P.G1.Times(r, pb1)),
             P.G1.Times(r * s % q, delta1))
    ensures P.e(pa, pb2) == P.GT.Add(P.e(P.G1.Add(a, alpha1), P.G2.Add(b2, beta2)),
            P.e(P.G1.Sub(pc, P.G1.Add(c, h)), delta2))
  {
    var G := P.G1;
    var ch, u, v, w := G.Add(c, h), G.Times(s, pa), G.Times(r, pb1), G.Times(r * s, delta1);
    TimesModulo(G, q, r * s, delta1);
    Isolate(G, ch, u, v, w);
    BlindingCancels(P, G.Add(a, alpha1), G.Add(b1, beta1), P.G2.Add(b2, beta2), delta1, delta2, r, s,
      G.Sub(G.Add(u, v), w));
  }

  lemma Isolate<T(!new)>(G: Group<T>, ch: T, u: T, v: T, w: T)
    requires G.Valid()
    ensures G.Sub(G.Sub(G.Add(G.Add(ch, u), v), w), ch) == G.Sub(G.Add(u, v), w)
  {
    G.Assoc(ch, u, v);
    G.Assoc(ch, G.Add(u, v), G.Neg(w));
    G.Comm(ch, G.Sub(G.Add(u, v), w));
    G.SubAdd(G.Sub(G.Add(u, v), w), ch);
  }
}
