/** Sums over window buckets: what a multi-exponentiation by windows has to add up. */
module BucketSums {
  import opened Algebra
  import opened Bits
  import opened Bytes
  import opened Windows

  // ---------- sums over buckets ----------

  /** The sum of v * s[v] for v below m. */
  function Weighted<T(!new)>(G: Group<T>, s: seq<T>, m: nat): T
    requires m <= |s|
  {
    if m == 0 then G.zero else G.Add(Weighted(G, s, m - 1), G.Times(m - 1, s[m - 1]))
  }

  lemma {:induction false} WeightedSame<T(!new)>(G: Group<T>, s: seq<T>, t: seq<T>, m: nat)
    requires m <= |s| && m <= |t| && forall v | 1 <= v < m :: s[v] == t[v]
    ensures Weighted(G, s, m) == Weighted(G, t, m)
  {
    if m > 0 { WeightedSame(G, s, t, m - 1); }
  }

  lemma {:induction false} WeightedAdd<T(!new)>(G: Group<T>, s: seq<T>, v: nat, p: T, m: nat)
    requires G.Valid() && v < |s| && m <= |s|
    ensures Weighted(G, s[v := G.Add(s[v], p)], m) ==
            if v < m then G.Add(Weighted(G, s, m), G.Times(v, p)) else Weighted(G, s, m)
  {
    if m > 0 {
      WeightedAdd(G, s, v, p, m - 1);
      var w, t := Weighted(G, s, m - 1), G.Times(m - 1, s[m - 1]);
      if v == m - 1 {
        G.TimesSum(v, s[v], p);
        G.Assoc(w, t, G.Times(v, p));
      } else if v < m {
        G.Swap(w, G.Times(v, p), t);
      }
    }
  }

  lemma {:induction false} WeightedZero<T(!new)>(G: Group<T>, s: seq<T>, m: nat)
    requires G.Valid() && m <= |s| && forall v | 1 <= v < m :: s[v] == G.zero
    ensures Weighted(G, s, m) == G.zero
  {
    if m > 0 {
      WeightedZero(G, s, m - 1);
      if m > 1 { G.TimesZero(m - 1); }
      G.Unit(G.zero);
    }
  }

  /** The sum of s[lo + i] for i below m. */
  function Plain<T(!new)>(G: Group<T>, s: seq<T>, lo: nat, m: nat): T
    requires lo + m <= |s|
  {
    if m == 0 then G.zero else G.Add(Plain(G, s, lo, m - 1), s[lo + (m - 1)])
  }

  /** The buckets of the upper half folded onto the lower half. */
  function Folded<T(!new)>(G: Group<T>, s: seq<T>, h: nat): (r: seq<T>)
    requires 2 * h <= |s|
    ensures |r| == h && forall i {:trigger r[i]} | 0 <= i < h :: r[i] == G.Add(s[i], s[h + i])
  {
    seq(h, i requires 0 <= i < h => G.Add(s[i], s[h + i]))
  }

  /** The fold f of the first m buckets of the upper half, and h times the sum of those, make what the
      two halves weigh up to there. */
  ghost predicate FoldsUpTo<T(!new)>(G: Group<T>, s: seq<T>, f: seq<T>, h: nat, m: nat)
    requires 2 * h <= |s| && m <= h && |f| == h
  {
    G.Add(Weighted(G, f, m), G.Add(Weighted(G, s, h), G.Times(h, Plain(G, s, h, m)))) ==
    G.Add(Weighted(G, s, m), Weighted(G, s, h + m))
  }

  lemma {:induction false} FoldUpTo<T(!new)>(G: Group<T>, s: seq<T>, f: seq<T>, h: nat, m: nat)
    requires G.Valid() && 2 * h <= |s| && m <= h && f == Folded(G, s, h)
    ensures FoldsUpTo(G, s, f, h, m)
  {
    if m == 0 {
      FoldNone(G, h, Weighted(G, s, h));
    } else {
      FoldUpTo(G, s, f, h, m - 1);
      FoldNext(G, s, f, h, m - 1);
    }
  }

  lemma FoldNone<T(!new)>(G: Group<T>, h: nat, w: T)
    requires G.Valid()
    ensures G.Add(G.zero, G.Add(w, G.Times(h, G.zero))) == G.Add(G.zero, w)
  {
    G.TimesZero(h);
    G.Unit(w);
  }

  lemma FoldNext<T(!new)>(G: Group<T>, s: seq<T>, f: seq<T>, h: nat, i: nat)
    requires G.Valid() && 2 * h <= |s| && i < h && |f| == h && f[i] == G.Add(s[i], s[h + i])
    requires FoldsUpTo(G, s, f, h, i)
    ensures FoldsUpTo(G, s, f, h, i + 1)
  {
    FoldTerm(G, i, h, s[i], s[h + i], Plain(G, s, h, i), Weighted(G, f, i), Weighted(G, s, h),
      Weighted(G, s, i), Weighted(G, s, h + i));
  }

  /** Buckets i and h + i join the sums on both sides. */
  lemma FoldTerm<T(!new)>(G: Group<T>, i: nat, h: nat, a: T, b: T, u: T, f: T, w: T, wi: T, whi: T)
    requires G.Valid() && G.Add(f, G.Add(w, G.Times(h, u))) == G.Add(wi, whi)
    ensures G.Add(G.Add(f, G.Times(i, G.Add(a, b))), G.Add(w, G.Times(h, G.Add(u, b)))) ==
            G.Add(G.Add(wi, G.Times(i, a)), G.Add(whi, G.Times(h + i, b)))
  {
    G.TimesSum(i, a, b);
    G.TimesSum(h, u, b);
    G.TimesAdd(h, i, b);
    FoldRegroup(G, f, w, G.Times(h, u), G.Times(i, a), G.Times(i, b), G.Times(h, b), wi, whi);
  }

  lemma FoldRegroup<T(!new)>(G: Group<T>, f: T, w: T, hu: T, ia: T, ib: T, hb: T, wi: T, whi: T)
    requires G.Valid() && G.Add(f, G.Add(w, hu)) == G.Add(wi, whi)
    ensures G.Add(G.Add(f, G.Add(ia, ib)), G.Add(w, G.Add(hu, hb))) == G.Add(G.Add(wi, ia), G.Add(whi, G.Add(hb, ib)))
  {
    G.Assoc(w, hu, hb);
    G.Swap4(f, G.Add(ia, ib), G.Add(w, hu), hb);
    G.Assoc(ia, ib, hb);
    G.Comm(ib, hb);
    G.Swap4(wi, ia, whi, G.Add(hb, ib));
  }

  /** Halving the buckets: the fold and h times the sum of the upper half make the whole. */
  lemma Fold<T(!new)>(G: Group<T>, s: seq<T>, h: nat)
    requires G.Valid() && 2 * h <= |s|
    ensures G.Add(Weighted(G, Folded(G, s, h), h), G.Times(h, Plain(G, s, h, h))) == Weighted(G, s, 2 * h)
  {
    FoldUpTo(G, s, Folded(G, s, h), h, h);
    var w, f, u := Weighted(G, s, h), Weighted(G, Folded(G, s, h), h), G.Times(h, Plain(G, s, h, h));
    G.Swap(f, w, u);
    G.Comm(w, G.Add(f, u));
    G.Comm(w, Weighted(G, s, 2 * h));
    G.Cancel(G.Add(f, u), Weighted(G, s, 2 * h), w);
  }

  // ---------- what the call is for ----------

  /** Scalar i out of the packed scalars. */
  function ScalarBytes(scalars: seq<byte>, size: nat, i: nat): (r: seq<byte>)
    requires i * size + size <= |scalars|
    ensures |r| == size
  {
    scalars[i * size..i * size + size]
  }

  ghost predicate Packed(scalars: seq<byte>, size: nat, n: nat) {
    forall i: nat | i < n :: HasScalar(scalars, size, i)
  }

  ghost predicate HasScalar(scalars: seq<byte>, size: nat, i: nat) { i * size + size <= |scalars| }

  lemma AllPacked(scalars: seq<byte>, size: nat, n: nat)
    requires |scalars| == n * size
    ensures Packed(scalars, size, n)
  {
    forall i: nat | i < n
      ensures HasScalar(scalars, size, i)
    {
      MulMono(i + 1, n, size);
      assert (i + 1) * size == i * size + size;
    }
  }

  function Scalar(scalars: seq<byte>, size: nat, i: nat): nat
    requires HasScalar(scalars, size, i)
  {
    LE(ScalarBytes(scalars, size, i))
  }

  /** The sum of scalar times base over the first k points. */
  ghost function ScalarSum<T(!new)>(G: Group<T>, bases: seq<T>, scalars: seq<byte>, size: nat, k: nat): T
    requires k <= |bases| && Packed(scalars, size, k)
  {
    if k == 0 then G.zero
    else
      assert HasScalar(scalars, size, k - 1);
      G.Add(ScalarSum(G, bases, scalars, size, k - 1), G.Times(Scalar(scalars, size, k - 1), bases[k - 1]))
  }

  /** What is left of the scalars from bit place p up, times the bases. */
  ghost function ShiftedSum<T(!new)>(G: Group<T>, bases: seq<T>, scalars: seq<byte>, size: nat, p: nat, k: nat): T
    requires k <= |bases| && Packed(scalars, size, k)
  {
    if k == 0 then G.zero
    else
      assert HasScalar(scalars, size, k - 1);
      G.Add(ShiftedSum(G, bases, scalars, size, p, k - 1), G.Times(Shr(Scalar(scalars, size, k - 1), p), bases[k - 1]))
  }

  lemma {:induction false} NothingShifted<T(!new)>(G: Group<T>, bases: seq<T>, scalars: seq<byte>, size: nat, k: nat)
    requires k <= |bases| && Packed(scalars, size, k)
    ensures ShiftedSum(G, bases, scalars, size, 0, k) == ScalarSum(G, bases, scalars, size, k)
  {
    if k > 0 { NothingShifted(G, bases, scalars, size, k - 1); }
  }

  lemma {:induction false} AllShifted<T(!new)>(G: Group<T>, bases: seq<T>, scalars: seq<byte>, size: nat, p: nat,
      k: nat)
    requires G.Valid() && k <= |bases| && Packed(scalars, size, k) && 8 * size <= p
    ensures ShiftedSum(G, bases, scalars, size, p, k) == G.zero
  {
    if k > 0 {
      AllShifted(G, bases, scalars, size, p, k - 1);
      assert HasScalar(scalars, size, k - 1);
      LEBound(ScalarBytes(scalars, size, k - 1));
      ShrGone(Scalar(scalars, size, k - 1), 8 * size, p);
      G.Unit(G.zero);
    }
  }

  /** The sum of values[i] * bases[i] for i below k. */
  function ValueSum<T(!new)>(G: Group<T>, bases: seq<T>, values: seq<nat>, k: nat): T
    requires k <= |bases| && k <= |values|
  {
    if k == 0 then G.zero else G.Add(ValueSum(G, bases, values, k - 1), G.Times(values[k - 1], bases[k - 1]))
  }

  /** values holds window j of every scalar. */
  ghost predicate AreChunks(values: seq<nat>, scalars: seq<byte>, size: nat, bits: nat, j: nat)
    requires Packed(scalars, size, |values|)
  {
    forall i: nat | i < |values| :: IsChunk(values, scalars, size, bits, j, i)
  }

  ghost predicate IsChunk(values: seq<nat>, scalars: seq<byte>, size: nat, bits: nat, j: nat, i: nat)
    requires i < |values| && Packed(scalars, size, |values|)
  {
    assert HasScalar(scalars, size, i);
    values[i] == Chunk(Scalar(scalars, size, i), bits, j)
  }

  /** Window j of the first k scalars. */
  ghost function ChunkValues(scalars: seq<byte>, size: nat, bits: nat, j: nat, k: nat): (r: seq<nat>)
    requires Packed(scalars, size, k)
    ensures |r| == k && AreChunks(r, scalars, size, bits, j)
    ensures forall i: nat | i < k :: r[i] < Exp2(bits)
  {
    var r := seq(k, i requires 0 <= i < k =>
      assert HasScalar(scalars, size, i); Chunk(Scalar(scalars, size, i), bits, j));
    assert forall i: nat | i < |r| :: IsChunk(r, scalars, size, bits, j, i);
    r
  }

  /** Window j of the first k scalars times the bases. */
  ghost function WindowTotal<T(!new)>(G: Group<T>, bases: seq<T>, scalars: seq<byte>, size: nat, bits: nat, j: nat,
      k: nat): T
    requires k <= |bases| && Packed(scalars, size, k)
  {
    ValueSum(G, bases, ChunkValues(scalars, size, bits, j, k), k)
  }

  /** Taking one more window into account. */
  lemma {:induction false} WindowTerm<T(!new)>(G: Group<T>, bases: seq<T>, values: seq<nat>,
      scalars: seq<byte>, size: nat, bits: nat, j: nat, k: nat)
    requires G.Valid() && k <= |bases| && k <= |values|
    requires Packed(scalars, size, |values|) && Packed(scalars, size, k) && AreChunks(values, scalars, size, bits, j)
    ensures G.Add(G.Times(Exp2(bits), ShiftedSum(G, bases, scalars, size, (j + 1) * bits, k)),
            ValueSum(G, bases, values, k)) ==
            ShiftedSum(G, bases, scalars, size, j * bits, k)
  {
    if k == 0 {
      G.TimesZero(Exp2(bits)); G.Unit(G.zero);
    } else {
      WindowTerm(G, bases, values, scalars, size, bits, j, k - 1);
      assert IsChunk(values, scalars, size, bits, j, k - 1);
      assert HasScalar(scalars, size, k - 1);
      ScaledTerm(G, Scalar(scalars, size, k - 1), bits, j, bases[k - 1],
        ShiftedSum(G, bases, scalars, size, (j + 1) * bits, k - 1),
        ValueSum(G, bases, values, k - 1));
    }
  }

  lemma ScaledTerm<T(!new)>(G: Group<T>, v: nat, bits: nat, j: nat, p: T, u: T, w: T)
    requires G.Valid()
    ensures G.Add(G.Times(Exp2(bits), G.Add(u, G.Times(Shr(v, (j + 1) * bits), p))),
            G.Add(w, G.Times(Chunk(v, bits, j), p))) ==
            G.Add(G.Add(G.Times(Exp2(bits), u), w), G.Times(Shr(v, j * bits), p))
  {
    var e, q, c := Exp2(bits), Shr(v, (j + 1) * bits), Chunk(v, bits, j);
    ChunkStep(v, bits, j);
    G.TimesSum(e, u, G.Times(q, p));
    TimesScaled(G, e, q, c, p, Shr(v, j * bits));
    G.Swap4(G.Times(e, u), G.Times(e, G.Times(q, p)), w, G.Times(c, p));
  }

  lemma TimesScaled<T(!new)>(G: Group<T>, e: nat, q: nat, c: nat, p: T, x: nat)
    requires G.Valid() && q * e + c == x
    ensures G.Add(G.Times(e, G.Times(q, p)), G.Times(c, p)) == G.Times(x, p)
  {
    assert q * e == e * q;
    G.TimesTimes(e, q, p);
    G.TimesAdd(e * q, c, p);
  }

  // ---------- what a window puts into the buckets ----------

  /** The sum of the bases below k that have been handled and whose window value is v. */
  ghost function Bucket<T(!new)>(G: Group<T>, bases: seq<T>, values: seq<nat>, pending: set<nat>, v: nat, k: nat): T
    requires k <= |bases| && k <= |values|
  {
    if k == 0 then G.zero
    else G.Add(Bucket(G, bases, values, pending, v, k - 1),
               if k - 1 !in pending && values[k - 1] == v then bases[k - 1] else G.zero)
  }

  lemma {:induction false} BucketNone<T(!new)>(G: Group<T>, bases: seq<T>, values: seq<nat>, pending: set<nat>,
      v: nat, k: nat)
    requires G.Valid() && k <= |bases| && k <= |values| && forall i: nat | i < k :: i in pending
    ensures Bucket(G, bases, values, pending, v, k) == G.zero
  {
    if k > 0 { BucketNone(G, bases, values, pending, v, k - 1); G.Unit(G.zero); }
  }

  lemma {:induction false} BucketStep<T(!new)>(G: Group<T>, bases: seq<T>, values: seq<nat>, pending: set<nat>,
      v: nat, k: nat, i: nat)
    requires G.Valid() && k <= |bases| && k <= |values| && i in pending && i < |bases| && i < |values|
    ensures Bucket(G, bases, values, pending - {i}, v, k) ==
            if i < k && values[i] == v then G.Add(Bucket(G, bases, values, pending, v, k), bases[i])
            else Bucket(G, bases, values, pending, v, k)
  {
    if k > 0 {
      BucketStep(G, bases, values, pending, v, k - 1, i);
      var b := Bucket(G, bases, values, pending, v, k - 1);
      if i == k - 1 {
        G.Unit(b);
      } else if i < k && values[i] == v {
        G.Swap(b, bases[i], if k - 1 !in pending && values[k - 1] == v then bases[k - 1] else G.zero);
      }
    }
  }

  /** All buckets of a window as a sequence. */
  ghost function Buckets<T(!new)>(G: Group<T>, bases: seq<T>, values: seq<nat>, width: nat, k: nat): (r: seq<T>)
    requires k <= |bases| && k <= |values|
    ensures |r| == width && forall v | 0 <= v < width :: r[v] == Bucket(G, bases, values, {}, v, k)
  {
    seq(width, v requires 0 <= v < width => Bucket(G, bases, values, {}, v, k))
  }

  /** Weighing the buckets by their numbers gives every base times its window value. */
  lemma {:induction false} BucketsWeigh<T(!new)>(G: Group<T>, bases: seq<T>, values: seq<nat>, width: nat, k: nat)
    requires G.Valid() && k <= |bases| && k <= |values| && forall i: nat | i < k :: values[i] < width
    ensures Weighted(G, Buckets(G, bases, values, width, k), width) == ValueSum(G, bases, values, k)
  {
    var now := Buckets(G, bases, values, width, k);
    if k == 0 {
      WeightedZero(G, now, width);
    } else {
      BucketsWeigh(G, bases, values, width, k - 1);
      var before, v, p := Buckets(G, bases, values, width, k - 1), values[k - 1], bases[k - 1];
      forall w | 0 <= w < width
        ensures now[w] == before[v := G.Add(before[v], p)][w]
      {
        G.Unit(before[w]);
      }
      assert now == before[v := G.Add(before[v], p)];
      WeightedAdd(G, before, v, p, width);
    }
  }

  /** One Horner step over the windows. */
  lemma NextWindow<T(!new)>(G: Group<T>, bases: seq<T>, scalars: seq<byte>, size: nat, bits: nat, j: nat, k: nat)
    requires G.Valid() && k <= |bases| && Packed(scalars, size, k)
    ensures G.Add(G.Times(Exp2(bits), ShiftedSum(G, bases, scalars, size, (j + 1) * bits, k)),
            WindowTotal(G, bases, scalars, size, bits, j, k)) ==
            ShiftedSum(G, bases, scalars, size, j * bits, k)
  {
    WindowTerm(G, bases, ChunkValues(scalars, size, bits, j, k), scalars, size, bits, j, k);
  }

  /** The top window is all that is left of the scalars there. */
  lemma LastWindow<T(!new)>(G: Group<T>, bases: seq<T>, scalars: seq<byte>, size: nat, bits: nat, j: nat, k: nat)
    requires G.Valid() && k <= |bases| && Packed(scalars, size, k) && 8 * size <= (j + 1) * bits
    ensures WindowTotal(G, bases, scalars, size, bits, j, k) == ShiftedSum(G, bases, scalars, size, j * bits, k)
  {
    NextWindow(G, bases, scalars, size, bits, j, k);
    AllShifted(G, bases, scalars, size, (j + 1) * bits, k);
    G.TimesZero(Exp2(bits));
    G.Unit(WindowTotal(G, bases, scalars, size, bits, j, k));
  }

  lemma OneScalar<T(!new)>(G: Group<T>, bases: seq<T>, scalars: seq<byte>, size: nat)
    requires G.Valid() && |bases| >= 1 && |scalars| == size && Packed(scalars, size, 1)
    ensures ScalarSum(G, bases, scalars, size, 1) == G.Times(LE(scalars), bases[0])
  {
    assert HasScalar(scalars, size, 0);
    assert ScalarBytes(scalars, size, 0) == scalars;
    assert ScalarSum(G, bases, scalars, size, 0) == G.zero;
    G.Unit(G.Times(LE(scalars), bases[0]));
  }
}
