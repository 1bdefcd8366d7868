/** Multi-exponentiation by windows: every point goes into the bucket of its window value, threads
    keep rows of buckets of their own, and the rows are then merged and reduced in place. */
module ParallelMultiexp {
  import opened Algebra
  import opened Bits
  import opened Bytes
  import opened BucketArray
  import opened BucketSums
  import Log2
  import opened Naf
  import opened ParallelFor
  import opened ScalarMul
  import opened Windows

  const PACK_FACTOR := 2
  const MAX_CHUNK_SIZE_BITS := 16
  const MIN_CHUNK_SIZE_BITS := 2

  class Multiexp<T(!new,==)> {
    const G: Group<T>
    var bases: seq<T>
    var scalars: seq<byte>
    var scalarSize: nat
    var n: nat
    var nThreads: nat
    var bitsPerChunk: nat
    var accsPerChunk: nat
    var nChunks: nat
    var accs: array<T>

    constructor (G: Group<T>)
      ensures this.G == G
    {
      this.G := G;
      bases, scalars, scalarSize, n := [], [], 0, 0;
      nThreads, bitsPerChunk, accsPerChunk, nChunks := 0, 0, 0, 0;
      accs := new T[0];
    }

    /** The fields as multiexp sets them up. */
    ghost predicate Ready()
      reads this
    {
      && G.Valid() && nThreads > 0 && |bases| >= n && scalarSize >= 8
      && |scalars| == n * scalarSize && Packed(scalars, scalarSize, n)
      && MIN_CHUNK_SIZE_BITS <= bitsPerChunk <= MAX_CHUNK_SIZE_BITS && accsPerChunk == Exp2(bitsPerChunk)
      && nChunks == ChunkCount(8 * scalarSize, bitsPerChunk)
      && accs.Length == nThreads * accsPerChunk
    }

    /** Window chunkIdx of scalar scalarIdx. */
    method GetChunk(scalarIdx: nat, chunkIdx: nat) returns (v: nat)
      requires Ready() && scalarIdx < n && chunkIdx < nChunks
      ensures HasScalar(scalars, scalarSize, scalarIdx)
      ensures v == Chunk(Scalar(scalars, scalarSize, scalarIdx), bitsPerChunk, chunkIdx)
    {
      assert HasScalar(scalars, scalarSize, scalarIdx);
      var bitStart := chunkIdx * bitsPerChunk;
      WindowStart(8 * scalarSize, bitsPerChunk, nChunks, chunkIdx);
      v := ReadWindow(scalars, scalarSize, scalarIdx, bitStart, bitsPerChunk);
    }

    method InitAccs()
      requires accs.Length == nThreads * accsPerChunk
      modifies accs
      ensures forall k | 0 <= k < accs.Length :: accs[k] == G.zero
    {
      var remaining := Iterations(0, nThreads * accsPerChunk);
      while remaining != {}
        invariant forall k | 0 <= k < accs.Length :: k !in remaining ==> accs[k] == G.zero
        invariant remaining <= Iterations(0, nThreads * accsPerChunk)
        decreases |remaining|
      {
        var k :| k in remaining;
        remaining := remaining - {k};
        accs[k] := G.zero;
      }
    }

    /** Every base, in any order and on any thread, goes into the bucket of its window value. */
    method ProcessChunk(idChunk: nat, ghost values: seq<nat>)
      requires Ready() && idChunk < nChunks
      requires |values| == n && AreChunks(values, scalars, scalarSize, bitsPerChunk, idChunk)
      modifies accs
      ensures Gathered(G, bases, values, accsPerChunk, nThreads, old(accs[..]), accs[..], {})
    {
      ghost var before := accs[..];
      GatherStart(G, bases, values, accsPerChunk, nThreads, before, Iterations(0, n));
      var remaining := Iterations(0, n);
      while remaining != {}
        invariant remaining <= Iterations(0, n)
        invariant Gathered(G, bases, values, accsPerChunk, nThreads, before, accs[..], remaining)
        decreases |remaining|
      {
        var i :| i in remaining;
        ghost var now := accs[..];
        if bases[i] != G.zero {
          var chunkValue := GetChunk(i, idChunk);
          assert IsChunk(values, scalars, scalarSize, bitsPerChunk, idChunk, i);
          var idThread :| 0 <= idThread < nThreads;
          if chunkValue != 0 {
            var k := Slot(idThread, accsPerChunk, chunkValue);
            RowBound(idThread, nThreads, accsPerChunk, chunkValue);
            accs[k] := G.Add(accs[k], bases[i]);
            assert accs[..] == now[k := G.Add(now[k], bases[i])];
            GatherAdd(G, bases, values, accsPerChunk, nThreads, before, now, remaining, i, idThread);
          } else {
            GatherSkip(G, bases, values, accsPerChunk, nThreads, before, now, remaining, i);
          }
        } else {
          GatherSkip(G, bases, values, accsPerChunk, nThreads, before, now, remaining, i);
        }
        remaining := remaining - {i};
      }
    }

    /** Bucket i of every thread moves into bucket i of the first. */
    method PackBucket(i: nat)
      requires G.Valid() && i < accsPerChunk && nThreads > 0 && accs.Length == nThreads * accsPerChunk
      modifies accs
      ensures Packing(G, accsPerChunk, nThreads, old(accs[..]), accs[..], i, nThreads)
    {
      ghost var before := accs[..];
      PackStart(G, accsPerChunk, nThreads, before, i);
      for j := 1 to nThreads
        invariant Packing(G, accsPerChunk, nThreads, before, accs[..], i, j)
      {
        ghost var now := accs[..];
        var k := Slot(j, accsPerChunk, i);
        RowBound(j, nThreads, accsPerChunk, i);
        if accs[k] != G.zero {
          accs[i] := G.Add(accs[i], accs[k]);
          accs[k] := G.zero;
          assert accs[..] == now[i := G.Add(now[i], now[k])][k := G.zero];
        } else {
          G.Unit(now[i]);
          assert now == now[i := G.Add(now[i], now[k])][k := G.zero];
        }
        PackStep(G, accsPerChunk, nThreads, before, now, i, j, j + 1);
      }
    }

    /** The rows of all threads are summed into the first row, bucket by bucket in any order. */
    method PackThreads()
      requires G.Valid() && nThreads > 0 && accs.Length == nThreads * accsPerChunk
      modifies accs
      ensures AllPackedIn(G, accsPerChunk, nThreads, old(accs[..]), accs[..], {})
    {
      ghost var before := accs[..];
      var remaining := Iterations(0, accsPerChunk);
      while remaining != {}
        invariant remaining <= Iterations(0, accsPerChunk)
        invariant AllPackedIn(G, accsPerChunk, nThreads, before, accs[..], remaining)
        decreases |remaining|
      {
        var i :| i in remaining;
        ghost var now := accs[..];
        PackBucket(i);
        PackOne(G, accsPerChunk, nThreads, before, now, accs[..], remaining, i);
        remaining := remaining - {i};
      }
    }

    /** The upper half of the first 2 * h buckets is added to the lower half and, thread by thread, to sall. */
    method FoldUpperHalf(h: nat, sall: array<T>)
      requires G.Valid() && nThreads > 0 && sall.Length == nThreads && sall != accs && 2 * h <= accs.Length
      requires forall t | 0 <= t < nThreads :: sall[t] == G.zero
      modifies accs, sall
      ensures Folding(G, old(accs[..]), accs[..], sall[..], h, {})
    {
      ghost var before := accs[..];
      FoldingStart(G, before, sall[..], h, Iterations(0, h));
      var remaining := Iterations(0, h);
      while remaining != {}
        invariant remaining <= Iterations(0, h)
        invariant Folding(G, before, accs[..], sall[..], h, remaining)
        decreases |remaining|
      {
        var i :| i in remaining;
        ghost var now, sums := accs[..], sall[..];
        var idThread :| 0 <= idThread < nThreads;
        if accs[h + i] != G.zero {
          accs[i] := G.Add(accs[i], accs[h + i]);
          sall[idThread] := G.Add(sall[idThread], accs[h + i]);
          accs[h + i] := G.zero;
          assert accs[..] == now[i := G.Add(now[i], now[h + i])][h + i := G.zero];
          assert sall[..] == sums[idThread := G.Add(sums[idThread], now[h + i])];
          FoldingMove(G, before, now, sums, h, remaining, i, idThread);
        } else {
          FoldingStay(G, before, now, sums, h, remaining, i);
        }
        remaining := remaining - {i};
      }
    }

    /** The sums of all threads are added to bucket k. */
    method AddSums(k: nat, sall: array<T>)
      requires k < accs.Length && sall.Length == nThreads && sall != accs
      requires G.Valid() && accs[k] == G.zero
      modifies accs
      ensures accs[..] == old(accs[..])[k := Plain(G, sall[..], 0, nThreads)]
    {
      ghost var before, sums := accs[..], sall[..];
      for i := 0 to nThreads
        invariant sall[..] == sums
        invariant accs[..] == before[k := Plain(G, sums, 0, i)]
      {
        accs[k] := G.Add(accs[k], sall[i]);
      }
    }

    /** Bucket k is doubled m times. */
    method DoubleBucket(k: nat, m: nat)
      requires k < accs.Length && G.Valid()
      modifies accs
      ensures accs[..] == old(accs[..])[k := G.Times(Exp2(m), old(accs[k]))]
    {
      ghost var before := accs[..];
      G.TimesOne(accs[k]);
      for i := 0 to m
        invariant accs[..] == before[k := G.Times(Exp2(i), before[k])]
      {
        G.TimesAdd(Exp2(i), Exp2(i), before[k]);
        accs[k] := G.Add(accs[k], accs[k]);
      }
    }

    /** The fold and its sum, on the first 2 * h buckets. */
    method HalveBuckets(h: nat)
      requires G.Valid() && nThreads > 0 && 0 < h && 2 * h <= accs.Length
      modifies accs
      ensures Halved(G, old(accs[..]), accs[..], h)
    {
      ghost var before := accs[..];
      var sall := new T[nThreads](_ => G.zero);
      FoldUpperHalf(h, sall);
      FoldingDone(G, before, accs[..], sall[..], h);
      ghost var folded := accs[..];
      AddSums(h, sall);
      assert accs[..][..h] == folded[..h];
    }

    /** The result p1 of the lower half and bucket h doubled m times, which is then emptied. */
    method JoinHalves(p1: T, h: nat, m: nat) returns (res: T)
      requires G.Valid() && h < accs.Length
      modifies accs
      ensures res == G.Add(p1, G.Times(Exp2(m), old(accs[h])))
      ensures accs[..] == old(accs[..])[h := G.zero]
    {
      DoubleBucket(h, m);
      res := G.Add(p1, accs[h]);
      accs[h] := G.zero;
    }

    /** The sum of v times bucket v, clearing the buckets from 1 up. */
    method Reduce(nBits: nat) returns (res: T)
      requires G.Valid() && nThreads > 0 && nBits > 0 && Exp2(nBits) <= accs.Length
      modifies accs
      ensures res == Weighted(G, old(accs[..]), Exp2(nBits))
      ensures Emptied(G, old(accs[..]), accs[..], Exp2(nBits))
      decreases nBits
    {
      ghost var before := accs[..];
      if nBits == 1 {
        WeightedTwo(G, before);
        res := accs[1];
        accs[1] := G.zero;
        return;
      }
      var ndiv2 := Exp2(nBits - 1);
      HalveBuckets(ndiv2);
      ghost var halved := accs[..];
      HalvesWeigh(G, before, halved, ndiv2);
      var p1 := Reduce(nBits - 1);
      EmptiedHalves(G, before, halved, accs[..], ndiv2);
      res := JoinHalves(p1, ndiv2, nBits - 1);
    }

    /** Window idChunk of all scalars against all bases, from clear buckets to clear buckets. */
    method Window(idChunk: nat) returns (res: T)
      requires Ready() && idChunk < nChunks && Clear(G, accsPerChunk, nThreads, accs[..])
      modifies accs
      ensures Clear(G, accsPerChunk, nThreads, accs[..])
      ensures res == WindowTotal(G, bases, scalars, scalarSize, bitsPerChunk, idChunk, n)
    {
      ghost var values := ChunkValues(scalars, scalarSize, bitsPerChunk, idChunk, n);
      ghost var before := accs[..];
      ProcessChunk(idChunk, values);
      ghost var mid := accs[..];
      PackThreads();
      ghost var packed := accs[..];
      WindowResult(G, bases, values, accsPerChunk, nThreads, before, mid, packed);
      MulMono(1, nThreads, accsPerChunk);
      res := Reduce(bitsPerChunk);
      ClearAgain(G, accsPerChunk, nThreads, mid, packed, accs[..]);
    }

    method Windows(chunkResults: array<T>)
      requires Ready() && chunkResults.Length == nChunks && chunkResults != accs
      requires Clear(G, accsPerChunk, nThreads, accs[..])
      modifies accs, chunkResults
      ensures forall j: nat | j < nChunks ::
                chunkResults[j] == WindowTotal(G, bases, scalars, scalarSize, bitsPerChunk, j, n)
    {
      for i := 0 to nChunks
        invariant Clear(G, accsPerChunk, nThreads, accs[..])
        invariant forall j: nat | j < i ::
                    chunkResults[j] == WindowTotal(G, bases, scalars, scalarSize, bitsPerChunk, j, n)
      {
        var res := Window(i);
        chunkResults[i] := res;
      }
    }

    /** m doublings. */
    method DoubleTimes(p: T, m: nat) returns (r: T)
      requires G.Valid()
      ensures r == G.Times(Exp2(m), p)
    {
      G.TimesOne(p);
      r := p;
      for k := 0 to m
        invariant r == G.Times(Exp2(k), p)
      {
        G.TimesAdd(Exp2(k), Exp2(k), p);
        r := G.Add(r, r);
      }
    }

    /** What is left of the scalars from window j up, times the bases. */
    ghost function FromWindow(j: nat): T
      requires Ready()
      reads this
    {
      ShiftedSum(G, bases, scalars, scalarSize, j * bitsPerChunk, n)
    }

    lemma FromFirstWindow()
      requires Ready()
      ensures FromWindow(0) == ScalarSum(G, bases, scalars, scalarSize, n)
    {
      NothingShifted(G, bases, scalars, scalarSize, n);
    }

    /** One window below the sum r of the windows above it. */
    method AddWindow(r: T, window: T, ghost j: nat) returns (sum: T)
      requires Ready() && j < nChunks && window == WindowTotal(G, bases, scalars, scalarSize, bitsPerChunk, j, n)
      requires r == FromWindow(j + 1)
      ensures sum == FromWindow(j)
    {
      sum := DoubleTimes(r, bitsPerChunk);
      sum := G.Add(sum, window);
      NextWindow(G, bases, scalars, scalarSize, bitsPerChunk, j, n);
    }

    /** The windows from the top down, each worth 2^bitsPerChunk times the next. */
    method Combine(chunkResults: array<T>) returns (r: T)
      requires Ready() && chunkResults.Length == nChunks
      requires forall j: nat | j < nChunks ::
                 chunkResults[j] == WindowTotal(G, bases, scalars, scalarSize, bitsPerChunk, j, n)
      ensures r == ScalarSum(G, bases, scalars, scalarSize, n)
    {
      LastWindow(G, bases, scalars, scalarSize, bitsPerChunk, nChunks - 1, n);
      r := chunkResults[nChunks - 1];
      var j := nChunks - 2;
      while j >= 0
        invariant -1 <= j <= nChunks - 2
        invariant r == FromWindow(j + 1)
      {
        r := AddWindow(r, chunkResults[j], j);
        j := j - 1;
      }
      FromFirstWindow();
    }

    /** The sizes that depend on the number of points. */
    method ChooseWindows()
      requires 1 < n < 0x1_0000_0000 && scalarSize >= 8
      modifies this`bitsPerChunk, this`nChunks, this`accsPerChunk
      ensures MIN_CHUNK_SIZE_BITS <= bitsPerChunk <= MAX_CHUNK_SIZE_BITS && accsPerChunk == Exp2(bitsPerChunk)
      ensures nChunks == ChunkCount(8 * scalarSize, bitsPerChunk)
    {
      var bits := Log2.Log2(n / PACK_FACTOR);
      if bits > MAX_CHUNK_SIZE_BITS { bits := MAX_CHUNK_SIZE_BITS; }
      if bits < MIN_CHUNK_SIZE_BITS { bits := MIN_CHUNK_SIZE_BITS; }
      bitsPerChunk := bits;
      nChunks := ChunkCount(8 * scalarSize, bitsPerChunk);
      accsPerChunk := Exp2(bitsPerChunk);
    }

    /** r := the sum of scalar times base over n points. */
    method MultiExp(r: Element<T>, table: array<nat>, bases: seq<T>, scalars: seq<byte>, scalarSize: nat, n: nat,
        nThreads: nat)
      requires G.Valid() && TableReady(table) && nThreads > 0
      requires n < 0x1_0000_0000 && |bases| >= n && |scalars| == n * scalarSize
      requires n == 1 ==> scalarSize >= 1
      requires n > 1 ==> scalarSize >= 8
      modifies this, r
      ensures Packed(scalars, scalarSize, n)
      ensures r.point == ScalarSum(G, bases, scalars, scalarSize, n)
    {
      AllPacked(scalars, scalarSize, n);
      this.nThreads := nThreads;
      this.bases := bases;
      this.scalars := scalars;
      this.scalarSize := scalarSize;
      this.n := n;
      if n == 0 {
        r.point := G.zero;
        return;
      }
      if n == 1 {
        var base := new Element<T>(bases[0]);
        NafMulByScalar(G, table, r, base, scalars);
        OneScalar(G, bases, scalars, scalarSize);
        return;
      }
      ChooseWindows();
      var chunkResults := new T[nChunks](_ => G.zero);
      accs := new T[nThreads * accsPerChunk](_ => G.zero);
      InitAccs();
      AllZeroIsClear(G, accsPerChunk, nThreads, accs[..]);
      Windows(chunkResults);
      var res := Combine(chunkResults);
      r.point := res;
    }
  }

  lemma WeightedTwo<T(!new)>(G: Group<T>, s: seq<T>)
    requires G.Valid() && |s| >= 2
    ensures Weighted(G, s, Exp2(1)) == s[1]
  {
    assert Exp2(1) == 2;
    assert Weighted(G, s, 2) == G.Add(G.Add(Weighted(G, s, 0), G.Times(0, s[0])), G.Times(1, s[1]));
    G.Unit(G.zero); G.TimesOne(s[1]); G.Unit(s[1]);
  }

  lemma WindowStart(w: nat, bits: nat, nChunks: nat, j: nat)
    requires w > 0 && bits > 0 && nChunks == ChunkCount(w, bits) && j < nChunks
    ensures j * bits < w
  {
    MulMono(j, nChunks - 1, bits);
  }

  /** The load, moved down to stay inside the scalar, still covers the window, cut at the end of the scalar. */
  lemma LoadFits(size: nat, bits: nat, start: nat, at: nat, eff: nat)
    requires size >= 8 && bits <= MAX_CHUNK_SIZE_BITS && start < 8 * size
    requires at == if start / 8 > size - 8 then size - 8 else start / 8
    requires eff == if start + bits > size * 8 then size * 8 - start else bits
    ensures 8 * at <= start && start - 8 * at + eff <= 64 && at + 8 <= size && eff <= bits
    ensures eff < bits ==> start + eff == 8 * size
  {
  }

  /** bitsPerChunk bits from bitStart on, or what is left of the scalar there. */
  method ReadWindow(scalars: seq<byte>, scalarSize: nat, scalarIdx: nat, bitStart: nat, bitsPerChunk: nat)
    returns (v: nat)
    requires HasScalar(scalars, scalarSize, scalarIdx) && scalarSize >= 8
    requires bitsPerChunk <= MAX_CHUNK_SIZE_BITS && bitStart < 8 * scalarSize
    ensures v == Shr(Scalar(scalars, scalarSize, scalarIdx), bitStart) % Exp2(bitsPerChunk)
  {
    var byteStart := bitStart / 8;
    var effectiveBitsPerChunk := bitsPerChunk;
    if byteStart > scalarSize - 8 { byteStart := scalarSize - 8; }
    if bitStart + bitsPerChunk > scalarSize * 8 { effectiveBitsPerChunk := scalarSize * 8 - bitStart; }
    var shift := bitStart - byteStart * 8;
    LoadFits(scalarSize, bitsPerChunk, bitStart, byteStart, effectiveBitsPerChunk);
    v := ReadBits(scalars, scalarSize, scalarIdx, bitStart, byteStart, shift, bitsPerChunk, effectiveBitsPerChunk);
  }

  /** The load, the shift and the mask. */
  method ReadBits(scalars: seq<byte>, size: nat, i: nat, start: nat, at: nat, shift: nat, bits: nat, eff: nat)
    returns (v: nat)
    requires HasScalar(scalars, size, i) && at + 8 <= size
    requires 8 * at + shift == start && shift + eff <= 64 && eff <= bits
    requires eff < bits ==> start + eff == 8 * size
    ensures v == Shr(Scalar(scalars, size, i), start) % Exp2(bits)
  {
    LoadShiftMask(ScalarBytes(scalars, size, i), start, at, bits, eff);
    v := Load(scalars, size, i, at);
    v := Shr(v, shift);
    v := And(v, Exp2(eff) - 1);
  }

  lemma SliceOfSlice(s: seq<byte>, base: nat, size: nat, at: nat)
    requires base + size <= |s| && at + 8 <= size
    ensures s[base + at..base + at + 8] == s[base..base + size][at..at + 8]
  {
    var x, y := s[base + at..base + at + 8], s[base..base + size][at..at + 8];
    assert forall k | 0 <= k < 8 :: x[k] == s[base + at + k] == y[k];
    assert x == y;
  }

  /** A 64-bit little-endian load from place at of scalar i. */
  function Load(scalars: seq<byte>, size: nat, i: nat, at: nat): (v: nat)
    requires HasScalar(scalars, size, i) && at + 8 <= size
    ensures v == LE(ScalarBytes(scalars, size, i)[at..at + 8])
  {
    SliceOfSlice(scalars, i * size, size, at);
    LE(scalars[i * size + at..i * size + at + 8])
  }
}
