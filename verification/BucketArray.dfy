/** The array of buckets, one row for every thread: filling it and merging the rows. */
module BucketArray {
  import opened Algebra
  import opened Bits
  import opened BucketSums

  /** The place of bucket v in the row of thread t. */
  function Slot(t: nat, width: nat, v: nat): nat { t * width + v }

  lemma SlotsDiffer(t: nat, u: nat, width: nat, v: nat, w: nat)
    requires v < width && w < width && Slot(t, width, v) == Slot(u, width, w)
    ensures t == u && v == w
  {
    DivModUnique(Slot(t, width, v), width, t, v);
    DivModUnique(Slot(t, width, v), width, u, w);
  }

  /** The sum of bucket v over the rows of k threads. */
  function ColumnSum<T(!new)>(G: Group<T>, s: seq<T>, width: nat, v: nat, k: nat): T
    requires v < width && k * width <= |s|
  {
    if k == 0 then G.zero
    else
      assert k * width == (k - 1) * width + width;
      G.Add(ColumnSum(G, s, width, v, k - 1), s[Slot(k - 1, width, v)])
  }

  lemma {:induction false} ColumnAdd<T(!new)>(G: Group<T>, s: seq<T>, width: nat, v: nat, k: nat, t: nat, w: nat, p: T)
    requires G.Valid() && v < width && w < width && k * width <= |s| && Slot(t, width, w) < |s|
    ensures ColumnSum(G, s[Slot(t, width, w) := G.Add(s[Slot(t, width, w)], p)], width, v, k) ==
            if v == w && t < k then G.Add(ColumnSum(G, s, width, v, k), p) else ColumnSum(G, s, width, v, k)
  {
    if k > 0 {
      assert k * width == (k - 1) * width + width;
      ColumnAdd(G, s, width, v, k - 1, t, w, p);
      var c, a := ColumnSum(G, s, width, v, k - 1), s[Slot(k - 1, width, v)];
      if Slot(t, width, w) == Slot(k - 1, width, v) {
        SlotsDiffer(t, k - 1, width, w, v);
        G.Assoc(c, a, p);
      } else if v == w && t < k - 1 {
        G.Swap(c, p, a);
      }
    }
  }

  lemma {:induction false} ColumnZero<T(!new)>(G: Group<T>, s: seq<T>, width: nat, v: nat, k: nat)
    requires G.Valid() && v < width && k * width <= |s|
    requires forall t: nat | t < k :: Slot(t, width, v) < |s| && s[Slot(t, width, v)] == G.zero
    ensures ColumnSum(G, s, width, v, k) == G.zero
  {
    if k > 0 {
      assert k * width == (k - 1) * width + width;
      ColumnZero(G, s, width, v, k - 1);
      G.Unit(G.zero);
    }
  }

  // ---------- putting bases into buckets ----------

  /** Column v holds what it held before and the handled bases with window value v. */
  ghost predicate Gained<T(!new)>(G: Group<T>, bases: seq<T>, values: seq<nat>, width: nat, rows: nat,
      before: seq<T>, now: seq<T>, pending: set<nat>, v: nat)
    requires v < width && |before| == |now| == rows * width && |values| <= |bases|
  {
    ColumnSum(G, now, width, v, rows) ==
    G.Add(ColumnSum(G, before, width, v, rows), Bucket(G, bases, values, pending, v, |values|))
  }

  ghost predicate Gathered<T(!new)>(G: Group<T>, bases: seq<T>, values: seq<nat>, width: nat, rows: nat,
      before: seq<T>, now: seq<T>, pending: set<nat>)
  {
    && |before| == |now| == rows * width && |values| <= |bases|
    && forall v | 1 <= v < width :: Gained(G, bases, values, width, rows, before, now, pending, v)
  }

  lemma GatherStart<T(!new)>(G: Group<T>, bases: seq<T>, values: seq<nat>, width: nat, rows: nat, before: seq<T>,
      pending: set<nat>)
    requires G.Valid() && |before| == rows * width && |values| <= |bases|
    requires forall i: nat | i < |values| :: i in pending
    ensures Gathered(G, bases, values, width, rows, before, before, pending)
  {
    forall v | 1 <= v < width
      ensures Gained(G, bases, values, width, rows, before, before, pending, v)
    {
      BucketNone(G, bases, values, pending, v, |values|);
      G.Unit(ColumnSum(G, before, width, v, rows));
    }
  }

  lemma GatherAdd<T(!new)>(G: Group<T>, bases: seq<T>, values: seq<nat>, width: nat, rows: nat,
      before: seq<T>, now: seq<T>, pending: set<nat>, i: nat, t: nat)
    requires G.Valid() && Gathered(G, bases, values, width, rows, before, now, pending)
    requires i in pending && i < |values| && values[i] < width && t < rows && Slot(t, width, values[i]) < |now|
    ensures var k := Slot(t, width, values[i]);
            Gathered(G, bases, values, width, rows, before, now[k := G.Add(now[k], bases[i])], pending - {i})
  {
    var k := Slot(t, width, values[i]);
    var next := now[k := G.Add(now[k], bases[i])];
    forall v | 1 <= v < width
      ensures Gained(G, bases, values, width, rows, before, next, pending - {i}, v)
    {
      assert Gained(G, bases, values, width, rows, before, now, pending, v);
      ColumnAdd(G, now, width, v, rows, t, values[i], bases[i]);
      BucketStep(G, bases, values, pending, v, |values|, i);
      G.Assoc(ColumnSum(G, before, width, v, rows), Bucket(G, bases, values, pending, v, |values|), bases[i]);
    }
  }

  /** A zero base and the bucket of zero make no difference. */
  lemma GatherSkip<T(!new)>(G: Group<T>, bases: seq<T>, values: seq<nat>, width: nat, rows: nat,
      before: seq<T>, now: seq<T>, pending: set<nat>, i: nat)
    requires G.Valid() && Gathered(G, bases, values, width, rows, before, now, pending)
    requires i in pending && i < |values| && (bases[i] == G.zero || values[i] == 0)
    ensures Gathered(G, bases, values, width, rows, before, now, pending - {i})
  {
    forall v | 1 <= v < width
      ensures Gained(G, bases, values, width, rows, before, now, pending - {i}, v)
    {
      assert Gained(G, bases, values, width, rows, before, now, pending, v);
      BucketStep(G, bases, values, pending, v, |values|, i);
      G.Unit(Bucket(G, bases, values, pending, v, |values|));
    }
  }

  // ---------- merging the rows ----------

  /** Bucket i holds its sum over the first j rows, the rows from 1 to j hold zero there, and nothing
      else differs from before. */
  ghost predicate Packing<T(!new)>(G: Group<T>, width: nat, rows: nat, before: seq<T>, now: seq<T>, i: nat, j: nat) {
    && i < width && 0 < j <= rows && |before| == |now| == rows * width && j * width <= |before| && width <= |before|
    && now[i] == ColumnSum(G, before, width, i, j)
    && forall t: nat, v: nat | t < rows && v < width :: PackedSlot(G, width, rows, before, now, i, j, t, v)
  }

  ghost predicate PackedSlot<T(!new)>(G: Group<T>, width: nat, rows: nat, before: seq<T>, now: seq<T>, i: nat, j: nat,
      t: nat, v: nat)
    requires t < rows && v < width && |before| == |now| == rows * width
  {
    RowBound(t, rows, width, v);
    var k := Slot(t, width, v);
    if v != i || t >= j then now[k] == before[k] else t > 0 ==> now[k] == G.zero
  }

  lemma PackStart<T(!new)>(G: Group<T>, width: nat, rows: nat, before: seq<T>, i: nat)
    requires G.Valid() && i < width && rows > 0 && |before| == rows * width
    ensures Packing(G, width, rows, before, before, i, 1)
  {
    MulMono(1, rows, width);
    assert ColumnSum(G, before, width, i, 1) == G.Add(ColumnSum(G, before, width, i, 0), before[Slot(0, width, i)]);
    G.Unit(before[i]);
    forall t: nat, v: nat | t < rows && v < width
      ensures PackedSlot(G, width, rows, before, before, i, 1, t, v)
    {
      RowBound(t, rows, width, v);
    }
  }

  lemma PackStep<T(!new)>(G: Group<T>, width: nat, rows: nat, before: seq<T>, now: seq<T>, i: nat, j: nat, j1: nat)
    requires G.Valid() && Packing(G, width, rows, before, now, i, j) && j < rows && Slot(j, width, i) < |now| &&
             j1 == j + 1
    ensures var k := Slot(j, width, i);
            Packing(G, width, rows, before, now[i := G.Add(now[i], now[k])][k := G.zero], i, j1)
  {
    var k := Slot(j, width, i);
    var next := now[i := G.Add(now[i], now[k])][k := G.zero];
    MulMono(1, j, width);
    MulMono(j + 1, rows, width);
    assert (j + 1) * width == j * width + width;
    assert PackedSlot(G, width, rows, before, now, i, j, j, i);
    assert ColumnSum(G, before, width, i, j + 1) == G.Add(ColumnSum(G, before, width, i, j), before[k]);
    forall t: nat, v: nat | t < rows && v < width
      ensures PackedSlot(G, width, rows, before, next, i, j1, t, v)
    {
      assert PackedSlot(G, width, rows, before, now, i, j, t, v);
      RowBound(t, rows, width, v);
      if Slot(t, width, v) == k { SlotsDiffer(t, j, width, v, i); }
      if Slot(t, width, v) == i { SlotsDiffer(t, 0, width, v, i); }
    }
  }

  /** Outside the pending buckets the first row holds the sums over all rows and the others hold zero. */
  ghost predicate AllPackedIn<T(!new)>(G: Group<T>, width: nat, rows: nat, before: seq<T>, now: seq<T>,
      pending: set<nat>) {
    && rows > 0 && |before| == |now| == rows * width && width <= |before|
    && (forall v: nat | v < width :: ColumnPacked(G, width, rows, before, now, pending, v))
    && forall t: nat, v: nat | t < rows && v < width :: SlotPacked(G, width, rows, before, now, pending, t, v)
  }

  ghost predicate ColumnPacked<T(!new)>(G: Group<T>, width: nat, rows: nat, before: seq<T>, now: seq<T>,
      pending: set<nat>, v: nat)
    requires v < width <= |now| && |before| == rows * width
  {
    v !in pending ==> now[v] == ColumnSum(G, before, width, v, rows)
  }

  ghost predicate SlotPacked<T(!new)>(G: Group<T>, width: nat, rows: nat, before: seq<T>, now: seq<T>,
      pending: set<nat>, t: nat, v: nat)
    requires t < rows && v < width && |before| == |now| == rows * width
  {
    RowBound(t, rows, width, v);
    var k := Slot(t, width, v);
    if v in pending then now[k] == before[k] else t > 0 ==> now[k] == G.zero
  }

  lemma {:induction false} ColumnSame<T(!new)>(G: Group<T>, width: nat, rows: nat, before: seq<T>, now: seq<T>,
      pending: set<nat>, i: nat, k: nat)
    requires AllPackedIn(G, width, rows, before, now, pending) && i in pending && i < width && k <= rows
    ensures k * width <= |before|
    ensures ColumnSum(G, now, width, i, k) == ColumnSum(G, before, width, i, k)
  {
    MulMono(k, rows, width);
    if k > 0 {
      ColumnSame(G, width, rows, before, now, pending, i, k - 1);
      assert SlotPacked(G, width, rows, before, now, pending, k - 1, i);
    }
  }

  lemma PackOneColumn<T(!new)>(G: Group<T>, width: nat, rows: nat, before: seq<T>, now: seq<T>, next: seq<T>,
      pending: set<nat>, i: nat, v: nat)
    requires AllPackedIn(G, width, rows, before, now, pending) && i in pending && i < width && v < width
    requires Packing(G, width, rows, now, next, i, rows)
    ensures ColumnPacked(G, width, rows, before, next, pending - {i}, v)
  {
    if v == i {
      ColumnSame(G, width, rows, before, now, pending, i, rows);
    } else {
      assert ColumnPacked(G, width, rows, before, now, pending, v);
      assert PackedSlot(G, width, rows, now, next, i, rows, 0, v);
    }
  }

  lemma PackOneSlot<T(!new)>(G: Group<T>, width: nat, rows: nat, before: seq<T>, now: seq<T>, next: seq<T>,
      pending: set<nat>, i: nat, t: nat, v: nat)
    requires AllPackedIn(G, width, rows, before, now, pending) && i in pending && t < rows && v < width
    requires Packing(G, width, rows, now, next, i, rows)
    ensures SlotPacked(G, width, rows, before, next, pending - {i}, t, v)
  {
    assert SlotPacked(G, width, rows, before, now, pending, t, v);
    assert PackedSlot(G, width, rows, now, next, i, rows, t, v);
  }

  lemma PackOne<T(!new)>(G: Group<T>, width: nat, rows: nat, before: seq<T>, now: seq<T>, next: seq<T>,
      pending: set<nat>, i: nat)
    requires AllPackedIn(G, width, rows, before, now, pending) && i in pending && i < width
    requires Packing(G, width, rows, now, next, i, rows)
    ensures AllPackedIn(G, width, rows, before, next, pending - {i})
  {
    forall v: nat | v < width
      ensures ColumnPacked(G, width, rows, before, next, pending - {i}, v)
    {
      PackOneColumn(G, width, rows, before, now, next, pending, i, v);
    }
    forall t: nat, v: nat | t < rows && v < width
      ensures SlotPacked(G, width, rows, before, next, pending - {i}, t, v)
    {
      PackOneSlot(G, width, rows, before, now, next, pending, i, t, v);
    }
  }

  // ---------- folding the upper half onto the lower ----------

  /** The sum of s[lo + i] over the i below m that are no longer pending. */
  function PlainOver<T(!new)>(G: Group<T>, s: seq<T>, lo: nat, m: nat, pending: set<nat>): T
    requires lo + m <= |s|
  {
    if m == 0 then G.zero
    else G.Add(PlainOver(G, s, lo, m - 1, pending), if m - 1 in pending then G.zero else s[lo + (m - 1)])
  }

  lemma {:induction false} PlainOverNone<T(!new)>(G: Group<T>, s: seq<T>, lo: nat, m: nat, pending: set<nat>)
    requires G.Valid() && lo + m <= |s| && forall i: nat | i < m :: i in pending
    ensures PlainOver(G, s, lo, m, pending) == G.zero
  {
    if m > 0 { PlainOverNone(G, s, lo, m - 1, pending); G.Unit(G.zero); }
  }

  lemma {:induction false} PlainOverAll<T(!new)>(G: Group<T>, s: seq<T>, lo: nat, m: nat)
    requires lo + m <= |s|
    ensures PlainOver(G, s, lo, m, {}) == Plain(G, s, lo, m)
  {
    if m > 0 { PlainOverAll(G, s, lo, m - 1); }
  }

  lemma {:induction false} PlainOverStep<T(!new)>(G: Group<T>, s: seq<T>, lo: nat, m: nat, pending: set<nat>, i: nat)
    requires G.Valid() && lo + m <= |s| && i in pending && lo + i < |s|
    ensures PlainOver(G, s, lo, m, pending - {i}) ==
            if i < m then G.Add(PlainOver(G, s, lo, m, pending), s[lo + i]) else PlainOver(G, s, lo, m, pending)
  {
    if m > 0 {
      PlainOverStep(G, s, lo, m - 1, pending, i);
      var u := PlainOver(G, s, lo, m - 1, pending);
      if i == m - 1 {
        G.Unit(u);
      } else if i < m {
        G.Swap(u, s[lo + i], if m - 1 in pending then G.zero else s[lo + (m - 1)]);
      }
    }
  }

  lemma {:induction false} PlainAdd<T(!new)>(G: Group<T>, s: seq<T>, lo: nat, m: nat, k: nat, p: T)
    requires G.Valid() && lo + m <= |s| && lo + k < |s|
    ensures Plain(G, s[lo + k := G.Add(s[lo + k], p)], lo, m) ==
            if k < m then G.Add(Plain(G, s, lo, m), p) else Plain(G, s, lo, m)
  {
    if m > 0 {
      PlainAdd(G, s, lo, m - 1, k, p);
      var u := Plain(G, s, lo, m - 1);
      if k == m - 1 {
        G.Assoc(u, s[lo + k], p);
      } else if k < m {
        G.Swap(u, p, s[lo + (m - 1)]);
      }
    }
  }

  lemma {:induction false} PlainZero<T(!new)>(G: Group<T>, s: seq<T>, lo: nat, m: nat)
    requires G.Valid() && lo + m <= |s| && forall i | lo <= i < lo + m :: s[i] == G.zero
    ensures Plain(G, s, lo, m) == G.zero
  {
    if m > 0 { PlainZero(G, s, lo, m - 1); G.Unit(G.zero); }
  }

  ghost predicate FoldedAt<T(!new)>(G: Group<T>, before: seq<T>, now: seq<T>, h: nat, pending: set<nat>, i: nat)
    requires i < h && 2 * h <= |before| == |now|
  {
    if i in pending then now[i] == before[i] && now[h + i] == before[h + i]
    else now[i] == G.Add(before[i], before[h + i]) && now[h + i] == G.zero
  }

  /** Outside the pending indices the upper half has been added to the lower and cleared; the sums of
      the threads hold what was taken; buckets beyond are as before. */
  ghost predicate Folding<T(!new)>(G: Group<T>, before: seq<T>, now: seq<T>, sums: seq<T>, h: nat, pending: set<nat>) {
    && 2 * h <= |before| == |now|
    && (forall i: nat | i < h :: FoldedAt(G, before, now, h, pending, i))
    && (forall k | 2 * h <= k < |now| :: now[k] == before[k])
    && Plain(G, sums, 0, |sums|) == PlainOver(G, before, h, h, pending)
  }

  lemma FoldingStart<T(!new)>(G: Group<T>, before: seq<T>, sums: seq<T>, h: nat, pending: set<nat>)
    requires G.Valid() && 2 * h <= |before| && (forall i | 0 <= i < |sums| :: sums[i] == G.zero)
    requires forall i: nat | i < h :: i in pending
    ensures Folding(G, before, before, sums, h, pending)
  {
    PlainZero(G, sums, 0, |sums|);
    PlainOverNone(G, before, h, h, pending);
  }

  /** One bucket of the upper half moves down and into the sum of thread t. */
  lemma FoldingMove<T(!new)>(G: Group<T>, before: seq<T>, now: seq<T>, sums: seq<T>, h: nat, pending: set<nat>,
      i: nat, t: nat)
    requires G.Valid() && Folding(G, before, now, sums, h, pending) && i in pending && i < h && t < |sums|
    ensures Folding(G, before, now[i := G.Add(now[i], now[h + i])][h + i := G.zero],
            sums[t := G.Add(sums[t], now[h + i])], h, pending - {i})
  {
    var next := now[i := G.Add(now[i], now[h + i])][h + i := G.zero];
    assert FoldedAt(G, before, now, h, pending, i);
    forall j: nat | j < h
      ensures FoldedAt(G, before, next, h, pending - {i}, j)
    {
      assert FoldedAt(G, before, now, h, pending, j);
    }
    PlainAdd(G, sums, 0, |sums|, t, now[h + i]);
    PlainOverStep(G, before, h, h, pending, i);
  }

  lemma FoldingStay<T(!new)>(G: Group<T>, before: seq<T>, now: seq<T>, sums: seq<T>, h: nat, pending: set<nat>, i: nat)
    requires G.Valid() && Folding(G, before, now, sums, h, pending) && i in pending && i < h && now[h + i] == G.zero
    ensures Folding(G, before, now, sums, h, pending - {i})
  {
    assert FoldedAt(G, before, now, h, pending, i);
    G.Unit(now[i]);
    forall j: nat | j < h
      ensures FoldedAt(G, before, now, h, pending - {i}, j)
    {
      assert FoldedAt(G, before, now, h, pending, j);
    }
    PlainOverStep(G, before, h, h, pending, i);
    G.Unit(PlainOver(G, before, h, h, pending));
  }

  /** After the fold: the lower half is the fold, the upper half is clear and the sums hold its sum. */
  lemma FoldingDone<T(!new)>(G: Group<T>, before: seq<T>, now: seq<T>, sums: seq<T>, h: nat)
    requires Folding(G, before, now, sums, h, {})
    ensures now[..h] == Folded(G, before, h)
    ensures forall k | h <= k < 2 * h :: now[k] == G.zero
    ensures Plain(G, sums, 0, |sums|) == Plain(G, before, h, h)
  {
    forall i: nat | i < h
      ensures now[i] == Folded(G, before, h)[i]
    {
      assert FoldedAt(G, before, now, h, {}, i);
    }
    forall k | h <= k < 2 * h
      ensures now[k] == G.zero
    {
      assert FoldedAt(G, before, now, h, {}, k - h);
    }
    PlainOverAll(G, before, h, h);
  }

  /** The upper half of the first 2 * h buckets is folded onto the lower half, and bucket h holds its sum. */
  ghost predicate Halved<T(!new)>(G: Group<T>, before: seq<T>, now: seq<T>, h: nat) {
    && 0 < h && 2 * h <= |before| == |now|
    && now[..h] == Folded(G, before, h) && now[h] == Plain(G, before, h, h)
    && (forall k | h < k < 2 * h :: now[k] == G.zero)
    && (forall k | 2 * h <= k < |now| :: now[k] == before[k])
  }

  /** Buckets 1 to m - 1 are empty and those from m up are as they were. */
  ghost predicate Emptied<T(!new)>(G: Group<T>, before: seq<T>, now: seq<T>, m: nat) {
    && |now| == |before|
    && (forall v | 1 <= v < m <= |now| :: now[v] == G.zero)
    && (forall k | m <= k < |now| :: now[k] == before[k])
  }

  lemma EmptiedHalves<T(!new)>(G: Group<T>, before: seq<T>, halved: seq<T>, lower: seq<T>, h: nat)
    requires Halved(G, before, halved, h) && Emptied(G, halved, lower, h)
    ensures lower[h] == halved[h] && Emptied(G, before, lower[h := G.zero], 2 * h)
  {
  }

  lemma HalvesWeigh<T(!new)>(G: Group<T>, before: seq<T>, now: seq<T>, h: nat)
    requires G.Valid() && Halved(G, before, now, h)
    ensures G.Add(Weighted(G, now, h), G.Times(h, now[h])) == Weighted(G, before, 2 * h)
  {
    forall v | 1 <= v < h
      ensures now[v] == Folded(G, before, h)[v]
    {
      assert now[v] == now[..h][v];
    }
    WeightedSame(G, now, Folded(G, before, h), h);
    Fold(G, before, h);
  }

  // ---------- one whole window ----------

  /** All buckets but those of value zero are empty. */
  ghost predicate Clear<T(!new)>(G: Group<T>, width: nat, rows: nat, s: seq<T>) {
    |s| == rows * width && forall t: nat, v: nat | t < rows && 1 <= v < width :: ClearSlot(G, width, rows, s, t, v)
  }

  ghost predicate ClearSlot<T(!new)>(G: Group<T>, width: nat, rows: nat, s: seq<T>, t: nat, v: nat)
    requires t < rows && v < width && |s| == rows * width
  {
    RowBound(t, rows, width, v);
    s[Slot(t, width, v)] == G.zero
  }

  lemma AllZeroIsClear<T(!new)>(G: Group<T>, width: nat, rows: nat, s: seq<T>)
    requires |s| == rows * width && forall k | 0 <= k < |s| :: s[k] == G.zero
    ensures Clear(G, width, rows, s)
  {
    forall t: nat, v: nat | t < rows && 1 <= v < width
      ensures ClearSlot(G, width, rows, s, t, v)
    {
      RowBound(t, rows, width, v);
    }
  }

  lemma PackedBucket<T(!new)>(G: Group<T>, bases: seq<T>, values: seq<nat>, width: nat, rows: nat,
      before: seq<T>, mid: seq<T>, packed: seq<T>, v: nat)
    requires G.Valid() && Clear(G, width, rows, before) && 1 <= v < width
    requires Gathered(G, bases, values, width, rows, before, mid, {}) && AllPackedIn(G, width, rows, mid, packed, {})
    ensures packed[v] == Bucket(G, bases, values, {}, v, |values|)
  {
    assert Gained(G, bases, values, width, rows, before, mid, {}, v);
    assert ColumnPacked(G, width, rows, mid, packed, {}, v);
    forall t: nat | t < rows
      ensures Slot(t, width, v) < |before| && before[Slot(t, width, v)] == G.zero
    {
      assert ClearSlot(G, width, rows, before, t, v);
      RowBound(t, rows, width, v);
    }
    ColumnZero(G, before, width, v, rows);
    G.Unit(Bucket(G, bases, values, {}, v, |values|));
  }

  /** From clear buckets, filling and merging leaves a first row that weighs what the window is worth. */
  lemma WindowResult<T(!new)>(G: Group<T>, bases: seq<T>, values: seq<nat>, width: nat, rows: nat,
      before: seq<T>, mid: seq<T>, packed: seq<T>)
    requires G.Valid() && Clear(G, width, rows, before) && forall i: nat | i < |values| :: values[i] < width
    requires Gathered(G, bases, values, width, rows, before, mid, {}) && AllPackedIn(G, width, rows, mid, packed, {})
    ensures Weighted(G, packed, width) == ValueSum(G, bases, values, |values|)
  {
    var b := Buckets(G, bases, values, width, |values|);
    forall v | 1 <= v < width
      ensures packed[v] == b[v]
    {
      PackedBucket(G, bases, values, width, rows, before, mid, packed, v);
    }
    WeightedSame(G, packed, b, width);
    BucketsWeigh(G, bases, values, width, |values|);
  }

  /** Reducing the first row makes the whole array clear again. */
  lemma ClearAgain<T(!new)>(G: Group<T>, width: nat, rows: nat, mid: seq<T>, packed: seq<T>, after: seq<T>)
    requires AllPackedIn(G, width, rows, mid, packed, {}) && width <= |packed| && Emptied(G, packed, after, width)
    ensures Clear(G, width, rows, after)
  {
    forall t: nat, v: nat | t < rows && 1 <= v < width
      ensures ClearSlot(G, width, rows, after, t, v)
    {
      assert SlotPacked(G, width, rows, mid, packed, {}, t, v);
      RowBound(t, rows, width, v);
      if t > 0 { MulMono(1, t, width); }
    }
  }
}
