/** Threads add products into shared arrays under striped spinlocks, one atomic step at a time in any
    interleaving. */
module Accumulation {
  import opened Algebra

  const NUM_LOCKS: nat := 1024

  /** One coefficient: which of the two arrays, the place in it, the witness and the factor. */
  datatype Coef<T> = Coef(m: nat, c: nat, s: nat, coef: T)

  datatype Job<!T(!new)> = Job(R: Ring<T>, coefs: seq<Coef<T>>, wtns: seq<T>, domainSize: nat)
  {
    ghost predicate Valid() {
      R.Valid() && forall i | 0 <= i < |coefs| :: coefs[i].c < domainSize && coefs[i].s < |wtns|
    }

    /** What iteration i adds. */
    function Term(i: nat): T
      requires i < |coefs| && coefs[i].s < |wtns|
    {
      R.Mul(wtns[coefs[i].s], coefs[i].coef)
    }

    function Stripe(i: nat): nat
      requires i < |coefs|
    {
      coefs[i].c % NUM_LOCKS
    }
  }

  /** Where a thread stands in its current iteration: before it, about to exchange the lock word, spinning
      on it, about to read, about to write back what it read plus its term, about to unlock. */
  datatype Phase<T> = Idle | Locking(aux: T) | Spinning(aux: T) | Reading(aux: T) | Writing(aux: T, seen: T) | Unlocking

  /** The iterations a thread still has to finish, the current one first. */
  datatype Thread<T> = Thread(todo: seq<nat>, phase: Phase<T>)
  {
    predicate Inside() { phase.Reading? || phase.Writing? || phase.Unlocking? }
  }

  datatype State<T> = State(threads: seq<Thread<T>>, locks: seq<nat>, a: seq<T>, b: seq<T>)
  {
    function Cell(inB: bool, c: nat): T
      requires c < |a| && c < |b|
    {
      if inB then b[c] else a[c]
    }

    function Store(inB: bool, c: nat, v: T): State<T>
      requires c < |a| && c < |b|
    {
      if inB then this.(b := b[c := v]) else this.(a := a[c := v])
    }
  }

  // ---------- the steps ----------

  ghost predicate Shaped<T(!new)>(J: Job<T>, s: State<T>) {
    && |s.locks| == NUM_LOCKS && |s.a| == |s.b| == J.domainSize
    && (forall t: nat | t < |s.threads| :: ThreadShaped(J, s.threads[t]))
  }

  ghost predicate ThreadShaped<T(!new)>(J: Job<T>, th: Thread<T>) {
    && (forall k | 0 <= k < |th.todo| :: th.todo[k] < |J.coefs|)
    && (th.phase.Idle? || th.todo != [])
  }

  /** One step of thread t. */
  function Step<T(!new,==)>(J: Job<T>, s: State<T>, t: nat): State<T>
    requires J.Valid() && Shaped(J, s) && t < |s.threads|
  {
    var th := s.threads[t];
    assert ThreadShaped(J, th);
    if th.todo == [] then s
    else
      var i := th.todo[0];
      var k, inB, c := J.Stripe(i), J.coefs[i].m != 0, J.coefs[i].c;
      match th.phase
      case Idle => s.(threads := s.threads[t := Thread(th.todo, Locking(J.Term(i)))])
      case Locking(aux) =>
        s.(locks := s.locks[k := 1],
           threads := s.threads[t := Thread(th.todo, if s.locks[k] == 0 then Reading(aux) else Spinning(aux))])
      case Spinning(aux) =>
        s.(threads := s.threads[t := Thread(th.todo, if s.locks[k] == 0 then Locking(aux) else Spinning(aux))])
      case Reading(aux) =>
        s.(threads := s.threads[t := Thread(th.todo, Writing(aux, s.Cell(inB, c)))])
      case Writing(aux, seen) =>
        s.Store(inB, c, J.R.Add(seen, aux)).(threads := s.threads[t := Thread(th.todo, Unlocking)])
      case Unlocking =>
        s.(locks := s.locks[k := 0], threads := s.threads[t := Thread(th.todo[1..], Idle)])
  }

  /** The iterations are dealt out to the threads, every one once; locks are open and sums are zero. */
  ghost predicate Initial<T(!new)>(J: Job<T>, s: State<T>) {
    && Shaped(J, s)
    && (forall t: nat | t < |s.threads| :: s.threads[t].phase.Idle?)
    && (forall k | 0 <= k < NUM_LOCKS :: s.locks[k] == 0)
    && (forall c | 0 <= c < J.domainSize :: s.a[c] == J.R.Zero() && s.b[c] == J.R.Zero())
    && NoRepeats(s)
    && forall i: nat | i < |J.coefs| :: Pending(s, i)
  }

  /** No iteration is in two places of the lists of things to do. */
  ghost predicate NoRepeats<T(!new)>(s: State<T>) {
    forall t: nat, u: nat, j: nat, k: nat ::
      Listed(s, t, j) && Listed(s, u, k) && s.threads[t].todo[j] == s.threads[u].todo[k] ==> t == u && j == k
  }

  ghost predicate Listed<T(!new)>(s: State<T>, t: nat, j: nat) { t < |s.threads| && j < |s.threads[t].todo| }

  /** Iteration i has not written its sum yet. */
  ghost predicate Pending<T(!new)>(s: State<T>, i: nat) {
    exists t: nat, j: nat :: PendingAt(s, i, t, j)
  }

  ghost predicate PendingAt<T(!new)>(s: State<T>, i: nat, t: nat, j: nat) {
    Listed(s, t, j) && s.threads[t].todo[j] == i && (s.threads[t].phase.Unlocking? ==> j > 0)
  }

  // ---------- the invariant ----------

  /** The sum of the terms of the first n iterations that belong to a cell and are not pending. */
  ghost function DoneSum<T(!new)>(J: Job<T>, s: State<T>, inB: bool, c: nat, n: nat): T
    requires J.Valid() && n <= |J.coefs|
  {
    if n == 0 then J.R.Zero()
    else J.R.Add(DoneSum(J, s, inB, c, n - 1),
                 if Hits(J, inB, c, n - 1) && !Pending(s, n - 1) then J.Term(n - 1) else J.R.Zero())
  }

  predicate Hits<T(!new)>(J: Job<T>, inB: bool, c: nat, i: nat)
    requires i < |J.coefs|
  {
    (J.coefs[i].m != 0) == inB && J.coefs[i].c == c
  }

  /** The sequential sum. */
  function CellSum<T(!new)>(J: Job<T>, inB: bool, c: nat, n: nat): T
    requires n <= |J.coefs| && forall i | 0 <= i < |J.coefs| :: J.coefs[i].s < |J.wtns|
  {
    if n == 0 then J.R.Zero()
    else J.R.Add(CellSum(J, inB, c, n - 1), if Hits(J, inB, c, n - 1) then J.Term(n - 1) else J.R.Zero())
  }

  ghost predicate Holds<T(!new)>(J: Job<T>, s: State<T>, t: nat, k: nat)
    requires Shaped(J, s)
  {
    t < |s.threads| && ThreadShaped(J, s.threads[t]) && s.threads[t].Inside() && J.Stripe(s.threads[t].todo[0]) == k
  }

  /** What a thread remembers is right. */
  ghost predicate Remembers<T(!new)>(J: Job<T>, s: State<T>, t: nat)
    requires J.Valid() && Shaped(J, s) && t < |s.threads|
  {
    var th := s.threads[t];
    assert ThreadShaped(J, th);
    match th.phase
    case Idle => true
    case Locking(aux) => aux == J.Term(th.todo[0])
    case Spinning(aux) => aux == J.Term(th.todo[0])
    case Reading(aux) => aux == J.Term(th.todo[0])
    case Writing(aux, seen) =>
      var i := th.todo[0];
      aux == J.Term(i) && seen == s.Cell(J.coefs[i].m != 0, J.coefs[i].c)
    case Unlocking => true
  }

  /** A lock word is set exactly while some thread is inside its stripe, and one thread at most is. */
  ghost predicate Exclusive<T(!new)>(J: Job<T>, s: State<T>)
    requires Shaped(J, s)
  {
    && (forall t: nat, u: nat, k: nat :: Holds(J, s, t, k) && Holds(J, s, u, k) ==> t == u)
    && (forall t: nat, k: nat :: Holds(J, s, t, k) && k < NUM_LOCKS ==> s.locks[k] == 1)
    && (forall k: nat | k < NUM_LOCKS :: s.locks[k] != 0 ==> exists t: nat :: Holds(J, s, t, k))
  }

  ghost predicate CellRight<T(!new)>(J: Job<T>, s: State<T>, inB: bool, c: nat)
    requires J.Valid() && Shaped(J, s)
  {
    c < J.domainSize ==> s.Cell(inB, c) == DoneSum(J, s, inB, c, |J.coefs|)
  }

  ghost predicate Invariant<T(!new)>(J: Job<T>, s: State<T>)
    requires J.Valid()
  {
    && Shaped(J, s) && NoRepeats(s) && Exclusive(J, s)
    && (forall t: nat | t < |s.threads| :: Remembers(J, s, t))
    && (forall inB: bool, c: nat :: CellRight(J, s, inB, c))
  }

  // ---------- every step keeps it ----------

  lemma StepShaped<T(!new)>(J: Job<T>, s: State<T>, t: nat)
    requires J.Valid() && Shaped(J, s) && t < |s.threads|
    ensures Shaped(J, Step(J, s, t)) && |Step(J, s, t).threads| == |s.threads|
    ensures forall u: nat | u < |s.threads| && u != t :: Step(J, s, t).threads[u] == s.threads[u]
  {
    var next := Step(J, s, t);
    forall u: nat | u < |next.threads|
      ensures ThreadShaped(J, next.threads[u])
    {
      assert ThreadShaped(J, s.threads[u]);
      assert ThreadShaped(J, s.threads[t]);
    }
  }

  /** Where an entry of the lists of things to do was before the step. */
  function Before<T(!new)>(s: State<T>, t: nat, u: nat, j: nat): nat
    requires t < |s.threads|
  {
    if u == t && s.threads[t].phase.Unlocking? then j + 1 else j
  }

  lemma ListedBefore<T(!new)>(J: Job<T>, s: State<T>, t: nat, u: nat, j: nat)
    requires J.Valid() && Shaped(J, s) && t < |s.threads| && Listed(Step(J, s, t), u, j)
    ensures Listed(s, u, Before(s, t, u, j))
    ensures Step(J, s, t).threads[u].todo[j] == s.threads[u].todo[Before(s, t, u, j)]
  {
    StepShaped(J, s, t);
    assert ThreadShaped(J, s.threads[t]);
  }

  lemma StepNoRepeats<T(!new)>(J: Job<T>, s: State<T>, t: nat)
    requires J.Valid() && Shaped(J, s) && NoRepeats(s) && t < |s.threads|
    ensures NoRepeats(Step(J, s, t))
  {
    var next := Step(J, s, t);
    forall u: nat, v: nat, j: nat, k: nat | Listed(next, u, j) && Listed(next, v, k) &&
      next.threads[u].todo[j] == next.threads[v].todo[k]
      ensures u == v && j == k
    {
      ListedBefore(J, s, t, u, j);
      ListedBefore(J, s, t, v, k);
    }
  }

  /** The iteration thread t is working on. */
  function Current<T(!new)>(J: Job<T>, s: State<T>, t: nat): (i: nat)
    requires Shaped(J, s) && t < |s.threads| && s.threads[t].todo != []
    ensures i < |J.coefs|
  {
    assert ThreadShaped(J, s.threads[t]);
    s.threads[t].todo[0]
  }

  /** Only a write takes an iteration out of the pending ones, and only its own. */
  lemma StepPending<T(!new)>(J: Job<T>, s: State<T>, t: nat, i: nat)
    requires J.Valid() && Shaped(J, s) && NoRepeats(s) && t < |s.threads|
    ensures var writes := s.threads[t].todo != [] && s.threads[t].phase.Writing?;
            Pending(Step(J, s, t), i) == (Pending(s, i) && !(writes && Current(J, s, t) == i))
  {
    var next := Step(J, s, t);
    var th := s.threads[t];
    StepShaped(J, s, t);
    assert ThreadShaped(J, th);
    assert th.todo != [] ==> Listed(s, t, 0);
    if Pending(next, i) {
      var u: nat, j: nat :| PendingAt(next, i, u, j);
      ListedBefore(J, s, t, u, j);
      assert PendingAt(s, i, u, Before(s, t, u, j));
    }
    if Pending(s, i) && !(th.todo != [] && th.phase.Writing? && th.todo[0] == i) {
      var u: nat, j: nat :| PendingAt(s, i, u, j);
      PendingStays(J, s, t, i, u, j);
    }
  }

  lemma PendingStays<T(!new)>(J: Job<T>, s: State<T>, t: nat, i: nat, u: nat, j: nat)
    requires J.Valid() && Shaped(J, s) && t < |s.threads| && PendingAt(s, i, u, j)
    requires !(s.threads[t].todo != [] && s.threads[t].phase.Writing? && s.threads[t].todo[0] == i)
    ensures Pending(Step(J, s, t), i)
  {
    var next := Step(J, s, t);
    StepShaped(J, s, t);
    assert ThreadShaped(J, s.threads[t]);
    if u == t && s.threads[t].phase.Unlocking? {
      assert PendingAt(next, i, u, j - 1);
    } else {
      assert PendingAt(next, i, u, j);
    }
  }

  lemma {:induction false} DoneSame<T(!new)>(J: Job<T>, s: State<T>, next: State<T>, inB: bool, c: nat, n: nat)
    requires J.Valid() && n <= |J.coefs|
    requires forall i: nat | i < n :: Hits(J, inB, c, i) ==> Pending(s, i) == Pending(next, i)
    ensures DoneSum(J, next, inB, c, n) == DoneSum(J, s, inB, c, n)
  {
    if n > 0 { DoneSame(J, s, next, inB, c, n - 1); }
  }

  lemma {:induction false} DoneMore<T(!new)>(J: Job<T>, s: State<T>, next: State<T>, inB: bool, c: nat, n: nat, w: nat)
    requires J.Valid() && n <= |J.coefs| && w < |J.coefs| && Hits(J, inB, c, w) && Pending(s, w)
    requires forall i: nat | i < |J.coefs| :: Pending(next, i) == (Pending(s, i) && i != w)
    ensures DoneSum(J, next, inB, c, n) ==
            if w < n then J.R.Add(DoneSum(J, s, inB, c, n), J.Term(w)) else DoneSum(J, s, inB, c, n)
  {
    if n > 0 {
      DoneMore(J, s, next, inB, c, n - 1, w);
      var g, u := J.R.g, DoneSum(J, s, inB, c, n - 1);
      if w == n - 1 {
        g.Unit(u);
      } else if w < n - 1 {
        g.Swap(u, J.Term(w), if Hits(J, inB, c, n - 1) && !Pending(s, n - 1) then J.Term(n - 1) else J.R.Zero());
      }
    }
  }

  lemma StepCells<T(!new)>(J: Job<T>, s: State<T>, t: nat, inB: bool, c: nat)
    requires J.Valid() && Invariant(J, s) && t < |s.threads|
    ensures Shaped(J, Step(J, s, t)) && CellRight(J, Step(J, s, t), inB, c)
  {
    var next := Step(J, s, t);
    var th := s.threads[t];
    StepShaped(J, s, t);
    assert CellRight(J, s, inB, c);
    forall i: nat | i < |J.coefs|
      ensures Pending(next, i) == (Pending(s, i) && !(th.todo != [] && th.phase.Writing? && Current(J, s, t) == i))
    {
      StepPending(J, s, t, i);
    }
    if c < J.domainSize {
      if th.todo != [] && th.phase.Writing? && Hits(J, inB, c, Current(J, s, t)) {
        assert Remembers(J, s, t);
        var w := Current(J, s, t);
        assert PendingAt(s, w, t, 0);
        DoneMore(J, s, next, inB, c, |J.coefs|, w);
      } else {
        DoneSame(J, s, next, inB, c, |J.coefs|);
      }
    }
  }

  /** Who is inside after a step. */
  lemma HoldsAfter<T(!new)>(J: Job<T>, s: State<T>, t: nat, u: nat, k: nat)
    requires J.Valid() && Shaped(J, s) && t < |s.threads| && Shaped(J, Step(J, s, t))
    ensures Holds(J, Step(J, s, t), u, k) ==
            if u != t then Holds(J, s, u, k)
            else s.threads[t].todo != [] && J.Stripe(Current(J, s, t)) == k &&
                 ((s.threads[t].phase.Locking? && s.locks[k] == 0) || s.threads[t].phase.Reading? ||
                   s.threads[t].phase.Writing?)
  {
    StepShaped(J, s, t);
    assert ThreadShaped(J, s.threads[t]);
    if u < |s.threads| { assert ThreadShaped(J, s.threads[u]) && ThreadShaped(J, Step(J, s, t).threads[u]); }
  }

  lemma StepExclusive<T(!new)>(J: Job<T>, s: State<T>, t: nat)
    requires J.Valid() && Shaped(J, s) && Exclusive(J, s) && t < |s.threads| && Shaped(J, Step(J, s, t))
    ensures Exclusive(J, Step(J, s, t))
  {
    var next := Step(J, s, t);
    StepOneHolder(J, s, t);
    forall u: nat, k: nat | Holds(J, next, u, k) && k < NUM_LOCKS
      ensures next.locks[k] == 1
    {
      StepLockSet(J, s, t, u, k);
    }
    forall k: nat | k < NUM_LOCKS && next.locks[k] != 0
      ensures exists u: nat :: Holds(J, next, u, k)
    {
      StepLockHeld(J, s, t, k);
    }
  }

  lemma StepOneHolder<T(!new)>(J: Job<T>, s: State<T>, t: nat)
    requires J.Valid() && Shaped(J, s) && Exclusive(J, s) && t < |s.threads| && Shaped(J, Step(J, s, t))
    ensures forall u: nat, v: nat, k: nat :: Holds(J, Step(J, s, t), u, k) && Holds(J, Step(J, s, t), v, k) ==> u == v
  {
    var next := Step(J, s, t);
    forall u: nat, v: nat, k: nat | Holds(J, next, u, k) && Holds(J, next, v, k)
      ensures u == v
    {
      HoldsAfter(J, s, t, u, k); HoldsAfter(J, s, t, v, k);
      if u != v {
        StepNewHolder(J, s, t, if u == t then v else u, k);
      }
    }
  }

  lemma StepNewHolder<T(!new)>(J: Job<T>, s: State<T>, t: nat, v: nat, k: nat)
    requires J.Valid() && Shaped(J, s) && Exclusive(J, s) && t < |s.threads| && v != t && Holds(J, s, v, k)
    requires s.threads[t].todo != [] && J.Stripe(Current(J, s, t)) == k
    ensures s.locks[k] != 0 && !s.threads[t].Inside()
  {
    assert ThreadShaped(J, s.threads[t]);
    if s.threads[t].Inside() { assert Holds(J, s, t, k); assert false; }
  }

  lemma StepLockSet<T(!new)>(J: Job<T>, s: State<T>, t: nat, u: nat, k: nat)
    requires J.Valid() && Shaped(J, s) && Exclusive(J, s) && t < |s.threads| && Shaped(J, Step(J, s, t))
    requires Holds(J, Step(J, s, t), u, k) && k < NUM_LOCKS
    ensures Step(J, s, t).locks[k] == 1
  {
    var th := s.threads[t];
    HoldsAfter(J, s, t, u, k);
    assert ThreadShaped(J, th);
    if u != t {
      if th.todo != [] && J.Stripe(Current(J, s, t)) == k { StepNewHolder(J, s, t, u, k); }
    } else if th.Inside() {
      assert Holds(J, s, t, k);
    }
  }

  lemma StepLockHeld<T(!new)>(J: Job<T>, s: State<T>, t: nat, k: nat)
    requires J.Valid() && Shaped(J, s) && Exclusive(J, s) && t < |s.threads| && Shaped(J, Step(J, s, t))
    requires k < NUM_LOCKS && Step(J, s, t).locks[k] != 0
    ensures exists u: nat :: Holds(J, Step(J, s, t), u, k)
  {
    var th := s.threads[t];
    assert ThreadShaped(J, th);
    if s.locks[k] != 0 {
      var u: nat :| Holds(J, s, u, k);
      HoldsAfter(J, s, t, u, k);
    } else {
      HoldsAfter(J, s, t, t, k);
    }
  }

  lemma StepRemembers<T(!new)>(J: Job<T>, s: State<T>, t: nat, u: nat)
    requires J.Valid() && Invariant(J, s) && t < |s.threads| && u < |s.threads| && Shaped(J, Step(J, s, t))
    requires |Step(J, s, t).threads| == |s.threads|
    ensures Remembers(J, Step(J, s, t), u)
  {
    StepShaped(J, s, t);
    assert Remembers(J, s, t) && Remembers(J, s, u);
    assert ThreadShaped(J, s.threads[t]) && ThreadShaped(J, s.threads[u]) && ThreadShaped(J, Step(J, s, t).threads[u]);
    if u != t && s.threads[u].phase.Writing? && s.threads[t].todo != [] && s.threads[t].phase.Writing? {
      var k := J.Stripe(Current(J, s, u));
      assert Holds(J, s, u, k);
      if J.Stripe(Current(J, s, t)) == k { assert Holds(J, s, t, k); assert false; }
    }
  }

  lemma StepKeeps<T(!new)>(J: Job<T>, s: State<T>, t: nat)
    requires J.Valid() && Invariant(J, s) && t < |s.threads|
    ensures Invariant(J, Step(J, s, t))
  {
    var next := Step(J, s, t);
    StepShaped(J, s, t);
    StepNoRepeats(J, s, t);
    StepExclusive(J, s, t);
    forall u: nat | u < |next.threads|
      ensures Remembers(J, next, u)
    {
      StepRemembers(J, s, t, u);
    }
    forall inB: bool, c: nat
      ensures CellRight(J, next, inB, c)
    {
      StepCells(J, s, t, inB, c);
    }
  }

  lemma {:induction false} NothingDone<T(!new)>(J: Job<T>, s: State<T>, inB: bool, c: nat, n: nat)
    requires J.Valid() && Initial(J, s) && n <= |J.coefs|
    ensures DoneSum(J, s, inB, c, n) == J.R.Zero()
  {
    if n > 0 {
      NothingDone(J, s, inB, c, n - 1);
      assert Pending(s, n - 1);
      J.R.g.Unit(J.R.Zero());
    }
  }

  lemma InitialKeeps<T(!new)>(J: Job<T>, s: State<T>)
    requires J.Valid() && Initial(J, s)
    ensures Invariant(J, s)
  {
    forall inB: bool, c: nat
      ensures CellRight(J, s, inB, c)
    {
      NothingDone(J, s, inB, c, |J.coefs|);
    }
  }

  // ---------- whole runs ----------

  /** run[j + 1] is run[j] after a step of some thread. */
  ghost predicate IsStep<T(!new)>(J: Job<T>, s: State<T>, next: State<T>)
    requires J.Valid()
  {
    exists t: nat :: Stepped(J, s, next, t)
  }

  ghost predicate Stepped<T(!new)>(J: Job<T>, s: State<T>, next: State<T>, t: nat)
    requires J.Valid()
  {
    Shaped(J, s) && t < |s.threads| && next == Step(J, s, t)
  }

  ghost predicate StepAt<T(!new)>(J: Job<T>, run: seq<State<T>>, j: nat)
    requires J.Valid()
  {
    j + 1 < |run| ==> IsStep(J, run[j], run[j + 1])
  }

  ghost predicate Run<T(!new)>(J: Job<T>, run: seq<State<T>>)
    requires J.Valid()
  {
    run != [] && Initial(J, run[0]) && forall j: nat :: StepAt(J, run, j)
  }

  lemma RunInvariant<T(!new)>(J: Job<T>, run: seq<State<T>>, j: nat)
    requires J.Valid() && Run(J, run) && j < |run|
    ensures Invariant(J, run[j])
  {
    InitialKeeps(J, run[0]);
    InvariantAlong(J, run, j);
  }

  lemma {:induction false} InvariantAlong<T(!new)>(J: Job<T>, run: seq<State<T>>, j: nat)
    requires J.Valid() && j < |run| && Invariant(J, run[0]) && forall i: nat :: StepAt(J, run, i)
    ensures Invariant(J, run[j])
  {
    if j > 0 {
      InvariantAlong(J, run, j - 1);
      assert StepAt(J, run, j - 1);
      AnyStepKeeps(J, run[j - 1], run[j]);
    }
  }

  lemma AnyStepKeeps<T(!new)>(J: Job<T>, s: State<T>, next: State<T>)
    requires J.Valid() && Invariant(J, s) && IsStep(J, s, next)
    ensures Invariant(J, next)
  {
    var t: nat :| Stepped(J, s, next, t);
    StepKeeps(J, s, t);
  }

  /** In no state of any run are two threads inside one stripe. */
  lemma MutualExclusion<T(!new)>(J: Job<T>, run: seq<State<T>>, j: nat, t: nat, u: nat, k: nat)
    requires J.Valid() && Run(J, run) && j < |run|
    ensures Shaped(J, run[j])
    ensures Holds(J, run[j], t, k) && Holds(J, run[j], u, k) ==> t == u
  {
    RunInvariant(J, run, j);
  }

  predicate Finished<T(!new)>(s: State<T>) {
    forall t: nat | t < |s.threads| :: s.threads[t].todo == []
  }

  lemma {:induction false} AllDone<T(!new)>(J: Job<T>, s: State<T>, inB: bool, c: nat, n: nat)
    requires J.Valid() && n <= |J.coefs| && Finished(s)
    ensures DoneSum(J, s, inB, c, n) == CellSum(J, inB, c, n)
  {
    if n > 0 {
      AllDone(J, s, inB, c, n - 1);
      assert !Pending(s, n - 1);
    }
  }

  /** The loop run by one thread, one entry after the other, as far as place c of one array goes: entries
      with m = 0 go to a, all others to b. */
  function Sequential<T(!new)>(R: Ring<T>, wtns: seq<T>, coefs: seq<Coef<T>>, toA: bool, c: nat): T
    requires forall i | 0 <= i < |coefs| :: coefs[i].s < |wtns|
  {
    if coefs == [] then R.Zero()
    else
      var e, before := coefs[|coefs| - 1], Sequential(R, wtns, coefs[..|coefs| - 1], toA, c);
      if (e.m == 0) == toA && e.c == c then R.Add(before, R.Mul(wtns[e.s], e.coef)) else before
  }

  lemma {:induction false} CellSumIs<T(!new)>(J: Job<T>, inB: bool, c: nat, n: nat)
    requires J.Valid() && n <= |J.coefs|
    ensures CellSum(J, inB, c, n) == Sequential(J.R, J.wtns, J.coefs[..n], !inB, c)
  {
    if n > 0 {
      CellSumIs(J, inB, c, n - 1);
      assert J.coefs[..n][..n - 1] == J.coefs[..n - 1];
      J.R.g.Unit(CellSum(J, inB, c, n - 1));
    }
  }

  /** When every thread has finished, both arrays hold what the sequential loop leaves in them. */
  lemma NoUpdateLost<T(!new)>(J: Job<T>, run: seq<State<T>>, j: nat, c: nat)
    requires J.Valid() && Run(J, run) && j < |run| && Finished(run[j]) && c < J.domainSize
    ensures |run[j].a| == |run[j].b| == J.domainSize
    ensures run[j].a[c] == Sequential(J.R, J.wtns, J.coefs, true, c)
    ensures run[j].b[c] == Sequential(J.R, J.wtns, J.coefs, false, c)
  {
    CellSumIs(J, false, c, |J.coefs|);
    CellSumIs(J, true, c, |J.coefs|);
    assert J.coefs[..|J.coefs|] == J.coefs;
    RunInvariant(J, run, j);
    assert CellRight(J, run[j], false, c) && CellRight(J, run[j], true, c);
    AllDone(J, run[j], false, c, |J.coefs|);
    AllDone(J, run[j], true, c, |J.coefs|);
  }

  // ---------- no deadlock ----------

  /** How much a thread still has to do; waiting for a lock costs nothing. */
  function Work<T(!new)>(th: Thread<T>): nat {
    if th.todo == [] then 0
    else 5 * |th.todo| - match th.phase
                         case Idle => 0
                         case Locking(_) => 1
                         case Spinning(_) => 1
                         case Reading(_) => 2
                         case Writing(_, _) => 3
                         case Unlocking => 4
  }

  function TotalWork<T(!new)>(threads: seq<Thread<T>>): nat {
    if threads == [] then 0 else TotalWork(threads[..|threads| - 1]) + Work(threads[|threads| - 1])
  }

  lemma {:induction false} WorkUpdate<T(!new)>(threads: seq<Thread<T>>, t: nat, th: Thread<T>)
    requires t < |threads|
    ensures TotalWork(threads[t := th]) == TotalWork(threads) - Work(threads[t]) + Work(th)
    ensures Work(threads[t]) <= TotalWork(threads)
  {
    var n := |threads| - 1;
    if t < n {
      assert threads[t := th][..n] == threads[..n][t := th];
      WorkUpdate(threads[..n], t, th);
    } else {
      assert threads[t := th][..n] == threads[..n];
    }
  }

  /** No step of any thread adds work. */
  lemma StepWork<T(!new)>(J: Job<T>, s: State<T>, t: nat)
    requires J.Valid() && Shaped(J, s) && t < |s.threads|
    ensures var th := s.threads[t];
            var waits := th.todo == [] || th.phase.Spinning? ||
              (th.phase.Locking? && s.locks[J.Stripe(Current(J, s, t))] != 0);
            if waits then TotalWork(Step(J, s, t).threads) == TotalWork(s.threads)
            else TotalWork(Step(J, s, t).threads) < TotalWork(s.threads)
  {
    StepShaped(J, s, t);
    assert ThreadShaped(J, s.threads[t]);
    var next := Step(J, s, t);
    WorkUpdate(s.threads, t, next.threads[t]);
    assert next.threads == s.threads[t := next.threads[t]];
  }

  /** In every state that is not finished some thread gets on, with one step or, when it has to leave the
      inner spin loop first, with two. */
  lemma SomeThreadGetsOn<T(!new)>(J: Job<T>, s: State<T>) returns (t: nat)
    requires J.Valid() && Invariant(J, s) && !Finished(s)
    ensures t < |s.threads| && Shaped(J, Step(J, s, t)) && |Step(J, s, t).threads| == |s.threads|
    ensures TotalWork(Step(J, Step(J, s, t), t).threads) < TotalWork(s.threads)
  {
    t :| t < |s.threads| && s.threads[t].todo != [];
    assert ThreadShaped(J, s.threads[t]);
    var k := J.Stripe(Current(J, s, t));
    if !s.threads[t].phase.Idle? && !s.threads[t].Inside() && s.locks[k] != 0 {
      t :| Holds(J, s, t, k);
    }
    GetsOn(J, s, t);
  }

  lemma GetsOn<T(!new)>(J: Job<T>, s: State<T>, t: nat)
    requires J.Valid() && Shaped(J, s) && t < |s.threads| && s.threads[t].todo != []
    requires s.threads[t].phase.Idle? || s.threads[t].Inside() || s.locks[J.Stripe(Current(J, s, t))] == 0
    ensures Shaped(J, Step(J, s, t)) && |Step(J, s, t).threads| == |s.threads|
    ensures TotalWork(Step(J, Step(J, s, t), t).threads) < TotalWork(s.threads)
  {
    StepShaped(J, s, t);
    assert ThreadShaped(J, s.threads[t]);
    StepWork(J, s, t);
    StepWork(J, Step(J, s, t), t);
  }
}
