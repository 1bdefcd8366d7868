/** Which bytes of a token payload lie inside quoted strings: the two-step lookback of the prover service
    against the quote parity of the circuit's reference. */
module StringBodies {
  import opened Bytes

  const QUOTE: byte := 34
  const BACKSLASH: byte := 92

  // ---------- the reference ----------

  /** How many backslashes stand directly before place i. */
  function Run(b: seq<byte>, i: nat): nat
    requires i <= |b|
  {
    if i == 0 || b[i - 1] != BACKSLASH then 0 else 1 + Run(b, i - 1)
  }

  /** An unescaped quote. */
  predicate Quote(b: seq<byte>, i: nat)
    requires i < |b|
  {
    b[i] == QUOTE && Run(b, i) % 2 == 0
  }

  /** A byte is escaped exactly when the byte before it is a backslash that is not escaped itself. */
  predicate Escaped(b: seq<byte>, i: nat)
    requires i <= |b|
  {
    i > 0 && b[i - 1] == BACKSLASH && !Escaped(b, i - 1)
  }

  lemma {:induction false} EscapedByParity(b: seq<byte>, i: nat)
    requires i <= |b|
    ensures Escaped(b, i) <==> Run(b, i) % 2 == 1
  {
    if i > 0 { EscapedByParity(b, i - 1); }
  }

  /** The quotes that count are those no backslash escapes. */
  lemma QuotesAreUnescaped(b: seq<byte>, i: nat)
    requires i < |b|
    ensures Quote(b, i) <==> b[i] == QUOTE && !Escaped(b, i)
  {
    EscapedByParity(b, i);
  }

  /** Whether an odd number of quotes stands before place i. */
  predicate Inside(b: seq<byte>, i: nat)
    requires i <= |b|
  {
    i > 0 && Inside(b, i - 1) != Quote(b, i - 1)
  }

  predicate Body(b: seq<byte>, i: nat)
    requires i < |b|
  {
    i > 0 && Inside(b, i) && Inside(b, i + 1)
  }

  /** A quote that an even number of backslashes stands before. */
  method IsQuote(b: seq<byte>, i: nat) returns (quote: bool)
    requires i < |b|
    ensures quote == Quote(b, i)
  {
    var odd := false;
    var j: nat := i;
    while j > 0 && b[j - 1] == BACKSLASH
      invariant j <= i && Run(b, i) == i - j + Run(b, j) && odd == ((i - j) % 2 == 1)
    {
      j := j - 1;
      odd := !odd;
    }
    quote := b[i] == QUOTE && !odd;
  }

  method ReferenceBodies(b: seq<byte>) returns (bodies: array<bool>)
    requires |b| >= 1
    ensures bodies.Length == |b| && forall i: nat | i < |b| :: bodies[i] == Body(b, i)
  {
    bodies := new bool[|b|](_ => false);
    var quotes := new bool[|b|](_ => false);
    var parity := new bool[|b|](_ => false);
    quotes[0] := b[0] == QUOTE;
    parity[0] := b[0] == QUOTE;
    for i := 1 to |b|
      invariant forall k: nat | k < i :: parity[k] == Inside(b, k + 1)
      invariant forall k: nat | k < |b| :: !bodies[k]
    {
      quotes[i] := IsQuote(b, i);
      parity[i] := if quotes[i] then !parity[i - 1] else parity[i - 1];
      assert parity[i - 1] == Inside(b, i - 1 + 1);
      assert parity[i] == Inside(b, i + 1);
    }
    for i := 1 to |b|
      invariant forall k: nat | k < i :: bodies[k] == Body(b, k)
      invariant forall k: nat | k < |b| :: parity[k] == Inside(b, k + 1)
    {
      assert parity[i] == Inside(b, i + 1) && parity[i - 1] == Inside(b, i - 1 + 1);
      bodies[i] := parity[i] && parity[i - 1];
    }
  }

  // ---------- the lookback ----------

  function Look(b: seq<byte>, i: nat): bool
    requires |b| >= 2 && i < |b|
  {
    if i == 0 then false
    else if i == 1 then b[0] == QUOTE
    else if !Look(b, i - 2) && b[i - 1] == QUOTE && b[i - 2] != BACKSLASH then true
    else if Look(b, i - 1) && b[i] == QUOTE && b[i - 1] != BACKSLASH then false
    else Look(b, i - 1)
  }

  lemma LookIs(b: seq<byte>, i: nat)
    requires 2 <= i < |b|
    ensures Look(b, i) == if !Look(b, i - 2) && b[i - 1] == QUOTE && b[i - 2] != BACKSLASH then true
                          else if Look(b, i - 1) && b[i] == QUOTE && b[i - 1] != BACKSLASH then false
                          else Look(b, i - 1)
  {
  }

  ghost predicate LookedAt(bodies: seq<bool>, b: seq<byte>, i: nat) {
    |b| >= 2 && i < |b| && i < |bodies| && bodies[i] == Look(b, i)
  }

  method LookbackBodies(b: seq<byte>) returns (bodies: array<bool>)
    requires |b| >= 2
    ensures bodies.Length == |b| && forall i: nat | i < |b| :: LookedAt(bodies[..], b, i)
  {
    bodies := new bool[|b|](_ => false);
    bodies[0] := false;
    bodies[1] := b[0] == QUOTE;
    assert LookedAt(bodies[..], b, 0) && LookedAt(bodies[..], b, 1);
    for i := 2 to |b|
      invariant forall k: nat | k < i :: LookedAt(bodies[..], b, k)
    {
      ghost var before := bodies[..];
      LookIs(b, i);
      assert LookedAt(before, b, i - 1) && LookedAt(before, b, i - 2);
      if !bodies[i - 2] && b[i - 1] == QUOTE && b[i - 2] != BACKSLASH {
        bodies[i] := true;
      } else if bodies[i - 1] && b[i] == QUOTE && b[i - 1] != BACKSLASH {
        bodies[i] := false;
      } else {
        bodies[i] := bodies[i - 1];
      }
      assert LookedAt(bodies[..], b, i);
      forall k: nat | k < i
        ensures LookedAt(bodies[..], b, k)
      {
        assert LookedAt(before, b, k);
      }
    }
  }

  // ---------- when they agree ----------

  /** A quote that opens a string and is followed by another at once. */
  predicate EmptyString(b: seq<byte>, i: nat)
    requires i < |b|
  {
    i + 1 < |b| && Quote(b, i) && !Inside(b, i) && Run(b, i) == 0 && b[i + 1] == QUOTE
  }

  /** An unescaped quote that follows backslashes: the lookback takes it for an escaped one. */
  predicate Missed(b: seq<byte>, i: nat)
    requires i < |b|
  {
    Quote(b, i) && Run(b, i) > 0
  }

  /** A missed quote matters unless it opens a string of which nothing is seen: at the very end, or with the
      closing quote as the last byte. */
  predicate Trouble(b: seq<byte>, i: nat)
    requires i < |b|
  {
    || EmptyString(b, i)
    || (Missed(b, i) && (Inside(b, i) || (i + 1 < |b| && !(b[i + 1] == QUOTE && i + 2 == |b|))))
  }

  lemma Unfold(b: seq<byte>, i: nat)
    requires i < |b|
    ensures Inside(b, i + 1) == (Inside(b, i) != Quote(b, i))
    ensures b[i] == QUOTE && (i == 0 || b[i - 1] != BACKSLASH) <==> Quote(b, i) && Run(b, i) == 0
    ensures Missed(b, i) ==> i >= 2 && b[i - 1] == BACKSLASH
  {
  }

  lemma {:induction false} Agrees(b: seq<byte>, i: nat)
    requires |b| >= 2 && i < |b| && (forall j: nat | j < i :: !Trouble(b, j)) && !(Missed(b, i) && Inside(b, i))
    ensures Look(b, i) == Body(b, i)
  {
    Unfold(b, i);
    if i > 0 {
      assert !Trouble(b, i - 1);
      Unfold(b, i - 1);
    }
    if i > 1 {
      assert !Trouble(b, i - 2);
      Unfold(b, i - 2);
      Agrees(b, i - 1);
      Agrees(b, i - 2);
      LookStep(b, i);
    }
  }

  lemma LookStep(b: seq<byte>, i: nat)
    requires 2 <= i < |b|
    ensures Look(b, i) == (
              var near := Quote(b, i - 1) && Run(b, i - 1) == 0;
              if near && !Look(b, i - 2) then true
              else if Look(b, i - 1) && Quote(b, i) && Run(b, i) == 0 then false
              else Look(b, i - 1))
  {
    Unfold(b, i);
    Unfold(b, i - 1);
  }

  lemma TroubleShows(b: seq<byte>, t: nat) returns (i: nat)
    requires |b| >= 2 && t < |b| && Trouble(b, t) && forall j: nat | j < t :: !Trouble(b, j)
    ensures i < |b| && Look(b, i) != Body(b, i)
  {
    Unfold(b, t);
    if t > 0 {
      assert !Trouble(b, t - 1);
      Unfold(b, t - 1);
      Agrees(b, t - 1);
    }
    if t > 1 { LookStep(b, t); }
    if Missed(b, t) && Inside(b, t) {
      i := t;
      return;
    }
    Agrees(b, t);
    Unfold(b, t + 1);
    if t + 1 >= 2 { LookStep(b, t + 1); }
    i := t + 1;
    if Missed(b, t) && b[t + 1] == QUOTE {
      Unfold(b, t + 2);
      LookStep(b, t + 2);
      i := t + 2;
    }
  }

  /** The least place of trouble, if there is any. */
  lemma FirstTrouble(b: seq<byte>, i: nat) returns (t: nat)
    requires i < |b| && Trouble(b, i)
    ensures t <= i && Trouble(b, t) && forall j: nat | j < t :: !Trouble(b, j)
  {
    t := 0;
    while !Trouble(b, t)
      invariant t <= i && forall j: nat | j < t :: !Trouble(b, j)
      decreases i - t
    {
      t := t + 1;
    }
  }

  /** The lookback gives what the reference gives exactly when there is no trouble anywhere. */
  lemma AgreeIff(b: seq<byte>)
    requires |b| >= 2
    ensures (forall i: nat | i < |b| :: Look(b, i) == Body(b, i)) <==> (forall i: nat | i < |b| :: !Trouble(b, i))
  {
    if i: nat :| i < |b| && Trouble(b, i) {
      var t := FirstTrouble(b, i);
      var k := TroubleShows(b, t);
    } else {
      forall i: nat | i < |b|
        ensures Look(b, i) == Body(b, i)
      {
        assert !Trouble(b, i);
        Agrees(b, i);
      }
    }
  }

  predicate NoDoubleBackslash(b: seq<byte>) {
    forall i: nat | i + 1 < |b| && b[i] == BACKSLASH :: b[i + 1] != BACKSLASH
  }

  /** Without two backslashes in a row, the two agree exactly when no quoted string is empty. */
  lemma AgreeWithoutDoubleBackslash(b: seq<byte>)
    requires |b| >= 2 && NoDoubleBackslash(b)
    ensures (forall i: nat | i < |b| :: Look(b, i) == Body(b, i)) <==> (forall i: nat | i < |b| :: !EmptyString(b, i))
  {
    AgreeIff(b);
    forall i: nat | i < |b|
      ensures Trouble(b, i) == EmptyString(b, i)
    {
      if i > 1 && b[i - 2] == BACKSLASH { assert b[i - 1] != BACKSLASH; }
      assert Run(b, i) <= 1;
    }
  }

  /** The two disagree on an empty string. */
  lemma EmptyStringDisagrees()
    ensures var b := [QUOTE, QUOTE]; Look(b, 1) != Body(b, 1)
  {
  }
}
