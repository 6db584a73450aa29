/** Walking around an open-addressing table, one slot at a time. */
module Probing {
  import opened Common

  /** The slot reached from `start` after `step` steps around the table. */
  function Probe(start: nat, step: nat, size: nat): (r: nat)
    requires start < size && step < size
    ensures r < size
  {
    if start + step < size then start + step else start + step - size
  }

  lemma ProbeIsMod(start: nat, step: nat, size: nat)
    requires start < size && step < size
    ensures Probe(start, step, size) == (start + step) % size
  {
    if start + step >= size {
      assert start + step == size + Probe(start, step, size);
    }
  }

  /** Slot `k` comes before slot `j` when probing from `home`. */
  predicate Before(home: nat, k: nat, j: nat) {
    if home <= j then home <= k < j else home <= k || k < j
  }

  /** The slots met by the first `step` steps from `start`. */
  predicate Scanned(start: nat, step: nat, size: nat, k: nat) {
    if start + step <= size then start <= k < start + step else start <= k || k < start + step - size
  }

  /** What probing sees of a slot: never used, taken by a key with that home, or given
      up again. */
  datatype Mark = Untouched | Taken(home: nat) | Left

  /** Each taken slot is reached from its home before any untouched one. */
  ghost predicate AllReached(m: seq<Mark>) {
    forall j, k :: 0 <= j < |m| && 0 <= k < |m| && m[j].Taken? && Before(m[j].home, k, j) ==> m[k] != Untouched
  }

  /** Stopping at the first untouched slot misses nothing. */
  lemma StopMissesNothing(m: seq<Mark>, start: nat, step: nat, j: nat)
    requires start < |m| && step < |m| && AllReached(m)
    requires m[Probe(start, step, |m|)] == Untouched
    requires j < |m| && m[j] == Taken(start)
    ensures Scanned(start, step, |m|, j)
  {
    assert !Before(start, Probe(start, step, |m|), j);
  }

  /** Taking a slot that is reached before any untouched one keeps all reached. */
  lemma TakingKeepsReached(m: seq<Mark>, i: nat, home: nat)
    requires AllReached(m) && i < |m|
    requires forall k :: 0 <= k < |m| && Before(home, k, i) ==> m[k] != Untouched
    ensures AllReached(m[i := Taken(home)])
  {}

  const UINT32: nat := 0x1_0000_0000

  /** A probe computed from the unreduced 32-bit hash, whose sum wraps around,
      still visits consecutive slots when the table size divides 2^32. */
  lemma WrappedProbe(hash: nat, step: nat, size: nat)
    requires hash < UINT32 && step < size <= UINT32 && UINT32 % size == 0
    ensures (hash + step) % UINT32 % size == Probe(hash % size, step, size)
  {
    assert UINT32 == UINT32 / size * size;
    WrapKeepsRemainder(hash + step, UINT32, UINT32 / size, size);
    SameRemainder(hash + step, hash / size, hash % size + step, size);
    ProbeIsMod(hash % size, step, size);
  }

  lemma WrapKeepsRemainder(x: nat, wrap: nat, rows: nat, size: nat)
    requires size > 0 && wrap == rows * size && x < 2 * wrap
    ensures x % wrap % size == x % size
  {
    if x >= wrap {
      Remainder(x, 1, x - wrap, wrap);
      SameRemainder(x, rows, x - wrap, size);
    } else {
      Remainder(x, 0, x, wrap);
    }
  }

  lemma SameRemainder(x: nat, q: nat, rest: nat, size: nat)
    requires size > 0 && x == q * size + rest
    ensures x % size == rest % size
  {
    var inner := rest / size;
    assert rest == inner * size + rest % size;
    assert x == (q + inner) * size + rest % size;
    Remainder(x, q + inner, rest % size, size);
  }

  lemma Remainder(x: nat, q: nat, r: nat, size: nat)
    requires size > 0 && r < size && x == q * size + r
    ensures x % size == r
  {
    Remainders(q, r, x / size, x % size, size);
  }

  lemma Remainders(q: nat, r: nat, p: nat, s: nat, size: nat)
    requires r < size && s < size && q * size + r == p * size + s
    ensures r == s
  {
    Multiples(p, q, size);
    Multiples(q, p, size);
  }

  lemma {:induction false} Multiples(p: nat, q: nat, size: nat)
    ensures p < q ==> q * size >= p * size + size
  {
    if p < q {
      Multiples(p, q - 1, size);
      Distribute(q - 1, size);
    }
  }
}
