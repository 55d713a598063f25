/** The delays between the attempts of a run to read again
    (architecturekit/projection.go and architecturekit/store.go). */
module Backoff {

  /** A time.Duration is a signed 64-bit number of nanoseconds. */
  function Wrap(n: int): int {
    (n + 0x8000_0000_0000_0000) % 0x1_0000_0000_0000_0000 - 0x8000_0000_0000_0000
  }

  /** The delay after the given one. */
  function NextDelay(delay: int, maxDelay: int): int {
    var doubled := Wrap(2 * delay);
    if doubled < maxDelay then doubled else maxDelay
  }

  /** The delay before the k-th attempt in a row, as the run computes it. */
  function DelayOf(k: nat, initial: int, maxDelay: int): int
    requires k >= 1
  {
    if k == 1 then initial else NextDelay(DelayOf(k - 1, initial, maxDelay), maxDelay)
  }

  function Pow2(n: nat): nat { if n == 0 then 1 else 2 * Pow2(n - 1) }

  /** The delay as it is documented: doubled with every attempt in a row, and
      never above the maximum. */
  function Documented(k: nat, initial: int, maxDelay: int): int
    requires k >= 1
  {
    var doubled := initial * Pow2(k - 1);
    if doubled < maxDelay then doubled else maxDelay
  }

  /** What WithReconnectDelays accepts. */
  predicate Accepted(initial: int, maxDelay: int) { 0 < initial <= maxDelay < 0x8000_0000_0000_0000 }

  const DOUBLING_LIMIT: int := 0x4000_0000_0000_0000

  lemma {:induction false} Doubles(k: nat, initial: int)
    requires k >= 1
    ensures initial * Pow2(k) == 2 * (initial * Pow2(k - 1))
  {
  }

  /** One more doubling, capped either way. */
  lemma {:induction false} CappedDoubling(product: int, maxDelay: int)
    requires 0 < product && 0 < maxDelay < DOUBLING_LIMIT
    ensures var capped := if product < maxDelay then product else maxDelay;
      NextDelay(capped, maxDelay) == if 2 * product < maxDelay then 2 * product else maxDelay
  {
  }

  lemma {:induction false} BelowLimit(k: nat, initial: int, maxDelay: int)
    requires k >= 1 && Accepted(initial, maxDelay) && maxDelay < DOUBLING_LIMIT
    ensures DelayOf(k, initial, maxDelay) == Documented(k, initial, maxDelay)
    ensures initial <= DelayOf(k, initial, maxDelay) <= maxDelay && initial <= initial * Pow2(k - 1)
  {
    if k > 1 {
      BelowLimit(k - 1, initial, maxDelay);
      Doubles(k - 1, initial);
      CappedDoubling(initial * Pow2(k - 2), maxDelay);
    }
  }

  lemma {:induction false} PowGrows(n: nat)
    ensures Pow2(n) > n
  {
    if n > 0 {
      PowGrows(n - 1);
    }
  }

  /** From 2^62 nanoseconds on, doubling wraps around to a negative delay. */
  lemma {:induction false} DoublingWraps(delay: int, maxDelay: int)
    requires DOUBLING_LIMIT <= delay <= maxDelay < 2 * DOUBLING_LIMIT
    ensures NextDelay(delay, maxDelay) == 2 * delay - 4 * DOUBLING_LIMIT < 0
  {
  }

  lemma {:induction false} Scales(initial: int, power: nat, limit: nat)
    requires initial > 0 && power >= limit
    ensures initial * power >= limit
  {
    assert (initial - 1) * power >= 0;
  }

  lemma {:induction false} GrowsPast(initial: int, limit: nat) returns (k: nat)
    requires initial > 0
    ensures k >= 1 && initial * Pow2(k - 1) >= limit
  {
    k := limit + 1;
    PowGrows(k - 1);
    Scales(initial, Pow2(k - 1), limit);
  }

  lemma {:induction false} ReachesLimit(initial: int, maxDelay: int)
    requires Accepted(initial, maxDelay) && maxDelay >= DOUBLING_LIMIT
    ensures exists k: nat :: k >= 1 && DelayOf(k, initial, maxDelay) != Documented(k, initial, maxDelay)
  {
    var k := GrowsPast(initial, DOUBLING_LIMIT);
    if forall j | 1 <= j <= k :: DelayOf(j, initial, maxDelay) == Documented(j, initial, maxDelay) {
      DoublingWraps(DelayOf(k, initial, maxDelay), maxDelay);
      PowGrows(k);
      Scales(initial, Pow2(k), 1);
      assert DelayOf(k + 1, initial, maxDelay) != Documented(k + 1, initial, maxDelay);
    }
  }

  /** Every attempt in a row waits as documented exactly if the maximum is below
      2^62 nanoseconds, which is about 146 years. */
  lemma {:induction false} DelaysAreAsDocumented(initial: int, maxDelay: int)
    requires Accepted(initial, maxDelay)
    ensures (forall k: nat | k >= 1 :: DelayOf(k, initial, maxDelay) == Documented(k, initial, maxDelay)) <==>
      maxDelay < DOUBLING_LIMIT
  {
    if maxDelay < DOUBLING_LIMIT {
      forall k: nat | k >= 1 ensures DelayOf(k, initial, maxDelay) == Documented(k, initial, maxDelay) {
        BelowLimit(k, initial, maxDelay);
      }
    } else {
      ReachesLimit(initial, maxDelay);
    }
  }
}
