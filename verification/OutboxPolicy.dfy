/** The outbox processor's constants and its retry delay. */
module OutboxPolicy {
  const BATCH_SIZE: nat := 25
  const LOCK_MS: int := 30_000
  const MAX_PUBLISH_ATTEMPTS: nat := 5
  const BASE_BACKOFF_MS: int := 5_000
  const MAX_BACKOFF_MS: int := 300_000

  function Pow2(n: nat): nat {
    if n == 0 then 1 else 2 * Pow2(n - 1)
  }

  /** Delay before the next attempt, given how many attempts had failed before this failure. */
  function Backoff(failedBefore: nat): int {
    var uncapped := BASE_BACKOFF_MS * Pow2(failedBefore);
    if uncapped < MAX_BACKOFF_MS then uncapped else MAX_BACKOFF_MS
  }

  predicate IsDeadLetter(failedBefore: nat) {
    failedBefore + 1 >= MAX_PUBLISH_ATTEMPTS
  }

  /** All the delays served by the time `failures` attempts have failed. */
  function DelaysServed(failures: nat): int {
    if failures == 0 then 0 else DelaysServed(failures - 1) + Backoff(failures - 1)
  }

  lemma {:induction false} Pow2Grows(m: nat, n: nat)
    requires m <= n
    ensures 1 <= Pow2(m) <= Pow2(n)
    decreases n
  {
    if m < n {
      Pow2Grows(m, n - 1);
    } else if m > 0 {
      Pow2Grows(m - 1, n - 1);
    }
  }

  /** The delay never shrinks, stays inside its bounds, and is the cap exactly from 6 on. */
  lemma {:induction false} BackoffShape(m: nat, n: nat)
    requires m <= n
    ensures 5_000 <= Backoff(m) <= Backoff(n) <= 300_000
    ensures Backoff(n) == 300_000 <==> n >= 6
  {
    Pow2Grows(0, m);
    Pow2Grows(m, n);
    assert Pow2(3) == 8;
    assert Pow2(6) == 64;
    if n >= 6 {
      Pow2Grows(6, n);
    } else {
      assert Pow2(5) == 32;
      Pow2Grows(n, 5);
    }
  }

  /** The four delays an event can serve before it is dead-lettered are uncapped and double each time. */
  lemma {:induction false} RetrySchedule(k: nat)
    requires 1 <= k < MAX_PUBLISH_ATTEMPTS
    ensures Backoff(k - 1) == 5_000 * Pow2(k - 1)
    ensures !IsDeadLetter(k - 1) && IsDeadLetter(MAX_PUBLISH_ATTEMPTS - 1)
    ensures DelaysServed(k) == 5_000 * (Pow2(k) - 1)
    ensures DelaysServed(4) == 75_000
    ensures Backoff(0) == 5_000 && Backoff(1) == 10_000 && Backoff(2) == 20_000 && Backoff(3) == 40_000
  {
    assert Pow2(1) == 2;
    assert Pow2(3) == 8;
    Pow2Grows(k - 1, 3);
    assert DelaysServed(1) == 5_000;
    assert DelaysServed(2) == 15_000;
    assert Pow2(2) == 4;
    assert DelaysServed(3) == 35_000;
    assert DelaysServed(4) == 75_000;
    assert Pow2(4) == 16;
  }
}
