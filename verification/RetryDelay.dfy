/** The doubling delays of the backfill retry and the delivery retry, in nanoseconds held in a
    64-bit signed integer (apps/workers/backfill.go, apps/workers/delivery.go). */
module RetryDelay {
  const TWO_64 := 0x1_0000_0000_0000_0000
  const TWO_63 := 0x8000_0000_0000_0000
  const HOUR := 3_600_000_000_000

  /** Two's complement: what a 64-bit register keeps of `x`. */
  function Wrap(x: int): (r: int)
    ensures -TWO_63 <= r < TWO_63
    ensures -TWO_63 <= x < TWO_63 ==> r == x
  {
    (x + TWO_63) % TWO_64 - TWO_63
  }

  function Pow2(n: nat): (p: nat)
    ensures p >= 1
  {
    if n == 0 then 1 else 2 * Pow2(n - 1)
  }

  function Min(a: int, b: int): int { if a <= b then a else b }
  function Max(a: int, b: int): int { if a <= b then b else a }

  /** The delay the two loops are meant to compute: doubled once per earlier retry, up to the cap.
      The first retry waits `base`, capped or not. */
  function Capped(base: nat, cap: nat, retries: int): nat {
    if retries <= 1 then base else Min(base * Pow2(retries - 1), cap)
  }

  lemma {:induction false} Pow2Monotone(m: nat, n: nat)
    requires m <= n
    ensures Pow2(m) <= Pow2(n)
    decreases n
  {
    if m < n { Pow2Monotone(m, n - 1); }
  }

  lemma ScaledMonotone(base: nat, m: nat, n: nat)
    requires m <= n
    ensures base * Pow2(m) <= base * Pow2(n)
  {
    Pow2Monotone(m, n);
    MulMonotone(base, Pow2(m), Pow2(n));
  }

  lemma MulMonotone(k: nat, a: nat, b: nat)
    requires a <= b
    ensures k * a <= k * b
  {
    assert k * b - k * a == k * (b - a);
  }

  lemma Doubling(base: nat, step: nat)
    requires step >= 1
    ensures base * Pow2(step) == 2 * (base * Pow2(step - 1))
  {
  }

  /** The loops on machine integers: `steps` doublings left, then the cap. */
  function LoopFrom(delay: int, cap: int, steps: nat): int
    decreases steps
  {
    if steps == 0 then Min(delay, cap)
    else
      var doubled := Wrap(delay * 2);
      if doubled >= cap then cap else LoopFrom(doubled, cap, steps - 1)
  }

  /** What the loops return for a retry count. */
  function Delay(base: int, cap: int, retries: int): int {
    if retries <= 1 then base else LoopFrom(base, cap, retries - 1)
  }

  /** `walletBackfillRetryDelay`, with the delays its environment variables give. */
  method WalletBackfillRetryDelay(base: nat, maxDelay: nat, retryCount: int) returns (delay: int)
    requires base < TWO_63 && maxDelay < TWO_63
    ensures delay == Delay(base, maxDelay, retryCount)
    ensures NeverOverflows(base, maxDelay) ==> delay == Capped(base, maxDelay, retryCount)
  {
    if retryCount <= 1 {
      return base;
    }
    if NeverOverflows(base, maxDelay) { LoopComputesCapped(base, maxDelay, 0, retryCount - 1); }
    delay := base;
    for step := 1 to retryCount
      invariant LoopFrom(delay, maxDelay, retryCount - step) == LoopFrom(base, maxDelay, retryCount - 1)
    {
      delay := Wrap(delay * 2);
      if delay >= maxDelay {
        return maxDelay;
      }
    }
    if delay > maxDelay {
      return maxDelay;
    }
  }

  /** `deliveryRetryBackoff`: the same loop with a cap of one hour and no check after it, which is
      not missed: every value that stays in the loop is below the cap. */
  method DeliveryRetryBackoff(base: nat, retryCount: int) returns (backoff: int)
    requires base < TWO_63
    ensures backoff == Delay(base, HOUR, retryCount)
    ensures NeverOverflows(base, HOUR) ==> backoff == Capped(base, HOUR, retryCount)
  {
    if retryCount <= 1 {
      return base;
    }
    if NeverOverflows(base, HOUR) { LoopComputesCapped(base, HOUR, 0, retryCount - 1); }
    backoff := base;
    for step := 1 to retryCount
      invariant LoopFrom(backoff, HOUR, retryCount - step) == LoopFrom(base, HOUR, retryCount - 1)
      invariant step > 1 ==> backoff < HOUR
    {
      backoff := Wrap(backoff * 2);
      if backoff >= HOUR {
        return HOUR;
      }
    }
  }

  /** Every value the loop doubles has a double that fits in 63 bits. */
  ghost predicate NeverOverflows(base: nat, cap: nat) {
    forall k: nat :: (k == 0 || base * Pow2(k) < cap) ==> 2 * (base * Pow2(k)) < TWO_63
  }

  /** A simple bound that rules overflow out: no intermediate value exceeds twice the larger of
      base and cap. */
  lemma SmallDelaysNeverOverflow(base: nat, cap: nat)
    requires 2 * Max(base, cap) < TWO_63
    ensures NeverOverflows(base, cap)
  {
    assert base * Pow2(0) == base;
  }

  const TWO_62 := 0x4000_0000_0000_0000

  /** The first value of the doubling sequence that has no double in 63 bits, and its place in it. */
  function FirstUnsafe(base: nat): (value: nat)
    requires base > 0
    ensures value >= TWO_62
    decreases TWO_62 - base
  {
    if base >= TWO_62 then base else FirstUnsafe(2 * base)
  }

  function StepsToUnsafe(base: nat): nat
    requires base > 0
    decreases TWO_62 - base
  {
    if base >= TWO_62 then 0 else 1 + StepsToUnsafe(2 * base)
  }

  lemma {:induction false} FirstUnsafeIs(base: nat)
    requires base > 0
    ensures var m := StepsToUnsafe(base);
      FirstUnsafe(base) == base * Pow2(m) && (m > 0 ==> base * Pow2(m - 1) < TWO_62)
    decreases TWO_62 - base
  {
    if base < TWO_62 {
      FirstUnsafeIs(2 * base);
      var m := StepsToUnsafe(base);
      TwiceScaled(base, m - 1);
      if m > 1 {
        TwiceScaled(base, m - 2);
      }
    }
  }

  lemma TwiceScaled(base: nat, n: nat)
    ensures (2 * base) * Pow2(n) == base * Pow2(n + 1)
  {
  }

  /** What a deployment can check: nothing overflows exactly when the base has a double in 63 bits and
      the cap is at most the first doubling that has none. */
  lemma NeverOverflowsIff(base: nat, cap: nat)
    ensures NeverOverflows(base, cap) <==> base == 0 || (base < TWO_62 && cap <= FirstUnsafe(base))
  {
    assert base * Pow2(0) == base;
    if base > 0 {
      FirstUnsafeIs(base);
      var m := StepsToUnsafe(base);
      if base < TWO_62 && cap <= FirstUnsafe(base) {
        forall k: nat | k == 0 || base * Pow2(k) < cap ensures 2 * (base * Pow2(k)) < TWO_63 {
          if k < m {
            ScaledMonotone(base, k, m - 1);
          } else {
            ScaledMonotone(base, m, k);
          }
        }
      } else if base < TWO_62 {
        assert 2 * (base * Pow2(m)) >= TWO_63;
      }
    }
  }

  lemma {:induction false} LoopComputesCapped(base: nat, cap: nat, k: nat, steps: nat)
    requires NeverOverflows(base, cap) && (k == 0 || base * Pow2(k) < cap)
    requires steps >= 1
    ensures LoopFrom(base * Pow2(k), cap, steps) == Min(base * Pow2(k + steps), cap)
    decreases steps
  {
    var delay := base * Pow2(k);
    assert 0 <= 2 * delay < TWO_63;
    Doubling(base, k + 1);
    if 2 * delay >= cap {
      ScaledMonotone(base, k + 1, k + steps);
    } else if steps > 1 {
      LoopComputesCapped(base, cap, k + 1, steps - 1);
    }
  }

  /** The machine loop computes the capped doubling for every retry count exactly when no value it
      doubles overflows. */
  lemma LoopIsCappedIffNoOverflow(base: nat, cap: nat)
    requires base < TWO_63 && cap < TWO_63
    ensures (forall n: nat :: n >= 1 ==> LoopFrom(base, cap, n) == Capped(base, cap, n + 1))
      <==> NeverOverflows(base, cap)
  {
    assert base * Pow2(0) == base;
    if NeverOverflows(base, cap) {
      forall n: nat | n >= 1 ensures LoopFrom(base, cap, n) == Capped(base, cap, n + 1) {
        LoopComputesCapped(base, cap, 0, n);
      }
    } else {
      var k: nat :| (k == 0 || base * Pow2(k) < cap) && 2 * (base * Pow2(k)) >= TWO_63;
      OverflowGoesNegative(base, cap, k);
    }
  }

  /** The first overflow makes the delay negative, and the loop does not notice. */
  lemma {:induction false} OverflowGoesNegative(base: nat, cap: nat, k: nat)
    requires base < TWO_63 && cap < TWO_63
    requires (k == 0 || base * Pow2(k) < cap) && 2 * (base * Pow2(k)) >= TWO_63
    ensures exists n: nat :: n >= 1 && LoopFrom(base, cap, n) < 0
  {
    if k > 0 && 2 * (base * Pow2(k - 1)) >= TWO_63 {
      ScaledMonotone(base, k - 1, k);
      OverflowGoesNegative(base, cap, k - 1);
    } else {
      LoopReaches(base, cap, k, 1);
      assert base * Pow2(k) < TWO_63;
      assert Wrap(2 * (base * Pow2(k))) == 2 * (base * Pow2(k)) - TWO_64;
      assert LoopFrom(base * Pow2(k), cap, 1) < 0;
      assert LoopFrom(base, cap, k + 1) < 0;
    }
  }

  /** Before the first overflow the loop holds the true doubled value. */
  lemma {:induction false} LoopReaches(base: nat, cap: nat, k: nat, steps: nat)
    requires base < TWO_63 && cap < TWO_63
    requires k > 0 ==> base * Pow2(k) < cap
    ensures LoopFrom(base, cap, k + steps) == LoopFrom(base * Pow2(k), cap, steps)
  {
    assert base * Pow2(0) == base;
    if k > 0 {
      Doubling(base, k);
      ScaledMonotone(base, k - 1, k);
      LoopReaches(base, cap, k - 1, steps + 1);
      assert Wrap(2 * (base * Pow2(k - 1))) == base * Pow2(k);
    }
  }

  /** Later retries never wait less than earlier ones exactly when the base delay is within the cap. */
  lemma DelaysGrowIffBaseWithinCap(base: nat, cap: nat)
    ensures (forall m: int, n: int :: m <= n ==> Capped(base, cap, m) <= Capped(base, cap, n)) <==> base <= cap
  {
    if base <= cap {
      forall m: int, n: int | m <= n ensures Capped(base, cap, m) <= Capped(base, cap, n) {
        if n > 1 {
          ScaledMonotone(base, if m > 1 then m - 1 else 0, n - 1);
        }
      }
    } else {
      assert Pow2(1) == 2;
      assert Capped(base, cap, 2) < Capped(base, cap, 1);
    }
  }
}
