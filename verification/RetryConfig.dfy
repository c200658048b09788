/**
 Retry policy: the capped exponential backoff and the Retry-After override.
 Durations are whole milliseconds; the floating-point arithmetic is over reals.
 */
module RetryConfigs {
  import opened Text

  datatype RetryConfig = RetryConfig(
    baseDelay: int,
    maxDelay: int,
    maxAttempts: nat,
    multiplier: real,
    jitter: real,
    retryIdempotentAfterSend: bool,
    honorRetryAfter: bool,
    retryStatuses: seq<nat>)
  {
    /** Total tries for one exchange; zero counts as one. */
    function Attempts(): (n: nat)
      ensures n >= 1
    {
      if maxAttempts < 1 then 1 else maxAttempts
    }

    function Cap(): real { maxDelay as real }
  }

  function Min(a: real, b: real): real { if a < b then a else b }

  function Clamp(x: real, lo: real, hi: real): real { if x < lo then lo else if hi < x then hi else x }

  /** What there is to sleep of a delay. */
  function Positive(ms: int): nat { if ms > 0 then ms else 0 }

  /** A cast to an integer type drops the fraction. */
  function Truncate(x: real): int { if x < 0.0 then -((-x).Floor) else x.Floor }

  function Times(x: real, y: real): real { x * y }

  /** Scaling a non-negative amount by a non-negative factor. */
  lemma ScaleUp(x: real, m: real)
    ensures 0.0 <= x && 0.0 <= m ==> 0.0 <= Times(x, m)
    ensures 0.0 <= x && 1.0 <= m ==> x <= Times(x, m)
    ensures 0.0 <= x && m <= 1.0 ==> Times(x, m) <= x
  {
    hide Times;
    if 0.0 <= x && 0.0 <= m { NonNegative(x, m); }
    if 0.0 <= x && 1.0 <= m { NonNegative(x, m - 1.0); }
    if 0.0 <= x && m <= 1.0 { NonNegative(x, 1.0 - m); }
    Distributes(x, m);
  }

  lemma NonNegative(x: real, y: real)
    requires 0.0 <= x && 0.0 <= y
    ensures 0.0 <= Times(x, y)
  {
  }

  lemma Distributes(x: real, m: real)
    ensures Times(x, m - 1.0) == Times(x, m) - x && Times(x, 1.0 - m) == x - Times(x, m)
  {
  }

  lemma Reorder(x: real, m: real, p: real)
    ensures Times(x, Times(m, p)) == Times(Times(x, m), p)
    ensures Times(x, Times(m, p)) == Times(Times(x, p), m)
  {
    hide Times;
    Associates(x, m, p);
    Commutes(m, p);
    Associates(x, p, m);
  }

  lemma Associates(x: real, y: real, z: real)
    ensures Times(x, Times(y, z)) == Times(Times(x, y), z)
  {
  }

  function Pow(m: real, n: nat): real { if n == 0 then 1.0 else Times(m, Pow(m, n - 1)) }

  /** Multiply until the cap is reached, at most `n` times. */
  function Growth(c: RetryConfig, delay: real, n: nat): real
    decreases n
  {
    if n == 0 || delay >= c.Cap() then delay else Growth(c, Times(delay, c.multiplier), n - 1)
  }

  /** Scaled by a factor in [1 - jitter, 1 + jitter] when there is jitter. */
  function Jittered(c: RetryConfig, delay: real, rnd01: real): real {
    if c.jitter > 0.0 then Clamp(Times(delay, 1.0 + Times(c.jitter, 2.0 * rnd01 - 1.0)), 0.0, c.Cap()) else delay
  }

  /** The delay before retry `n`, in milliseconds. */
  function Delay(c: RetryConfig, n: nat, rnd01: real): int {
    Truncate(Jittered(c, Min(Growth(c, c.baseDelay as real, n), c.Cap()), rnd01))
  }

  method DelayFor(c: RetryConfig, retryIndex: nat, rnd01: real) returns (ms: int)
    ensures ms == Delay(c, retryIndex, rnd01)
    ensures ms <= Positive(c.maxDelay)
    ensures 0 <= c.maxDelay && (c.jitter > 0.0 || (0 <= c.baseDelay && 0.0 <= c.multiplier)) ==> 0 <= ms
  {
    hide Times;
    var delayMs := c.baseDelay as real;
    var step := 0;
    while step < retryIndex && delayMs < c.Cap()
      invariant step <= retryIndex
      invariant Growth(c, delayMs, retryIndex - step) == Growth(c, c.baseDelay as real, retryIndex)
      invariant 0 <= c.baseDelay && 0.0 <= c.multiplier ==> 0.0 <= delayMs
    {
      ScaleUp(delayMs, c.multiplier);
      delayMs := Times(delayMs, c.multiplier);
      step := step + 1;
    }
    delayMs := Min(delayMs, c.Cap());
    if c.jitter > 0.0 {
      var factor := 1.0 + Times(c.jitter, 2.0 * rnd01 - 1.0);
      delayMs := Clamp(Times(delayMs, factor), 0.0, c.Cap());
    }
    return Truncate(delayMs);
  }

  // ------------------------------------------------------------- the closed form

  /** `base * multiplier^n`, before the cap. */
  function Product(c: RetryConfig, n: nat): real { Times(c.baseDelay as real, Pow(c.multiplier, n)) }

  /** What the documentation promises. */
  function Exponential(c: RetryConfig, n: nat): real { Min(Product(c, n), c.Cap()) }

  lemma {:induction false} PowGrows(m: real, n: nat)
    requires m >= 0.0
    ensures Pow(m, n) >= 0.0 && (m >= 1.0 ==> Pow(m, n) >= 1.0)
  {
    hide Times;
    if n > 0 {
      PowGrows(m, n - 1);
      ScaleUp(m, Pow(m, n - 1));
    }
  }

  /** Stopping at the cap loses nothing as long as the start is below it. */
  lemma {:induction false} GrowthBelowCap(c: RetryConfig, delay: real, n: nat)
    requires 0.0 <= delay < c.Cap() && 0.0 <= c.multiplier
    ensures Min(Growth(c, delay, n), c.Cap()) == Min(Times(delay, Pow(c.multiplier, n)), c.Cap())
    decreases n
  {
    hide Times;
    if n == 0 {
      ScaleUp(delay, 1.0);
    } else {
      var next, p := Times(delay, c.multiplier), Pow(c.multiplier, n - 1);
      Reorder(delay, c.multiplier, p);
      ScaleUp(delay, c.multiplier);
      if next < c.Cap() {
        GrowthBelowCap(c, next, n - 1);
      } else {
        PowGrows(c.multiplier, n - 1);
        ScaleUp(next, p);
      }
    }
  }

  /**
   The early exit agrees with the closed form exactly when the base delay is under
   the cap or the product is not; a shrinking multiplier with a base over the cap
   is where they part.
   */
  lemma BackoffIsExponential(c: RetryConfig, n: nat)
    requires 0 <= c.baseDelay && 0.0 <= c.multiplier
    ensures Min(Growth(c, c.baseDelay as real, n), c.Cap()) == Exponential(c, n) <==>
              c.baseDelay < c.maxDelay || Product(c, n) >= c.Cap()
    ensures c.multiplier >= 1.0 ==> Min(Growth(c, c.baseDelay as real, n), c.Cap()) == Exponential(c, n)
  {
    hide Times, Pow;
    if c.baseDelay < c.maxDelay {
      GrowthBelowCap(c, c.baseDelay as real, n);
    } else {
      PowGrows(c.multiplier, n);
      ScaleUp(c.baseDelay as real, Pow(c.multiplier, n));
    }
  }

  /** A quarter of 100 ms, capped at 50 ms, is 25 ms; the loop answers 50 ms. */
  lemma ShrinkingBackoff()
    ensures var c := RetryConfig(100, 50, 3, 0.25, 0.0, false, true, []);
            Exponential(c, 1) == 25.0 && Delay(c, 1, 0.0) == 50
  {
    var c := RetryConfig(100, 50, 3, 0.25, 0.0, false, true, []);
    assert Pow(0.25, 1) == Times(0.25, Pow(0.25, 0)) == 0.25;
  }

  lemma {:induction false} ExponentialGrows(c: RetryConfig, i: nat, j: nat)
    requires i <= j && 0 <= c.baseDelay && 1.0 <= c.multiplier
    ensures 0.0 <= Product(c, i) <= Product(c, j)
    decreases j
  {
    hide Times;
    PowGrows(c.multiplier, i);
    ScaleUp(c.baseDelay as real, Pow(c.multiplier, i));
    if i < j {
      ExponentialGrows(c, i, j - 1);
      Reorder(c.baseDelay as real, c.multiplier, Pow(c.multiplier, j - 1));
      ScaleUp(Product(c, j - 1), c.multiplier);
    }
  }

  /** Later retries never wait less when there is no jitter. */
  lemma DelayMonotone(c: RetryConfig, i: nat, j: nat, rnd: real, rnd': real)
    requires i <= j && 0 <= c.baseDelay && 1.0 <= c.multiplier && c.jitter <= 0.0 && 0 <= c.maxDelay
    ensures 0 <= Delay(c, i, rnd) <= Delay(c, j, rnd') <= c.maxDelay
  {
    hide Growth, Product;
    BackoffIsExponential(c, i);
    BackoffIsExponential(c, j);
    ExponentialGrows(c, i, j);
  }

  /** Without jitter, a negative multiplier escapes the lower clamp the documentation promises. */
  lemma NegativeDelay()
    ensures Delay(RetryConfig(100, 2000, 3, -2.0, 0.0, false, true, []), 1, 0.0) == -200
  {
    var c := RetryConfig(100, 2000, 3, -2.0, 0.0, false, true, []);
    assert Growth(c, 100.0, 1) == Growth(c, Times(100.0, -2.0), 0) == -200.0;
  }

  lemma {:induction false} GrowthNonNegative(c: RetryConfig, delay: real, n: nat)
    requires 0.0 <= delay && 0.0 <= c.multiplier
    ensures Growth(c, delay, n) >= 0.0
    decreases n
  {
    hide Times;
    ScaleUp(delay, c.multiplier);
    if n > 0 { GrowthNonNegative(c, Times(delay, c.multiplier), n - 1); }
  }

  /** Once below one in size, a multiplier no larger than one keeps it there. */
  lemma {:induction false} GrowthStaysSmall(c: RetryConfig, delay: real, n: nat)
    requires -1.0 < delay < 1.0 && -1.0 <= c.multiplier <= 0.0
    ensures Growth(c, delay, n) > -1.0
    decreases n
  {
    hide Times;
    SmallProduct(delay, c.multiplier);
    if n > 0 { GrowthStaysSmall(c, Times(delay, c.multiplier), n - 1); }
  }

  lemma SmallProduct(x: real, m: real)
    requires -1.0 < x < 1.0 && -1.0 <= m <= 0.0
    ensures -1.0 < Times(x, m) < 1.0
  {
    hide Times;
    ScaleUp(if x < 0.0 then -x else x, -m);
    assert Times(x, m) == Times(-x, -m) == -Times(x, -m) by { Signs(x, m); }
  }

  lemma Signs(x: real, m: real)
    ensures Times(x, m) == Times(-x, -m) == -Times(x, -m)
  {
  }

  /** Without jitter no delay is ever negative exactly when the first two are not. */
  lemma DelayNeverNegative(c: RetryConfig)
    requires c.jitter <= 0.0 && 0 <= c.maxDelay
    ensures (forall n: nat :: Delay(c, n, 0.0) >= 0) <==>
              0 <= c.baseDelay && (c.baseDelay >= c.maxDelay || Times(c.baseDelay as real, c.multiplier) > -1.0)
  {
    hide Times;
    var b := c.baseDelay as real;
    if 0 <= c.baseDelay && (c.baseDelay >= c.maxDelay || Times(b, c.multiplier) > -1.0) {
      forall n: nat ensures Delay(c, n, 0.0) >= 0 { DelayNonNegative(c, n); }
    } else if c.baseDelay < 0 {
      assert Delay(c, 0, 0.0) < 0;
    } else {
      assert Growth(c, b, 1) == Growth(c, Times(b, c.multiplier), 0);
      assert Delay(c, 1, 0.0) < 0;
    }
  }

  lemma DelayNonNegative(c: RetryConfig, n: nat)
    requires c.jitter <= 0.0 && 0 <= c.maxDelay && 0 <= c.baseDelay
    requires c.baseDelay >= c.maxDelay || Times(c.baseDelay as real, c.multiplier) > -1.0
    ensures Delay(c, n, 0.0) >= 0
  {
    hide Times;
    var b := c.baseDelay as real;
    if c.multiplier >= 0.0 {
      GrowthNonNegative(c, b, n);
    } else if c.baseDelay < c.maxDelay && n > 0 {
      Signs(b, c.multiplier);
      ScaleUp(b, -c.multiplier);
      if c.baseDelay == 0 {
        GrowthOfZero(c, n);
      } else {
        ScaleUp(-c.multiplier, b);
        assert Times(b, -c.multiplier) == Times(-c.multiplier, b) by { Commutes(b, -c.multiplier); }
        GrowthStaysSmall(c, Times(b, c.multiplier), n - 1);
      }
    }
  }

  lemma Commutes(x: real, y: real)
    ensures Times(x, y) == Times(y, x)
  {
  }

  lemma {:induction false} GrowthOfZero(c: RetryConfig, n: nat)
    ensures Growth(c, 0.0, n) == 0.0
  {
    if n > 0 {
      assert Times(0.0, c.multiplier) == 0.0;
      GrowthOfZero(c, n - 1);
    }
  }

  // ---------------------------------------------------------------- Retry-After

  const UINT64_MAX: nat := 0xFFFF_FFFF_FFFF_FFFF
  const INT64_MAX: nat := 0x7FFF_FFFF_FFFF_FFFF

  /** Whole seconds of a duration, toward zero. */
  function Seconds(ms: int): int { if ms < 0 then -(-ms / 1000) else ms / 1000 }

  /** Conversions between 64-bit integers. */
  function ToUnsigned(x: int): nat { x % (UINT64_MAX + 1) }

  function ToSigned(x: nat): int { if x <= INT64_MAX then x else x - (UINT64_MAX + 1) }

  /** A delta-seconds value in milliseconds, cut at the seconds of the cap taken as unsigned; -1 for anything else. */
  function ParseRetryAfter(value: string, cap: int): (ms: int)
    ensures FromChars(value, 10, UINT64_MAX).None? ==> ms == -1
    ensures 0 <= cap <= INT64_MAX ==> (ms == -1 <==> FromChars(value, 10, UINT64_MAX).None?)
    ensures 0 <= cap <= INT64_MAX && ms >= 0 ==> ms <= cap && ms <= 1000 * NumberValue(value, 10)
    ensures 0 <= cap <= INT64_MAX && ms >= 0 ==> ms == 1000 * NumberValue(value, 10) || ms + 1000 > cap
  {
    match FromChars(value, 10, UINT64_MAX)
    case None => -1
    case Some(seconds) =>
      var capSeconds := ToUnsigned(Seconds(cap));
      1000 * ToSigned(if seconds < capSeconds then seconds else capSeconds)
  }

  /** No header value makes the client sleep beyond its cap if and only if the cap is above minus one second. */
  lemma RetryAfterBounded(cap: int)
    requires -(INT64_MAX as int) - 1 <= cap <= INT64_MAX
    ensures (forall value :: Positive(ParseRetryAfter(value, cap)) <= Positive(cap)) <==> cap > -1000
  {
    hide FromChars, NumberValue;
    if cap <= -1000 {
      RetryAfterUncapped(cap, 1);
      assert Positive(ParseRetryAfter(ToChars(1, 10), cap)) > Positive(cap);
    }
  }

  /** Under a cap of minus one second or less any number of seconds passes, a day or a year. */
  lemma RetryAfterUncapped(cap: int, seconds: nat)
    requires -(INT64_MAX as int) - 1 <= cap <= -1000 && 1000 * seconds <= INT64_MAX
    ensures ParseRetryAfter(ToChars(seconds, 10), cap) == 1000 * seconds
  {
    hide FromChars, ToChars, NumberValue;
    ToCharsFromChars(seconds, 10, UINT64_MAX);
  }
}
