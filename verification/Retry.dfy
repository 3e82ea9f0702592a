/** When a failed attempt is retried, and how long is waited before. */
module Retry {
  import opened Ordering
  import opened Runs

  const INT64_LIMIT: int := 0x8000_0000_0000_0000

  datatype Strategy = NoRetry | Backoff
  datatype Config = Config(strategy: Strategy, maxRetries: int, baseDelay: int)

  /** What one attempt returns: the run it has in hand, if any, and whether it failed. */
  datatype Attempt = Attempt(run: Option<RunStatus>, failed: bool)

  predicate ShouldRetry(config: Config, attempt: int, outcome: Attempt) {
    outcome.failed && outcome.run == Some(Failed) && config.strategy == Backoff && attempt <= config.maxRetries
  }

  // ----- 64-bit delays -----

  function Wrap64(x: int): int {
    (x + INT64_LIMIT) % (2 * INT64_LIMIT) - INT64_LIMIT
  }

  function Pow2(n: nat): int {
    if n == 0 then 1 else 2 * Pow2(n - 1)
  }

  /** baseDelay << (attempt - 1) in two's complement; shifts beyond the width give zero. */
  function RetryDelay(config: Config, attempt: int): int {
    if config.strategy != Backoff then 0
    else if attempt <= 1 then config.baseDelay
    else Wrap64(config.baseDelay * Wrap64(Pow2(attempt - 1)))
  }

  lemma {:induction false} Pow2Monotone(m: nat, n: nat)
    requires m <= n
    ensures 1 <= Pow2(m) <= Pow2(n)
    decreases n
  {
    if m < n {
      Pow2Monotone(m, n - 1);
    } else if m > 0 {
      Pow2Monotone(m - 1, n - 1);
    }
  }

  ghost predicate NoOverflow(config: Config) {
    && config.strategy == Backoff && config.baseDelay > 0 && config.maxRetries >= 1
    && config.baseDelay * Pow2(config.maxRetries - 1) < INT64_LIMIT
  }

  /** Below the bound nothing wraps: every delay is the exact doubling. */
  lemma DelayIsExact(config: Config, attempt: int)
    requires NoOverflow(config) && 1 <= attempt <= config.maxRetries
    ensures RetryDelay(config, attempt) == config.baseDelay * Pow2(attempt - 1)
    ensures 0 < RetryDelay(config, attempt) < INT64_LIMIT
  {
    Pow2Monotone(attempt - 1, config.maxRetries - 1);
    ScaleMonotone(config.baseDelay, Pow2(attempt - 1), Pow2(config.maxRetries - 1));
    WrapNothing(Pow2(attempt - 1));
    WrapNothing(config.baseDelay * Pow2(attempt - 1));
  }

  lemma WrapNothing(x: int)
    requires 0 <= x < INT64_LIMIT
    ensures Wrap64(x) == x
  {
  }

  lemma ScaleMonotone(base: int, p: int, q: int)
    requires base > 0 && 0 < p <= q
    ensures p <= base * p <= base * q
  {
  }

  /** Every delay, wrapped or not, is the doubling reduced to 64 bits. */
  lemma DelayIsWrappedDoubling(config: Config, attempt: int)
    requires config.strategy == Backoff && 0 < config.baseDelay < INT64_LIMIT && attempt >= 1
    ensures RetryDelay(config, attempt) == Wrap64(config.baseDelay * Pow2(attempt - 1))
    ensures -INT64_LIMIT <= RetryDelay(config, attempt) < INT64_LIMIT
  {
    if attempt > 1 {
      WrapOfProduct(config.baseDelay, Pow2(attempt - 1));
    } else {
      WrapNothing(config.baseDelay);
    }
  }

  lemma WrapOfProduct(x: int, p: int)
    ensures Wrap64(x * Wrap64(p)) == Wrap64(x * p)
  {
    var width := 2 * INT64_LIMIT;
    var k := (p + INT64_LIMIT) / width;
    assert p == Wrap64(p) + k * width;
    assert x * p == x * Wrap64(p) + x * k * width by {
      assert x * (Wrap64(p) + k * width) == x * Wrap64(p) + x * (k * width);
    }
    SameRemainder(x * Wrap64(p) + INT64_LIMIT, x * k, width);
  }

  lemma SameRemainder(a: int, k: int, width: int)
    requires width > 0
    ensures (a + k * width) % width == a % width
  {
    var q, r := a / width, a % width;
    assert a + k * width == (q + k) * width + r;
    RemainderUnique(a + k * width, q + k, r, width);
  }

  lemma RemainderUnique(n: int, q: int, r: int, width: int)
    requires width > 0 && n == q * width + r && 0 <= r < width
    ensures n % width == r
  {
    var d := n / width - q;
    assert n == (n / width) * width + n % width;
    assert d * width == r - n % width;
    assert d >= 1 ==> d * width >= width;
    assert d <= -1 ==> d * width <= -width;
  }

  /** All delays of a dispatch are the exact doublings if and only if the last one fits. */
  lemma DelaysExactIff(config: Config)
    requires config.strategy == Backoff && 0 < config.baseDelay < INT64_LIMIT && config.maxRetries >= 1
    ensures (forall a :: 1 <= a <= config.maxRetries ==> RetryDelay(config, a) == config.baseDelay * Pow2(a - 1))
      <==> config.baseDelay * Pow2(config.maxRetries - 1) < INT64_LIMIT
  {
    if NoOverflow(config) {
      forall a | 1 <= a <= config.maxRetries ensures RetryDelay(config, a) == config.baseDelay * Pow2(a - 1) {
        DelayIsExact(config, a);
      }
    } else {
      DelayIsWrappedDoubling(config, config.maxRetries);
    }
  }

  /** A delay is zero or negative, so that the sleep returns at once, exactly when the
      doubling modulo 2^64 is zero or has its top bit set. */
  lemma DelayIsNotPositiveIff(config: Config, attempt: int)
    requires config.strategy == Backoff && 0 < config.baseDelay < INT64_LIMIT && attempt >= 1
    ensures var rest := config.baseDelay * Pow2(attempt - 1) % (2 * INT64_LIMIT);
      RetryDelay(config, attempt) <= 0 <==> rest == 0 || rest >= INT64_LIMIT
  {
    DelayIsWrappedDoubling(config, attempt);
    WrapSign(config.baseDelay * Pow2(attempt - 1));
  }

  lemma WrapSign(x: int)
    ensures Wrap64(x) <= 0 <==> x % (2 * INT64_LIMIT) == 0 || x % (2 * INT64_LIMIT) >= INT64_LIMIT
  {
    var width := 2 * INT64_LIMIT;
    var q, r := x / width, x % width;
    assert x == q * width + r;
    if r < INT64_LIMIT {
      RemainderUnique(x + INT64_LIMIT, q, r + INT64_LIMIT, width);
    } else {
      RemainderUnique(x + INT64_LIMIT, q + 1, r - INT64_LIMIT, width);
    }
  }

  /** From the 65th attempt on every delay is zero, whatever the base. */
  lemma LateDelaysAreZero(config: Config, attempt: int)
    requires config.strategy == Backoff && attempt >= 65
    ensures RetryDelay(config, attempt) == 0
  {
    Pow2Of64();
    Pow2Sum(64, attempt - 65);
    SameRemainder(INT64_LIMIT, Pow2(attempt - 65), 2 * INT64_LIMIT);
  }

  lemma Pow2Of8()
    ensures Pow2(8) == 0x100
  {
    assert Pow2(1) == 2;
    assert Pow2(2) == 4;
    assert Pow2(3) == 8;
    assert Pow2(4) == 16;
    Pow2Sum(4, 4);
  }

  lemma Pow2Of64()
    ensures Pow2(63) == INT64_LIMIT && Pow2(64) == 2 * INT64_LIMIT
  {
    Pow2Of8();
    Pow2Sum(8, 8);
    Pow2Sum(16, 16);
    Pow2Sum(32, 31);
    Pow2Sum(32, 32);
    assert 2 * Pow2(31) == Pow2(32);
  }

  /** A base of one nanosecond is negative at the 64th attempt and zero after it. */
  lemma DelayCanWrap()
    ensures RetryDelay(Config(Backoff, 64, 1), 64) < 0
    ensures RetryDelay(Config(Backoff, 65, 1), 65) == 0
  {
    Pow2Of64();
    LateDelaysAreZero(Config(Backoff, 65, 1), 65);
  }

  lemma {:induction false} Pow2Sum(m: nat, n: nat)
    ensures Pow2(m + n) == Pow2(m) * Pow2(n)
    decreases m
  {
    if m > 0 {
      Pow2Sum(m - 1, n);
    }
  }

  // ----- what the retry loop waits -----

  /** The sum of the first m delays. */
  ghost function Waited(config: Config, m: nat): int {
    if m == 0 then 0 else Waited(config, m - 1) + RetryDelay(config, m)
  }

  /** The exact total of m waits. */
  ghost function TotalWait(base: int, m: nat): int {
    base * (Pow2(m) - 1)
  }

  lemma WaitGrows(base: int, m: nat)
    ensures TotalWait(base, m + 1) == TotalWait(base, m) + base * Pow2(m)
  {
    assert base * (2 * Pow2(m) - 1) == base * (Pow2(m) - 1) + base * Pow2(m);
  }

  /** While nothing overflows, m retries wait base * (2^m - 1) in all. */
  lemma {:induction false} WaitedInAll(config: Config, m: nat)
    requires NoOverflow(config) && m <= config.maxRetries
    ensures Waited(config, m) == TotalWait(config.baseDelay, m)
  {
    if m > 0 {
      WaitedInAll(config, m - 1);
      DelayIsExact(config, m);
      WaitGrows(config.baseDelay, m - 1);
    }
  }
}
