// The backoff of internal/worker/retry.go.  Delays are in nanoseconds; products that the program
// forms in floating point are exact here, and conversions truncate toward zero.
module Backoff {
  import opened Powers

  datatype Strategy = Fixed | Linear | Exponential | Custom

  // The policy of an exponential strategy has the default multiplier 2.
  datatype Policy = Policy(strategy: Strategy, baseDelay: nat, maxDelay: nat)

  function Fib(n: nat): nat {
    if n < 2 then n else Fib(n - 1) + Fib(n - 2)
  }

  function RawDelay(p: Policy, k: nat): nat {
    match p.strategy
    case Fixed => p.baseDelay
    case Linear => p.baseDelay * (k + 1)
    case Exponential => p.baseDelay * Pow2(k)
    case Custom => p.baseDelay * Fib(k + 2)
  }

  // The loop of customBackoffCalculation computes Fibonacci multiples of the base delay.
  method CustomBackoff(p: Policy, k: nat) returns (delay: nat)
    ensures delay == p.baseDelay * Fib(k + 2)
  {
    if k == 0 {
      return p.baseDelay;
    }
    if k == 1 {
      assert Fib(3) == 2;
      return p.baseDelay * 2;
    }
    var prev2, prev1 := p.baseDelay, p.baseDelay * 2;
    assert Fib(2) == 1 && Fib(3) == 2;
    for i := 2 to k + 1
      invariant prev2 == p.baseDelay * Fib(i) && prev1 == p.baseDelay * Fib(i + 1)
    {
      var current := prev1 + prev2;
      assert current == p.baseDelay * (Fib(i + 1) + Fib(i));
      prev2 := prev1;
      prev1 := current;
    }
    return prev1;
  }

  function Truncate(a: int, b: int): int
    requires b > 0
  {
    if a >= 0 then a / b else -((-a) / b)
  }

  // The jitter for a clock whose nanoseconds are tick modulo 1000: up to 5% either way.
  function Jitter(delay: nat, tick: int): int
    requires 0 <= tick < 1000
  {
    Truncate(delay * (500 - tick), 10000)
  }

  // calculateRetryDelay
  function RetryDelay(p: Policy, k: nat, tick: int): int
    requires 0 <= tick < 1000
  {
    var delay := RawDelay(p, k) + Jitter(RawDelay(p, k), tick);
    if delay > p.maxDelay then p.maxDelay else delay
  }

  method CalculateRetryDelay(p: Policy, k: nat, tick: int) returns (delay: int)
    requires 0 <= tick < 1000
    ensures delay == RetryDelay(p, k, tick)
    ensures 0 <= delay <= p.maxDelay
  {
    match p.strategy {
      case Fixed => delay := p.baseDelay;
      case Linear => delay := p.baseDelay * (k + 1);
      case Exponential => delay := p.baseDelay * Pow2(k);
      case Custom => delay := CustomBackoff(p, k);
    }
    JitterBounds(RawDelay(p, k), tick);
    delay := delay + Jitter(delay, tick);
    if delay > p.maxDelay {
      delay := p.maxDelay;
    }
  }

  lemma JitterBounds(d: nat, tick: int)
    requires 0 <= tick < 1000
    ensures -499 * d <= 10000 * Jitter(d, tick) <= 500 * d
  {
    assert -499 * d <= d * (500 - tick) <= 500 * d;
  }

  // The delays before the jitter: always the base; the base more each time; doubled each time; and
  // the sum of the two before, from the base and its double on.
  lemma DelaysBeforeJitter(p: Policy, k: nat)
    ensures p.strategy == Fixed ==> RawDelay(p, k) == p.baseDelay
    ensures p.strategy != Fixed ==> RawDelay(p, 0) == p.baseDelay
    ensures p.strategy == Linear ==> RawDelay(p, k + 1) == RawDelay(p, k) + p.baseDelay
    ensures p.strategy == Exponential ==> RawDelay(p, k + 1) == 2 * RawDelay(p, k)
    ensures p.strategy == Custom ==>
              RawDelay(p, 1) == 2 * p.baseDelay && RawDelay(p, k + 2) == RawDelay(p, k + 1) + RawDelay(p, k)
  {
    var b := p.baseDelay;
    match p.strategy
    case Fixed =>
    case Linear => assert b * (k + 2) == b * (k + 1) + b;
    case Exponential => assert Pow2(0) == 1 && b * Pow2(k + 1) == 2 * (b * Pow2(k));
    case Custom =>
      assert Fib(2) == 1 && Fib(3) == 2 && Fib(k + 4) == Fib(k + 3) + Fib(k + 2);
      assert b * Fib(k + 4) == b * Fib(k + 3) + b * Fib(k + 2);
  }

  // The jitter is a twentieth of the delay at a clock of 0, falling evenly to nothing at 500 and then
  // below, rounded toward zero.
  lemma JitterMeans(d: nat, tick: int)
    requires 0 <= tick < 1000
    ensures var exact, j := d * (500 - tick), Jitter(d, tick);
            && (tick <= 500 ==> 0 <= j && 10000 * j <= exact < 10000 * (j + 1))
            && (tick >= 500 ==> j <= 0 && 10000 * (j - 1) < exact <= 10000 * j)
  {
    var exact := d * (500 - tick);
    assert tick <= 500 ==> exact >= 0;
    assert tick >= 500 ==> exact <= 0;
  }

  lemma {:induction false} FibGrows(n: nat)
    requires n >= 2
    ensures 2 * Fib(n + 1) >= 3 * Fib(n) && Fib(n) >= 1
  {
    if n > 3 { FibGrows(n - 1); FibGrows(n - 2); }
  }

  // From one retry to the next the delay grows by at least a half.
  lemma RawDelayGrows(p: Policy, k: nat)
    requires p.strategy == Exponential || p.strategy == Custom
    ensures 2 * RawDelay(p, k + 1) >= 3 * RawDelay(p, k)
  {
    var b := p.baseDelay;
    if p.strategy == Exponential {
      assert b * Pow2(k + 1) == 2 * (b * Pow2(k));
    } else {
      FibGrows(k + 2);
      var f, g := Fib(k + 2), Fib(k + 3);
      assert b * (2 * g - 3 * f) >= 0;
      assert b * (2 * g - 3 * f) == 2 * (b * g) - 3 * (b * f);
    }
  }

  // Jitter cannot reorder the retries of an exponential or custom policy: whatever the clock shows,
  // the next delay is not shorter, and none exceeds the maximum.
  lemma JitteredBackoffIsMonotone(p: Policy, k: nat, tick: int, nextTick: int)
    requires p.strategy == Exponential || p.strategy == Custom
    requires 0 <= tick < 1000 && 0 <= nextTick < 1000
    ensures 0 <= RetryDelay(p, k, tick) <= RetryDelay(p, k + 1, nextTick) <= p.maxDelay
  {
    RawDelayGrows(p, k);
    JitterBounds(RawDelay(p, k), tick);
    JitterBounds(RawDelay(p, k + 1), nextTick);
  }

  lemma {:induction false} JitteredBackoffIsMonotoneOver(p: Policy, j: nat, k: nat, tick: int, laterTick: int)
    requires p.strategy == Exponential || p.strategy == Custom
    requires j < k && 0 <= tick < 1000 && 0 <= laterTick < 1000
    ensures RetryDelay(p, j, tick) <= RetryDelay(p, k, laterTick)
    decreases k
  {
    JitteredBackoffIsMonotone(p, k - 1, 0, laterTick);
    if j < k - 1 {
      JitteredBackoffIsMonotoneOver(p, j, k - 1, tick, 0);
    } else {
      JitteredBackoffIsMonotone(p, j, tick, laterTick);
    }
  }

  ghost predicate Ordered(p: Policy, k: nat, tick: int, nextTick: int) {
    0 <= tick < 1000 && 0 <= nextTick < 1000 ==> RetryDelay(p, k, tick) <= RetryDelay(p, k + 1, nextTick)
  }

  ghost predicate MonotoneAt(p: Policy, k: nat) {
    forall tick, nextTick :: Ordered(p, k, tick, nextTick)
  }

  lemma LinearDelay(p: Policy, unit: nat, k: nat, tick: int)
    requires p.strategy == Linear && p.baseDelay == 10000 * unit
    requires 0 <= tick < 1000
    ensures var delay := unit * (k + 1) * (10500 - tick);
            RetryDelay(p, k, tick) == if delay > p.maxDelay then p.maxDelay else delay
  {
    var d, m, c := RawDelay(p, k), unit * (k + 1), 500 - tick;
    assert d == 10000 * m;
    assert d * c == 10000 * (m * c);
    assert Jitter(d, tick) == m * c;
    assert m * (10500 - tick) == 10000 * m + m * c;
  }

  lemma LinearGap(unit: nat, k: nat)
    requires unit > 0
    ensures unit * (k + 1) * 10500 <= unit * (k + 2) * 9501 <==> k <= 8
  {
    var x := unit * k;
    assert unit * (k + 1) == x + unit && unit * (k + 2) == x + 2 * unit;
    if k <= 8 {
      assert x <= unit * 8;
    } else {
      assert x >= unit * 9;
    }
  }

  lemma ScaleBetween(m: nat, low: nat, mid: nat, high: nat)
    requires low <= mid <= high
    ensures m * low <= m * mid <= m * high
  {
  }

  lemma LinearBounds(p: Policy, unit: nat, k: nat, tick: int, nextTick: int)
    requires p.strategy == Linear && p.baseDelay == 10000 * unit && 0 <= tick < 1000 && 0 <= nextTick < 1000
    ensures RetryDelay(p, k, tick) <= unit * (k + 1) * 10500 && RetryDelay(p, k, tick) <= p.maxDelay
    ensures RetryDelay(p, k + 1, nextTick) >= unit * (k + 2) * 9501 || RetryDelay(p, k + 1, nextTick) == p.maxDelay
  {
    LinearDelay(p, unit, k, tick);
    LinearDelay(p, unit, k + 1, nextTick);
    ScaleBetween(unit * (k + 1), 0, 10500 - tick, 10500);
    ScaleBetween(unit * (k + 2), 9501, 10500 - nextTick, 10500);
  }

  // Linear backoff is overtaken by its jitter: with a base delay of whole 10 microseconds, the next
  // delay is never shorter exactly up to the retry count 8, and wherever the maximum is within reach
  // of the shortest next delay.
  lemma LinearIsMonotoneUpToEight(p: Policy, unit: nat, k: nat)
    requires p.strategy == Linear && p.baseDelay == 10000 * unit && unit > 0
    ensures MonotoneAt(p, k) <==> k <= 8 || p.maxDelay <= unit * (k + 2) * 9501
  {
    LinearGap(unit, k);
    if k <= 8 || p.maxDelay <= unit * (k + 2) * 9501 {
      forall tick, nextTick ensures Ordered(p, k, tick, nextTick) {
        if 0 <= tick < 1000 && 0 <= nextTick < 1000 { LinearBounds(p, unit, k, tick, nextTick); }
      }
    } else {
      LinearDelay(p, unit, k, 0);
      LinearDelay(p, unit, k + 1, 999);
      assert !Ordered(p, k, 0, 999);
    }
  }

  // ----- Which errors are retried -----

  ghost predicate OccursAt(text: string, pattern: string, i: nat) {
    i + |pattern| <= |text| && text[i..i + |pattern|] == pattern
  }

  ghost predicate Occurs(text: string, pattern: string) {
    exists i: nat :: OccursAt(text, pattern, i)
  }

  method SimpleContains(text: string, pattern: string) returns (found: bool)
    ensures found <==> Occurs(text, pattern)
  {
    if |pattern| > |text| {
      return false;
    }
    for i := 0 to |text| - |pattern| + 1
      invariant forall j: nat :: j < i ==> !OccursAt(text, pattern, j)
    {
      if text[i..i + |pattern|] == pattern {
        assert OccursAt(text, pattern, i);
        return true;
      }
    }
    return false;
  }

  // ShouldRetry: a task is retried exactly when it has retries left and its error message contains
  // a retryable pattern; an empty message or pattern never matches.
  method ShouldRetry(retryCount: int, maxAttempts: int, message: string, patterns: seq<string>) returns (retry: bool)
    ensures retry <==>
              && retryCount < maxAttempts && message != ""
              && exists p :: p in patterns && p != "" && Occurs(message, p)
  {
    if retryCount >= maxAttempts {
      return false;
    }
    for i := 0 to |patterns|
      invariant message == "" || forall j :: 0 <= j < i ==> patterns[j] == "" || !Occurs(message, patterns[j])
    {
      if |message| > 0 && |patterns[i]| > 0 {
        var found := SimpleContains(message, patterns[i]);
        if found {
          return true;
        }
      }
    }
    return false;
  }
}
