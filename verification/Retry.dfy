/** Exponential backoff: how often the function is called and how long the loop sleeps. */
module Retry {
  import opened RealArithmetic

  datatype RetryPolicy = RetryPolicy(maxAttempts: int, baseDelay: real, maxDelay: real, jitter: bool)
  {
    predicate Valid() {
      baseDelay >= 0.0 && maxDelay >= 0.0
    }
  }

  /** How one call of the function ends: a value, an error the policy retries, or another error. */
  datatype Attempt<+T> = Success(value: T) | Retryable | Fatal

  datatype Outcome<+T> = Returned(value: T) | Exhausted | Raised | AssertionFailed

  function Pow2(n: nat): nat {
    if n == 0 then 1 else 2 * Pow2(n - 1)
  }

  /** `x` doubled `n` times. */
  function Doubled(x: real, n: nat): real {
    if n == 0 then x else 2.0 * Doubled(x, n - 1)
  }

  lemma {:induction false} DoubledIsProduct(x: real, n: nat)
    ensures Doubled(x, n) == x * Pow2(n) as real
  {
    if n > 0 {
      DoubledIsProduct(x, n - 1);
      TwiceProduct(x, Pow2(n - 1));
    }
  }

  lemma TwiceProduct(x: real, k: nat)
    ensures 2.0 * (x * k as real) == x * (2 * k) as real
  {
    assert (2 * k) as real == k as real + k as real;
  }

  /** `x` added up `n` times. */
  function Times(n: nat, x: real): real {
    if n == 0 then 0.0 else Times(n - 1, x) + x
  }

  lemma {:induction false} TimesIsProduct(n: nat, x: real)
    ensures Times(n, x) == n as real * x
  {
    if n > 0 {
      TimesIsProduct(n - 1, x);
      OneMore(n, x);
    }
  }

  lemma OneMore(n: nat, x: real)
    requires n >= 1
    ensures n as real * x == (n - 1) as real * x + x
  {
  }

  function RawDelay(p: RetryPolicy, attempt: nat): real
    requires attempt >= 1
  {
    var exponential := Doubled(p.baseDelay, attempt - 1);
    if exponential < p.maxDelay then exponential else p.maxDelay
  }

  /** `draw`, in [0, 1], stands for the uniform random factor of the jitter. */
  function DelayFor(p: RetryPolicy, attempt: nat, draw: real): real
    requires attempt >= 1
  {
    if p.jitter then draw * RawDelay(p, attempt) else RawDelay(p, attempt)
  }

  /** Sleep before the retries that follow the first `n` attempts. */
  function TotalSleep(p: RetryPolicy, draws: nat -> real, n: nat): real {
    if n == 0 then 0.0 else TotalSleep(p, draws, n - 1) + DelayFor(p, n, draws(n))
  }

  ghost predicate UnitDraws(draws: nat -> real) {
    forall i :: 0.0 <= draws(i) <= 1.0
  }

  lemma {:induction false} DoubledGrows(x: real, a: nat, b: nat)
    requires x >= 0.0 && a <= b
    ensures 0.0 <= x <= Doubled(x, a) <= Doubled(x, b)
    decreases b
  {
    if a < b {
      DoubledGrows(x, a, b - 1);
    } else if a > 0 {
      DoubledGrows(x, a - 1, a - 1);
    }
  }

  lemma RawDelayBounds(p: RetryPolicy, attempt: nat)
    requires p.Valid() && attempt >= 1
    ensures 0.0 <= RawDelay(p, attempt) <= p.maxDelay
    ensures RawDelay(p, attempt) <= Doubled(p.baseDelay, attempt - 1)
  {
    DoubledGrows(p.baseDelay, 0, attempt - 1);
  }

  lemma DelayBounds(p: RetryPolicy, attempt: nat, draw: real)
    requires attempt >= 1 && 0.0 <= draw <= 1.0 && RawDelay(p, attempt) >= 0.0
    ensures 0.0 <= DelayFor(p, attempt, draw) <= RawDelay(p, attempt)
  {
    var raw := RawDelay(p, attempt);
    Scale(draw, raw);
    assert DelayFor(p, attempt, draw) == if p.jitter then draw * raw else raw;
  }

  /** All sleeps together stay under the geometric sum and under the cap times their number. */
  lemma {:induction false} SleepBound(p: RetryPolicy, draws: nat -> real, n: nat)
    requires p.Valid() && UnitDraws(draws)
    ensures 0.0 <= TotalSleep(p, draws, n)
    ensures TotalSleep(p, draws, n) <= p.baseDelay * Pow2(n) as real - p.baseDelay
    ensures TotalSleep(p, draws, n) <= n as real * p.maxDelay
  {
    SleepBoundDoubled(p, draws, n);
    DoubledIsProduct(p.baseDelay, n);
    TimesIsProduct(n, p.maxDelay);
  }

  lemma {:induction false} SleepBoundDoubled(p: RetryPolicy, draws: nat -> real, n: nat)
    requires p.Valid() && UnitDraws(draws)
    ensures 0.0 <= TotalSleep(p, draws, n) <= Doubled(p.baseDelay, n) - p.baseDelay
    ensures TotalSleep(p, draws, n) <= Times(n, p.maxDelay)
  {
    if n > 0 {
      SleepBoundDoubled(p, draws, n - 1);
      RawDelayBounds(p, n);
      DelayBounds(p, n, draws(n));
    }
  }

  /** Without jitter each retry waits at least as long as the one before. */
  lemma {:induction false} DelaysDoNotShrink(p: RetryPolicy, a: nat, b: nat, draw: real)
    requires p.Valid() && !p.jitter && 1 <= a <= b
    ensures DelayFor(p, a, draw) <= DelayFor(p, b, draw)
  {
    DoubledGrows(p.baseDelay, a - 1, b - 1);
  }

  /** Without jitter the first delay is the base, and each later one twice the one before, up to the cap. */
  lemma {:induction false} BackoffDoubles(p: RetryPolicy, attempt: nat, draw: real)
    requires p.Valid() && !p.jitter && attempt >= 1
    ensures DelayFor(p, 1, draw) == if p.baseDelay < p.maxDelay then p.baseDelay else p.maxDelay
    ensures var twice := 2.0 * DelayFor(p, attempt, draw);
            DelayFor(p, attempt + 1, draw) == if twice < p.maxDelay then twice else p.maxDelay
    ensures DelayFor(p, attempt, draw) == p.maxDelay <==> p.baseDelay * Pow2(attempt - 1) as real >= p.maxDelay
  {
    DoubledIsProduct(p.baseDelay, attempt - 1);
    DoubledGrows(p.baseDelay, 0, attempt - 1);
  }

  /** With jitter a delay is the drawn fraction of the delay without. */
  lemma {:induction false} JitterScales(p: RetryPolicy, attempt: nat, draw: real)
    requires attempt >= 1 && p.jitter
    ensures DelayFor(p, attempt, draw) == draw * DelayFor(p.(jitter := false), attempt, draw)
  {
  }

  lemma {:induction false} SleepIsDoubled(p: RetryPolicy, draws: nat -> real, n: nat)
    requires p.Valid() && !p.jitter && (n >= 1 ==> Doubled(p.baseDelay, n - 1) <= p.maxDelay)
    ensures TotalSleep(p, draws, n) == Doubled(p.baseDelay, n) - p.baseDelay
  {
    if n > 0 {
      if n > 1 {
        DoubledGrows(p.baseDelay, n - 2, n - 1);
      }
      SleepIsDoubled(p, draws, n - 1);
    }
  }

  /** Until the cap bites, the sleep before `n` retries without jitter is exactly the geometric sum. */
  lemma {:induction false} SleepIsGeometric(p: RetryPolicy, draws: nat -> real, n: nat)
    requires p.Valid() && !p.jitter && (n >= 1 ==> p.baseDelay * Pow2(n - 1) as real <= p.maxDelay)
    ensures TotalSleep(p, draws, n) == p.baseDelay * Pow2(n) as real - p.baseDelay
  {
    DoubledIsProduct(p.baseDelay, n);
    if n > 0 {
      DoubledIsProduct(p.baseDelay, n - 1);
    }
    SleepIsDoubled(p, draws, n);
  }

  /** How many calls are made in all once the first `done` asked for a retry. */
  function CallsMade<T>(func: nat -> Attempt<T>, maxAttempts: int, done: nat): (calls: nat)
    requires maxAttempts >= 1 ==> done < maxAttempts
    ensures calls > 0 <==> maxAttempts >= 1 || done > 0
    ensures maxAttempts >= 1 ==> done < calls <= maxAttempts
    decreases maxAttempts - done
  {
    if done >= maxAttempts then done
    else if func(done + 1).Retryable? && done + 1 < maxAttempts then CallsMade(func, maxAttempts, done + 1)
    else done + 1
  }

  /** Every call but the last asks for a retry, and so does the last only if no more are allowed. */
  lemma {:induction false} CallsMadeMeaning<T>(func: nat -> Attempt<T>, maxAttempts: int, done: nat)
    requires done < maxAttempts
    ensures var calls := CallsMade(func, maxAttempts, done);
            && (forall i :: done < i < calls ==> func(i).Retryable?)
            && (calls < maxAttempts ==> !func(calls).Retryable?)
    decreases maxAttempts - done
  {
    if func(done + 1).Retryable? && done + 1 < maxAttempts {
      CallsMadeMeaning(func, maxAttempts, done + 1);
    }
  }

  /** The number of calls is `k` if call `k` is the first that does not ask for a retry, or the last allowed. */
  lemma {:induction false} StopsAt<T>(func: nat -> Attempt<T>, maxAttempts: int, done: nat, k: nat)
    requires done < k <= maxAttempts && forall i :: done < i < k ==> func(i).Retryable?
    requires k == maxAttempts || !func(k).Retryable?
    ensures CallsMade(func, maxAttempts, done) == k
    decreases k - done
  {
    if done + 1 < k {
      StopsAt(func, maxAttempts, done + 1, k);
    }
  }

  /** When every call asks for a retry, as many are made as the policy allows. */
  lemma {:induction false} AllCallsMade<T>(func: nat -> Attempt<T>, maxAttempts: int, done: nat)
    requires done < maxAttempts && forall i :: func(i).Retryable?
    ensures CallsMade(func, maxAttempts, done) == maxAttempts
    decreases maxAttempts - done
  {
    if done + 1 < maxAttempts {
      AllCallsMade(func, maxAttempts, done + 1);
    }
  }

  /** The loop itself: its outcome is that of the last call made. */
  method CallUntilDone<T>(func: nat -> Attempt<T>, policy: RetryPolicy, draws: nat -> real)
    returns (r: Outcome<T>, calls: nat, slept: real)
    ensures if policy.maxAttempts < 1 then calls == 0 else 1 <= calls <= policy.maxAttempts
    ensures calls == CallsMade(func, policy.maxAttempts, 0)
    ensures if calls == 0 then r.AssertionFailed?
            else match func(calls)
                 case Success(v) => r == Returned(v)
                 case Fatal => r == Raised
                 case Retryable => r == Exhausted
    ensures slept == TotalSleep(policy, draws, if calls == 0 then 0 else calls - 1)
  {
    r, calls, slept := AssertionFailed, 0, 0.0;
    while calls < policy.maxAttempts
      invariant if policy.maxAttempts < 1 then calls == 0 else calls < policy.maxAttempts
      invariant r.AssertionFailed?
      invariant CallsMade(func, policy.maxAttempts, 0) == CallsMade(func, policy.maxAttempts, calls)
      invariant slept == TotalSleep(policy, draws, calls)
    {
      calls := calls + 1;
      match func(calls)
      case Success(v) =>
        return Returned(v), calls, slept;
      case Fatal =>
        return Raised, calls, slept;
      case Retryable =>
        if calls >= policy.maxAttempts {
          return Exhausted, calls, slept;
        }
        slept := slept + DelayFor(policy, calls, draws(calls));
    }
  }

  /**
   * Calls `func` up to its first success, its first error outside the policy, or `maxAttempts`
   * calls, whichever comes first, and reports that call's outcome; with no attempt allowed the
   * closing assertion fails.
   */
  method RetryAsync<T>(func: nat -> Attempt<T>, policy: RetryPolicy, draws: nat -> real)
    returns (r: Outcome<T>, calls: nat, slept: real)
    requires policy.Valid() && UnitDraws(draws)
    ensures policy.maxAttempts < 1 <==> calls == 0
    ensures calls == 0 <==> r.AssertionFailed?
    ensures calls <= (if policy.maxAttempts < 1 then 0 else policy.maxAttempts)
    ensures calls == CallsMade(func, policy.maxAttempts, 0)
    ensures forall i :: 1 <= i < calls ==> func(i).Retryable?
    ensures 0 < calls < policy.maxAttempts ==> !func(calls).Retryable?
    ensures calls > 0 ==>
              match func(calls)
              case Success(v) => r == Returned(v)
              case Fatal => r == Raised
              case Retryable => r == Exhausted
    ensures slept == TotalSleep(policy, draws, if calls == 0 then 0 else calls - 1)
    ensures calls > 0 ==> slept <= policy.baseDelay * Pow2(calls - 1) as real - policy.baseDelay
    ensures calls > 0 ==> slept <= (calls - 1) as real * policy.maxDelay
  {
    r, calls, slept := CallUntilDone(func, policy, draws);
    if calls > 0 {
      CallsMadeMeaning(func, policy.maxAttempts, 0);
      SleepBound(policy, draws, calls - 1);
    }
  }
}
