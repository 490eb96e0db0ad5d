// withRetry and its backoff.  fn, shouldRetry and the random draws are oracles indexed by the
// attempt; delays are exact milliseconds.

module Retry {
  import opened Domain

  datatype Outcome<+T, +E> = Returned(value: T) | Threw(error: E)

  function Pow2(n: nat): real { if n == 0 then 1.0 else 2.0 * Pow2(n - 1) }

  // initialDelay * Math.pow(2, k), by doubling.
  function Doubled(initialDelay: real, k: nat): real {
    if k == 0 then initialDelay else 2.0 * Doubled(initialDelay, k - 1)
  }

  lemma {:induction false} DoubledIsPower(initialDelay: real, k: nat)
    ensures Doubled(initialDelay, k) == initialDelay * Pow2(k)
  {
    if k > 0 {
      DoubledIsPower(initialDelay, k - 1);
      var p := Pow2(k - 1);
      assert initialDelay * (2.0 * p) == 2.0 * (initialDelay * p);
    }
  }

  function Min(a: real, b: real): real { if a <= b then a else b }

  function Delay(base: real, maxDelay: real, draw: real): real {
    Min(base + (draw * base * 0.1).Floor as real, maxDelay)
  }

  function CalculateBackoff(attempt: nat, initialDelay: real, maxDelay: real, draw: real): real
    requires attempt >= 1
  {
    Delay(Doubled(initialDelay, attempt - 1), maxDelay, draw)
  }

  predicate Retried<T, E>(fn: nat -> Outcome<T, E>, shouldRetry: (E, nat) -> bool, attempt: nat) {
    fn(attempt).Threw? && shouldRetry(fn(attempt).error, attempt)
  }

  // fn was called `calls` times: every call but the last threw something worth retrying, and the
  // last one returned, exhausted the attempts or threw something that is not.
  ghost predicate StopsAt<T, E>(
    fn: nat -> Outcome<T, E>, shouldRetry: (E, nat) -> bool, maxAttempts: int, calls: nat)
  {
    && 1 <= calls <= maxAttempts
    && (forall k | 1 <= k < calls :: Retried(fn, shouldRetry, k))
    && (calls == maxAttempts || !Retried(fn, shouldRetry, calls))
  }

  // The sleeps between the attempts.
  ghost predicate IsBackoff(sleeps: seq<real>, initialDelay: real, maxDelay: real, draw: nat -> real) {
    forall k | 0 <= k < |sleeps| ::
      sleeps[k] == CalculateBackoff(k + 1, initialDelay, maxDelay, draw(k + 1))
  }

  // A loop that makes no call throws lastError unset: Threw(None).
  method WithRetry<T, E>(
    fn: nat -> Outcome<T, E>, shouldRetry: (E, nat) -> bool, draw: nat -> real,
    maxAttempts: int, initialDelay: real, maxDelay: real)
    returns (result: Outcome<T, Option<E>>, calls: nat, sleeps: seq<real>)
    ensures maxAttempts <= 0 ==> calls == 0 && result == Threw(None)
    ensures maxAttempts >= 1 ==> StopsAt(fn, shouldRetry, maxAttempts, calls)
    ensures maxAttempts >= 1 ==>
              result == if fn(calls).Returned? then Returned(fn(calls).value) else Threw(Some(fn(calls).error))
    ensures |sleeps| == if calls == 0 then 0 else calls - 1
    ensures IsBackoff(sleeps, initialDelay, maxDelay, draw)
  {
    var lastError: Option<E> := None;
    calls, sleeps := 0, [];
    var attempt := 1;
    while attempt <= maxAttempts
      invariant 1 <= attempt && attempt <= if maxAttempts >= 1 then maxAttempts else 1
      invariant calls == attempt - 1 == |sleeps|
      invariant maxAttempts <= 0 ==> lastError.None?
      invariant forall k | 1 <= k < attempt :: Retried(fn, shouldRetry, k)
      invariant IsBackoff(sleeps, initialDelay, maxDelay, draw)
      decreases maxAttempts - attempt
    {
      calls := calls + 1;
      var outcome := fn(attempt);
      if outcome.Returned? { return Returned(outcome.value), calls, sleeps; }
      lastError := Some(outcome.error);
      if attempt == maxAttempts || !shouldRetry(outcome.error, attempt) { break; }
      sleeps := sleeps + [CalculateBackoff(attempt, initialDelay, maxDelay, draw(attempt))];
      attempt := attempt + 1;
    }
    result := Threw(lastError);
  }

  // The number of calls is determined by the oracles, ...
  lemma StopsOnce<T, E>(
    fn: nat -> Outcome<T, E>, shouldRetry: (E, nat) -> bool, maxAttempts: int, a: nat, b: nat)
    requires StopsAt(fn, shouldRetry, maxAttempts, a) && StopsAt(fn, shouldRetry, maxAttempts, b)
    ensures a == b
  {}

  // ... and a value comes back exactly when some attempt returns one before any attempt throws an
  // error that is not retried; it is the first one returned.
  lemma FirstSuccess<T, E>(
    fn: nat -> Outcome<T, E>, shouldRetry: (E, nat) -> bool, maxAttempts: int, calls: nat)
    requires StopsAt(fn, shouldRetry, maxAttempts, calls)
    ensures fn(calls).Returned? <==>
              exists k | 1 <= k <= maxAttempts ::
                fn(k).Returned? && forall j | 1 <= j < k :: Retried(fn, shouldRetry, j)
    ensures forall k | 1 <= k < calls :: !fn(k).Returned?
  {
    forall k | 1 <= k < calls ensures !fn(k).Returned? {
      assert Retried(fn, shouldRetry, k);
    }
    if k :| 1 <= k <= maxAttempts && fn(k).Returned? &&
            forall j | 1 <= j < k :: Retried(fn, shouldRetry, j) {
      StopsOnce(fn, shouldRetry, maxAttempts, calls, k);
    }
  }

  // ------------------------------------------------------------------ how long it waits

  function Sum(xs: seq<real>): real { if xs == [] then 0.0 else Sum(xs[..|xs| - 1]) + xs[|xs| - 1] }

  // Math.random
  ghost predicate IsRandom(draw: nat -> real) { forall k :: 0.0 <= draw(k) < 1.0 }

  lemma ScaledWithin(x: real, a: real, b: real)
    requires x >= 0.0 && a <= b
    ensures x * a <= x * b
  {}

  lemma Jitter(base: real, draw: real)
    requires base >= 0.0 && 0.0 <= draw < 1.0
    ensures 0.0 <= (draw * base * 0.1).Floor as real <= 0.1 * base
  {
    ScaledWithin(base, 0.0, draw);
    ScaledWithin(base, draw, 1.0);
    var x := draw * base;
    assert 0.0 <= x * 0.1 <= 0.1 * base;
  }

  lemma DelayBounds(base: real, maxDelay: real, draw: real)
    requires base >= 0.0 && 0.0 <= draw < 1.0
    ensures Min(base, maxDelay) <= Delay(base, maxDelay, draw) <= Min(1.1 * base, maxDelay)
  {
    Jitter(base, draw);
  }

  lemma {:induction false} DoubledMonotone(initialDelay: real, a: nat, b: nat)
    requires initialDelay >= 0.0 && a <= b
    ensures initialDelay <= Doubled(initialDelay, a) <= Doubled(initialDelay, b)
    decreases b
  {
    if a < b {
      DoubledMonotone(initialDelay, a, b - 1);
    } else if b > 0 {
      DoubledMonotone(initialDelay, a - 1, b - 1);
    }
  }

  lemma SleepIs(sleeps: seq<real>, initialDelay: real, maxDelay: real, draw: nat -> real, k: nat)
    requires IsBackoff(sleeps, initialDelay, maxDelay, draw) && IsRandom(draw)
    requires initialDelay >= 0.0 && k < |sleeps|
    ensures Min(Doubled(initialDelay, k), maxDelay) <= sleeps[k] <= Min(1.1 * Doubled(initialDelay, k), maxDelay)
  {
    DoubledMonotone(initialDelay, k, k);
    DelayBounds(Doubled(initialDelay, k), maxDelay, draw(k + 1));
  }

  // For every jitter: each delay is at least the smaller of initialDelay and maxDelay, at most
  // maxDelay, and never below the delay before it.
  lemma DelaysGrow(sleeps: seq<real>, initialDelay: real, maxDelay: real, draw: nat -> real, k: nat)
    requires IsBackoff(sleeps, initialDelay, maxDelay, draw) && IsRandom(draw)
    requires initialDelay >= 0.0 && k < |sleeps|
    ensures Min(initialDelay, maxDelay) <= sleeps[k] <= maxDelay
    ensures k > 0 ==> sleeps[k - 1] <= sleeps[k]
  {
    SleepIs(sleeps, initialDelay, maxDelay, draw, k);
    DoubledMonotone(initialDelay, k, k);
    if k > 0 {
      SleepIs(sleeps, initialDelay, maxDelay, draw, k - 1);
      DoubledMonotone(initialDelay, k - 1, k);
    }
  }

  lemma {:induction false} SumBelowGeometric(sleeps: seq<real>, initialDelay: real, maxDelay: real, draw: nat -> real)
    requires IsBackoff(sleeps, initialDelay, maxDelay, draw) && IsRandom(draw) && initialDelay >= 0.0
    ensures Sum(sleeps) <= 1.1 * (Doubled(initialDelay, |sleeps|) - initialDelay)
  {
    if sleeps != [] {
      var m := |sleeps| - 1;
      SumBelowGeometric(sleeps[..m], initialDelay, maxDelay, draw);
      SleepIs(sleeps, initialDelay, maxDelay, draw, m);
    }
  }

  lemma {:induction false} SumBelowCount(sleeps: seq<real>, maxDelay: real, n: nat)
    requires maxDelay >= 0.0 && |sleeps| <= n
    requires forall k | 0 <= k < |sleeps| :: sleeps[k] <= maxDelay
    ensures Sum(sleeps) <= maxDelay * n as real
  {
    if sleeps == [] {
      ScaledWithin(maxDelay, 0.0, n as real);
    } else {
      SumBelowCount(sleeps[..|sleeps| - 1], maxDelay, n - 1);
      assert n as real == (n - 1) as real + 1.0;
    }
  }

  // All the sleeping of one withRetry of at most n attempts, for every jitter.
  lemma TotalSleep(sleeps: seq<real>, initialDelay: real, maxDelay: real, draw: nat -> real, n: nat)
    requires IsBackoff(sleeps, initialDelay, maxDelay, draw) && IsRandom(draw) && |sleeps| <= n - 1
    requires initialDelay >= 0.0 && maxDelay >= 0.0
    ensures Sum(sleeps) <= maxDelay * (n - 1) as real
    ensures Sum(sleeps) <= 1.1 * (Doubled(initialDelay, n - 1) - initialDelay)
  {
    SumBelowGeometric(sleeps, initialDelay, maxDelay, draw);
    DoubledMonotone(initialDelay, |sleeps|, n - 1);
    forall k | 0 <= k < |sleeps| ensures sleeps[k] <= maxDelay {
      DelaysGrow(sleeps, initialDelay, maxDelay, draw, k);
    }
    SumBelowCount(sleeps, maxDelay, n - 1);
  }

  // ------------------------------------------------------------------ each delay exactly

  // Sleep k is the smaller of maxDelay and initialDelay * 2^k plus a whole number of milliseconds,
  // the largest within the drawn share of a tenth of it.
  lemma SleepInFigures(sleeps: seq<real>, initialDelay: real, maxDelay: real, draw: nat -> real, k: nat)
    returns (jitter: int)
    requires IsBackoff(sleeps, initialDelay, maxDelay, draw) && k < |sleeps|
    ensures var base := initialDelay * Pow2(k);
      && (10 * jitter) as real <= draw(k + 1) * base < (10 * jitter + 10) as real
      && sleeps[k] <= maxDelay && sleeps[k] <= base + jitter as real
      && (sleeps[k] == maxDelay || sleeps[k] == base + jitter as real)
  {
    DoubledIsPower(initialDelay, k);
    var share := draw(k + 1) * Doubled(initialDelay, k);
    jitter := (share * 0.1).Floor;
  }
}
