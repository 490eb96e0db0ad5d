// The circuit breaker, with `execute` split where it waits for the dependency: any number of
// admitted calls may be in flight when one of them reports back.

module CircuitBreaker {
  import opened Domain

  datatype CircuitState = Closed | Open | HalfOpen

  datatype Breaker = Breaker(state: CircuitState, failures: nat, lastFailure: Option<int>)

  datatype Config = Config(threshold: nat, resetTimeout: int)

  function Fresh(): Breaker { Breaker(Closed, 0, None) }

  function Transitioned(b: Breaker, c: Config, now: int): Breaker {
    if b.state.Open? && b.lastFailure.Some? && now - b.lastFailure.value >= c.resetTimeout
    then b.(state := HalfOpen) else b
  }

  function OnSuccess(b: Breaker): Breaker {
    match b.state
    case HalfOpen => Fresh()
    case Closed => b.(failures := 0)
    case Open => b
  }

  function OnFailure(b: Breaker, c: Config, now: int): Breaker {
    var failures := b.failures + 1;
    Breaker(if b.state.HalfOpen? || (b.state.Closed? && failures >= c.threshold) then Open else b.state,
            failures, Some(now))
  }

  class CircuitBreaker {
    var state: CircuitState
    var failureCount: nat
    var lastFailureTime: Option<int>
    const failureThreshold: nat
    const resetTimeout: int

    function Value(): Breaker
      reads this
    {
      Breaker(state, failureCount, lastFailureTime)
    }

    function Configuration(): Config { Config(failureThreshold, resetTimeout) }

    constructor (threshold: nat, resetTimeout: int)
      ensures Value() == Fresh() && Configuration() == Config(threshold, resetTimeout)
    {
      state, failureCount, lastFailureTime := Closed, 0, None;
      this.failureThreshold, this.resetTimeout := threshold, resetTimeout;
    }

    method TransitionIfNeeded(now: int)
      modifies this
      ensures Value() == Transitioned(old(Value()), Configuration(), now)
    {
      if state.Open? && lastFailureTime.Some? && now - lastFailureTime.value >= resetTimeout {
        state := HalfOpen;
      }
    }

    method GetState(now: int) returns (s: CircuitState)
      modifies this
      ensures Value() == Transitioned(old(Value()), Configuration(), now) && s == state
    {
      TransitionIfNeeded(now);
      return state;
    }

    // execute, up to the call of fn: false means CircuitOpenError without a call.
    method Admit(now: int) returns (admitted: bool)
      modifies this
      ensures Value() == Transitioned(old(Value()), Configuration(), now)
      ensures admitted <==> !state.Open?
    {
      TransitionIfNeeded(now);
      return !state.Open?;
    }

    // execute, after fn has returned ...
    method Succeed()
      modifies this
      ensures Value() == OnSuccess(old(Value()))
    {
      if state.HalfOpen? {
        state, failureCount, lastFailureTime := Closed, 0, None;
      } else if state.Closed? {
        failureCount := 0;
      }
    }

    // ... or thrown.
    method Fail(now: int)
      modifies this
      ensures Value() == OnFailure(old(Value()), Configuration(), now)
    {
      failureCount := failureCount + 1;
      lastFailureTime := Some(now);
      if state.HalfOpen? {
        state := Open;
        return;
      }
      if state.Closed? && failureCount >= failureThreshold { state := Open; }
    }

    method Reset()
      modifies this
      ensures Value() == Fresh()
    {
      state, failureCount, lastFailureTime := Closed, 0, None;
    }
  }

  // ------------------------------------------------------------------ overlapping calls

  datatype Step = AdmitCall(now: int) | CallSucceeds | CallFails(now: int) | ManualReset

  function Next(b: Breaker, c: Config, t: Step): Breaker {
    match t
    case AdmitCall(now) => Transitioned(b, c, now)
    case CallSucceeds => OnSuccess(b)
    case CallFails(now) => OnFailure(b, c, now)
    case ManualReset => Fresh()
  }

  ghost predicate Valid(b: Breaker, c: Config) {
    && (b.state.Closed? <==> b.failures < c.threshold)
    && (b.state.Open? ==> b.lastFailure.Some?)
  }

  function RunAll(b: Breaker, c: Config, ts: seq<Step>): Breaker {
    if ts == [] then b else Next(RunAll(b, c, ts[..|ts| - 1]), c, ts[|ts| - 1])
  }

  // In whatever order admissions and reports of overlapping calls come: CLOSED means fewer
  // failures than the threshold and nothing else does, and an OPEN breaker knows since when.
  lemma {:induction false} EveryOrderKeepsValid(c: Config, ts: seq<Step>)
    requires c.threshold >= 1
    ensures Valid(RunAll(Fresh(), c, ts), c)
  {
    if ts != [] { EveryOrderKeepsValid(c, ts[..|ts| - 1]); }
  }

  // A call is refused exactly when the breaker is OPEN and the timeout has not elapsed.
  lemma RefusedIff(b: Breaker, c: Config, now: int)
    requires Valid(b, c)
    ensures Transitioned(b, c, now).state.Open?
       <==> b.state.Open? && now - b.lastFailure.value < c.resetTimeout
  {}

  // Every move of the breaker: what makes it, from each state, and what the counters show then.  The
  // late result of a call admitted earlier never moves an OPEN one.
  lemma MovesIff(b: Breaker, c: Config, t: Step)
    requires Valid(b, c)
    ensures var n := Next(b, c, t);
      && (b.state.Open? ==>
            && (n.state.HalfOpen? <==> t.AdmitCall? && t.now >= b.lastFailure.value + c.resetTimeout)
            && (n.state.Closed? <==> t.ManualReset?))
      && (b.state.Closed? ==>
            !n.state.HalfOpen? && (n.state.Open? <==> t.CallFails? && b.failures + 1 >= c.threshold))
      && (b.state.HalfOpen? ==>
            && (n.state.Open? <==> t.CallFails?)
            && (n.state.Closed? <==> t.CallSucceeds? || t.ManualReset?))
      && n.failures == (if t.CallFails? then b.failures + 1
                        else if t.ManualReset? || (t.CallSucceeds? && !b.state.Open?) then 0
                        else b.failures)
      && n.lastFailure == (if t.CallFails? then Some(t.now)
                           else if t.ManualReset? || (t.CallSucceeds? && b.state.HalfOpen?) then None
                           else b.lastFailure)
  {}

  // Until its timeout has elapsed an OPEN breaker refuses every call, whatever late results of
  // earlier calls come in; only a manual reset opens it to calls again.
  lemma {:induction false} RefusesUntilTimeout(b: Breaker, c: Config, ts: seq<Step>, since: int, now: int)
    requires b.state.Open? && b.lastFailure == Some(since) && now < since + c.resetTimeout
    requires forall t <- ts :: !t.ManualReset?
    requires forall t <- ts | t.AdmitCall? :: t.now <= now
    requires forall t <- ts | t.CallFails? :: since <= t.now
    ensures var n := RunAll(b, c, ts);
      && n.state.Open? && n.lastFailure.Some? && n.lastFailure.value >= since
      && Transitioned(n, c, now).state.Open?
  {
    if ts != [] {
      assert ts[|ts| - 1] in ts;
      RefusesUntilTimeout(b, c, ts[..|ts| - 1], since, now);
    }
  }

  // A success wipes the slate: whatever happened before, a breaker that is not OPEN is CLOSED after
  // it, and then only `threshold` failures in a row open it.
  lemma {:induction false} OnlyConsecutiveFailuresTrip(c: Config, ts: seq<Step>, fails: seq<Step>)
    requires c.threshold >= 1 && !RunAll(Fresh(), c, ts).state.Open?
    requires forall t <- fails :: t.CallFails?
    ensures var b := RunAll(Fresh(), c, ts + [CallSucceeds] + fails);
            && (b.state.Closed? <==> |fails| < c.threshold)
            && (b.state.Closed? ==> b.failures == |fails|)
            && (!b.state.Closed? ==> b.state.Open?)
  {
    var all := ts + [CallSucceeds] + fails;
    if fails == [] {
      EveryOrderKeepsValid(c, ts);
      assert all[..|all| - 1] == ts && all[|all| - 1] == CallSucceeds;
    } else {
      var m := |fails| - 1;
      OnlyConsecutiveFailuresTrip(c, ts, fails[..m]);
      assert fails[m] in fails;
      assert all[..|all| - 1] == ts + [CallSucceeds] + fails[..m] && all[|all| - 1] == fails[m];
    }
  }

  // ------------------------------------------------------------------ a dependency that always fails

  // A call is asked for at `start` and, if admitted, fails at `end`.
  datatype Call = Call(start: int, end: int)

  ghost predicate Sequential(calls: seq<Call>, from: int, until: int) {
    && (forall k | 0 <= k < |calls| :: from <= calls[k].start <= until && calls[k].start <= calls[k].end)
    && (forall k | 0 < k < |calls| :: calls[k - 1].end <= calls[k].start)
  }

  // The breaker after the calls and how many of them reached the dependency.
  function AllFailing(b: Breaker, c: Config, calls: seq<Call>): (Breaker, nat) {
    if calls == [] then (b, 0)
    else
      var (before, n) := AllFailing(b, c, calls[..|calls| - 1]);
      var call := calls[|calls| - 1];
      var asked := Transitioned(before, c, call.start);
      if asked.state.Open? then (asked, n) else (OnFailure(asked, c, call.end), n + 1)
  }

  // n calls have reached the dependency and left the breaker b; b0 is where it all began.
  ghost predicate Paced(b0: Breaker, b: Breaker, n: nat, c: Config, from: int) {
    && Valid(b, c)
    && (b.state.Closed? ==> b0.state.Closed? && n + b0.failures == b.failures)
    && (n > 0 && !b.state.Closed? ==>
          b.state.Open? && b.lastFailure.value >= from + (n - c.threshold) * c.resetTimeout)
  }

  lemma CallKeepsPace(b0: Breaker, b: Breaker, n: nat, c: Config, from: int, call: Call)
    requires c.threshold >= 1 && c.resetTimeout > 0 && Valid(b0, c) && Paced(b0, b, n, c, from)
    requires from <= call.start <= call.end
    requires !Transitioned(b, c, call.start).state.Open?
    ensures Paced(b0, OnFailure(Transitioned(b, c, call.start), c, call.end), n + 1, c, from)
    ensures from + (n + 1 - c.threshold) * c.resetTimeout <= call.start
  {
    if b.state.Closed? {
      Shorter(n + 1, c.threshold, c.resetTimeout);
    } else if n > 0 {
      OneMore(n - c.threshold, c.resetTimeout);
      assert n + 1 - c.threshold == (n - c.threshold) + 1;
    } else {
      Shorter(1, c.threshold, c.resetTimeout);
    }
  }

  lemma {:induction false} FailuresArePaced(b: Breaker, c: Config, calls: seq<Call>, from: int, T: nat)
    requires c.threshold >= 1 && c.resetTimeout > 0 && Valid(b, c) && Sequential(calls, from, from + T)
    ensures Paced(b, AllFailing(b, c, calls).0, AllFailing(b, c, calls).1, c, from)
    ensures (AllFailing(b, c, calls).1 - c.threshold) * c.resetTimeout <= T
  {
    if calls == [] {
      Shorter(0, c.threshold, c.resetTimeout);
    } else {
      var prefix, call := calls[..|calls| - 1], calls[|calls| - 1];
      FailuresArePaced(b, c, prefix, from, T);
      var (before, n) := AllFailing(b, c, prefix);
      if !Transitioned(before, c, call.start).state.Open? {
        CallKeepsPace(b, before, n, c, from, call);
      }
    }
  }

  lemma Shorter(n: nat, threshold: nat, reset: int)
    requires n <= threshold && reset > 0
    ensures (n - threshold) * reset <= 0
  {}

  lemma OneMore(k: int, reset: int)
    ensures (k + 1) * reset == k * reset + reset
  {}

  lemma Quotient(k: int, reset: int, t: int)
    requires reset > 0 && t >= 0 && k * reset <= t
    ensures k <= t / reset
  {
    var d := k - t / reset;
    assert k * reset == (t / reset) * reset + d * reset;
    Stretch(d, reset);
  }

  lemma Stretch(d: int, reset: int)
    requires reset > 0
    ensures d >= 1 ==> d * reset >= reset
  {}

  // From any valid state, a dependency that always fails is called at most
  // threshold + floor(T / resetTimeout) times in time T.
  lemma AlwaysFailingBound(b: Breaker, c: Config, calls: seq<Call>, from: int, T: nat)
    requires c.threshold >= 1 && c.resetTimeout > 0 && Valid(b, c) && Sequential(calls, from, from + T)
    ensures AllFailing(b, c, calls).1 <= c.threshold + T / c.resetTimeout
  {
    FailuresArePaced(b, c, calls, from, T);
    Quotient(AllFailing(b, c, calls).1 - c.threshold, c.resetTimeout, T);
  }

  // ------------------------------------------------------------------ the bound is exact

  // Calls that take no time: m of them at once on a fresh breaker.
  lemma {:induction false} AtOnce(c: Config, m: nat, from: int) returns (calls: seq<Call>)
    requires 1 <= m <= c.threshold
    ensures |calls| == m && forall k | 0 <= k < m :: calls[k] == Call(from, from)
    ensures AllFailing(Fresh(), c, calls) == (Breaker(if m < c.threshold then Closed else Open, m, Some(from)), m)
  {
    var before: seq<Call> := [];
    if m > 1 { before := AtOnce(c, m - 1, from); }
    calls := before + [Call(from, from)];
    assert calls[..m - 1] == before;
  }

  // One more as soon as the timeout has elapsed: it is admitted, and the breaker is OPEN again.
  lemma OneAfterTimeout(c: Config, before: seq<Call>, from: int, last: int, n: nat) returns (calls: seq<Call>)
    requires c.resetTimeout > 0 && before != [] && before[|before| - 1] == Call(last, last)
    requires Sequential(before, from, last) && AllFailing(Fresh(), c, before) == (Breaker(Open, n, Some(last)), n)
    ensures var at := last + c.resetTimeout;
      && calls != [] && calls[|calls| - 1] == Call(at, at) && Sequential(calls, from, at)
      && AllFailing(Fresh(), c, calls) == (Breaker(Open, n + 1, Some(at)), n + 1)
  {
    var at := last + c.resetTimeout;
    calls := before + [Call(at, at)];
    assert calls[..|calls| - 1] == before;
  }

  // Then one more at the end of each timeout.
  lemma {:induction false} OncePerTimeout(c: Config, k: nat, from: int) returns (calls: seq<Call>)
    requires c.threshold >= 1 && c.resetTimeout > 0
    ensures calls != [] && calls[|calls| - 1] == Call(from + k * c.resetTimeout, from + k * c.resetTimeout)
    ensures Sequential(calls, from, from + k * c.resetTimeout)
    ensures AllFailing(Fresh(), c, calls)
         == (Breaker(Open, c.threshold + k, Some(from + k * c.resetTimeout)), c.threshold + k)
  {
    if k == 0 {
      calls := AtOnce(c, c.threshold, from);
    } else {
      var before := OncePerTimeout(c, k - 1, from);
      OneMore(k - 1, c.resetTimeout);
      calls := OneAfterTimeout(c, before, from, from + (k - 1) * c.resetTimeout, c.threshold + k - 1);
    }
  }

  // For every threshold, timeout and time T some calls, one after the other, reach the bound.
  lemma AlwaysFailingBoundIsTight(c: Config, from: int, T: nat) returns (calls: seq<Call>)
    requires c.threshold >= 1 && c.resetTimeout > 0
    ensures Sequential(calls, from, from + T)
    ensures AllFailing(Fresh(), c, calls).1 == c.threshold + T / c.resetTimeout
  {
    calls := OncePerTimeout(c, T / c.resetTimeout, from);
    assert T / c.resetTimeout * c.resetTimeout <= T;
  }
}
