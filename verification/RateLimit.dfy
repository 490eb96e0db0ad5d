// The distributed rate limiter on its Redis path.  A request increments the key's counter; the
// first request of a key's lifetime arms the expiry in a second command that may come late or, if
// the process dies, never.

module RateLimit {
  import opened Domain

  datatype Counter = Counter(count: nat, expiresAt: Option<int>)

  // INCR
  function Hit(c: Option<Counter>): Counter {
    if c.None? then Counter(1, None) else c.value.(count := c.value.count + 1)
  }

  predicate Due(c: Counter, now: int) { c.expiresAt.Some? && c.expiresAt.value <= now }

  // A key that is due is gone as soon as a command touches it.
  function Alive(c: Option<Counter>, now: int): Option<Counter> {
    if c.Some? && !Due(c.value, now) then c else None
  }

  class Redis {
    var keys: map<string, Counter>

    constructor ()
      ensures keys == map[]
    {
      keys := map[];
    }

    function Live(key: string, now: int): Option<Counter>
      reads this
    {
      if key in keys && !Due(keys[key], now) then Some(keys[key]) else None
    }

    // The INCR + PTTL round trip and the verdict.  When `arm` is set the caller goes on with Arm.
    method Request(key: string, now: int, max: nat, windowMs: int)
      returns (admitted: bool, remaining: nat, ttlMs: int, arm: bool)
      modifies this
      ensures keys == old(keys)[key := Hit(old(Live(key, now)))]
      ensures admitted <==> keys[key].count <= max
      ensures remaining == if admitted then max - keys[key].count else 0
      ensures arm <==> keys[key].count == 1
      ensures ttlMs == if arm then windowMs
                       else if keys[key].expiresAt.Some? then keys[key].expiresAt.value - now else -1
    {
      if key in keys && Due(keys[key], now) { keys := keys - {key}; }
      if key in keys {
        keys := keys[key := keys[key].(count := keys[key].count + 1)];
      } else {
        keys := keys[key := Counter(1, None)];
      }
      var current := keys[key].count;
      ttlMs := if keys[key].expiresAt.Some? then keys[key].expiresAt.value - now else -1;
      arm := current == 1;
      if arm { ttlMs := windowMs; }
      remaining := if max > current then max - current else 0;
      admitted := current <= max;
    }

    // PEXPIRE
    method Arm(key: string, now: int, windowMs: int)
      modifies this
      ensures keys == if key in old(keys) then old(keys)[key := old(keys)[key].(expiresAt := Some(now + windowMs))]
                      else old(keys)
    {
      if key in keys { keys := keys[key := keys[key].(expiresAt := Some(now + windowMs))]; }
    }
  }

  // ------------------------------------------------------------------ one key over time

  // life counts the key's lifetimes: the k-th begins at starts[k].  admitted records time and
  // lifetime of every request that was let through, by the moment of its INCR.
  datatype State = State(
    now: int, key: Option<Counter>, owed: bool, starts: seq<int>, admitted: seq<(int, nat)>)

  datatype Step = Wait(ms: nat) | Incr | PExpire | Vanish

  ghost predicate Possible(s: State, t: Step) {
    match t
    case Wait(_) => true
    case Incr => true
    case PExpire => s.owed
    case Vanish => s.key.Some? && Due(s.key.value, s.now)
  }

  // Any order of INCRs, the owed PEXPIRE, and the key's disappearance at or after its deadline,
  // before anybody touches it again.
  ghost function Next(s: State, t: Step, max: nat, windowMs: nat): State
    requires Possible(s, t)
  {
    match t
    case Wait(ms) => s.(now := s.now + ms)
    case Incr =>
      var live := Alive(s.key, s.now);
      var c := Hit(live);
      var starts := if live.None? then s.starts + [s.now] else s.starts;
      s.(key := Some(c),
         owed := s.owed || live.None?,
         starts := starts,
         admitted := if c.count <= max && starts != [] then s.admitted + [(s.now, |starts| - 1)] else s.admitted)
    case PExpire =>
      s.(owed := false, key := if s.key.None? then None else Some(s.key.value.(expiresAt := Some(s.now + windowMs))))
    case Vanish => s.(key := None)
  }

  function InLife(log: seq<(int, nat)>, life: nat): nat {
    if log == [] then 0 else InLife(log[..|log| - 1], life) + if log[|log| - 1].1 == life then 1 else 0
  }

  function InWindow(log: seq<(int, nat)>, from: int, to: int): nat {
    if log == [] then 0
    else InWindow(log[..|log| - 1], from, to) + if from <= log[|log| - 1].0 < to then 1 else 0
  }

  predicate Apart(starts: seq<int>, k: nat, windowMs: nat)
    requires 0 < k < |starts|
  {
    starts[k] >= starts[k - 1] + windowMs
  }

  // Lifetimes last at least a window, a live key's PEXPIRE is either owed or done, and the log fits
  // the lifetimes.
  ghost predicate Timed(s: State, windowMs: nat) {
    && (s.key.Some? ==> s.starts != [] && s.key.value.count >= 1)
    && (s.owed ==> s.key.Some? && s.key.value.expiresAt.None?)
    && (s.starts != [] ==> s.starts[|s.starts| - 1] <= s.now)
    && (s.key.Some? && s.key.value.expiresAt.Some? ==>
          s.key.value.expiresAt.value >= s.starts[|s.starts| - 1] + windowMs)
    && (s.key.None? && s.starts != [] ==> s.now >= s.starts[|s.starts| - 1] + windowMs)
    && (forall k | 0 < k < |s.starts| :: Apart(s.starts, k, windowMs))
  }

  ghost predicate Logged(s: State) {
    && (forall k | 0 <= k < |s.admitted| ::
          && s.admitted[k].1 < |s.starts|
          && s.starts[s.admitted[k].1] <= s.admitted[k].0 <= s.now
          && (s.admitted[k].1 + 1 < |s.starts| ==> s.admitted[k].0 <= s.starts[s.admitted[k].1 + 1]))
    && (forall j, k | 0 <= j < k < |s.admitted| :: s.admitted[j].1 <= s.admitted[k].1)
  }

  ghost predicate Capped(s: State, max: nat) {
    && (forall life: nat {:trigger InLife(s.admitted, life)} ::
          InLife(s.admitted, life) <= if life < |s.starts| then max else 0)
    && (s.key.Some? && s.starts != [] ==>
          InLife(s.admitted, |s.starts| - 1) == if s.key.value.count <= max then s.key.value.count else max)
  }

  // A lifetime's first request is let through, if any is.
  ghost predicate Opened(s: State, max: nat) {
    forall life | 0 <= life < |s.starts| && max >= 1 :: FirstAdmitted(s, life)
  }

  ghost predicate FirstAdmitted(s: State, life: nat)
    requires life < |s.starts|
  {
    exists k | 0 <= k < |s.admitted| :: s.admitted[k] == (s.starts[life], life)
  }

  lemma StepKeepsOpened(s: State, t: Step, max: nat, windowMs: nat)
    requires Opened(s, max) && Timed(s, windowMs) && Possible(s, t)
    ensures Opened(Next(s, t, max, windowMs), max)
  {
    var n := Next(s, t, max, windowMs);
    forall life | 0 <= life < |n.starts| && max >= 1 ensures FirstAdmitted(n, life) {
      if life < |s.starts| {
        assert FirstAdmitted(s, life);
        var k :| 0 <= k < |s.admitted| && s.admitted[k] == (s.starts[life], life);
        assert n.admitted[k] == (n.starts[life], life);
      } else {
        assert n.admitted[|s.admitted|] == (n.starts[life], life);
      }
    }
  }

  lemma StepKeepsTimed(s: State, t: Step, max: nat, windowMs: nat)
    requires Timed(s, windowMs) && Possible(s, t)
    ensures Timed(Next(s, t, max, windowMs), windowMs)
  {
    var n := Next(s, t, max, windowMs);
    forall k | 0 < k < |n.starts| ensures Apart(n.starts, k, windowMs) {
      assert k < |s.starts| ==> Apart(s.starts, k, windowMs);
    }
  }

  lemma StepKeepsLogged(s: State, t: Step, max: nat, windowMs: nat)
    requires Timed(s, windowMs) && Logged(s) && Possible(s, t)
    ensures Logged(Next(s, t, max, windowMs))
  {
    if t.Incr? {
      LogAppend(s, Next(s, t, max, windowMs));
    }
  }

  lemma LogAppend(s: State, n: State)
    requires Logged(s) && n.now == s.now && n.starts != []
    requires s.starts != [] ==> s.starts[|s.starts| - 1] <= s.now
    requires n.starts == s.starts || n.starts == s.starts + [s.now]
    requires n.starts[|n.starts| - 1] <= s.now
    requires n.admitted == s.admitted || n.admitted == s.admitted + [(s.now, |n.starts| - 1)]
    ensures Logged(n)
  {}

  lemma StepKeepsCap(s: State, t: Step, max: nat, windowMs: nat)
    requires Timed(s, windowMs) && Capped(s, max) && Possible(s, t)
    ensures Capped(Next(s, t, max, windowMs), max)
  {}

  ghost predicate IsRun(ss: seq<State>, ts: seq<Step>, max: nat, windowMs: nat) {
    && |ss| == |ts| + 1
    && ss[0].key.None? && !ss[0].owed && ss[0].starts == [] && ss[0].admitted == []
    && forall n {:trigger ts[n]} | 0 <= n < |ts| ::
         Possible(ss[n], ts[n]) && ss[n + 1] == Next(ss[n], ts[n], max, windowMs)
  }

  lemma {:induction false} RunsKeepTheBooks(ss: seq<State>, ts: seq<Step>, n: nat, max: nat, windowMs: nat)
    requires IsRun(ss, ts, max, windowMs) && n <= |ts|
    ensures Timed(ss[n], windowMs) && Logged(ss[n]) && Capped(ss[n], max) && Opened(ss[n], max)
  {
    if n > 0 {
      RunsKeepTheBooks(ss, ts, n - 1, max, windowMs);
      StepKeepsTimed(ss[n - 1], ts[n - 1], max, windowMs);
      StepKeepsLogged(ss[n - 1], ts[n - 1], max, windowMs);
      StepKeepsCap(ss[n - 1], ts[n - 1], max, windowMs);
      StepKeepsOpened(ss[n - 1], ts[n - 1], max, windowMs);
    }
  }

  // Each lifetime of a key lets at most max requests through.
  lemma LifetimeBound(ss: seq<State>, ts: seq<Step>, max: nat, windowMs: nat, life: nat)
    requires IsRun(ss, ts, max, windowMs)
    ensures InLife(ss[|ts|].admitted, life) <= max
  {
    RunsKeepTheBooks(ss, ts, |ts|, max, windowMs);
  }

  // Two requests let through less than a window apart are in the same or in successive lifetimes.
  lemma NearMeansNeighbours(s: State, windowMs: nat, j: nat, k: nat)
    requires Timed(s, windowMs) && Logged(s) && j < k < |s.admitted|
    requires s.admitted[k].0 < s.admitted[j].0 + windowMs
    ensures s.admitted[k].1 <= s.admitted[j].1 + 1
  {
    if s.admitted[k].1 > s.admitted[j].1 + 1 {
      StartsApart(s, windowMs, s.admitted[j].1 + 1, s.admitted[k].1);
    }
  }

  lemma {:induction false} StartsApart(s: State, windowMs: nat, a: nat, b: nat)
    requires Timed(s, windowMs) && a < b < |s.starts|
    ensures s.starts[b] >= s.starts[a] + windowMs
  {
    assert Apart(s.starts, b, windowMs);
    if a + 1 < b { StartsApart(s, windowMs, a, b - 1); }
  }

  // Everything let through in [from, to) belongs to lifetime `life` or the next one.
  ghost predicate Spans(log: seq<(int, nat)>, from: int, to: int, life: nat) {
    forall k | 0 <= k < |log| && from <= log[k].0 < to :: log[k].1 == life || log[k].1 == life + 1
  }

  lemma {:induction false} WindowWithinOneLife(log: seq<(int, nat)>, from: int, to: int, life: nat)
    requires forall k | 0 <= k < |log| && from <= log[k].0 < to :: log[k].1 == life
    ensures InWindow(log, from, to) <= InLife(log, life)
  {
    if log != [] { WindowWithinOneLife(log[..|log| - 1], from, to, life); }
  }

  // n names a request of lifetime `life` outside the window, or none (n == |log|).
  lemma {:induction false} WindowWithinTwoLives(log: seq<(int, nat)>, from: int, to: int, life: nat, n: nat)
    requires Spans(log, from, to, life) && n <= |log|
    requires n < |log| ==> log[n].1 == life && !(from <= log[n].0 < to)
    ensures InWindow(log, from, to) + (if n < |log| then 1 else 0) <= InLife(log, life) + InLife(log, life + 1)
  {
    if log != [] {
      var m := |log| - 1;
      WindowWithinTwoLives(log[..m], from, to, life, if n < m then n else m);
    }
  }

  // A window that reaches into a second lifetime misses the beginning of the first.
  lemma TwoLivesBound(s: State, max: nat, windowMs: nat, from: int, life: nat)
    requires Timed(s, windowMs) && Capped(s, max) && Opened(s, max) && life + 1 < |s.starts|
    requires s.starts[life + 1] < from + windowMs && Spans(s.admitted, from, from + windowMs, life)
    ensures InWindow(s.admitted, from, from + windowMs) <= if max == 0 then 0 else 2 * max - 1
  {
    assert Apart(s.starts, life + 1, windowMs);
    var n := |s.admitted|;
    if max >= 1 {
      assert FirstAdmitted(s, life);
      n :| 0 <= n < |s.admitted| && s.admitted[n] == (s.starts[life], life);
    }
    WindowWithinTwoLives(s.admitted, from, from + windowMs, life, n);
    assert InLife(s.admitted, life) <= max && InLife(s.admitted, life + 1) <= max;
  }

  lemma OneLifeBound(s: State, max: nat, from: int, to: int, life: nat)
    requires Logged(s) && Capped(s, max) && Spans(s.admitted, from, to, life)
    requires life + 1 < |s.starts| ==> s.starts[life + 1] >= to
    ensures InWindow(s.admitted, from, to) <= max
  {
    WindowWithinOneLife(s.admitted, from, to, life);
    assert InLife(s.admitted, life) <= max;
  }

  lemma FirstLife(s: State, windowMs: nat, from: int) returns (life: nat)
    requires Timed(s, windowMs) && Logged(s)
    ensures Spans(s.admitted, from, from + windowMs, life)
  {
    var j := FirstIn(s.admitted, from, from + windowMs);
    life := if j == |s.admitted| then 0 else s.admitted[j].1;
    forall k | 0 <= k < |s.admitted| && from <= s.admitted[k].0 < from + windowMs
      ensures s.admitted[k].1 == life || s.admitted[k].1 == life + 1
    {
      if j < k { NearMeansNeighbours(s, windowMs, j, k); }
    }
  }

  lemma StateWindowBound(s: State, max: nat, windowMs: nat, from: int)
    requires Timed(s, windowMs) && Logged(s) && Capped(s, max) && Opened(s, max)
    ensures InWindow(s.admitted, from, from + windowMs) <= if max == 0 then 0 else 2 * max - 1
  {
    var life := FirstLife(s, windowMs, from);
    if life + 1 < |s.starts| && s.starts[life + 1] < from + windowMs {
      TwoLivesBound(s, max, windowMs, from, life);
    } else {
      OneLifeBound(s, max, from, from + windowMs, life);
    }
  }

  // Any half-open interval of one window lets fewer than 2 * max requests through (none when max is
  // 0), under every interleaving of INCRs and the late PEXPIREs.
  lemma WindowBound(ss: seq<State>, ts: seq<Step>, max: nat, windowMs: nat, from: int)
    requires IsRun(ss, ts, max, windowMs)
    ensures InWindow(ss[|ts|].admitted, from, from + windowMs) <= if max == 0 then 0 else 2 * max - 1
  {
    RunsKeepTheBooks(ss, ts, |ts|, max, windowMs);
    StateWindowBound(ss[|ts|], max, windowMs, from);
  }

  // ------------------------------------------------------------------ the bound is exact

  ghost predicate Reached(s: State, max: nat, windowMs: nat) {
    exists ss, ts :: IsRun(ss, ts, max, windowMs) && ss[|ts|] == s
  }

  lemma StepIsReached(s: State, t: Step, max: nat, windowMs: nat)
    requires Reached(s, max, windowMs) && Possible(s, t)
    ensures Reached(Next(s, t, max, windowMs), max, windowMs)
  {
    var ss, ts :| IsRun(ss, ts, max, windowMs) && ss[|ts|] == s;
    var ss', ts' := ss + [Next(s, t, max, windowMs)], ts + [t];
    forall n {:trigger ts'[n]} | 0 <= n < |ts'|
      ensures Possible(ss'[n], ts'[n]) && ss'[n + 1] == Next(ss'[n], ts'[n], max, windowMs)
    {
      if n < |ts| { assert ts'[n] == ts[n]; }
    }
    assert IsRun(ss', ts', max, windowMs) && ss'[|ts'|] == Next(s, t, max, windowMs);
  }

  // n requests at once on a live key that still has room for them.
  lemma {:induction false} Burst(s: State, n: nat, max: nat, windowMs: nat, from: int) returns (t: State)
    requires Reached(s, max, windowMs) && s.starts != [] && from <= s.now < from + windowMs
    requires s.key.Some? && !Due(s.key.value, s.now) && s.key.value.count + n <= max
    ensures Reached(t, max, windowMs)
    ensures t == s.(key := Some(s.key.value.(count := s.key.value.count + n)), admitted := t.admitted)
    ensures InWindow(t.admitted, from, from + windowMs) == InWindow(s.admitted, from, from + windowMs) + n
  {
    t := s;
    if n > 0 {
      var m := Burst(s, n - 1, max, windowMs, from);
      StepIsReached(m, Incr, max, windowMs);
      t := Next(m, Incr, max, windowMs);
      assert t.admitted == m.admitted + [(s.now, |s.starts| - 1)];
      assert t.admitted[..|m.admitted|] == m.admitted;
    }
  }

  // A key whose first request came a window ago, all but the last of its quota untouched.
  lemma Opening(max: nat, windowMs: nat) returns (s: State)
    requires max >= 1 && windowMs >= 1
    ensures Reached(s, max, windowMs)
    ensures s == State(windowMs - 1, Some(Counter(1, Some(windowMs))), false, [0], [(0, 0)])
  {
    var start := State(0, None, false, [], []);
    var none: seq<Step> := [];
    assert IsRun([start], none, max, windowMs) && [start][|none|] == start;
    StepIsReached(start, Incr, max, windowMs);
    var hit := Next(start, Incr, max, windowMs);
    StepIsReached(hit, PExpire, max, windowMs);
    var armed := Next(hit, PExpire, max, windowMs);
    StepIsReached(armed, Wait(windowMs - 1), max, windowMs);
    s := Next(armed, Wait(windowMs - 1), max, windowMs);
  }

  // The rest of one quota in a window's last millisecond and the whole next quota right after it.
  lemma WindowBoundIsTight(max: nat, windowMs: nat) returns (s: State, from: int)
    requires max >= 1 && windowMs >= 2
    ensures Reached(s, max, windowMs)
    ensures InWindow(s.admitted, from, from + windowMs) == 2 * max - 1
  {
    from := windowMs - 1;
    var opening := Opening(max, windowMs);
    assert InWindow(opening.admitted, from, from + windowMs) == 0 by { assert opening.admitted[..0] == []; }
    var spent := Burst(opening, max - 1, max, windowMs, from);
    StepIsReached(spent, Wait(1), max, windowMs);
    var due := Next(spent, Wait(1), max, windowMs);
    StepIsReached(due, Incr, max, windowMs);
    var reset := Next(due, Incr, max, windowMs);
    assert reset.admitted[..|spent.admitted|] == spent.admitted;
    s := Burst(reset, max - 1, max, windowMs, from);
  }

  // Lifetimes do not meet: a request is let through strictly before the next lifetime begins.
  ghost predicate Disjoint(s: State) {
    && (forall k | 0 <= k < |s.admitted| && s.admitted[k].1 + 1 < |s.starts| ::
          s.admitted[k].0 < s.starts[s.admitted[k].1 + 1])
    && (s.key.None? || s.key.value.expiresAt.Some? ==>
          forall k | 0 <= k < |s.admitted| && s.admitted[k].1 + 1 == |s.starts| ::
            s.admitted[k].0 < if s.key.None? then s.now else s.key.value.expiresAt.value)
  }

  lemma StepKeepsDisjoint(s: State, t: Step, max: nat, windowMs: nat)
    requires windowMs >= 1 && Timed(s, windowMs) && Logged(s) && Disjoint(s) && Possible(s, t)
    ensures Disjoint(Next(s, t, max, windowMs))
  {}

  lemma {:induction false} RunsAreDisjoint(ss: seq<State>, ts: seq<Step>, n: nat, max: nat, windowMs: nat)
    requires IsRun(ss, ts, max, windowMs) && n <= |ts| && windowMs >= 1
    ensures Disjoint(ss[n])
  {
    if n > 0 {
      RunsAreDisjoint(ss, ts, n - 1, max, windowMs);
      RunsKeepTheBooks(ss, ts, n - 1, max, windowMs);
      StepKeepsDisjoint(ss[n - 1], ts[n - 1], max, windowMs);
    }
  }

  lemma SameTickSameLife(s: State, windowMs: nat, j: nat, k: nat)
    requires Timed(s, windowMs) && Logged(s) && Disjoint(s) && j < k < |s.admitted|
    requires s.admitted[j].0 == s.admitted[k].0
    ensures s.admitted[j].1 == s.admitted[k].1
  {
    if s.admitted[j].1 + 1 < s.admitted[k].1 {
      StartsApart(s, windowMs, s.admitted[j].1 + 1, s.admitted[k].1);
    }
  }

  // A window of one millisecond sees one lifetime only.
  lemma TickBound(s: State, max: nat, from: int)
    requires Timed(s, 1) && Logged(s) && Capped(s, max) && Disjoint(s)
    ensures InWindow(s.admitted, from, from + 1) <= max
  {
    var j := FirstIn(s.admitted, from, from + 1);
    var life := if j == |s.admitted| then 0 else s.admitted[j].1;
    forall k | 0 <= k < |s.admitted| && from <= s.admitted[k].0 < from + 1 ensures s.admitted[k].1 == life {
      if j < k { SameTickSameLife(s, 1, j, k); }
    }
    WindowWithinOneLife(s.admitted, from, from + 1, life);
    assert InLife(s.admitted, life) <= max;
  }

  lemma {:induction false} EmptyWindow(log: seq<(int, nat)>, from: int)
    ensures InWindow(log, from, from) == 0
  {
    if log != [] { EmptyWindow(log[..|log| - 1], from); }
  }

  predicate Overfull(s: State, max: nat, windowMs: nat, from: int) {
    InWindow(s.admitted, from, from + windowMs) > max
  }

  ghost predicate HoldsMax(max: nat, windowMs: nat) {
    forall s, from | Reached(s, max, windowMs) :: !Overfull(s, max, windowMs, from)
  }

  // What a sliding window would promise, at most max requests in every interval of one window's
  // length, holds in all runs exactly for these settings.
  lemma HoldsMaxIff(max: nat, windowMs: nat)
    ensures HoldsMax(max, windowMs) <==> max <= 1 || windowMs <= 1
  {
    if max <= 1 || windowMs <= 1 {
      forall s, from | Reached(s, max, windowMs) ensures !Overfull(s, max, windowMs, from) {
        var ss, ts :| IsRun(ss, ts, max, windowMs) && ss[|ts|] == s;
        if windowMs == 0 {
          EmptyWindow(s.admitted, from);
        } else if windowMs == 1 {
          RunsKeepTheBooks(ss, ts, |ts|, max, windowMs);
          RunsAreDisjoint(ss, ts, |ts|, max, windowMs);
          TickBound(s, max, from);
        } else {
          WindowBound(ss, ts, max, windowMs, from);
        }
      }
    } else {
      var s, from := WindowBoundIsTight(max, windowMs);
      assert Overfull(s, max, windowMs, from);
    }
  }

  lemma {:induction false} FirstIn(log: seq<(int, nat)>, from: int, to: int) returns (j: nat)
    ensures j <= |log| && (forall i | 0 <= i < j :: !(from <= log[i].0 < to))
    ensures j < |log| ==> from <= log[j].0 < to
  {
    j := 0;
    while j < |log| && !(from <= log[j].0 < to)
      invariant j <= |log| && forall i | 0 <= i < j :: !(from <= log[i].0 < to)
    {
      j := j + 1;
    }
  }
}
