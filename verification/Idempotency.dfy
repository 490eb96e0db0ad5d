// The idempotency middleware over a sequential trace: a request that reaches its handler is
// answered before the next one arrives, while the pruning job may run at any moment.

module Idempotency {
  import opened Domain

  // A row of the IdempotencyKey table.
  datatype Record = Record(hash: string, status: int, body: string, expiresAt: int)

  datatype Verdict =
    | Bypass
    | Replay(status: int, body: string)
    | Conflict
    | Run(key: string)

  // What String.prototype.trim strips: white space and line terminators.
  predicate IsSpace(c: char) {
    var n := c as int;
    || 9 <= n <= 13 || n == 32 || n == 0xA0 || n == 0x1680 || 0x2000 <= n <= 0x200A || n == 0x2028 || n == 0x2029
    || n == 0x202F || n == 0x205F || n == 0x3000 || n == 0xFEFF
  }

  function Trim(s: string): (t: string)
    ensures t == "" <==> forall k | 0 <= k < |s| :: IsSpace(s[k])
    ensures t != "" ==> !IsSpace(t[0]) && !IsSpace(t[|t| - 1])
    decreases |s|
  {
    if s == "" then ""
    else if IsSpace(s[0]) then Trim(s[1..])
    else if IsSpace(s[|s| - 1]) then Trim(s[..|s| - 1])
    else s
  }

  // The status that res.json sees: that of the last res.status call, 200 without one.
  function Captured(codes: seq<int>): int { if codes == [] then 200 else codes[|codes| - 1] }

  predicate IsSuccess(status: int) { 200 <= status < 300 }

  // What the middleware decides, and the table afterwards.
  function Decide(keys: map<string, Record>, header: Option<string>, hash: string, now: int): Verdict {
    if header.None? || Trim(header.value) == "" then Bypass
    else
      var key := Trim(header.value);
      if key !in keys || keys[key].expiresAt < now then Run(key)
      else if keys[key].hash != hash then Conflict
      else Replay(keys[key].status, keys[key].body)
  }

  function AfterDecision(keys: map<string, Record>, v: Verdict): map<string, Record> {
    if v.Run? then keys - {v.key} else keys
  }

  function Stored(
    keys: map<string, Record>, key: string, hash: string, status: int, body: string, expiresAt: int)
    : map<string, Record>
  {
    if IsSuccess(status) && key !in keys then keys[key := Record(hash, status, body, expiresAt)] else keys
  }

  function Unexpired(keys: map<string, Record>, now: int): map<string, Record> {
    map key | key in keys && keys[key].expiresAt >= now :: keys[key]
  }

  class KeyStore {
    var keys: map<string, Record>
    const ttlMs: nat

    constructor (ttlSeconds: nat)
      ensures keys == map[] && ttlMs == ttlSeconds * 1000
    {
      keys := map[];
      ttlMs := ttlSeconds * 1000;
    }

    method Intercept(header: Option<string>, hash: string, now: int) returns (v: Verdict)
      modifies this
      ensures v == Decide(old(keys), header, hash, now)
      ensures keys == AfterDecision(old(keys), v)
    {
      if header.None? { return Bypass; }
      var key := Trim(header.value);
      if key == "" { return Bypass; }
      if key in keys {
        var existing := keys[key];
        if existing.expiresAt < now {
          keys := keys - {key};
        } else if existing.hash != hash {
          return Conflict;
        } else {
          return Replay(existing.status, existing.body);
        }
      }
      assert keys == old(keys) - {key};
      return Run(key);
    }

    // pruneExpiredIdempotencyKeys
    method Prune(now: int) returns (count: nat)
      modifies this
      ensures keys == Unexpired(old(keys), now)
      ensures forall key :: key in keys <==> key in old(keys) && now <= old(keys)[key].expiresAt
      ensures forall key <- keys :: keys[key] == old(keys)[key]
      ensures count == |old(keys)| - |keys|
    {
      var before := |keys|;
      ghost var were := keys;
      keys := map key | key in keys && keys[key].expiresAt >= now :: keys[key];
      Fewer(were, keys);
      count := before - |keys|;
    }
  }

  // The res object of a request that runs, with its status and json methods replaced.
  class Response {
    const key: string
    const hash: string
    var capturedStatus: int
    ghost var codes: seq<int>

    ghost predicate Valid()
      reads this
    {
      capturedStatus == Captured(codes)
    }

    constructor (key: string, hash: string)
      ensures Valid() && codes == [] && this.key == key && this.hash == hash
    {
      this.key, this.hash := key, hash;
      capturedStatus, codes := 200, [];
    }

    method Status(code: int)
      requires Valid()
      modifies this
      ensures Valid() && codes == old(codes) + [code]
    {
      capturedStatus := code;
      codes := codes + [code];
    }

    // A key that is taken by now makes the insert fail, which is only logged.
    method Json(body: string, store: KeyStore, now: int)
      requires Valid()
      modifies store
      ensures store.keys == Stored(old(store.keys), key, hash, Captured(codes), body, now + store.ttlMs)
    {
      if capturedStatus >= 200 && capturedStatus < 300 {
        var expiresAt := now + store.ttlMs;
        if key !in store.keys {
          store.keys := store.keys[key := Record(hash, capturedStatus, body, expiresAt)];
        }
      }
    }
  }

  lemma Fewer(a: map<string, Record>, b: map<string, Record>)
    requires b.Keys <= a.Keys
    ensures |b| <= |a|
  {
    SubsetSize(b.Keys, a.Keys);
  }

  lemma {:induction false} SubsetSize(b: set<string>, a: set<string>)
    requires b <= a
    ensures |b| <= |a|
  {
    if b != {} {
      var x :| x in b;
      SubsetSize(b - {x}, a - {x});
    }
  }

  // ------------------------------------------------------------------ traces

  // What the keyed requests came to, in order of arrival.  Executed: the handler ran and
  // answered 2xx; Unstored: it ran and answered something else, or never called res.json.
  datatype Event =
    | Executed(key: string, hash: string, arrived: int, status: int, body: string, stored: int)
    | Unstored(key: string, hash: string, arrived: int)
    | Replayed(key: string, hash: string, arrived: int, status: int, body: string)
    | Refused(key: string, hash: string, arrived: int)

  datatype Flight = Flight(key: string, hash: string, arrived: int)

  datatype State = State(now: int, keys: map<string, Record>, flight: Option<Flight>, log: seq<Event>)

  datatype Step =
    | Wait(ms: nat)
    | Arrive(header: Option<string>, hash: string)
    | Answer(codes: seq<int>, body: string)
    | GiveUp
    | PruneJob

  predicate Possible(s: State, t: Step) {
    match t
    case Wait(_) => true
    case PruneJob => true
    case Arrive(_, _) => s.flight.None?
    case Answer(_, _) => s.flight.Some?
    case GiveUp => s.flight.Some?
  }

  function Arrived(s: State, header: Option<string>, hash: string): State {
    var v := Decide(s.keys, header, hash, s.now);
    var keys := AfterDecision(s.keys, v);
    match v
    case Bypass => s
    case Run(key) => s.(keys := keys, flight := Some(Flight(key, hash, s.now)))
    case Conflict => s.(log := s.log + [Refused(Trim(header.value), hash, s.now)])
    case Replay(status, body) => s.(log := s.log + [Replayed(Trim(header.value), hash, s.now, status, body)])
  }

  function Answered(s: State, codes: seq<int>, body: string, ttl: nat): State
    requires s.flight.Some?
  {
    var f := s.flight.value;
    var status := Captured(codes);
    State(s.now, Stored(s.keys, f.key, f.hash, status, body, s.now + ttl), None,
          s.log + [if IsSuccess(status) then Executed(f.key, f.hash, f.arrived, status, body, s.now)
                   else Unstored(f.key, f.hash, f.arrived)])
  }

  function Next(s: State, t: Step, ttl: nat): State
    requires Possible(s, t)
  {
    match t
    case Wait(ms) => s.(now := s.now + ms)
    case Arrive(header, hash) => Arrived(s, header, hash)
    case Answer(codes, body) => Answered(s, codes, body, ttl)
    case GiveUp =>
      var f := s.flight.value;
      s.(flight := None, log := s.log + [Unstored(f.key, f.hash, f.arrived)])
    case PruneJob => s.(keys := Unexpired(s.keys, s.now))
  }

  ghost predicate IsRun(ss: seq<State>, ts: seq<Step>, ttl: nat) {
    && |ss| == |ts| + 1
    && ss[0].keys == map[] && ss[0].flight.None? && ss[0].log == []
    && forall n {:trigger ts[n]} | 0 <= n < |ts| :: Possible(ss[n], ts[n]) && ss[n + 1] == Next(ss[n], ts[n], ttl)
  }

  function RecordOf(e: Event, ttl: nat): Record
    requires e.Executed?
  {
    Record(e.hash, e.status, e.body, e.stored + ttl)
  }

  // e is a stored response that still counts at `now`.
  predicate Current(e: Event, key: string, now: int, ttl: nat) {
    e.Executed? && e.key == key && now <= e.stored + ttl
  }

  // The answer that a stored response e calls for: the same response for the same request, a
  // conflict for another one.
  predicate Repeats(e: Event, later: Event)
    requires e.Executed?
  {
    if later.hash == e.hash then later == Replayed(e.key, e.hash, later.arrived, e.status, e.body)
    else later == Refused(e.key, later.hash, later.arrived)
  }

  // While a response is current, every request under its key repeats it and none runs the handler.
  ghost predicate Respected(log: seq<Event>, ttl: nat) {
    forall i, j | 0 <= i < j < |log| && Current(log[i], log[j].key, log[j].arrived, ttl) :: Repeats(log[i], log[j])
  }

  // Nothing but a current response keeps a request from running.
  ghost predicate Earned(log: seq<Event>, ttl: nat) {
    forall j | 0 <= j < |log| && (log[j].Replayed? || log[j].Refused?) :: HasCause(log, j, ttl)
  }

  ghost predicate HasCause(log: seq<Event>, j: nat, ttl: nat)
    requires j < |log|
  {
    exists i | 0 <= i < j :: Current(log[i], log[j].key, log[j].arrived, ttl)
  }

  ghost predicate Backed(log: seq<Event>, key: string, r: Record, ttl: nat) {
    exists i | 0 <= i < |log| :: log[i].Executed? && log[i].key == key && r == RecordOf(log[i], ttl)
  }

  lemma BackedGrows(log: seq<Event>, e: Event, key: string, r: Record, ttl: nat)
    requires Backed(log, key, r, ttl)
    ensures Backed(log + [e], key, r, ttl)
  {
    var i :| 0 <= i < |log| && log[i].Executed? && log[i].key == key && r == RecordOf(log[i], ttl);
    assert (log + [e])[i] == log[i];
  }

  // The table against the log.
  ghost predicate Faithful(s: State, ttl: nat) {
    && (forall i | 0 <= i < |s.log| && s.log[i].Executed? && s.log[i].stored + ttl >= s.now ::
          s.log[i].key in s.keys && s.keys[s.log[i].key] == RecordOf(s.log[i], ttl))
    && (forall key | key in s.keys :: Backed(s.log, key, s.keys[key], ttl))
  }

  ghost predicate Airborne(s: State, ttl: nat) {
    s.flight.Some? ==>
      && s.flight.value.key !in s.keys
      && s.flight.value.arrived <= s.now
      && forall i | 0 <= i < |s.log| :: !Current(s.log[i], s.flight.value.key, s.flight.value.arrived, ttl)
  }

  ghost predicate Sound(s: State, ttl: nat) {
    Faithful(s, ttl) && Airborne(s, ttl) && Respected(s.log, ttl) && Earned(s.log, ttl)
  }

  // Appending to the log what is not an execution.
  lemma FaithfulGrows(s: State, n: State, ttl: nat)
    requires Faithful(s, ttl) && n.now == s.now && n.keys == s.keys
    requires exists e: Event :: !e.Executed? && n.log == s.log + [e]
    ensures Faithful(n, ttl)
  {
    forall key | key in n.keys ensures Backed(n.log, key, n.keys[key], ttl) {
      BackedGrows(s.log, n.log[|s.log|], key, n.keys[key], ttl);
    }
  }

  lemma LogGrows(log: seq<Event>, e: Event, ttl: nat)
    requires Respected(log, ttl) && Earned(log, ttl)
    requires forall i | 0 <= i < |log| && Current(log[i], e.key, e.arrived, ttl) :: Repeats(log[i], e)
    requires e.Replayed? || e.Refused? ==> exists i | 0 <= i < |log| :: Current(log[i], e.key, e.arrived, ttl)
    ensures Respected(log + [e], ttl) && Earned(log + [e], ttl)
  {
    var all := log + [e];
    forall j | 0 <= j < |all| && (all[j].Replayed? || all[j].Refused?) ensures HasCause(all, j, ttl) {
      if j < |log| {
        assert HasCause(log, j, ttl);
        var i :| 0 <= i < j && Current(log[i], log[j].key, log[j].arrived, ttl);
        assert Current(all[i], all[j].key, all[j].arrived, ttl);
      } else {
        var i :| 0 <= i < |log| && Current(log[i], e.key, e.arrived, ttl);
        assert Current(all[i], all[j].key, all[j].arrived, ttl);
      }
    }
  }

  lemma TakeoffKeepsSound(s: State, header: Option<string>, hash: string, ttl: nat)
    requires Sound(s, ttl) && s.flight.None? && Decide(s.keys, header, hash, s.now).Run?
    ensures Sound(Arrived(s, header, hash), ttl)
  {}

  lemma RepeatKeepsSound(s: State, header: Option<string>, hash: string, ttl: nat)
    requires Sound(s, ttl) && s.flight.None?
    requires Decide(s.keys, header, hash, s.now).Conflict? || Decide(s.keys, header, hash, s.now).Replay?
    ensures Sound(Arrived(s, header, hash), ttl)
  {
    var n := Arrived(s, header, hash);
    var key := Trim(header.value);
    assert Backed(s.log, key, s.keys[key], ttl);
    var i :| 0 <= i < |s.log| && s.log[i].Executed? && s.log[i].key == key && s.keys[key] == RecordOf(s.log[i], ttl);
    assert Current(s.log[i], key, s.now, ttl);
    LogGrows(s.log, n.log[|s.log|], ttl);
    FaithfulGrows(s, n, ttl);
  }

  lemma AnswerKeepsSound(s: State, codes: seq<int>, body: string, ttl: nat)
    requires Sound(s, ttl) && s.flight.Some?
    ensures Sound(Answered(s, codes, body, ttl), ttl)
  {
    var n := Answered(s, codes, body, ttl);
    var e := n.log[|s.log|];
    LogGrows(s.log, e, ttl);
    forall key | key in n.keys ensures Backed(n.log, key, n.keys[key], ttl) {
      if key in s.keys {
        BackedGrows(s.log, e, key, n.keys[key], ttl);
      } else {
        assert e.Executed? && e.key == key;
      }
    }
  }

  lemma StepKeepsSound(s: State, t: Step, ttl: nat)
    requires Sound(s, ttl) && Possible(s, t)
    ensures Sound(Next(s, t, ttl), ttl)
  {
    if t.Arrive? {
      var v := Decide(s.keys, t.header, t.hash, s.now);
      if v.Run? {
        TakeoffKeepsSound(s, t.header, t.hash, ttl);
      } else if v.Conflict? || v.Replay? {
        RepeatKeepsSound(s, t.header, t.hash, ttl);
      }
    } else if t.Answer? {
      AnswerKeepsSound(s, t.codes, t.body, ttl);
    } else if t.GiveUp? {
      LogGrows(s.log, Next(s, t, ttl).log[|s.log|], ttl);
      FaithfulGrows(s, Next(s, t, ttl), ttl);
    }
  }

  lemma {:induction false} RunsAreSound(ss: seq<State>, ts: seq<Step>, n: nat, ttl: nat)
    requires IsRun(ss, ts, ttl) && n <= |ts|
    ensures Sound(ss[n], ttl)
  {
    if n > 0 {
      RunsAreSound(ss, ts, n - 1, ttl);
      StepKeepsSound(ss[n - 1], ts[n - 1], ttl);
    }
  }

  // Two successful executions under one key are more than the TTL apart, and every request under
  // that key that arrives within the TTL of the first repeats its response or is refused.
  lemma AtMostOncePerTtl(ss: seq<State>, ts: seq<Step>, ttl: nat, i: nat, j: nat)
    requires IsRun(ss, ts, ttl)
    requires i < j < |ss[|ts|].log|
    requires ss[|ts|].log[i].Executed? && ss[|ts|].log[j].key == ss[|ts|].log[i].key
    ensures var first, later := ss[|ts|].log[i], ss[|ts|].log[j];
            && (later.arrived <= first.stored + ttl ==> Repeats(first, later))
            && (later.Executed? || later.Unstored? ==> later.arrived > first.stored + ttl)
  {
    RunsAreSound(ss, ts, |ts|, ttl);
  }

  // A keyed request runs its handler if and only if no response under its key is current,
  // whatever the pruning job did in between.
  lemma RunsIffNothingCurrent(ss: seq<State>, ts: seq<Step>, ttl: nat, header: string, hash: string)
    requires IsRun(ss, ts, ttl) && ss[|ts|].flight.None? && Trim(header) != ""
    ensures var s := ss[|ts|];
            Decide(s.keys, Some(header), hash, s.now).Run? <==>
              !exists i | 0 <= i < |s.log| :: Current(s.log[i], Trim(header), s.now, ttl)
  {
    RunsAreSound(ss, ts, |ts|, ttl);
    var s := ss[|ts|];
    var key := Trim(header);
    if key in s.keys && s.keys[key].expiresAt >= s.now {
      assert Backed(s.log, key, s.keys[key], ttl);
      var i :| 0 <= i < |s.log| && s.log[i].Executed? && s.log[i].key == key && s.keys[key] == RecordOf(s.log[i], ttl);
      assert Current(s.log[i], key, s.now, ttl);
    }
  }

  // ------------------------------------------------------------------ what a header and a request come to

  // White space and line terminators, one by one.
  const WHITE: string :=
    "\t\n\U{0B}\U{0C}\r \U{A0}\U{1680}\U{2000}\U{2001}\U{2002}\U{2003}\U{2004}\U{2005}\U{2006}\U{2007}\U{2008}"
    + "\U{2009}\U{200A}\U{2028}\U{2029}\U{202F}\U{205F}\U{3000}\U{FEFF}"

  lemma SpaceIsWhite(c: char)
    ensures IsSpace(c) <==> c in WHITE
  {}

  // t is what s holds from i to j; the rest is white, and t neither begins nor ends so.
  ghost predicate IsMiddle(s: string, t: string, i: nat, j: nat) {
    && i <= j <= |s| && t == s[i..j]
    && (forall k | 0 <= k < |s| && (k < i || j <= k) :: IsSpace(s[k]))
    && (i < j ==> !IsSpace(s[i]) && !IsSpace(s[j - 1]))
  }

  lemma MiddleOfTail(s: string, t: string, i: nat, j: nat)
    requires s != "" && IsSpace(s[0]) && IsMiddle(s[1..], t, i, j)
    ensures IsMiddle(s, t, i + 1, j + 1)
  {
    forall k | 1 <= k < |s| && (k < i + 1 || j + 1 <= k) ensures IsSpace(s[k]) {
      assert s[k] == s[1..][k - 1];
    }
  }

  lemma MiddleOfFront(s: string, t: string, i: nat, j: nat)
    requires s != "" && IsSpace(s[|s| - 1]) && IsMiddle(s[..|s| - 1], t, i, j)
    ensures IsMiddle(s, t, i, j)
  {
    forall k | 0 <= k < |s| - 1 && (k < i || j <= k) ensures IsSpace(s[k]) {
      assert s[k] == s[..|s| - 1][k];
    }
  }

  // The key is the header without the white space at its two ends, and nothing else is missing.
  lemma {:induction false} TrimIsMiddle(s: string) returns (i: nat, j: nat)
    ensures IsMiddle(s, Trim(s), i, j)
    decreases |s|
  {
    if s == "" {
      i, j := 0, 0;
    } else if IsSpace(s[0]) {
      i, j := TrimIsMiddle(s[1..]);
      MiddleOfTail(s, Trim(s), i, j);
      i, j := i + 1, j + 1;
    } else if IsSpace(s[|s| - 1]) {
      i, j := TrimIsMiddle(s[..|s| - 1]);
      MiddleOfFront(s, Trim(s), i, j);
    } else {
      i, j := 0, |s|;
    }
  }

  // The next request under a key whose handler has run: it repeats the answer exactly if that was
  // 2xx and at most a TTL ago, is refused for another request, and runs the handler otherwise.
  lemma NextRequest(
    s: State, header: string, hash: string, d: nat, codes: seq<int>, body: string, ms: nat,
    again: string, hash': string, ttl: nat)
    requires s.flight.None? && Decide(s.keys, Some(header), hash, s.now).Run? && Trim(again) == Trim(header)
    ensures var running := Next(Next(s, Arrive(Some(header), hash), ttl), Wait(d), ttl);
      && running.flight.Some?
      && var later := Next(Next(running, Answer(codes, body), ttl), Wait(ms), ttl);
      var status := if codes == [] then 200 else codes[|codes| - 1];
      Decide(later.keys, Some(again), hash', later.now) ==
        if status < 200 || status > 299 || ms > ttl then Run(Trim(header))
        else if hash' == hash then Replay(status, body)
        else Conflict
  {}
}
