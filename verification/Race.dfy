// The transactions one statement at a time.  Any number of calls interleave; a read sees what is
// committed at that moment, a transaction's own writes become visible to others when it commits,
// and the two partial unique indexes decide at the insert.
//
// An insert waits while another open transaction holds one of its keys, by an insert of its own or
// by releasing the row that has the key.  Waiting for row locks is not modelled: it only removes
// schedules.

module Race {
  import opened Domain
  import opened Dispatch
  import opened Coherence

  datatype Call =
    | Create(i: Id, r: Id)
    | Swap(plan: Plan)
    | Finish(a: Id, to: AssignmentStatus)

  // What an open transaction has written so far.
  datatype Writes = Writes(
    release: Option<(Id, AssignmentStatus)>,
    freed: Option<Id>,
    insert: Option<(Id, Id)>,  // incident and resource of the new ACTIVE row
    busy: Option<Id>,
    incident: Option<(Id, IncidentStatus)>)

  const Nothing: Writes := Writes(None, None, None, None, None)

  datatype Outcome = Committed | Refused(error: Error) | Lost

  // The statement a call executes next.
  datatype Pc =
    | ReadIncident
    | ReadResource(people: int, requirements: seq<string>)
    | CheckResource
    | CheckIncident
    | ReadAssignment
    | ReadReplacement
    | Release
    | FreeOld
    | InsertRow
    | MarkBusy
    | MarkAssigned
    | Commit
    | Done(outcome: Outcome)

  datatype Proc = Proc(call: Call, pc: Pc, writes: Writes)

  datatype State = State(store: Store, procs: seq<Proc>)
  {
    predicate Conflicts(k: nat, i: Id, r: Id)
      requires k < |store.assignments|
    {
      store.assignments[k].status.Active?
      && (store.assignments[k].resourceId == r || store.assignments[k].incidentId == i)
    }

    predicate Releases(p: nat, k: nat)
      requires p < |procs|
    {
      procs[p].writes.release.Some? && procs[p].writes.release.value.0 == k
    }

    // The open transaction of call q holds one of the two keys.
    ghost predicate Holds(q: nat, i: Id, r: Id)
      requires q < |procs|
    {
      || (procs[q].writes.insert.Some?
          && (procs[q].writes.insert.value.0 == i || procs[q].writes.insert.value.1 == r))
      || (exists k | 0 <= k < |store.assignments| :: Conflicts(k, i, r) && Releases(q, k))
    }

    ghost predicate KeyHeld(p: nat, i: Id, r: Id) {
      exists q | 0 <= q < |procs| :: q != p && Holds(q, i, r)
    }

    // A committed ACTIVE row has one of the two keys and nobody is releasing it.
    ghost predicate UniqueViolation(i: Id, r: Id)
    {
      exists k | 0 <= k < |store.assignments| ::
        Conflicts(k, i, r) && forall q | 0 <= q < |procs| :: !Releases(q, k)
    }
  }

  function First(c: Call): Pc { if c.Create? then ReadIncident else ReadAssignment }

  // ------------------------------------------------------------------ commit

  function Released(s: Store, w: Writes): Store {
    if w.release.Some? && w.release.value.0 < |s.assignments| && !w.release.value.1.Active?
    then s.WithRelease(w.release.value.0, w.release.value.1) else s
  }

  function Freed(s: Store, w: Writes): Store {
    if w.freed.Some? && w.freed.value in s.resources then s.WithResource(w.freed.value, Available) else s
  }

  function Inserted(s: Store, w: Writes): Store {
    if w.insert.Some? then s.WithAssignment(w.insert.value.0, w.insert.value.1) else s
  }

  function MadeBusy(s: Store, w: Writes): Store {
    if w.busy.Some? && w.busy.value in s.resources then s.WithResource(w.busy.value, Busy) else s
  }

  function Moved(s: Store, w: Writes): Store {
    if w.incident.Some? && w.incident.value.0 < |s.incidents|
    then s.WithIncident(w.incident.value.0, w.incident.value.1) else s
  }

  function Announced(s: Store, id: Id, c: Call): Store {
    match c
    case Create(i, r) => s.WithEvent(AssignmentCreated(id, i, r))
    case Swap(p) => s.WithReoptLog(ReoptLog(p.incidentId, p.assignmentId, p.resourceId, p.replacement, true))
    case Finish(a, to) =>
      if a >= |s.assignments| then s
      else
        var row := s.assignments[a];
        s.WithEvent(if to.Completed? then AssignmentCompleted(a, row.incidentId, row.resourceId)
                    else AssignmentCancelled(a, row.incidentId, row.resourceId))
  }

  // Everything a transaction wrote, all at once.
  function Publish(s: Store, c: Call, w: Writes): Store {
    Announced(Moved(MadeBusy(Inserted(Freed(Released(s, w), w), w), w), w), |s.assignments|, c)
  }

  // ------------------------------------------------------------------ one statement

  function Refuse(p: Proc, e: Error): Proc { Proc(p.call, Done(Refused(e)), Nothing) }

  function Go(p: Proc, pc: Pc): Proc { p.(pc := pc) }

  function IncidentOf(c: Call): Id { if c.Create? then c.i else if c.Swap? then c.plan.incidentId else 0 }

  function ResourceOf(c: Call): Id {
    if c.Create? then c.r
    else if c.Swap? && c.plan.replacement.Some? then c.plan.replacement.value else 0
  }

  function StepCreate(s: Store, p: Proc): Proc
    requires p.call.Create?
  {
    var Create(i, r) := p.call;
    match p.pc
    case ReadIncident =>
      if i >= |s.incidents| then Refuse(p, NotFound)
      else if !s.incidents[i].status.Approved? then Refuse(p, IncidentNotEligible)
      else Go(p, ReadResource(s.incidents[i].affectedPeople, s.incidents[i].requirements))
    case ReadResource(people, reqs) =>
      if r !in s.resources then Refuse(p, NotFound)
      else if !s.resources[r].status.Available? then Refuse(p, ResourceNotAvailable)
      else if !TypeMatches(s.resources[r].kind, reqs) then Refuse(p, ResourceTypeMismatch)
      else if s.resources[r].capacity < people then Refuse(p, ResourceCapacityInsufficient)
      else Go(p, CheckResource)
    case CheckResource => if s.ResourceTaken(r) then Refuse(p, ResourceAlreadyAssigned) else Go(p, CheckIncident)
    case CheckIncident => if s.IncidentTaken(i) then Refuse(p, IncidentAlreadyAssigned) else Go(p, InsertRow)
    case MarkBusy => Go(p.(writes := p.writes.(busy := Some(r))), MarkAssigned)
    case MarkAssigned => Go(p.(writes := p.writes.(incident := Some((i, Assigned)))), Commit)
    case _ => p
  }

  function StepSwap(s: Store, p: Proc): Proc
    requires p.call.Swap?
  {
    var plan := p.call.plan;
    match p.pc
    case ReadAssignment =>
      if plan.assignmentId >= |s.assignments| || !s.assignments[plan.assignmentId].status.Active? then
        Refuse(p, AssignmentNotActive)
      else Go(p, ReadReplacement)
    case ReadReplacement =>
      var r := ResourceOf(p.call);
      if r !in s.resources || !s.resources[r].status.Available? then Refuse(p, ResourceNotAvailable)
      else if !TypeMatches(s.resources[r].kind, plan.requirements) then Refuse(p, ResourceTypeMismatch)
      else if s.resources[r].capacity < plan.people then Refuse(p, ResourceCapacityInsufficient)
      else Go(p, Release)
    case Release =>
      Go(p.(writes := p.writes.(release := Some((plan.assignmentId, AssignmentStatus.Cancelled)))), FreeOld)
    case FreeOld =>
      var busy := plan.resourceId in s.resources && s.resources[plan.resourceId].status.Busy?;
      Go(if busy then p.(writes := p.writes.(freed := Some(plan.resourceId))) else p, InsertRow)
    case MarkBusy => Go(p.(writes := p.writes.(busy := Some(ResourceOf(p.call)))), Commit)
    case _ => p
  }

  function StepFinish(s: Store, p: Proc): Proc
    requires p.call.Finish?
  {
    var Finish(a, to) := p.call;
    match p.pc
    case ReadAssignment =>
      if a >= |s.assignments| then Refuse(p, NotFound)
      else if to.Active? || to !in AssignmentTransitions(s.assignments[a].status) then
        Refuse(p, InvalidAssignmentState)
      else Go(p, Release)
    case Release => Go(p.(writes := p.writes.(release := Some((a, to)))), FreeOld)
    case FreeOld =>
      if a >= |s.assignments| then p
      else
        var row := s.assignments[a];
        var moved :=
          if to.Completed? then Some((row.incidentId, InProgress))
          else if row.incidentId < |s.incidents| && s.incidents[row.incidentId].status.Assigned? then
            Some((row.incidentId, Approved))
          else None;
        Go(p.(writes := p.writes.(freed := Some(row.resourceId), incident := moved)), Commit)
    case _ => p
  }

  ghost function StepInsert(s: State, k: nat): Proc
    requires k < |s.procs|
  {
    var p := s.procs[k];
    var i, r := IncidentOf(p.call), ResourceOf(p.call);
    if s.UniqueViolation(i, r) then
      Refuse(p, if p.call.Create? then ResourceAlreadyAssigned else ReoptimizationConflict)
    else Go(p.(writes := p.writes.(insert := Some((i, r)))), MarkBusy)
  }

  // A finished call does nothing more; an insert that would have to wait can not run yet.
  ghost predicate Enabled(s: State, k: nat) {
    && k < |s.procs|
    && !s.procs[k].pc.Done?
    && (s.procs[k].pc.InsertRow? ==>
          var i, r := IncidentOf(s.procs[k].call), ResourceOf(s.procs[k].call);
          s.UniqueViolation(i, r) || !s.KeyHeld(k, i, r))
  }

  ghost function Step(s: State, k: nat): State
    requires Enabled(s, k)
  {
    var p := s.procs[k];
    if p.pc.Commit? then
      State(Publish(s.store, p.call, p.writes), s.procs[k := Proc(p.call, Done(Committed), Nothing)])
    else if p.pc.InsertRow? then s.(procs := s.procs[k := StepInsert(s, k)])
    else
      var q := match p.call
        case Create(_, _) => StepCreate(s.store, p)
        case Swap(_) => StepSwap(s.store, p)
        case Finish(_, _) => StepFinish(s.store, p);
      s.(procs := s.procs[k := q])
  }

  // A transient fault rolls the transaction back; the call starts over or gives up.
  ghost function Fault(s: State, k: nat, again: bool): State
    requires k < |s.procs| && !s.procs[k].pc.Done?
  {
    var p := s.procs[k];
    s.(procs := s.procs[k := Proc(p.call, if again then First(p.call) else Done(Lost), Nothing)])
  }

  // ------------------------------------------------------------------ schedules

  datatype Turn = Runs(k: nat) | Faults(k: nat, again: bool)

  ghost predicate Possible(s: State, t: Turn) {
    match t
    case Runs(k) => Enabled(s, k)
    case Faults(k, _) => k < |s.procs| && !s.procs[k].pc.Done?
  }

  ghost function Next(s: State, t: Turn): State
    requires Possible(s, t)
  {
    match t
    case Runs(k) => Step(s, k)
    case Faults(k, again) => Fault(s, k, again)
  }

  ghost predicate IsSchedule(ss: seq<State>, ts: seq<Turn>) {
    && |ss| == |ts| + 1
    && forall n {:trigger ts[n]} | 0 <= n < |ts| :: Possible(ss[n], ts[n]) && ss[n + 1] == Next(ss[n], ts[n])
  }

  ghost predicate Fresh(s: State) {
    forall k | 0 <= k < |s.procs| :: s.procs[k].pc == First(s.procs[k].call) && s.procs[k].writes == Nothing
  }

  // ------------------------------------------------------------------ the matching

  // A key that an open insert holds belongs to no committed ACTIVE row, except one that the same
  // transaction releases, and to no other open insert.
  ghost predicate KeyIsMine(s: State, p: nat, k: nat)
    requires p < |s.procs| && k < |s.store.assignments|
  {
    s.procs[p].writes.insert.Some? ==>
      (s.Conflicts(k, s.procs[p].writes.insert.value.0, s.procs[p].writes.insert.value.1) ==> s.Releases(p, k))
  }

  ghost predicate KeysDiffer(s: State, p: nat, q: nat)
    requires p < |s.procs| && q < |s.procs|
  {
    s.procs[p].writes.insert.Some? && s.procs[q].writes.insert.Some? ==>
      && s.procs[p].writes.insert.value.0 != s.procs[q].writes.insert.value.0
      && s.procs[p].writes.insert.value.1 != s.procs[q].writes.insert.value.1
  }

  // A release never makes a row ACTIVE.
  ghost predicate ReleasesForGood(p: Proc) {
    && (p.writes.release.Some? ==> !p.writes.release.value.1.Active?)
    && (p.call.Finish? && p.pc.Release? ==> !p.call.to.Active?)
  }

  ghost predicate Guarded(s: State) {
    && Matching(s.store)
    && (forall p, k | 0 <= p < |s.procs| && 0 <= k < |s.store.assignments| :: KeyIsMine(s, p, k))
    && (forall p, q | 0 <= p < |s.procs| && 0 <= q < |s.procs| && p != q :: KeysDiffer(s, p, q))
    && (forall p | 0 <= p < |s.procs| :: ReleasesForGood(s.procs[p]))
  }

  // A statement that neither inserts nor commits keeps or clears what the transaction holds.
  lemma QuietStepKeepsGuarded(s: State, n: nat, q: Proc)
    requires Guarded(s) && n < |s.procs| && ReleasesForGood(q)
    requires q.writes.insert == None || (q.writes.insert == s.procs[n].writes.insert
               && q.writes.release == s.procs[n].writes.release)
    ensures Guarded(s.(procs := s.procs[n := q]))
  {
    var t := s.(procs := s.procs[n := q]);
    forall p, k | 0 <= p < |t.procs| && 0 <= k < |t.store.assignments| ensures KeyIsMine(t, p, k) {
      assert KeyIsMine(s, p, k);
    }
    forall p, o | 0 <= p < |t.procs| && 0 <= o < |t.procs| && p != o ensures KeysDiffer(t, p, o) {
      assert KeysDiffer(s, p, o);
    }
  }

  lemma InsertKeepsGuarded(s: State, n: nat)
    requires Guarded(s) && Enabled(s, n) && s.procs[n].pc.InsertRow?
    ensures Guarded(Step(s, n))
  {
    var t := Step(s, n);
    var i, r := IncidentOf(s.procs[n].call), ResourceOf(s.procs[n].call);
    if s.UniqueViolation(i, r) {
      QuietStepKeepsGuarded(s, n, t.procs[n]);
    } else {
      forall p, k | 0 <= p < |t.procs| && 0 <= k < |t.store.assignments| ensures KeyIsMine(t, p, k) {
        if p == n {
          if s.Conflicts(k, i, r) { InsertedKeyIsMine(s, n, k); }
        } else {
          assert KeyIsMine(s, p, k);
        }
      }
      forall p, q | 0 <= p < |t.procs| && 0 <= q < |t.procs| && p != q ensures KeysDiffer(t, p, q) {
        assert KeysDiffer(s, p, q);
        assert (p != n ==> !s.Holds(p, i, r)) && (q != n ==> !s.Holds(q, i, r));
      }
    }
  }

  lemma InsertedKeyIsMine(s: State, n: nat, k: nat)
    requires Enabled(s, n) && s.procs[n].pc.InsertRow? && k < |s.store.assignments|
    requires var i, r := IncidentOf(s.procs[n].call), ResourceOf(s.procs[n].call);
      !s.UniqueViolation(i, r) && s.Conflicts(k, i, r)
    ensures s.Releases(n, k)
  {
    var q :| 0 <= q < |s.procs| && s.Releases(q, k);
    assert q != n ==> !s.Holds(q, IncidentOf(s.procs[n].call), ResourceOf(s.procs[n].call));
  }

  // The rows after a commit: one may be released, one may be appended.
  lemma PublishedRows(s: Store, c: Call, w: Writes)
    ensures Publish(s, c, w).assignments == Inserted(Released(s, w), w).assignments
  {}

  lemma CommitKeepsGuarded(s: State, n: nat)
    requires Guarded(s) && Enabled(s, n) && s.procs[n].pc.Commit?
    ensures Guarded(Step(s, n))
  {
    var t := Step(s, n);
    var w := s.procs[n].writes;
    PublishedRows(s.store, s.procs[n].call, w);
    var last := |s.store.assignments|;
    assert ReleasesForGood(s.procs[n]);
    assert forall k | 0 <= k < last :: t.store.assignments[k].status.Active? ==>
        t.store.assignments[k] == s.store.assignments[k] && !s.Releases(n, k);
    forall k | 0 <= k < last && w.insert.Some? && t.store.assignments[k].status.Active?
      ensures t.store.assignments[k].incidentId != w.insert.value.0
      ensures t.store.assignments[k].resourceId != w.insert.value.1
    {
      assert KeyIsMine(s, n, k);
    }
    forall p, k | 0 <= p < |t.procs| && 0 <= k < |t.store.assignments| ensures KeyIsMine(t, p, k) {
      if p != n {
        assert KeysDiffer(s, p, n);
        if k < last { assert KeyIsMine(s, p, k); }
      }
    }
    forall p, q | 0 <= p < |t.procs| && 0 <= q < |t.procs| && p != q ensures KeysDiffer(t, p, q) {
      assert KeysDiffer(s, p, q);
    }
  }

  lemma StepKeepsGuarded(s: State, n: nat)
    requires Guarded(s) && Enabled(s, n) && WritesFollowPc(s.procs[n])
    ensures Guarded(Step(s, n))
  {
    assert ReleasesForGood(s.procs[n]);
    if s.procs[n].pc.Commit? {
      CommitKeepsGuarded(s, n);
    } else if s.procs[n].pc.InsertRow? {
      InsertKeepsGuarded(s, n);
    } else {
      QuietStepKeepsGuarded(s, n, Step(s, n).procs[n]);
    }
  }

  // A transaction releases before it inserts, and inserts once.
  ghost predicate WritesFollowPc(p: Proc) {
    p.writes.insert.Some? ==> p.pc.MarkBusy? || p.pc.MarkAssigned? || p.pc.Commit?
  }

  lemma StepFollowsPc(s: State, n: nat)
    requires Enabled(s, n) && WritesFollowPc(s.procs[n])
    ensures |Step(s, n).procs| == |s.procs| && WritesFollowPc(Step(s, n).procs[n])
    ensures forall k | 0 <= k < |s.procs| && k != n :: Step(s, n).procs[k] == s.procs[k]
  {}

  lemma TurnKeepsGuarded(s: State, t: Turn)
    requires Possible(s, t) && Guarded(s) && forall k | 0 <= k < |s.procs| :: WritesFollowPc(s.procs[k])
    ensures Guarded(Next(s, t)) && forall k | 0 <= k < |Next(s, t).procs| :: WritesFollowPc(Next(s, t).procs[k])
  {
    match t
    case Runs(k) =>
      StepKeepsGuarded(s, k);
      StepFollowsPc(s, k);
    case Faults(k, again) =>
      QuietStepKeepsGuarded(s, k, Next(s, t).procs[k]);
  }

  // Under every interleaving of any calls, with any faults, the ACTIVE assignments form a
  // matching: at most one per resource and one per incident.
  lemma {:induction false} EverySchedulePreservesMatching(ss: seq<State>, ts: seq<Turn>, n: nat)
    requires IsSchedule(ss, ts) && n <= |ts| && Fresh(ss[0]) && Matching(ss[0].store)
    ensures Guarded(ss[n]) && forall k | 0 <= k < |ss[n].procs| :: WritesFollowPc(ss[n].procs[k])
  {
    if n > 0 {
      EverySchedulePreservesMatching(ss, ts, n - 1);
      TurnKeepsGuarded(ss[n - 1], ts[n - 1]);
    }
  }

  // ------------------------------------------------------------------ n calls for one pair

  ghost predicate Open(p: Proc) {
    && p.writes == Nothing
    && (p.pc.ReadIncident? || p.pc.ReadResource? || p.pc.CheckResource? || p.pc.CheckIncident? || p.pc.InsertRow?)
  }

  // The one transaction that got past the indexes.
  ghost predicate Holding(p: Proc, i: Id, r: Id) {
    var inserted := Nothing.(insert := Some((i, r)));
    || (p.pc.MarkBusy? && p.writes == inserted)
    || (p.pc.MarkAssigned? && p.writes == inserted.(busy := Some(r)))
    || (p.pc.Commit? && p.writes == inserted.(busy := Some(r), incident := Some((i, Assigned))))
  }

  ghost predicate Beaten(p: Proc) {
    p.pc.Done? && p.pc.outcome.Refused? && p.pc.outcome.error.Http() == 409 && p.writes == Nothing
  }

  // Before anybody commits: the store is untouched, nobody has been refused, and at most one call
  // is past its insert.
  ghost predicate Undecided(s: State, start: Store, i: Id, r: Id) {
    && s.store == start && i < |start.incidents|
    && (forall k | 0 <= k < |s.procs| :: Open(s.procs[k]) || Holding(s.procs[k], i, r))
    && (forall k | 0 <= k < |s.procs| && s.procs[k].pc.ReadResource? ::
          s.procs[k].pc == ReadResource(start.incidents[i].affectedPeople, start.incidents[i].requirements))
    && (forall j, k | 0 <= j < k < |s.procs| :: Open(s.procs[j]) || Open(s.procs[k]))
  }

  // After: one winner, the store it left, and only losers and calls bound to lose.
  ghost predicate Decided(s: State, start: Store, i: Id, r: Id, winner: nat) {
    && s.store == CreateAssignment(start, i, r).store
    && winner < |s.procs| && s.procs[winner].pc == Done(Committed) && s.procs[winner].writes == Nothing
    && forall k | 0 <= k < |s.procs| && k != winner :: Open(s.procs[k]) || Beaten(s.procs[k])
  }

  ghost predicate Race(s: State, start: Store, i: Id, r: Id) {
    && CreateGuard(start, i, r).None?
    && (forall k | 0 <= k < |s.procs| :: s.procs[k].call == Create(i, r))
    && (Undecided(s, start, i, r) || exists w :: Decided(s, start, i, r, w))
  }

  lemma NoKeyOfMine(s: State, i: Id, r: Id)
    requires CreateGuard(s.store, i, r).None?
    ensures !s.UniqueViolation(i, r)
  {}

  lemma UndecidedStep(s: State, n: nat, start: Store, i: Id, r: Id)
    requires CreateGuard(start, i, r).None? && (forall k | 0 <= k < |s.procs| :: s.procs[k].call == Create(i, r))
    requires Undecided(s, start, i, r) && Enabled(s, n)
    ensures Undecided(Step(s, n), start, i, r) || Decided(Step(s, n), start, i, r, n)
  {
    NoKeyOfMine(s, i, r);
    var t := Step(s, n);
    if s.procs[n].pc.Commit? {
      assert Publish(s.store, s.procs[n].call, s.procs[n].writes) == CreateAssignment(start, i, r).store;
      assert forall k | 0 <= k < |s.procs| && k != n :: Open(s.procs[k]);
    } else if s.procs[n].pc.InsertRow? {
      assert !s.KeyHeld(n, i, r);
      forall k | 0 <= k < |s.procs| && k != n ensures s.procs[k].writes.insert != Some((i, r)) {
        assert !s.Holds(k, i, r);
      }
    }
  }

  lemma DecidedStep(s: State, n: nat, start: Store, i: Id, r: Id, winner: nat)
    requires CreateGuard(start, i, r).None? && (forall k | 0 <= k < |s.procs| :: s.procs[k].call == Create(i, r))
    requires Decided(s, start, i, r, winner) && Enabled(s, n)
    ensures Decided(Step(s, n), start, i, r, winner)
  {
    var last := |start.assignments|;
    assert s.store.assignments[last] == Assignment(i, r, AssignmentStatus.Active, false);
    if s.procs[n].pc.InsertRow? {
      assert s.Conflicts(last, i, r) && forall q | 0 <= q < |s.procs| :: !s.Releases(q, last);
      assert s.UniqueViolation(i, r);
    }
  }

  lemma RaceStep(s: State, n: nat, start: Store, i: Id, r: Id)
    requires Race(s, start, i, r) && Enabled(s, n)
    ensures Race(Step(s, n), start, i, r)
  {
    if Undecided(s, start, i, r) {
      UndecidedStep(s, n, start, i, r);
    } else {
      var w :| Decided(s, start, i, r, w);
      DecidedStep(s, n, start, i, r, w);
    }
  }

  lemma {:induction false} RaceRun(ss: seq<State>, ts: seq<Turn>, n: nat, i: Id, r: Id)
    requires IsSchedule(ss, ts) && n <= |ts| && Fresh(ss[0])
    requires forall t <- ts :: t.Runs?
    requires CreateGuard(ss[0].store, i, r).None?
    requires forall k | 0 <= k < |ss[0].procs| :: ss[0].procs[k].call == Create(i, r)
    ensures Race(ss[n], ss[0].store, i, r) && |ss[n].procs| == |ss[0].procs|
  {
    if n > 0 {
      RaceRun(ss, ts, n - 1, i, r);
      assert ts[n - 1].Runs?;
      RaceStep(ss[n - 1], ts[n - 1].k, ss[0].store, i, r);
    } else {
      assert Undecided(ss[0], ss[0].store, i, r);
    }
  }

  // When n >= 1 calls race for one eligible pair, no transient fault occurs and all finish, exactly
  // one commits, all others end in 409, and the store is what one atomic transaction makes of it.
  lemma ExactlyOneWins(ss: seq<State>, ts: seq<Turn>, i: Id, r: Id) returns (winner: nat)
    requires IsSchedule(ss, ts) && Fresh(ss[0]) && |ss[0].procs| >= 1
    requires forall t <- ts :: t.Runs?
    requires CreateGuard(ss[0].store, i, r).None?
    requires forall k | 0 <= k < |ss[0].procs| :: ss[0].procs[k].call == Create(i, r)
    requires var end := ss[|ts|]; forall k | 0 <= k < |end.procs| :: end.procs[k].pc.Done?
    ensures var end := ss[|ts|];
      && winner < |end.procs| == |ss[0].procs| && end.procs[winner].pc == Done(Committed)
      && end.store == CreateAssignment(ss[0].store, i, r).store
      && forall k | 0 <= k < |end.procs| && k != winner ::
           end.procs[k].pc.outcome.Refused? && end.procs[k].pc.outcome.error.Http() == 409
  {
    var end := ss[|ts|];
    RaceRun(ss, ts, |ts|, i, r);
    assert end.procs[0].pc.Done?;
    winner :| Decided(end, ss[0].store, i, r, winner);
    forall k | 0 <= k < |end.procs| && k != winner ensures Beaten(end.procs[k]) {
      assert end.procs[k].pc.Done?;
    }
  }

  lemma NobodyHolds(s: State, k: nat, i: Id, r: Id)
    requires forall q | 0 <= q < |s.procs| :: s.procs[q].writes == Nothing
    ensures !s.KeyHeld(k, i, r)
  {}

  // The race never gets stuck: as long as a call is unfinished, some call can go on ...
  lemma RaceProgress(s: State, start: Store, i: Id, r: Id, k: nat)
    requires Race(s, start, i, r) && k < |s.procs| && !s.procs[k].pc.Done?
    ensures exists n :: Enabled(s, n)
  {
    if h :| 0 <= h < |s.procs| && Holding(s.procs[h], i, r) {
      assert Enabled(s, h);
    } else {
      forall q | 0 <= q < |s.procs| ensures s.procs[q].writes == Nothing {
        assert Open(s.procs[q]) || Holding(s.procs[q], i, r) || s.procs[q].pc.Done?;
      }
      NobodyHolds(s, k, i, r);
      assert Enabled(s, k);
    }
  }

  // ... and every statement brings its call nearer to the end, so the race ends.
  function Ahead(pc: Pc): nat {
    match pc
    case ReadIncident => 8
    case ReadAssignment => 8
    case ReadResource(_, _) => 7
    case ReadReplacement => 7
    case CheckResource => 6
    case Release => 6
    case CheckIncident => 5
    case FreeOld => 5
    case InsertRow => 4
    case MarkBusy => 3
    case MarkAssigned => 2
    case Commit => 1
    case Done(_) => 0
  }

  function Total(ps: seq<Proc>): nat { if ps == [] then 0 else Ahead(ps[0].pc) + Total(ps[1..]) }

  lemma {:induction false} TotalDrops(ps: seq<Proc>, n: nat, q: Proc)
    requires n < |ps| && Ahead(q.pc) < Ahead(ps[n].pc)
    ensures Total(ps[n := q]) < Total(ps)
  {
    if n > 0 {
      TotalDrops(ps[1..], n - 1, q);
      assert ps[n := q][1..] == ps[1..][n - 1 := q];
    } else {
      assert ps[n := q][1..] == ps[1..];
    }
  }

  lemma {:induction false} TotalAtMost(ps: seq<Proc>)
    ensures Total(ps) <= 8 * |ps|
  {
    if ps != [] { TotalAtMost(ps[1..]); }
  }

  lemma {:induction false} RaceCountdown(ss: seq<State>, ts: seq<Turn>, n: nat, i: Id, r: Id)
    requires IsSchedule(ss, ts) && n <= |ts| && Fresh(ss[0])
    requires forall t <- ts :: t.Runs?
    requires CreateGuard(ss[0].store, i, r).None?
    requires forall k | 0 <= k < |ss[0].procs| :: ss[0].procs[k].call == Create(i, r)
    ensures Total(ss[n].procs) + n <= 8 * |ss[0].procs|
  {
    if n == 0 {
      TotalAtMost(ss[0].procs);
    } else {
      RaceCountdown(ss, ts, n - 1, i, r);
      RaceRun(ss, ts, n - 1, i, r);
      assert ts[n - 1].Runs?;
      CreateStepAdvances(ss[n - 1], ts[n - 1].k);
      TotalDrops(ss[n - 1].procs, ts[n - 1].k, ss[n].procs[ts[n - 1].k]);
    }
  }

  lemma CreateStepAdvances(s: State, n: nat)
    requires Enabled(s, n) && s.procs[n].call.Create?
    requires Open(s.procs[n]) || Holding(s.procs[n], s.procs[n].call.i, s.procs[n].call.r)
    ensures Step(s, n).procs == s.procs[n := Step(s, n).procs[n]]
    ensures Ahead(Step(s, n).procs[n].pc) < Ahead(s.procs[n].pc)
  {}
}
