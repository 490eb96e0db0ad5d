// What overlapping transactions do to the ledger and to finished assignments.  completeAssignment,
// cancelAssignment and the swap check that their row is ACTIVE when they read it, not when they
// write it.  Here is exactly when that matters.

module Overlap {
  import opened Domain
  import opened Dispatch
  import opened Coherence
  import opened Lifecycle
  import opened Race
  import Departures

  predicate Finished(row: Assignment) { row.status.Completed? || row.status.Cancelled? }

  // A finished row has its release stamp, and no row is PENDING.
  ghost predicate Stamped(s: Store) {
    forall k | 0 <= k < |s.assignments| ::
      s.assignments[k].status.Active? || (Finished(s.assignments[k]) && s.assignments[k].released)
  }

  // What a call has written when it is about to execute the statement at its pc.
  ghost predicate Shaped(s: Store, p: Proc) {
    match p.call
    case Create(i, r) =>
      p.writes.release.None? && (p.pc.Commit? ==> p.writes.insert == Some((i, r)))
      && !p.pc.Release? && !p.pc.FreeOld?
    case Swap(plan) =>
      && PlanRefers(s, plan)
      && (p.writes.release.Some? ==> p.writes.release.value == (plan.assignmentId, AssignmentStatus.Cancelled))
      && (p.pc.FreeOld? || p.pc.InsertRow? || p.pc.MarkBusy? || p.pc.Commit? ==> p.writes.release.Some?)
      && (p.pc.Commit? ==> p.writes.insert == Some((plan.incidentId, ResourceOf(p.call))))
      && (p.pc.MarkBusy? ==> p.writes.insert == Some((plan.incidentId, ResourceOf(p.call))))
    case Finish(a, to) =>
      && p.writes.insert.None?
      && (p.writes.release.Some? ==> p.writes.release.value == (a, to))
      && (p.pc.Release? || p.pc.FreeOld? || p.pc.Commit? ==>
            a < |s.assignments| && (to.Completed? || to.Cancelled?))
      && (p.pc.FreeOld? || p.pc.Commit? ==> p.writes.release.Some?)
      && !p.pc.InsertRow? && !p.pc.MarkBusy?
  }

  ghost predicate CreateShaped(p: Proc) {
    p.call.Create? && (p.pc.MarkBusy? || p.pc.MarkAssigned?) ==> p.writes.insert == Some((p.call.i, p.call.r))
  }

  ghost predicate Ordered(s: State) {
    && Stamped(s.store)
    && forall p | 0 <= p < |s.procs| :: Shaped(s.store, s.procs[p]) && CreateShaped(s.procs[p])
  }

  // The rows only grow, and keep their incidents and resources.
  ghost predicate RowsGrow(s: Store, t: Store) {
    && |s.assignments| <= |t.assignments|
    && forall k | 0 <= k < |s.assignments| ::
         t.assignments[k].incidentId == s.assignments[k].incidentId
         && t.assignments[k].resourceId == s.assignments[k].resourceId
  }

  // The commit of call n releases a row that is not ACTIVE any more.
  ghost predicate Stale(s: State, n: nat) {
    && n < |s.procs| && s.procs[n].pc.Commit? && s.procs[n].writes.release.Some?
    && s.procs[n].writes.release.value.0 < |s.store.assignments|
    && !s.store.assignments[s.procs[n].writes.release.value.0].status.Active?
  }

  lemma PublishGrows(s: Store, c: Call, w: Writes)
    ensures RowsGrow(s, Publish(s, c, w))
  {
    PublishedRows(s, c, w);
  }

  lemma ShapeSurvives(s: Store, t: Store, p: Proc)
    requires Shaped(s, p) && RowsGrow(s, t)
    ensures Shaped(t, p)
  {}

  lemma CommitKeepsOrdered(s: State, n: nat)
    requires Ordered(s) && Enabled(s, n) && s.procs[n].pc.Commit?
    ensures Ordered(Race.Step(s, n)) && RowsGrow(s.store, Race.Step(s, n).store)
  {
    var t := Race.Step(s, n);
    var me := s.procs[n];
    PublishGrows(s.store, me.call, me.writes);
    PublishedRows(s.store, me.call, me.writes);
    forall p | 0 <= p < |t.procs| ensures Shaped(t.store, t.procs[p]) && CreateShaped(t.procs[p]) {
      if p == n { assert Shaped(s.store, me); }
      ShapeSurvives(s.store, t.store, s.procs[p]);
    }
  }

  lemma StatementKeepsShape(s: State, n: nat)
    requires Ordered(s) && Enabled(s, n) && !s.procs[n].pc.Commit?
    ensures Race.Step(s, n).store == s.store && Race.Step(s, n).procs == s.procs[n := Race.Step(s, n).procs[n]]
    ensures Shaped(s.store, Race.Step(s, n).procs[n]) && CreateShaped(Race.Step(s, n).procs[n])
  {
    assert Shaped(s.store, s.procs[n]) && CreateShaped(s.procs[n]);
  }

  lemma TurnKeepsOrdered(s: State, t: Turn)
    requires Ordered(s) && Race.Possible(s, t)
    ensures Ordered(Next(s, t)) && RowsGrow(s.store, Next(s, t).store)
  {
    if t.Runs? {
      if s.procs[t.k].pc.Commit? {
        CommitKeepsOrdered(s, t.k);
      } else {
        StatementKeepsShape(s, t.k);
      }
    } else {
      assert Shaped(s.store, s.procs[t.k]);
    }
  }

  // ------------------------------------------------------------------ the ledger

  lemma {:induction false} ActiveUnchanged(rows: seq<Assignment>, a: nat, row: Assignment, i: Id)
    requires a < |rows| && !rows[a].status.Active? && !row.status.Active?
    ensures ActiveCount(rows[a := row], i) == ActiveCount(rows, i)
  {
    var n := |rows| - 1;
    if a == n {
      assert rows[a := row][..n] == rows[..n];
    } else {
      ActiveUnchanged(rows[..n], a, row, i);
      assert rows[a := row][..n] == rows[..n][a := row];
    }
  }

  // By how much a commit moves Active - Balance of incident i.
  ghost function Drift(s: State, n: nat, i: Id): int
    requires Ordered(s) && Enabled(s, n) && s.procs[n].pc.Commit?
  {
    if !Stale(s, n) then 0
    else if s.store.assignments[s.procs[n].writes.release.value.0].incidentId == i then 1 else 0
  }

  lemma RowsDrift(s: Store, w: Writes, i: Id)
    requires w.release.Some? ==> w.release.value.0 < |s.assignments| && !w.release.value.1.Active?
    ensures ActiveCount(Inserted(Released(s, w), w).assignments, i)
         == ActiveCount(s.assignments, i)
            - (if w.release.Some? && s.assignments[w.release.value.0].status.Active?
                  && s.assignments[w.release.value.0].incidentId == i then 1 else 0)
            + if w.insert.Some? && w.insert.value.0 == i then 1 else 0
  {
    var mid := Released(s, w).assignments;
    if w.release.Some? {
      var a := w.release.value.0;
      if s.assignments[a].status.Active? {
        ActiveRelease(s.assignments, a, mid[a], i);
      } else {
        ActiveUnchanged(s.assignments, a, mid[a], i);
      }
    }
    if w.insert.Some? {
      ActiveAppend(mid, Assignment(w.insert.value.0, w.insert.value.1, AssignmentStatus.Active, false), i);
    }
  }

  lemma CommitDrift(s: State, n: nat, i: Id)
    requires Ordered(s) && Enabled(s, n) && s.procs[n].pc.Commit?
    ensures var t := Race.Step(s, n).store;
      ActiveCount(t.assignments, i) - Balance(t.outbox, i)
      == ActiveCount(s.store.assignments, i) - Balance(s.store.outbox, i) + Drift(s, n, i)
  {
    var me := s.procs[n];
    assert Shaped(s.store, me);
    PublishedRows(s.store, me.call, me.writes);
    PublishedEvents(s.store, me.call, me.writes);
    RowsDrift(s.store, me.writes, i);
    if !me.call.Swap? { BalanceAppend(s.store.outbox, Race.Step(s, n).store.outbox[|s.store.outbox|], i); }
  }

  lemma PublishedEvents(s: Store, c: Call, w: Writes)
    requires c.Finish? ==> c.a < |s.assignments|
    ensures Publish(s, c, w).outbox == s.outbox + match c
      case Create(i, r) => [AssignmentCreated(|s.assignments|, i, r)]
      case Swap(_) => []
      case Finish(a, to) =>
        [if to.Completed? then AssignmentCompleted(a, s.assignments[a].incidentId, s.assignments[a].resourceId)
         else AssignmentCancelled(a, s.assignments[a].incidentId, s.assignments[a].resourceId)]
  {
    PublishedRows(s, c, w);
    PublishGrowsBefore(s, w);
  }

  lemma PublishGrowsBefore(s: Store, w: Writes)
    ensures var t := Moved(MadeBusy(Inserted(Freed(Released(s, w), w), w), w), w);
      RowsGrow(s, t) && t.outbox == s.outbox
  {}

  // A turn keeps the ledger balanced if and only if it is not the commit of a stale release.
  lemma LedgerKeptIff(s: State, t: Turn)
    requires Ordered(s) && Balanced(s.store) && Race.Possible(s, t)
    ensures Balanced(Next(s, t).store) <==> !(t.Runs? && Stale(s, t.k))
  {
    if t.Runs? && s.procs[t.k].pc.Commit? {
      forall i: Id
        ensures ActiveCount(Next(s, t).store.assignments, i) - Balance(Next(s, t).store.outbox, i) == Drift(s, t.k, i)
      {
        CommitDrift(s, t.k, i);
      }
      if Stale(s, t.k) {
        var i := s.store.assignments[s.procs[t.k].writes.release.value.0].incidentId;
        assert ActiveCount(Next(s, t).store.assignments, i) != Balance(Next(s, t).store.outbox, i);
      }
    } else if t.Runs? {
      StatementKeepsShape(s, t.k);
    }
  }

  // ------------------------------------------------------------------ finished rows

  ghost predicate KeepsFinished(s: Store, t: Store) {
    && |s.assignments| <= |t.assignments|
    && forall k | 0 <= k < |s.assignments| && Finished(s.assignments[k]) :: t.assignments[k] == s.assignments[k]
  }

  // A turn changes no finished row if and only if it is not the commit of a stale release with the
  // other final status.
  lemma FinishedKeptIff(s: State, t: Turn)
    requires Ordered(s) && Race.Possible(s, t)
    ensures KeepsFinished(s.store, Next(s, t).store) <==>
              !(t.Runs? && Stale(s, t.k)
                && s.store.assignments[s.procs[t.k].writes.release.value.0].status
                   != s.procs[t.k].writes.release.value.1)
  {
    if t.Runs? && s.procs[t.k].pc.Commit? {
      var me := s.procs[t.k];
      assert Shaped(s.store, me);
      PublishedRows(s.store, me.call, me.writes);
      if Stale(s, t.k) { assert Finished(s.store.assignments[me.writes.release.value.0]); }
    } else if t.Runs? {
      StatementKeepsShape(s, t.k);
    }
  }

  // ------------------------------------------------------------------ schedules

  // Calls that have not begun, swaps of existing rows, and a store as atomic calls leave it.
  ghost predicate Starts(s: State) {
    && Race.Fresh(s) && Stamped(s.store) && Balanced(s.store)
    && forall p | 0 <= p < |s.procs| && s.procs[p].call.Swap? :: PlanRefers(s.store, s.procs[p].call.plan)
  }

  lemma {:induction false} SchedulesAreOrdered(ss: seq<State>, ts: seq<Turn>, n: nat)
    requires IsSchedule(ss, ts) && n <= |ts| && Starts(ss[0])
    ensures Ordered(ss[n]) && |ss[n].procs| == |ss[0].procs|
  {
    if n > 0 {
      SchedulesAreOrdered(ss, ts, n - 1);
      assert ss[n] == Next(ss[n - 1], ts[n - 1]);
      TurnKeepsOrdered(ss[n - 1], ts[n - 1]);
    } else {
      forall p | 0 <= p < |ss[0].procs| ensures Shaped(ss[0].store, ss[0].procs[p]) && CreateShaped(ss[0].procs[p]) {}
    }
  }

  lemma TurnKeepsBooks(first: Store, s: State, t: Turn)
    requires Ordered(s) && Balanced(s.store) && Race.Possible(s, t) && !(t.Runs? && Stale(s, t.k))
    requires KeepsFinished(first, s.store)
    ensures Balanced(Next(s, t).store) && KeepsFinished(first, Next(s, t).store)
  {
    LedgerKeptIff(s, t);
    FinishedKeptIff(s, t);
  }

  // Whatever overlaps, as long as no stale release is committed the books stay balanced and
  // finished assignments stay as they are.
  lemma {:induction false} SchedulesKeepTheBooks(ss: seq<State>, ts: seq<Turn>, n: nat)
    requires IsSchedule(ss, ts) && n <= |ts| && Starts(ss[0])
    requires forall m {:trigger ts[m]} | 0 <= m < n :: !(ts[m].Runs? && Stale(ss[m], ts[m].k))
    ensures Balanced(ss[n].store) && KeepsFinished(ss[0].store, ss[n].store)
  {
    if n > 0 {
      SchedulesKeepTheBooks(ss, ts, n - 1);
      SchedulesAreOrdered(ss, ts, n - 1);
      TurnKeepsBooks(ss[0].store, ss[n - 1], ts[n - 1]);
    }
  }

  // ------------------------------------------------------------------ when a release is stale

  // The transaction has read row a as ACTIVE and is not over.
  predicate HasRead(p: Proc, a: Id) {
    || (p.call.Finish? && p.call.a == a && (p.pc.Release? || p.pc.FreeOld? || p.pc.Commit?))
    || (p.call.Swap? && p.call.plan.assignmentId == a
        && (p.pc.ReadReplacement? || p.pc.Release? || p.pc.FreeOld? || p.pc.InsertRow? || p.pc.MarkBusy?
            || p.pc.Commit?))
  }

  // Turn t commits a release of row a by a call other than k.
  predicate CommitsRelease(s: State, t: Turn, a: Id, k: nat) {
    && t.Runs? && t.k != k && t.k < |s.procs| && s.procs[t.k].pc.Commit?
    && s.procs[t.k].writes.release.Some? && s.procs[t.k].writes.release.value.0 == a
  }

  ghost predicate Overtaken(ss: seq<State>, ts: seq<Turn>, n: nat, a: Id, k: nat)
    requires n <= |ts| && |ss| == |ts| + 1
  {
    exists m | 0 <= m < n :: CommitsRelease(ss[m], ts[m], a, k)
  }

  // One turn: what it reads is ACTIVE, and only a committed release ends that.
  lemma TurnKeepsReading(s: State, t: Turn, a: Id, k: nat)
    requires Ordered(s) && Race.Possible(s, t) && k < |s.procs|
    requires k < |Next(s, t).procs| && HasRead(Next(s, t).procs[k], a)
    requires HasRead(s.procs[k], a) ==> a < |s.store.assignments|
    ensures a < |Next(s, t).store.assignments|
    ensures HasRead(s.procs[k], a) || Next(s, t).store.assignments[a].status.Active?
    ensures a < |s.store.assignments| && s.store.assignments[a].status.Active? && !CommitsRelease(s, t, a, k) ==>
              Next(s, t).store.assignments[a].status.Active?
  {
    TurnKeepsOrdered(s, t);
    if t.Runs? {
      var me := s.procs[t.k];
      assert Shaped(s.store, me);
      if me.pc.Commit? {
        PublishedRows(s.store, me.call, me.writes);
      } else {
        StatementKeepsShape(s, t.k);
      }
    }
  }

  lemma {:induction false} ReadOrOvertaken(ss: seq<State>, ts: seq<Turn>, n: nat, a: Id, k: nat)
    requires IsSchedule(ss, ts) && n <= |ts| && Starts(ss[0])
    requires k < |ss[n].procs| && HasRead(ss[n].procs[k], a)
    ensures a < |ss[n].store.assignments|
    ensures ss[n].store.assignments[a].status.Active? || Overtaken(ss, ts, n, a, k)
  {
    if n > 0 {
      SchedulesAreOrdered(ss, ts, n);
      SchedulesAreOrdered(ss, ts, n - 1);
      var s, t := ss[n - 1], ts[n - 1];
      assert ss[n] == Next(s, t);
      if HasRead(s.procs[k], a) { ReadOrOvertaken(ss, ts, n - 1, a, k); }
      TurnKeepsReading(s, t, a, k);
      if Overtaken(ss, ts, n - 1, a, k) {
        var m :| 0 <= m < n - 1 && CommitsRelease(ss[m], ts[m], a, k);
        assert m < n;
      }
    }
  }

  lemma TurnKeepsReleased(s: State, t: Turn, a: Id, k: nat)
    requires Ordered(s) && Race.Possible(s, t) && a < |s.store.assignments|
    requires !s.store.assignments[a].status.Active? || CommitsRelease(s, t, a, k)
    ensures a < |Next(s, t).store.assignments| && !Next(s, t).store.assignments[a].status.Active?
  {
    TurnKeepsOrdered(s, t);
    if t.Runs? {
      var me := s.procs[t.k];
      assert Shaped(s.store, me);
      if me.pc.Commit? {
        PublishedRows(s.store, me.call, me.writes);
      } else {
        StatementKeepsShape(s, t.k);
      }
    }
  }

  lemma {:induction false} OvertakenIsReleased(ss: seq<State>, ts: seq<Turn>, m: nat, n: nat, a: Id, k: nat)
    requires IsSchedule(ss, ts) && m < n <= |ts| && Starts(ss[0]) && CommitsRelease(ss[m], ts[m], a, k)
    ensures a < |ss[n].store.assignments| && !ss[n].store.assignments[a].status.Active?
  {
    SchedulesAreOrdered(ss, ts, n - 1);
    assert ss[n] == Next(ss[n - 1], ts[n - 1]);
    if m + 1 < n {
      OvertakenIsReleased(ss, ts, m, n - 1, a, k);
    } else {
      assert Shaped(ss[m].store, ss[m].procs[ts[m].k]);
    }
    TurnKeepsReleased(ss[n - 1], ts[n - 1], a, k);
  }

  // A commit is stale if and only if another call has committed a release of the same row: both had
  // read it ACTIVE before either wrote.
  lemma StaleIffOvertaken(ss: seq<State>, ts: seq<Turn>, n: nat, k: nat)
    requires IsSchedule(ss, ts) && n <= |ts| && Starts(ss[0])
    requires k < |ss[n].procs| && ss[n].procs[k].pc.Commit? && ss[n].procs[k].writes.release.Some?
    ensures Stale(ss[n], k) <==> Overtaken(ss, ts, n, ss[n].procs[k].writes.release.value.0, k)
  {
    SchedulesAreOrdered(ss, ts, n);
    var me := ss[n].procs[k];
    var a := me.writes.release.value.0;
    assert Shaped(ss[n].store, me) && HasRead(me, a);
    ReadOrOvertaken(ss, ts, n, a, k);
    if Overtaken(ss, ts, n, a, k) {
      var m :| 0 <= m < n && CommitsRelease(ss[m], ts[m], a, k);
      OvertakenIsReleased(ss, ts, m, n, a, k);
    }
  }

  // ------------------------------------------------------------------ the input

  ghost predicate Scheduled(start: State, s: State) {
    exists ss, ts :: IsSchedule(ss, ts) && ss[0] == start && ss[|ts|] == s
  }

  lemma TurnIsScheduled(start: State, s: State, t: Turn)
    requires Scheduled(start, s) && Race.Possible(s, t)
    ensures Scheduled(start, Next(s, t))
  {
    var ss, ts :| IsSchedule(ss, ts) && ss[0] == start && ss[|ts|] == s;
    var ss', ts' := ss + [Next(s, t)], ts + [t];
    forall n {:trigger ts'[n]} | 0 <= n < |ts'|
      ensures Race.Possible(ss'[n], ts'[n]) && ss'[n + 1] == Next(ss'[n], ts'[n])
    {
      if n < |ts| { assert ts'[n] == ts[n]; }
    }
    assert IsSchedule(ss', ts') && ss'[0] == start && ss'[|ts'|] == Next(s, t);
  }

  lemma ScheduledIsOrdered(start: State, s: State)
    requires Scheduled(start, s) && Starts(start)
    ensures Ordered(s)
  {
    var ss, ts :| IsSchedule(ss, ts) && ss[0] == start && ss[|ts|] == s;
    SchedulesAreOrdered(ss, ts, |ts|);
  }

  // Two calls that are about to finish assignment 0.
  function TwoCalls(s: Store, to: AssignmentStatus, to': AssignmentStatus): State {
    State(s, [Proc(Finish(0, to), ReadAssignment, Nothing), Proc(Finish(0, to'), ReadAssignment, Nothing)])
  }

  lemma TwoCallsStart(w: World, to: AssignmentStatus, to': AssignmentStatus)
    requires Reached(w) && w.store.assignments == [Assignment(0, 0, AssignmentStatus.Active, false)]
    ensures Starts(TwoCalls(w.store, to, to'))
    ensures Scheduled(TwoCalls(w.store, to, to'), TwoCalls(w.store, to, to'))
  {
    var start := TwoCalls(w.store, to, to');
    var none: seq<Turn> := [];
    assert IsSchedule([start], none) && [start][|none|] == start;
    var ws, ops :| IsRun(ws, ops) && ws[|ops|] == w;
    RunsStayBalanced(ws, ops, |ops|);
  }

  lemma Reads(start: State, s: State, k: nat, to: AssignmentStatus) returns (t: State)
    requires Scheduled(start, s) && (to.Completed? || to.Cancelled?) && k < |s.procs|
    requires s.procs[k] == Proc(Finish(0, to), ReadAssignment, Nothing)
    requires |s.store.assignments| == 1 && s.store.assignments[0].status.Active?
    ensures Scheduled(start, t) && t == s.(procs := s.procs[k := Proc(Finish(0, to), Release, Nothing)])
  {
    TurnIsScheduled(start, s, Runs(k));
    t := Next(s, Runs(k));
  }

  lemma WritesRow(start: State, s: State, k: nat, to: AssignmentStatus) returns (t: State)
    requires Scheduled(start, s) && k < |s.procs| && |s.store.assignments| == 1
    requires s.procs[k] == Proc(Finish(0, to), Release, Nothing)
    ensures Scheduled(start, t) && k < |t.procs| && t == s.(procs := s.procs[k := t.procs[k]])
    ensures t.procs[k].call == Finish(0, to) && t.procs[k].pc.Commit?
    ensures t.procs[k].writes.release == Some((0, to)) && t.procs[k].writes.insert.None?
  {
    TurnIsScheduled(start, s, Runs(k));
    var released := Next(s, Runs(k));
    TurnIsScheduled(start, released, Runs(k));
    t := Next(released, Runs(k));
  }

  lemma Commits(start: State, s: State, k: nat, to: AssignmentStatus) returns (t: State)
    requires Starts(start) && Scheduled(start, s) && k < |s.procs| && |s.store.assignments| == 1
    requires s.procs[k].call == Finish(0, to) && s.procs[k].pc.Commit?
    requires s.procs[k].writes.release == Some((0, to)) && s.procs[k].writes.insert.None?
    requires s.store.assignments[0].status.Active? && Balanced(s.store)
    ensures Scheduled(start, t) && t == Next(s, Runs(k))
    ensures k < |t.procs| && t.procs == s.procs[k := t.procs[k]]
    ensures |t.store.assignments| == 1 && t.store.assignments[0].status == to && Balanced(t.store)
  {
    ScheduledIsOrdered(start, s);
    assert Shaped(s.store, s.procs[k]);
    TurnIsScheduled(start, s, Runs(k));
    t := Next(s, Runs(k));
    LedgerKeptIff(s, Runs(k));
    PublishedRows(s.store, s.procs[k].call, s.procs[k].writes);
  }

  lemma SecondIsLate(start: State, to: AssignmentStatus, to': AssignmentStatus) returns (s: State)
    requires (to.Completed? || to.Cancelled?) && (to'.Completed? || to'.Cancelled?)
    requires Starts(start) && Scheduled(start, start) && start == TwoCalls(start.store, to, to')
    requires |start.store.assignments| == 1 && start.store.assignments[0].status.Active?
    ensures Scheduled(start, s) && Balanced(s.store) && Stale(s, 1)
    ensures s.store.assignments[0].status == to && s.procs[1].writes.release == Some((0, to'))
  {
    s := Reads(start, start, 0, to);
    s := Reads(start, s, 1, to');
    s := WritesRow(start, s, 0, to);
    s := Commits(start, s, 0, to);
    s := WritesRow(start, s, 1, to');
  }

  // In a store that atomic calls reach, both calls read the row ACTIVE; the first writes and
  // commits; then, with no lock in its way any more, the second writes and commits too.  The ledger
  // counts two endings for one assignment, and the first final status is lost if the second is
  // another one.
  lemma OverlapBreaksTheBooks(to: AssignmentStatus, to': AssignmentStatus)
    returns (w: World, start: State, s: State)
    requires (to.Completed? || to.Cancelled?) && (to'.Completed? || to'.Cancelled?)
    ensures Reached(w) && start == TwoCalls(w.store, to, to')
    ensures Starts(start) && Scheduled(start, s) && Race.Possible(s, Runs(1)) && Balanced(s.store)
    ensures !Balanced(Next(s, Runs(1)).store)
    ensures to != to' ==> !KeepsFinished(s.store, Next(s, Runs(1)).store)
  {
    w := Departures.ReachServed(Assigned);
    start := TwoCalls(w.store, to, to');
    TwoCallsStart(w, to, to');
    s := SecondIsLate(start, to, to');
    ScheduledIsOrdered(start, s);
    LedgerKeptIff(s, Runs(1));
    FinishedKeptIff(s, Runs(1));
  }
}
