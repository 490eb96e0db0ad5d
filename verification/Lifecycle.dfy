// The incident life cycle over all calls, hand edits included, and the books: the assignment
// events in the outbox, the decision logs and the assignment table tell the same story.

module Lifecycle {
  import opened Domain
  import opened Dispatch
  import opened Coherence

  ghost predicate NeverServed(s: Store, i: Id) {
    forall k | 0 <= k < |s.assignments| :: s.assignments[k].incidentId != i
  }

  // An ACTIVE assignment's incident is past approval; an incident that still waits for approval or
  // was refused it has never had an assignment of any kind.
  ghost predicate LifeInv(s: Store) {
    && s.References() && Matching(s) && NoPending(s)
    && (forall k | 0 <= k < |s.assignments| ::
          var st := s.incidents[s.assignments[k].incidentId].status;
          !st.Pending? && !st.Rejected? && (s.assignments[k].status.Active? ==> !st.Approved?))
  }

  lemma CancelKeepsLife(s: Store, a: Id)
    requires LifeInv(s)
    ensures LifeInv(CancelAssignment(s, a).store)
  {}

  lemma CompleteKeepsLife(s: Store, a: Id)
    requires LifeInv(s)
    ensures LifeInv(CompleteAssignment(s, a).store)
  {}

  lemma CreateKeepsLife(s: Store, i: Id, r: Id)
    requires LifeInv(s)
    ensures LifeInv(CreateAssignment(s, i, r).store)
  {}

  lemma CommitKeepsLife(s: Store, p: Plan)
    requires LifeInv(s) && PlanRefers(s, p) && p.replacement.Some?
    ensures LifeInv(CommitReopt(s, p).store)
  {
    if CommitGuard(s, p).None? {
      var mid := s.WithRelease(p.assignmentId, AssignmentStatus.Cancelled);
      TakenAfterRelease(s, mid, p.assignmentId, AssignmentStatus.Cancelled);
    }
  }

  predicate IsResourceCall(op: Op) { op.OpCreateResource? || op.OpUpdateResource? || op.OpDeactivateResource? }

  lemma ResourceCallKeepsLife(s: Store, op: Op)
    requires LifeInv(s) && IsResourceCall(op)
    ensures LifeInv(Apply(s, op))
  {
    var t := Apply(s, op);
    assert t.incidents == s.incidents && t.assignments == s.assignments;
  }

  lemma IncidentCallKeepsLife(s: Store, op: Op)
    requires LifeInv(s) && !Reoptimizes(op) && !IsResourceCall(op)
    requires !op.OpCreateAssignment? && !op.OpCompleteAssignment? && !op.OpCancelAssignment?
    ensures LifeInv(Apply(s, op))
  {
    var t := Apply(s, op);
    assert t.resources == s.resources && t.assignments == s.assignments;
  }

  lemma ApplyKeepsLife(s: Store, op: Op)
    requires LifeInv(s) && !Reoptimizes(op)
    ensures LifeInv(Apply(s, op))
  {
    if op.OpCreateAssignment? {
      CreateKeepsLife(s, op.i, op.r);
    } else if op.OpCompleteAssignment? {
      CompleteKeepsLife(s, op.a);
    } else if op.OpCancelAssignment? {
      CancelKeepsLife(s, op.a);
    } else if IsResourceCall(op) {
      ResourceCallKeepsLife(s, op);
    } else {
      IncidentCallKeepsLife(s, op);
    }
  }

  lemma StepKeepsLife(w: World, op: Op)
    requires WellFormed(w) && LifeInv(w.store)
    ensures LifeInv(Step(w, op).store)
  {
    if CanCommit(w, op) {
      CommitKeepsLife(w.store, w.plans[op.k]);
    } else if !Reoptimizes(op) {
      ApplyKeepsLife(w.store, op);
    }
  }

  // Every state of every run, with no condition on the calls.
  lemma {:induction false} RunsKeepLife(ws: seq<World>, ops: seq<Op>, n: nat)
    requires IsRun(ws, ops) && n <= |ops|
    ensures WellFormed(ws[n]) && LifeInv(ws[n].store)
  {
    if n > 0 {
      RunsKeepLife(ws, ops, n - 1);
      RunsAreWellFormed(ws, ops, n - 1);
      StepKeepsWellFormed(ws[n - 1], ops[n - 1]);
      StepKeepsLife(ws[n - 1], ops[n - 1]);
    }
  }

  // ------------------------------------------------------------------ PENDING is never re-entered

  lemma StepNeverReentersPending(w: World, op: Op, i: Id)
    requires WellFormed(w) && i < |w.store.incidents| && !w.store.incidents[i].status.Pending?
    ensures var t := Step(w, op).store; i < |t.incidents| && !t.incidents[i].status.Pending?
  {
    if !Reoptimizes(op) {
      ApplyNeverReentersPending(w.store, op, i);
    }
  }

  lemma ApplyNeverReentersPending(s: Store, op: Op, i: Id)
    requires s.References() && !Reoptimizes(op) && i < |s.incidents| && !s.incidents[i].status.Pending?
    ensures var t := Apply(s, op); i < |t.incidents| && !t.incidents[i].status.Pending?
  {}

  lemma {:induction false} PendingIsNeverReentered(ws: seq<World>, ops: seq<Op>, j: nat, k: nat, i: Id)
    requires IsRun(ws, ops) && j <= k <= |ops|
    requires i < |ws[j].store.incidents| && !ws[j].store.incidents[i].status.Pending?
    ensures i < |ws[k].store.incidents| && !ws[k].store.incidents[i].status.Pending?
  {
    if j < k {
      PendingIsNeverReentered(ws, ops, j, k - 1, i);
      RunsAreWellFormed(ws, ops, k - 1);
      StepNeverReentersPending(ws[k - 1], ops[k - 1], i);
    }
  }

  // ------------------------------------------------------------------ the status graph

  // How an incident's status can move, by whatever call.  COMPLETED and CANCELLED are not final:
  // completing a leftover assignment writes IN_PROGRESS over them.  REJECTED only goes to
  // CANCELLED.
  predicate Edge(from: IncidentStatus, to: IncidentStatus) {
    match from
    case Pending => to.Approved? || to.Rejected? || to.Cancelled?
    case Approved => to.Assigned? || to.Cancelled?
    case Rejected => to.Cancelled?
    case Assigned => to.InProgress? || to.Approved? || to.Cancelled?
    case InProgress => to.Completed? || to.Cancelled?
    case Completed => to.InProgress?
    case Cancelled => to.InProgress?
  }

  lemma ApplyFollowsEdges(s: Store, op: Op, i: Id)
    requires LifeInv(s) && !Reoptimizes(op) && i < |s.incidents|
    ensures var t := Apply(s, op);
      i < |t.incidents|
      && (t.incidents[i].status == s.incidents[i].status || Edge(s.incidents[i].status, t.incidents[i].status))
  {}

  lemma StepFollowsEdges(w: World, op: Op, i: Id)
    requires WellFormed(w) && LifeInv(w.store) && i < |w.store.incidents|
    ensures var s, t := w.store, Step(w, op).store;
      i < |t.incidents|
      && (t.incidents[i].status == s.incidents[i].status || Edge(s.incidents[i].status, t.incidents[i].status))
  {
    if !Reoptimizes(op) { ApplyFollowsEdges(w.store, op, i); }
  }

  // ------------------------------------------------------------------ REJECTED is for good

  // Refused, perhaps cancelled since, and never served.
  ghost predicate Shut(s: Store, i: Id) {
    && i < |s.incidents|
    && (s.incidents[i].status.Rejected? || s.incidents[i].status.Cancelled?)
    && NeverServed(s, i)
  }

  lemma StepKeepsShut(w: World, op: Op, i: Id)
    requires WellFormed(w) && Shut(w.store, i)
    ensures Shut(Step(w, op).store, i)
  {
    if CanCommit(w, op) {
      assert PlanRefers(w.store, w.plans[op.k]);
    } else if !Reoptimizes(op) {
      ApplyKeepsShut(w.store, op, i);
    }
  }

  lemma ApplyKeepsShut(s: Store, op: Op, i: Id)
    requires s.References() && !Reoptimizes(op) && Shut(s, i)
    ensures Shut(Apply(s, op), i)
  {}

  lemma {:induction false} ShutStaysShut(ws: seq<World>, ops: seq<Op>, j: nat, k: nat, i: Id)
    requires IsRun(ws, ops) && j <= k <= |ops| && Shut(ws[j].store, i)
    ensures Shut(ws[k].store, i)
  {
    if j < k {
      ShutStaysShut(ws, ops, j, k - 1, i);
      RunsAreWellFormed(ws, ops, k - 1);
      StepKeepsShut(ws[k - 1], ops[k - 1], i);
    }
  }

  lemma {:induction false} RunsGrow(ws: seq<World>, ops: seq<Op>, j: nat, k: nat)
    requires IsRun(ws, ops) && j <= k <= |ops|
    ensures Grows(ws[j].store, ws[k].store)
  {
    if j < k {
      RunsGrow(ws, ops, j, k - 1);
      RunsAreWellFormed(ws, ops, k - 1);
      StepKeepsWellFormed(ws[k - 1], ops[k - 1]);
    }
  }

  // An incident that is REJECTED at any point of a run has no assignment at any point of it,
  // earlier or later.
  lemma RejectedIsNeverServed(ws: seq<World>, ops: seq<Op>, j: nat, k: nat, i: Id)
    requires IsRun(ws, ops) && j <= |ops| && k <= |ops|
    requires i < |ws[j].store.incidents| && ws[j].store.incidents[i].status.Rejected?
    ensures NeverServed(ws[k].store, i)
  {
    RunsKeepLife(ws, ops, j);
    if j <= k {
      ShutStaysShut(ws, ops, j, k, i);
    } else {
      RunsGrow(ws, ops, k, j);
    }
  }

  // ------------------------------------------------------------------ the ledger

  function ActiveCount(rows: seq<Assignment>, i: Id): nat {
    if rows == [] then 0
    else ActiveCount(rows[..|rows| - 1], i)
         + if rows[|rows| - 1].status.Active? && rows[|rows| - 1].incidentId == i then 1 else 0
  }

  // What one outbox row adds to an incident's balance.
  function Weight(e: Event, i: Id): int {
    match e
    case AssignmentCreated(_, x, _) => if x == i then 1 else 0
    case AssignmentCompleted(_, x, _) => if x == i then -1 else 0
    case AssignmentCancelled(_, x, _) => if x == i then -1 else 0
    case _ => 0
  }

  // ASSIGNMENT_CREATED rows minus ASSIGNMENT_COMPLETED rows minus ASSIGNMENT_CANCELLED rows.
  function Balance(outbox: seq<Event>, i: Id): int {
    if outbox == [] then 0 else Balance(outbox[..|outbox| - 1], i) + Weight(outbox[|outbox| - 1], i)
  }

  lemma BalanceAppend(outbox: seq<Event>, e: Event, i: Id)
    ensures Balance(outbox + [e], i) == Balance(outbox, i) + Weight(e, i)
  {}

  lemma ActiveAppend(rows: seq<Assignment>, row: Assignment, i: Id)
    ensures ActiveCount(rows + [row], i)
         == ActiveCount(rows, i) + if row.status.Active? && row.incidentId == i then 1 else 0
  {}

  lemma {:induction false} ActiveRelease(rows: seq<Assignment>, a: nat, row: Assignment, i: Id)
    requires a < |rows| && rows[a].status.Active? && !row.status.Active?
    ensures ActiveCount(rows[a := row], i) == ActiveCount(rows, i) - if rows[a].incidentId == i then 1 else 0
  {
    var n := |rows| - 1;
    if a == n {
      assert rows[a := row][..n] == rows[..n];
    } else {
      ActiveRelease(rows[..n], a, row, i);
      assert rows[a := row][..n] == rows[..n][a := row];
    }
  }

  lemma {:induction false} NoneActive(rows: seq<Assignment>, i: Id)
    requires forall k | 0 <= k < |rows| :: !(rows[k].status.Active? && rows[k].incidentId == i)
    ensures ActiveCount(rows, i) == 0
  {
    if rows != [] { NoneActive(rows[..|rows| - 1], i); }
  }

  // Under the unique index the count says exactly whether the incident is taken.
  lemma {:induction false} ActiveIsZeroOrOne(s: Store, rows: seq<Assignment>, i: Id)
    requires Matching(s) && rows <= s.assignments
    ensures ActiveCount(rows, i)
         == if exists k | 0 <= k < |rows| :: rows[k].status.Active? && rows[k].incidentId == i then 1 else 0
  {
    if rows != [] {
      var n := |rows| - 1;
      if rows[n].status.Active? && rows[n].incidentId == i {
        forall k | 0 <= k < n ensures !(rows[..n][k].status.Active? && rows[..n][k].incidentId == i) {
          assert s.assignments[k] == rows[k] && s.assignments[n] == rows[n];
        }
        NoneActive(rows[..n], i);
      } else {
        ActiveIsZeroOrOne(s, rows[..n], i);
      }
    }
  }

  ghost predicate Balanced(s: Store) {
    forall i: Id {:trigger ActiveCount(s.assignments, i)} {:trigger Balance(s.outbox, i)} ::
      ActiveCount(s.assignments, i) == Balance(s.outbox, i)
  }

  lemma CreateKeepsBalance(s: Store, i: Id, r: Id)
    requires Balanced(s)
    ensures Balanced(CreateAssignment(s, i, r).store)
  {}

  lemma ReleaseKeepsBalance(s: Store, t: Store, a: Id, st: AssignmentStatus, e: Event)
    requires Balanced(s) && a < |s.assignments| && s.assignments[a].status.Active? && !st.Active?
    requires t.assignments == s.WithRelease(a, st).assignments && t.outbox == s.outbox + [e]
    requires e == AssignmentCompleted(a, s.assignments[a].incidentId, s.assignments[a].resourceId)
          || e == AssignmentCancelled(a, s.assignments[a].incidentId, s.assignments[a].resourceId)
    ensures Balanced(t)
  {
    forall x: Id ensures ActiveCount(t.assignments, x) == Balance(t.outbox, x) {
      ActiveRelease(s.assignments, a, t.assignments[a], x);
      BalanceAppend(s.outbox, e, x);
    }
  }

  // A swap cancels one and creates one for the same incident, and tells the outbox nothing.
  lemma SwapIsBalanceNeutral(s: Store, p: Plan)
    requires s.References() && Balanced(s) && PlanRefers(s, p) && p.replacement.Some?
    ensures Balanced(CommitReopt(s, p).store)
  {
    var t := CommitReopt(s, p).store;
    if CommitGuard(s, p).None? {
      var mid := s.WithRelease(p.assignmentId, AssignmentStatus.Cancelled).assignments;
      forall x: Id ensures ActiveCount(t.assignments, x) == Balance(t.outbox, x) {
        ActiveRelease(s.assignments, p.assignmentId, mid[p.assignmentId], x);
        ActiveAppend(mid, Assignment(p.incidentId, p.replacement.value, AssignmentStatus.Active, false), x);
      }
    }
  }

  // Calls on incidents and resources write outbox rows of other kinds only.
  lemma OtherEventsWeighNothing(s: Store, t: Store, es: seq<Event>)
    requires Balanced(s) && t.assignments == s.assignments && t.outbox == s.outbox + es && |es| <= 2
    requires forall e <- es, i: Id :: Weight(e, i) == 0
    ensures Balanced(t)
  {
    forall x: Id ensures ActiveCount(t.assignments, x) == Balance(t.outbox, x) {
      if |es| == 1 {
        BalanceAppend(s.outbox, es[0], x);
      } else if |es| == 2 {
        BalanceAppend(s.outbox, es[0], x);
        BalanceAppend(s.outbox + [es[0]], es[1], x);
        assert s.outbox + es == s.outbox + [es[0]] + [es[1]];
      } else {
        assert t.outbox == s.outbox;
      }
    }
  }

  lemma OtherCallKeepsBalance(s: Store, op: Op)
    requires s.References() && Balanced(s) && !Reoptimizes(op)
    requires !op.OpCreateAssignment? && !op.OpCompleteAssignment? && !op.OpCancelAssignment?
    ensures Balanced(Apply(s, op))
  {
    var t := Apply(s, op);
    var es := t.outbox[|s.outbox|..];
    assert t.outbox == s.outbox + es;
    OtherEventsWeighNothing(s, t, es);
  }

  lemma StepKeepsBalance(w: World, op: Op)
    requires WellFormed(w) && NoPending(w.store) && Balanced(w.store)
    ensures Balanced(Step(w, op).store)
  {
    var s, t := w.store, Step(w, op).store;
    if CanCommit(w, op) {
      SwapIsBalanceNeutral(s, w.plans[op.k]);
    } else if op.OpCreateAssignment? {
      CreateKeepsBalance(s, op.i, op.r);
    } else if op.OpCompleteAssignment? {
      if CompleteAssignment(s, op.a).result.Ok? {
        ReleaseKeepsBalance(s, t, op.a, AssignmentStatus.Completed, t.outbox[|s.outbox|]);
      }
    } else if op.OpCancelAssignment? {
      if CancelAssignment(s, op.a).result.Ok? {
        ReleaseKeepsBalance(s, t, op.a, AssignmentStatus.Cancelled, t.outbox[|s.outbox|]);
      }
    } else if !Reoptimizes(op) {
      OtherCallKeepsBalance(s, op);
    } else {
      assert t.assignments == s.assignments && t.outbox == s.outbox;
    }
  }

  lemma {:induction false} RunsStayBalanced(ws: seq<World>, ops: seq<Op>, n: nat)
    requires IsRun(ws, ops) && n <= |ops|
    ensures Balanced(ws[n].store)
  {
    if n > 0 {
      RunsStayBalanced(ws, ops, n - 1);
      RunsAreWellFormed(ws, ops, n - 1);
      RunsKeepLife(ws, ops, n - 1);
      StepKeepsBalance(ws[n - 1], ops[n - 1]);
    }
  }

  // The ledger closes after any sequence of calls: events account for the ACTIVE assignments of
  // every incident, and there is none or one.
  lemma LedgerConservation(ws: seq<World>, ops: seq<Op>, n: nat, i: Id)
    requires IsRun(ws, ops) && n <= |ops|
    ensures var s := ws[n].store;
      Balance(s.outbox, i) == ActiveCount(s.assignments, i) == if s.IncidentTaken(i) then 1 else 0
  {
    RunsStayBalanced(ws, ops, n);
    RunsKeepLife(ws, ops, n);
    ActiveIsZeroOrOne(ws[n].store, ws[n].store.assignments, i);
  }

  // ------------------------------------------------------------------ the audit trail

  // One decision log per assignment row, in order and with its incident and resource; a row is
  // stamped as released exactly when it is COMPLETED or CANCELLED.
  ghost predicate Audited(s: Store) {
    && |s.decisions| == |s.assignments|
    && forall k | 0 <= k < |s.assignments| ::
         && s.decisions[k] == ResourceAssignment(s.assignments[k].incidentId, s.assignments[k].resourceId)
         && (s.assignments[k].released <==> s.assignments[k].status.Completed? || s.assignments[k].status.Cancelled?)
  }

  lemma ApplyKeepsAudit(s: Store, op: Op)
    requires s.References() && Audited(s) && !Reoptimizes(op)
    ensures Audited(Apply(s, op))
  {}

  lemma StepKeepsAudit(w: World, op: Op)
    requires WellFormed(w) && Audited(w.store)
    ensures Audited(Step(w, op).store)
  {
    if !Reoptimizes(op) { ApplyKeepsAudit(w.store, op); }
  }

  lemma {:induction false} RunsAreAudited(ws: seq<World>, ops: seq<Op>, n: nat)
    requires IsRun(ws, ops) && n <= |ops|
    ensures Audited(ws[n].store)
  {
    if n > 0 {
      RunsAreAudited(ws, ops, n - 1);
      RunsAreWellFormed(ws, ops, n - 1);
      StepKeepsAudit(ws[n - 1], ops[n - 1]);
    }
  }
}
