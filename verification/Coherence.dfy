// The three tables agree with each other, whatever sequence of calls is made: a resource is BUSY
// only for its one ACTIVE assignment, an AVAILABLE one has none, and an incident is ASSIGNED
// exactly while it has one.

module Coherence {
  import opened Domain
  import opened Dispatch

  // The two partial unique indexes.
  ghost predicate Matching(s: Store) {
    forall j, k | 0 <= j < |s.assignments| && 0 <= k < |s.assignments|
                  && s.assignments[j].status.Active? && s.assignments[k].status.Active? && j != k ::
      && s.assignments[j].resourceId != s.assignments[k].resourceId
      && s.assignments[j].incidentId != s.assignments[k].incidentId
  }

  ghost predicate ResourcesAgree(s: Store) {
    forall r <- s.resources ::
      && (s.resources[r].status.Busy? ==> s.ResourceTaken(r))
      && (s.resources[r].status.Available? ==> !s.ResourceTaken(r))
  }

  ghost predicate IncidentsAgree(s: Store) {
    forall i | 0 <= i < |s.incidents| :: s.incidents[i].status.Assigned? <==> s.IncidentTaken(i)
  }

  ghost predicate Coherent(s: Store) {
    Matching(s) && ResourcesAgree(s) && IncidentsAgree(s)
  }

  // ------------------------------------------------------------------ who is taken

  lemma TakenAfterAppend(s: Store, t: Store, i: Id, r: Id)
    requires t.assignments == s.assignments + [Assignment(i, r, AssignmentStatus.Active, false)]
    ensures forall x :: t.ResourceTaken(x) <==> s.ResourceTaken(x) || x == r
    ensures forall x :: t.IncidentTaken(x) <==> s.IncidentTaken(x) || x == i
  {
    var n := |s.assignments|;
    assert t.assignments[n] == Assignment(i, r, AssignmentStatus.Active, false);
    forall x ensures s.ResourceTaken(x) ==> t.ResourceTaken(x) {
      if s.ResourceTaken(x) {
        var k :| 0 <= k < n && s.assignments[k].status.Active? && s.assignments[k].resourceId == x;
        assert t.assignments[k] == s.assignments[k];
      }
    }
    forall x ensures s.IncidentTaken(x) ==> t.IncidentTaken(x) {
      if s.IncidentTaken(x) {
        var k :| 0 <= k < n && s.assignments[k].status.Active? && s.assignments[k].incidentId == x;
        assert t.assignments[k] == s.assignments[k];
      }
    }
  }

  lemma TakenAfterRelease(s: Store, t: Store, a: Id, st: AssignmentStatus)
    requires Matching(s) && a < |s.assignments| && s.assignments[a].status.Active? && !st.Active?
    requires t.assignments == s.assignments[a := s.assignments[a].(status := st, released := true)]
    ensures forall x :: t.ResourceTaken(x) <==> s.ResourceTaken(x) && x != s.assignments[a].resourceId
    ensures forall x :: t.IncidentTaken(x) <==> s.IncidentTaken(x) && x != s.assignments[a].incidentId
    ensures Matching(t)
  {
    forall x ensures s.ResourceTaken(x) && x != s.assignments[a].resourceId ==> t.ResourceTaken(x) {
      if s.ResourceTaken(x) && x != s.assignments[a].resourceId {
        var k :| 0 <= k < |s.assignments| && s.assignments[k].status.Active? && s.assignments[k].resourceId == x;
        assert t.assignments[k] == s.assignments[k];
      }
    }
    forall x ensures s.IncidentTaken(x) && x != s.assignments[a].incidentId ==> t.IncidentTaken(x) {
      if s.IncidentTaken(x) && x != s.assignments[a].incidentId {
        var k :| 0 <= k < |s.assignments| && s.assignments[k].status.Active? && s.assignments[k].incidentId == x;
        assert t.assignments[k] == s.assignments[k];
      }
    }
  }

  lemma TakenDependsOnAssignments(s: Store, t: Store)
    requires t.assignments == s.assignments
    ensures forall x :: t.ResourceTaken(x) == s.ResourceTaken(x)
    ensures forall x :: t.IncidentTaken(x) == s.IncidentTaken(x)
  {}

  // ------------------------------------------------------------------ one lemma per call

  lemma CreateKeepsCoherent(s: Store, i: Id, r: Id)
    requires s.References() && Coherent(s)
    ensures Coherent(CreateAssignment(s, i, r).store)
  {
    if CreateGuard(s, i, r).None? {
      TakenAfterAppend(s, CreateAssignment(s, i, r).store, i, r);
    }
  }

  lemma CompleteKeepsCoherent(s: Store, a: Id)
    requires s.References() && Coherent(s)
    ensures Coherent(CompleteAssignment(s, a).store)
  {
    if a < |s.assignments| && s.assignments[a].status.Active? {
      TakenAfterRelease(s, CompleteAssignment(s, a).store, a, AssignmentStatus.Completed);
    }
  }

  // No assignment is ever PENDING, so a cancelled one was ACTIVE.
  ghost predicate NoPending(s: Store) {
    forall k | 0 <= k < |s.assignments| :: !s.assignments[k].status.Pending?
  }

  lemma CancelKeepsCoherent(s: Store, a: Id)
    requires s.References() && Coherent(s) && NoPending(s)
    ensures Coherent(CancelAssignment(s, a).store)
  {
    if a < |s.assignments| && s.assignments[a].status.Active? {
      TakenAfterRelease(s, CancelAssignment(s, a).store, a, AssignmentStatus.Cancelled);
      assert s.IncidentTaken(s.assignments[a].incidentId);
    }
  }

  lemma CommitKeepsCoherent(s: Store, p: Plan)
    requires s.References() && Coherent(s) && PlanRefers(s, p) && p.replacement.Some?
    ensures Coherent(CommitReopt(s, p).store)
  {
    if CommitGuard(s, p).None? {
      var mid := s.WithRelease(p.assignmentId, AssignmentStatus.Cancelled);
      TakenAfterRelease(s, mid, p.assignmentId, AssignmentStatus.Cancelled);
      TakenAfterAppend(mid, CommitReopt(s, p).store, p.incidentId, p.replacement.value);
      assert s.IncidentTaken(p.incidentId);
    }
  }

  // The hand edits that break the agreement, each decided by what the caller can read before the
  // call: moving an ASSIGNED incident away from ASSIGNED or an APPROVED one to it, cancelling an
  // ASSIGNED incident, making an assigned resource AVAILABLE or an unassigned one BUSY, creating a
  // BUSY one.
  ghost predicate Benign(s: Store, op: Op) {
    match op
    case OpUpdateIncidentStatus(i, next) =>
      i < |s.incidents| && next in StatusTransitions(s.incidents[i].status) ==>
        !s.incidents[i].status.Assigned? && !next.Assigned?
    case OpCancelIncident(i, _, role) =>
      i < |s.incidents| && !role.Citizen? ==> !s.incidents[i].status.Assigned?
    case OpCreateResource(r, initial, _, _, _) => r !in s.resources ==> initial != Some(Busy)
    case OpUpdateResource(r, c, u, role, _) =>
      ResourceGuard(s, r, c, u, role).None? && c.status.Some? ==>
        if s.ResourceTaken(r) then !c.status.value.Available? else !c.status.value.Busy?
    case _ => true
  }

  lemma StatusWrite(s: Store, i: Id, st: IncidentStatus)
    requires Coherent(s) && i < |s.incidents| && s.incidents[i].status != st
    ensures Coherent(s.WithIncident(i, st)) <==> !s.incidents[i].status.Assigned? && !st.Assigned?
  {
    var t := s.WithIncident(i, st);
    TakenDependsOnAssignments(s, t);
    assert t.incidents[i].status == st;
  }

  lemma ResourceWrite(s: Store, t: Store, r: Id, row: Resource)
    requires Coherent(s) && r in s.resources
    requires t.assignments == s.assignments && t.incidents == s.incidents && t.resources == s.resources[r := row]
    ensures Coherent(t) <==> if s.ResourceTaken(r) then !row.status.Available? else !row.status.Busy?
  {
    TakenDependsOnAssignments(s, t);
    assert t.resources[r] == row;
  }

  // A new resource has no assignment: rows refer to existing resources only.
  lemma ResourceAdded(s: Store, t: Store, r: Id, row: Resource)
    requires s.References() && Coherent(s) && r !in s.resources
    requires t.assignments == s.assignments && t.incidents == s.incidents && t.resources == s.resources[r := row]
    ensures Coherent(t) <==> !row.status.Busy?
  {
    TakenDependsOnAssignments(s, t);
    assert t.resources[r] == row && !s.ResourceTaken(r);
  }

  lemma IncidentAdded(s: Store, t: Store, row: Incident)
    requires s.References() && Coherent(s) && !row.status.Assigned?
    requires t.assignments == s.assignments && t.resources == s.resources && t.incidents == s.incidents + [row]
    ensures Coherent(t)
  {}

  lemma ResourceCallCoherentIffBenign(s: Store, op: Op)
    requires s.References() && Coherent(s)
    requires op.OpCreateResource? || op.OpUpdateResource? || op.OpDeactivateResource?
    ensures Coherent(Apply(s, op)) <==> Benign(s, op)
  {
    var t := Apply(s, op);
    match op
    case OpCreateResource(r, initial, kind, capacity, operator) =>
      if r !in s.resources { ResourceAdded(s, t, r, t.resources[r]); }
    case OpUpdateResource(r, c, u, role, writes) =>
      if ResourceGuard(s, r, c, u, role).None? { ResourceWrite(s, t, r, Changed(s.resources[r], c)); }
    case OpDeactivateResource(r) =>
      if r in s.resources { ResourceWrite(s, t, r, s.resources[r].(status := Unavailable)); }
  }

  // A call other than a re-optimization keeps the tables coherent exactly when it is benign.
  lemma ApplyCoherentIffBenign(s: Store, op: Op)
    requires s.References() && Coherent(s) && NoPending(s) && !Reoptimizes(op)
    ensures Coherent(Apply(s, op)) <==> Benign(s, op)
  {
    var t := Apply(s, op);
    match op
    case OpCreateIncident(u, role, people, reqs, told) =>
      IncidentAdded(s, t, t.incidents[|s.incidents|]);
    case OpEditIncident(i, people, reqs, u, role, told) =>
      TakenDependsOnAssignments(s, t);
    case OpCancelIncident(i, u, role) =>
      if CancelIncident(s, i, u, role).result.Ok? && !s.incidents[i].status.Cancelled? {
        StatusWrite(s, i, IncidentStatus.Cancelled);
      }
    case OpApproveIncident(i) =>
      if ApproveIncident(s, i).result.Ok? { StatusWrite(s, i, Approved); }
    case OpRejectIncident(i) =>
      if RejectIncident(s, i).result.Ok? { StatusWrite(s, i, Rejected); }
    case OpUpdateIncidentStatus(i, next) =>
      if UpdateIncidentStatus(s, i, next).result.Ok? { StatusWrite(s, i, next); }
    case OpCreateAssignment(i, r) =>
      CreateKeepsCoherent(s, i, r);
    case OpCompleteAssignment(a) =>
      CompleteKeepsCoherent(s, a);
    case OpCancelAssignment(a) =>
      CancelKeepsCoherent(s, a);
    case _ =>
      ResourceCallCoherentIffBenign(s, op);
  }

  // The exact condition, for every call and every coherent world.
  lemma StepCoherentIffBenign(w: World, op: Op)
    requires WellFormed(w) && Coherent(w.store) && NoPending(w.store)
    ensures Coherent(Step(w, op).store) <==> Benign(w.store, op)
  {
    if op.OpLoadReopt? || CanPlan(w, op) {
      TakenDependsOnAssignments(w.store, Step(w, op).store);
    } else if CanCommit(w, op) {
      CommitKeepsCoherent(w.store, w.plans[op.k]);
    } else if !Reoptimizes(op) {
      ApplyCoherentIffBenign(w.store, op);
    }
  }

  lemma StepKeepsNoPending(w: World, op: Op)
    requires WellFormed(w) && NoPending(w.store)
    ensures NoPending(Step(w, op).store)
  {
    if !Reoptimizes(op) {
      ApplyKeepsNoPending(w.store, op);
    }
  }

  lemma ApplyKeepsNoPending(s: Store, op: Op)
    requires s.References() && NoPending(s) && !Reoptimizes(op)
    ensures NoPending(Apply(s, op))
  {}

  // Whole runs: with benign hand edits only, every state of every run is coherent, whatever
  // creations, completions, cancellations, stale swaps and resource failures it contains.
  lemma {:induction false} RunsAreCoherent(ws: seq<World>, ops: seq<Op>, n: nat)
    requires IsRun(ws, ops) && n <= |ops|
    requires forall k | 0 <= k < n :: Benign(ws[k].store, ops[k])
    ensures WellFormed(ws[n]) && NoPending(ws[n].store) && Coherent(ws[n].store)
  {
    if n > 0 {
      RunsAreCoherent(ws, ops, n - 1);
      RunsAreWellFormed(ws, ops, n - 1);
      StepKeepsWellFormed(ws[n - 1], ops[n - 1]);
      StepKeepsNoPending(ws[n - 1], ops[n - 1]);
      StepCoherentIffBenign(ws[n - 1], ops[n - 1]);
    }
  }
}
