// Where the transactions depart from what their documentation says of them: for each promise the
// exact condition under which a call breaks it, and a state that a run does reach in which it does.

module Departures {
  import opened Domain
  import opened Dispatch
  import opened Coherence
  import opened Lifecycle

  // ------------------------------------------------------------------ small reached worlds

  // A run has led to w: one incident, one resource and, if `served`, an ACTIVE assignment.
  ghost predicate One(w: World, st: IncidentStatus, creator: Role, served: bool, rst: ResourceStatus) {
    && Reached(w)
    && w.store.incidents == [Incident(st, 0, creator, 0, [])]
    && w.store.resources == map[0 := Resource(rst, "", 0, None)]
    && w.store.assignments == if served then [Assignment(0, 0, AssignmentStatus.Active, false)] else []
  }

  lemma Begin(creator: Role) returns (w: World)
    ensures One(w, if creator.Operator? || creator.Admin? then Approved else IncidentStatus.Pending,
                creator, false, Available)
  {
    var start := World(Store([], map[0 := Resource(Available, "", 0, None)], [], [], [], []), [], []);
    var op := OpCreateIncident(0, creator, 0, [], true);
    BeginningIsReached(start);
    StepIsReached(start, op);
    w := Step(start, op);
  }

  lemma Edit(v: World, st: IncidentStatus, creator: Role, served: bool, rst: ResourceStatus, next: IncidentStatus)
    returns (w: World)
    requires One(v, st, creator, served, rst) && next in StatusTransitions(st)
    ensures One(w, next, creator, served, rst)
  {
    StepIsReached(v, OpUpdateIncidentStatus(0, next));
    w := Step(v, OpUpdateIncidentStatus(0, next));
  }

  lemma Serve(v: World, creator: Role) returns (w: World)
    requires One(v, Approved, creator, false, Available)
    ensures One(w, Assigned, creator, true, Busy)
  {
    StepIsReached(v, OpCreateAssignment(0, 0));
    w := Step(v, OpCreateAssignment(0, 0));
  }

  function ToStatus(st: ResourceStatus): Op {
    OpUpdateResource(0, ResourceChanges(Some(st), None, None, None, false), 0, Admin, 2)
  }

  lemma Turn(v: World, st: IncidentStatus, creator: Role, served: bool, rst: ResourceStatus, next: ResourceStatus)
    returns (w: World)
    requires One(v, st, creator, served, rst)
    ensures One(w, st, creator, served, next)
  {
    StepIsReached(v, ToStatus(next));
    w := Step(v, ToStatus(next));
  }

  lemma ReachServed(st: IncidentStatus) returns (w: World)
    requires !st.Pending? && !st.Approved? && !st.Rejected?
    ensures One(w, st, Admin, true, Busy)
  {
    var v := Begin(Admin);
    w := Serve(v, Admin);
    if st.InProgress? || st.Completed? { w := Edit(w, Assigned, Admin, true, Busy, InProgress); }
    if st.Completed? { w := Edit(w, InProgress, Admin, true, Busy, IncidentStatus.Completed); }
    if st.Cancelled? { w := Edit(w, Assigned, Admin, true, Busy, IncidentStatus.Cancelled); }
  }

  // Incident 0 is served by resource 0; incident 1 waits and resource 1 is idle.
  ghost predicate Pair(w: World) {
    && Reached(w)
    && w.store.incidents == [Incident(Assigned, 0, Admin, 0, []), Incident(Approved, 0, Admin, 0, [])]
    && w.store.resources == map[0 := Resource(Busy, "", 0, None), 1 := Resource(Available, "", 0, None)]
    && w.store.assignments == [Assignment(0, 0, AssignmentStatus.Active, false)]
  }

  lemma ReachPair() returns (w: World)
    ensures Pair(w)
  {
    var v := ReachServed(Assigned);
    var incident, resource := OpCreateIncident(0, Admin, 0, [], true), OpCreateResource(1, None, "", 0, None);
    StepIsReached(v, incident);
    StepIsReached(Step(v, incident), resource);
    w := Step(Step(v, incident), resource);
  }

  lemma PairIsCoherent(w: World)
    requires Pair(w)
    ensures Coherent(w.store) && w.store.References()
  {
    StepIsReached(w, OpApproveIncident(0));
    assert w.store.assignments[0].status.Active?;
    assert w.store.ResourceTaken(0) && w.store.IncidentTaken(0);
  }

  lemma ReachUnserved(st: IncidentStatus) returns (w: World)
    ensures One(w, st, Citizen, false, Available)
  {
    w := Begin(Citizen);
    if st.Rejected? || st.Cancelled? {
      w := Edit(w, IncidentStatus.Pending, Citizen, false, Available, st);
    } else if !st.Pending? {
      w := Edit(w, IncidentStatus.Pending, Citizen, false, Available, Approved);
      if !st.Approved? {
        w := Edit(w, Approved, Citizen, false, Available, Assigned);
        if !st.Assigned? {
          w := Edit(w, Assigned, Citizen, false, Available, InProgress);
          if !st.InProgress? { w := Edit(w, InProgress, Citizen, false, Available, st); }
        }
      }
    }
  }

  lemma ReleaseTakesEdge(w: World, from: IncidentStatus, to: IncidentStatus, op: Op)
    requires One(w, from, Admin, true, Busy)
    requires if to.Approved? then from.Assigned? && op == OpCancelAssignment(0)
             else to.InProgress? && op == OpCompleteAssignment(0)
    ensures WellFormed(w) && |Step(w, op).store.incidents| == 1 && Step(w, op).store.incidents[0].status == to
  {
    StepIsReached(w, op);
  }

  lemma EditTakesEdge(w: World, from: IncidentStatus, to: IncidentStatus, op: Op)
    requires One(w, from, Citizen, false, Available) && Edge(from, to)
    requires if to.Cancelled? then op == OpCancelIncident(0, 0, Admin)
             else to in StatusTransitions(from) && op == OpUpdateIncidentStatus(0, to)
    ensures WellFormed(w) && |Step(w, op).store.incidents| == 1 && Step(w, op).store.incidents[0].status == to
  {
    StepIsReached(w, op);
  }

  // Every edge of the status graph is taken by some call in some state that a run reaches.
  lemma EveryEdgeIsTaken(from: IncidentStatus, to: IncidentStatus) returns (w: World, op: Op)
    requires Edge(from, to)
    ensures Reached(w) && WellFormed(w) && |w.store.incidents| == 1
    ensures w.store.incidents[0].status == from && Step(w, op).store.incidents[0].status == to
  {
    if (from.Assigned? && to.Approved?) || (to.InProgress? && !from.Assigned?) {
      w := ReachServed(from);
      op := if to.Approved? then OpCancelAssignment(0) else OpCompleteAssignment(0);
      ReleaseTakesEdge(w, from, to, op);
    } else {
      w := ReachUnserved(from);
      op := if to.Cancelled? then OpCancelIncident(0, 0, Admin) else OpUpdateIncidentStatus(0, to);
      EditTakesEdge(w, from, to, op);
    }
  }

  // ------------------------------------------------------------------ final statuses

  predicate Final(st: IncidentStatus) { st.Completed? || st.Cancelled? }

  // The call completes an ACTIVE assignment of incident i.
  predicate Completes(s: Store, op: Op, i: Id) {
    && op.OpCompleteAssignment? && op.a < |s.assignments|
    && s.assignments[op.a].status.Active? && s.assignments[op.a].incidentId == i
  }

  // COMPLETED and CANCELLED are final but for one call, and it writes IN_PROGRESS.
  lemma FinalMovesIff(w: World, op: Op, i: Id)
    requires WellFormed(w) && LifeInv(w.store) && i < |w.store.incidents| && Final(w.store.incidents[i].status)
    ensures i < |Step(w, op).store.incidents|
    ensures Step(w, op).store.incidents[i].status != w.store.incidents[i].status <==> Completes(w.store, op, i)
    ensures Completes(w.store, op, i) ==> Step(w, op).store.incidents[i].status.InProgress?
  {
    if !Reoptimizes(op) { ApplyMovesFinalIff(w.store, op, i); }
  }

  lemma ApplyMovesFinalIff(s: Store, op: Op, i: Id)
    requires LifeInv(s) && !Reoptimizes(op) && i < |s.incidents| && Final(s.incidents[i].status)
    ensures i < |Apply(s, op).incidents|
    ensures Apply(s, op).incidents[i].status != s.incidents[i].status <==> Completes(s, op, i)
    ensures Completes(s, op, i) ==> Apply(s, op).incidents[i].status.InProgress?
  {}

  lemma CoherentFinalIsDone(s: Store, op: Op, i: Id)
    requires Coherent(s) && i < |s.incidents| && Final(s.incidents[i].status)
    ensures !Completes(s, op, i)
  {
    assert !s.IncidentTaken(i);
  }

  // In coherent runs they are final without exception.
  lemma {:induction false} FinalIsFinalWhenBenign(ws: seq<World>, ops: seq<Op>, j: nat, k: nat, i: Id)
    requires IsRun(ws, ops) && j <= k <= |ops|
    requires forall n {:trigger ops[n]} | 0 <= n < k :: Benign(ws[n].store, ops[n])
    requires i < |ws[j].store.incidents| && Final(ws[j].store.incidents[i].status)
    ensures i < |ws[k].store.incidents| && ws[k].store.incidents[i].status == ws[j].store.incidents[i].status
  {
    if j < k {
      FinalIsFinalWhenBenign(ws, ops, j, k - 1, i);
      RunsAreWellFormed(ws, ops, k - 1);
      RunsAreCoherent(ws, ops, k - 1);
      RunsKeepLife(ws, ops, k - 1);
      FinalMovesIff(ws[k - 1], ops[k - 1], i);
      CoherentFinalIsDone(ws[k - 1].store, ops[k - 1], i);
    }
  }

  // REJECTED is final but for a cancellation by staff.
  lemma RejectedMovesIff(w: World, op: Op, i: Id)
    requires WellFormed(w) && LifeInv(w.store)
    requires i < |w.store.incidents| && w.store.incidents[i].status.Rejected?
    ensures i < |Step(w, op).store.incidents|
    ensures !Step(w, op).store.incidents[i].status.Rejected? <==>
              op.OpCancelIncident? && op.i == i && !op.role.Citizen?
  {
    if !Reoptimizes(op) { ApplyMovesRejectedIff(w.store, op, i); }
  }

  lemma ApplyMovesRejectedIff(s: Store, op: Op, i: Id)
    requires LifeInv(s) && !Reoptimizes(op) && i < |s.incidents| && s.incidents[i].status.Rejected?
    ensures i < |Apply(s, op).incidents|
    ensures !Apply(s, op).incidents[i].status.Rejected? <==> op.OpCancelIncident? && op.i == i && !op.role.Citizen?
  {}

  // ------------------------------------------------------------------ failed resources

  predicate OutOfService(st: ResourceStatus) { st.Failed? || st.Maintenance? || st.Unavailable? }

  // The call completes or cancels the ACTIVE assignment of resource r.
  predicate ReleasesResource(s: Store, op: Op, r: Id) {
    && (op.OpCompleteAssignment? || op.OpCancelAssignment?) && op.a < |s.assignments|
    && s.assignments[op.a].status.Active? && s.assignments[op.a].resourceId == r
  }

  // The call is an edit of the status of resource r.
  predicate EditsResource(s: Store, op: Op, r: Id)
    requires r in s.resources
  {
    || (op.OpUpdateResource? && op.r == r && ResourceGuard(s, r, op.changes, op.userId, op.role).None?
        && op.changes.status.Some? && op.changes.status.value != s.resources[r].status)
    || (op.OpDeactivateResource? && op.r == r && !s.resources[r].status.Unavailable?)
  }

  // A resource out of service comes back, or changes at all, exactly by an edit of its status or by
  // the release of its own assignment; a release makes it AVAILABLE.  A swap never does.
  lemma ServiceChangesIff(w: World, op: Op, r: Id)
    requires WellFormed(w) && NoPending(w.store) && r in w.store.resources
    requires OutOfService(w.store.resources[r].status)
    ensures r in Step(w, op).store.resources
    ensures Step(w, op).store.resources[r].status != w.store.resources[r].status <==>
              ReleasesResource(w.store, op, r) || EditsResource(w.store, op, r)
    ensures ReleasesResource(w.store, op, r) ==> Step(w, op).store.resources[r].status.Available?
  {
    if !Reoptimizes(op) { ApplyChangesServiceIff(w.store, op, r); }
  }

  lemma ApplyChangesServiceIff(s: Store, op: Op, r: Id)
    requires s.References() && NoPending(s) && !Reoptimizes(op) && r in s.resources
    requires OutOfService(s.resources[r].status)
    ensures r in Apply(s, op).resources
    ensures Apply(s, op).resources[r].status != s.resources[r].status <==>
              ReleasesResource(s, op, r) || EditsResource(s, op, r)
    ensures ReleasesResource(s, op, r) ==> Apply(s, op).resources[r].status.Available?
  {}

  // Over a stretch of a run without such calls it stays as it is.
  lemma {:induction false} OutOfServiceStays(ws: seq<World>, ops: seq<Op>, j: nat, k: nat, r: Id)
    requires IsRun(ws, ops) && j <= k <= |ops|
    requires r in ws[j].store.resources && OutOfService(ws[j].store.resources[r].status)
    requires forall n {:trigger ops[n]} | j <= n < k && r in ws[n].store.resources ::
               !ReleasesResource(ws[n].store, ops[n], r) && !EditsResource(ws[n].store, ops[n], r)
    ensures r in ws[k].store.resources && ws[k].store.resources[r].status == ws[j].store.resources[r].status
  {
    if j < k {
      OutOfServiceStays(ws, ops, j, k - 1, r);
      RunsKeepLife(ws, ops, k - 1);
      RunsAreWellFormed(ws, ops, k - 1);
      ServiceChangesIff(ws[k - 1], ops[k - 1], r);
    }
  }

  // What the comment in cancelAssignment promises: a BUSY resource becomes AVAILABLE, any other
  // keeps its status.
  function Promised(st: ResourceStatus): ResourceStatus { if st.Busy? then Available else st }

  // Both releases keep the promise exactly for resources that are in service: any other becomes
  // AVAILABLE all the same.
  lemma ReleaseKeepsPromiseIff(s: Store, a: Id)
    requires s.References() && a < |s.assignments| && s.assignments[a].status.Active?
    ensures var r := s.assignments[a].resourceId; var before := s.resources[r].status;
      && (CancelAssignment(s, a).store.resources[r].status == Promised(before) <==> !OutOfService(before))
      && (CompleteAssignment(s, a).store.resources[r].status == Promised(before) <==> !OutOfService(before))
      && CancelAssignment(s, a).store.resources[r].status.Available?
      && CompleteAssignment(s, a).store.resources[r].status.Available?
  {}

  // In a coherent store an assigned resource in service is BUSY.
  lemma CoherentReleaseKeepsPromiseIff(s: Store, a: Id)
    requires s.References() && Coherent(s) && a < |s.assignments| && s.assignments[a].status.Active?
    ensures var r := s.assignments[a].resourceId; var before := s.resources[r].status;
      && (CancelAssignment(s, a).store.resources[r].status == Promised(before) <==> before.Busy?)
      && (CompleteAssignment(s, a).store.resources[r].status == Promised(before) <==> before.Busy?)
  {
    ReleaseKeepsPromiseIff(s, a);
    assert s.ResourceTaken(s.assignments[a].resourceId);
  }

  // A run reaches such a state: assign, let the resource fail, and release.
  lemma ReleaseRevivesFailed(op: Op) returns (w: World)
    requires op in {OpCancelAssignment(0), OpCompleteAssignment(0)}
    ensures Reached(w) && WellFormed(w) && Coherent(w.store)
    ensures 0 in w.store.resources && w.store.resources[0].status.Failed?
    ensures 0 in Step(w, op).store.resources && Step(w, op).store.resources[0].status.Available?
  {
    var v := ReachServed(Assigned);
    w := Turn(v, Assigned, Admin, true, Busy, ResourceStatus.Failed);
    ServedIsCoherent(w, ResourceStatus.Failed);
    StepIsReached(w, op);
    assert ReleasesResource(w.store, op, 0);
    ServiceChangesIff(w, op, 0);
  }

  lemma ServedIsCoherent(w: World, rst: ResourceStatus)
    requires One(w, Assigned, Admin, true, rst) && !rst.Available?
    ensures Coherent(w.store) && w.store.ResourceTaken(0) && w.store.IncidentTaken(0)
  {
    assert w.store.assignments[0].status.Active?;
    assert w.store.ResourceTaken(0) && w.store.IncidentTaken(0);
  }

  // ------------------------------------------------------------------ coordinators' incidents

  lemma ApprovedIff(s: Store, i: Id)
    ensures ApproveIncident(s, i).result.Ok? <==>
              i < |s.incidents| && s.incidents[i].status.Pending? && s.incidents[i].creatorRole.Citizen?
  {}

  // In every state of every run a PENDING incident comes from a citizen or a coordinator.
  ghost predicate PendingCreators(s: Store) {
    forall i | 0 <= i < |s.incidents| && s.incidents[i].status.Pending? ::
      s.incidents[i].creatorRole.Citizen? || s.incidents[i].creatorRole.Coordinator?
  }

  lemma ApplyKeepsCreators(s: Store, op: Op)
    requires s.References() && !Reoptimizes(op)
    ensures var t := Apply(s, op);
      && |s.incidents| <= |t.incidents|
      && (forall i | 0 <= i < |s.incidents| :: t.incidents[i].creatorRole == s.incidents[i].creatorRole)
      && (PendingCreators(s) ==> PendingCreators(t))
  {}

  lemma {:induction false} RunsKeepPendingCreators(ws: seq<World>, ops: seq<Op>, n: nat)
    requires IsRun(ws, ops) && n <= |ops|
    ensures PendingCreators(ws[n].store)
  {
    if n > 0 {
      RunsKeepPendingCreators(ws, ops, n - 1);
      RunsAreWellFormed(ws, ops, n - 1);
      if !Reoptimizes(ops[n - 1]) { ApplyKeepsCreators(ws[n - 1].store, ops[n - 1]); }
    }
  }

  // A PENDING incident that no citizen created becomes APPROVED by one call only.
  lemma CoordinatorsApprovalIff(w: World, op: Op, i: Id)
    requires WellFormed(w) && LifeInv(w.store) && i < |w.store.incidents|
    requires w.store.incidents[i].status.Pending? && !w.store.incidents[i].creatorRole.Citizen?
    ensures i < |Step(w, op).store.incidents|
    ensures Step(w, op).store.incidents[i].status.Approved? <==> op == OpUpdateIncidentStatus(i, Approved)
    ensures Step(w, op).store.incidents[i].creatorRole == w.store.incidents[i].creatorRole
  {
    if !Reoptimizes(op) { ApplyApprovesIff(w.store, op, i); }
  }

  lemma ApplyApprovesIff(s: Store, op: Op, i: Id)
    requires LifeInv(s) && !Reoptimizes(op) && i < |s.incidents|
    requires s.incidents[i].status.Pending? && !s.incidents[i].creatorRole.Citizen?
    ensures i < |Apply(s, op).incidents|
    ensures Apply(s, op).incidents[i].status.Approved? <==> op == OpUpdateIncidentStatus(i, Approved)
    ensures Apply(s, op).incidents[i].creatorRole == s.incidents[i].creatorRole
  {}

  ghost predicate ApprovedByEdit(ops: seq<Op>, j: nat, k: nat, i: Id)
    requires j <= k <= |ops|
  {
    exists m | j <= m < k :: ops[m] == OpUpdateIncidentStatus(i, Approved)
  }

  // Over runs: until somebody edits its status to APPROVED, such an incident is PENDING, or shut
  // for good without ever having been served.
  lemma {:induction false} OnlyAnEditApproves(ws: seq<World>, ops: seq<Op>, j: nat, k: nat, i: Id)
    requires IsRun(ws, ops) && j <= k <= |ops| && i < |ws[j].store.incidents|
    requires ws[j].store.incidents[i].status.Pending? && !ws[j].store.incidents[i].creatorRole.Citizen?
    ensures i < |ws[k].store.incidents|
    ensures ApprovedByEdit(ops, j, k, i) || Shut(ws[k].store, i)
            || (ws[k].store.incidents[i].status.Pending? && !ws[k].store.incidents[i].creatorRole.Citizen?)
    ensures ws[k].store.incidents[i].status.Approved? ==> ApprovedByEdit(ops, j, k, i)
  {
    if j < k {
      OnlyAnEditApproves(ws, ops, j, k - 1, i);
      RunsAreWellFormed(ws, ops, k - 1);
      StepKeepsWellFormed(ws[k - 1], ops[k - 1]);
      if ApprovedByEdit(ops, j, k - 1, i) {
        var m :| j <= m < k - 1 && ops[m] == OpUpdateIncidentStatus(i, Approved);
        assert j <= m < k;
      } else if Shut(ws[k - 1].store, i) {
        StepKeepsShut(ws[k - 1], ops[k - 1], i);
      } else {
        RunsKeepLife(ws, ops, k - 1);
        RunsKeepLife(ws, ops, k);
        CoordinatorsApprovalIff(ws[k - 1], ops[k - 1], i);
        StepFollowsEdges(ws[k - 1], ops[k - 1], i);
        NewlyShut(ws[k - 1], ops[k - 1], i);
      }
    }
  }

  // Leaving PENDING by rejection or cancellation: never served before, nor by that call.
  lemma NewlyShut(w: World, op: Op, i: Id)
    requires WellFormed(w) && LifeInv(w.store) && i < |w.store.incidents| && w.store.incidents[i].status.Pending?
    requires i < |Step(w, op).store.incidents| && WellFormed(Step(w, op))
    ensures var st := Step(w, op).store.incidents[i].status;
      st.Rejected? || st.Cancelled? ==> Shut(Step(w, op).store, i)
  {
    if !Reoptimizes(op) {
      var t := Step(w, op).store;
      if t.incidents[i].status.Cancelled? || t.incidents[i].status.Rejected? {
        assert t.assignments == w.store.assignments;
      }
    } else if CanCommit(w, op) {
      assert PlanRefers(w.store, w.plans[op.k]);
    }
  }

  // The input: a coordinator's report waits for an approval that the endpoint refuses.
  lemma CoordinatorIsRefused() returns (w: World)
    ensures Reached(w) && |w.store.incidents| == 1
    ensures w.store.incidents[0].status.Pending? && w.store.incidents[0].creatorRole.Coordinator?
    ensures ApproveIncident(w.store, 0).result == Err(InvalidTransition)
  {
    w := Begin(Coordinator);
  }

  // ------------------------------------------------------------------ hand edits

  // Each kind of hand edit does break the agreement of the tables, in a state that a run reaches:
  // with an APPROVED incident and an idle resource ...
  lemma IdleEditBreaksCoherence(op: Op) returns (w: World)
    requires op in {OpUpdateIncidentStatus(0, Assigned), ToStatus(Busy), OpCreateResource(1, Some(Busy), "", 0, None)}
    ensures Reached(w) && WellFormed(w) && Coherent(w.store) && !Coherent(Step(w, op).store)
  {
    w := Begin(Admin);
    StepIsReached(w, op);
    assert !w.store.ResourceTaken(0) && !w.store.IncidentTaken(0);
    StepCoherentIffBenign(w, op);
  }

  // ... and with an ASSIGNED incident and its BUSY resource.
  lemma BusyEditBreaksCoherence(op: Op) returns (w: World)
    requires op in {OpUpdateIncidentStatus(0, InProgress), OpCancelIncident(0, 0, Admin), ToStatus(Available)}
    ensures Reached(w) && WellFormed(w) && Coherent(w.store) && !Coherent(Step(w, op).store)
  {
    w := ReachServed(Assigned);
    StepIsReached(w, op);
    ServedIsCoherent(w, Busy);
    StepCoherentIffBenign(w, op);
  }
}
