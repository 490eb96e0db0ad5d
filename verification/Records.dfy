// Who changes what: each column of an incident or a resource moves by the calls that may move it and
// by no others, and the outbox tells the story of every assignment.

module Records {
  import opened Domain
  import opened Dispatch
  import opened Coherence
  import opened Lifecycle
  import opened Swaps

  // ------------------------------------------------------------------ incidents

  // The user may edit the incident.
  ghost predicate MayEdit(row: Incident, userId: Id, role: Role) {
    match role
    case Admin => true
    case Coordinator => true
    case Operator => false
    case Citizen => row.createdBy == userId && row.status.Pending?
  }

  ghost predicate MayCancel(row: Incident, userId: Id, role: Role) {
    if role.Citizen? then row.createdBy == userId && row.status.Pending?
    else row.status in {IncidentStatus.Pending, Approved, Rejected, Assigned, InProgress}
  }

  // An edit, a cancellation and a status edit go through exactly for these users and statuses, and
  // are refused with 404 exactly for a missing incident.
  lemma IncidentCallsIff(
    s: Store, i: Id, people: Option<int>, reqs: Option<seq<string>>, userId: Id, role: Role, next: IncidentStatus)
    ensures var t := EditIncident(s, i, people, reqs, userId, role, true);
      && (t.result.Ok? <==> i < |s.incidents| && MayEdit(s.incidents[i], userId, role))
      && (t.result.Err? ==> t.store == s && t.result.error.Http() == if i < |s.incidents| then 403 else 404)
    ensures var t := CancelIncident(s, i, userId, role);
      && (t.result.Ok? <==> i < |s.incidents| && MayCancel(s.incidents[i], userId, role))
      && (t.result.Err? ==>
            t.store == s
            && t.result.error.Http() == if i >= |s.incidents| then 404 else if role.Citizen? then 403 else 400)
    ensures var t := UpdateIncidentStatus(s, i, next);
      && (t.result.Ok? <==> i < |s.incidents| && (s.incidents[i].status, next) in DOCUMENTED)
      && (t.result.Err? ==> t.store == s && t.result.error.Http() == if i < |s.incidents| then 400 else 404)
  {}

  // The documented moves.
  const DOCUMENTED: set<(IncidentStatus, IncidentStatus)> := {
    (IncidentStatus.Pending, Approved), (IncidentStatus.Pending, Rejected),
    (IncidentStatus.Pending, IncidentStatus.Cancelled),
    (Approved, Assigned), (Approved, IncidentStatus.Cancelled),
    (Assigned, InProgress), (Assigned, IncidentStatus.Cancelled),
    (InProgress, IncidentStatus.Completed), (InProgress, IncidentStatus.Cancelled)
  }

  // The columns of incident i after a call that finds them like this.
  ghost predicate ColumnsMove(was: Incident, now: Incident, op: Op, i: Id) {
    var edited := op.OpEditIncident? && op.i == i && MayEdit(was, op.userId, op.role);
    && now.createdBy == was.createdBy && now.creatorRole == was.creatorRole
    && now.affectedPeople ==
         (if edited && op.newPeople.Some? then op.newPeople.value else was.affectedPeople)
    && now.requirements ==
         (if edited && op.newReqs.Some? then op.newReqs.value else was.requirements)
    && (edited ==> now.status == was.status)
  }

  // A new row holds what its creation says.
  ghost predicate Born(row: Incident, op: Op) {
    && op.OpCreateIncident?
    && row.createdBy == op.userId && row.creatorRole == op.role
    && row.affectedPeople == op.people && row.requirements == op.reqs
    && (row.status.Approved? <==> op.role.Operator? || op.role.Admin?)
    && (row.status.Pending? <==> op.role.Citizen? || op.role.Coordinator?)
  }

  lemma StepMovesColumns(w: World, op: Op, i: Id)
    requires WellFormed(w)
    ensures var s, t := w.store, Step(w, op).store;
      && (i < |s.incidents| ==> i < |t.incidents| && ColumnsMove(s.incidents[i], t.incidents[i], op, i))
      && (|s.incidents| <= i < |t.incidents| ==> i == |s.incidents| && Born(t.incidents[i], op))
      && (op.OpCreateIncident? ==> |t.incidents| == |s.incidents| + 1)
  {
    if !Reoptimizes(op) { ApplyMovesColumns(w.store, op, i); }
  }

  lemma ApplyMovesColumns(s: Store, op: Op, i: Id)
    requires s.References() && !Reoptimizes(op)
    ensures var t := Apply(s, op);
      && (i < |s.incidents| ==> i < |t.incidents| && ColumnsMove(s.incidents[i], t.incidents[i], op, i))
      && (|s.incidents| <= i < |t.incidents| ==> i == |s.incidents| && Born(t.incidents[i], op))
      && (op.OpCreateIncident? ==> |t.incidents| == |s.incidents| + 1)
  {}

  // Only a citizen's own PENDING incidents ever change by a citizen's edit or cancellation.
  lemma CitizensKeepToTheirOwn(w: World, op: Op, i: Id)
    requires WellFormed(w) && (op.OpEditIncident? || op.OpCancelIncident?) && op.role.Citizen?
    requires i < |w.store.incidents|
    ensures var s, t := w.store, Step(w, op).store;
      && |t.incidents| == |s.incidents| && t.resources == s.resources && t.assignments == s.assignments
      && (t.incidents[i] != s.incidents[i] ==>
            op.i == i && s.incidents[i].createdBy == op.userId && s.incidents[i].status.Pending?)
  {}

  // A call that gives incident i a head-count, or a list of requirements.
  ghost predicate Gives(s: Store, op: Op, i: Id, people: bool) {
    || (op.OpCreateIncident? && i == |s.incidents|)
    || (op.OpEditIncident? && op.i == i && i < |s.incidents| && MayEdit(s.incidents[i], op.userId, op.role)
        && if people then op.newPeople.Some? else op.newReqs.Some?)
  }

  ghost predicate Given(row: Incident, op: Op, people: bool)
    requires op.OpCreateIncident? || (op.OpEditIncident? && if people then op.newPeople.Some? else op.newReqs.Some?)
  {
    if people then row.affectedPeople == if op.OpCreateIncident? then op.people else op.newPeople.value
    else row.requirements == if op.OpCreateIncident? then op.reqs else op.newReqs.value
  }

  lemma StepShowsGiven(w: World, op: Op, i: Id, people: bool)
    requires WellFormed(w) && i < |Step(w, op).store.incidents|
    ensures var s, t := w.store, Step(w, op).store;
      if Gives(s, op, i, people) then Given(t.incidents[i], op, people)
      else
        && i < |s.incidents|
        && (people ==> t.incidents[i].affectedPeople == s.incidents[i].affectedPeople)
        && (!people ==> t.incidents[i].requirements == s.incidents[i].requirements)
  {
    StepMovesColumns(w, op, i);
  }

  // Call m gave incident i what it shows after n calls, and no call since has given it anything.
  ghost predicate LastGiver(ws: seq<World>, ops: seq<Op>, n: nat, i: Id, people: bool, m: nat)
    requires n < |ws| && n <= |ops|
  {
    && m < n && i < |ws[n].store.incidents|
    && Gives(ws[m].store, ops[m], i, people) && Given(ws[n].store.incidents[i], ops[m], people)
    && forall k | m < k < n :: !Gives(ws[k].store, ops[k], i, people)
  }

  lemma GiverStays(ws: seq<World>, ops: seq<Op>, n: nat, i: Id, people: bool, m: nat)
    requires 0 < n < |ws| && n <= |ops| && LastGiver(ws, ops, n - 1, i, people, m)
    requires !Gives(ws[n - 1].store, ops[n - 1], i, people) && i < |ws[n].store.incidents|
    requires var was, now := ws[n - 1].store.incidents[i], ws[n].store.incidents[i];
      if people then now.affectedPeople == was.affectedPeople else now.requirements == was.requirements
    ensures LastGiver(ws, ops, n, i, people, m)
  {}

  // In every run an incident shows what the last call that gave it a head-count, or requirements,
  // gave: its creation or an edit by somebody who may edit it.
  lemma {:induction false} ShowsTheLastGiven(ws: seq<World>, ops: seq<Op>, n: nat, i: Id, people: bool) returns (m: nat)
    requires IsRun(ws, ops) && n <= |ops| && i < |ws[n].store.incidents|
    ensures LastGiver(ws, ops, n, i, people, m)
  {
    assert n > 0;
    RunsAreWellFormed(ws, ops, n - 1);
    var w, op := ws[n - 1], ops[n - 1];
    assert ws[n] == Step(w, op);
    StepShowsGiven(w, op, i, people);
    if Gives(w.store, op, i, people) {
      m := n - 1;
    } else {
      m := ShowsTheLastGiven(ws, ops, n - 1, i, people);
      GiverStays(ws, ops, n, i, people, m);
    }
  }

  // ------------------------------------------------------------------ resources

  // An operator may change the status of the own resource, and nothing else that is stored.
  ghost predicate MayUpdate(row: Resource, c: ResourceChanges, userId: Id, role: Role) {
    role.Operator? ==>
      row.operatorId == Some(userId) && c.kind.None? && c.capacity.None? && c.operatorId.None? && !c.named
  }

  // What an update tells, if nothing throws: a new status, and a failure with the first ACTIVE
  // assignment of the resource.
  ghost predicate IsNews(s: Store, r: Id, c: ResourceChanges, es: seq<Event>)
    requires r in s.resources
  {
    if c.status.None? || c.status.value == s.resources[r].status then es == []
    else if c.status.value.Failed? then
      |es| == 2 && es[0] == ResourceStatusChanged(r, Failed) && es[1].ResourceFailureDetected?
      && es[1].resourceId == r && IsFirstActive(s, r, es[1].activeAssignmentId)
    else es == [ResourceStatusChanged(r, c.status.value)]
  }

  ghost predicate IsFirstActive(s: Store, r: Id, a: Option<Id>) {
    match a
    case None =>
      forall k | 0 <= k < |s.assignments| :: !(s.assignments[k].status.Active? && s.assignments[k].resourceId == r)
    case Some(a) =>
      && a < |s.assignments| && s.assignments[a].status.Active? && s.assignments[a].resourceId == r
      && forall k | 0 <= k < a :: !(s.assignments[k].status.Active? && s.assignments[k].resourceId == r)
  }

  // An update is refused with 404 for a missing resource and with 403 for an operator who may not
  // do it; otherwise the given columns change, no others, and the news is told as far as the writes
  // get.
  lemma ResourceUpdatedIff(s: Store, r: Id, c: ResourceChanges, userId: Id, role: Role, writes: nat)
    returns (news: seq<Event>)
    ensures var t := UpdateResource(s, r, c, userId, role, writes);
      if r in s.resources && MayUpdate(s.resources[r], c, userId, role) then
        && r in t.store.resources
        && t.store == s.(resources := s.resources[r := t.store.resources[r]], outbox := t.store.outbox)
        && ResourceMoves(s.resources[r], t.store.resources[r], c)
        && IsNews(s, r, c, news)
        && t.store.outbox == s.outbox + (if writes < |news| then news[..writes] else news)
        && (t.result == if writes < |news| then Err(EventNotWritten) else Ok(r))
      else
        t.store == s && t.result.Err? && t.result.error.Http() == if r in s.resources then 403 else 404
  {
    news := [];
    if r in s.resources && c.status.Some? && c.status.value != s.resources[r].status {
      news := [ResourceStatusChanged(r, c.status.value)];
      if c.status.value.Failed? {
        news := news + [ResourceFailureDetected(r, FirstActive(s.assignments, r, 0))];
        FirstActiveIsFirst(s.assignments, r, 0);
      }
    }
  }

  ghost predicate ResourceMoves(was: Resource, now: Resource, c: ResourceChanges) {
    && now.status == (if c.status.Some? then c.status.value else was.status)
    && now.kind == (if c.kind.Some? then c.kind.value else was.kind)
    && now.capacity == (if c.capacity.Some? then c.capacity.value else was.capacity)
    && now.operatorId == (if c.operatorId.Some? then c.operatorId.value else was.operatorId)
  }

  ghost predicate Updates(row: Resource, op: Op, r: Id) {
    op.OpUpdateResource? && op.r == r && MayUpdate(row, op.changes, op.userId, op.role)
  }

  ghost predicate Works(op: Op) {
    op.OpCreateAssignment? || op.OpCompleteAssignment? || op.OpCancelAssignment? || op.OpCommitReopt?
  }

  // What a call may make of resource r.
  ghost predicate ResourceKept(was: Resource, now: Resource, op: Op, r: Id) {
    if Updates(was, op, r) then ResourceMoves(was, now, op.changes)
    else if op == OpDeactivateResource(r) then now == was.(status := Unavailable)
    else now == was.(status := now.status) && (now.status != was.status ==> Works(op))
  }

  ghost predicate Added(row: Resource, op: Op, r: Id) {
    && op.OpCreateResource? && op.r == r
    && row.status == (if op.initial.Some? then op.initial.value else Available)
    && row.kind == op.kind && row.capacity == op.capacity && row.operatorId == op.operatorId
  }

  // Whatever the call: type, capacity and operator of a resource move by an update that its user may
  // make; its status by that, by a deactivation, or by an assignment that begins, ends or is swapped.
  lemma StepMovesResource(w: World, op: Op, r: Id)
    requires WellFormed(w)
    ensures var s, t := w.store, Step(w, op).store;
      && (r in s.resources ==> r in t.resources && ResourceKept(s.resources[r], t.resources[r], op, r))
      && (r !in s.resources && r in t.resources ==> Added(t.resources[r], op, r))
      && (op.OpCreateResource? ==> op.r in t.resources)
  {
    if !Reoptimizes(op) {
      ApplyMovesResource(w.store, op, r);
    } else if CanCommit(w, op) {
      CommitMovesResource(w.store, w.plans[op.k], r);
    }
  }

  lemma CommitMovesResource(s: Store, p: Plan, r: Id)
    requires s.References() && PlanRefers(s, p) && p.replacement.Some?
    ensures var t := CommitReopt(s, p).store;
      && t.resources.Keys == s.resources.Keys
      && (r in s.resources ==> t.resources[r] == s.resources[r].(status := t.resources[r].status))
  {}

  lemma ApplyMovesResource(s: Store, op: Op, r: Id)
    requires s.References() && !Reoptimizes(op)
    ensures var t := Apply(s, op);
      && (r in s.resources ==> r in t.resources && ResourceKept(s.resources[r], t.resources[r], op, r))
      && (r !in s.resources && r in t.resources ==> Added(t.resources[r], op, r))
      && (op.OpCreateResource? ==> op.r in t.resources)
  {}
}
