// The dispatch transactions as the services run them: guards first, then one row write after the
// other.  Each is proved to commit exactly the store that its specification in Dispatch computes,
// and to change nothing when it refuses.

module DispatchService {
  import opened Domain
  import opened Allocation
  import opened Dispatch

  class Database {
    var incidents: seq<Incident>
    var resources: map<Id, Resource>
    var assignments: seq<Assignment>
    var outbox: seq<Event>
    var decisions: seq<Decision>
    var reoptLogs: seq<ReoptLog>

    function State(): Store
      reads this
    {
      Store(incidents, resources, assignments, outbox, decisions, reoptLogs)
    }

    constructor (table: map<Id, Resource>)
      requires forall r <- table :: !table[r].status.Busy?
      ensures Init(World(State(), [], [])) && State().resources == table
    {
      incidents, resources, assignments, outbox, decisions, reoptLogs := [], table, [], [], [], [];
    }

    // findFirst over the ACTIVE rows.
    method FindActive(byResource: bool, id: Id) returns (found: bool)
      ensures found <==> if byResource then State().ResourceTaken(id) else State().IncidentTaken(id)
    {
      found := false;
      for k := 0 to |assignments|
        invariant found <==> exists j | 0 <= j < k ::
            assignments[j].status.Active?
            && (if byResource then assignments[j].resourceId == id else assignments[j].incidentId == id)
      {
        var row := assignments[k];
        if row.status.Active? && (if byResource then row.resourceId == id else row.incidentId == id) {
          found := true;
        }
      }
    }

    method CreateAssignment(i: Id, r: Id) returns (result: Result<Id>)
      requires State().References()
      modifies this
      ensures Txn(State(), result) == Dispatch.CreateAssignment(old(State()), i, r)
    {
      if i >= |incidents| { return Err(NotFound); }
      var incident := incidents[i];
      if !incident.status.Approved? { return Err(IncidentNotEligible); }

      if r !in resources { return Err(NotFound); }
      var resource := resources[r];
      if !resource.status.Available? { return Err(ResourceNotAvailable); }
      if |incident.requirements| > 0 && !TypeMatches(resource.kind, incident.requirements) {
        return Err(ResourceTypeMismatch);
      }
      if resource.capacity < incident.affectedPeople { return Err(ResourceCapacityInsufficient); }

      var taken := FindActive(true, r);
      if taken { return Err(ResourceAlreadyAssigned); }
      taken := FindActive(false, i);
      if taken { return Err(IncidentAlreadyAssigned); }

      var id := |assignments|;
      assignments := assignments + [Assignment(i, r, AssignmentStatus.Active, false)];
      resources := resources[r := resources[r].(status := Busy)];
      incidents := incidents[i := incidents[i].(status := Assigned)];
      decisions := decisions + [ResourceAssignment(i, r)];
      outbox := outbox + [AssignmentCreated(id, i, r)];
      return Ok(id);
    }

    method CompleteAssignment(a: Id) returns (result: Result<Id>)
      requires State().References()
      modifies this
      ensures Txn(State(), result) == Dispatch.CompleteAssignment(old(State()), a)
    {
      if a >= |assignments| { return Err(NotFound); }
      var row := assignments[a];
      if AssignmentStatus.Completed !in AssignmentTransitions(row.status) { return Err(InvalidAssignmentState); }

      assignments := assignments[a := row.(status := AssignmentStatus.Completed, released := true)];
      resources := resources[row.resourceId := resources[row.resourceId].(status := Available)];
      incidents := incidents[row.incidentId := incidents[row.incidentId].(status := InProgress)];
      outbox := outbox + [AssignmentCompleted(a, row.incidentId, row.resourceId)];
      return Ok(a);
    }

    method CancelAssignment(a: Id) returns (result: Result<Id>)
      requires State().References()
      modifies this
      ensures Txn(State(), result) == Dispatch.CancelAssignment(old(State()), a)
    {
      if a >= |assignments| { return Err(NotFound); }
      var row := assignments[a];
      if AssignmentStatus.Cancelled !in AssignmentTransitions(row.status) { return Err(InvalidAssignmentState); }

      assignments := assignments[a := row.(status := AssignmentStatus.Cancelled, released := true)];
      resources := resources[row.resourceId := resources[row.resourceId].(status := Available)];
      if incidents[row.incidentId].status.Assigned? {
        incidents := incidents[row.incidentId := incidents[row.incidentId].(status := Approved)];
      }
      outbox := outbox + [AssignmentCancelled(a, row.incidentId, row.resourceId)];
      return Ok(a);
    }

    // `told`: the outbox write does not throw.
    method CreateIncident(userId: Id, role: Role, people: int, reqs: seq<string>, told: bool)
      returns (result: Result<Id>)
      modifies this
      ensures Txn(State(), result) == Dispatch.CreateIncident(old(State()), userId, role, people, reqs, told)
    {
      var id := |incidents|;
      var initial: IncidentStatus := IncidentStatus.Pending;
      if role.Operator? || role.Admin? { initial := Approved; }
      incidents := incidents + [Incident(initial, userId, role, people, reqs)];
      if !told { return Err(EventNotWritten); }
      outbox := outbox + [IncidentCreated(id)];
      return Ok(id);
    }

    method EditIncident(i: Id, people: Option<int>, reqs: Option<seq<string>>, userId: Id, role: Role, told: bool)
      returns (result: Result<Id>)
      modifies this
      ensures Txn(State(), result) == Dispatch.EditIncident(old(State()), i, people, reqs, userId, role, told)
    {
      if i >= |incidents| { return Err(NotFound); }
      if role.Citizen? {
        if incidents[i].createdBy != userId { return Err(Forbidden); }
        if !incidents[i].status.Pending? { return Err(Forbidden); }
      }
      if role.Operator? { return Err(Forbidden); }
      if people.Some? { incidents := incidents[i := incidents[i].(affectedPeople := people.value)]; }
      if reqs.Some? { incidents := incidents[i := incidents[i].(requirements := reqs.value)]; }
      assert people.None? && reqs.None? ==> incidents == old(incidents)[i := incidents[i]];
      if !told { return Err(EventNotWritten); }
      outbox := outbox + [IncidentUpdated(i)];
      return Ok(i);
    }

    method CancelIncident(i: Id, userId: Id, role: Role) returns (result: Result<Id>)
      modifies this
      ensures Txn(State(), result) == Dispatch.CancelIncident(old(State()), i, userId, role)
    {
      if i >= |incidents| { return Err(NotFound); }
      if role.Citizen? {
        if incidents[i].createdBy != userId { return Err(Forbidden); }
        if !incidents[i].status.Pending? { return Err(Forbidden); }
      } else if incidents[i].status.Completed? || incidents[i].status.Cancelled? {
        return Err(InvalidTransition);
      }
      incidents := incidents[i := incidents[i].(status := IncidentStatus.Cancelled)];
      return Ok(i);
    }

    method ApproveIncident(i: Id) returns (result: Result<Id>)
      modifies this
      ensures Txn(State(), result) == Dispatch.ApproveIncident(old(State()), i)
    {
      if i >= |incidents| { return Err(NotFound); }
      if !incidents[i].status.Pending? { return Err(InvalidTransition); }
      if !incidents[i].creatorRole.Citizen? { return Err(InvalidTransition); }
      incidents := incidents[i := incidents[i].(status := Approved)];
      return Ok(i);
    }

    method RejectIncident(i: Id) returns (result: Result<Id>)
      modifies this
      ensures Txn(State(), result) == Dispatch.RejectIncident(old(State()), i)
    {
      if i >= |incidents| { return Err(NotFound); }
      if !incidents[i].status.Pending? { return Err(InvalidTransition); }
      incidents := incidents[i := incidents[i].(status := Rejected)];
      return Ok(i);
    }

    method UpdateIncidentStatus(i: Id, next: IncidentStatus) returns (result: Result<Id>)
      modifies this
      ensures Txn(State(), result) == Dispatch.UpdateIncidentStatus(old(State()), i, next)
    {
      if i >= |incidents| { return Err(NotFound); }
      if next !in StatusTransitions(incidents[i].status) { return Err(InvalidTransition); }
      incidents := incidents[i := incidents[i].(status := next)];
      return Ok(i);
    }

    // findFirst({ resourceId, status: 'ACTIVE' }) returning the row.
    method FirstActiveOf(r: Id) returns (found: Option<Id>)
      ensures found == FirstActive(assignments, r, 0)
    {
      var k := 0;
      while k < |assignments|
        invariant k <= |assignments|
        invariant FirstActive(assignments, r, 0) == FirstActive(assignments, r, k)
      {
        if assignments[k].status.Active? && assignments[k].resourceId == r { return Some(k); }
        k := k + 1;
      }
      return None;
    }

    // r is the id that the database generates.
    method CreateResource(
        r: Id, status: Option<ResourceStatus>, kind: string, capacity: int, operatorId: Option<Id>)
      returns (result: Result<Id>)
      requires r !in resources
      modifies this
      ensures Txn(State(), result) == Dispatch.CreateResource(old(State()), r, status, kind, capacity, operatorId)
    {
      var initial: ResourceStatus := Available;
      if status.Some? { initial := status.value; }
      resources := resources[r := Resource(initial, kind, capacity, operatorId)];
      return Ok(r);
    }

    // `writes`: how many outbox writes succeed before one throws.
    method UpdateResource(r: Id, c: ResourceChanges, userId: Id, role: Role, writes: nat)
      returns (result: Result<Id>)
      modifies this
      ensures Txn(State(), result) == Dispatch.UpdateResource(old(State()), r, c, userId, role, writes)
    {
      if r !in resources { return Err(NotFound); }
      var resource := resources[r];
      if role.Operator? {
        if resource.operatorId != Some(userId) { return Err(Forbidden); }
        if !OperatorMay(c) { return Err(Forbidden); }
      }
      var updated := Changed(resource, c);
      resources := resources[r := updated];
      if c.status.Some? && c.status.value != resource.status {
        if writes == 0 { return Err(EventNotWritten); }
        outbox := outbox + [ResourceStatusChanged(r, updated.status)];
        if updated.status.Failed? {
          var active := FirstActiveOf(r);
          if writes == 1 { return Err(EventNotWritten); }
          outbox := outbox + [ResourceFailureDetected(r, active)];
        }
      }
      return Ok(r);
    }

    method DeactivateResource(r: Id) returns (result: Result<Id>)
      modifies this
      ensures Txn(State(), result) == Dispatch.DeactivateResource(old(State()), r)
    {
      if r !in resources { return Err(NotFound); }
      resources := resources[r := resources[r].(status := Unavailable)];
      return Ok(r);
    }

    // reoptimizeAssignment, from the snapshot to the feasibility decision.
    method LoadReopt(a: Id, trigger: Trigger, access: AccessCondition) returns (result: Result<Option<Plan>>)
      requires State().References()
      modifies this
      ensures Txn(State(), result) == Dispatch.LoadReopt(old(State()), a, trigger, access)
    {
      if a >= |assignments| { return Err(NotFound); }
      var row := assignments[a];
      if !row.status.Active? { return Err(AssignmentNotActive); }
      var incident, resource := incidents[row.incidentId], resources[row.resourceId];
      if !OperationallyActive(incident.status) { return Err(IncidentNotActive); }

      var quiet := NoReplacementLog(row.incidentId, a, row.resourceId);
      if trigger.HigherPriorityIncident? {
        reoptLogs := reoptLogs + [quiet];
        return Ok(None);
      }
      var effective: AccessCondition := Normal;
      if trigger.AccessConditionChange? { effective := access; }
      if CurrentFeasible(resource, incident.affectedPeople, incident.requirements)
         && !(trigger.AccessConditionChange? && access.Blocked?) {
        reoptLogs := reoptLogs + [quiet];
        return Ok(None);
      }
      return Ok(Some(Plan(a, row.incidentId, row.resourceId, incident.affectedPeople, incident.requirements,
                          effective, None)));
    }

    // reoptimizeAssignment, from the read of the resource table to the choice.
    method PlanReopt(p: Plan, cs: seq<Candidate>, speed: real) returns (plan: Plan)
      modifies this
      ensures (State(), plan) == Dispatch.PlanReopt(old(State()), p, cs, speed)
    {
      var choice := FindReplacement(Alternatives(cs, p.resourceId), p.people, p.requirements, speed, p.access);
      if choice.None? {
        reoptLogs := reoptLogs + [NoReplacementLog(p.incidentId, p.assignmentId, p.resourceId)];
        return p;
      }
      return p.(replacement := Some(choice.value.id));
    }

    // The replacement transaction.  A refused insert rolls the cancellation and the release back.
    method CommitReopt(p: Plan) returns (result: Result<Id>)
      requires State().References() && PlanRefers(State(), p) && p.replacement.Some?
      modifies this
      ensures Txn(State(), result) == Dispatch.CommitReopt(old(State()), p)
    {
      var r := p.replacement.value;
      if !assignments[p.assignmentId].status.Active? { return Err(AssignmentNotActive); }
      if r !in resources || !resources[r].status.Available? { return Err(ResourceNotAvailable); }
      if |p.requirements| > 0 && !TypeMatches(resources[r].kind, p.requirements) { return Err(ResourceTypeMismatch); }
      if resources[r].capacity < p.people { return Err(ResourceCapacityInsufficient); }

      var begunAssignments, begunResources := assignments, resources;
      assignments := assignments[p.assignmentId :=
        assignments[p.assignmentId].(status := AssignmentStatus.Cancelled, released := true)];
      if resources[p.resourceId].status.Busy? {
        resources := resources[p.resourceId := resources[p.resourceId].(status := Available)];
      }
      var clash := FindActive(true, r);
      if !clash { clash := FindActive(false, p.incidentId); }
      if clash {
        assignments, resources := begunAssignments, begunResources;
        return Err(ReoptimizationConflict);
      }
      var id := |assignments|;
      assignments := assignments + [Assignment(p.incidentId, r, AssignmentStatus.Active, false)];
      resources := resources[r := resources[r].(status := Busy)];
      decisions := decisions + [ResourceAssignment(p.incidentId, r)];
      reoptLogs := reoptLogs + [ReoptLog(p.incidentId, p.assignmentId, p.resourceId, Some(r), true)];
      return Ok(id);
    }
  }
}
