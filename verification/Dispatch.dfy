// What every dispatch transaction does to the store, as functions from the old store to the new
// one.  DispatchService gives the step-by-step transactions and proves that they compute these.

module Dispatch {
  import opened Domain
  import opened Allocation

  // The RESOURCE_ASSIGNMENT decision log.
  datatype Decision = ResourceAssignment(incidentId: Id, resourceId: Id)

  datatype ReoptLog = ReoptLog(
    incidentId: Id, assignmentId: Id, previousResourceId: Id, newResourceId: Option<Id>, replaced: bool)

  datatype Store = Store(
    incidents: seq<Incident>,
    resources: map<Id, Resource>,
    assignments: seq<Assignment>,
    outbox: seq<Event>,
    decisions: seq<Decision>,
    reoptLogs: seq<ReoptLog>)
  {
    // findFirst({ resourceId, status: 'ACTIVE' }) and findFirst({ incidentId, status: 'ACTIVE' })
    predicate ResourceTaken(r: Id) {
      exists k | 0 <= k < |assignments| :: assignments[k].status.Active? && assignments[k].resourceId == r
    }

    predicate IncidentTaken(i: Id) {
      exists k | 0 <= k < |assignments| :: assignments[k].status.Active? && assignments[k].incidentId == i
    }

    function WithIncident(i: Id, st: IncidentStatus): Store
      requires i < |incidents|
    {
      this.(incidents := incidents[i := incidents[i].(status := st)])
    }

    function WithResource(r: Id, st: ResourceStatus): Store
      requires r in resources
    {
      this.(resources := resources[r := resources[r].(status := st)])
    }

    function WithRelease(a: Id, st: AssignmentStatus): Store
      requires a < |assignments|
    {
      this.(assignments := assignments[a := assignments[a].(status := st, released := true)])
    }

    function WithAssignment(i: Id, r: Id): Store {
      this.(assignments := assignments + [Assignment(i, r, AssignmentStatus.Active, false)],
            decisions := decisions + [ResourceAssignment(i, r)])
    }

    function WithEvent(e: Event): Store { this.(outbox := outbox + [e]) }

    function WithReoptLog(l: ReoptLog): Store { this.(reoptLogs := reoptLogs + [l]) }

    // Foreign keys.
    ghost predicate References() {
      && |decisions| == |assignments|
      && forall k | 0 <= k < |assignments| ::
           assignments[k].incidentId < |incidents| && assignments[k].resourceId in resources
    }
  }

  // A transaction commits a new store or rolls back to the old one with an error.
  datatype Txn<+T> = Txn(store: Store, result: Result<T>)

  // ------------------------------------------------------------------ assignments

  function CreateGuard(s: Store, i: Id, r: Id): (e: Option<Error>)
    ensures e.None? ==> i < |s.incidents| && r in s.resources
  {
    if i >= |s.incidents| then Some(NotFound)
    else if !s.incidents[i].status.Approved? then Some(IncidentNotEligible)
    else if r !in s.resources then Some(NotFound)
    else if !s.resources[r].status.Available? then Some(ResourceNotAvailable)
    else if !TypeMatches(s.resources[r].kind, s.incidents[i].requirements) then Some(ResourceTypeMismatch)
    else if s.resources[r].capacity < s.incidents[i].affectedPeople then Some(ResourceCapacityInsufficient)
    else if s.ResourceTaken(r) then Some(ResourceAlreadyAssigned)
    else if s.IncidentTaken(i) then Some(IncidentAlreadyAssigned)
    else None
  }

  function CreateAssignment(s: Store, i: Id, r: Id): Txn<Id> {
    match CreateGuard(s, i, r)
    case Some(e) => Txn(s, Err(e))
    case None =>
      Txn(s.WithAssignment(i, r)
           .WithResource(r, Busy)
           .WithIncident(i, Assigned)
           .WithEvent(AssignmentCreated(|s.assignments|, i, r)),
          Ok(|s.assignments|))
  }

  function AssignmentTransitions(st: AssignmentStatus): set<AssignmentStatus> {
    match st
    case Pending => {AssignmentStatus.Active, AssignmentStatus.Cancelled}
    case Active => {AssignmentStatus.Completed, AssignmentStatus.Cancelled}
    case Completed => {}
    case Cancelled => {}
  }

  function CompleteAssignment(s: Store, a: Id): Txn<Id>
    requires s.References()
  {
    if a >= |s.assignments| then Txn(s, Err(NotFound))
    else if AssignmentStatus.Completed !in AssignmentTransitions(s.assignments[a].status) then
      Txn(s, Err(InvalidAssignmentState))
    else
      var row := s.assignments[a];
      Txn(s.WithRelease(a, AssignmentStatus.Completed)
           .WithResource(row.resourceId, Available)
           .WithIncident(row.incidentId, InProgress)
           .WithEvent(AssignmentCompleted(a, row.incidentId, row.resourceId)),
          Ok(a))
  }

  function CancelAssignment(s: Store, a: Id): Txn<Id>
    requires s.References()
  {
    if a >= |s.assignments| then Txn(s, Err(NotFound))
    else if AssignmentStatus.Cancelled !in AssignmentTransitions(s.assignments[a].status) then
      Txn(s, Err(InvalidAssignmentState))
    else
      var row := s.assignments[a];
      var freed := s.WithRelease(a, AssignmentStatus.Cancelled).WithResource(row.resourceId, Available);
      var reopened :=
        if s.incidents[row.incidentId].status.Assigned? then freed.WithIncident(row.incidentId, Approved) else freed;
      Txn(reopened.WithEvent(AssignmentCancelled(a, row.incidentId, row.resourceId)), Ok(a))
  }

  // ------------------------------------------------------------------ incidents

  // The row is written first; the outbox write that follows succeeds if `told`.
  function CreateIncident(s: Store, userId: Id, role: Role, people: int, reqs: seq<string>, told: bool): Txn<Id> {
    var initial: IncidentStatus :=
      if role.Operator? || role.Admin? then Approved else IncidentStatus.Pending;
    var written := s.(incidents := s.incidents + [Incident(initial, userId, role, people, reqs)]);
    if told then Txn(written.WithEvent(IncidentCreated(|s.incidents|)), Ok(|s.incidents|))
    else Txn(written, Err(EventNotWritten))
  }

  function EditIncident(
      s: Store, i: Id, people: Option<int>, reqs: Option<seq<string>>, userId: Id, role: Role, told: bool): Txn<Id>
  {
    if i >= |s.incidents| then Txn(s, Err(NotFound))
    else if role.Citizen? && (s.incidents[i].createdBy != userId || !s.incidents[i].status.Pending?) then
      Txn(s, Err(Forbidden))
    else if role.Operator? then Txn(s, Err(Forbidden))
    else
      var row := s.incidents[i];
      var edited := row.(affectedPeople := if people.Some? then people.value else row.affectedPeople,
                         requirements := if reqs.Some? then reqs.value else row.requirements);
      var written := s.(incidents := s.incidents[i := edited]);
      if told then Txn(written.WithEvent(IncidentUpdated(i)), Ok(i)) else Txn(written, Err(EventNotWritten))
  }

  function CancelIncident(s: Store, i: Id, userId: Id, role: Role): Txn<Id> {
    if i >= |s.incidents| then Txn(s, Err(NotFound))
    else if role.Citizen? && (s.incidents[i].createdBy != userId || !s.incidents[i].status.Pending?) then
      Txn(s, Err(Forbidden))
    else if !role.Citizen? && (s.incidents[i].status.Completed? || s.incidents[i].status.Cancelled?) then
      Txn(s, Err(InvalidTransition))
    else Txn(s.WithIncident(i, IncidentStatus.Cancelled), Ok(i))
  }

  function ApproveIncident(s: Store, i: Id): Txn<Id> {
    if i >= |s.incidents| then Txn(s, Err(NotFound))
    else if !s.incidents[i].status.Pending? || !s.incidents[i].creatorRole.Citizen? then
      Txn(s, Err(InvalidTransition))
    else Txn(s.WithIncident(i, Approved), Ok(i))
  }

  function RejectIncident(s: Store, i: Id): Txn<Id> {
    if i >= |s.incidents| then Txn(s, Err(NotFound))
    else if !s.incidents[i].status.Pending? then Txn(s, Err(InvalidTransition))
    else Txn(s.WithIncident(i, Rejected), Ok(i))
  }

  function StatusTransitions(st: IncidentStatus): set<IncidentStatus> {
    match st
    case Pending => {Approved, Rejected, IncidentStatus.Cancelled}
    case Approved => {Assigned, IncidentStatus.Cancelled}
    case Rejected => {}
    case Assigned => {InProgress, IncidentStatus.Cancelled}
    case InProgress => {IncidentStatus.Completed, IncidentStatus.Cancelled}
    case Completed => {}
    case Cancelled => {}
  }

  function UpdateIncidentStatus(s: Store, i: Id, next: IncidentStatus): Txn<Id> {
    if i >= |s.incidents| then Txn(s, Err(NotFound))
    else if next !in StatusTransitions(s.incidents[i].status) then Txn(s, Err(InvalidTransition))
    else Txn(s.WithIncident(i, next), Ok(i))
  }

  // ------------------------------------------------------------------ resources

  function CreateResource(
      s: Store, r: Id, status: Option<ResourceStatus>, kind: string, capacity: int, operatorId: Option<Id>): Txn<Id>
  {
    var initial := if status.Some? then status.value else Available;
    Txn(s.(resources := s.resources[r := Resource(initial, kind, capacity, operatorId)]), Ok(r))
  }

  // The fields present in an update; `named` says whether the name is one of them.  Position is not
  // looked at by any transaction.
  datatype ResourceChanges = ResourceChanges(
    status: Option<ResourceStatus>, kind: Option<string>, capacity: Option<int>, operatorId: Option<Option<Id>>,
    named: bool)

  predicate OperatorMay(c: ResourceChanges) {
    c.kind.None? && c.capacity.None? && c.operatorId.None? && !c.named
  }

  function Or<T>(o: Option<T>, otherwise: T): T { if o.Some? then o.value else otherwise }

  function Changed(row: Resource, c: ResourceChanges): Resource {
    Resource(Or(c.status, row.status), Or(c.kind, row.kind), Or(c.capacity, row.capacity),
             Or(c.operatorId, row.operatorId))
  }

  function ResourceGuard(s: Store, r: Id, c: ResourceChanges, userId: Id, role: Role): (e: Option<Error>)
    ensures e.None? ==> r in s.resources
  {
    if r !in s.resources then Some(NotFound)
    else if role.Operator? && s.resources[r].operatorId != Some(userId) then Some(Forbidden)
    else if role.Operator? && !OperatorMay(c) then Some(Forbidden)
    else None
  }

  // The row is written first; `writes` of the outbox writes that follow succeed before one throws.
  function UpdateResource(s: Store, r: Id, c: ResourceChanges, userId: Id, role: Role, writes: nat): Txn<Id> {
    match ResourceGuard(s, r, c, userId, role)
    case Some(e) => Txn(s, Err(e))
    case None =>
      var row := Changed(s.resources[r], c);
      var written := s.(resources := s.resources[r := row]);
      if row.status == s.resources[r].status then Txn(written, Ok(r))
      else if writes == 0 then Txn(written, Err(EventNotWritten))
      else
        var told := written.WithEvent(ResourceStatusChanged(r, row.status));
        if !row.status.Failed? then Txn(told, Ok(r))
        else if writes == 1 then Txn(told, Err(EventNotWritten))
        else Txn(told.WithEvent(ResourceFailureDetected(r, FirstActive(s.assignments, r, 0))), Ok(r))
  }

  function DeactivateResource(s: Store, r: Id): Txn<Id> {
    if r !in s.resources then Txn(s, Err(NotFound)) else Txn(s.WithResource(r, Unavailable), Ok(r))
  }

  // ------------------------------------------------------------------ re-optimization

  // What a re-optimization remembers between its unlocked reads and its transaction.
  datatype Plan = Plan(
    assignmentId: Id, incidentId: Id, resourceId: Id, people: int, requirements: seq<string>,
    access: AccessCondition, replacement: Option<Id>)

  predicate OperationallyActive(st: IncidentStatus) { st.Approved? || st.Assigned? || st.InProgress? }

  function NoReplacementLog(incidentId: Id, assignmentId: Id, resourceId: Id): ReoptLog {
    ReoptLog(incidentId, assignmentId, resourceId, None, false)
  }

  // The snapshot read and the feasibility decision.  Ok(None): nothing to replace, only logged.
  // Preemption is disabled, so a higher-priority incident never replaces anything.
  function LoadReopt(s: Store, a: Id, trigger: Trigger, access: AccessCondition): Txn<Option<Plan>>
    requires s.References()
  {
    if a >= |s.assignments| then Txn(s, Err(NotFound))
    else if !s.assignments[a].status.Active? then Txn(s, Err(AssignmentNotActive))
    else
      var row := s.assignments[a];
      var incident, resource := s.incidents[row.incidentId], s.resources[row.resourceId];
      if !OperationallyActive(incident.status) then Txn(s, Err(IncidentNotActive))
      else
        var blocked := trigger.AccessConditionChange? && access.Blocked?;
        if trigger.HigherPriorityIncident?
           || (CurrentFeasible(resource, incident.affectedPeople, incident.requirements) && !blocked) then
          Txn(s.WithReoptLog(NoReplacementLog(row.incidentId, a, row.resourceId)), Ok(None))
        else
          Txn(s, Ok(Some(Plan(a, row.incidentId, row.resourceId, incident.affectedPeople, incident.requirements,
                              if trigger.AccessConditionChange? then access else Normal, None))))
  }

  // cs is the resource table as some query returned it, with the distances to the incident.
  ghost predicate ListsTable(cs: seq<Candidate>, resources: map<Id, Resource>) {
    && DistinctIds(cs)
    && (forall c <- cs :: c.id in resources && resources[c.id] == c.row)
    && (forall r <- resources :: exists c <- cs :: c.id == r)
  }

  // The later read of the resource table and the choice of a replacement.
  function PlanReopt(s: Store, p: Plan, cs: seq<Candidate>, speed: real): (t: (Store, Plan))
    ensures t.0 == s.(reoptLogs := t.0.reoptLogs)
    ensures t.1 == p.(replacement := t.1.replacement)
  {
    match FindReplacement(Alternatives(cs, p.resourceId), p.people, p.requirements, speed, p.access)
    case None => (s.WithReoptLog(NoReplacementLog(p.incidentId, p.assignmentId, p.resourceId)), p)
    case Some(c) => (s, p.(replacement := Some(c.id)))
  }

  function CommitGuard(s: Store, p: Plan): (e: Option<Error>)
    requires p.replacement.Some?
  {
    var r := p.replacement.value;
    if p.assignmentId >= |s.assignments| || !s.assignments[p.assignmentId].status.Active? then
      Some(AssignmentNotActive)
    else if r !in s.resources || !s.resources[r].status.Available? then Some(ResourceNotAvailable)
    else if !TypeMatches(s.resources[r].kind, p.requirements) then Some(ResourceTypeMismatch)
    else if s.resources[r].capacity < p.people then Some(ResourceCapacityInsufficient)
    else if s.WithRelease(p.assignmentId, AssignmentStatus.Cancelled).ResourceTaken(r)
         || s.WithRelease(p.assignmentId, AssignmentStatus.Cancelled).IncidentTaken(p.incidentId) then
      Some(ReoptimizationConflict)  // one of the two partial unique indexes refuses the insert
    else None
  }

  // The swap.  The incident's status is neither read nor written.
  function CommitReopt(s: Store, p: Plan): Txn<Id>
    requires s.References() && p.replacement.Some?
    requires p.resourceId in s.resources
  {
    match CommitGuard(s, p)
    case Some(e) => Txn(s, Err(e))
    case None =>
      var r := p.replacement.value;
      var cancelled := s.WithRelease(p.assignmentId, AssignmentStatus.Cancelled);
      var freed :=
        if s.resources[p.resourceId].status.Busy? then cancelled.WithResource(p.resourceId, Available) else cancelled;
      Txn(freed.WithAssignment(p.incidentId, r)
               .WithResource(r, Busy)
               .WithReoptLog(ReoptLog(p.incidentId, p.assignmentId, p.resourceId, Some(r), true)),
          Ok(|s.assignments|))
  }

  // ------------------------------------------------------------------ runs

  // The store, the re-optimizations in flight (a plan may be committed again and again), and the
  // (cancelled, new) pairs that committed swaps returned.
  datatype World = World(store: Store, plans: seq<Plan>, swaps: seq<(Id, Id)>)

  datatype Op =
    | OpCreateIncident(userId: Id, role: Role, people: int, reqs: seq<string>, told: bool)
    | OpEditIncident(i: Id, newPeople: Option<int>, newReqs: Option<seq<string>>, userId: Id, role: Role, told: bool)
    | OpCancelIncident(i: Id, userId: Id, role: Role)
    | OpApproveIncident(i: Id)
    | OpRejectIncident(i: Id)
    | OpUpdateIncidentStatus(i: Id, next: IncidentStatus)
    | OpCreateResource(
        r: Id, initial: Option<ResourceStatus>, kind: string, capacity: int, operatorId: Option<Id>)
    | OpUpdateResource(r: Id, changes: ResourceChanges, userId: Id, role: Role, writes: nat)
    | OpDeactivateResource(r: Id)
    | OpCreateAssignment(i: Id, r: Id)
    | OpCompleteAssignment(a: Id)
    | OpCancelAssignment(a: Id)
    | OpLoadReopt(a: Id, trigger: Trigger, access: AccessCondition)
    | OpPlanReopt(k: nat, cs: seq<Candidate>, speed: real)
    | OpCommitReopt(k: nat)

  // What a plan remembers of its assignment can not change any more.
  ghost predicate PlanRefers(s: Store, p: Plan) {
    && p.assignmentId < |s.assignments|
    && s.assignments[p.assignmentId].incidentId == p.incidentId
    && s.assignments[p.assignmentId].resourceId == p.resourceId
  }

  ghost predicate WellFormed(w: World) {
    && w.store.References()
    && forall k | 0 <= k < |w.plans| :: PlanRefers(w.store, w.plans[k])
  }

  predicate Reoptimizes(op: Op) { op.OpLoadReopt? || op.OpPlanReopt? || op.OpCommitReopt? }

  // Every call that does not re-optimize.
  ghost function Apply(s: Store, op: Op): Store
    requires s.References()
    requires !Reoptimizes(op)
  {
    match op
    case OpCreateIncident(u, role, people, reqs, told) => CreateIncident(s, u, role, people, reqs, told).store
    case OpEditIncident(i, people, reqs, u, role, told) => EditIncident(s, i, people, reqs, u, role, told).store
    case OpCancelIncident(i, u, role) => CancelIncident(s, i, u, role).store
    case OpApproveIncident(i) => ApproveIncident(s, i).store
    case OpRejectIncident(i) => RejectIncident(s, i).store
    case OpUpdateIncidentStatus(i, next) => UpdateIncidentStatus(s, i, next).store
    case OpCreateResource(r, status, kind, capacity, operator) =>
      if r in s.resources then s  // a generated id is a new one
      else CreateResource(s, r, status, kind, capacity, operator).store
    case OpUpdateResource(r, c, u, role, writes) => UpdateResource(s, r, c, u, role, writes).store
    case OpDeactivateResource(r) => DeactivateResource(s, r).store
    case OpCreateAssignment(i, r) => CreateAssignment(s, i, r).store
    case OpCompleteAssignment(a) => CompleteAssignment(s, a).store
    case OpCancelAssignment(a) => CancelAssignment(s, a).store
  }

  ghost predicate CanPlan(w: World, op: Op) {
    op.OpPlanReopt? && op.k < |w.plans| && ListsTable(op.cs, w.store.resources)
  }

  ghost predicate CanCommit(w: World, op: Op) {
    op.OpCommitReopt? && op.k < |w.plans| && w.plans[op.k].replacement.Some?
  }

  ghost function StepLoad(w: World, op: Op): World
    requires WellFormed(w) && op.OpLoadReopt?
  {
    var t := LoadReopt(w.store, op.a, op.trigger, op.access);
    World(t.store,
          if t.result.Ok? && t.result.value.Some? then w.plans + [t.result.value.value] else w.plans,
          w.swaps)
  }

  ghost function StepPlan(w: World, op: Op): World
    requires WellFormed(w) && CanPlan(w, op)
  {
    var (store, plan) := PlanReopt(w.store, w.plans[op.k], op.cs, op.speed);
    World(store, w.plans[op.k := plan], w.swaps)
  }

  ghost function StepCommit(w: World, op: Op): World
    requires WellFormed(w) && CanCommit(w, op)
  {
    var p := w.plans[op.k];
    assert PlanRefers(w.store, p);
    var t := CommitReopt(w.store, p);
    World(t.store, w.plans, if t.result.Ok? then w.swaps + [(p.assignmentId, t.result.value)] else w.swaps)
  }

  // One call.  A plan that does not exist or has no replacement yet can not be continued.
  ghost function Step(w: World, op: Op): World
    requires WellFormed(w)
  {
    if op.OpLoadReopt? then StepLoad(w, op)
    else if CanPlan(w, op) then StepPlan(w, op)
    else if CanCommit(w, op) then StepCommit(w, op)
    else if Reoptimizes(op) then w
    else w.(store := Apply(w.store, op))
  }

  // The beginning: resources in any state but BUSY, and nothing else.
  ghost predicate Init(w: World) {
    && w.store.incidents == [] && w.store.assignments == [] && w.store.outbox == [] && w.store.decisions == []
    && w.store.reoptLogs == [] && w.plans == [] && w.swaps == []
    && forall r <- w.store.resources :: !w.store.resources[r].status.Busy?
  }

  // Rows are never removed, and an assignment keeps its incident and its resource.
  ghost predicate Grows(s: Store, t: Store) {
    && |s.incidents| <= |t.incidents|
    && s.resources.Keys <= t.resources.Keys
    && |s.assignments| <= |t.assignments|
    && forall k | 0 <= k < |s.assignments| ::
         t.assignments[k].incidentId == s.assignments[k].incidentId
         && t.assignments[k].resourceId == s.assignments[k].resourceId
  }

  lemma PlansSurvive(s: Store, t: Store, plans: seq<Plan>)
    requires Grows(s, t) && forall k | 0 <= k < |plans| :: PlanRefers(s, plans[k])
    ensures forall k | 0 <= k < |plans| :: PlanRefers(t, plans[k])
  {}

  lemma ApplyKeepsShape(s: Store, op: Op)
    requires s.References()
    requires !Reoptimizes(op)
    ensures Apply(s, op).References() && Grows(s, Apply(s, op))
  {}

  lemma CommitKeepsShape(s: Store, p: Plan)
    requires s.References() && PlanRefers(s, p) && p.replacement.Some?
    ensures var t := CommitReopt(s, p).store; t.References() && Grows(s, t)
  {}

  lemma LoadKeepsShape(w: World, op: Op)
    requires WellFormed(w) && op.OpLoadReopt?
    ensures WellFormed(StepLoad(w, op)) && Grows(w.store, StepLoad(w, op).store)
  {}

  // Planning writes a log row and fills in the replacement of one plan, no more.
  lemma PlanKeepsShape(w: World, k: nat, logs: seq<ReoptLog>, replacement: Option<Id>)
    requires WellFormed(w) && k < |w.plans|
    ensures var v := World(w.store.(reoptLogs := logs), w.plans[k := w.plans[k].(replacement := replacement)], w.swaps);
      WellFormed(v) && Grows(w.store, v.store)
  {}

  // Every step keeps the world well formed, so runs are defined for all sequences of calls.
  lemma StepKeepsWellFormed(w: World, op: Op)
    requires WellFormed(w)
    ensures WellFormed(Step(w, op)) && Grows(w.store, Step(w, op).store)
  {
    if op.OpLoadReopt? {
      LoadKeepsShape(w, op);
    } else if CanPlan(w, op) {
      var (store, plan) := PlanReopt(w.store, w.plans[op.k], op.cs, op.speed);
      PlanKeepsShape(w, op.k, store.reoptLogs, plan.replacement);
    } else if CanCommit(w, op) {
      assert PlanRefers(w.store, w.plans[op.k]);
      CommitKeepsShape(w.store, w.plans[op.k]);
      PlansSurvive(w.store, StepCommit(w, op).store, w.plans);
    } else if !Reoptimizes(op) {
      ApplyKeepsShape(w.store, op);
      PlansSurvive(w.store, Apply(w.store, op), w.plans);
    }
  }

  // A run: it begins as above, and ws[k + 1] is what call ops[k] makes of ws[k].  Step is defined on
  // well-formed worlds; that every world of a run is one is the lemma below.
  ghost predicate IsRun(ws: seq<World>, ops: seq<Op>) {
    && |ws| == |ops| + 1
    && Init(ws[0])
    && forall k {:trigger ops[k]} | 0 <= k < |ops| && WellFormed(ws[k]) :: ws[k + 1] == Step(ws[k], ops[k])
  }

  lemma InitIsWellFormed(w: World)
    requires Init(w)
    ensures WellFormed(w)
  {}

  lemma NextInRun(ws: seq<World>, ops: seq<Op>, n: nat)
    requires IsRun(ws, ops) && n < |ops| && WellFormed(ws[n])
    ensures ws[n + 1] == Step(ws[n], ops[n])
  {
    var op := ops[n];
  }

  lemma {:induction false} RunsAreWellFormed(ws: seq<World>, ops: seq<Op>, n: nat)
    requires IsRun(ws, ops) && n <= |ops|
    ensures WellFormed(ws[n])
    ensures n < |ops| ==> ws[n + 1] == Step(ws[n], ops[n])
  {
    if n == 0 {
      InitIsWellFormed(ws[0]);
    } else {
      RunsAreWellFormed(ws, ops, n - 1);
      StepKeepsWellFormed(ws[n - 1], ops[n - 1]);
    }
    if n < |ops| { NextInRun(ws, ops, n); }
  }

  // ------------------------------------------------------------------ what a run can reach

  ghost predicate Reached(w: World) { exists ws, ops :: IsRun(ws, ops) && ws[|ops|] == w }

  lemma BeginningIsReached(w: World)
    requires Init(w)
    ensures Reached(w)
  {
    var none: seq<Op> := [];
    assert IsRun([w], none) && [w][|none|] == w;
  }

  lemma StepIsReached(w: World, op: Op)
    requires Reached(w)
    ensures WellFormed(w) && Reached(Step(w, op))
  {
    var ws, ops :| IsRun(ws, ops) && ws[|ops|] == w;
    RunsAreWellFormed(ws, ops, |ops|);
    var ws', ops' := ws + [Step(w, op)], ops + [op];
    forall k {:trigger ops'[k]} | 0 <= k < |ops'| && WellFormed(ws'[k]) ensures ws'[k + 1] == Step(ws'[k], ops'[k]) {
      if k < |ops| { assert ops'[k] == ops[k]; }
    }
    assert IsRun(ws', ops') && ws'[|ops'|] == Step(w, op);
  }
}
