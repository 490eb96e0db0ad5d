// When an assignment is created, replaced or finished and what that leaves behind, said in terms of
// rows, statuses and letters.  Nothing here mentions a guard, a decision or a write of the
// transactions.

module Eligibility {
  import opened Domain
  import opened Allocation
  import opened Dispatch
  import opened Coherence
  import opened Words
  import opened Selection
  import Swaps

  // An ACTIVE assignment other than `but` has the resource, or the incident.
  ghost predicate Engaged(s: Store, r: Id, but: Option<Id>) {
    exists k | 0 <= k < |s.assignments| ::
      Some(k) != but && s.assignments[k].status.Active? && s.assignments[k].resourceId == r
  }

  ghost predicate Attended(s: Store, i: Id, but: Option<Id>) {
    exists k | 0 <= k < |s.assignments| ::
      Some(k) != but && s.assignments[k].status.Active? && s.assignments[k].incidentId == i
  }

  ghost predicate Awaiting(s: Store, i: Id) { i < |s.incidents| && s.incidents[i].status.Approved? }

  ghost predicate Ready(s: Store, r: Id) { r in s.resources && s.resources[r].status.Available? }

  // ------------------------------------------------------------------ createAssignment

  // It goes through exactly for an APPROVED incident and an AVAILABLE resource of an accepted type
  // that is large enough, neither of them assigned; each refusal is answered in exactly one case.
  lemma AssignedIff(s: Store, i: Id, r: Id)
    ensures var t := CreateAssignment(s, i, r);
      && (t.result.Err? ==> t.store == s && t.result.error.Http() == if t.result.error.NotFound? then 404 else 409)
      && (t.result == Err(NotFound) <==> i >= |s.incidents| || (Awaiting(s, i) && r !in s.resources))
      && (t.result == Err(IncidentNotEligible) <==> i < |s.incidents| && !Awaiting(s, i))
      && (t.result == Err(ResourceNotAvailable) <==> Awaiting(s, i) && r in s.resources && !Ready(s, r))
      && (if !(Awaiting(s, i) && Ready(s, r)) then
            t.result.Err? && t.result.error in {NotFound, IncidentNotEligible, ResourceNotAvailable}
          else
            var incident, row := s.incidents[i], s.resources[r];
            var accepted, room := Accepts(incident.requirements, row.kind), row.capacity >= incident.affectedPeople;
            var engaged, attended := Engaged(s, r, None), Attended(s, i, None);
            && (t.result.Ok? <==> accepted && room && !engaged && !attended)
            && (t.result == Err(ResourceTypeMismatch) <==> !accepted)
            && (t.result == Err(ResourceCapacityInsufficient) <==> accepted && !room)
            && (t.result == Err(ResourceAlreadyAssigned) <==> accepted && room && engaged)
            && (t.result == Err(IncidentAlreadyAssigned) <==> accepted && room && !engaged && attended))
  {
    if Awaiting(s, i) && Ready(s, r) { TypeMatchesIff(s.resources[r].kind, s.incidents[i].requirements); }
    assert s.ResourceTaken(r) <==> Engaged(s, r, None);
    assert s.IncidentTaken(i) <==> Attended(s, i, None);
  }

  // All that a created assignment leaves behind.
  lemma AssignedWrites(s: Store, i: Id, r: Id)
    requires CreateAssignment(s, i, r).result.Ok?
    ensures var t := CreateAssignment(s, i, r); var n := |s.assignments|;
      && t.result == Ok(n) && i < |s.incidents| && r in s.resources
      && t.store.assignments == s.assignments + [Assignment(i, r, AssignmentStatus.Active, false)]
      && t.store.resources == s.resources[r := s.resources[r].(status := Busy)]
      && t.store.incidents == s.incidents[i := s.incidents[i].(status := Assigned)]
      && t.store.outbox == s.outbox + [AssignmentCreated(n, i, r)]
      && t.store.decisions == s.decisions + [ResourceAssignment(i, r)]
      && t.store.reoptLogs == s.reoptLogs
  {}

  // ------------------------------------------------------------------ completing and cancelling

  // What an ending of assignment a leaves behind: its row, its resource and its incident, in these
  // statuses, and one event.
  ghost predicate Ended(
    s: Store, t: Store, a: Id, row: AssignmentStatus, incident: IncidentStatus, told: Event)
    requires s.References() && a < |s.assignments|
  {
    var was := s.assignments[a];
    && t.assignments == s.assignments[a := Assignment(was.incidentId, was.resourceId, row, true)]
    && t.resources == s.resources[was.resourceId := s.resources[was.resourceId].(status := Available)]
    && t.incidents == s.incidents[was.incidentId := s.incidents[was.incidentId].(status := incident)]
    && t.outbox == s.outbox + [told]
    && t.decisions == s.decisions && t.reoptLogs == s.reoptLogs
  }

  // Completing goes through exactly for an ACTIVE row, cancelling also for a PENDING one; what is
  // refused changes nothing.
  lemma EndedIff(s: Store, a: Id)
    requires s.References()
    ensures var done, off := CompleteAssignment(s, a), CancelAssignment(s, a);
      && (done.result.Ok? <==> a < |s.assignments| && s.assignments[a].status.Active?)
      && (off.result.Ok? <==>
            a < |s.assignments| && (s.assignments[a].status.Active? || s.assignments[a].status.Pending?))
      && (done.result.Err? ==> done.store == s && (done.result.error.Http() == 404 <==> a >= |s.assignments|))
      && (off.result.Err? ==> off.store == s && (off.result.error.Http() == 404 <==> a >= |s.assignments|))
      && (done.result.Err? && a < |s.assignments| ==> done.result.error.Http() == 400)
      && (off.result.Err? && a < |s.assignments| ==> off.result.error.Http() == 400)
  {}

  lemma EndedWrites(s: Store, a: Id)
    requires s.References() && a < |s.assignments|
    ensures var was := s.assignments[a]; var st := s.incidents[was.incidentId].status;
      && (CompleteAssignment(s, a).result.Ok? ==>
            Ended(s, CompleteAssignment(s, a).store, a, AssignmentStatus.Completed, InProgress,
                  AssignmentCompleted(a, was.incidentId, was.resourceId)))
      && (CancelAssignment(s, a).result.Ok? ==>
            Ended(s, CancelAssignment(s, a).store, a, AssignmentStatus.Cancelled,
                  if st.Assigned? then Approved else st,
                  AssignmentCancelled(a, was.incidentId, was.resourceId)))
  {
    var i := s.assignments[a].incidentId;
    assert s.incidents == s.incidents[i := s.incidents[i].(status := s.incidents[i].status)];
  }

  // ------------------------------------------------------------------ the need for a replacement

  // The resource can not go on serving the incident.
  ghost predicate Unfit(row: Resource, incident: Incident) {
    || row.status in {Failed, Maintenance, Unavailable}
    || row.capacity < incident.affectedPeople
    || !Accepts(incident.requirements, row.kind)
  }

  // Nobody has to be sent, not yet or not any more.
  ghost predicate Over(st: IncidentStatus) { st.Pending? || st.Rejected? || st.Completed? || st.Cancelled? }

  // A re-optimization of an ACTIVE assignment looks for a replacement if and only if the resource is
  // unfit or the road is reported blocked, and the trigger is not a higher-priority incident.
  lemma ReplanIff(s: Store, a: Id, trigger: Trigger, access: AccessCondition)
    requires s.References()
    ensures var t := LoadReopt(s, a, trigger, access);
      && (t.result == Err(NotFound) <==> a >= |s.assignments|)
      && (t.result == Err(AssignmentNotActive) <==> a < |s.assignments| && !s.assignments[a].status.Active?)
      && (t.result.Err? ==>
            && t.store == s && t.result.error in {NotFound, AssignmentNotActive, IncidentNotActive}
            && t.result.error.Http() == if t.result.error.NotFound? then 404 else 409)
      && (a < |s.assignments| && s.assignments[a].status.Active? ==>
            var was := s.assignments[a];
            var incident, row := s.incidents[was.incidentId], s.resources[was.resourceId];
            var blocked := trigger.AccessConditionChange? && access.Blocked?;
            && (t.result.Err? <==> Over(incident.status))
            && (t.result.Ok? ==>
                  && (t.result.value.Some? <==> !trigger.HigherPriorityIncident? && (Unfit(row, incident) || blocked))
                  && (t.result.value.None? ==> t.store == LoggedOnly(s, a))
                  && (t.result.value.Some? ==>
                        t.store == s
                        && t.result.value.value ==
                             Plan(a, was.incidentId, was.resourceId, incident.affectedPeople, incident.requirements,
                                  if trigger.AccessConditionChange? then access else Normal, None))))
  {
    if a < |s.assignments| {
      var was := s.assignments[a];
      TypeMatchesIff(s.resources[was.resourceId].kind, s.incidents[was.incidentId].requirements);
    }
  }

  // One "not replaced" log more and nothing else.
  ghost function LoggedOnly(s: Store, a: Id): Store
    requires a < |s.assignments|
  {
    var was := s.assignments[a];
    s.(reoptLogs := s.reoptLogs + [ReoptLog(was.incidentId, a, was.resourceId, None, false)])
  }

  // Of the candidates other than the current resource, c fits and leads all that fit.
  ghost predicate TakesOver(c: Candidate, cs: seq<Candidate>, p: Plan, speed: real) {
    && c in cs && c.id != p.resourceId && Fits(c.row, p.people, p.requirements)
    && forall d <- cs | d.id != p.resourceId && Fits(d.row, p.people, p.requirements) && d != c ::
         Leads(c, d, if p.access.Normal? then 60 else 90, speed)
  }

  // The plan goes on with the candidate that takes over; without one, or on a blocked road, one log
  // row is all that happens.
  lemma PlannedIff(s: Store, p: Plan, cs: seq<Candidate>, speed: real)
    requires speed > 0.0 && DistinctIds(cs) && p.replacement.None?
    ensures var (t, q) := PlanReopt(s, p, cs, speed);
      && q.(replacement := None) == p
      && (forall c <- cs :: q.replacement == Some(c.id) <==> !p.access.Blocked? && TakesOver(c, cs, p, speed))
      && (q.replacement.Some? ==> t == s && exists c <- cs :: c.id == q.replacement.value)
      && (q.replacement.None? ==>
            && (p.access.Blocked?
                || forall c <- cs | c.id != p.resourceId :: !Fits(c.row, p.people, p.requirements))
            && t == s.(reoptLogs :=
                         s.reoptLogs + [ReoptLog(p.incidentId, p.assignmentId, p.resourceId, None, false)]))
  {
    var others := Alternatives(cs, p.resourceId);
    var choice := FindReplacement(others, p.people, p.requirements, speed, p.access);
    Swaps.AlternativesStayDistinct(cs, p.resourceId);
    ReplacementIff(others, p.people, p.requirements, speed, p.access, choice);
    forall c <- cs ensures choice == Some(c) <==> !p.access.Blocked? && TakesOver(c, cs, p, speed) {
      ReplacementIff(others, p.people, p.requirements, speed, p.access, Some(c));
    }
  }

  // ------------------------------------------------------------------ the swap

  // A swap goes through exactly while its assignment is ACTIVE, its replacement AVAILABLE, of an
  // accepted type and large enough, and no other ACTIVE assignment has the replacement or the
  // incident.
  lemma SwappedIff(s: Store, p: Plan)
    requires s.References() && PlanRefers(s, p) && p.replacement.Some?
    ensures var t := CommitReopt(s, p); var r := p.replacement.value; var a := p.assignmentId;
      && (t.result.Err? ==> t.store == s && t.result.error.Http() == 409)
      && (t.result == Err(AssignmentNotActive) <==> !s.assignments[a].status.Active?)
      && (t.result == Err(ResourceNotAvailable) <==> s.assignments[a].status.Active? && !Ready(s, r))
      && (if !(s.assignments[a].status.Active? && Ready(s, r)) then
            t.result.Err? && t.result.error in {AssignmentNotActive, ResourceNotAvailable}
          else
            var accepted, room := Accepts(p.requirements, s.resources[r].kind), s.resources[r].capacity >= p.people;
            var clash := Engaged(s, r, Some(a)) || Attended(s, p.incidentId, Some(a));
            && (t.result.Ok? <==> accepted && room && !clash)
            && (t.result == Err(ResourceTypeMismatch) <==> !accepted)
            && (t.result == Err(ResourceCapacityInsufficient) <==> accepted && !room)
            && (t.result == Err(ReoptimizationConflict) <==> accepted && room && clash))
  {
    var r, a := p.replacement.value, p.assignmentId;
    var mid := s.WithRelease(a, AssignmentStatus.Cancelled);
    if Ready(s, r) { TypeMatchesIff(s.resources[r].kind, p.requirements); }
    ReleasedApart(s, a, r, p.incidentId);
  }

  lemma ReleasedApart(s: Store, a: Id, r: Id, i: Id)
    requires a < |s.assignments|
    ensures var mid := s.WithRelease(a, AssignmentStatus.Cancelled);
      && (mid.ResourceTaken(r) <==> Engaged(s, r, Some(a)))
      && (mid.IncidentTaken(i) <==> Attended(s, i, Some(a)))
  {
    var mid := s.WithRelease(a, AssignmentStatus.Cancelled);
    assert forall k | 0 <= k < |s.assignments| && k != a :: mid.assignments[k] == s.assignments[k];
    if Engaged(s, r, Some(a)) {
      var k :| 0 <= k < |s.assignments| && Some(k) != Some(a)
               && s.assignments[k].status.Active? && s.assignments[k].resourceId == r;
      assert mid.assignments[k].status.Active? && mid.assignments[k].resourceId == r;
    }
    if Attended(s, i, Some(a)) {
      var k :| 0 <= k < |s.assignments| && Some(k) != Some(a)
               && s.assignments[k].status.Active? && s.assignments[k].incidentId == i;
      assert mid.assignments[k].status.Active? && mid.assignments[k].incidentId == i;
    }
  }

  // What a swap of assignment a for resource r leaves behind.
  ghost predicate Swapped(s: Store, t: Store, a: Id, r: Id)
    requires s.References() && a < |s.assignments|
  {
    var was := s.assignments[a];
    && r in s.resources
    && t.assignments == s.assignments[a := was.(status := AssignmentStatus.Cancelled, released := true)]
                        + [Assignment(was.incidentId, r, AssignmentStatus.Active, false)]
    && t.resources.Keys == s.resources.Keys
    && (forall x <- s.resources ::
          t.resources[x] ==
            if x == r then s.resources[x].(status := Busy)
            else if x == was.resourceId && s.resources[x].status.Busy? then s.resources[x].(status := Available)
            else s.resources[x])
    && t.incidents == s.incidents && t.outbox == s.outbox
    && t.decisions == s.decisions + [ResourceAssignment(was.incidentId, r)]
    && t.reoptLogs == s.reoptLogs + [ReoptLog(was.incidentId, a, was.resourceId, Some(r), true)]
  }

  lemma SwapWrites(s: Store, p: Plan)
    requires s.References() && PlanRefers(s, p) && p.replacement.Some? && CommitReopt(s, p).result.Ok?
    ensures CommitReopt(s, p).result == Ok(|s.assignments|)
    ensures Swapped(s, CommitReopt(s, p).store, p.assignmentId, p.replacement.value)
  {}

  // ------------------------------------------------------------------ a whole re-optimization

  // Snapshot, choice and swap with nobody in between; the new assignment, if there is one.
  ghost function Reoptimize(
    s: Store, a: Id, trigger: Trigger, access: AccessCondition, cs: seq<Candidate>, speed: real): Txn<Option<Id>>
    requires s.References()
  {
    var loaded := LoadReopt(s, a, trigger, access);
    match loaded.result
    case Err(e) => Txn(loaded.store, Err(e))
    case Ok(None) => Txn(loaded.store, Ok(None))
    case Ok(Some(plan)) =>
      var (chosen, p) := PlanReopt(loaded.store, plan, cs, speed);
      if p.replacement.None? then Txn(chosen, Ok(None))
      else
        var t := CommitReopt(chosen, p);
        Txn(t.store, if t.result.Ok? then Ok(Some(t.result.value)) else Err(t.result.error))
  }

  // Another resource can take over.
  ghost predicate Relieves(s: Store, a: Id, r: Id)
    requires s.References() && a < |s.assignments|
  {
    var was := s.assignments[a]; var incident := s.incidents[was.incidentId];
    r in s.resources && r != was.resourceId && Fits(s.resources[r], incident.affectedPeople, incident.requirements)
  }

  ghost predicate Wanted(s: Store, a: Id, trigger: Trigger, access: AccessCondition)
    requires s.References() && a < |s.assignments|
  {
    var was := s.assignments[a];
    && !trigger.HigherPriorityIncident?
    && !(trigger.AccessConditionChange? && access.Blocked?)
    && Unfit(s.resources[was.resourceId], s.incidents[was.incidentId])
  }

  lemma ReplacementFits(
    cs: seq<Candidate>, excluded: Id, people: int, reqs: seq<string>, speed: real, access: AccessCondition)
    requires DistinctIds(cs)
    ensures var r := FindReplacement(Alternatives(cs, excluded), people, reqs, speed, access);
      && (r.Some? ==>
            !access.Blocked? && r.value in cs && r.value.id != excluded && Fits(r.value.row, people, reqs))
      && (r.None? ==> access.Blocked? || forall c <- cs | c.id != excluded :: !Fits(c.row, people, reqs))
  {
    var others := Alternatives(cs, excluded);
    Swaps.AlternativesStayDistinct(cs, excluded);
    forall c <- cs ensures Fits(c.row, people, reqs) <==> Feasible(c.row, people, reqs) {
      FitsIsFeasible(c.row, people, reqs);
    }
    if !access.Blocked? { Swaps.RecommendationIsFeasible(others, people, reqs, speed / Multiplier(access)); }
  }

  // The plan remembers what the tables say.
  ghost predicate Remembers(s: Store, a: Id, p: Plan)
    requires s.References() && a < |s.assignments|
  {
    var was := s.assignments[a];
    && p.assignmentId == a && p.incidentId == was.incidentId && p.resourceId == was.resourceId
    && p.people == s.incidents[was.incidentId].affectedPeople
    && p.requirements == s.incidents[was.incidentId].requirements
  }

  // A choice among the other candidates that fit, read from the table.
  lemma FittingRelieves(s: Store, a: Id, plan: Plan, cs: seq<Candidate>, choice: Option<Candidate>)
    requires s.References() && ListsTable(cs, s.resources) && a < |s.assignments| && Remembers(s, a, plan)
    requires choice.Some? ==>
               && choice.value in cs && choice.value.id != plan.resourceId
               && Fits(choice.value.row, plan.people, plan.requirements)
    requires choice.None? ==> forall c <- cs | c.id != plan.resourceId :: !Fits(c.row, plan.people, plan.requirements)
    ensures choice.Some? <==> exists r :: Relieves(s, a, r)
    ensures choice.Some? ==> Relieves(s, a, choice.value.id)
  {
    if choice.Some? { assert Relieves(s, a, choice.value.id); }
  }

  lemma ChoiceRelieves(s: Store, a: Id, plan: Plan, cs: seq<Candidate>, speed: real)
    requires s.References() && ListsTable(cs, s.resources) && a < |s.assignments|
    requires Remembers(s, a, plan) && plan.replacement.None?
    ensures var (t, p) := PlanReopt(s, plan, cs, speed);
      && Remembers(s, a, p)
      && (p.replacement.Some? <==> !plan.access.Blocked? && exists r :: Relieves(s, a, r))
      && (p.replacement.Some? ==> t == s && Relieves(s, a, p.replacement.value))
      && (p.replacement.None? ==> t == LoggedOnly(s, a))
  {
    var choice :=
      FindReplacement(Alternatives(cs, plan.resourceId), plan.people, plan.requirements, speed, plan.access);
    ReplacementFits(cs, plan.resourceId, plan.people, plan.requirements, speed, plan.access);
    if !plan.access.Blocked? { FittingRelieves(s, a, plan, cs, choice); }
  }

  lemma ReliefCommits(s: Store, a: Id, p: Plan, r: Id)
    requires s.References() && Coherent(s) && a < |s.assignments| && s.assignments[a].status.Active?
    requires Remembers(s, a, p) && p.replacement == Some(r) && Relieves(s, a, r)
    ensures CommitReopt(s, p).result == Ok(|s.assignments|)
    ensures Swapped(s, CommitReopt(s, p).store, a, r)
  {
    FitsIsFeasible(s.resources[r], p.people, p.requirements);
    Swaps.FreshGuardPasses(s, p, r);
    SwapWrites(s, p);
  }

  // In coherent tables an ACTIVE assignment is never refused.
  lemma ReplanInCoherent(s: Store, a: Id, trigger: Trigger, access: AccessCondition)
    requires s.References() && Coherent(s) && a < |s.assignments| && s.assignments[a].status.Active?
    ensures var t := LoadReopt(s, a, trigger, access); var was := s.assignments[a];
      && t.result.Ok?
      && (t.result.value.Some? ==>
            t.store == s && Remembers(s, a, t.result.value.value) && t.result.value.value.replacement.None?
            && (t.result.value.value.access.Blocked? <==> trigger.AccessConditionChange? && access.Blocked?))
      && (t.result.value.Some? <==>
            !trigger.HigherPriorityIncident?
            && (Unfit(s.resources[was.resourceId], s.incidents[was.incidentId])
                || (trigger.AccessConditionChange? && access.Blocked?)))
      && (t.result.value.None? ==> t.store == LoggedOnly(s, a))
  {
    ReplanIff(s, a, trigger, access);
    assert s.IncidentTaken(s.assignments[a].incidentId);
  }

  // Undisturbed in coherent tables it replaces the resource of an ACTIVE assignment if and only if
  // that resource is unfit, another one can take over, and the trigger is neither a higher-priority
  // incident nor a blocked road.  It never fails, and where it does not replace it only logs.
  lemma ReplacedIff(s: Store, a: Id, trigger: Trigger, access: AccessCondition, cs: seq<Candidate>, speed: real)
    requires s.References() && Coherent(s) && ListsTable(cs, s.resources)
    requires a < |s.assignments| && s.assignments[a].status.Active?
    ensures var t := Reoptimize(s, a, trigger, access, cs, speed);
      && t.result.Ok?
      && (t.result.value.Some? <==> Wanted(s, a, trigger, access) && exists r :: Relieves(s, a, r))
      && (t.result.value.Some? ==>
            t.result.value.value == |s.assignments| && exists r :: Relieves(s, a, r) && Swapped(s, t.store, a, r))
      && (t.result.value.None? ==> t.store == LoggedOnly(s, a))
  {
    ReplanInCoherent(s, a, trigger, access);
    var loaded := LoadReopt(s, a, trigger, access);
    if loaded.result.value.Some? {
      var plan := loaded.result.value.value;
      ChoiceRelieves(s, a, plan, cs, speed);
      var (chosen, p) := PlanReopt(s, plan, cs, speed);
      if p.replacement.Some? { ReliefCommits(s, a, p, p.replacement.value); }
    }
  }
}
