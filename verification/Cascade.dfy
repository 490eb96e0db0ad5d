// Handlers that emit further events: every chain of events ends, and one change of a resource's
// status causes a bounded number of delivery attempts, however often handlers fail or the worker
// crashes after emitting.

module Cascade {
  import opened Domain
  import opened Dispatch
  import Departures

  predicate InvalidatesAssignment(st: ResourceStatus) { st.Failed? || st.Maintenance? || st.Unavailable? }

  function TriggerOf(st: ResourceStatus): Trigger {
    if st.Failed? then ResourceFailure else if st.Maintenance? then ResourceMaintenance else ResourceUnavailable
  }

  // What the resource-status handler asks for; rows is the assignment table when it looks.
  function Request(r: Id, newStatus: Option<ResourceStatus>, rows: seq<Assignment>): Option<Event> {
    var found := FirstActive(rows, r, 0);
    if newStatus.Some? && InvalidatesAssignment(newStatus.value) && found.Some?
    then Some(ReoptimizationRequested(rows[found.value].incidentId, found.value, TriggerOf(newStatus.value)))
    else None
  }

  // What the handler that processJob routes an event to writes to the outbox, if it gets that far.
  // RESOURCE_FAILURE_DETECTED goes to the same handler as RESOURCE_STATUS_CHANGED, without a status.
  function Emits(e: Event, rows: seq<Assignment>): Option<Event> {
    match e
    case IncidentCreated(i) => Some(PriorityCalculated(i))
    case ResourceStatusChanged(r, st) => Request(r, Some(st), rows)
    case ResourceFailureDetected(r, _) => Request(r, None, rows)
    case ReoptimizationRequested(i, a, _) => Some(ReoptimizationCompleted(i, a))
    case _ => None
  }

  function Rank(e: Event): nat {
    match e
    case ResourceStatusChanged(_, st) => if InvalidatesAssignment(st) then 2 else 0
    case ReoptimizationRequested(_, _, _) => 1
    case IncidentCreated(_) => 1
    case _ => 0
  }

  lemma EmissionsGoDown(e: Event, rows: seq<Assignment>)
    ensures var f := Emits(e, rows); f.Some? ==> Rank(f.value) < Rank(e)
  {}

  // A queued job with the attempts it has left.
  datatype Job = Job(event: Event, left: nat)

  // How a delivery attempt ends: the event was already processed, the handler threw before its
  // outbox write, everything went well, or something failed after the outbox write.
  datatype Attempt = Skips | FailsEarly | Completes | FailsLate

  // One attempt on job i.  The attempt is used up; an unsupported type is not retried; whatever is
  // emitted becomes a job with all its attempts.
  function Run(jobs: seq<Job>, i: nat, how: Attempt, rows: seq<Assignment>, attempts: nat): seq<Job>
    requires i < |jobs| && jobs[i].left > 0
  {
    var job := jobs[i];
    var over := how.Skips? || how.Completes? || job.event.Unsupported?;
    var rest := jobs[i := Job(job.event, if over then 0 else job.left - 1)];
    var emitted := Emits(job.event, rows);
    if (how.Completes? || how.FailsLate?) && emitted.Some? then rest + [Job(emitted.value, attempts)] else rest
  }

  // The attempts one job of this rank can cause per attempt of its own.
  function Weight(rank: nat, attempts: nat): nat {
    if rank == 0 then 1 else attempts * Weight(rank - 1, attempts) + 1
  }

  function Potential(jobs: seq<Job>, attempts: nat): nat {
    if jobs == [] then 0
    else Potential(jobs[..|jobs| - 1], attempts)
         + jobs[|jobs| - 1].left * Weight(Rank(jobs[|jobs| - 1].event), attempts)
  }

  lemma PotentialAppend(jobs: seq<Job>, j: Job, attempts: nat)
    ensures Potential(jobs + [j], attempts)
         == Potential(jobs, attempts) + j.left * Weight(Rank(j.event), attempts)
  {}

  lemma {:induction false} PotentialUpdate(jobs: seq<Job>, i: nat, j: Job, attempts: nat)
    requires i < |jobs|
    ensures Potential(jobs[i := j], attempts)
         == Potential(jobs, attempts) - jobs[i].left * Weight(Rank(jobs[i].event), attempts)
            + j.left * Weight(Rank(j.event), attempts)
  {
    var n := |jobs| - 1;
    if i == n {
      assert jobs[i := j][..n] == jobs[..n];
    } else {
      PotentialUpdate(jobs[..n], i, j, attempts);
      assert jobs[i := j][..n] == jobs[..n][i := j];
    }
  }

  // A job of a lower rank weighs less, even with all its attempts.
  lemma {:induction false} LowerWeighsLess(low: nat, high: nat, attempts: nat)
    requires low < high
    ensures attempts * Weight(low, attempts) < Weight(high, attempts)
  {
    if low + 1 < high {
      LowerWeighsLess(low, high - 1, attempts);
      if attempts > 0 {
        Grow(attempts, Weight(high - 1, attempts));
      }
    }
  }

  lemma Grow(a: nat, w: nat)
    requires a > 0
    ensures a * w >= w
  {}

  lemma LeftDrops(left: nat, fewer: nat, w: nat)
    requires fewer < left
    ensures fewer * w + w <= left * w
  {
    assert left * w == fewer * w + (left - fewer) * w;
    Grow(left - fewer, w);
  }

  // Every attempt uses up potential, whatever it emits.
  lemma AttemptDrops(jobs: seq<Job>, i: nat, how: Attempt, rows: seq<Assignment>, attempts: nat)
    requires i < |jobs| && jobs[i].left > 0
    ensures Potential(Run(jobs, i, how, rows, attempts), attempts) < Potential(jobs, attempts)
  {
    var job, after := jobs[i], Run(jobs, i, how, rows, attempts);
    var w := Weight(Rank(job.event), attempts);
    var rest := jobs[i := after[i]];
    PotentialUpdate(jobs, i, after[i], attempts);
    LeftDrops(job.left, after[i].left, w);
    assert Potential(rest, attempts) + w <= Potential(jobs, attempts);
    EmissionsGoDown(job.event, rows);
    if |after| > |jobs| {
      var emitted := Emits(job.event, rows).value;
      PotentialAppend(rest, Job(emitted, attempts), attempts);
      LowerWeighsLess(Rank(emitted), Rank(job.event), attempts);
    } else {
      assert w >= 1;
    }
  }

  // A sequence of attempts and the queue before each of them.
  ghost predicate IsCascade(qs: seq<seq<Job>>, attempts: nat) {
    |qs| >= 1 && (|qs| == 1 || (Attempted(qs[0], qs[1], attempts) && IsCascade(qs[1..], attempts)))
  }

  ghost predicate Attempted(q: seq<Job>, q': seq<Job>, attempts: nat) {
    exists i: nat, how: Attempt, rows: seq<Assignment> {:trigger Run(q, i, how, rows, attempts)} ::
      i < |q| && q[i].left > 0 && q' == Run(q, i, how, rows, attempts)
  }

  lemma {:induction false} CascadeTerminates(qs: seq<seq<Job>>, attempts: nat)
    requires IsCascade(qs, attempts)
    ensures |qs| - 1 + Potential(qs[|qs| - 1], attempts) <= Potential(qs[0], attempts)
  {
    if |qs| > 1 {
      CascadeTerminates(qs[1..], attempts);
      var i: nat, how: Attempt, rows: seq<Assignment> :|
        i < |qs[0]| && qs[0][i].left > 0 && qs[1] == Run(qs[0], i, how, rows, attempts);
      AttemptDrops(qs[0], i, how, rows, attempts);
    }
  }

  lemma StatusChangeWeight(a: nat)
    ensures a * Weight(2, a) == a + a * a + a * a * a
  {
    assert Weight(1, a) == a * 1 + 1;
    var w := Weight(2, a);
    assert w == a * (a + 1) + 1 == a * a + a + 1;
    assert a * w == a * (a * a) + a * a + a;
  }

  // ------------------------------------------------------------------ one status change

  function Jobs(es: seq<Event>, attempts: nat): seq<Job> {
    if es == [] then [] else Jobs(es[..|es| - 1], attempts) + [Job(es[|es| - 1], attempts)]
  }

  lemma {:induction false} JobsOneByOne(es: seq<Event>, attempts: nat)
    ensures |Jobs(es, attempts)| == |es|
    ensures forall k | 0 <= k < |es| :: Jobs(es, attempts)[k] == Job(es[k], attempts)
  {
    if es != [] { JobsOneByOne(es[..|es| - 1], attempts); }
  }

  // What a call of updateResource adds to the outbox.
  function Told(s: Store, r: Id, c: ResourceChanges, userId: Id, role: Role, writes: nat): seq<Event> {
    var after := UpdateResource(s, r, c, userId, role, writes).store.outbox;
    if |s.outbox| <= |after| then after[|s.outbox|..] else []
  }

  // The most attempts that a job for e can cause, its own and those of all that follows.
  function Cost(e: Event, attempts: nat): nat { attempts * Weight(Rank(e), attempts) }

  // The most attempts that a change to `st` can cause.  A failure is told twice.
  function Most(st: ResourceStatus, attempts: nat): nat {
    Cost(ResourceStatusChanged(0, st), attempts) + if st.Failed? then attempts else 0
  }

  // In figures: 2 A + A^2 + A^3 for FAILED, A + A^2 + A^3 for the other failure statuses, A for
  // AVAILABLE and BUSY.
  lemma MostInFigures(st: ResourceStatus, a: nat)
    ensures Most(st, a) ==
      if st.Failed? then 2 * a + a * a + a * a * a
      else if st.Maintenance? || st.Unavailable? then a + a * a + a * a * a
      else a
  {
    StatusChangeWeight(a);
    assert Weight(0, a) == 1;
  }

  // An event that the call writes is about the status it sets, or tells of a failure without one.
  lemma ToldIs(s: Store, r: Id, c: ResourceChanges, userId: Id, role: Role, writes: nat)
    ensures var es := Told(s, r, c, userId, role, writes);
      || es == []
      || (c.status.Some? && es == [ResourceStatusChanged(r, c.status.value)])
      || (c.status == Some(ResourceStatus.Failed)
          && es == [ResourceStatusChanged(r, ResourceStatus.Failed),
                    ResourceFailureDetected(r, FirstActive(s.assignments, r, 0))])
    ensures c.status.Some? && r in s.resources && s.resources[r].status != c.status.value
            && role.Admin? && writes >= 2 ==>
      Told(s, r, c, userId, role, writes) == Full(s, r, c.status.value)
  {}

  // Everything there is to tell.
  function Full(s: Store, r: Id, st: ResourceStatus): seq<Event> {
    [ResourceStatusChanged(r, st)]
    + if st.Failed? then [ResourceFailureDetected(r, FirstActive(s.assignments, r, 0))] else []
  }

  lemma ChangePotential(r: Id, st: ResourceStatus, es: seq<Event>, attempts: nat)
    requires es == [ResourceStatusChanged(r, st)]
    ensures Potential(Jobs(es, attempts), attempts) == Cost(ResourceStatusChanged(0, st), attempts)
  {
    JobsOneByOne(es, attempts);
    assert Jobs(es, attempts) == [] + [Job(es[0], attempts)];
    PotentialAppend([], Job(es[0], attempts), attempts);
    assert Rank(es[0]) == Rank(ResourceStatusChanged(0, st));
  }

  lemma FailurePotential(r: Id, es: seq<Event>, attempts: nat)
    requires |es| == 2 && es[0] == ResourceStatusChanged(r, ResourceStatus.Failed) && es[1].ResourceFailureDetected?
    ensures Potential(Jobs(es, attempts), attempts) == Most(ResourceStatus.Failed, attempts)
  {
    ChangePotential(r, ResourceStatus.Failed, es[..1], attempts);
    PotentialAppend(Jobs(es[..1], attempts), Job(es[1], attempts), attempts);
    assert Weight(Rank(es[1]), attempts) == 1;
  }

  // One call of updateResource causes at most that many delivery attempts, 42 for FAILED with the
  // default A = 3, and none when the status stays.
  lemma StatusChangeBound(
    s: Store, r: Id, c: ResourceChanges, userId: Id, role: Role, writes: nat, qs: seq<seq<Job>>, attempts: nat)
    requires IsCascade(qs, attempts) && qs[0] == Jobs(Told(s, r, c, userId, role, writes), attempts)
    ensures |qs| - 1 <= if c.status.Some? then Most(c.status.value, attempts) else 0
  {
    CascadeTerminates(qs, attempts);
    ToldIs(s, r, c, userId, role, writes);
    var es := Told(s, r, c, userId, role, writes);
    if |es| == 1 {
      ChangePotential(r, c.status.value, es, attempts);
    } else if |es| == 2 {
      FailurePotential(r, es, attempts);
    }
  }

  // ------------------------------------------------------------------ the worker

  class EventWorker {
    var processed: set<nat>  // the ProcessedEvent table
    var outbox: seq<Event>
    var assignments: seq<Assignment>

    constructor (rows: seq<Assignment>)
      ensures processed == {} && outbox == [] && assignments == rows
    {
      processed, outbox, assignments := {}, [], rows;
    }

    method HandleResourceStatusChanged(r: Id, newStatus: Option<ResourceStatus>)
      modifies this`outbox
      ensures var request := Request(r, newStatus, assignments);
        outbox == old(outbox) + if request.Some? then [request.value] else []
    {
      if newStatus.None? || !InvalidatesAssignment(newStatus.value) { return; }
      var k := 0;
      while k < |assignments| && !(assignments[k].status.Active? && assignments[k].resourceId == r)
        invariant k <= |assignments| && outbox == old(outbox)
        invariant FirstActive(assignments, r, 0) == FirstActive(assignments, r, k)
      {
        k := k + 1;
      }
      if k == |assignments| { return; }
      var trigger := TriggerOf(newStatus.value);
      outbox := outbox + [ReoptimizationRequested(assignments[k].incidentId, k, trigger)];
    }

    // processJob: the environment decides whether the handler throws before its outbox write and
    // whether marking the event throws afterwards.
    method ProcessJob(id: nat, e: Event, handlerThrows: bool, markThrows: bool) returns (how: Attempt)
      modifies this`processed, this`outbox
      ensures how ==
        if id in old(processed) then Skips
        else if handlerThrows || e.Unsupported? then FailsEarly
        else if markThrows then FailsLate else Completes
      ensures processed == old(processed) + if how.Completes? then {id} else {}
      ensures outbox == old(outbox) +
        if (how.Completes? || how.FailsLate?) && Emits(e, assignments).Some? then [Emits(e, assignments).value] else []
    {
      if id in processed { return Skips; }
      if handlerThrows { return FailsEarly; }
      match e {
        case IncidentCreated(i) => outbox := outbox + [PriorityCalculated(i)];
        case ResourceStatusChanged(r, st) => HandleResourceStatusChanged(r, Some(st));
        case ResourceFailureDetected(r, _) => HandleResourceStatusChanged(r, None);
        case ReoptimizationRequested(i, a, _) => outbox := outbox + [ReoptimizationCompleted(i, a)];
        case Unsupported => return FailsEarly;
        case _ =>
      }
      if markThrows { return FailsLate; }
      processed := processed + {id};
      return Completes;
    }
  }

  // ------------------------------------------------------------------ the bound is exact

  // With these assignments each event on the way emits the next lower one, down to rank 0.
  predicate Saturated(e: Event, rows: seq<Assignment>)
    decreases Rank(e)
  {
    var f := Emits(e, rows);
    if f.None? then Rank(e) == 0 else Rank(f.value) + 1 == Rank(e) && Saturated(f.value, rows)
  }

  ghost predicate OnChain(jobs: seq<Job>, rows: seq<Assignment>) {
    forall k | 0 <= k < |jobs| :: Saturated(jobs[k].event, rows)
  }

  // Failing after the outbox write every time wastes nothing: each attempt costs exactly one.
  lemma WorstAttempt(jobs: seq<Job>, i: nat, rows: seq<Assignment>, attempts: nat)
    requires OnChain(jobs, rows) && i < |jobs| && jobs[i].left > 0 && !jobs[i].event.Unsupported?
    ensures OnChain(Run(jobs, i, FailsLate, rows, attempts), rows)
    ensures Potential(Run(jobs, i, FailsLate, rows, attempts), attempts) == Potential(jobs, attempts) - 1
  {
    var job := jobs[i];
    var w := Weight(Rank(job.event), attempts);
    var rest := jobs[i := Job(job.event, job.left - 1)];
    PotentialUpdate(jobs, i, rest[i], attempts);
    OneLess(job.left, w);
    var emitted := Emits(job.event, rows);
    if emitted.Some? {
      PotentialAppend(rest, Job(emitted.value, attempts), attempts);
      assert w == attempts * Weight(Rank(emitted.value), attempts) + 1;
    }
  }

  lemma OneLess(left: nat, w: nat)
    requires left > 0
    ensures left * w == (left - 1) * w + w
  {}

  lemma {:induction false} SomeLeft(jobs: seq<Job>, attempts: nat) returns (i: nat)
    requires Potential(jobs, attempts) > 0
    ensures i < |jobs| && jobs[i].left > 0
  {
    var n := |jobs| - 1;
    if jobs[n].left > 0 { i := n; } else { i := SomeLeft(jobs[..n], attempts); }
  }

  lemma {:induction false} WorstCascade(jobs: seq<Job>, rows: seq<Assignment>, attempts: nat)
    returns (qs: seq<seq<Job>>)
    requires OnChain(jobs, rows) && forall k | 0 <= k < |jobs| :: !jobs[k].event.Unsupported?
    ensures IsCascade(qs, attempts) && qs[0] == jobs && |qs| - 1 == Potential(jobs, attempts)
    decreases Potential(jobs, attempts)
  {
    if Potential(jobs, attempts) == 0 {
      qs := [jobs];
    } else {
      var i := SomeLeft(jobs, attempts);
      WorstAttempt(jobs, i, rows, attempts);
      var after := Run(jobs, i, FailsLate, rows, attempts);
      var rest := WorstCascade(after, rows, attempts);
      qs := [jobs] + rest;
      assert Attempted(jobs, after, attempts);
      assert qs[1..] == rest;
    }
  }

  // For every status there are a state that a run reaches, a call in it and a cascade of what the
  // call tells, with every one of these attempts.
  lemma StatusChangeBoundIsTight(st: ResourceStatus, attempts: nat)
    returns (w: World, c: ResourceChanges, qs: seq<seq<Job>>)
    ensures Reached(w) && 0 in w.store.resources && w.store.resources[0].status != st && c.status == Some(st)
    ensures IsCascade(qs, attempts) && qs[0] == Jobs(Told(w.store, 0, c, 0, Admin, 2), attempts)
    ensures |qs| - 1 == Most(st, attempts)
  {
    w := Departures.ReachServed(Assigned);
    if st.Busy? { w := Departures.Turn(w, Assigned, Admin, true, Busy, Available); }
    c := ResourceChanges(Some(st), None, None, None, false);
    ToldIs(w.store, 0, c, 0, Admin, 2);
    qs := WorstCascadeOf(Full(w.store, 0, st), st, w.store.assignments, attempts);
  }

  // Everything that a change to st tells.
  ghost predicate IsFull(es: seq<Event>, st: ResourceStatus) {
    if st.Failed? then |es| == 2 && es[0] == ResourceStatusChanged(0, st) && es[1].ResourceFailureDetected?
    else es == [ResourceStatusChanged(0, st)]
  }

  lemma FullIsSaturated(es: seq<Event>, st: ResourceStatus, rows: seq<Assignment>, k: nat)
    requires IsFull(es, st) && k < |es| && rows == [Assignment(0, 0, AssignmentStatus.Active, false)]
    ensures Saturated(es[k], rows) && !es[k].Unsupported?
  {
    assert FirstActive(rows, 0, 0) == Some(0);
  }

  lemma FullPotential(es: seq<Event>, st: ResourceStatus, attempts: nat)
    requires IsFull(es, st)
    ensures Potential(Jobs(es, attempts), attempts) == Most(st, attempts)
  {
    if st.Failed? {
      FailurePotential(0, es, attempts);
    } else {
      ChangePotential(0, st, es, attempts);
    }
  }

  lemma WorstCascadeOf(es: seq<Event>, st: ResourceStatus, rows: seq<Assignment>, attempts: nat)
    returns (qs: seq<seq<Job>>)
    requires IsFull(es, st) && rows == [Assignment(0, 0, AssignmentStatus.Active, false)]
    ensures IsCascade(qs, attempts) && qs[0] == Jobs(es, attempts) && |qs| - 1 == Most(st, attempts)
  {
    var jobs := Jobs(es, attempts);
    JobsOneByOne(es, attempts);
    forall k | 0 <= k < |jobs| ensures Saturated(jobs[k].event, rows) && !jobs[k].event.Unsupported? {
      FullIsSaturated(es, st, rows, k);
    }
    FullPotential(es, st, attempts);
    qs := WorstCascade(jobs, rows, attempts);
  }

  // The second event of a failure starts nothing, whatever the tables hold when it is handled.
  lemma FailureDetectedStartsNothing(
    s: Store, r: Id, c: ResourceChanges, userId: Id, role: Role, writes: nat, rows: seq<Assignment>)
    ensures var es := Told(s, r, c, userId, role, writes);
      |es| <= 2 && (|es| == 2 ==> es[1].ResourceFailureDetected? && Emits(es[1], rows).None?)
  {
    ToldIs(s, r, c, userId, role, writes);
  }

  // ------------------------------------------------------------------ what each event asks for

  // A change to a failure status asks to re-optimize the first ACTIVE assignment of the resource, with
  // the trigger that belongs to the status; a new incident asks for its priority and a
  // re-optimization reports back; nothing else emits.
  lemma EmitsIff(e: Event, rows: seq<Assignment>)
    ensures var f := Emits(e, rows);
      match e
      case IncidentCreated(i) => f == Some(PriorityCalculated(i))
      case ReoptimizationRequested(i, a, _) => f == Some(ReoptimizationCompleted(i, a))
      case ResourceStatusChanged(r, st) =>
        (f.Some? <==> st in {Failed, Maintenance, Unavailable} && exists k :: Serves(rows, r, k))
        && (f.Some? ==>
              && f.value.ReoptimizationRequested?
              && Serves(rows, r, f.value.assignmentId)
              && (forall j | 0 <= j < f.value.assignmentId :: !Serves(rows, r, j))
              && f.value.incidentId == rows[f.value.assignmentId].incidentId
              && (f.value.trigger.ResourceFailure? <==> st.Failed?)
              && (f.value.trigger.ResourceMaintenance? <==> st.Maintenance?)
              && (f.value.trigger.ResourceUnavailable? <==> st.Unavailable?))
      case _ => f.None?
  {
    if e.ResourceStatusChanged? {
      FirstActiveIsFirst(rows, e.resourceId, 0);
      var found := FirstActive(rows, e.resourceId, 0);
      if found.Some? { assert Serves(rows, e.resourceId, found.value); }
    }
  }

  ghost predicate Serves(rows: seq<Assignment>, r: Id, k: nat) {
    k < |rows| && rows[k].status.Active? && rows[k].resourceId == r
  }
}
