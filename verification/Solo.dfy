// The statement-level transactions against the atomic ones: a call that nobody interrupts does what
// its specification in Dispatch says, refusals included.

module Solo {
  import opened Domain
  import opened Dispatch
  import opened Race

  // A call that nobody interrupts, run for at most `fuel` statements.
  ghost function Solo(s: State, fuel: nat): State
    decreases fuel
  {
    if fuel == 0 || !Enabled(s, 0) then s else Solo(Race.Step(s, 0), fuel - 1)
  }

  function Alone(store: Store, c: Call, pc: Pc, w: Writes): State { State(store, [Proc(c, pc, w)]) }

  lemma Insert(store: Store, c: Call, w: Writes)
    requires w.insert.None?
    ensures var s := Alone(store, c, InsertRow, w);
      Enabled(s, 0) && Race.Step(s, 0) == State(store, [StepInsert(s, 0)])
  {}

  lemma SwapViolatesIff(store: Store, plan: Plan, w: Writes)
    requires plan.assignmentId < |store.assignments| && plan.replacement.Some?
    requires w.release == Some((plan.assignmentId, AssignmentStatus.Cancelled))
    ensures var cancelled := store.WithRelease(plan.assignmentId, AssignmentStatus.Cancelled);
      Alone(store, Swap(plan), InsertRow, w).UniqueViolation(plan.incidentId, plan.replacement.value)
      <==> cancelled.ResourceTaken(plan.replacement.value) || cancelled.IncidentTaken(plan.incidentId)
  {
    var s := Alone(store, Swap(plan), InsertRow, w);
    var i, r := plan.incidentId, plan.replacement.value;
    var cancelled := store.WithRelease(plan.assignmentId, AssignmentStatus.Cancelled);
    assert forall k | 0 <= k < |store.assignments| :: s.Releases(0, k) <==> k == plan.assignmentId;
    assert forall k | 0 <= k < |store.assignments| ::
        s.Conflicts(k, i, r) && k != plan.assignmentId
        <==> cancelled.assignments[k].status.Active?
             && (cancelled.assignments[k].resourceId == r || cancelled.assignments[k].incidentId == i);
    if cancelled.ResourceTaken(r) {
      var k :| 0 <= k < |store.assignments| && cancelled.assignments[k].status.Active?
               && cancelled.assignments[k].resourceId == r;
      assert s.Conflicts(k, i, r);
    }
    if cancelled.IncidentTaken(i) {
      var k :| 0 <= k < |store.assignments| && cancelled.assignments[k].status.Active?
               && cancelled.assignments[k].incidentId == i;
      assert s.Conflicts(k, i, r);
    }
    if s.UniqueViolation(i, r) {
      var k :| 0 <= k < |store.assignments| && s.Conflicts(k, i, r) && !s.Releases(0, k);
      assert cancelled.assignments[k].status.Active?;
    }
  }

  lemma Unfold(s: State, fuel: nat)
    requires Enabled(s, 0)
    ensures Solo(s, fuel + 1) == Solo(Race.Step(s, 0), fuel)
  {}

  function Ended<T>(c: Call, t: Txn<T>): State {
    Alone(t.store, c, Done(if t.result.Ok? then Committed else Refused(t.result.error)), Nothing)
  }

  // The statements of the swap from its insert on, run alone, do what the rest of the atomic
  // transaction does.
  lemma SwapTail(store: Store, plan: Plan, w: Writes)
    requires store.References() && PlanRefers(store, plan) && plan.replacement.Some?
    requires CommitGuard(store, plan) in {None, Some(ReoptimizationConflict)}
    requires plan.replacement.value in store.resources
    requires w == Nothing.(release := Some((plan.assignmentId, AssignmentStatus.Cancelled)),
                           freed := if store.resources[plan.resourceId].status.Busy?
                                    then Some(plan.resourceId) else None)
    ensures Solo(Alone(store, Swap(plan), InsertRow, w), 4) == Ended(Swap(plan), CommitReopt(store, plan))
  {
    var c, i, r := Swap(plan), plan.incidentId, plan.replacement.value;
    Insert(store, c, w);
    SwapViolatesIff(store, plan, w);
    Unfold(Alone(store, c, InsertRow, w), 3);
    if CommitGuard(store, plan).None? {
      var w1 := w.(insert := Some((i, r)));
      assert Race.Step(Alone(store, c, InsertRow, w), 0) == Alone(store, c, MarkBusy, w1);
      var w2 := w1.(busy := Some(r));
      assert Race.Step(Alone(store, c, MarkBusy, w1), 0) == Alone(store, c, Commit, w2);
      Unfold(Alone(store, c, MarkBusy, w1), 2);
      assert Publish(store, c, w2) == CommitReopt(store, plan).store;
      assert Race.Step(Alone(store, c, Commit, w2), 0) == Ended(c, CommitReopt(store, plan));
      Unfold(Alone(store, c, Commit, w2), 1);
    }
  }

  lemma SwapWrites(store: Store, plan: Plan)
    requires store.References() && PlanRefers(store, plan) && plan.replacement.Some?
    requires store.assignments[plan.assignmentId].status.Active?
    requires CommitGuard(store, plan) in {None, Some(ReoptimizationConflict)}
    ensures Solo(Alone(store, Swap(plan), Release, Nothing), 6) == Ended(Swap(plan), CommitReopt(store, plan))
  {
    var c := Swap(plan);
    Unfold(Alone(store, c, Release, Nothing), 5);
    var w := Nothing.(release := Some((plan.assignmentId, AssignmentStatus.Cancelled)));
    assert Race.Step(Alone(store, c, Release, Nothing), 0) == Alone(store, c, FreeOld, w);
    Unfold(Alone(store, c, FreeOld, w), 4);
    var w' := w.(freed := if store.resources[plan.resourceId].status.Busy? then Some(plan.resourceId) else None);
    assert Race.Step(Alone(store, c, FreeOld, w), 0) == Alone(store, c, InsertRow, w');
    SwapTail(store, plan, w');
  }

  // Run alone, the statements of a swap are the atomic transaction, refusals included.
  lemma SwapIsAtomic(store: Store, plan: Plan)
    requires store.References() && PlanRefers(store, plan) && plan.replacement.Some?
    ensures Solo(Alone(store, Swap(plan), ReadAssignment, Nothing), 8) == Ended(Swap(plan), CommitReopt(store, plan))
  {
    var c := Swap(plan);
    Unfold(Alone(store, c, ReadAssignment, Nothing), 7);
    if store.assignments[plan.assignmentId].status.Active? {
      assert Race.Step(Alone(store, c, ReadAssignment, Nothing), 0) == Alone(store, c, ReadReplacement, Nothing);
      Unfold(Alone(store, c, ReadReplacement, Nothing), 6);
      if CommitGuard(store, plan) in {None, Some(ReoptimizationConflict)} {
        assert Race.Step(Alone(store, c, ReadReplacement, Nothing), 0) == Alone(store, c, Release, Nothing);
        SwapWrites(store, plan);
      } else {
        assert Race.Step(Alone(store, c, ReadReplacement, Nothing), 0) == Ended(c, CommitReopt(store, plan));
      }
    }
  }

  lemma CreateTail(store: Store, i: Id, r: Id)
    requires CreateGuard(store, i, r).None?
    ensures Solo(Alone(store, Create(i, r), InsertRow, Nothing), 4)
         == Ended(Create(i, r), CreateAssignment(store, i, r))
  {
    var c := Create(i, r);
    Insert(store, c, Nothing);
    NoKeyOfMine(Alone(store, c, InsertRow, Nothing), i, r);
    Unfold(Alone(store, c, InsertRow, Nothing), 3);
    var w1 := Nothing.(insert := Some((i, r)));
    assert Race.Step(Alone(store, c, InsertRow, Nothing), 0) == Alone(store, c, MarkBusy, w1);
    Unfold(Alone(store, c, MarkBusy, w1), 2);
    var w2 := w1.(busy := Some(r));
    assert Race.Step(Alone(store, c, MarkBusy, w1), 0) == Alone(store, c, MarkAssigned, w2);
    Unfold(Alone(store, c, MarkAssigned, w2), 1);
    var w3 := w2.(incident := Some((i, Assigned)));
    assert Race.Step(Alone(store, c, MarkAssigned, w2), 0) == Alone(store, c, Commit, w3);
    assert Publish(store, c, w3) == CreateAssignment(store, i, r).store;
    Unfold(Alone(store, c, Commit, w3), 0);
  }

  // Run alone, the statements of createAssignment are the atomic transaction, with the same
  // refusal in the same order of checks.
  lemma CreateIsAtomic(store: Store, i: Id, r: Id)
    ensures Solo(Alone(store, Create(i, r), ReadIncident, Nothing), 8)
         == Ended(Create(i, r), CreateAssignment(store, i, r))
  {
    var c := Create(i, r);
    Unfold(Alone(store, c, ReadIncident, Nothing), 7);
    if i < |store.incidents| && store.incidents[i].status.Approved? {
      var read := ReadResource(store.incidents[i].affectedPeople, store.incidents[i].requirements);
      assert Race.Step(Alone(store, c, ReadIncident, Nothing), 0) == Alone(store, c, read, Nothing);
      Unfold(Alone(store, c, read, Nothing), 6);
      if CreateGuard(store, i, r) in {None, Some(ResourceAlreadyAssigned), Some(IncidentAlreadyAssigned)} {
        assert Race.Step(Alone(store, c, read, Nothing), 0) == Alone(store, c, CheckResource, Nothing);
        Unfold(Alone(store, c, CheckResource, Nothing), 5);
        if !store.ResourceTaken(r) {
          assert Race.Step(Alone(store, c, CheckResource, Nothing), 0) == Alone(store, c, CheckIncident, Nothing);
          Unfold(Alone(store, c, CheckIncident, Nothing), 4);
          if !store.IncidentTaken(i) {
            assert Race.Step(Alone(store, c, CheckIncident, Nothing), 0) == Alone(store, c, InsertRow, Nothing);
            CreateTail(store, i, r);
          }
        }
      } else {
        assert Race.Step(Alone(store, c, read, Nothing), 0) == Ended(c, CreateAssignment(store, i, r));
      }
    }
  }

  lemma FinishWrites(store: Store, a: Id, to: AssignmentStatus, t: Txn<nat>)
    requires store.References() && (to.Completed? || to.Cancelled?) && t.result.Ok?
    requires t == if to.Completed? then CompleteAssignment(store, a) else CancelAssignment(store, a)
    ensures Solo(Alone(store, Finish(a, to), Release, Nothing), 7) == Ended(Finish(a, to), t)
  {
    var c := Finish(a, to);
    Unfold(Alone(store, c, Release, Nothing), 6);
    var w := Nothing.(release := Some((a, to)));
    assert Race.Step(Alone(store, c, Release, Nothing), 0) == Alone(store, c, FreeOld, w);
    Unfold(Alone(store, c, FreeOld, w), 5);
    var w' := StepFinish(store, Proc(c, FreeOld, w)).writes;
    assert Race.Step(Alone(store, c, FreeOld, w), 0) == Alone(store, c, Commit, w');
    Unfold(Alone(store, c, Commit, w'), 4);
    assert Publish(store, c, w') == t.store;
    assert Race.Step(Alone(store, c, Commit, w'), 0) == Ended(c, t);
  }

  // Run alone, completing or cancelling is the atomic transaction.
  lemma FinishIsAtomic(store: Store, a: Id, to: AssignmentStatus)
    requires store.References() && (to.Completed? || to.Cancelled?)
    ensures Solo(Alone(store, Finish(a, to), ReadAssignment, Nothing), 8)
         == Ended(Finish(a, to), if to.Completed? then CompleteAssignment(store, a) else CancelAssignment(store, a))
  {
    var c := Finish(a, to);
    var t := if to.Completed? then CompleteAssignment(store, a) else CancelAssignment(store, a);
    Unfold(Alone(store, c, ReadAssignment, Nothing), 7);
    if t.result.Ok? {
      assert Race.Step(Alone(store, c, ReadAssignment, Nothing), 0) == Alone(store, c, Release, Nothing);
      FinishWrites(store, a, to, t);
    }
  }
}
