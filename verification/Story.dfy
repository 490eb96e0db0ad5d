// The outbox tells the story of every assignment, event by event: what it says happened, and what
// happened it says -- except for swaps, which only the re-optimization log tells.

module Story {
  import opened Domain
  import opened Dispatch
  import opened Coherence
  import opened Lifecycle
  import opened Swaps

  // What an event says is so.
  ghost predicate True(s: Store, e: Event) {
    match e
    case IncidentCreated(i) => i < |s.incidents|
    case IncidentUpdated(i) => i < |s.incidents|
    case ResourceStatusChanged(r, _) => r in s.resources
    case ResourceFailureDetected(r, a) => r in s.resources && (a.Some? ==> Concerns(s, a.value, r))
    case AssignmentCreated(a, i, r) => Concerns(s, a, r) && s.assignments[a].incidentId == i
    case AssignmentCompleted(a, i, r) =>
      Concerns(s, a, r) && s.assignments[a].incidentId == i && s.assignments[a].status.Completed?
    case AssignmentCancelled(a, i, r) =>
      Concerns(s, a, r) && s.assignments[a].incidentId == i && s.assignments[a].status.Cancelled?
    case _ => false  // nothing else is written by these calls
  }

  ghost predicate Concerns(s: Store, a: Id, r: Id) { a < |s.assignments| && s.assignments[a].resourceId == r }

  ghost predicate Truthful(s: Store) { forall e <- s.outbox :: True(s, e) }

  ghost predicate SwappedIn(w: World, k: Id) { exists n | 0 <= n < |w.swaps| :: w.swaps[n].1 == k }

  ghost predicate SwappedOut(w: World, k: Id) { exists n | 0 <= n < |w.swaps| :: w.swaps[n].0 == k }

  // The events about row k.
  ghost predicate ToldRow(w: World, k: Id)
    requires k < |w.store.assignments|
  {
    var outbox, row := w.store.outbox, w.store.assignments[k];
    && (AssignmentCreated(k, row.incidentId, row.resourceId) in outbox <==> !SwappedIn(w, k))
    && (AssignmentCompleted(k, row.incidentId, row.resourceId) in outbox <==> row.status.Completed?)
    && (AssignmentCancelled(k, row.incidentId, row.resourceId) in outbox <==>
          row.status.Cancelled? && !SwappedOut(w, k))
  }

  ghost predicate Told(w: World) {
    Truthful(w.store) && forall k | 0 <= k < |w.store.assignments| :: ToldRow(w, k)
  }

  // Nothing an event spoke of has been taken back.
  ghost predicate Upholds(s: Store, t: Store) {
    && Grows(s, t)
    && forall k | 0 <= k < |s.assignments| ::
         && (s.assignments[k].status.Completed? ==> t.assignments[k].status.Completed?)
         && (s.assignments[k].status.Cancelled? ==> t.assignments[k].status.Cancelled?)
  }

  lemma StaysTrue(s: Store, t: Store, es: seq<Event>)
    requires Truthful(s) && Upholds(s, t) && t.outbox == s.outbox + es && forall e <- es :: True(t, e)
    ensures Truthful(t)
  {
    forall e <- t.outbox ensures True(t, e) {
      if e in s.outbox { assert True(s, e); }
    }
  }

  ghost predicate AboutAssignment(e: Event) {
    e.AssignmentCreated? || e.AssignmentCompleted? || e.AssignmentCancelled?
  }

  ghost predicate OnAssignments(op: Op) {
    op.OpCreateAssignment? || op.OpCompleteAssignment? || op.OpCancelAssignment?
  }

  // Calls on incidents and resources tell other things, and those are true.
  lemma OtherCallTells(s: Store, op: Op) returns (es: seq<Event>)
    requires s.References() && !Reoptimizes(op) && !OnAssignments(op)
    ensures var t := Apply(s, op);
      && t.outbox == s.outbox + es && t.assignments == s.assignments
      && forall e <- es :: True(t, e) && !AboutAssignment(e)
  {
    es := Apply(s, op).outbox[|s.outbox|..];
  }

  lemma SameRowsToldAlike(w: World, v: World, es: seq<Event>)
    requires Told(w) && v.swaps == w.swaps && v.store.assignments == w.store.assignments
    requires v.store.outbox == w.store.outbox + es && forall e <- es :: !AboutAssignment(e)
    ensures forall k | 0 <= k < |v.store.assignments| :: ToldRow(v, k)
  {
    forall k | 0 <= k < |v.store.assignments| ensures ToldRow(v, k) {
      assert ToldRow(w, k);
    }
  }

  lemma OtherCallKeepsTold(w: World, op: Op)
    requires WellFormed(w) && Told(w) && !Reoptimizes(op) && !OnAssignments(op)
    ensures Told(Step(w, op))
  {
    var es := OtherCallTells(w.store, op);
    ApplyKeepsShape(w.store, op);
    StaysTrue(w.store, Apply(w.store, op), es);
    SameRowsToldAlike(w, Step(w, op), es);
  }

  // One row more, and its creation told.
  lemma NewRowTold(w: World, v: World, row: Assignment)
    requires Told(w) && SwapInv(w) && v.swaps == w.swaps && row.status.Active?
    requires Grows(w.store, v.store) && row.resourceId in v.store.resources && row.incidentId < |v.store.incidents|
    requires v.store.assignments == w.store.assignments + [row]
    requires v.store.outbox ==
               w.store.outbox + [AssignmentCreated(|w.store.assignments|, row.incidentId, row.resourceId)]
    ensures Told(v)
  {
    var n := |w.store.assignments|;
    var es := [AssignmentCreated(n, row.incidentId, row.resourceId)];
    StaysTrue(w.store, v.store, es);
    forall k | 0 <= k < |v.store.assignments| ensures ToldRow(v, k) {
      if k < n {
        assert ToldRow(w, k);
      } else {
        assert es[0] in v.store.outbox;
        assert forall e <- w.store.outbox :: True(w.store, e);
      }
    }
  }

  // One row ended, and its end told.
  lemma EndTold(w: World, v: World, a: Id, st: AssignmentStatus, e: Event)
    requires Told(w) && SwapInv(w) && v.swaps == w.swaps && a < |w.store.assignments|
    requires w.store.assignments[a].status.Active? && Grows(w.store, v.store)
    requires v.store.assignments == w.store.WithRelease(a, st).assignments && v.store.outbox == w.store.outbox + [e]
    requires var row := w.store.assignments[a];
      || (st.Completed? && e == AssignmentCompleted(a, row.incidentId, row.resourceId))
      || (st.Cancelled? && e == AssignmentCancelled(a, row.incidentId, row.resourceId))
    ensures Told(v)
  {
    StaysTrue(w.store, v.store, [e]);
    assert e in v.store.outbox;
    forall k | 0 <= k < |v.store.assignments| ensures ToldRow(v, k) {
      assert ToldRow(w, k);
      assert v.store.assignments[k].incidentId == w.store.assignments[k].incidentId;
    }
  }

  // A swap cancels one row and creates one without a word.
  lemma SwapTold(w: World, v: World, a: Id, row: Assignment)
    requires Told(w) && SwapInv(w) && a < |w.store.assignments| && w.store.assignments[a].status.Active?
    requires row.status.Active? && Grows(w.store, v.store)
    requires v.store.assignments == w.store.WithRelease(a, AssignmentStatus.Cancelled).assignments + [row]
    requires v.store.outbox == w.store.outbox && v.swaps == w.swaps + [(a, |w.store.assignments|)]
    ensures Told(v)
  {
    var n := |w.store.assignments|;
    StaysTrue(w.store, v.store, []);
    assert v.swaps[|w.swaps|] == (a, n);
    assert forall j | 0 <= j < |w.swaps| :: v.swaps[j] == w.swaps[j];
    forall k | 0 <= k < n ensures ToldRow(v, k) {
      assert ToldRow(w, k);
    }
    assert forall e <- w.store.outbox :: True(w.store, e);
  }

  lemma AssignmentCallKeepsTold(w: World, op: Op)
    requires WellFormed(w) && Told(w) && SwapInv(w) && NoPending(w.store) && OnAssignments(op)
    ensures Told(Step(w, op))
  {
    var s, v := w.store, Step(w, op);
    ApplyKeepsShape(s, op);
    match op
    case OpCreateAssignment(i, r) =>
      if CreateAssignment(s, i, r).result.Ok? { NewRowTold(w, v, Assignment(i, r, AssignmentStatus.Active, false)); }
    case OpCompleteAssignment(a) =>
      if CompleteAssignment(s, a).result.Ok? {
        EndTold(w, v, a, AssignmentStatus.Completed, v.store.outbox[|s.outbox|]);
      }
    case OpCancelAssignment(a) =>
      if CancelAssignment(s, a).result.Ok? {
        EndTold(w, v, a, AssignmentStatus.Cancelled, v.store.outbox[|s.outbox|]);
      }
  }

  lemma CommitKeepsTold(w: World, op: Op)
    requires WellFormed(w) && Told(w) && SwapInv(w) && CanCommit(w, op)
    ensures Told(StepCommit(w, op))
  {
    var p := w.plans[op.k];
    assert PlanRefers(w.store, p);
    CommitKeepsShape(w.store, p);
    if CommitReopt(w.store, p).result.Ok? {
      SwapTold(w, StepCommit(w, op), p.assignmentId,
               Assignment(p.incidentId, p.replacement.value, AssignmentStatus.Active, false));
    }
  }

  lemma StepKeepsTold(w: World, op: Op)
    requires WellFormed(w) && Told(w) && SwapInv(w) && NoPending(w.store)
    ensures Told(Step(w, op))
  {
    if CanCommit(w, op) {
      CommitKeepsTold(w, op);
    } else if OnAssignments(op) {
      AssignmentCallKeepsTold(w, op);
    } else if !Reoptimizes(op) {
      OtherCallKeepsTold(w, op);
    } else {
      var v := Step(w, op);
      StepKeepsWellFormed(w, op);
      assert v.store.outbox == w.store.outbox && v.store.assignments == w.store.assignments;
      StaysTrue(w.store, v.store, []);
      SameRowsToldAlike(w, v, []);
    }
  }

  // Over every run: each event is true of the tables; an assignment's creation is told unless a swap
  // created it, its completion exactly when it is COMPLETED, and its cancellation exactly when it is
  // CANCELLED and no swap did it.
  lemma {:induction false} RunsTellTheStory(ws: seq<World>, ops: seq<Op>, n: nat)
    requires IsRun(ws, ops) && n <= |ops|
    ensures Told(ws[n])
  {
    if n > 0 {
      RunsTellTheStory(ws, ops, n - 1);
      RunsAreWellFormed(ws, ops, n - 1);
      RunsKeepLife(ws, ops, n - 1);
      RunsKeepSwaps(ws, ops, n - 1);
      StepKeepsTold(ws[n - 1], ops[n - 1]);
    }
  }
}
