// Re-optimization swaps each assignment at most once, however many stale or repeated attempts are
// committed, and what the allocation engine recommends is what the transactions accept.

module Swaps {
  import opened Domain
  import opened Allocation
  import opened Dispatch
  import opened Coherence
  import opened Lifecycle

  function Replacements(logs: seq<ReoptLog>): seq<ReoptLog> {
    if logs == [] then []
    else
      var rest := Replacements(logs[..|logs| - 1]);
      if logs[|logs| - 1].replaced then rest + [logs[|logs| - 1]] else rest
  }

  lemma ReplacementsAppend(logs: seq<ReoptLog>, l: ReoptLog)
    ensures Replacements(logs + [l]) == Replacements(logs) + if l.replaced then [l] else []
  {}

  // The k-th `replaced: true` log and the k-th committed swap are about the same two rows.
  ghost predicate LogsTheSwap(s: Store, l: ReoptLog, swap: (Id, Id)) {
    && swap.0 < swap.1 < |s.assignments|
    && l.assignmentId == swap.0
    && l.incidentId == s.assignments[swap.0].incidentId == s.assignments[swap.1].incidentId
    && l.previousResourceId == s.assignments[swap.0].resourceId
    && l.newResourceId == Some(s.assignments[swap.1].resourceId)
  }

  ghost predicate SwapInv(w: World) {
    && (forall k | 0 <= k < |w.swaps| ::
          && w.swaps[k].0 < w.swaps[k].1 < |w.store.assignments|
          && w.store.assignments[w.swaps[k].0].status.Cancelled?)
    && (forall j, k | 0 <= j < k < |w.swaps| :: w.swaps[j].0 != w.swaps[k].0 && w.swaps[j].1 < w.swaps[k].1)
  }

  ghost predicate SwapsLogged(w: World) {
    var logs := Replacements(w.store.reoptLogs);
    && |logs| == |w.swaps|
    && forall k | 0 <= k < |logs| :: LogsTheSwap(w.store, logs[k], w.swaps[k])
  }

  // ------------------------------------------------------------------ terminal is for good

  lemma ApplyKeepsTerminal(s: Store, op: Op, a: Id)
    requires s.References() && !Reoptimizes(op) && a < |s.assignments|
    requires s.assignments[a].status.Completed? || s.assignments[a].status.Cancelled?
    ensures var t := Apply(s, op); a < |t.assignments| && t.assignments[a] == s.assignments[a]
  {}

  lemma StepKeepsTerminal(w: World, op: Op, a: Id)
    requires WellFormed(w) && a < |w.store.assignments|
    requires w.store.assignments[a].status.Completed? || w.store.assignments[a].status.Cancelled?
    ensures var t := Step(w, op).store; a < |t.assignments| && t.assignments[a] == w.store.assignments[a]
  {
    if !Reoptimizes(op) { ApplyKeepsTerminal(w.store, op, a); }
  }

  // A COMPLETED or CANCELLED assignment never changes again.
  lemma {:induction false} TerminalIsForever(ws: seq<World>, ops: seq<Op>, j: nat, k: nat, a: Id)
    requires IsRun(ws, ops) && j <= k <= |ops| && a < |ws[j].store.assignments|
    requires var st := ws[j].store.assignments[a].status; st.Completed? || st.Cancelled?
    ensures a < |ws[k].store.assignments| && ws[k].store.assignments[a] == ws[j].store.assignments[a]
  {
    if j < k {
      TerminalIsForever(ws, ops, j, k - 1, a);
      RunsAreWellFormed(ws, ops, k - 1);
      StepKeepsTerminal(ws[k - 1], ops[k - 1], a);
    }
  }

  // ------------------------------------------------------------------ swaps

  lemma CommitKeepsSwaps(w: World, op: Op)
    requires WellFormed(w) && CanCommit(w, op) && SwapInv(w)
    ensures SwapInv(StepCommit(w, op))
  {
    var p := w.plans[op.k];
    assert PlanRefers(w.store, p);
  }

  lemma StepKeepsSwaps(w: World, op: Op)
    requires WellFormed(w) && SwapInv(w)
    ensures SwapInv(Step(w, op))
  {
    if CanCommit(w, op) {
      CommitKeepsSwaps(w, op);
    } else {
      var v := Step(w, op);
      StepKeepsWellFormed(w, op);
      forall k | 0 <= k < |w.swaps| ensures v.store.assignments[w.swaps[k].0].status.Cancelled? {
        StepKeepsTerminal(w, op, w.swaps[k].0);
      }
    }
  }

  lemma CommitKeepsSwapLogs(w: World, op: Op)
    requires WellFormed(w) && CanCommit(w, op) && SwapsLogged(w)
    ensures SwapsLogged(StepCommit(w, op))
  {
    var s, t, p := w.store, StepCommit(w, op).store, w.plans[op.k];
    assert PlanRefers(s, p);
    if CommitGuard(s, p).None? {
      var l := ReoptLog(p.incidentId, p.assignmentId, p.resourceId, p.replacement, true);
      ReplacementsAppend(s.reoptLogs, l);
      var logs := Replacements(s.reoptLogs);
      forall k | 0 <= k < |logs| ensures LogsTheSwap(t, logs[k], w.swaps[k]) {
        assert LogsTheSwap(s, logs[k], w.swaps[k]);
      }
    }
  }

  lemma StepKeepsSwapLogs(w: World, op: Op)
    requires WellFormed(w) && SwapsLogged(w)
    ensures SwapsLogged(Step(w, op))
  {
    var v := Step(w, op);
    if CanCommit(w, op) {
      CommitKeepsSwapLogs(w, op);
    } else {
      StepKeepsWellFormed(w, op);
      var logs := Replacements(w.store.reoptLogs);
      assert Replacements(v.store.reoptLogs) == logs by { QuietStep(w, op); }
      forall k | 0 <= k < |logs| ensures LogsTheSwap(v.store, logs[k], w.swaps[k]) {
        assert LogsTheSwap(w.store, logs[k], w.swaps[k]);
      }
    }
  }

  lemma QuietStep(w: World, op: Op)
    requires WellFormed(w) && !CanCommit(w, op)
    ensures Replacements(Step(w, op).store.reoptLogs) == Replacements(w.store.reoptLogs)
    ensures Step(w, op).swaps == w.swaps
  {
    if op.OpLoadReopt? {
      QuietLoad(w.store, op.a, op.trigger, op.access);
    } else if CanPlan(w, op) {
      QuietPlan(w.store, w.plans[op.k], op.cs, op.speed);
    } else if !Reoptimizes(op) {
      ApplyWritesNoLog(w.store, op);
    }
  }

  lemma QuietLoad(s: Store, a: Id, trigger: Trigger, access: AccessCondition)
    requires s.References()
    ensures Replacements(LoadReopt(s, a, trigger, access).store.reoptLogs) == Replacements(s.reoptLogs)
  {}

  lemma QuietPlan(s: Store, p: Plan, cs: seq<Candidate>, speed: real)
    ensures Replacements(PlanReopt(s, p, cs, speed).0.reoptLogs) == Replacements(s.reoptLogs)
  {}

  lemma ApplyWritesNoLog(s: Store, op: Op)
    requires s.References() && !Reoptimizes(op)
    ensures Apply(s, op).reoptLogs == s.reoptLogs
  {}

  lemma {:induction false} RunsKeepSwaps(ws: seq<World>, ops: seq<Op>, n: nat)
    requires IsRun(ws, ops) && n <= |ops|
    ensures SwapInv(ws[n]) && SwapsLogged(ws[n])
  {
    if n > 0 {
      RunsKeepSwaps(ws, ops, n - 1);
      RunsAreWellFormed(ws, ops, n - 1);
      StepKeepsSwaps(ws[n - 1], ops[n - 1]);
      StepKeepsSwapLogs(ws[n - 1], ops[n - 1]);
    }
  }

  // Over any run, two different `replaced: true` logs are about different assignments, and no new
  // row replaces two old ones.
  lemma SwappedAtMostOnce(ws: seq<World>, ops: seq<Op>, n: nat, j: nat, k: nat)
    requires IsRun(ws, ops) && n <= |ops|
    requires var logs := Replacements(ws[n].store.reoptLogs); j < k < |logs|
    ensures var logs := Replacements(ws[n].store.reoptLogs);
      && |logs| == |ws[n].swaps|
      && logs[j].assignmentId != logs[k].assignmentId
      && ws[n].swaps[j].1 != ws[n].swaps[k].1
  {
    RunsKeepSwaps(ws, ops, n);
    var logs := Replacements(ws[n].store.reoptLogs);
    assert LogsTheSwap(ws[n].store, logs[j], ws[n].swaps[j]);
    assert LogsTheSwap(ws[n].store, logs[k], ws[n].swaps[k]);
  }

  ghost predicate ReplacedBy(w: World, a: Id, b: Id) {
    exists k | 0 <= k < |w.swaps| :: w.swaps[k] == (a, b)
  }

  ghost predicate IsChain(w: World, path: seq<Id>) {
    && |path| >= 1
    && forall k | 0 <= k < |path| - 1 :: ReplacedBy(w, path[k], path[k + 1])
  }

  lemma {:induction false} ChainAscends(w: World, path: seq<Id>)
    requires SwapInv(w) && SwapsLogged(w) && IsChain(w, path) && |path| >= 2
    ensures path[0] < path[|path| - 1] < |w.store.assignments|
    ensures w.store.assignments[path[0]].incidentId == w.store.assignments[path[|path| - 1]].incidentId
  {
    var n := |path| - 1;
    assert ReplacedBy(w, path[n - 1], path[n]);
    var k :| 0 <= k < |w.swaps| && w.swaps[k] == (path[n - 1], path[n]);
    assert LogsTheSwap(w.store, Replacements(w.store.reoptLogs)[k], w.swaps[k]);
    if n > 1 {
      var shorter := path[..n];
      forall j | 0 <= j < |shorter| - 1 ensures ReplacedBy(w, shorter[j], shorter[j + 1]) {
        assert ReplacedBy(w, path[j], path[j + 1]);
      }
      ChainAscends(w, shorter);
    }
  }

  // Following replacements never leads back, and never to another incident.
  lemma ReplacementIsAcyclic(ws: seq<World>, ops: seq<Op>, n: nat, path: seq<Id>)
    requires IsRun(ws, ops) && n <= |ops| && IsChain(ws[n], path) && |path| >= 2
    ensures path[0] != path[|path| - 1]
    ensures path[0] < |ws[n].store.assignments| && path[|path| - 1] < |ws[n].store.assignments|
    ensures ws[n].store.assignments[path[0]].incidentId == ws[n].store.assignments[path[|path| - 1]].incidentId
  {
    RunsKeepSwaps(ws, ops, n);
    ChainAscends(ws[n], path);
  }

  // A swap never revives a resource: only the replacement, which was AVAILABLE, and a resource that
  // was BUSY with the cancelled assignment change, and the ACTIVE assignment moves from one to the
  // other.
  lemma SwapMovesTheWork(s: Store, p: Plan, r: Id)
    requires s.References() && Coherent(s) && PlanRefers(s, p) && p.replacement.Some?
    requires CommitReopt(s, p).result.Ok? && r in s.resources
    ensures var t := CommitReopt(s, p).store; var before, after := s.resources[r].status, t.resources[r].status;
      && (before != after ==>
            || (r == p.replacement.value && before.Available? && after.Busy?)
            || (r == p.resourceId && before.Busy? && after.Available?))
      && (s.ResourceTaken(r) && !t.ResourceTaken(r) <==> r == p.resourceId)
      && (!s.ResourceTaken(r) && t.ResourceTaken(r) <==> r == p.replacement.value)
  {
    var mid := s.WithRelease(p.assignmentId, AssignmentStatus.Cancelled);
    TakenAfterRelease(s, mid, p.assignmentId, AssignmentStatus.Cancelled);
    TakenAfterAppend(mid, CommitReopt(s, p).store, p.incidentId, p.replacement.value);
    assert s.ResourceTaken(p.resourceId);
  }

  // ------------------------------------------------------------------ recommendation and guards

  // In a coherent store the guards of createAssignment come down to the engine's feasibility rule.
  lemma GuardIsFeasibility(s: Store, i: Id, r: Id)
    requires Coherent(s) && i < |s.incidents| && s.incidents[i].status.Approved?
    ensures CreateAssignment(s, i, r).result.Ok?
       <==> r in s.resources && Feasible(s.resources[r], s.incidents[i].affectedPeople, s.incidents[i].requirements)
  {}

  lemma RecommendationIsFeasible(cs: seq<Candidate>, people: int, reqs: seq<string>, speed: real)
    requires DistinctIds(cs)
    ensures var r := Recommend(cs, people, reqs, speed);
      && (r.Some? ==> r.value in cs && Feasible(r.value.row, people, reqs))
      && (r.None? ==> forall c <- cs :: !Feasible(c.row, people, reqs))
  {
    var es := FeasibleEvaluations(cs, people, reqs, speed);
    if es != [] {
      var best := Rank(es)[0];
      assert best in Rank(es) && best in es;
      var c :| c in cs && Feasible(c.row, people, reqs) && best == Evaluate(c, people, speed);
      assert Find(cs, best.id) == c;
    }
  }

  // What the engine recommends for an APPROVED incident, the transaction accepts; when it
  // recommends nothing, the transaction refuses every resource.
  lemma RecommendationAgreesWithAssignment(s: Store, i: Id, cs: seq<Candidate>, speed: real)
    requires Coherent(s) && i < |s.incidents| && s.incidents[i].status.Approved?
    requires ListsTable(cs, s.resources)
    ensures var choice := Recommend(cs, s.incidents[i].affectedPeople, s.incidents[i].requirements, speed);
      && (choice.Some? ==> CreateAssignment(s, i, choice.value.id).result.Ok?)
      && (choice.None? ==> forall r: Id :: CreateAssignment(s, i, r).result.Err?)
  {
    var people, reqs := s.incidents[i].affectedPeople, s.incidents[i].requirements;
    RecommendationIsFeasible(cs, people, reqs, speed);
    var choice := Recommend(cs, people, reqs, speed);
    if choice.Some? {
      GuardIsFeasibility(s, i, choice.value.id);
    } else {
      forall r: Id ensures CreateAssignment(s, i, r).result.Err? {
        GuardIsFeasibility(s, i, r);
      }
    }
  }

  lemma AlternativesStayDistinct(cs: seq<Candidate>, excluded: Id)
    requires DistinctIds(cs)
    ensures DistinctIds(Alternatives(cs, excluded))
  {
    if cs != [] {
      AlternativesStayDistinct(cs[1..], excluded);
      var rest := Alternatives(cs[1..], excluded);
      forall c <- rest ensures c.id != cs[0].id {
        assert c in cs[1..];
      }
    }
  }

  lemma FreshGuardPasses(s: Store, p: Plan, r: Id)
    requires Coherent(s) && PlanRefers(s, p) && s.assignments[p.assignmentId].status.Active?
    requires p.replacement == Some(r) && r in s.resources && Feasible(s.resources[r], p.people, p.requirements)
    ensures CommitGuard(s, p).None?
  {}

  // A swap that is committed before anything it read has changed is never refused.
  lemma FreshSwapCommits(s: Store, p: Plan, cs: seq<Candidate>, speed: real)
    requires s.References() && Coherent(s) && PlanRefers(s, p) && s.assignments[p.assignmentId].status.Active?
    requires ListsTable(cs, s.resources) && p.replacement.None?
    ensures var (t, planned) := PlanReopt(s, p, cs, speed);
      planned.replacement.Some? ==> t == s && CommitReopt(s, planned).result.Ok?
  {
    var (t, planned) := PlanReopt(s, p, cs, speed);
    if planned.replacement.Some? {
      AlternativesStayDistinct(cs, p.resourceId);
      RecommendationIsFeasible(Alternatives(cs, p.resourceId), p.people, p.requirements, speed / Multiplier(p.access));
      FreshGuardPasses(s, planned, planned.replacement.value);
    }
  }
}
