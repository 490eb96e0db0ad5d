// The agreement of the tables at statement level: exactly which commits leave a resource or an
// incident at odds with the ACTIVE assignments.

module Agreement {
  import opened Domain
  import opened Dispatch
  import opened Coherence
  import opened Lifecycle
  import opened Race
  import opened Overlap
  import Allocation
  import Departures

  // ------------------------------------------------------------------ what a commit does

  // Row k is ACTIVE and not the one that w releases.
  predicate Survives(s: Store, w: Writes, k: nat)
    requires k < |s.assignments|
  {
    s.assignments[k].status.Active? && !(w.release.Some? && w.release.value.0 == k)
  }

  ghost predicate ResourceKept(s: Store, w: Writes, r: Id) {
    exists k | 0 <= k < |s.assignments| :: Survives(s, w, k) && s.assignments[k].resourceId == r
  }

  ghost predicate IncidentKept(s: Store, w: Writes, i: Id) {
    exists k | 0 <= k < |s.assignments| :: Survives(s, w, k) && s.assignments[k].incidentId == i
  }

  // A release names an existing row and ends it.
  predicate ReleasesRow(s: Store, w: Writes) {
    w.release.Some? ==> w.release.value.0 < |s.assignments| && !w.release.value.1.Active?
  }

  lemma PublishedTaken(s: Store, c: Call, w: Writes)
    requires ReleasesRow(s, w)
    ensures var t := Publish(s, c, w);
      && (forall r :: t.ResourceTaken(r) <==> ResourceKept(s, w, r) || (w.insert.Some? && w.insert.value.1 == r))
      && (forall i :: t.IncidentTaken(i) <==> IncidentKept(s, w, i) || (w.insert.Some? && w.insert.value.0 == i))
  {
    var t := Publish(s, c, w);
    PublishedRows(s, c, w);
    var last := |s.assignments|;
    assert forall k | 0 <= k < last :: t.assignments[k].status.Active? <==> Survives(s, w, k);
    assert forall k | 0 <= k < last ::
        t.assignments[k].resourceId == s.assignments[k].resourceId
        && t.assignments[k].incidentId == s.assignments[k].incidentId;
    assert w.insert.Some? ==>
        t.assignments[last] == Assignment(w.insert.value.0, w.insert.value.1, AssignmentStatus.Active, false);
    forall r ensures t.ResourceTaken(r) <==> ResourceKept(s, w, r) || (w.insert.Some? && w.insert.value.1 == r) {
      if ResourceKept(s, w, r) {
        var k :| 0 <= k < last && Survives(s, w, k) && s.assignments[k].resourceId == r;
        assert t.assignments[k].status.Active?;
      }
    }
    forall i ensures t.IncidentTaken(i) <==> IncidentKept(s, w, i) || (w.insert.Some? && w.insert.value.0 == i) {
      if IncidentKept(s, w, i) {
        var k :| 0 <= k < last && Survives(s, w, k) && s.assignments[k].incidentId == i;
        assert t.assignments[k].status.Active?;
      }
    }
  }

  lemma PublishedResources(s: Store, c: Call, w: Writes)
    ensures var t := Publish(s, c, w);
      && t.resources.Keys == s.resources.Keys
      && forall r <- s.resources :: t.resources[r].status ==
           if w.busy == Some(r) then Busy else if w.freed == Some(r) then Available else s.resources[r].status
  {
    var freed := Freed(Released(s, w), w);
    assert Released(s, w).resources == s.resources && Inserted(freed, w).resources == freed.resources;
    assert Publish(s, c, w).resources == MadeBusy(Inserted(freed, w), w).resources;
  }

  lemma PublishedIncidents(s: Store, c: Call, w: Writes)
    ensures var t := Publish(s, c, w);
      && |t.incidents| == |s.incidents|
      && forall i | 0 <= i < |s.incidents| :: t.incidents[i].status ==
           if w.incident.Some? && w.incident.value.0 == i then w.incident.value.1 else s.incidents[i].status
  {
    var before := MadeBusy(Inserted(Freed(Released(s, w), w), w), w);
    assert before.incidents == s.incidents;
    assert Publish(s, c, w).incidents == Moved(before, w).incidents;
  }

  // ------------------------------------------------------------------ what a call has in hand

  // createAssignment has read its incident and its resource.
  predicate PastRead(pc: Pc) {
    pc.CheckResource? || pc.CheckIncident? || pc.InsertRow? || pc.MarkBusy? || pc.MarkAssigned? || pc.Commit?
  }

  // Beyond Shaped: the status writes a call has made when it is at its pc.
  ghost predicate Handy(s: Store, p: Proc) {
    match p.call
    case Create(i, r) =>
      && p.writes.freed.None?
      && (p.pc.ReadResource? ==> i < |s.incidents|)
      && (PastRead(p.pc) ==> i < |s.incidents| && r in s.resources)
      && (p.pc.MarkAssigned? || p.pc.Commit? ==> p.writes.busy == Some(r))
      && (p.pc.Commit? ==> p.writes.incident == Some((i, Assigned)))
    case Swap(plan) =>
      && p.writes.incident.None?
      && (p.pc.Release? || p.pc.FreeOld? || p.pc.InsertRow? || p.pc.MarkBusy? || p.pc.Commit? ==>
            ResourceOf(p.call) in s.resources)
      && (p.writes.freed.Some? ==> p.writes.freed.value == plan.resourceId)
      && (p.pc.Commit? ==> p.writes.busy == Some(ResourceOf(p.call)))
    case Finish(a, to) =>
      && p.writes.busy.None?
      && (p.pc.Commit? ==>
            && a < |s.assignments|
            && p.writes.freed == Some(s.assignments[a].resourceId)
            && (p.writes.incident.Some? ==>
                  p.writes.incident.value.0 == s.assignments[a].incidentId && !p.writes.incident.value.1.Assigned?))
  }

  // What the call read of the old resource, or of the incident, still counts while its row is ACTIVE.
  ghost predicate Current(s: Store, p: Proc) {
    && (p.call.Swap? && (p.pc.InsertRow? || p.pc.MarkBusy? || p.pc.Commit?) && p.writes.freed.None? ==>
          var a, r := p.call.plan.assignmentId, p.call.plan.resourceId;
          a < |s.assignments| && r in s.resources && s.assignments[a].status.Active? ==> !s.resources[r].status.Busy?)
    && (p.call.Finish? && p.pc.Commit? && p.writes.incident.None? ==>
          p.call.a < |s.assignments| && !s.assignments[p.call.a].status.Active?)
  }

  ghost predicate Settled(s: State) {
    && Ordered(s) && Guarded(s) && s.store.References()
    && forall p | 0 <= p < |s.procs| ::
         WritesFollowPc(s.procs[p]) && Handy(s.store, s.procs[p]) && Current(s.store, s.procs[p])
  }

  // ------------------------------------------------------------------ the exact condition

  // The commit of call k puts the tables at odds: a swap of a row that is over, or a completion or
  // cancellation of a row that is over whose resource, or whose incident it writes, has been
  // assigned again.
  ghost predicate Breaks(s: State, k: nat) {
    && Stale(s, k)
    && var w := s.procs[k].writes;
       var row := s.store.assignments[w.release.value.0];
       || s.procs[k].call.Swap?
       || s.store.ResourceTaken(row.resourceId)
       || (w.incident.Some? && s.store.IncidentTaken(row.incidentId))
  }

  lemma KeptWhenStale(s: State, k: nat)
    requires Stale(s, k)
    ensures var w := s.procs[k].writes;
      && (forall r :: ResourceKept(s.store, w, r) <==> s.store.ResourceTaken(r))
      && (forall i :: IncidentKept(s.store, w, i) <==> s.store.IncidentTaken(i))
  {
    var st, w := s.store, s.procs[k].writes;
    assert forall m | 0 <= m < |st.assignments| :: Survives(st, w, m) <==> st.assignments[m].status.Active?;
    forall r ensures ResourceKept(st, w, r) <==> st.ResourceTaken(r) {
      if st.ResourceTaken(r) {
        var m :| 0 <= m < |st.assignments| && st.assignments[m].status.Active? && st.assignments[m].resourceId == r;
        assert Survives(st, w, m);
      }
    }
    forall i ensures IncidentKept(st, w, i) <==> st.IncidentTaken(i) {
      if st.IncidentTaken(i) {
        var m :| 0 <= m < |st.assignments| && st.assignments[m].status.Active? && st.assignments[m].incidentId == i;
        assert Survives(st, w, m);
      }
    }
  }

  lemma KeptWhenActive(s: Store, w: Writes, a: nat)
    requires Matching(s) && a < |s.assignments| && s.assignments[a].status.Active?
    requires w.release.Some? && w.release.value.0 == a
    ensures forall r :: ResourceKept(s, w, r) <==> s.ResourceTaken(r) && r != s.assignments[a].resourceId
    ensures forall i :: IncidentKept(s, w, i) <==> s.IncidentTaken(i) && i != s.assignments[a].incidentId
    ensures s.ResourceTaken(s.assignments[a].resourceId) && s.IncidentTaken(s.assignments[a].incidentId)
  {
    forall r ensures s.ResourceTaken(r) && r != s.assignments[a].resourceId ==> ResourceKept(s, w, r) {
      if s.ResourceTaken(r) && r != s.assignments[a].resourceId {
        var m :| 0 <= m < |s.assignments| && s.assignments[m].status.Active? && s.assignments[m].resourceId == r;
        assert Survives(s, w, m);
      }
    }
    forall i ensures s.IncidentTaken(i) && i != s.assignments[a].incidentId ==> IncidentKept(s, w, i) {
      if s.IncidentTaken(i) && i != s.assignments[a].incidentId {
        var m :| 0 <= m < |s.assignments| && s.assignments[m].status.Active? && s.assignments[m].incidentId == i;
        assert Survives(s, w, m);
      }
    }
  }

  lemma KeptWithoutRelease(s: Store, w: Writes)
    requires w.release.None?
    ensures forall r :: ResourceKept(s, w, r) <==> s.ResourceTaken(r)
    ensures forall i :: IncidentKept(s, w, i) <==> s.IncidentTaken(i)
  {
    forall r ensures s.ResourceTaken(r) ==> ResourceKept(s, w, r) {
      if s.ResourceTaken(r) {
        var m :| 0 <= m < |s.assignments| && s.assignments[m].status.Active? && s.assignments[m].resourceId == r;
        assert Survives(s, w, m);
      }
    }
    forall i ensures s.IncidentTaken(i) ==> IncidentKept(s, w, i) {
      if s.IncidentTaken(i) {
        var m :| 0 <= m < |s.assignments| && s.assignments[m].status.Active? && s.assignments[m].incidentId == i;
        assert Survives(s, w, m);
      }
    }
  }

  lemma CreateCommitAgrees(s: State, k: nat)
    requires Settled(s) && Coherent(s.store) && Enabled(s, k) && s.procs[k].pc.Commit? && s.procs[k].call.Create?
    ensures var t := Race.Step(s, k).store; ResourcesAgree(t) && IncidentsAgree(t)
  {
    var me := s.procs[k];
    assert Shaped(s.store, me) && Handy(s.store, me);
    KeptWithoutRelease(s.store, me.writes);
    PublishedTaken(s.store, me.call, me.writes);
    PublishedResources(s.store, me.call, me.writes);
    PublishedIncidents(s.store, me.call, me.writes);
  }

  // The release of an ACTIVE row ...
  lemma ActiveCommitAgrees(s: State, k: nat)
    requires Settled(s) && Coherent(s.store) && Enabled(s, k) && s.procs[k].pc.Commit?
    requires s.procs[k].writes.release.Some? && !Stale(s, k)
    ensures var t := Race.Step(s, k).store; ResourcesAgree(t) && IncidentsAgree(t)
  {
    var me := s.procs[k];
    assert Shaped(s.store, me) && Handy(s.store, me) && Current(s.store, me);
    PublishedTaken(s.store, me.call, me.writes);
    PublishedResources(s.store, me.call, me.writes);
    PublishedIncidents(s.store, me.call, me.writes);
    KeptWhenActive(s.store, me.writes, me.writes.release.value.0);
  }

  // ... and of one that is over.
  lemma StaleFinishAgreesIff(s: State, k: nat)
    requires Settled(s) && Coherent(s.store) && Enabled(s, k) && s.procs[k].call.Finish? && Stale(s, k)
    ensures var t := Race.Step(s, k).store; ResourcesAgree(t) && IncidentsAgree(t) <==> !Breaks(s, k)
  {
    var me := s.procs[k];
    var row := s.store.assignments[me.call.a];
    assert Shaped(s.store, me) && Handy(s.store, me);
    PublishedTaken(s.store, me.call, me.writes);
    PublishedResources(s.store, me.call, me.writes);
    PublishedIncidents(s.store, me.call, me.writes);
    KeptWhenStale(s, k);
    assert row.resourceId in s.store.resources && row.incidentId < |s.store.incidents|;
    assert Race.Step(s, k).store.resources[row.resourceId].status.Available?;
  }

  // Nobody has taken the incident of a stale swap, or the index would have refused its row.
  lemma StaleSwapIsAlone(s: State, k: nat)
    requires Settled(s) && Enabled(s, k) && s.procs[k].call.Swap? && Stale(s, k)
    ensures !s.store.IncidentTaken(s.procs[k].call.plan.incidentId)
  {
    var i := s.procs[k].call.plan.incidentId;
    assert Shaped(s.store, s.procs[k]);
    forall m | 0 <= m < |s.store.assignments| && s.store.assignments[m].status.Active?
      ensures s.store.assignments[m].incidentId != i
    {
      assert KeyIsMine(s, k, m);
    }
  }

  lemma StaleSwapBreaks(s: State, k: nat)
    requires Settled(s) && Coherent(s.store) && Enabled(s, k) && s.procs[k].call.Swap? && Stale(s, k)
    ensures !IncidentsAgree(Race.Step(s, k).store)
  {
    var me := s.procs[k];
    var i := me.call.plan.incidentId;
    assert Shaped(s.store, me) && Handy(s.store, me);
    StaleSwapIsAlone(s, k);
    PublishedTaken(s.store, me.call, me.writes);
    PublishedIncidents(s.store, me.call, me.writes);
    assert i < |s.store.incidents| && !s.store.incidents[i].status.Assigned?;
    assert Race.Step(s, k).store.IncidentTaken(i) && !Race.Step(s, k).store.incidents[i].status.Assigned?;
  }

  // ------------------------------------------------------------------ what stays settled

  ghost predicate TablesGrow(s: Store, t: Store) {
    RowsGrow(s, t) && |s.incidents| <= |t.incidents| && s.resources.Keys <= t.resources.Keys
  }

  lemma HandySurvives(s: Store, t: Store, p: Proc)
    requires Handy(s, p) && TablesGrow(s, t)
    ensures Handy(t, p)
  {}

  lemma CommitGrowsTables(s: State, n: nat)
    requires Settled(s) && Enabled(s, n) && s.procs[n].pc.Commit?
    ensures TablesGrow(s.store, Race.Step(s, n).store) && Race.Step(s, n).store.References()
  {
    var me := s.procs[n];
    assert Shaped(s.store, me) && Handy(s.store, me);
    PublishGrows(s.store, me.call, me.writes);
    PublishedRows(s.store, me.call, me.writes);
    PublishedResources(s.store, me.call, me.writes);
    PublishedIncidents(s.store, me.call, me.writes);
  }

  // A row that is ACTIVE after the commit of n was so before, and n held none of its keys: nobody
  // makes its resource BUSY.
  lemma CommitSparesActive(s: State, n: nat, a: nat)
    requires Settled(s) && Enabled(s, n) && s.procs[n].pc.Commit? && a < |s.store.assignments|
    requires a < |Race.Step(s, n).store.assignments| && Race.Step(s, n).store.assignments[a].status.Active?
    ensures s.store.assignments[a].status.Active?
    ensures s.procs[n].writes.busy != Some(s.store.assignments[a].resourceId)
  {
    var me := s.procs[n];
    assert Shaped(s.store, me) && Handy(s.store, me) && KeyIsMine(s, n, a);
    PublishedRows(s.store, me.call, me.writes);
  }

  // The commit of n leaves what p read as current as it was.
  lemma CommitKeepsCurrent(s: State, n: nat, p: nat)
    requires Settled(s) && Enabled(s, n) && s.procs[n].pc.Commit? && p < |s.procs| && p != n
    ensures Current(Race.Step(s, n).store, s.procs[p])
  {
    var t, other := Race.Step(s, n).store, s.procs[p];
    assert Current(s.store, other) && Shaped(s.store, other);
    CommitGrowsTables(s, n);
    var a := if other.call.Swap? then other.call.plan.assignmentId else if other.call.Finish? then other.call.a else 0;
    if a < |s.store.assignments| && t.assignments[a].status.Active? {
      CommitSparesActive(s, n, a);
      PublishedResources(s.store, s.procs[n].call, s.procs[n].writes);
    }
  }

  lemma CommitKeepsSettled(s: State, n: nat)
    requires Settled(s) && Enabled(s, n) && s.procs[n].pc.Commit?
    ensures Settled(Race.Step(s, n))
  {
    var t := Race.Step(s, n);
    CommitKeepsOrdered(s, n);
    CommitKeepsGuarded(s, n);
    CommitGrowsTables(s, n);
    forall p | 0 <= p < |t.procs|
      ensures WritesFollowPc(t.procs[p]) && Handy(t.store, t.procs[p]) && Current(t.store, t.procs[p])
    {
      HandySurvives(s.store, t.store, s.procs[p]);
      if p != n { CommitKeepsCurrent(s, n, p); }
    }
  }

  lemma StatementKeepsHandy(s: State, n: nat)
    requires Settled(s) && Enabled(s, n) && !s.procs[n].pc.Commit?
    ensures Handy(s.store, Race.Step(s, n).procs[n])
  {
    assert Shaped(s.store, s.procs[n]) && CreateShaped(s.procs[n]) && Handy(s.store, s.procs[n]);
    StatementKeepsShape(s, n);
  }

  lemma StatementKeepsCurrent(s: State, n: nat)
    requires Settled(s) && Coherent(s.store) && Enabled(s, n) && !s.procs[n].pc.Commit?
    ensures Current(s.store, Race.Step(s, n).procs[n])
  {
    var me := s.procs[n];
    assert Shaped(s.store, me) && Handy(s.store, me) && Current(s.store, me);
    StatementKeepsShape(s, n);
    if me.call.Finish? && me.pc.FreeOld? && s.store.assignments[me.call.a].status.Active? {
      assert s.store.IncidentTaken(s.store.assignments[me.call.a].incidentId);
    }
  }

  lemma StatementKeepsSettled(s: State, n: nat)
    requires Settled(s) && Coherent(s.store) && Enabled(s, n) && !s.procs[n].pc.Commit?
    ensures Settled(Race.Step(s, n))
  {
    TurnKeepsOrdered(s, Runs(n));
    StepKeepsGuarded(s, n);
    StepFollowsPc(s, n);
    StatementKeepsShape(s, n);
    StatementKeepsHandy(s, n);
    StatementKeepsCurrent(s, n);
  }

  lemma FaultKeepsSettled(s: State, n: nat, again: bool)
    requires Settled(s) && n < |s.procs| && !s.procs[n].pc.Done?
    ensures Settled(Fault(s, n, again))
  {
    TurnKeepsOrdered(s, Faults(n, again));
    QuietStepKeepsGuarded(s, n, Fault(s, n, again).procs[n]);
  }

  lemma TurnKeepsSettled(s: State, t: Turn)
    requires Settled(s) && Coherent(s.store) && Race.Possible(s, t)
    ensures Settled(Next(s, t))
  {
    if t.Faults? {
      FaultKeepsSettled(s, t.k, t.again);
    } else if s.procs[t.k].pc.Commit? {
      CommitKeepsSettled(s, t.k);
    } else {
      StatementKeepsSettled(s, t.k);
    }
  }

  // A turn keeps the three tables in agreement if and only if it is not a commit that breaks them.
  lemma AgreementKeptIff(s: State, t: Turn)
    requires Settled(s) && Coherent(s.store) && Race.Possible(s, t)
    ensures Coherent(Next(s, t).store) <==> !(t.Runs? && Breaks(s, t.k))
  {
    TurnKeepsSettled(s, t);
    if t.Runs? && s.procs[t.k].pc.Commit? {
      CommitAgreesIff(s, t.k);
    } else if t.Runs? {
      StatementKeepsShape(s, t.k);
    }
  }

  lemma CommitAgreesIff(s: State, k: nat)
    requires Settled(s) && Coherent(s.store) && Enabled(s, k) && s.procs[k].pc.Commit?
    ensures var t := Race.Step(s, k).store; ResourcesAgree(t) && IncidentsAgree(t) <==> !Breaks(s, k)
  {
    assert Shaped(s.store, s.procs[k]);
    if s.procs[k].call.Create? {
      CreateCommitAgrees(s, k);
    } else if !Stale(s, k) {
      ActiveCommitAgrees(s, k);
    } else if s.procs[k].call.Finish? {
      StaleFinishAgreesIff(s, k);
    } else {
      StaleSwapBreaks(s, k);
    }
  }

  // ------------------------------------------------------------------ schedules

  ghost predicate StartsCoherent(s: State) { Starts(s) && s.store.References() && Coherent(s.store) }

  lemma StartIsSettled(s: State)
    requires StartsCoherent(s)
    ensures Settled(s)
  {
    forall p | 0 <= p < |s.procs| ensures Shaped(s.store, s.procs[p]) && CreateShaped(s.procs[p]) {}
  }

  // Every schedule from a coherent store stays coherent as long as no such commit happens: any
  // overlap of creations, swaps, completions and cancellations besides is harmless.
  lemma {:induction false} SchedulesStayCoherent(ss: seq<State>, ts: seq<Turn>, n: nat)
    requires IsSchedule(ss, ts) && n <= |ts| && StartsCoherent(ss[0])
    requires forall m {:trigger ts[m]} | 0 <= m < n :: !(ts[m].Runs? && Breaks(ss[m], ts[m].k))
    ensures Settled(ss[n]) && Coherent(ss[n].store)
  {
    if n > 0 {
      SchedulesStayCoherent(ss, ts, n - 1);
      assert ss[n] == Next(ss[n - 1], ts[n - 1]);
      TurnKeepsSettled(ss[n - 1], ts[n - 1]);
      AgreementKeptIff(ss[n - 1], ts[n - 1]);
    } else {
      StartIsSettled(ss[0]);
    }
  }

  // ------------------------------------------------------------------ the input

  // A schedule has led from start to s and nothing is broken yet.
  ghost predicate SoFar(start: State, s: State) {
    StartsCoherent(start) && Scheduled(start, s) && Settled(s) && Coherent(s.store) && Balanced(s.store)
  }

  lemma Turns(start: State, s: State, t: Turn) returns (n: State)
    requires SoFar(start, s) && Race.Possible(s, t) && !(t.Runs? && Stale(s, t.k))
    ensures SoFar(start, n) && n == Next(s, t)
  {
    n := Next(s, t);
    TurnIsScheduled(start, s, t);
    TurnKeepsSettled(s, t);
    AgreementKeptIff(s, t);
    LedgerKeptIff(s, t);
  }

  lemma Starting(w: World, calls: seq<Call>) returns (s: State)
    requires Departures.Pair(w)
    requires forall c <- calls :: c.Swap? ==> PlanRefers(w.store, c.plan)
    ensures SoFar(s, s) && s.store == w.store && |s.procs| == |calls|
    ensures forall k | 0 <= k < |calls| :: s.procs[k] == Proc(calls[k], First(calls[k]), Nothing)
  {
    s := State(w.store, seq(|calls|, k requires 0 <= k < |calls| => Proc(calls[k], First(calls[k]), Nothing)));
    Departures.PairIsCoherent(w);
    var ws, ops :| IsRun(ws, ops) && ws[|ops|] == w;
    RunsStayBalanced(ws, ops, |ops|);
    var none: seq<Turn> := [];
    assert IsSchedule([s], none) && [s][|none|] == s;
    StartIsSettled(s);
  }

  function EndOf(s: Store, a: Id, to: AssignmentStatus): Store
    requires s.References()
  {
    if to.Completed? then CompleteAssignment(s, a).store else CancelAssignment(s, a).store
  }

  lemma FinishPublishes(s: Store, a: Id, to: AssignmentStatus)
    requires s.References() && (to.Completed? || to.Cancelled?)
    requires a < |s.assignments| && s.assignments[a].status.Active?
    ensures var released := Nothing.(release := Some((a, to)));
      Publish(s, Finish(a, to), StepFinish(s, Proc(Finish(a, to), FreeOld, released)).writes) == EndOf(s, a, to)
  {}

  lemma ReadsActive(start: State, s: State, k: nat, a: Id, to: AssignmentStatus) returns (t: State)
    requires SoFar(start, s) && k < |s.procs| && s.procs[k] == Proc(Finish(a, to), ReadAssignment, Nothing)
    requires a < |s.store.assignments| && s.store.assignments[a].status.Active? && (to.Completed? || to.Cancelled?)
    ensures SoFar(start, t) && t == s.(procs := s.procs[k := Proc(Finish(a, to), Release, Nothing)])
  {
    t := Turns(start, s, Runs(k));
  }

  lemma WritesUpToCommit(start: State, s: State, k: nat, a: Id, to: AssignmentStatus) returns (t: State)
    requires SoFar(start, s) && k < |s.procs| && s.procs[k] == Proc(Finish(a, to), Release, Nothing)
    requires a < |s.store.assignments|
    ensures SoFar(start, t)
    ensures t == s.(procs := s.procs[k :=
              StepFinish(s.store, Proc(Finish(a, to), FreeOld, Nothing.(release := Some((a, to)))))])
    ensures t.procs[k].pc.Commit? && t.procs[k].call == Finish(a, to) && t.procs[k].writes.release == Some((a, to))
  {
    t := Turns(start, s, Runs(k));
    t := Turns(start, t, Runs(k));
  }

  // A completion or cancellation that has read its row, from there to its end.
  lemma Finishes(start: State, s: State, k: nat, a: Id, to: AssignmentStatus) returns (t: State)
    requires SoFar(start, s) && k < |s.procs| && s.procs[k] == Proc(Finish(a, to), Release, Nothing)
    requires a < |s.store.assignments| && s.store.assignments[a].status.Active? && (to.Completed? || to.Cancelled?)
    ensures SoFar(start, t)
    ensures t == State(EndOf(s.store, a, to), s.procs[k := Proc(Finish(a, to), Done(Committed), Nothing)])
  {
    FinishPublishes(s.store, a, to);
    var ready := WritesUpToCommit(start, s, k, a, to);
    t := Turns(start, ready, Runs(k));
    assert t.procs == s.procs[k := Proc(Finish(a, to), Done(Committed), Nothing)];
  }

  // createAssignment from its first statement to its last, nobody else being inside a transaction
  // that has written.
  lemma Creates(start: State, s: State, k: nat, i: Id, r: Id) returns (t: State)
    requires SoFar(start, s) && k < |s.procs| && s.procs[k] == Proc(Create(i, r), ReadIncident, Nothing)
    requires CreateGuard(s.store, i, r).None? && forall q | 0 <= q < |s.procs| :: s.procs[q].writes == Nothing
    ensures SoFar(start, t)
    ensures t == State(CreateAssignment(s.store, i, r).store,
                       s.procs[k := Proc(Create(i, r), Done(Committed), Nothing)])
  {
    var c := Create(i, r);
    t := Turns(start, s, Runs(k));
    t := Turns(start, t, Runs(k));
    t := Turns(start, t, Runs(k));
    t := Turns(start, t, Runs(k));
    assert t == s.(procs := s.procs[k := Proc(c, InsertRow, Nothing)]);
    t := CreateInserts(start, t, k, i, r);
    assert t.procs == s.procs[k := Proc(c, Done(Committed), Nothing)];
  }

  lemma CreateInserts(start: State, s: State, k: nat, i: Id, r: Id) returns (t: State)
    requires SoFar(start, s) && k < |s.procs| && s.procs[k] == Proc(Create(i, r), InsertRow, Nothing)
    requires CreateGuard(s.store, i, r).None? && forall q | 0 <= q < |s.procs| :: s.procs[q].writes == Nothing
    ensures SoFar(start, t)
    ensures t == State(CreateAssignment(s.store, i, r).store,
                       s.procs[k := Proc(Create(i, r), Done(Committed), Nothing)])
  {
    var c := Create(i, r);
    var inserted := Nothing.(insert := Some((i, r)));
    var written := inserted.(busy := Some(r), incident := Some((i, Assigned)));
    NoKeyOfMine(s, i, r);
    NobodyHolds(s, k, i, r);
    t := Turns(start, s, Runs(k));
    assert t == s.(procs := s.procs[k := Proc(c, MarkBusy, inserted)]);
    t := Turns(start, t, Runs(k));
    t := Turns(start, t, Runs(k));
    assert t == s.(procs := s.procs[k := Proc(c, Commit, written)]);
    assert Publish(s.store, c, written) == CreateAssignment(s.store, i, r).store;
    t := Turns(start, t, Runs(k));
    assert t.procs == s.procs[k := Proc(c, Done(Committed), Nothing)];
  }

  // Two calls read assignment 0 as ACTIVE; a third is about to ask for its resource.
  function Readers(s: Store, to: AssignmentStatus, to': AssignmentStatus): State {
    State(s, [Proc(Finish(0, to), Release, Nothing), Proc(Finish(0, to'), Release, Nothing),
              Proc(Create(1, 0), ReadIncident, Nothing)])
  }

  lemma BothRead(w: World, to: AssignmentStatus, to': AssignmentStatus) returns (start: State)
    requires Departures.Pair(w) && (to.Completed? || to.Cancelled?) && (to'.Completed? || to'.Cancelled?)
    ensures start.store == w.store && SoFar(start, Readers(w.store, to, to'))
  {
    start := Starting(w, [Finish(0, to), Finish(0, to'), Create(1, 0)]);
    ReadersRead(start, to, to');
  }

  lemma ReadersRead(start: State, to: AssignmentStatus, to': AssignmentStatus)
    requires SoFar(start, start) && (to.Completed? || to.Cancelled?) && (to'.Completed? || to'.Cancelled?)
    requires start.store.assignments == [Assignment(0, 0, AssignmentStatus.Active, false)] && |start.procs| == 3
    requires start.procs[0] == Proc(Finish(0, to), ReadAssignment, Nothing)
    requires start.procs[1] == Proc(Finish(0, to'), ReadAssignment, Nothing)
    requires start.procs[2] == Proc(Create(1, 0), ReadIncident, Nothing)
    ensures SoFar(start, Readers(start.store, to, to'))
  {
    var one := ReadsActive(start, start, 0, 0, to);
    var both := ReadsActive(start, one, 1, 0, to');
    assert both.procs == Readers(start.store, to, to').procs;
  }

  lemma FirstEnds(start: State, w: World, to: AssignmentStatus, to': AssignmentStatus) returns (s: State)
    requires Departures.Pair(w) && (to.Completed? || to.Cancelled?) && SoFar(start, Readers(w.store, to, to'))
    ensures w.store.References() && SoFar(start, s) && s.store == EndOf(w.store, 0, to)
    ensures s.procs == [Proc(Finish(0, to), Done(Committed), Nothing), Proc(Finish(0, to'), Release, Nothing),
                        Proc(Create(1, 0), ReadIncident, Nothing)]
  {
    s := Finishes(start, Readers(w.store, to, to'), 0, 0, to);
  }

  lemma ServesAgain(start: State, s: State, to: AssignmentStatus, to': AssignmentStatus) returns (t: State)
    requires SoFar(start, s) && CreateGuard(s.store, 1, 0).None? && s.store.assignments == [Assignment(0, 0, to, true)]
    requires s.procs == [Proc(Finish(0, to), Done(Committed), Nothing), Proc(Finish(0, to'), Release, Nothing),
                         Proc(Create(1, 0), ReadIncident, Nothing)]
    ensures SoFar(start, t) && |t.procs| == 3 && t.procs[1] == Proc(Finish(0, to'), Release, Nothing)
    ensures t.store.assignments == [Assignment(0, 0, to, true), Assignment(1, 0, AssignmentStatus.Active, false)]
  {
    t := Creates(start, s, 2, 1, 0);
  }

  // The first of them ends it and its resource is assigned again.
  lemma EndedAndServedAgain(w: World, to: AssignmentStatus, to': AssignmentStatus) returns (start: State, s: State)
    requires Departures.Pair(w) && (to.Completed? || to.Cancelled?) && (to'.Completed? || to'.Cancelled?)
    ensures start.store == w.store && SoFar(start, s)
    ensures |s.procs| == 3 && s.procs[1] == Proc(Finish(0, to'), Release, Nothing)
    ensures s.store.assignments == [Assignment(0, 0, to, true), Assignment(1, 0, AssignmentStatus.Active, false)]
  {
    start := BothRead(w, to, to');
    s := FirstEnds(start, w, to, to');
    OneEnded(w.store, to);
    s := ServesAgain(start, s, to, to');
  }

  // Then the second ends it again and makes the resource AVAILABLE under the new assignment.
  lemma StaleEndingFreesTaken(to: AssignmentStatus, to': AssignmentStatus) returns (w: World, start: State, s: State)
    requires (to.Completed? || to.Cancelled?) && (to'.Completed? || to'.Cancelled?)
    ensures Reached(w) && start.store == w.store && SoFar(start, s) && Race.Possible(s, Runs(1))
    ensures var t := Next(s, Runs(1)).store;
      !Coherent(t) && t.ResourceTaken(0) && 0 in t.resources && t.resources[0].status.Available?
  {
    w := Departures.ReachPair();
    start, s := EndedAndServedAgain(w, to, to');
    s := WritesUpToCommit(start, s, 1, 0, to');
    assert s.store.assignments[1].status.Active? && s.store.ResourceTaken(0);
    FreesTaken(s, 1);
  }

  lemma FreesTaken(s: State, k: nat)
    requires Settled(s) && Coherent(s.store) && Enabled(s, k) && s.procs[k].call.Finish? && Stale(s, k)
    requires s.store.ResourceTaken(s.store.assignments[s.procs[k].call.a].resourceId)
    ensures var t, r := Next(s, Runs(k)).store, s.store.assignments[s.procs[k].call.a].resourceId;
      !Coherent(t) && t.ResourceTaken(r) && r in t.resources && t.resources[r].status.Available?
  {
    var me := s.procs[k];
    assert Shaped(s.store, me) && Handy(s.store, me);
    AgreementKeptIff(s, Runs(k));
    KeptWhenStale(s, k);
    PublishedTaken(s.store, me.call, me.writes);
    PublishedResources(s.store, me.call, me.writes);
    assert s.store.assignments[me.call.a].resourceId in s.store.resources;
  }

  // Once assignment 0 of the pair has ended, its resource may serve incident 1.
  lemma OneEnded(s: Store, to: AssignmentStatus)
    requires s.References() && (to.Completed? || to.Cancelled?)
    requires s.incidents == [Incident(Assigned, 0, Admin, 0, []), Incident(Approved, 0, Admin, 0, [])]
    requires s.resources == map[0 := Resource(Busy, "", 0, None), 1 := Resource(Available, "", 0, None)]
    requires s.assignments == [Assignment(0, 0, AssignmentStatus.Active, false)]
    ensures CreateGuard(EndOf(s, 0, to), 1, 0).None?
    ensures EndOf(s, 0, to).assignments == [Assignment(0, 0, to, true)]
    ensures EndOf(s, 0, to).resources[0].status.Available? && EndOf(s, 0, to).resources[1].status.Available?
  {}

  function SwapOfPair(): Plan { Plan(0, 0, 0, 0, [], Allocation.Normal, Some(1)) }

  // A swap and an ending read assignment 0 as ACTIVE, and the ending commits.
  lemma EndedUnderSwap(w: World, to: AssignmentStatus) returns (start: State, s: State)
    requires Departures.Pair(w) && (to.Completed? || to.Cancelled?)
    ensures start.store == w.store && SoFar(start, s)
    ensures |s.procs| == 2 && s.procs[0] == Proc(Swap(SwapOfPair()), Release, Nothing) && s.procs[1].writes == Nothing
    ensures s.store.assignments == [Assignment(0, 0, to, true)]
    ensures 0 in s.store.resources && s.store.resources[0].status.Available?
  {
    start := SwapHasRead(w, to);
    s := State(w.store, [Proc(Swap(SwapOfPair()), Release, Nothing), Proc(Finish(0, to), ReadAssignment, Nothing)]);
    s := ReadsActive(start, s, 1, 0, to);
    s := Finishes(start, s, 1, 0, to);
    OneEnded(w.store, to);
  }

  lemma SwapHasRead(w: World, to: AssignmentStatus) returns (start: State)
    requires Departures.Pair(w)
    ensures start.store == w.store
    ensures SoFar(start, State(w.store, [Proc(Swap(SwapOfPair()), Release, Nothing),
                                         Proc(Finish(0, to), ReadAssignment, Nothing)]))
  {
    start := Starting(w, [Swap(SwapOfPair()), Finish(0, to)]);
    SwapReads(start, to);
  }

  lemma SwapReads(start: State, to: AssignmentStatus)
    requires SoFar(start, start) && |start.procs| == 2
    requires start.procs[0] == Proc(Swap(SwapOfPair()), ReadAssignment, Nothing)
    requires start.procs[1] == Proc(Finish(0, to), ReadAssignment, Nothing)
    requires start.store.assignments == [Assignment(0, 0, AssignmentStatus.Active, false)]
    requires 1 in start.store.resources && start.store.resources[1] == Resource(Available, "", 0, None)
    ensures SoFar(start, State(start.store, [Proc(Swap(SwapOfPair()), Release, Nothing),
                                             Proc(Finish(0, to), ReadAssignment, Nothing)]))
  {
    var s := Turns(start, start, Runs(0));
    s := Turns(start, s, Runs(0));
    assert s.procs == [Proc(Swap(SwapOfPair()), Release, Nothing), Proc(Finish(0, to), ReadAssignment, Nothing)];
  }

  // Then the swap commits too: the ledger has come to 0 for an incident that is not ASSIGNED and has
  // an ACTIVE assignment.
  lemma StaleSwapRevives(to: AssignmentStatus) returns (w: World, start: State, s: State)
    requires to.Completed? || to.Cancelled?
    ensures Reached(w) && start.store == w.store && SoFar(start, s) && Race.Possible(s, Runs(0))
    ensures var t := Next(s, Runs(0)).store;
      && !Coherent(t) && !Balanced(t)
      && t.IncidentTaken(0) && |t.incidents| > 0 && !t.incidents[0].status.Assigned? && Balance(t.outbox, 0) == 0
  {
    w := Departures.ReachPair();
    start, s := EndedUnderSwap(w, to);
    s := SwapInserts(start, s, to);
    AgreementKeptIff(s, Runs(0));
    LedgerKeptIff(s, Runs(0));
    SwapRevives(s);
  }

  lemma SwapInserts(start: State, s: State, to: AssignmentStatus) returns (t: State)
    requires SoFar(start, s) && (to.Completed? || to.Cancelled?) && |s.procs| == 2
    requires s.procs[0] == Proc(Swap(SwapOfPair()), Release, Nothing) && s.procs[1].writes == Nothing
    requires s.store.assignments == [Assignment(0, 0, to, true)]
    requires 0 in s.store.resources && s.store.resources[0].status.Available?
    ensures SoFar(start, t) && t.store == s.store && |t.procs| == 2
    ensures t.procs[0].call == Swap(SwapOfPair()) && t.procs[0].pc.Commit?
    ensures t.procs[0].writes == Writes(Some((0, AssignmentStatus.Cancelled)), None, Some((0, 1)), Some(1), None)
  {
    var c := Swap(SwapOfPair());
    var released := Nothing.(release := Some((0, AssignmentStatus.Cancelled)));
    t := Turns(start, s, Runs(0));
    t := Turns(start, t, Runs(0));
    assert t == s.(procs := s.procs[0 := Proc(c, InsertRow, released)]);
    KeysAreFree(t, released);
    t := Turns(start, t, Runs(0));
    t := Turns(start, t, Runs(0));
  }

  lemma KeysAreFree(s: State, released: Writes)
    requires |s.procs| == 2 && s.procs[1].writes == Nothing
    requires s.procs[0] == Proc(Swap(SwapOfPair()), InsertRow, released)
    requires forall k | 0 <= k < |s.store.assignments| :: !s.store.assignments[k].status.Active?
    ensures Enabled(s, 0) && !s.UniqueViolation(0, 1)
  {
    forall q | 0 <= q < |s.procs| && q != 0 ensures !s.Holds(q, 0, 1) {}
  }

  lemma SwapRevives(s: State)
    requires Settled(s) && Balanced(s.store) && Enabled(s, 0) && Stale(s, 0) && s.procs[0].call == Swap(SwapOfPair())
    requires Coherent(s.store)
    ensures var t := Next(s, Runs(0)).store;
      t.IncidentTaken(0) && |t.incidents| > 0 && !t.incidents[0].status.Assigned? && Balance(t.outbox, 0) == 0
  {
    var me := s.procs[0];
    assert Shaped(s.store, me) && Handy(s.store, me);
    StaleSwapIsAlone(s, 0);
    PublishedTaken(s.store, me.call, me.writes);
    PublishedIncidents(s.store, me.call, me.writes);
    PublishedEvents(s.store, me.call, me.writes);
    NoneActive(s.store.assignments, 0);
    assert s.store.assignments[0].incidentId < |s.store.incidents|;
    assert ActiveCount(s.store.assignments, 0) == Balance(s.store.outbox, 0);
  }
}
