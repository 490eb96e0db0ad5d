// Outbox, queue and workers with overlapping publishers, crashes anywhere and pruning.  A publisher
// works from the batch it read, so it may write attempts that are out of date; a worker checks the
// ProcessedEvent table, runs the handler and then marks the event.

module Pipeline {
  import opened Outbox

  // Where a publisher is with the row at the head of its batch.
  datatype Stage = Enqueue | MarkPublished | RecordFailure

  // Rows of the batch still to be done, with the attempts that were read.
  datatype Publisher = Idle | Working(batch: seq<(nat, nat)>, stage: Stage)

  datatype Worker = Waiting | Checked(eventId: nat) | Handled(eventId: nat)

  datatype State = State(
    rows: seq<Row>,
    publishers: seq<Publisher>,
    enqueued: set<nat>,       // event ids that some enqueue accepted
    workers: seq<Worker>,
    processed: set<nat>,      // the ProcessedEvent table
    completions: seq<nat>)    // one entry for each time a handler ran to its end

  datatype Step =
    | Write(eventId: nat)
    | Fetch(p: nat, batch: seq<(nat, nat)>)
    | Proceed(p: nat, ok: bool)     // the publisher's next statement succeeds or throws
    | PublisherCrash(p: nat)
    | Deliver(w: nat, eventId: nat)
    | Handle(w: nat, ok: bool)
    | MarkProcessed(w: nat)
    | WorkerCrash(w: nat)
    | Prune(eventId: nat)

  // The batch a poll reads: rows in the batch of the current table, with their current attempts.
  ghost predicate ReadsBatch(rows: seq<Row>, batch: seq<(nat, nat)>) {
    forall e <- batch :: e.0 < |rows| && InBatch(rows, e.0) && e.1 == rows[e.0].attempts
  }

  ghost predicate Possible(s: State, t: Step) {
    match t
    case Write(e) => forall k | 0 <= k < |s.rows| :: s.rows[k].eventId != e
    case Fetch(p, batch) => p < |s.publishers| && s.publishers[p].Idle? && ReadsBatch(s.rows, batch)
    case Proceed(p, _) => p < |s.publishers| && s.publishers[p].Working?
    case PublisherCrash(p) => p < |s.publishers|
    case Deliver(w, e) => w < |s.workers| && s.workers[w].Waiting? && e in s.enqueued
    case Handle(w, _) => w < |s.workers| && s.workers[w].Checked?
    case MarkProcessed(w) => w < |s.workers| && s.workers[w].Handled?
    case WorkerCrash(w) => w < |s.workers|
    case Prune(_) => true
  }

  function NextInBatch(p: Publisher): Publisher
    requires p.Working? && p.batch != []
  {
    Working(p.batch[1..], Enqueue)
  }

  // One statement of the for loop.  A throwing enqueue or status write leads to the catch block; a
  // throwing write in the catch block ends the poll, and so does a batch that is done.
  function PublisherStep(s: State, p: nat, ok: bool): State
    requires p < |s.publishers| && s.publishers[p].Working?
  {
    var me := s.publishers[p];
    if me.batch == [] || me.batch[0].0 >= |s.rows| then s.(publishers := s.publishers[p := Idle])
    else
      var (k, read) := me.batch[0];
      match me.stage
      case Enqueue =>
        s.(enqueued := if ok then s.enqueued + {s.rows[k].eventId} else s.enqueued,
           publishers := s.publishers[p := me.(stage := if ok then MarkPublished else RecordFailure)])
      case MarkPublished =>
        if ok then
          s.(rows := s.rows[k := s.rows[k].(status := Published)], publishers := s.publishers[p := NextInBatch(me)])
        else s.(publishers := s.publishers[p := me.(stage := RecordFailure)])
      case RecordFailure =>
        if ok then
          s.(rows := s.rows[k := AfterFailure(s.rows[k], read)], publishers := s.publishers[p := NextInBatch(me)])
        else s.(publishers := s.publishers[p := Idle])
  }

  ghost function Next(s: State, t: Step): State
    requires Possible(s, t)
  {
    match t
    case Write(e) => s.(rows := s.rows + [Row(e, Pending, 0)])
    case Fetch(p, batch) => s.(publishers := s.publishers[p := Working(batch, Enqueue)])
    case Proceed(p, ok) => PublisherStep(s, p, ok)
    case PublisherCrash(p) => s.(publishers := s.publishers[p := Idle])
    case Deliver(w, e) => if e in s.processed then s else s.(workers := s.workers[w := Checked(e)])
    case Handle(w, ok) =>
      var e := s.workers[w].eventId;
      if ok then s.(workers := s.workers[w := Handled(e)], completions := s.completions + [e])
      else s.(workers := s.workers[w := Waiting])
    case MarkProcessed(w) =>
      s.(processed := s.processed + {s.workers[w].eventId}, workers := s.workers[w := Waiting])
    case WorkerCrash(w) => s.(workers := s.workers[w := Waiting])
    case Prune(e) => s.(processed := s.processed - {e})
  }

  // ------------------------------------------------------------------ safety

  ghost predicate SafeRow(s: State, row: Row) {
    && (row.status.Published? ==> row.eventId in s.enqueued)
    && (row.status.Pending? ==> row.attempts < MAX_PUBLISH_ATTEMPTS)
    && (row.status.Failed? ==> row.attempts == MAX_PUBLISH_ATTEMPTS)
  }

  ghost predicate SafePublisher(s: State, p: Publisher) {
    p.Working? ==>
      && (forall e <- p.batch :: e.0 < |s.rows| && e.1 < MAX_PUBLISH_ATTEMPTS)
      && (p.stage.MarkPublished? && p.batch != [] ==> s.rows[p.batch[0].0].eventId in s.enqueued)
  }

  ghost predicate SafeWorker(s: State, w: Worker) {
    && (w.Checked? ==> w.eventId in s.enqueued)
    && (w.Handled? ==> w.eventId in s.completions)
  }

  ghost predicate Safe(s: State) {
    && (forall k | 0 <= k < |s.rows| :: SafeRow(s, s.rows[k]))
    && (forall p | 0 <= p < |s.publishers| :: SafePublisher(s, s.publishers[p]))
    && (forall w | 0 <= w < |s.workers| :: SafeWorker(s, s.workers[w]))
    && (forall e <- s.processed :: e in s.completions)
    && (forall e <- s.completions :: e in s.enqueued)
  }

  // No outbox row disappears or changes its event.
  ghost predicate KeepsRows(s: State, t: State) {
    |s.rows| <= |t.rows| && forall k | 0 <= k < |s.rows| :: t.rows[k].eventId == s.rows[k].eventId
  }

  lemma PublisherStepKeepsSafe(s: State, p: nat, ok: bool)
    requires Safe(s) && p < |s.publishers| && s.publishers[p].Working?
    ensures SafePublisher(s, s.publishers[p])
    ensures Safe(PublisherStep(s, p, ok)) && KeepsRows(s, PublisherStep(s, p, ok))
  {}

  lemma WorkerStepKeepsSafe(s: State, t: Step)
    requires Safe(s) && Possible(s, t)
    requires t.Deliver? || t.Handle? || t.MarkProcessed? || t.WorkerCrash? || t.Prune?
    ensures Safe(Next(s, t))
  {}

  lemma WriteKeepsSafe(s: State, t: Step)
    requires Safe(s) && Possible(s, t) && (t.Write? || t.Fetch? || t.PublisherCrash?)
    ensures Safe(Next(s, t))
  {}

  // Every step of every component, whatever the others are in the middle of.
  lemma StepKeepsSafe(s: State, t: Step)
    requires Safe(s) && Possible(s, t)
    ensures Safe(Next(s, t)) && KeepsRows(s, Next(s, t))
  {
    if t.Proceed? {
      PublisherStepKeepsSafe(s, t.p, t.ok);
    } else if t.Write? || t.Fetch? || t.PublisherCrash? {
      WriteKeepsSafe(s, t);
    } else {
      WorkerStepKeepsSafe(s, t);
    }
  }

  ghost predicate Start(s: State) {
    && s.rows == [] && s.enqueued == {} && s.processed == {} && s.completions == []
    && (forall p | 0 <= p < |s.publishers| :: s.publishers[p].Idle?)
    && (forall w | 0 <= w < |s.workers| :: s.workers[w].Waiting?)
  }

  ghost predicate IsRun(ss: seq<State>, ts: seq<Step>) {
    && |ss| == |ts| + 1 && Start(ss[0])
    && forall n {:trigger ts[n]} | 0 <= n < |ts| ::
         Possible(ss[n], ts[n]) && ss[n + 1] == Next(ss[n], ts[n])
  }

  // Every state of every run, from the empty start on.
  lemma {:induction false} RunsAreSafe(ss: seq<State>, ts: seq<Step>, n: nat)
    requires IsRun(ss, ts) && n <= |ts|
    ensures Safe(ss[n])
  {
    if n > 0 {
      RunsAreSafe(ss, ts, n - 1);
      StepKeepsSafe(ss[n - 1], ts[n - 1]);
    }
  }

  // No outbox row is ever lost, over any stretch of any run.
  lemma {:induction false} RowsAreNeverLost(ss: seq<State>, ts: seq<Step>, m: nat, n: nat)
    requires IsRun(ss, ts) && m <= n <= |ts|
    ensures KeepsRows(ss[m], ss[n])
  {
    if m < n {
      RowsAreNeverLost(ss, ts, m, n - 1);
      RunsAreSafe(ss, ts, n - 1);
      assert ss[n] == Next(ss[n - 1], ts[n - 1]);
      StepKeepsSafe(ss[n - 1], ts[n - 1]);
    }
  }

  // ------------------------------------------------------------------ exactly once

  ghost predicate HeldBy(s: State, w: nat, e: nat) {
    w < |s.workers| && !s.workers[w].Waiting? && s.workers[w].eventId == e
  }

  ghost predicate BeingMarked(s: State, e: nat) {
    exists w | 0 <= w < |s.workers| :: s.workers[w] == Handled(e)
  }

  // Each handler has run to its end at most once, and if it has, the event is marked or about to
  // be; no event is with two workers, and a marked one is with none.
  ghost predicate Once(s: State) {
    && (forall e: nat {:trigger multiset(s.completions)[e]} ::
          multiset(s.completions)[e] == if e in s.processed || BeingMarked(s, e) then 1 else 0)
    && (forall v, w | 0 <= v < |s.workers| && 0 <= w < |s.workers| && v != w
                      && !s.workers[v].Waiting? && !s.workers[w].Waiting? ::
          s.workers[v].eventId != s.workers[w].eventId)
    && (forall w | 0 <= w < |s.workers| && !s.workers[w].Waiting? :: s.workers[w].eventId !in s.processed)
  }

  // The lapses: delivering an event that another worker has, crashing between the handler and the
  // mark, and pruning a marked event.
  ghost predicate Careful(s: State, t: Step) {
    match t
    case Deliver(w, e) => e in s.processed || forall v | 0 <= v < |s.workers| :: !HeldBy(s, v, e)
    case WorkerCrash(w) => w < |s.workers| ==> !s.workers[w].Handled?
    case Prune(e) => e !in s.processed
    case _ => true
  }

  lemma SameWorkersSameOnce(s: State, t: State)
    requires Once(s) && t.workers == s.workers && t.processed == s.processed && t.completions == s.completions
    ensures Once(t)
  {}

  lemma DeliverOnce(s: State, w: nat, e: nat)
    requires Safe(s) && Once(s) && Possible(s, Deliver(w, e))
    ensures Once(Next(s, Deliver(w, e))) <==> Careful(s, Deliver(w, e))
  {
    var t := Next(s, Deliver(w, e));
    if e !in s.processed {
      assert t.workers[w] == Checked(e);
      forall x: nat ensures BeingMarked(t, x) == BeingMarked(s, x) {
        MarkingUnchanged(s, t, w, x);
      }
      forall x: nat ensures multiset(t.completions)[x] == if x in t.processed || BeingMarked(t, x) then 1 else 0 {
        assert multiset(s.completions)[x] == if x in s.processed || BeingMarked(s, x) then 1 else 0;
      }
      if v :| 0 <= v < |s.workers| && HeldBy(s, v, e) {
        assert v != w && t.workers[v] == s.workers[v];
        assert t.workers[v].eventId == t.workers[w].eventId;
      } else {
        forall v | 0 <= v < |t.workers| && v != w && !t.workers[v].Waiting?
          ensures t.workers[v].eventId != t.workers[w].eventId
        {
          assert !HeldBy(s, v, e);
        }
      }
    }
  }

  lemma MarkingUnchanged(s: State, t: State, w: nat, x: nat)
    requires w < |s.workers| == |t.workers| && !s.workers[w].Handled? && !t.workers[w].Handled?
    requires forall v | 0 <= v < |s.workers| && v != w :: t.workers[v] == s.workers[v]
    ensures BeingMarked(t, x) == BeingMarked(s, x)
  {}

  lemma HandleOnce(s: State, w: nat, ok: bool)
    requires Safe(s) && Once(s) && Possible(s, Handle(w, ok))
    ensures Once(Next(s, Handle(w, ok)))
  {
    var t := Next(s, Handle(w, ok));
    var mine := s.workers[w].eventId;
    forall x: nat ensures multiset(t.completions)[x] == if x in t.processed || BeingMarked(t, x) then 1 else 0 {
      assert multiset(s.completions)[x] == if x in s.processed || BeingMarked(s, x) then 1 else 0;
      if ok {
        assert t.workers[w] == Handled(mine);
        if BeingMarked(s, x) {
          var v :| 0 <= v < |s.workers| && s.workers[v] == Handled(x);
          assert t.workers[v] == Handled(x);
        }
        assert multiset(t.completions) == multiset(s.completions) + multiset{mine};
      } else {
        MarkingUnchanged(s, t, w, x);
      }
    }
  }

  lemma MarkOnce(s: State, w: nat)
    requires Safe(s) && Once(s) && Possible(s, MarkProcessed(w))
    ensures Once(Next(s, MarkProcessed(w)))
  {
    var t := Next(s, MarkProcessed(w));
    var mine := s.workers[w].eventId;
    forall x: nat ensures multiset(t.completions)[x] == if x in t.processed || BeingMarked(t, x) then 1 else 0 {
      assert multiset(s.completions)[x] == if x in s.processed || BeingMarked(s, x) then 1 else 0;
      if x != mine && BeingMarked(s, x) {
        var v :| 0 <= v < |s.workers| && s.workers[v] == Handled(x);
        assert t.workers[v] == Handled(x);
      }
      assert s.workers[w] == Handled(mine);
    }
  }

  lemma CrashOnce(s: State, w: nat)
    requires Safe(s) && Once(s) && Possible(s, WorkerCrash(w))
    ensures Once(Next(s, WorkerCrash(w))) <==> Careful(s, WorkerCrash(w))
  {
    var t := Next(s, WorkerCrash(w));
    if s.workers[w].Handled? {
      var mine := s.workers[w].eventId;
      assert multiset(s.completions)[mine] == 1;
      assert mine !in t.processed && !BeingMarked(t, mine);
      assert multiset(t.completions)[mine] == 1;
    } else {
      forall x: nat ensures multiset(t.completions)[x] == if x in t.processed || BeingMarked(t, x) then 1 else 0 {
        assert multiset(s.completions)[x] == if x in s.processed || BeingMarked(s, x) then 1 else 0;
        MarkingUnchanged(s, t, w, x);
      }
    }
  }

  lemma PruneOnce(s: State, e: nat)
    requires Safe(s) && Once(s)
    ensures Once(Next(s, Prune(e))) <==> Careful(s, Prune(e))
  {
    var t := Next(s, Prune(e));
    forall x: nat ensures BeingMarked(t, x) == BeingMarked(s, x) {}
    if e in s.processed {
      assert multiset(s.completions)[e] == 1;
      assert !BeingMarked(s, e);
      assert multiset(t.completions)[e] == 1;
    } else {
      assert t.processed == s.processed;
      SameWorkersSameOnce(s, t);
    }
  }

  // The exact condition under which one step keeps "exactly once".
  lemma StepOnceIffCareful(s: State, t: Step)
    requires Safe(s) && Once(s) && Possible(s, t)
    ensures Once(Next(s, t)) <==> Careful(s, t)
  {
    match t
    case Deliver(w, e) => DeliverOnce(s, w, e);
    case Handle(w, ok) => HandleOnce(s, w, ok);
    case MarkProcessed(w) => MarkOnce(s, w);
    case WorkerCrash(w) => CrashOnce(s, w);
    case Prune(e) => PruneOnce(s, e);
    case Proceed(p, ok) =>
      assert SafePublisher(s, s.publishers[p]);
      SameWorkersSameOnce(s, Next(s, t));
    case _ => SameWorkersSameOnce(s, Next(s, t));
  }

  lemma {:induction false} CarefulRunsHandleOnce(ss: seq<State>, ts: seq<Step>, n: nat, e: nat)
    requires IsRun(ss, ts) && n <= |ts|
    requires forall k {:trigger ts[k]} | 0 <= k < n :: Careful(ss[k], ts[k])
    ensures Once(ss[n])
    ensures multiset(ss[n].completions)[e] <= 1
    ensures e in ss[n].processed ==> multiset(ss[n].completions)[e] == 1
  {
    if n > 0 {
      CarefulRunsHandleOnce(ss, ts, n - 1, e);
      RunsAreSafe(ss, ts, n - 1);
      assert Careful(ss[n - 1], ts[n - 1]);
      StepOnceIffCareful(ss[n - 1], ts[n - 1]);
    } else {
      StartsOnce(ss[0]);
    }
  }

  lemma StartsOnce(s: State)
    requires Start(s)
    ensures Once(s)
  {}

  // ------------------------------------------------------------------ twice

  ghost predicate Reached(s: State) { exists ss, ts :: IsRun(ss, ts) && ss[|ts|] == s }

  lemma StepIsReached(s: State, t: Step) returns (n: State)
    requires Reached(s) && Possible(s, t)
    ensures Reached(n) && n == Next(s, t)
  {
    n := Next(s, t);
    var ss, ts :| IsRun(ss, ts) && ss[|ts|] == s;
    var ss', ts' := ss + [n], ts + [t];
    forall k {:trigger ts'[k]} | 0 <= k < |ts'| ensures Possible(ss'[k], ts'[k]) && ss'[k + 1] == Next(ss'[k], ts'[k]) {
      if k < |ts| { assert ts'[k] == ts[k]; }
    }
    assert IsRun(ss', ts') && ss'[|ts'|] == n;
  }

  // Event 0 is in the queue, and two workers wait.
  function Queued(publisher: Publisher, workers: seq<Worker>, processed: set<nat>, done: seq<nat>): State {
    State([Row(0, Pending, 0)], [publisher], {0}, workers, processed, done)
  }

  lemma Enqueued() returns (s: State, publisher: Publisher)
    ensures Reached(s) && s == Queued(publisher, [Waiting, Waiting], {}, [])
  {
    var start := State([], [Idle], {}, [Waiting, Waiting], {}, []);
    var none: seq<Step> := [];
    assert IsRun([start], none) && [start][|none|] == start;
    s := StepIsReached(start, Write(0));
    assert Before(s.rows, 0) == 0;
    s := StepIsReached(s, Fetch(0, [(0, 0)]));
    s := StepIsReached(s, Proceed(0, true));
    publisher := s.publishers[0];
  }

  // One worker has taken the event and its handler has run to its end.
  lemma HandledOnce() returns (s: State, publisher: Publisher)
    ensures Reached(s) && s == Queued(publisher, [Handled(0), Waiting], {}, [0])
  {
    s, publisher := Enqueued();
    s := StepIsReached(s, Deliver(0, 0));
    s := StepIsReached(s, Handle(0, true));
  }

  // It crashes before it marks the event: the next delivery handles it again.
  lemma CrashHandlesTwice() returns (s: State)
    ensures Reached(s) && s.completions == [0, 0]
  {
    var publisher;
    s, publisher := HandledOnce();
    s := StepIsReached(s, WorkerCrash(0));
    s := StepIsReached(s, Deliver(0, 0));
    s := StepIsReached(s, Handle(0, true));
  }

  // It marks the event and the mark is pruned: so does a delivery after that.
  lemma PruningHandlesTwice() returns (s: State)
    ensures Reached(s) && s.completions == [0, 0]
  {
    var publisher;
    s, publisher := HandledOnce();
    s := StepIsReached(s, MarkProcessed(0));
    s := StepIsReached(s, Prune(0));
    s := StepIsReached(s, Deliver(0, 0));
    s := StepIsReached(s, Handle(0, true));
  }

  // Another worker is handed the event before it is marked: both handle it.
  lemma DoubleDeliveryHandlesTwice() returns (s: State)
    ensures Reached(s) && s.completions == [0, 0]
  {
    var publisher;
    s, publisher := HandledOnce();
    s := StepIsReached(s, Deliver(1, 0));
    s := StepIsReached(s, Handle(1, true));
  }
}
