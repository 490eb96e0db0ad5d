// What one publisher and one worker of the pipeline do when nobody is in between: exactly the poll
// of the outbox table and the job of the event worker.

module Alone {
  import opened Domain
  import opened Outbox
  import opened Pipeline

  // How the statements about each row end: its enqueue, its mark as PUBLISHED, the record of a failure.
  datatype Ends = Ends(enqueue: nat -> bool, mark: nat -> bool, record: nat -> bool)
  {
    predicate Ok(k: nat) { enqueue(k) && mark(k) }
  }

  function EndOf(me: Publisher, ends: Ends): bool
    requires me.Working?
  {
    me.batch != [] &&
    match me.stage
    case Enqueue => ends.enqueue(me.batch[0].0)
    case MarkPublished => ends.mark(me.batch[0].0)
    case RecordFailure => ends.record(me.batch[0].0)
  }

  // At most how many statements are left.
  function Left(me: Publisher): nat {
    if me.Idle? then 0
    else 1 + 3 * |me.batch| + (match me.stage case Enqueue => 2 case MarkPublished => 1 case RecordFailure => 0)
  }

  // Publisher p goes on until it is idle.
  function PollOn(s: State, p: nat, ends: Ends): State
    requires p < |s.publishers|
    decreases Left(s.publishers[p])
  {
    if s.publishers[p].Idle? then s
    else PollOn(PublisherStep(s, p, EndOf(s.publishers[p], ends)), p, ends)
  }

  // The state after row k, when the publisher goes on as `next`.
  function AfterRow(s: State, p: nat, k: nat, row: Row, enqueued: bool, next: Publisher): State
    requires p < |s.publishers| && k < |s.rows|
  {
    s.(rows := s.rows[k := row],
       enqueued := if enqueued then s.enqueued + {s.rows[k].eventId} else s.enqueued,
       publishers := s.publishers[p := next])
  }

  lemma FailedRow(s: State, p: nat, ends: Ends)
    requires p < |s.publishers| && s.publishers[p].Working? && s.publishers[p].stage.RecordFailure?
    requires s.publishers[p].batch != [] && s.publishers[p].batch[0].0 < |s.rows|
    ensures var me := s.publishers[p]; var (k, read) := me.batch[0];
      PollOn(s, p, ends) ==
        if ends.record(k) then
          PollOn(AfterRow(s, p, k, AfterFailure(s.rows[k], read), false, NextInBatch(me)), p, ends)
        else AfterRow(s, p, k, s.rows[k], false, Idle)
  {
    var me := s.publishers[p];
    var (k, read) := me.batch[0];
    assert s.rows[k := s.rows[k]] == s.rows;
    if !ends.record(k) { assert PollOn(PublisherStep(s, p, false), p, ends) == PublisherStep(s, p, false); }
  }

  lemma SentRow(s: State, p: nat, ends: Ends)
    requires p < |s.publishers| && s.publishers[p].Working? && s.publishers[p].stage.MarkPublished?
    requires s.publishers[p].batch != [] && s.publishers[p].batch[0].0 < |s.rows|
    ensures var me := s.publishers[p]; var (k, read) := me.batch[0];
      PollOn(s, p, ends) ==
        if ends.mark(k) then PollOn(AfterRow(s, p, k, s.rows[k].(status := Published), false, NextInBatch(me)), p, ends)
        else if ends.record(k) then
          PollOn(AfterRow(s, p, k, AfterFailure(s.rows[k], read), false, NextInBatch(me)), p, ends)
        else AfterRow(s, p, k, s.rows[k], false, Idle)
  {
    var me := s.publishers[p];
    var (k, read) := me.batch[0];
    var a := PublisherStep(s, p, ends.mark(k));
    if !ends.mark(k) {
      FailedRow(a, p, ends);
      assert AfterRow(a, p, k, AfterFailure(s.rows[k], read), false, NextInBatch(me))
          == AfterRow(s, p, k, AfterFailure(s.rows[k], read), false, NextInBatch(me));
      assert AfterRow(a, p, k, s.rows[k], false, Idle) == AfterRow(s, p, k, s.rows[k], false, Idle);
    }
  }

  // The enqueue has moved the publisher on within row k.
  lemma SameAfterRow(s: State, a: State, p: nat, k: nat, row: Row, sent: bool, next: Publisher)
    requires p < |s.publishers| && k < |s.rows| && |a.publishers| == |s.publishers|
    requires a == s.(enqueued := if sent then s.enqueued + {s.rows[k].eventId} else s.enqueued,
                     publishers := s.publishers[p := a.publishers[p]])
    ensures AfterRow(a, p, k, row, false, next) == AfterRow(s, p, k, row, sent, next)
  {}

  lemma OneRow(s: State, p: nat, ends: Ends)
    requires p < |s.publishers| && s.publishers[p].Working? && s.publishers[p].stage.Enqueue?
    requires s.publishers[p].batch != [] && s.publishers[p].batch[0].0 < |s.rows|
    ensures var me := s.publishers[p]; var (k, read) := me.batch[0]; var sent := ends.enqueue(k);
      PollOn(s, p, ends) ==
        if ends.Ok(k) then
          PollOn(AfterRow(s, p, k, s.rows[k].(status := Published), sent, NextInBatch(me)), p, ends)
        else if ends.record(k) then
          PollOn(AfterRow(s, p, k, AfterFailure(s.rows[k], read), sent, NextInBatch(me)), p, ends)
        else AfterRow(s, p, k, s.rows[k], sent, Idle)
  {
    var me := s.publishers[p];
    var (k, read) := me.batch[0];
    var sent := ends.enqueue(k);
    var a := PublisherStep(s, p, sent);
    SameAfterRow(s, a, p, k, s.rows[k].(status := Published), sent, NextInBatch(me));
    SameAfterRow(s, a, p, k, AfterFailure(s.rows[k], read), sent, NextInBatch(me));
    SameAfterRow(s, a, p, k, s.rows[k], sent, Idle);
    if sent { SentRow(a, p, ends); } else { FailedRow(a, p, ends); }
  }

  // What a poll reads of the batch.
  function Reads(rows: seq<Row>, batch: seq<nat>): seq<(nat, nat)>
    requires forall j | 0 <= j < |batch| :: batch[j] < |rows|
  {
    seq(|batch|, j requires 0 <= j < |batch| => (batch[j], rows[batch[j]].attempts))
  }

  // t differs from s in the rows, the events enqueued and publisher p, which is idle.
  ghost predicate OnlyPolled(s: State, t: State, p: nat)
    requires p < |s.publishers|
  {
    && t == s.(rows := t.rows, enqueued := t.enqueued, publishers := s.publishers[p := Idle])
  }

  // What a poll that has dealt with j rows of the batch makes of the rest.
  lemma {:induction false} PollsFrom(
    rows: seq<Row>, s: State, p: nat, batch: seq<nat>, j: nat, ok: nat -> bool, ends: Ends)
    returns (thrownAt: Option<nat>)
    requires IsBatch(rows, batch) && j <= |batch| && p < |s.publishers| && forall k :: ok(k) <==> ends.Ok(k)
    requires IsPollUpTo(rows, ok, s.rows, Reaches(rows, batch, j))
    requires Unthrown(rows, ok, ends.record, Reaches(rows, batch, j))
    requires s.publishers[p] == Working(Reads(rows, batch)[j..], Enqueue)
    ensures OnlyPolled(s, PollOn(s, p, ends), p)
    ensures thrownAt.None? ==>
      IsPoll(rows, ok, PollOn(s, p, ends).rows) && Unthrown(rows, ok, ends.record, |rows|)
    ensures thrownAt.Some? ==>
      && thrownAt.value < |rows| && InBatch(rows, thrownAt.value)
      && !ok(thrownAt.value) && !ends.record(thrownAt.value)
      && Unthrown(rows, ok, ends.record, thrownAt.value)
      && IsPollUpTo(rows, ok, PollOn(s, p, ends).rows, thrownAt.value)
    decreases |batch| - j
  {
    thrownAt := None;
    if j == |batch| {
      assert PollOn(s, p, ends) == PublisherStep(s, p, false);
    } else {
      var k := batch[j];
      assert Reads(rows, batch)[j..][1..] == Reads(rows, batch)[j + 1..];
      assert InBatch(rows, k) && s.rows[k] == rows[k] by { assert k in batch; }
      OneRow(s, p, ends);
      if ok(k) || ends.record(k) {
        OneMoreRow(rows, ok, ends.record, s.rows, batch, j);
        var next := AfterRow(s, p, k, Tried(rows[k], ok(k)), ends.enqueue(k), NextInBatch(s.publishers[p]));
        thrownAt := PollsFrom(rows, next, p, batch, j + 1, ok, ends);
      } else {
        thrownAt := Some(k);
        assert s.rows[k := s.rows[k]] == s.rows;
      }
    }
  }

  // A publisher that nobody interrupts does with its statements what the poll does, whichever of them
  // throw: each row by its own result, up to the first whose failure can not be recorded.
  lemma PollsAlone(s: State, p: nat, batch: seq<nat>, ok: nat -> bool, ends: Ends) returns (thrownAt: Option<nat>)
    requires p < |s.publishers| && s.publishers[p].Idle? && IsBatch(s.rows, batch)
    requires forall k :: ok(k) <==> ends.Ok(k)
    ensures Possible(s, Fetch(p, Reads(s.rows, batch)))
    ensures var t := PollOn(Next(s, Fetch(p, Reads(s.rows, batch))), p, ends);
      && OnlyPolled(s, t, p)
      && (thrownAt.None? ==> IsPoll(s.rows, ok, t.rows) && Unthrown(s.rows, ok, ends.record, |s.rows|))
      && (thrownAt.Some? ==>
            && thrownAt.value < |s.rows| && InBatch(s.rows, thrownAt.value)
            && !ok(thrownAt.value) && !ends.record(thrownAt.value)
            && Unthrown(s.rows, ok, ends.record, thrownAt.value)
            && IsPollUpTo(s.rows, ok, t.rows, thrownAt.value))
  {
    forall e <- Reads(s.rows, batch) ensures e.0 < |s.rows| && InBatch(s.rows, e.0) && e.1 == s.rows[e.0].attempts {
      var j :| 0 <= j < |batch| && e == (batch[j], s.rows[batch[j]].attempts);
      assert batch[j] in batch;
    }
    FirstReach(s.rows, ok, ends.record, batch);
    var fetched := Next(s, Fetch(p, Reads(s.rows, batch)));
    assert Reads(s.rows, batch)[0..] == Reads(s.rows, batch);
    thrownAt := PollsFrom(s.rows, fetched, p, batch, 0, ok, ends);
    assert s.publishers[p := Idle] == fetched.publishers[p := Idle];
  }

  // ------------------------------------------------------------------ one row in plain terms

  // The older rows that wait, too.
  ghost function Waiting(rows: seq<Row>, k: nat): set<nat>
    requires k <= |rows|
  {
    set j: nat | j < k && rows[j].status.Pending? && rows[j].attempts < 5
  }

  lemma {:induction false} BeforeCounts(rows: seq<Row>, k: nat)
    requires k <= |rows|
    ensures Before(rows, k) == |Waiting(rows, k)|
  {
    if k > 0 {
      BeforeCounts(rows, k - 1);
      assert Waiting(rows, k) == Waiting(rows, k - 1) + if Eligible(rows[k - 1]) then {k - 1} else {};
    } else {
      assert Waiting(rows, 0) == {};
    }
  }

  // A poll tries a row if it is PENDING with fewer than five attempts behind fewer than fifty older
  // such rows.  It is PUBLISHED then, or has one attempt more and is FAILED if that was the fifth.
  lemma PolledMeans(rows: seq<Row>, ok: nat -> bool, k: nat)
    requires k < |rows|
    ensures var was, now := rows[k], Polled(rows, ok, k);
      if was.status.Pending? && was.attempts < 5 && |Waiting(rows, k)| < 50 then
        && now.eventId == was.eventId
        && (ok(k) ==> now.status.Published? && now.attempts == was.attempts)
        && (!ok(k) ==>
              now.attempts == was.attempts + 1
              && now.status == if was.attempts == 4 then Status.Failed else Status.Pending)
      else now == was
  {
    BeforeCounts(rows, k);
  }

  // ------------------------------------------------------------------ a worker alone

  // One delivery and the statements of the job: the duplicate check, the handler, the mark.  A mark
  // that throws is a crash between handler and mark.
  ghost function Job(s: State, w: nat, e: nat, handles: bool, marks: bool): State
    requires Pipeline.Possible(s, Deliver(w, e))
  {
    var checked := Next(s, Deliver(w, e));
    if checked.workers[w].Waiting? then checked
    else
      var handled := Next(checked, Handle(w, handles));
      if handled.workers[w].Waiting? then handled
      else Next(handled, if marks then MarkProcessed(w) else WorkerCrash(w))
  }

  // A duplicate changes nothing, and nor does a handler that throws; otherwise the handler has run
  // once more, and the event is processed exactly if its mark was written.
  lemma WorksAlone(s: State, w: nat, e: nat, handles: bool, marks: bool)
    requires Possible(s, Deliver(w, e))
    ensures Job(s, w, e, handles, marks) ==
      if e in s.processed || !handles then s
      else s.(completions := s.completions + [e], processed := if marks then s.processed + {e} else s.processed)
  {
    assert s.workers[w := Worker.Waiting] == s.workers;
  }
}
