// The outbox publisher: a poll takes the oldest PENDING rows, tries to enqueue each, and keeps
// count of the failures.  One publisher drains its queue at a guaranteed pace, because a row that
// keeps failing gives up its place after five polls.

module Outbox {
  import Domain

  const MAX_PUBLISH_ATTEMPTS: nat := 5
  const BATCH_SIZE: nat := 50

  datatype Status = Pending | Published | Failed

  // Rows are kept in the order of createdAt.
  datatype Row = Row(eventId: nat, status: Status, attempts: nat)

  predicate Eligible(row: Row) { row.status.Pending? && row.attempts < MAX_PUBLISH_ATTEMPTS }

  // How many eligible rows are older than row k.
  function Before(rows: seq<Row>, k: nat): nat
    requires k <= |rows|
  {
    if k == 0 then 0 else Before(rows, k - 1) + if Eligible(rows[k - 1]) then 1 else 0
  }

  predicate InBatch(rows: seq<Row>, k: nat)
    requires k < |rows|
  {
    Eligible(rows[k]) && Before(rows, k) < BATCH_SIZE
  }

  function AfterFailure(row: Row, attemptsRead: nat): Row {
    row.(attempts := attemptsRead + 1,
         status := if attemptsRead + 1 >= MAX_PUBLISH_ATTEMPTS then Failed else Pending)
  }

  function Tried(row: Row, ok: bool): Row {
    if ok then row.(status := Published) else AfterFailure(row, row.attempts)
  }

  // What one poll makes of row k, with ok(k) saying whether its enqueue succeeds.
  function Polled(rows: seq<Row>, ok: nat -> bool, k: nat): Row
    requires k < |rows|
  {
    if InBatch(rows, k) then Tried(rows[k], ok(k)) else rows[k]
  }

  ghost predicate IsPoll(rows: seq<Row>, ok: nat -> bool, after: seq<Row>) {
    |after| == |rows| && forall k | 0 <= k < |rows| :: after[k] == Polled(rows, ok, k)
  }

  // A poll that got as far as row `stop`.
  ghost predicate IsPollUpTo(rows: seq<Row>, ok: nat -> bool, after: seq<Row>, stop: nat) {
    |after| == |rows| && forall k | 0 <= k < |rows| :: after[k] == if k < stop then Polled(rows, ok, k) else rows[k]
  }

  // The rows that a poll takes, oldest first.
  ghost predicate IsBatch(rows: seq<Row>, batch: seq<nat>) {
    && (forall k | 0 <= k < |rows| :: k in batch <==> InBatch(rows, k))
    && (forall j | 0 <= j < |batch| :: batch[j] < |rows|)
    && (forall j, l | 0 <= j < l < |batch| :: batch[j] < batch[l])
  }

  // How far the table has been dealt with once j rows of the batch have.
  function Reaches(rows: seq<Row>, batch: seq<nat>, j: nat): nat { if j < |batch| then batch[j] else |rows| }

  // No row of the batch before `stop` has failed twice.
  ghost predicate Unthrown(rows: seq<Row>, ok: nat -> bool, recorded: nat -> bool, stop: nat) {
    forall k | 0 <= k < |rows| && k < stop && InBatch(rows, k) :: ok(k) || recorded(k)
  }

  lemma NothingBetween(rows: seq<Row>, batch: seq<nat>, j: nat, k: nat)
    requires IsBatch(rows, batch) && j <= |batch| && k < Reaches(rows, batch, j) && k < |rows|
    requires j > 0 ==> batch[j - 1] < k
    ensures !InBatch(rows, k)
  {
    forall i | 0 <= i < |batch| ensures batch[i] != k {}
  }

  lemma FirstReach(rows: seq<Row>, ok: nat -> bool, recorded: nat -> bool, batch: seq<nat>)
    requires IsBatch(rows, batch)
    ensures IsPollUpTo(rows, ok, rows, Reaches(rows, batch, 0))
    ensures Unthrown(rows, ok, recorded, Reaches(rows, batch, 0))
  {
    forall k | 0 <= k < |rows| && k < Reaches(rows, batch, 0) ensures !InBatch(rows, k) {
      NothingBetween(rows, batch, 0, k);
    }
  }

  lemma OneMoreRow(
    rows: seq<Row>, ok: nat -> bool, recorded: nat -> bool, after: seq<Row>, batch: seq<nat>, j: nat)
    requires IsBatch(rows, batch) && j < |batch| && IsPollUpTo(rows, ok, after, batch[j])
    requires Unthrown(rows, ok, recorded, batch[j]) && (ok(batch[j]) || recorded(batch[j]))
    ensures var k := batch[j];
      k < |after| && IsPollUpTo(rows, ok, after[k := Tried(after[k], ok(k))], Reaches(rows, batch, j + 1))
    ensures Unthrown(rows, ok, recorded, Reaches(rows, batch, j + 1))
  {
    assert batch[j] in batch;
    forall k | 0 <= k < |rows| && batch[j] < k < Reaches(rows, batch, j + 1) ensures !InBatch(rows, k) {
      NothingBetween(rows, batch, j + 1, k);
    }
  }

  function CountPublished(rows: seq<Row>): nat {
    if rows == [] then 0
    else CountPublished(rows[..|rows| - 1]) + if rows[|rows| - 1].status.Published? then 1 else 0
  }

  lemma {:induction false} CountPublishedUpdate(rows: seq<Row>, k: nat, row: Row)
    requires k < |rows|
    ensures CountPublished(rows[k := row])
         == CountPublished(rows) - (if rows[k].status.Published? then 1 else 0)
            + (if row.status.Published? then 1 else 0)
  {
    var n := |rows| - 1;
    if k == n {
      assert rows[k := row][..n] == rows[..n];
    } else {
      CountPublishedUpdate(rows[..n], k, row);
      assert rows[k := row][..n] == rows[..n][k := row];
    }
  }

  lemma {:induction false} BeforeMonotone(rows: seq<Row>, j: nat, k: nat)
    requires j <= k <= |rows|
    ensures Before(rows, j) <= Before(rows, k)
  {
    if j < k { BeforeMonotone(rows, j, k - 1); }
  }

  class OutboxTable {
    var rows: seq<Row>

    constructor ()
      ensures rows == []
    {
      rows := [];
    }

    method Insert(eventId: nat)
      modifies this
      ensures rows == old(rows) + [Row(eventId, Pending, 0)]
    {
      rows := rows + [Row(eventId, Pending, 0)];
    }

    // findMany({ PENDING, attempts < 5 }, oldest first, take 50)
    method FetchBatch() returns (batch: seq<nat>)
      ensures IsBatch(rows, batch)
    {
      batch := [];
      var k := 0;
      while k < |rows| && |batch| < BATCH_SIZE
        invariant k <= |rows| && |batch| == Before(rows, k) <= BATCH_SIZE
        invariant forall j | 0 <= j < |batch| :: batch[j] < k
        invariant forall j, l | 0 <= j < l < |batch| :: batch[j] < batch[l]
        invariant forall i | 0 <= i < k :: i in batch <==> InBatch(rows, i)
      {
        if Eligible(rows[k]) { batch := batch + [k]; }
        k := k + 1;
      }
      forall i | k <= i < |rows| ensures !InBatch(rows, i) {
        BeforeMonotone(rows, k, i);
      }
    }

    // publishPendingOutboxEvents: how many rows it published.  ok(k): row k is enqueued and marked
    // PUBLISHED; recorded(k): if not, the write of its attempts succeeds.  Where that write throws
    // as well, the poll ends with the exception.
    method PublishPending(ok: nat -> bool, recorded: nat -> bool) returns (published: nat, thrownAt: Domain.Option<nat>)
      modifies this
      ensures thrownAt.None? ==> IsPoll(old(rows), ok, rows)
      ensures thrownAt.Some? ==>
                && thrownAt.value < |old(rows)| && InBatch(old(rows), thrownAt.value)
                && !ok(thrownAt.value) && !recorded(thrownAt.value)
                && IsPollUpTo(old(rows), ok, rows, thrownAt.value)
      ensures forall k | 0 <= k < |old(rows)| && InBatch(old(rows), k) && !ok(k) && !recorded(k) ::
                thrownAt.Some? && thrownAt.value <= k
      ensures CountPublished(rows) == CountPublished(old(rows)) + published
    {
      var batch := FetchBatch();
      published, thrownAt := 0, Domain.None;
      FirstReach(rows, ok, recorded, batch);
      for j := 0 to |batch|
        invariant IsPollUpTo(old(rows), ok, rows, Reaches(old(rows), batch, j))
        invariant Unthrown(old(rows), ok, recorded, Reaches(old(rows), batch, j))
        invariant CountPublished(rows) == CountPublished(old(rows)) + published
      {
        var k := batch[j];
        assert InBatch(old(rows), k) && rows[k] == old(rows)[k] by { assert k in batch; }
        if !ok(k) && !recorded(k) { return published, Domain.Some(k); }
        OneMoreRow(old(rows), ok, recorded, rows, batch, j);
        CountPublishedUpdate(rows, k, Tried(rows[k], ok(k)));
        if ok(k) {
          rows := rows[k := rows[k].(status := Published)];
          published := published + 1;
        } else {
          var next := rows[k].attempts + 1;
          rows := rows[k := rows[k].(attempts := next,
                                     status := if next >= MAX_PUBLISH_ATTEMPTS then Failed else Pending)];
        }
      }
    }
  }

  // ------------------------------------------------------------------ draining

  // A PENDING row has attempts left and a FAILED one has used them all.
  ghost predicate Sound(rows: seq<Row>) {
    forall k | 0 <= k < |rows| ::
      && (rows[k].status.Pending? ==> rows[k].attempts < MAX_PUBLISH_ATTEMPTS)
      && (rows[k].status.Failed? ==> rows[k].attempts == MAX_PUBLISH_ATTEMPTS)
  }

  // One poll and the rows that arrived until the next one, younger than all others.
  ghost predicate Round(rows: seq<Row>, rows': seq<Row>, ok: nat -> bool) {
    && |rows| <= |rows'|
    && IsPoll(rows, ok, rows'[..|rows|])
    && (forall k | |rows| <= k < |rows'| :: rows'[k].status.Pending? && rows'[k].attempts == 0)
  }

  ghost predicate IsHistory(hs: seq<seq<Row>>, oks: seq<nat -> bool>) {
    && |hs| == |oks| + 1
    && Sound(hs[0])
    && forall n {:trigger oks[n]} | 0 <= n < |oks| :: Round(hs[n], hs[n + 1], oks[n])
  }

  lemma RoundKeepsSound(rows: seq<Row>, rows': seq<Row>, ok: nat -> bool)
    requires Sound(rows) && Round(rows, rows', ok)
    ensures Sound(rows')
  {}

  lemma {:induction false} HistoryIsSound(hs: seq<seq<Row>>, oks: seq<nat -> bool>, n: nat)
    requires IsHistory(hs, oks) && n <= |oks|
    ensures Sound(hs[n]) && |hs[0]| <= |hs[n]|
  {
    if n > 0 {
      HistoryIsSound(hs, oks, n - 1);
      RoundKeepsSound(hs[n - 1], hs[n], oks[n - 1]);
    }
  }

  // Polls only ever shorten the queue in front of a row.
  lemma {:induction false} RoundShortens(rows: seq<Row>, rows': seq<Row>, ok: nat -> bool, i: nat)
    requires Round(rows, rows', ok) && i <= |rows|
    ensures Before(rows', i) <= Before(rows, i)
  {
    if i > 0 {
      RoundShortens(rows, rows', ok, i - 1);
      assert rows'[i - 1] == rows'[..|rows|][i - 1] == Polled(rows, ok, i - 1);
    }
  }

  // From round m to round n: what has left stays away, and the queue in front never grows.
  lemma {:induction false} Ages(hs: seq<seq<Row>>, oks: seq<nat -> bool>, m: nat, n: nat, i: nat)
    requires IsHistory(hs, oks) && m <= n <= |oks| && i < |hs[m]|
    ensures |hs[m]| <= |hs[n]|
    ensures Before(hs[n], i) <= Before(hs[m], i)
    ensures !hs[m][i].status.Pending? ==> !hs[n][i].status.Pending?
  {
    if m < n {
      Ages(hs, oks, m, n - 1, i);
      assert Round(hs[n - 1], hs[n], oks[n - 1]);
      RoundShortens(hs[n - 1], hs[n], oks[n - 1], i);
      assert hs[n][i] == hs[n][..|hs[n - 1]|][i] == Polled(hs[n - 1], oks[n - 1], i);
    }
  }

  // A row among the first fifty uses up one attempt a poll.
  lemma {:induction false} HeadUsesAttempts(hs: seq<seq<Row>>, oks: seq<nat -> bool>, m: nat, t: nat, i: nat)
    requires IsHistory(hs, oks) && m + t <= |oks| && i < |hs[m]| && Before(hs[m], i) < BATCH_SIZE
    ensures |hs[m]| <= |hs[m + t]|
    ensures hs[m + t][i].status.Pending? ==> hs[m + t][i].attempts >= t
  {
    Ages(hs, oks, m, m + t, i);
    if t > 0 {
      HeadUsesAttempts(hs, oks, m, t - 1, i);
      Ages(hs, oks, m, m + t - 1, i);
      HistoryIsSound(hs, oks, m + t - 1);
      assert Round(hs[m + t - 1], hs[m + t], oks[m + t - 1]);
      assert hs[m + t][i] == hs[m + t][..|hs[m + t - 1]|][i] == Polled(hs[m + t - 1], oks[m + t - 1], i);
    }
  }

  lemma HeadLeaves(hs: seq<seq<Row>>, oks: seq<nat -> bool>, m: nat, i: nat)
    requires IsHistory(hs, oks) && m + 5 <= |oks| && i < |hs[m]| && Before(hs[m], i) < BATCH_SIZE
    ensures i < |hs[m + 5]| && !hs[m + 5][i].status.Pending?
  {
    HeadUsesAttempts(hs, oks, m, 5, i);
    HistoryIsSound(hs, oks, m + 5);
  }

  lemma {:induction false} FiftyFewer(a: seq<Row>, b: seq<Row>, i: nat)
    requires i <= |a| <= |b|
    requires forall k | 0 <= k < i :: Eligible(b[k]) ==> Eligible(a[k]) && Before(a, k) >= BATCH_SIZE
    ensures Before(b, i) <= if Before(a, i) >= BATCH_SIZE then Before(a, i) - BATCH_SIZE else 0
  {
    if i > 0 { FiftyFewer(a, b, i - 1); }
  }

  // Five polls move every row at least fifty places forward.
  lemma FivePollsAdvance(hs: seq<seq<Row>>, oks: seq<nat -> bool>, m: nat, i: nat)
    requires IsHistory(hs, oks) && m + 5 <= |oks| && i < |hs[m]| && Before(hs[m], i) >= BATCH_SIZE
    ensures i < |hs[m + 5]| && Before(hs[m + 5], i) <= Before(hs[m], i) - BATCH_SIZE
  {
    Ages(hs, oks, m, m + 5, i);
    HistoryIsSound(hs, oks, m);
    forall k | 0 <= k < i && Eligible(hs[m + 5][k])
      ensures Eligible(hs[m][k]) && Before(hs[m], k) >= BATCH_SIZE
    {
      Ages(hs, oks, m, m + 5, k);
      if Before(hs[m], k) < BATCH_SIZE { HeadLeaves(hs, oks, m, k); }
    }
    FiftyFewer(hs[m], hs[m + 5], i);
  }

  // The event with p eligible events in front of it has left PENDING after 5 * (p / 50 + 1) polls,
  // whatever the enqueue results and however many events keep arriving.
  lemma {:induction false} DrainBound(hs: seq<seq<Row>>, oks: seq<nat -> bool>, m: nat, n: nat, i: nat)
    requires IsHistory(hs, oks) && m <= n <= |oks| && i < |hs[m]|
    requires n - m >= 5 * (Before(hs[m], i) / BATCH_SIZE + 1)
    ensures i < |hs[n]| && !hs[n][i].status.Pending?
    decreases n - m
  {
    if Before(hs[m], i) < BATCH_SIZE {
      HeadLeaves(hs, oks, m, i);
      Ages(hs, oks, m + 5, n, i);
    } else {
      FivePollsAdvance(hs, oks, m, i);
      DrainBound(hs, oks, m + 5, n, i);
    }
  }

  // ------------------------------------------------------------------ the bound is exact

  // Row k after n polls in which nothing could be enqueued.
  function Stuck(n: nat, k: nat): Row {
    var used := n - 5 * (k / BATCH_SIZE);
    if used >= 5 then Row(k, Failed, 5)
    else Row(k, Pending, if used < 0 then 0 else used)
  }

  function StuckRows(n: nat, size: nat): seq<Row> { seq(size, k requires 0 <= k < size => Stuck(n, k)) }

  lemma {:induction false} StuckBefore(n: nat, size: nat, k: nat)
    requires k <= size
    ensures Before(StuckRows(n, size), k) == if k <= 50 * (n / 5) then 0 else k - 50 * (n / 5)
  {
    if k > 0 {
      StuckBefore(n, size, k - 1);
      assert StuckRows(n, size)[k - 1] == Stuck(n, k - 1);
      assert Eligible(Stuck(n, k - 1)) <==> (k - 1) / 50 >= n / 5;
    }
  }

  lemma StuckRound(n: nat, size: nat, ok: nat -> bool)
    requires forall k :: !ok(k)
    ensures Round(StuckRows(n, size), StuckRows(n + 1, size), ok)
  {
    var rows, rows' := StuckRows(n, size), StuckRows(n + 1, size);
    assert rows'[..size] == rows';
    forall k | 0 <= k < size ensures rows'[k] == Polled(rows, ok, k) {
      StuckBefore(n, size, k);
      StuckPolled(n, k);
    }
  }

  lemma StuckPolled(n: nat, k: nat)
    ensures k / 50 > n / 5 ==> Stuck(n + 1, k) == Stuck(n, k) && k - 50 * (n / 5) >= 50
    ensures k / 50 == n / 5 ==> Stuck(n + 1, k) == AfterFailure(Stuck(n, k), Stuck(n, k).attempts)
                                && 0 <= k - 50 * (n / 5) < 50 && Eligible(Stuck(n, k))
    ensures k / 50 < n / 5 ==> Stuck(n + 1, k) == Stuck(n, k) && !Eligible(Stuck(n, k))
  {}

  // Every p has a history in which the event at position p is still PENDING one poll earlier.
  lemma DrainBoundIsTight(p: nat) returns (hs: seq<seq<Row>>, oks: seq<nat -> bool>)
    ensures IsHistory(hs, oks) && |oks| == 5 * (p / BATCH_SIZE + 1) && p < |hs[0]|
    ensures Before(hs[0], p) == p
    ensures p < |hs[|oks| - 1]| && hs[|oks| - 1][p].status.Pending?
  {
    var last := 5 * (p / BATCH_SIZE + 1);
    var never := (k: nat) => false;
    hs := seq(last + 1, n requires 0 <= n <= last => StuckRows(n, p + 1));
    oks := seq(last, n => never);
    forall n {:trigger oks[n]} | 0 <= n < |oks| ensures Round(hs[n], hs[n + 1], oks[n]) {
      StuckRound(n, p + 1, oks[n]);
    }
    StuckBefore(0, p + 1, p);
    assert hs[last - 1][p] == Stuck(last - 1, p);
  }
}
