// What the hospital reads show, column by column: what the writes wrote.

module HospitalShown {
  import opened Domain
  import opened HospitalCache
  import opened HospitalCoherence
  import K = CacheKeys

  // ------------------------------------------------------------------ what a read shows

  // The availability view of a row: every column under its own name.
  ghost predicate ShowsAvailability(a: Answer, row: Hospital) {
    && a.Shown? && a.view.Availability?
    && a.view.id == row.id && a.view.name == row.name && a.view.status == row.status
    && a.view.bedCapacity == row.bedCapacity && a.view.availableBeds == row.availableBeds
    && a.view.icuCapacity == row.icuCapacity && a.view.availableICUBeds == row.availableICUBeds
  }

  ghost predicate Present(db: seq<Hospital>, id: string) { exists k | 0 <= k < |db| :: db[k].id == id }

  // From the cache or not, an availability read shows the row of the requested id, and 404 exactly
  // where there is none.
  lemma AvailabilityShows(g: Paging, s: State, id: string)
    requires Coherent(g, s)
    ensures var a := Apply(g, s, GetAvailability(id)).1;
      && (a == Answer.Failed(HospitalNotFound) <==> !Present(s.db, id))
      && forall k | 0 <= k < |s.db| && s.db[k].id == id :: ShowsAvailability(a, s.db[k])
  {
    AvailabilityReadIsFresh(g, s, id);
    forall k | 0 <= k < |s.db| && s.db[k].id == id ensures IndexOf(s.db, id) == k {
      IndexIs(s.db, k);
    }
  }

  // A read by the id of a hospital shows its row.
  lemma ByIdShows(g: Paging, s: State, k: nat)
    requires Coherent(g, s) && k < |s.db|
    ensures Apply(g, s, GetById(s.db[k].id)).1 == Shown(Full(s.db[k]))
  {
    PlainIdsNeverCollide(g, s.db[k].id);
    ByIdReadIsFresh(g, s, s.db[k].id);
    IndexIs(s.db, k);
  }

  // ------------------------------------------------------------------ what a write writes

  predicate Writes(op: Op, id: string) {
    (op.Update? || op.Assign? || op.Remove? || op.Deactivate?) && op.id == id
  }

  // The columns after a write that found them like this.
  ghost predicate Wrote(was: Hospital, now: Hospital, op: Op)
    requires op.Update? || op.Assign? || op.Remove? || op.Deactivate?
  {
    && now.id == was.id && now.createdAt == was.createdAt && now.updatedAt == op.now
    && match op
       case Update(_, c, _, _) =>
         && now.name == (if c.name.Some? then c.name.value else was.name)
         && now.latitude == (if c.latitude.Some? then c.latitude.value else was.latitude)
         && now.longitude == (if c.longitude.Some? then c.longitude.value else was.longitude)
         && now.bedCapacity == (if c.bedCapacity.Some? then c.bedCapacity.value else was.bedCapacity)
         && now.availableBeds == (if c.availableBeds.Some? then c.availableBeds.value else was.availableBeds)
         && now.icuCapacity == (if c.icuCapacity.Some? then c.icuCapacity.value else was.icuCapacity)
         && now.availableICUBeds ==
              (if c.availableICUBeds.Some? then c.availableICUBeds.value else was.availableICUBeds)
         && now.status == (if c.status.Some? then c.status.value else was.status)
         && now.assignedOperatorId ==
              (if c.assignedOperatorId.Some? then c.assignedOperatorId.value else was.assignedOperatorId)
       case Assign(_, operatorId, _, _) =>
         now == was.(assignedOperatorId := Some(operatorId), updatedAt := now.updatedAt)
       case Remove(_, _) => now == was.(assignedOperatorId := None, updatedAt := now.updatedAt)
       case Deactivate(_, _) => now == was.(status := Closed, updatedAt := now.updatedAt)
  }

  // The user may make the change: an OPERATOR only to beds, capacities and status of the own hospital.
  ghost predicate MayUpdate(row: Hospital, c: Changes, user: User) {
    user.role.Operator? ==>
      && row.assignedOperatorId == Some(user.id)
      && c.name.None? && c.latitude.None? && c.longitude.None? && c.assignedOperatorId.None?
  }

  // A write goes through or is refused, each refusal in exactly one case, and changes one row.
  lemma WriteIff(g: Paging, db: seq<Hospital>, op: Op, k: nat)
    requires UniqueIds(db) && k < |db| && Writes(op, db[k].id)
    ensures var (after, a) := Direct(g, db, op);
      && |after| == |db| && (forall j | 0 <= j < |db| && j != k :: after[j] == db[j])
      && (a.Row? ==> a.row == after[k] && Wrote(db[k], after[k], op))
      && (!a.Row? ==> a.Failed? && after == db)
      && (op.Remove? || op.Deactivate? ==> a.Row?)
      && (op.Assign? ==>
            && (a.Row? <==> op.operator == Some(Operator))
            && (a == Answer.Failed(OperatorNotFound) <==> op.operator == None))
      && (op.Update? ==>
            && (a == Answer.Failed(NotPermitted) <==> !MayUpdate(db[k], op.changes, op.user))
            && (a == Answer.Failed(CapacityExceeded) <==>
                  MayUpdate(db[k], op.changes, op.user) && !Room(db[k], op.changes))
            && (a.Row? <==> MayUpdate(db[k], op.changes, op.user) && Room(db[k], op.changes)))
  {
    IndexIs(db, k);
  }

  // What is free after the change fits.
  ghost predicate Room(row: Hospital, c: Changes) {
    && (if c.availableBeds.Some? then c.availableBeds.value else row.availableBeds)
         <= (if c.bedCapacity.Some? then c.bedCapacity.value else row.bedCapacity)
    && (if c.availableICUBeds.Some? then c.availableICUBeds.value else row.availableICUBeds)
         <= (if c.icuCapacity.Some? then c.icuCapacity.value else row.icuCapacity)
  }

  lemma WriteToNobody(g: Paging, db: seq<Hospital>, op: Op, id: string)
    requires Writes(op, id) && !Present(db, id)
    ensures Direct(g, db, op) == (db, Answer.Failed(HospitalNotFound))
  {}

  // A new hospital holds what its creation says, OPERATIONAL unless told otherwise, at the end.
  lemma CreationWrites(g: Paging, db: seq<Hospital>, op: Op)
    requires op.Create? && Possible(g, db, op)
    ensures var (after, a) := Direct(g, db, op); var row, c := after[|after| - 1], op.input;
      && |after| == |db| + 1 && after[..|db|] == db && a == Row(row)
      && row.id == op.newId && row.name == c.name && row.latitude == c.latitude && row.longitude == c.longitude
      && row.bedCapacity == c.bedCapacity && row.availableBeds == c.availableBeds
      && row.icuCapacity == c.icuCapacity && row.availableICUBeds == c.availableICUBeds
      && row.status == (if c.status.Some? then c.status.value else Operational)
      && row.assignedOperatorId == c.assignedOperatorId && row.createdAt == row.updatedAt == op.now
  {}

  // A write of hospital id drops its two entries and the list pages and leaves every other entry
  // as it is; a creation drops the list pages only.
  lemma DropsExactly(cache: map<string, View>, id: string, key: string)
    ensures var kept := Invalidated(cache, Entry(id));
      && (key in kept <==>
            key in cache && key != "hospital:" + id && key != "hospital:" + (id + ":availability")
            && key != "hospital:list" && !("hospital:list:" <= key))
      && (key in kept ==> kept[key] == cache[key])
    ensures var kept := Invalidated(cache, Lists);
      && (key in kept <==> key in cache && key != "hospital:list" && !("hospital:list:" <= key))
      && (key in kept ==> kept[key] == cache[key])
  {
    assert K.HOSPITAL + K.LIST == "hospital:list:";
  }

  // The key of a list page, spelled out.
  lemma ListKeyIsSpelled(status: Option<HospitalStatus>, page: nat, limit: nat)
    ensures var text := match status
        case None => ""
        case Some(Operational) => "OPERATIONAL"
        case Some(Limited) => "LIMITED"
        case Some(Closed) => "CLOSED";
      ListKey(status, page, limit)
      == "hospital:list:s:" + text + "_p:" + K.Decimal(page) + "_l:" + K.Decimal(limit)
  {}

  // ------------------------------------------------------------------ what was written is read

  lemma QuietStep(g: Paging, s: State, op: Op, k: nat)
    requires Possible(g, s.db, op) && k < |s.db| && !Writes(op, s.db[k].id)
    ensures var after := Apply(g, s, op).0.db; k < |after| && after[k] == s.db[k]
  {}

  lemma {:induction false} QuietRun(g: Paging, s: State, ops: seq<Op>, k: nat)
    requires CanRun(g, s.db, ops) && k < |s.db| && forall op <- ops :: !Writes(op, s.db[k].id)
    ensures var after := Run(g, s, ops).0.db; k < |after| && after[k] == s.db[k]
    decreases |ops|
  {
    if ops != [] {
      assert ops[0] in ops;
      QuietStep(g, s, ops[0], k);
      ApplyMovesDatabase(g, s, ops[0]);
      QuietRun(g, Apply(g, s, ops[0]).0, ops[1..], k);
    }
  }

  // Read your write: after a write of hospital k that goes through, and then any calls by anybody
  // that do not write it, with entries expiring at will, both reads show the row as it was written.
  lemma WriteIsShown(g: Paging, s: State, op: Op, k: nat, rest: seq<Op>) returns (row: Hospital)
    requires Coherent(g, s) && k < |s.db| && Writes(op, s.db[k].id) && Apply(g, s, op).1.Row?
    requires CanRun(g, Apply(g, s, op).0.db, rest) && forall later <- rest :: !Writes(later, s.db[k].id)
    ensures var t := Run(g, Apply(g, s, op).0, rest).0; var id := s.db[k].id;
      && Wrote(s.db[k], row, op)
      && Apply(g, t, GetById(id)).1 == Shown(Full(row))
      && ShowsAvailability(Apply(g, t, GetAvailability(id)).1, row)
  {
    var after := Apply(g, s, op).0;
    WriteIff(g, s.db, op, k);
    row := after.db[k];
    StepKeepsCoherent(g, s, op);
    QuietRun(g, after, rest, k);
    RunsAreCoherent(g, after, rest);
    var t := Run(g, after, rest).0;
    ByIdShows(g, t, k);
    AvailabilityShows(g, t, row.id);
  }

  // So is a new hospital.
  lemma CreationIsShown(g: Paging, s: State, op: Op, rest: seq<Op>) returns (row: Hospital)
    requires Coherent(g, s) && op.Create? && Possible(g, s.db, op)
    requires CanRun(g, Apply(g, s, op).0.db, rest) && forall later <- rest :: !Writes(later, op.newId)
    ensures var t := Run(g, Apply(g, s, op).0, rest).0;
      && Apply(g, s, op).1 == Row(row) && row.id == op.newId
      && Apply(g, t, GetById(op.newId)).1 == Shown(Full(row))
      && ShowsAvailability(Apply(g, t, GetAvailability(op.newId)).1, row)
  {
    var after, k := Apply(g, s, op).0, |s.db|;
    row := after.db[k];
    StepKeepsCoherent(g, s, op);
    QuietRun(g, after, rest, k);
    RunsAreCoherent(g, after, rest);
    var t := Run(g, after, rest).0;
    ByIdShows(g, t, k);
    AvailabilityShows(g, t, row.id);
  }
}
