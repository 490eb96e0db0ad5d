// Cache transparency: over every sequential run, what the cache holds is what the database would
// answer, so reads through the cache refine reads without it -- except for the requested ids that
// spell another family's key.

module HospitalCoherence {
  import opened Domain
  import opened HospitalCache
  import K = CacheKeys

  datatype Op =
    | GetList(status: Option<HospitalStatus>, page: nat, limit: nat, user: User)
    | GetById(id: string)
    | GetAvailability(id: string)
    | Create(input: Creation, newId: string, now: int)
    | Update(id: string, changes: Changes, user: User, now: int)
    | Assign(id: string, operatorId: string, operator: Option<Role>, now: int)
    | Remove(id: string, now: int)
    | Deactivate(id: string, now: int)
    | Expire(key: string)

  // What parsePagination hands on: the default limit, or the requested one up to the maximum.
  datatype Paging = Paging(defaultLimit: nat, maxLimit: nat)
  {
    predicate Allows(limit: nat) { limit >= 1 && (limit <= maxLimit || limit == defaultLimit) }
  }

  // What the routes let through to the service: pages are numbered from 1, a new hospital is within
  // its capacity, and its id is a fresh one without a colon (a cuid).
  predicate Possible(g: Paging, db: seq<Hospital>, op: Op) {
    match op
    case GetList(_, page, limit, _) => page >= 1 && g.Allows(limit)
    case Create(input, id, _) =>
      && K.Plain(id) && IndexOf(db, id) == |db|
      && input.availableBeds <= input.bedCapacity && input.availableICUBeds <= input.icuCapacity
    case _ => true
  }

  function Written(db: seq<Hospital>, op: Op): Outcome {
    match op
    case Create(input, id, now) => CreateHospital(db, input, id, now)
    case Update(id, changes, user, now) => UpdateHospital(db, id, changes, user, now)
    case Assign(id, operatorId, operator, now) => AssignOperator(db, id, operatorId, operator, now)
    case Remove(id, now) => RemoveOperator(db, id, now)
    case Deactivate(id, now) => DeactivateHospital(db, id, now)
    case _ => Outcome(db, Silent, Nothing)
  }

  // With the cache ...
  function Apply(g: Paging, s: State, op: Op): (State, Answer)
    requires Possible(g, s.db, op)
  {
    match op
    case GetList(status, page, limit, user) =>
      if user.role.Operator? then (s, Shown(QueryPage(s.db, status, Some(user.id), page, limit)))
      else Aside(s, ListKey(status, page, limit), Some(QueryPage(s.db, status, None, page, limit)))
    case GetById(id) => Aside(s, K.ById(id), QueryById(s.db, id))
    case GetAvailability(id) => Aside(s, K.Availability(id), QueryAvailability(s.db, id))
    case Expire(key) => (s.(cache := s.cache - {key}), Silent)
    case _ =>
      var o := Written(s.db, op);
      (State(o.db, Invalidated(s.cache, o.touch)), o.answer)
  }

  // ... and without.
  function Direct(g: Paging, db: seq<Hospital>, op: Op): (seq<Hospital>, Answer)
    requires Possible(g, db, op)
  {
    match op
    case GetList(status, page, limit, user) =>
      (db, Shown(QueryPage(db, status, if user.role.Operator? then Some(user.id) else None, page, limit)))
    case GetById(id) => (db, AsAnswer(QueryById(db, id)))
    case GetAvailability(id) => (db, AsAnswer(QueryAvailability(db, id)))
    case _ => (Written(db, op).db, Written(db, op).answer)
  }

  // ------------------------------------------------------------------ capacity

  ghost predicate WithinCapacity(db: seq<Hospital>) { forall k | 0 <= k < |db| :: FitsCapacity(db[k]) }

  lemma StepKeepsCapacity(g: Paging, db: seq<Hospital>, op: Op)
    requires WithinCapacity(db) && Possible(g, db, op)
    ensures WithinCapacity(Direct(g, db, op).0)
  {}

  // ------------------------------------------------------------------ coherence

  ghost predicate PlainIds(db: seq<Hospital>) { forall k | 0 <= k < |db| :: K.Plain(db[k].id) }

  predicate UniqueIds(db: seq<Hospital>) { forall j, k | 0 <= j < k < |db| :: db[j].id != db[k].id }

  ghost predicate IsById(db: seq<Hospital>, key: string, v: View, id: string) {
    K.Plain(id) && key == K.ById(id) && QueryById(db, id) == Some(v)
  }

  ghost predicate IsAvailability(db: seq<Hospital>, key: string, v: View, id: string) {
    K.Plain(id) && key == K.Availability(id) && QueryAvailability(db, id) == Some(v)
  }

  ghost predicate IsPage(
    g: Paging, db: seq<Hospital>, key: string, v: View, status: Option<HospitalStatus>, page: nat, limit: nat)
  {
    page >= 1 && g.Allows(limit) && key == ListKey(status, page, limit) && v == QueryPage(db, status, None, page, limit)
  }

  // The entry is what a fresh query of its own family gives.
  ghost predicate Fresh(g: Paging, db: seq<Hospital>, key: string, v: View) {
    || (exists id :: IsById(db, key, v, id))
    || (exists id :: IsAvailability(db, key, v, id))
    || (exists status, page, limit :: IsPage(g, db, key, v, status, page, limit))
  }

  ghost predicate Coherent(g: Paging, s: State) {
    && PlainIds(s.db) && UniqueIds(s.db)
    && forall key | key in s.cache :: Fresh(g, s.db, key, s.cache[key])
  }

  lemma {:induction false} IndexIs(db: seq<Hospital>, k: nat)
    requires UniqueIds(db) && k < |db|
    ensures IndexOf(db, db[k].id) == k
  {}

  // What a surviving entry's own query depends on is untouched.
  ghost predicate Untouched(db: seq<Hospital>, db': seq<Hospital>, id: string) {
    IndexOf(db, id) < |db| ==>
      IndexOf(db', id) == IndexOf(db, id) && |db| <= |db'| && db'[IndexOf(db, id)] == db[IndexOf(db, id)]
  }

  lemma EntrySurvives(g: Paging, s: State, db': seq<Hospital>, key: string)
    requires Coherent(g, s) && key in s.cache && !K.IsListKey(key)
    requires forall id | key == K.ById(id) || key == K.Availability(id) :: Untouched(s.db, db', id)
    ensures Fresh(g, db', key, s.cache[key])
  {
    var v := s.cache[key];
    assert Fresh(g, s.db, key, v);
    if id :| IsById(s.db, key, v, id) {
      assert Untouched(s.db, db', id);
      assert IsById(db', key, v, id);
    } else if id :| IsAvailability(s.db, key, v, id) {
      assert Untouched(s.db, db', id);
      assert IsAvailability(db', key, v, id);
    } else {
      var status, page, limit :| IsPage(g, s.db, key, v, status, page, limit);
      K.ByIdIsListQuery("", StatusText(status), page, limit);
      assert false;
    }
  }

  lemma CreateKeepsCoherent(g: Paging, s: State, input: Creation, id: string, now: int)
    requires Coherent(g, s) && K.Plain(id) && IndexOf(s.db, id) == |s.db|
    ensures var o := CreateHospital(s.db, input, id, now); Coherent(g, State(o.db, Invalidated(s.cache, o.touch)))
  {
    var o := CreateHospital(s.db, input, id, now);
    var cache := Invalidated(s.cache, o.touch);
    assert o.db[..|s.db|] == s.db;
    forall key | key in cache ensures Fresh(g, o.db, key, cache[key]) {
      EntrySurvives(g, s, o.db, key);
    }
  }

  lemma OverwriteKeepsIndex(db: seq<Hospital>, k: nat, row: Hospital, id: string)
    requires UniqueIds(db) && k < |db| && row.id == db[k].id
    ensures UniqueIds(db[k := row]) && IndexOf(db[k := row], id) == IndexOf(db, id)
  {
    var db' := db[k := row];
    if IndexOf(db, id) < |db| { IndexIs(db', IndexOf(db, id)); }
  }

  lemma OverwriteKeepsCoherent(g: Paging, s: State, k: nat, row: Hospital)
    requires Coherent(g, s) && k < |s.db| && row.id == s.db[k].id
    ensures Coherent(g, State(s.db[k := row], Invalidated(s.cache, Entry(row.id))))
  {
    var db' := s.db[k := row];
    var cache := Invalidated(s.cache, Entry(row.id));
    OverwriteKeepsIndex(s.db, k, row, row.id);
    forall key | key in cache ensures Fresh(g, db', key, cache[key]) {
      forall id | key == K.ById(id) || key == K.Availability(id) ensures Untouched(s.db, db', id) {
        assert id != row.id;
        OverwriteKeepsIndex(s.db, k, row, id);
      }
      EntrySurvives(g, s, db', key);
    }
  }

  // A write that touches an entry replaces the row of that id, and nothing else.
  lemma WrittenOverwrites(db: seq<Hospital>, op: Op) returns (k: nat)
    requires Written(db, op).touch.Entry?
    ensures k < |db| && k < |Written(db, op).db| && Written(db, op).db[k].id == db[k].id
    ensures Written(db, op) == Overwrite(db, k, Written(db, op).db[k])
  {
    k := IndexOf(db, op.id);
  }

  lemma WriteKeepsCoherent(g: Paging, s: State, op: Op)
    requires Coherent(g, s) && Possible(g, s.db, op)
    ensures Coherent(g, State(Written(s.db, op).db, Invalidated(s.cache, Written(s.db, op).touch)))
  {
    var o := Written(s.db, op);
    if op.Create? {
      CreateKeepsCoherent(g, s, op.input, op.newId, op.now);
    } else if o.touch.Entry? {
      var k := WrittenOverwrites(s.db, op);
      OverwriteKeepsCoherent(g, s, k, o.db[k]);
    } else {
      assert o.db == s.db && Invalidated(s.cache, o.touch) == s.cache;
    }
  }

  lemma AsideKeepsCoherent(g: Paging, s: State, key: string, query: Option<View>)
    requires Coherent(g, s) && (query.Some? ==> Fresh(g, s.db, key, query.value))
    ensures Coherent(g, Aside(s, key, query).0)
  {}

  // Every step leaves every live entry equal to a fresh query.
  lemma StepKeepsCoherent(g: Paging, s: State, op: Op)
    requires Coherent(g, s) && Possible(g, s.db, op)
    ensures Coherent(g, Apply(g, s, op).0)
  {
    match op
    case GetList(status, page, limit, user) =>
      var v := QueryPage(s.db, status, None, page, limit);
      assert IsPage(g, s.db, ListKey(status, page, limit), v, status, page, limit);
    case GetById(id) =>
      var query := QueryById(s.db, id);
      assert query.Some? ==> IsById(s.db, K.ById(id), query.value, id);
      AsideKeepsCoherent(g, s, K.ById(id), query);
    case GetAvailability(id) =>
      var query := QueryAvailability(s.db, id);
      assert query.Some? ==> IsAvailability(s.db, K.Availability(id), query.value, id);
      AsideKeepsCoherent(g, s, K.Availability(id), query);
    case Expire(key) =>
    case _ => WriteKeepsCoherent(g, s, op);
  }

  // ------------------------------------------------------------------ reads are fresh

  lemma AvailabilityReadIsFresh(g: Paging, s: State, id: string)
    requires Coherent(g, s)
    ensures Apply(g, s, GetAvailability(id)).1 == Direct(g, s.db, GetAvailability(id)).1
  {
    var key := K.Availability(id);
    if key in s.cache {
      var v := s.cache[key];
      assert Fresh(g, s.db, key, v);
      if id' :| IsById(s.db, key, v, id') {
        K.ByIdIsAvailability(id', id);
      } else if id' :| IsAvailability(s.db, key, v, id') {
        K.AvailabilityInjective(id, id');
      } else {
        var status, page, limit :| IsPage(g, s.db, key, v, status, page, limit);
        K.AvailabilityIsNoListQuery(id, StatusText(status), page, limit);
      }
    }
  }

  lemma StatusTextInjective(a: Option<HospitalStatus>, b: Option<HospitalStatus>)
    requires StatusText(a) == StatusText(b)
    ensures a == b
  {}

  lemma CachedPage(g: Paging, s: State, status: Option<HospitalStatus>, page: nat, limit: nat)
    requires Coherent(g, s) && page >= 1 && g.Allows(limit) && ListKey(status, page, limit) in s.cache
    ensures s.cache[ListKey(status, page, limit)] == QueryPage(s.db, status, None, page, limit)
  {
    var key := ListKey(status, page, limit);
    var v := s.cache[key];
    assert Fresh(g, s.db, key, v);
    if id :| IsById(s.db, key, v, id) {
      K.ByIdIsListQuery(id, StatusText(status), page, limit);
    } else if id :| IsAvailability(s.db, key, v, id) {
      K.AvailabilityIsNoListQuery(id, StatusText(status), page, limit);
    } else {
      var status', page', limit' :| IsPage(g, s.db, key, v, status', page', limit');
      K.ListQueryInjective(StatusText(status), page, limit, StatusText(status'), page', limit');
      StatusTextInjective(status, status');
    }
  }

  lemma ListReadIsFresh(g: Paging, s: State, status: Option<HospitalStatus>, page: nat, limit: nat, user: User)
    requires Coherent(g, s) && page >= 1 && g.Allows(limit)
    ensures Apply(g, s, GetList(status, page, limit, user)).1 == Direct(g, s.db, GetList(status, page, limit, user)).1
  {
    if ListKey(status, page, limit) in s.cache { CachedPage(g, s, status, page, limit); }
  }

  // The ids that spell the key of an availability view or of a list page.
  ghost predicate Collides(g: Paging, id: string) {
    || (exists x :: IsAvailabilityOf(id, x))
    || (exists status, page, limit :: IsQueryOf(g, id, status, page, limit))
  }

  ghost predicate IsAvailabilityOf(id: string, x: string) { K.Plain(x) && id == x + K.AVAILABILITY }

  ghost predicate IsQueryOf(g: Paging, id: string, status: Option<HospitalStatus>, page: nat, limit: nat) {
    page >= 1 && g.Allows(limit) && id == K.LIST + K.Query(StatusText(status), page, limit)
  }

  lemma ByIdReadIsFresh(g: Paging, s: State, id: string)
    requires Coherent(g, s) && !Collides(g, id)
    ensures Apply(g, s, GetById(id)).1 == Direct(g, s.db, GetById(id)).1
  {
    var key := K.ById(id);
    if key in s.cache {
      var v := s.cache[key];
      assert Fresh(g, s.db, key, v);
      if id' :| IsById(s.db, key, v, id') {
        K.ByIdInjective(id, id');
      } else if x :| IsAvailability(s.db, key, v, x) {
        K.ByIdIsAvailability(id, x);
        assert IsAvailabilityOf(id, x);
      } else {
        var status, page, limit :| IsPage(g, s.db, key, v, status, page, limit);
        K.ByIdIsListQuery(id, StatusText(status), page, limit);
        assert IsQueryOf(g, id, status, page, limit);
      }
    }
  }

  lemma ReadIsFresh(g: Paging, s: State, op: Op)
    requires Coherent(g, s) && Possible(g, s.db, op) && (op.GetById? ==> !Collides(g, op.id))
    ensures Apply(g, s, op).1 == Direct(g, s.db, op).1 && Apply(g, s, op).0.db == Direct(g, s.db, op).0
  {
    match op
    case GetList(status, page, limit, user) => ListReadIsFresh(g, s, status, page, limit, user);
    case GetById(id) => ByIdReadIsFresh(g, s, id);
    case GetAvailability(id) => AvailabilityReadIsFresh(g, s, id);
    case _ =>
  }

  // ------------------------------------------------------------------ runs

  predicate CanRun(g: Paging, db: seq<Hospital>, ops: seq<Op>)
    decreases |ops|
  {
    ops == [] || (Possible(g, db, ops[0]) && CanRun(g, Direct(g, db, ops[0]).0, ops[1..]))
  }

  lemma ApplyMovesDatabase(g: Paging, s: State, op: Op)
    requires Possible(g, s.db, op)
    ensures Apply(g, s, op).0.db == Direct(g, s.db, op).0
  {}

  // The state after a run, and what it answered.
  function Run(g: Paging, s: State, ops: seq<Op>): (State, seq<Answer>)
    requires CanRun(g, s.db, ops)
    decreases |ops|
  {
    if ops == [] then (s, [])
    else
      ApplyMovesDatabase(g, s, ops[0]);
      var first := Apply(g, s, ops[0]);
      var rest := Run(g, first.0, ops[1..]);
      (rest.0, [first.1] + rest.1)
  }

  function RunDirect(g: Paging, db: seq<Hospital>, ops: seq<Op>): seq<Answer>
    requires CanRun(g, db, ops)
    decreases |ops|
  {
    if ops == [] then [] else [Direct(g, db, ops[0]).1] + RunDirect(g, Direct(g, db, ops[0]).0, ops[1..])
  }

  lemma {:induction false} RunsAreCoherent(g: Paging, s: State, ops: seq<Op>)
    requires Coherent(g, s) && CanRun(g, s.db, ops)
    ensures Coherent(g, Run(g, s, ops).0)
    decreases |ops|
  {
    if ops != [] {
      StepKeepsCoherent(g, s, ops[0]);
      ApplyMovesDatabase(g, s, ops[0]);
      RunsAreCoherent(g, Apply(g, s, ops[0]).0, ops[1..]);
    }
  }

  // From the empty start, or any other within capacity, every row of every run stays within its
  // capacity, through updates by anybody, assignments, removals and deactivations.
  lemma {:induction false} RunsStayWithinCapacity(g: Paging, s: State, ops: seq<Op>)
    requires WithinCapacity(s.db) && CanRun(g, s.db, ops)
    ensures WithinCapacity(Run(g, s, ops).0.db)
    decreases |ops|
  {
    if ops != [] {
      StepKeepsCapacity(g, s.db, ops[0]);
      ApplyMovesDatabase(g, s, ops[0]);
      RunsStayWithinCapacity(g, Apply(g, s, ops[0]).0, ops[1..]);
    }
  }

  // The cache is transparent: a run answers exactly as it would without a cache.
  lemma {:induction false} CacheIsTransparent(g: Paging, s: State, ops: seq<Op>)
    requires Coherent(g, s) && CanRun(g, s.db, ops)
    requires forall k | 0 <= k < |ops| && ops[k].GetById? :: !Collides(g, ops[k].id)
    ensures Run(g, s, ops).1 == RunDirect(g, s.db, ops)
    decreases |ops|
  {
    if ops != [] {
      ReadIsFresh(g, s, ops[0]);
      StepKeepsCoherent(g, s, ops[0]);
      CacheIsTransparent(g, Apply(g, s, ops[0]).0, ops[1..]);
    }
  }

  // ------------------------------------------------------------------ exactly when

  // After some run from an empty system, GetById(id) answers differently from the database.
  ghost predicate Misled(g: Paging, id: string) {
    exists ops: seq<Op> :: MisledBy(g, id, ops)
  }

  ghost predicate MisledBy(g: Paging, id: string, ops: seq<Op>) {
    && CanRun(g, [], ops)
    && var s := Run(g, State([], map[]), ops).0;
       Apply(g, s, GetById(id)).1 != Direct(g, s.db, GetById(id)).1
  }

  lemma ListMisleads(g: Paging, id: string, status: Option<HospitalStatus>, page: nat, limit: nat)
    requires IsQueryOf(g, id, status, page, limit)
    ensures Misled(g, id)
  {
    var op := GetList(status, page, limit, User("", Admin));
    var s0 := State([], map[]);
    var s1 := Apply(g, s0, op).0;
    K.ByIdIsListQuery(id, StatusText(status), page, limit);
    assert [op][1..] == [];
    assert Run(g, s0, [op]).0 == Run(g, s1, []).0 == s1;
    assert MisledBy(g, id, [op]);
  }

  lemma RunTwo(g: Paging, s: State, a: Op, b: Op)
    requires Possible(g, s.db, a) && Possible(g, Apply(g, s, a).0.db, b)
    ensures CanRun(g, s.db, [a, b]) && Run(g, s, [a, b]).0 == Apply(g, Apply(g, s, a).0, b).0
  {
    ApplyMovesDatabase(g, s, a);
    assert [a, b][1..] == [b] && [b][1..] == [];
    assert Run(g, Apply(g, s, a).0, [b]).0 == Apply(g, Apply(g, s, a).0, b).0;
  }

  // A single row whose availability has been asked for.
  lemma AvailabilityCached(g: Paging, row: Hospital)
    ensures Apply(g, State([row], map[]), GetAvailability(row.id)).0
         == State([row], map[K.Availability(row.id) := AvailabilityOf(row)])
  {}

  lemma CachedMisleads(g: Paging, row: Hospital)
    requires K.Plain(row.id)
    ensures var s := State([row], map[K.Availability(row.id) := AvailabilityOf(row)]);
            var id := row.id + K.AVAILABILITY;
            Apply(g, s, GetById(id)).1 != Direct(g, s.db, GetById(id)).1
  {}

  lemma AvailabilityMisleads(g: Paging, id: string, x: string)
    requires IsAvailabilityOf(id, x)
    ensures Misled(g, id)
  {
    var create := Create(Creation("", 0.0, 0.0, 0, 0, 0, 0, None, None), x, 0);
    var s0 := State([], map[]);
    var row := CreateHospital([], create.input, x, 0).db[0];
    assert Apply(g, s0, create).0 == State([row], map[]);
    AvailabilityCached(g, row);
    RunTwo(g, s0, create, GetAvailability(x));
    CachedMisleads(g, row);
    assert MisledBy(g, id, [create, GetAvailability(x)]);
  }

  // The one read that can be wrong, and exactly for which ids.
  lemma MisledIffCollides(g: Paging, id: string)
    ensures Misled(g, id) <==> Collides(g, id)
  {
    if Collides(g, id) {
      if x :| IsAvailabilityOf(id, x) {
        AvailabilityMisleads(g, id, x);
      } else {
        var status, page, limit :| IsQueryOf(g, id, status, page, limit);
        ListMisleads(g, id, status, page, limit);
      }
    } else {
      forall ops: seq<Op> ensures !MisledBy(g, id, ops) {
        if CanRun(g, [], ops) {
          RunsAreCoherent(g, State([], map[]), ops);
          ByIdReadIsFresh(g, Run(g, State([], map[]), ops).0, id);
        }
      }
    }
  }

  // No id of a hospital is affected.
  lemma PlainIdsNeverCollide(g: Paging, id: string)
    requires K.Plain(id)
    ensures !Collides(g, id)
  {}
}
