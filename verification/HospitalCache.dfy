// Hospital rows with their cache-aside views: by id, availability and list pages.  Rows are kept
// in order of creation.  A sequential run: every operation finishes before the next one starts,
// and every Redis command succeeds; an entry may expire between any two operations.

module HospitalCache {
  import opened Domain
  import K = CacheKeys

  datatype HospitalStatus = Operational | Limited | Closed

  datatype Hospital = Hospital(
    id: string, name: string, latitude: real, longitude: real,
    bedCapacity: int, availableBeds: int, icuCapacity: int, availableICUBeds: int,
    status: HospitalStatus, assignedOperatorId: Option<string>, createdAt: int, updatedAt: int)

  datatype View =
    | Full(row: Hospital)
    | Availability(
        id: string, name: string, status: HospitalStatus,
        bedCapacity: int, availableBeds: int, icuCapacity: int, availableICUBeds: int)
    | Page(
        data: seq<Hospital>, page: nat, limit: nat, total: nat, totalPages: nat, hasNextPage: bool, hasPrevPage: bool)

  datatype User = User(id: string, role: Role)

  datatype Creation = Creation(
    name: string, latitude: real, longitude: real,
    bedCapacity: int, availableBeds: int, icuCapacity: int, availableICUBeds: int,
    status: Option<HospitalStatus>, assignedOperatorId: Option<string>)

  // The fields present in an update; assignedOperatorId may be present and null.
  datatype Changes = Changes(
    name: Option<string>, latitude: Option<real>, longitude: Option<real>,
    bedCapacity: Option<int>, availableBeds: Option<int>, icuCapacity: Option<int>, availableICUBeds: Option<int>,
    status: Option<HospitalStatus>, assignedOperatorId: Option<Option<string>>)

  datatype Failure = HospitalNotFound | OperatorNotFound | NotPermitted | CapacityExceeded | NotAnOperator

  datatype Answer = Row(row: Hospital) | Shown(view: View) | Failed(failure: Failure) | Silent

  datatype State = State(db: seq<Hospital>, cache: map<string, View>)

  // ------------------------------------------------------------------ queries

  // findUnique: the position of the row, |db| if there is none.
  function IndexOf(db: seq<Hospital>, id: string): (k: nat)
    ensures k <= |db| && (k < |db| ==> db[k].id == id)
    ensures forall j | 0 <= j < k :: db[j].id != id
  {
    if db == [] then 0
    else
      var m := |db| - 1;
      var k := IndexOf(db[..m], id);
      if k < m || db[m].id == id then k else |db|
  }

  function QueryById(db: seq<Hospital>, id: string): Option<View> {
    var k := IndexOf(db, id);
    if k < |db| then Some(Full(db[k])) else None
  }

  function AvailabilityOf(h: Hospital): View {
    Availability(h.id, h.name, h.status, h.bedCapacity, h.availableBeds, h.icuCapacity, h.availableICUBeds)
  }

  function QueryAvailability(db: seq<Hospital>, id: string): Option<View> {
    var k := IndexOf(db, id);
    if k < |db| then Some(AvailabilityOf(db[k])) else None
  }

  predicate Matches(h: Hospital, status: Option<HospitalStatus>, operator: Option<string>) {
    (status.Some? ==> h.status == status.value) && (operator.Some? ==> h.assignedOperatorId == operator)
  }

  // where status and assignedOperatorId are as given, newest first
  function Matching(db: seq<Hospital>, status: Option<HospitalStatus>, operator: Option<string>): seq<Hospital> {
    if db == [] then []
    else
      var m := |db| - 1;
      var rest := Matching(db[..m], status, operator);
      if Matches(db[m], status, operator) then [db[m]] + rest else rest
  }

  function Slice<T>(xs: seq<T>, skip: nat, take: nat): seq<T> {
    if skip >= |xs| then [] else if |xs| - skip <= take then xs[skip..] else xs[skip..skip + take]
  }

  function QueryPage(
    db: seq<Hospital>, status: Option<HospitalStatus>, operator: Option<string>, page: nat, limit: nat): View
    requires page >= 1 && limit >= 1
  {
    var all := Matching(db, status, operator);
    Page(Slice(all, (page - 1) * limit, limit), page, limit, |all|, (|all| + limit - 1) / limit,
         page * limit < |all|, page > 1)
  }

  // ------------------------------------------------------------------ what a list query shows

  // Where the matching rows stand in the table.
  function Places(db: seq<Hospital>, status: Option<HospitalStatus>, operator: Option<string>): (at: seq<nat>)
    ensures forall j | 0 <= j < |at| :: at[j] < |db|
    ensures forall i, j | 0 <= i < j < |at| :: at[j] < at[i]
  {
    if db == [] then []
    else
      var m := |db| - 1;
      var rest := Places(db[..m], status, operator);
      if Matches(db[m], status, operator) then [m] + rest else rest
  }

  // A list query shows the matching rows, newest first, ...
  lemma {:induction false} MatchingAtPlaces(db: seq<Hospital>, status: Option<HospitalStatus>, operator: Option<string>)
    ensures var rows, at := Matching(db, status, operator), Places(db, status, operator);
      |rows| == |at| && forall j | 0 <= j < |at| :: rows[j] == db[at[j]]
  {
    if db != [] {
      var m := |db| - 1;
      MatchingAtPlaces(db[..m], status, operator);
      var rest, at := Matching(db[..m], status, operator), Places(db[..m], status, operator);
      assert forall j | 0 <= j < |at| :: rest[j] == db[..m][at[j]] == db[at[j]];
    }
  }

  // ... all of them and nothing else.
  lemma {:induction false} PlacesAreTheMatches(
    db: seq<Hospital>, status: Option<HospitalStatus>, operator: Option<string>, k: nat)
    requires k < |db|
    ensures k in Places(db, status, operator) <==>
              && (status.None? || db[k].status == status.value)
              && (operator.None? || db[k].assignedOperatorId == Some(operator.value))
  {
    var m := |db| - 1;
    var rest := Places(db[..m], status, operator);
    if k < m {
      PlacesAreTheMatches(db[..m], status, operator, k);
    } else {
      assert k !in rest;
    }
  }

  lemma SliceAt<T>(xs: seq<T>, skip: nat, take: nat, k: nat)
    ensures k < |Slice(xs, skip, take)| <==> k < take && skip + k < |xs|
    ensures k < |Slice(xs, skip, take)| ==> Slice(xs, skip, take)[k] == xs[skip + k]
  {}

  // A page holds the rows from (page - 1) * limit on, limit of them as far as there are any; there
  // is a next page exactly before the last one.
  lemma PageHoldsItsRows(
    db: seq<Hospital>, status: Option<HospitalStatus>, operator: Option<string>, page: nat, limit: nat, k: nat)
    requires page >= 1 && limit >= 1
    ensures var all, p := Matching(db, status, operator), QueryPage(db, status, operator, page, limit);
      var j := (page - 1) * limit + k;
      && p.total == |all|
      && (p.hasNextPage <==> page < p.totalPages)
      && (k < |p.data| <==> k < limit && j < |all|)
      && (k < |p.data| ==> p.data[k] == all[j])
  {
    var all := Matching(db, status, operator);
    LastPage(page, limit, |all|);
    SliceAt(all, (page - 1) * limit, limit, k);
  }

  // The numbers on a page: as many pages as the rows need, and where this one stands.
  lemma PageCounts(
    db: seq<Hospital>, status: Option<HospitalStatus>, operator: Option<string>, page: nat, limit: nat)
    requires page >= 1 && limit >= 1
    ensures var p := QueryPage(db, status, operator, page, limit);
      && p.total <= p.totalPages * limit < p.total + limit
      && p.page == page && p.limit == limit && (p.hasPrevPage <==> page > 1)
  {
    var n := |Matching(db, status, operator)| + limit - 1;
    assert n == n / limit * limit + n % limit;
  }

  // Hence paging shows every row exactly once: row j on one page and in one place of it.
  lemma OnePlaceForEachRow(limit: nat, j: nat, page: nat, k: nat)
    requires limit >= 1 && page >= 1 && k < limit
    ensures (page - 1) * limit + k == j <==> page == j / limit + 1 && k == j % limit
  {
    if (page - 1) * limit + k == j { Position(page - 1, limit, k); }
    assert j == j / limit * limit + j % limit;
  }

  lemma Position(q: nat, limit: nat, k: nat)
    requires k < limit
    ensures (q * limit + k) / limit == q && (q * limit + k) % limit == k
  {
    var n := q * limit + k;
    var d := q - n / limit;
    assert n == n / limit * limit + n % limit;
    assert d * limit == n % limit - k;
    Multiple(d, limit);
  }

  lemma Multiple(d: int, limit: int)
    requires limit >= 1
    ensures d >= 1 ==> d * limit >= limit
    ensures d <= -1 ==> d * limit <= -limit
  {}

  lemma LastPage(page: nat, limit: nat, total: nat)
    requires page >= 1 && limit >= 1
    ensures page * limit < total <==> page < (total + limit - 1) / limit
  {
    var n := total + limit - 1;
    var d := n / limit - page;
    assert n == n / limit * limit + n % limit;
    assert d * limit == n / limit * limit - page * limit;
    Multiple(d, limit);
    Multiple(d - 1, limit);
  }

  // ------------------------------------------------------------------ cached reads

  function StatusText(status: Option<HospitalStatus>): (t: string)
    ensures '_' !in t
  {
    if status.None? then "" else
    match status.value
    case Operational => "OPERATIONAL"
    case Limited => "LIMITED"
    case Closed => "CLOSED"
  }

  function ListKey(status: Option<HospitalStatus>, page: nat, limit: nat): string {
    K.ListQuery(StatusText(status), page, limit)
  }

  function AsAnswer(v: Option<View>): Answer { if v.Some? then Shown(v.value) else Answer.Failed(HospitalNotFound) }

  // Cache-aside: a hit is returned as it is, a miss asks the database and keeps what it finds.
  function Aside(s: State, key: string, query: Option<View>): (State, Answer) {
    if key in s.cache then (s, Shown(s.cache[key]))
    else if query.None? then (s, AsAnswer(query))
    else (s.(cache := s.cache[key := query.value]), AsAnswer(query))
  }

  // ------------------------------------------------------------------ writes

  // Which cache entries a write drops.
  datatype Touch = Nothing | Lists | Entry(id: string)

  function Invalidated(cache: map<string, View>, touch: Touch): map<string, View> {
    if touch.Nothing? then cache
    else map key | key in cache && key != K.HOSPITAL_LIST && !K.IsListKey(key)
                   && (touch.Entry? ==> key != K.ById(touch.id) && key != K.Availability(touch.id)) :: cache[key]
  }

  datatype Outcome = Outcome(db: seq<Hospital>, answer: Answer, touch: Touch)

  function Refuse(db: seq<Hospital>, failure: Failure): Outcome { Outcome(db, Answer.Failed(failure), Nothing) }

  function Or<T>(o: Option<T>, otherwise: T): T { if o.Some? then o.value else otherwise }

  function CreateHospital(db: seq<Hospital>, input: Creation, id: string, now: int): Outcome {
    var row := Hospital(id, input.name, input.latitude, input.longitude, input.bedCapacity, input.availableBeds,
                        input.icuCapacity, input.availableICUBeds, Or(input.status, Operational),
                        input.assignedOperatorId, now, now);
    Outcome(db + [row], Row(row), Lists)
  }

  function Overwrite(db: seq<Hospital>, k: nat, row: Hospital): Outcome
    requires k < |db|
  {
    Outcome(db[k := row], Row(row), Entry(row.id))
  }

  predicate OperatorMay(c: Changes) {
    c.name.None? && c.latitude.None? && c.longitude.None? && c.assignedOperatorId.None?
  }

  function Changed(h: Hospital, c: Changes, now: int): Hospital {
    Hospital(h.id, Or(c.name, h.name), Or(c.latitude, h.latitude), Or(c.longitude, h.longitude),
             Or(c.bedCapacity, h.bedCapacity), Or(c.availableBeds, h.availableBeds),
             Or(c.icuCapacity, h.icuCapacity), Or(c.availableICUBeds, h.availableICUBeds),
             Or(c.status, h.status), Or(c.assignedOperatorId, h.assignedOperatorId), h.createdAt, now)
  }

  function UpdateHospital(db: seq<Hospital>, id: string, c: Changes, user: User, now: int): Outcome {
    var k := IndexOf(db, id);
    if k == |db| then Refuse(db, HospitalNotFound)
    else if user.role.Operator? && (db[k].assignedOperatorId != Some(user.id) || !OperatorMay(c)) then
      Refuse(db, NotPermitted)
    else
      var row := Changed(db[k], c, now);
      if row.availableBeds > row.bedCapacity || row.availableICUBeds > row.icuCapacity
      then Refuse(db, CapacityExceeded)
      else Overwrite(db, k, row)
  }

  // operator is the role of the user found under operatorId, if there is one.
  function AssignOperator(
    db: seq<Hospital>, id: string, operatorId: string, operator: Option<Role>, now: int): Outcome
  {
    var k := IndexOf(db, id);
    if k == |db| then Refuse(db, HospitalNotFound)
    else if operator.None? then Refuse(db, OperatorNotFound)
    else if !operator.value.Operator? then Refuse(db, NotAnOperator)
    else Overwrite(db, k, db[k].(assignedOperatorId := Some(operatorId), updatedAt := now))
  }

  function RemoveOperator(db: seq<Hospital>, id: string, now: int): Outcome {
    var k := IndexOf(db, id);
    if k == |db| then Refuse(db, HospitalNotFound)
    else Overwrite(db, k, db[k].(assignedOperatorId := None, updatedAt := now))
  }

  function DeactivateHospital(db: seq<Hospital>, id: string, now: int): Outcome {
    var k := IndexOf(db, id);
    if k == |db| then Refuse(db, HospitalNotFound)
    else Overwrite(db, k, db[k].(status := Closed, updatedAt := now))
  }

  predicate FitsCapacity(h: Hospital) { h.availableBeds <= h.bedCapacity && h.availableICUBeds <= h.icuCapacity }

  // An update goes through only if its row ends up within capacity; an OPERATOR's only on a
  // hospital assigned to them, and it leaves name, place and assignment alone.
  lemma UpdateIsConfined(db: seq<Hospital>, id: string, c: Changes, user: User, now: int)
    ensures var o, k := UpdateHospital(db, id, c, user, now), IndexOf(db, id);
      && (o.answer.Row? <==>
            k < |db| && FitsCapacity(Changed(db[k], c, now))
            && (user.role.Operator? ==> db[k].assignedOperatorId == Some(user.id) && OperatorMay(c)))
      && (!o.answer.Row? ==> o.db == db)
      && (o.answer.Row? && user.role.Operator? ==>
            o.db[k].name == db[k].name && o.db[k].latitude == db[k].latitude && o.db[k].longitude == db[k].longitude
            && o.db[k].assignedOperatorId == db[k].assignedOperatorId)
  {}

  // ------------------------------------------------------------------ the service

  class HospitalService {
    var db: seq<Hospital>
    var cache: map<string, View>

    function Value(): State
      reads this
    {
      State(db, cache)
    }

    constructor ()
      ensures Value() == State([], map[])
    {
      db, cache := [], map[];
    }

    method Del(keys: set<string>)
      modifies this`cache
      ensures cache == old(cache) - keys
    {
      cache := cache - keys;
    }

    // delPattern('hospital:list:*')
    method DelLists()
      modifies this`cache
      ensures cache == map key | key in old(cache) && !K.IsListKey(key) :: old(cache)[key]
    {
      cache := map key | key in cache && !K.IsListKey(key) :: cache[key];
    }

    method GetHospitals(status: Option<HospitalStatus>, page: nat, limit: nat, user: User) returns (v: View)
      requires page >= 1 && limit >= 1
      modifies this
      ensures user.role.Operator? ==> Value() == old(Value()) && v == QueryPage(db, status, Some(user.id), page, limit)
      ensures !user.role.Operator? ==>
                (Value(), Shown(v)) ==
                Aside(old(Value()), ListKey(status, page, limit), Some(QueryPage(old(db), status, None, page, limit)))
    {
      var key := ListKey(status, page, limit);
      if !user.role.Operator? && key in cache { return cache[key]; }
      v := QueryPage(db, status, if user.role.Operator? then Some(user.id) else None, page, limit);
      if !user.role.Operator? { cache := cache[key := v]; }
    }

    method GetHospitalById(id: string) returns (a: Answer)
      modifies this
      ensures (Value(), a) == Aside(old(Value()), K.ById(id), QueryById(old(db), id))
    {
      var key := K.ById(id);
      if key in cache { return Shown(cache[key]); }
      var k := IndexOf(db, id);
      if k == |db| { return Answer.Failed(HospitalNotFound); }
      cache := cache[key := Full(db[k])];
      return Shown(Full(db[k]));
    }

    method GetHospitalAvailability(id: string) returns (a: Answer)
      modifies this
      ensures (Value(), a) == Aside(old(Value()), K.Availability(id), QueryAvailability(old(db), id))
    {
      var key := K.Availability(id);
      if key in cache { return Shown(cache[key]); }
      var k := IndexOf(db, id);
      if k == |db| { return Answer.Failed(HospitalNotFound); }
      var v := AvailabilityOf(db[k]);
      cache := cache[key := v];
      return Shown(v);
    }

    method Create(input: Creation, id: string, now: int) returns (a: Answer)
      modifies this
      ensures var o := CreateHospital(old(db), input, id, now);
              a == o.answer && Value() == State(o.db, Invalidated(old(cache), o.touch))
    {
      var status := if input.status.Some? then input.status.value else Operational;
      var row := Hospital(id, input.name, input.latitude, input.longitude, input.bedCapacity, input.availableBeds,
                          input.icuCapacity, input.availableICUBeds, status, input.assignedOperatorId, now, now);
      db := db + [row];
      Del({K.HOSPITAL_LIST});
      DelLists();
      return Row(row);
    }

    // The common tail of the writes that change one row.
    method Save(k: nat, row: Hospital)
      requires k < |db|
      modifies this
      ensures db == old(db)[k := row] && cache == Invalidated(old(cache), Entry(row.id))
    {
      db := db[k := row];
      Del({K.ById(row.id), K.Availability(row.id), K.HOSPITAL_LIST});
      DelLists();
    }

    method Update(id: string, c: Changes, user: User, now: int) returns (a: Answer)
      modifies this
      ensures var o := UpdateHospital(old(db), id, c, user, now);
              a == o.answer && Value() == State(o.db, Invalidated(old(cache), o.touch))
    {
      var k := IndexOf(db, id);
      if k == |db| { return Answer.Failed(HospitalNotFound); }
      var hospital := db[k];
      if user.role.Operator? {
        if hospital.assignedOperatorId != Some(user.id) { return Answer.Failed(NotPermitted); }
        if !OperatorMay(c) { return Answer.Failed(NotPermitted); }
      }
      if Or(c.availableBeds, hospital.availableBeds) > Or(c.bedCapacity, hospital.bedCapacity) {
        return Answer.Failed(CapacityExceeded);
      }
      if Or(c.availableICUBeds, hospital.availableICUBeds) > Or(c.icuCapacity, hospital.icuCapacity) {
        return Answer.Failed(CapacityExceeded);
      }
      var row := Changed(hospital, c, now);
      Save(k, row);
      return Row(row);
    }

    method Assign(id: string, operatorId: string, operator: Option<Role>, now: int) returns (a: Answer)
      modifies this
      ensures var o := AssignOperator(old(db), id, operatorId, operator, now);
              a == o.answer && Value() == State(o.db, Invalidated(old(cache), o.touch))
    {
      var k := IndexOf(db, id);
      if k == |db| { return Answer.Failed(HospitalNotFound); }
      if operator.None? { return Answer.Failed(OperatorNotFound); }
      if !operator.value.Operator? { return Answer.Failed(NotAnOperator); }
      var row := db[k].(assignedOperatorId := Some(operatorId), updatedAt := now);
      Save(k, row);
      return Row(row);
    }

    method Remove(id: string, now: int) returns (a: Answer)
      modifies this
      ensures var o := RemoveOperator(old(db), id, now);
              a == o.answer && Value() == State(o.db, Invalidated(old(cache), o.touch))
    {
      var k := IndexOf(db, id);
      if k == |db| { return Answer.Failed(HospitalNotFound); }
      var row := db[k].(assignedOperatorId := None, updatedAt := now);
      Save(k, row);
      return Row(row);
    }

    method Deactivate(id: string, now: int) returns (a: Answer)
      modifies this
      ensures var o := DeactivateHospital(old(db), id, now);
              a == o.answer && Value() == State(o.db, Invalidated(old(cache), o.touch))
    {
      var k := IndexOf(db, id);
      if k == |db| { return Answer.Failed(HospitalNotFound); }
      var row := db[k].(status := Closed, updatedAt := now);
      Save(k, row);
      return Row(row);
    }
  }
}
