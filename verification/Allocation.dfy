// The greedy resource allocation engine and the pure part of re-optimization.
//
// Distances are given: `distance` is the rounded great-circle distance in hundredths of a
// kilometre.  ETAs are hundredths of a minute, computed in exact arithmetic.

module Allocation {
  import opened Domain

  datatype Eta = Finite(hundredths: int) | Infinite

  datatype Candidate = Candidate(id: Id, row: Resource, distance: nat)

  // A feasible candidate after evaluation.
  datatype Evaluation = Evaluation(id: Id, eta: Eta, capacityFit: int)

  function EstimateEta(distance: nat, speed: real): Eta {
    if speed <= 0.0 then Infinite
    else Finite(Round(distance as real / 100.0 / speed * 60.0 * 100.0))
  }

  predicate Feasible(row: Resource, people: int, requirements: seq<string>) {
    row.status.Available? && TypeMatches(row.kind, requirements) && row.capacity >= people
  }

  function Evaluate(c: Candidate, people: int, speed: real): Evaluation {
    Evaluation(c.id, EstimateEta(c.distance, speed), c.row.capacity - people)
  }

  // The evaluations of the feasible candidates, in the order the candidates came.
  function FeasibleEvaluations(cs: seq<Candidate>, people: int, reqs: seq<string>, speed: real): (es: seq<Evaluation>)
    ensures es == [] <==> forall c <- cs :: !Feasible(c.row, people, reqs)
    ensures forall e <- es :: exists c <- cs :: Feasible(c.row, people, reqs) && e == Evaluate(c, people, speed)
    ensures forall c <- cs | Feasible(c.row, people, reqs) :: Evaluate(c, people, speed) in es
  {
    if cs == [] then []
    else
      var rest := FeasibleEvaluations(cs[1..], people, reqs, speed);
      if Feasible(cs[0].row, people, reqs) then [Evaluate(cs[0], people, speed)] + rest else rest
  }

  // The comparator returned a negative number.  Two infinite ETAs subtract to NaN, which sorting
  // takes as "equal"; the later criteria are then never looked at.
  predicate Precedes(a: Evaluation, b: Evaluation) {
    match (a.eta, b.eta)
    case (Finite(x), Finite(y)) =>
      x < y || (x == y && (a.capacityFit < b.capacityFit || (a.capacityFit == b.capacityFit && a.id < b.id)))
    case (Finite(_), Infinite) => true
    case (Infinite, _) => false
  }

  // Stable sort by the comparator.
  function Insert(x: Evaluation, sorted: seq<Evaluation>): (r: seq<Evaluation>)
    ensures |r| == |sorted| + 1
    ensures forall e <- r :: e == x || e in sorted
  {
    if sorted == [] then [x]
    else if Precedes(x, sorted[0]) then [x] + sorted
    else [sorted[0]] + Insert(x, sorted[1..])
  }

  function Rank(es: seq<Evaluation>): (r: seq<Evaluation>)
    ensures |r| == |es|
    ensures forall e <- r :: e in es
  {
    if es == [] then [] else Insert(es[|es| - 1], Rank(es[..|es| - 1]))
  }

  // availableResources.find(r => r.id === id)
  function Find(cs: seq<Candidate>, id: Id): (c: Candidate)
    requires exists c <- cs :: c.id == id
    ensures c in cs && c.id == id
  {
    if cs[0].id == id then cs[0] else Find(cs[1..], id)
  }

  function Recommend(cs: seq<Candidate>, people: int, reqs: seq<string>, speed: real): (r: Option<Candidate>)
  {
    var feasible := FeasibleEvaluations(cs, people, reqs, speed);
    if feasible == [] then None
    else
      var best := Rank(feasible)[0];
      assert best in Rank(feasible) && best in feasible;
      Some(Find(cs, best.id))
  }

  datatype AccessCondition = Normal | Difficult | Blocked

  function Multiplier(a: AccessCondition): real
    requires !a.Blocked?
  {
    if a.Normal? then 1.0 else 1.5
  }

  function Alternatives(cs: seq<Candidate>, excluded: Id): (r: seq<Candidate>)
    ensures forall c :: c in r <==> c in cs && c.id != excluded
  {
    if cs == [] then []
    else
      var rest := Alternatives(cs[1..], excluded);
      if cs[0].id == excluded then rest else [cs[0]] + rest
  }

  function FindReplacement(
      cs: seq<Candidate>, people: int, reqs: seq<string>, speed: real, access: AccessCondition)
    : Option<Candidate>
  {
    if access.Blocked? then None
    else Recommend(cs, people, reqs, speed / Multiplier(access))
  }

  // Whether the resource already serving an incident can go on serving it.
  predicate CurrentFeasible(row: Resource, people: int, reqs: seq<string>) {
    && (row.status.Busy? || row.status.Available?)
    && row.capacity >= people
    && TypeMatches(row.kind, reqs)
  }

  // ------------------------------------------------------------------ the choice is an argmin

  ghost predicate DistinctIds(cs: seq<Candidate>) {
    forall i, j | 0 <= i < j < |cs| :: cs[i].id != cs[j].id
  }

  ghost function Elements(cs: seq<Candidate>): set<Candidate> { set c | c in cs }

  // The order the engine documents: ETA, then surplus capacity, then id.
  ghost predicate Beats(a: Candidate, b: Candidate, people: int, speed: real) {
    var x, y := EstimateEta(a.distance, speed), EstimateEta(b.distance, speed);
    && x.Finite? && y.Finite?
    && ( || x.hundredths < y.hundredths
         || (x == y && a.row.capacity < b.row.capacity)
         || (x == y && a.row.capacity == b.row.capacity && a.id < b.id))
  }

  // None is right when nobody is feasible; c is right when it is feasible and beats every other
  // feasible candidate.
  ghost predicate IsAnswer(
      r: Option<Candidate>, cs: set<Candidate>, people: int, reqs: seq<string>, speed: real)
  {
    match r
    case None => forall d <- cs :: !Feasible(d.row, people, reqs)
    case Some(c) =>
      && c in cs && Feasible(c.row, people, reqs)
      && forall d <- cs | Feasible(d.row, people, reqs) && d != c :: Beats(c, d, people, speed)
  }

  lemma InsertHead(x: Evaluation, s: seq<Evaluation>)
    requires s != []
    ensures Insert(x, s)[0] == if Precedes(x, s[0]) then x else s[0]
  {}

  // The head of the ranking is preceded by nobody.
  lemma {:induction false} RankHead(es: seq<Evaluation>)
    requires es != []
    ensures forall e <- es :: !Precedes(e, Rank(es)[0])
  {
    var n := |es| - 1;
    var rest := es[..n];
    assert es == rest + [es[n]];
    if n > 0 {
      RankHead(rest);
      InsertHead(es[n], Rank(rest));
    }
  }

  // The ranking is a permutation sorted by the comparator: nobody stands behind a candidate it
  // precedes.
  ghost predicate Sorted(s: seq<Evaluation>) {
    forall i, j | 0 <= i < j < |s| :: !Precedes(s[j], s[i])
  }

  lemma {:induction false} InsertSorted(x: Evaluation, s: seq<Evaluation>)
    requires Sorted(s)
    ensures Sorted(Insert(x, s))
  {
    if s != [] {
      if !Precedes(x, s[0]) {
        InsertSorted(x, s[1..]);
        assert forall e <- Insert(x, s[1..]) :: !Precedes(e, s[0]);
      } else {
        assert forall e <- s :: !Precedes(e, s[0]);
      }
    }
  }

  lemma {:induction false} InsertPermutes(x: Evaluation, s: seq<Evaluation>)
    ensures multiset(Insert(x, s)) == multiset(s) + multiset{x}
  {
    if s != [] {
      assert s == [s[0]] + s[1..];
      InsertPermutes(x, s[1..]);
    }
  }

  lemma {:induction false} RankSorted(es: seq<Evaluation>)
    ensures Sorted(Rank(es)) && multiset(Rank(es)) == multiset(es)
  {
    if es != [] {
      var n := |es| - 1;
      RankSorted(es[..n]);
      InsertSorted(es[n], Rank(es[..n]));
      InsertPermutes(es[n], Rank(es[..n]));
      assert es == es[..n] + [es[n]];
    }
  }

  // What the engine returns depends only on the set of candidates.
  lemma RecommendIsLeast(cs: seq<Candidate>, people: int, reqs: seq<string>, speed: real)
    requires speed > 0.0 && DistinctIds(cs)
    ensures IsAnswer(Recommend(cs, people, reqs, speed), Elements(cs), people, reqs, speed)
  {
    var es := FeasibleEvaluations(cs, people, reqs, speed);
    if es != [] {
      var best := Rank(es)[0];
      RankHead(es);
      assert best in Rank(es) && best in es;
      var c :| c in cs && Feasible(c.row, people, reqs) && best == Evaluate(c, people, speed);
      var found := Find(cs, best.id);
      assert found == c;
      forall d <- cs | Feasible(d.row, people, reqs) && d != c ensures Beats(c, d, people, speed) {
        NotPrecededBeats(c, d, people, speed);
      }
    }
  }

  lemma NotPrecededBeats(c: Candidate, d: Candidate, people: int, speed: real)
    requires speed > 0.0 && c.id != d.id
    requires !Precedes(Evaluate(d, people, speed), Evaluate(c, people, speed))
    ensures Beats(c, d, people, speed)
  {}

  // There is one right answer.
  lemma AnswerIsUnique(
      r: Option<Candidate>, t: Option<Candidate>, cs: set<Candidate>, people: int, reqs: seq<string>, speed: real)
    requires IsAnswer(r, cs, people, reqs, speed) && IsAnswer(t, cs, people, reqs, speed)
    ensures r == t
  {}

  // The order in which the table was read does not matter.
  lemma PermutationInvariant(cs: seq<Candidate>, ds: seq<Candidate>, people: int, reqs: seq<string>, speed: real)
    requires speed > 0.0 && DistinctIds(cs) && DistinctIds(ds)
    requires Elements(cs) == Elements(ds)
    ensures Recommend(cs, people, reqs, speed) == Recommend(ds, people, reqs, speed)
  {
    RecommendIsLeast(cs, people, reqs, speed);
    RecommendIsLeast(ds, people, reqs, speed);
    AnswerIsUnique(Recommend(cs, people, reqs, speed), Recommend(ds, people, reqs, speed),
                   Elements(cs), people, reqs, speed);
  }

  // Removing a candidate that was not selected changes nothing.
  lemma RemovingALoserChangesNothing(
      cs: seq<Candidate>, ds: seq<Candidate>, loser: Candidate, people: int, reqs: seq<string>, speed: real)
    requires speed > 0.0 && DistinctIds(cs) && DistinctIds(ds)
    requires Elements(ds) == Elements(cs) - {loser}
    requires Recommend(cs, people, reqs, speed) != Some(loser)
    ensures Recommend(ds, people, reqs, speed) == Recommend(cs, people, reqs, speed)
  {
    RecommendIsLeast(cs, people, reqs, speed);
    RecommendIsLeast(ds, people, reqs, speed);
    AnswerIsUnique(Recommend(cs, people, reqs, speed), Recommend(ds, people, reqs, speed),
                   Elements(ds), people, reqs, speed);
  }

  // Adding a candidate keeps the choice or moves it to the new one.
  lemma AddingMovesOnlyToTheNewcomer(
      cs: seq<Candidate>, ds: seq<Candidate>, newcomer: Candidate, people: int, reqs: seq<string>, speed: real)
    requires speed > 0.0 && DistinctIds(cs) && DistinctIds(ds)
    requires newcomer !in cs && Elements(ds) == Elements(cs) + {newcomer}
    ensures Recommend(ds, people, reqs, speed) in {Some(newcomer), Recommend(cs, people, reqs, speed)}
  {
    if Recommend(ds, people, reqs, speed) != Some(newcomer) {
      assert Elements(cs) == Elements(ds) - {newcomer};
      RemovingALoserChangesNothing(ds, cs, newcomer, people, reqs, speed);
    }
  }

  lemma DivideMonotone(x: real, y: real, s: real)
    requires x <= y && s > 0.0
    ensures x / s <= y / s
  {}

  // Nearer is never later.
  lemma EtaMonotoneInDistance(d: nat, e: nat, speed: real)
    requires speed > 0.0 && d <= e
    ensures EstimateEta(d, speed).hundredths <= EstimateEta(e, speed).hundredths
  {
    DivideMonotone(d as real / 100.0, e as real / 100.0, speed);
    var x, y := d as real / 100.0 / speed, e as real / 100.0 / speed;
    assert x * 60.0 * 100.0 <= y * 60.0 * 100.0;
  }

  // The nearest feasible resource attains the selected ETA.
  lemma NearestAttainsSelectedEta(
      cs: seq<Candidate>, nearest: Candidate, people: int, reqs: seq<string>, speed: real)
    requires speed > 0.0 && DistinctIds(cs)
    requires nearest in cs && Feasible(nearest.row, people, reqs)
    requires forall d <- cs | Feasible(d.row, people, reqs) :: nearest.distance <= d.distance
    ensures var r := Recommend(cs, people, reqs, speed);
      r.Some? && EstimateEta(r.value.distance, speed) == EstimateEta(nearest.distance, speed)
  {
    RecommendIsLeast(cs, people, reqs, speed);
    var c := Recommend(cs, people, reqs, speed).value;
    EtaMonotoneInDistance(nearest.distance, c.distance, speed);
  }

  lemma SlowerTakesLonger(x: real, s: real, m: real)
    requires x >= 0.0 && s > 0.0 && m >= 1.0
    ensures x / s <= x / (s / m)
  {}

  // A DIFFICULT access condition never lowers an ETA, for any resource.
  lemma DifficultNeverLowersEta(d: nat, speed: real)
    requires speed > 0.0
    ensures speed / Multiplier(Difficult) > 0.0
    ensures EstimateEta(d, speed).hundredths <= EstimateEta(d, speed / Multiplier(Difficult)).hundredths
  {
    SlowerTakesLonger(d as real / 100.0, speed, 1.5);
    var x, y := d as real / 100.0 / speed, d as real / 100.0 / (speed / 1.5);
    assert x * 60.0 * 100.0 <= y * 60.0 * 100.0;
  }

  // With no speed every ETA is infinite, nothing precedes anything, and the engine takes the
  // first feasible candidate it meets.
  lemma {:induction false} RankKeepsOrderWithoutSpeed(es: seq<Evaluation>)
    requires forall e <- es :: e.eta.Infinite?
    ensures Rank(es) == es
  {
    if es != [] {
      var n := |es| - 1;
      RankKeepsOrderWithoutSpeed(es[..n]);
      InsertLast(es[n], es[..n]);
      assert es == es[..n] + [es[n]];
    }
  }

  lemma {:induction false} InsertLast(x: Evaluation, s: seq<Evaluation>)
    requires x.eta.Infinite?
    ensures Insert(x, s) == s + [x]
  {
    if s != [] {
      InsertLast(x, s[1..]);
      assert s == [s[0]] + s[1..];
    }
  }

  // Hence the order of the table decides between any two feasible resources exactly when the
  // configured speed is not positive.
  lemma OrderMattersIffNoSpeed(a: Candidate, b: Candidate, people: int, reqs: seq<string>, speed: real)
    requires a.id != b.id && Feasible(a.row, people, reqs) && Feasible(b.row, people, reqs)
    ensures Recommend([a, b], people, reqs, speed) == Recommend([b, a], people, reqs, speed) <==> speed > 0.0
  {
    if speed > 0.0 {
      PermutationInvariant([a, b], [b, a], people, reqs, speed);
    } else {
      TwoWithoutSpeed(a, b, people, reqs, speed);
      TwoWithoutSpeed(b, a, people, reqs, speed);
    }
  }

  lemma TwoWithoutSpeed(a: Candidate, b: Candidate, people: int, reqs: seq<string>, speed: real)
    requires speed <= 0.0 && a.id != b.id && Feasible(a.row, people, reqs) && Feasible(b.row, people, reqs)
    ensures Recommend([a, b], people, reqs, speed) == Some(a)
  {
    var es := FeasibleEvaluations([a, b], people, reqs, speed);
    assert [a, b][1..] == [b];
    assert FeasibleEvaluations([b], people, reqs, speed) == [Evaluate(b, people, speed)];
    assert es == [Evaluate(a, people, speed), Evaluate(b, people, speed)];
    RankKeepsOrderWithoutSpeed(es);
  }
}
