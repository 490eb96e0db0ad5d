// What the allocation engine selects, in distances and rows: no estimate, ranking or upper-casing
// appears in these statements.

module Selection {
  import opened Domain
  import opened Allocation
  import opened Words

  ghost predicate Fits(row: Resource, people: int, reqs: seq<string>) {
    row.status.Available? && row.capacity >= people && Accepts(reqs, row.kind)
  }

  lemma FitsIsFeasible(row: Resource, people: int, reqs: seq<string>)
    ensures Fits(row, people, reqs) <==> Feasible(row, people, reqs)
  {
    TypeMatchesIff(row.kind, reqs);
  }

  // h hundredths of a minute are the travel time to the nearest hundredth, halves up: at `speed`
  // kilometres an hour, distance in hundredths of a kilometre takes minutes * distance / speed of
  // them, where an hour counts 60 minutes on normal roads and 90 on difficult ones.
  ghost predicate Takes(h: int, distance: nat, minutes: int, speed: real) {
    (2 * h - 1) as real * speed <= (2 * minutes * distance) as real < (2 * h + 1) as real * speed
  }

  lemma Halves(x: real, h: int)
    ensures Round(x) == h <==> (2 * h - 1) as real <= 2.0 * x < (2 * h + 1) as real
  {}

  lemma Scales(x: real, y: real, speed: real)
    requires speed > 0.0
    ensures x <= y <==> x * speed <= y * speed
    ensures x < y <==> x * speed < y * speed
  {}

  lemma Between(x: real, work: real, speed: real, low: real, high: real)
    requires speed > 0.0 && x * speed == work
    ensures low <= 2.0 * x < high <==> low * speed <= 2.0 * work < high * speed
  {
    var twice := 2.0 * x;
    assert twice * speed == 2.0 * work;
    Scales(low, twice, speed);
    Scales(twice, high, speed);
  }

  // work / speed rounds to h
  lemma RoundsQuotient(x: real, work: real, speed: real, h: int)
    requires speed > 0.0 && x * speed == work
    ensures Round(x) == h <==> (2 * h - 1) as real * speed <= 2.0 * work < (2 * h + 1) as real * speed
  {
    Halves(x, h);
    Between(x, work, speed, (2 * h - 1) as real, (2 * h + 1) as real);
  }

  // The estimate is the travel time to the nearest hundredth of a minute.
  lemma EtaIsNearest(d: nat, speed: real, h: int)
    requires speed > 0.0
    ensures EstimateEta(d, speed) == Finite(h) <==> Takes(h, d, 60, speed)
  {
    var km := d as real / 100.0;
    var q := km / speed;
    var x := q * 60.0 * 100.0;
    assert q * speed == km;
    assert x * speed == (q * speed) * 6000.0 == (60 * d) as real;
    RoundsQuotient(x, (60 * d) as real, speed, h);
  }

  lemma DifficultEtaIsNearest(d: nat, speed: real, h: int)
    requires speed > 0.0
    ensures speed / 1.5 > 0.0 && (EstimateEta(d, speed / 1.5) == Finite(h) <==> Takes(h, d, 90, speed))
  {
    var slower := speed / 1.5;
    EtaIsNearest(d, slower, h);
    assert speed == slower * 1.5;
    assert (2 * h - 1) as real * speed == (2 * h - 1) as real * slower * 1.5;
    assert (2 * h + 1) as real * speed == (2 * h + 1) as real * slower * 1.5;
  }

  // c is there earlier than d; or as early with less capacity to spare; or equal in both, with the
  // smaller id.
  ghost predicate Leads(c: Candidate, d: Candidate, minutes: int, speed: real) {
    forall h, k | Takes(h, c.distance, minutes, speed) && Takes(k, d.distance, minutes, speed) ::
      || h < k
      || (h == k && c.row.capacity < d.row.capacity)
      || (h == k && c.row.capacity == d.row.capacity && c.id < d.id)
  }

  ghost predicate Selected(
    c: Candidate, cs: seq<Candidate>, people: int, reqs: seq<string>, minutes: int, speed: real)
  {
    && c in cs && Fits(c.row, people, reqs)
    && forall d <- cs | Fits(d.row, people, reqs) && d != c :: Leads(c, d, minutes, speed)
  }

  // A speed at which every hundredth of a kilometre takes minutes / speed hundredths of a minute.
  ghost predicate Pace(minutes: int, speed: real, effective: real) {
    effective > 0.0 && forall d: nat, h: int :: EstimateEta(d, effective) == Finite(h) <==> Takes(h, d, minutes, speed)
  }

  lemma LeadsIsBeats(c: Candidate, d: Candidate, people: int, minutes: int, speed: real, effective: real)
    requires Pace(minutes, speed, effective)
    ensures Leads(c, d, minutes, speed) <==> Beats(c, d, people, effective)
  {
    var x, y := EstimateEta(c.distance, effective).hundredths, EstimateEta(d.distance, effective).hundredths;
    assert EstimateEta(c.distance, effective) == Finite(x) && EstimateEta(d.distance, effective) == Finite(y);
    assert Takes(x, c.distance, minutes, speed) && Takes(y, d.distance, minutes, speed);
  }

  lemma SelectedIsAnswer(
    c: Candidate, cs: seq<Candidate>, people: int, reqs: seq<string>, minutes: int, speed: real, effective: real)
    requires Pace(minutes, speed, effective)
    ensures Selected(c, cs, people, reqs, minutes, speed) <==> IsAnswer(Some(c), Elements(cs), people, reqs, effective)
  {
    FitsIsFeasible(c.row, people, reqs);
    forall d <- cs
      ensures Fits(d.row, people, reqs) <==> Feasible(d.row, people, reqs)
      ensures Leads(c, d, minutes, speed) <==> Beats(c, d, people, effective)
    {
      FitsIsFeasible(d.row, people, reqs);
      LeadsIsBeats(c, d, people, minutes, speed, effective);
    }
  }

  lemma PacedRecommendation(
    cs: seq<Candidate>, people: int, reqs: seq<string>, minutes: int, speed: real, effective: real,
    r: Option<Candidate>)
    requires DistinctIds(cs) && Pace(minutes, speed, effective)
    ensures Recommend(cs, people, reqs, effective) == r <==>
      if r.None? then forall d <- cs :: !Fits(d.row, people, reqs)
      else Selected(r.value, cs, people, reqs, minutes, speed)
  {
    RecommendIsLeast(cs, people, reqs, effective);
    forall d <- cs ensures Fits(d.row, people, reqs) <==> Feasible(d.row, people, reqs) {
      FitsIsFeasible(d.row, people, reqs);
    }
    if r.Some? { SelectedIsAnswer(r.value, cs, people, reqs, minutes, speed, effective); }
    if IsAnswer(r, Elements(cs), people, reqs, effective) {
      AnswerIsUnique(r, Recommend(cs, people, reqs, effective), Elements(cs), people, reqs, effective);
    }
  }

  // The engine selects c if and only if c fits and leads every other candidate that fits, and
  // nobody if and only if nobody fits.
  lemma RecommendIff(cs: seq<Candidate>, people: int, reqs: seq<string>, speed: real, r: Option<Candidate>)
    requires speed > 0.0 && DistinctIds(cs)
    ensures Recommend(cs, people, reqs, speed) == r <==>
      if r.None? then forall d <- cs :: !Fits(d.row, people, reqs)
      else Selected(r.value, cs, people, reqs, 60, speed)
  {
    forall d: nat, h: int ensures EstimateEta(d, speed) == Finite(h) <==> Takes(h, d, 60, speed) {
      EtaIsNearest(d, speed, h);
    }
    PacedRecommendation(cs, people, reqs, 60, speed, speed, r);
  }

  lemma EffectiveSpeed(speed: real)
    ensures speed / Multiplier(Normal) == speed && speed / Multiplier(Difficult) == speed / 1.5
  {}

  lemma SlowedPace(speed: real, access: AccessCondition)
    requires speed > 0.0 && !access.Blocked?
    ensures Pace(if access.Normal? then 60 else 90, speed, speed / Multiplier(access))
  {
    var minutes := if access.Normal? then 60 else 90;
    EffectiveSpeed(speed);
    forall d: nat, h: int
      ensures EstimateEta(d, speed / Multiplier(access)) == Finite(h) <==> Takes(h, d, minutes, speed)
    {
      EtaIsNearest(d, speed, h);
      DifficultEtaIsNearest(d, speed, h);
    }
  }

  // The same for a replacement: a blocked road rules everybody out, a difficult one makes the hour
  // ninety minutes long.
  lemma ReplacementIff(
    cs: seq<Candidate>, people: int, reqs: seq<string>, speed: real, access: AccessCondition, r: Option<Candidate>)
    requires speed > 0.0 && DistinctIds(cs)
    ensures FindReplacement(cs, people, reqs, speed, access) == r <==>
      if r.None? then access.Blocked? || forall d <- cs :: !Fits(d.row, people, reqs)
      else !access.Blocked? && Selected(r.value, cs, people, reqs, if access.Normal? then 60 else 90, speed)
  {
    if !access.Blocked? {
      SlowedPace(speed, access);
      PacedRecommendation(cs, people, reqs, if access.Normal? then 60 else 90, speed, speed / Multiplier(access), r);
    }
  }

  // ------------------------------------------------------------------ how good the choice is

  lemma LeadsIsClose(c: Candidate, d: Candidate, minutes: int, speed: real, h: int, k: int)
    requires speed > 0.0 && Takes(h, c.distance, minutes, speed) && Takes(k, d.distance, minutes, speed) && h <= k
    ensures (minutes * c.distance) as real < (minutes * d.distance) as real + speed
  {
    Scales(h as real, k as real, speed);
    assert (2 * h + 1) as real * speed == 2.0 * (h as real * speed) + speed;
    assert (2 * k - 1) as real * speed == 2.0 * (k as real * speed) - speed;
  }

  // The resource selected never travels a hundredth of a minute longer than any other that fits.
  lemma NeverMuchLater(cs: seq<Candidate>, people: int, reqs: seq<string>, speed: real, d: Candidate)
    requires speed > 0.0 && DistinctIds(cs) && d in cs && Fits(d.row, people, reqs)
    ensures var r := Recommend(cs, people, reqs, speed);
      r.Some? && (60 * r.value.distance) as real < (60 * d.distance) as real + speed
  {
    var r := Recommend(cs, people, reqs, speed);
    RecommendIff(cs, people, reqs, speed, r);
    var h := EstimateEta(r.value.distance, speed).hundredths;
    var k := EstimateEta(d.distance, speed).hundredths;
    EtaIsNearest(r.value.distance, speed, h);
    EtaIsNearest(d.distance, speed, k);
    assert r.value == d || Leads(r.value, d, 60, speed);
    LeadsIsClose(r.value, d, 60, speed, h, k);
  }

  // ------------------------------------------------------------------ no speed

  // Where the first candidate that fits stands.
  ghost predicate FirstFit(cs: seq<Candidate>, people: int, reqs: seq<string>, k: nat) {
    && k < |cs| && Fits(cs[k].row, people, reqs)
    && forall j | 0 <= j < k :: !Fits(cs[j].row, people, reqs)
  }

  lemma {:induction false} EvaluationsBeginAtFirstFit(
    cs: seq<Candidate>, people: int, reqs: seq<string>, speed: real, k: nat)
    requires FirstFit(cs, people, reqs, k)
    ensures var es := FeasibleEvaluations(cs, people, reqs, speed);
      es != [] && es[0] == Evaluate(cs[k], people, speed)
  {
    FitsIsFeasible(cs[0].row, people, reqs);
    if k > 0 {
      assert forall j | 0 <= j < k - 1 :: !Fits(cs[1..][j].row, people, reqs) by {
        forall j | 0 <= j < k - 1 ensures !Fits(cs[1..][j].row, people, reqs) {
          assert cs[1..][j] == cs[j + 1];
        }
      }
      EvaluationsBeginAtFirstFit(cs[1..], people, reqs, speed, k - 1);
    }
  }

  // Without a positive speed the first candidate that fits is selected, however far away it is.
  lemma FirstFitWithoutSpeed(cs: seq<Candidate>, people: int, reqs: seq<string>, speed: real, k: nat)
    requires speed <= 0.0 && DistinctIds(cs) && FirstFit(cs, people, reqs, k)
    ensures Recommend(cs, people, reqs, speed) == Some(cs[k])
  {
    EvaluationsBeginAtFirstFit(cs, people, reqs, speed, k);
    var es := FeasibleEvaluations(cs, people, reqs, speed);
    RankKeepsOrderWithoutSpeed(es);
    assert cs[k] in cs;
  }
}
