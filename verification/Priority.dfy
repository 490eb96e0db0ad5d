// calculatePriority in exact rationals.  The environmental risk level is an input here: it comes
// from a keyword scan of free text.

module Priority {
  import opened Domain

  datatype Level = Low | Medium | High | Critical

  datatype Input = Input(
    severity: Level, timeSensitivity: Level, affectedPeople: real, risk: Level, requirements: seq<string>)

  function LevelScore(l: Level): int {
    match l
    case Low => 25
    case Medium => 50
    case High => 75
    case Critical => 100
  }

  function NormalizePopulation(count: real): real {
    if count <= 0.0 then 0.0
    else if count <= 10.0 then 5.0 + count / 10.0 * 20.0
    else if count <= 50.0 then 25.0 + (count - 10.0) / 40.0 * 35.0
    else if count <= 100.0 then 60.0 + (count - 50.0) / 50.0 * 25.0
    else if count <= 200.0 then 85.0 + (count - 100.0) / 100.0 * 15.0
    else 100.0
  }

  function PopulationScore(count: real): int { Round(NormalizePopulation(count)) }

  function Urgency(requirement: string): int {
    var r := Upper(requirement);
    if r == "HELICOPTER" || r == "HAZMAT_UNIT" then 100
    else if r == "RESCUE_TEAM" then 85
    else if r == "FIRE_TRUCK" then 80
    else if r == "MEDICAL_SUPPORT" then 70
    else if r == "AMBULANCE" then 60
    else 40
  }

  function SumBy(f: string -> int, rs: seq<string>): int {
    if rs == [] then 0 else SumBy(f, rs[..|rs| - 1]) + f(rs[|rs| - 1])
  }

  function CountMultiplier(n: nat): real
    requires n >= 1
  {
    var m := 1.0 + (n - 1) as real * 0.05;
    if m <= 1.25 then m else 1.25
  }

  function Average(total: int, n: nat): real
    requires n >= 1
  {
    total as real / n as real
  }

  function Capped(x: int): int { if x <= 100 then x else 100 }

  function ScoreOf(total: int, n: nat): int
    requires n >= 1
  {
    Capped(Round(Average(total, n) * CountMultiplier(n)))
  }

  function RequirementScore(requirements: seq<string>): int {
    if requirements == [] then 10 else ScoreOf(SumBy(Urgency, requirements), |requirements|)
  }

  function Weigh(severity: int, time: int, population: int, risk: int, requirements: int): real {
    severity as real * 0.30 + time as real * 0.25 + population as real * 0.20 + risk as real * 0.15
    + requirements as real * 0.10
  }

  function RawScore(i: Input): real {
    Weigh(LevelScore(i.severity), LevelScore(i.timeSensitivity), PopulationScore(i.affectedPeople),
          LevelScore(i.risk), RequirementScore(i.requirements))
  }

  function Finish(raw: real): real {
    var rounded := Round(raw * 100.0) as real / 100.0;
    var floored := if rounded >= 0.0 then rounded else 0.0;
    if floored <= 100.0 then floored else 100.0
  }

  function CalculatePriority(i: Input): real { Finish(RawScore(i)) }

  // ------------------------------------------------------------------ range

  lemma PopulationRange(count: real)
    ensures 0.0 <= NormalizePopulation(count) <= 100.0
    ensures 0 <= PopulationScore(count) <= 100
  {}

  lemma Scaled(x: real, a: real, b: real)
    requires x >= 0.0 && a <= b
    ensures x * a <= x * b
  {}

  lemma AverageAtLeast(total: int, n: nat, low: real)
    requires n >= 1
    ensures low * n as real <= total as real <==> low <= Average(total, n)
  {}

  lemma ScoreOfRange(total: int, n: nat)
    requires n >= 1 && total >= 40 * n
    ensures 40 <= ScoreOf(total, n) <= 100
  {
    AverageAtLeast(total, n, 40.0);
    Scaled(Average(total, n), 1.0, CountMultiplier(n));
    RoundMonotone(40.0, Average(total, n) * CountMultiplier(n));
  }

  lemma {:induction false} SumByAtLeast(f: string -> int, rs: seq<string>, low: int)
    requires forall r :: f(r) >= low
    ensures SumBy(f, rs) >= low * |rs|
  {
    if rs != [] { SumByAtLeast(f, rs[..|rs| - 1], low); }
  }

  lemma RequirementRange(requirements: seq<string>)
    ensures 10 <= RequirementScore(requirements) <= 100
    ensures requirements != [] ==> RequirementScore(requirements) >= 40
  {
    if requirements != [] {
      SumByAtLeast(Urgency, requirements, 40);
      ScoreOfRange(SumBy(Urgency, requirements), |requirements|);
    }
  }

  lemma FinishWhole(hundredths: int)
    requires 0 <= hundredths <= 10000
    ensures Finish(hundredths as real / 100.0) == hundredths as real / 100.0
  {
    assert Round(hundredths as real / 100.0 * 100.0) == hundredths;
  }

  lemma WeighIsExact(a: int, b: int, c: int, d: int, e: int)
    requires 0 <= a <= 100 && 0 <= b <= 100 && 0 <= c <= 100 && 0 <= d <= 100 && 0 <= e <= 100
    ensures Finish(Weigh(a, b, c, d, e)) == Weigh(a, b, c, d, e)
  {
    var hundredths := 30 * a + 25 * b + 20 * c + 15 * d + 10 * e;
    assert Weigh(a, b, c, d, e) == hundredths as real / 100.0;
    FinishWhole(hundredths);
  }

  // The final rounding and clamping change nothing, and the score stays within [18.5, 100].
  lemma ScoreIsExact(i: Input)
    ensures CalculatePriority(i) == RawScore(i)
    ensures 18.5 <= CalculatePriority(i) <= 100.0
  {
    PopulationRange(i.affectedPeople);
    RequirementRange(i.requirements);
    WeighIsExact(LevelScore(i.severity), LevelScore(i.timeSensitivity), PopulationScore(i.affectedPeople),
                 LevelScore(i.risk), RequirementScore(i.requirements));
  }

  // The lowest score is reached, and by one kind of incident only; ...
  lemma LowestScoreIff(i: Input)
    ensures CalculatePriority(i) == 18.5 <==>
              && i.severity.Low? && i.timeSensitivity.Low? && i.affectedPeople <= 0.0 && i.risk.Low?
              && i.requirements == []
  {
    ScoreIsExact(i);
    PopulationRange(i.affectedPeople);
    RequirementRange(i.requirements);
  }

  // ... so is the highest: the population factor is full from 197 people on.
  lemma HighestScoreIff(i: Input)
    ensures CalculatePriority(i) == 100.0 <==>
              && i.severity.Critical? && i.timeSensitivity.Critical? && i.risk.Critical?
              && 3.0 * i.affectedPeople >= 590.0
              && RequirementScore(i.requirements) == 100
  {}

  // ------------------------------------------------------------------ monotone

  predicate AtMost(a: Level, b: Level) { LevelScore(a) <= LevelScore(b) }

  lemma PopulationMonotone(a: real, b: real)
    requires a <= b
    ensures PopulationScore(a) <= PopulationScore(b)
  {}

  lemma WeighMonotone(a: int, b: int, c: int, d: int, e: int, a': int, b': int, c': int, d': int, e': int)
    requires a <= a' && b <= b' && c <= c' && d <= d' && e <= e'
    ensures Weigh(a, b, c, d, e) <= Weigh(a', b', c', d', e')
  {}

  // More severe, more urgent, more people, more risk or a higher requirement score: never a lower
  // priority.
  lemma ScoreMonotone(i: Input, j: Input)
    requires AtMost(i.severity, j.severity) && AtMost(i.timeSensitivity, j.timeSensitivity)
    requires i.affectedPeople <= j.affectedPeople && AtMost(i.risk, j.risk)
    requires RequirementScore(i.requirements) <= RequirementScore(j.requirements)
    ensures CalculatePriority(i) <= CalculatePriority(j)
  {
    ScoreIsExact(i);
    ScoreIsExact(j);
    PopulationMonotone(i.affectedPeople, j.affectedPeople);
    WeighMonotone(LevelScore(i.severity), LevelScore(i.timeSensitivity), PopulationScore(i.affectedPeople),
                  LevelScore(i.risk), RequirementScore(i.requirements),
                  LevelScore(j.severity), LevelScore(j.timeSensitivity), PopulationScore(j.affectedPeople),
                  LevelScore(j.risk), RequirementScore(j.requirements));
  }

  function Index(l: Level): int {
    match l
    case Low => 0
    case Medium => 1
    case High => 2
    case Critical => 3
  }

  lemma LevelsAreEven(l: Level)
    ensures LevelScore(l) == 25 * (Index(l) + 1)
  {}

  lemma WeighDifference(a: int, b: int, c: int, d: int, e: int, a': int, b': int, c': int, d': int, e': int)
    ensures Weigh(25 * (a' + 1), 25 * (b' + 1), c', 25 * (d' + 1), e')
          - Weigh(25 * (a + 1), 25 * (b + 1), c, 25 * (d + 1), e)
         == 7.5 * (a' - a) as real + 6.25 * (b' - b) as real + 0.2 * (c' - c) as real
            + 3.75 * (d' - d) as real + 0.1 * (e' - e) as real
  {}

  // How much each factor counts: one level of severity, time sensitivity or risk, one point of the
  // population or the requirement score.
  lemma FactorsAreWeighted(i: Input, j: Input)
    ensures CalculatePriority(j) - CalculatePriority(i)
         == 7.5 * (Index(j.severity) - Index(i.severity)) as real
            + 6.25 * (Index(j.timeSensitivity) - Index(i.timeSensitivity)) as real
            + 0.2 * (PopulationScore(j.affectedPeople) - PopulationScore(i.affectedPeople)) as real
            + 3.75 * (Index(j.risk) - Index(i.risk)) as real
            + 0.1 * (RequirementScore(j.requirements) - RequirementScore(i.requirements)) as real
  {
    ScoreIsExact(i);
    ScoreIsExact(j);
    LevelsAreEven(i.severity);
    LevelsAreEven(i.timeSensitivity);
    LevelsAreEven(i.risk);
    LevelsAreEven(j.severity);
    LevelsAreEven(j.timeSensitivity);
    LevelsAreEven(j.risk);
    WeighDifference(Index(i.severity), Index(i.timeSensitivity), PopulationScore(i.affectedPeople), Index(i.risk),
                    RequirementScore(i.requirements),
                    Index(j.severity), Index(j.timeSensitivity), PopulationScore(j.affectedPeople), Index(j.risk),
                    RequirementScore(j.requirements));
  }

  // The population scale as straight lines: (head-count, score) at the start and the slope.
  function Line(k: nat, count: real): real {
    if k == 0 then 5.0 + 2.0 * count
    else if k == 1 then 25.0 + 0.875 * (count - 10.0)
    else if k == 2 then 60.0 + 0.5 * (count - 50.0)
    else if k == 3 then 85.0 + 0.15 * (count - 100.0)
    else 100.0
  }

  // Above zero the scale is the lowest of five ever flatter lines, ...
  lemma PopulationIsLowestLine(count: real) returns (k: nat)
    requires count > 0.0
    ensures k <= 4 && NormalizePopulation(count) == Line(k, count)
    ensures forall j: nat | j <= 4 :: NormalizePopulation(count) <= Line(j, count)
  {
    k := if count <= 10.0 then 0 else if count <= 50.0 then 1 else if count <= 100.0 then 2
         else if count <= 200.0 then 3 else 4;
  }

  // ... so marginal urgency only ever diminishes: d more people never add more to a large incident
  // than to a small one.
  lemma DiminishingUrgency(a: real, b: real, d: real)
    requires 0.0 < a <= b && d >= 0.0
    ensures NormalizePopulation(b + d) - NormalizePopulation(b) <= NormalizePopulation(a + d) - NormalizePopulation(a)
  {}

  // ------------------------------------------------------------------ requirements

  lemma {:induction false} SumByConcat(f: string -> int, a: seq<string>, b: seq<string>)
    ensures SumBy(f, a + b) == SumBy(f, a) + SumBy(f, b)
  {
    if b == [] {
      assert a + b == a;
    } else {
      assert (a + b)[..|a + b| - 1] == a + b[..|b| - 1];
      SumByConcat(f, a, b[..|b| - 1]);
    }
  }

  function Without(rs: seq<string>, k: nat): seq<string>
    requires k < |rs|
  {
    rs[..k] + rs[k + 1..]
  }

  lemma SumBySplit(f: string -> int, rs: seq<string>, k: nat)
    requires k < |rs|
    ensures SumBy(f, rs) == SumBy(f, Without(rs, k)) + f(rs[k])
  {
    var left, right := rs[..k + 1], rs[k + 1..];
    assert rs == left + right && left[..k] == rs[..k];
    SumByConcat(f, left, right);
    SumByConcat(f, rs[..k], right);
  }

  lemma WithoutRemoves(rs: seq<string>, k: nat)
    requires k < |rs|
    ensures multiset(Without(rs, k)) == multiset(rs) - multiset{rs[k]}
  {
    assert rs == rs[..k] + [rs[k]] + rs[k + 1..];
  }

  lemma {:induction false} SumByPermutation(f: string -> int, a: seq<string>, b: seq<string>)
    requires multiset(a) == multiset(b)
    ensures SumBy(f, a) == SumBy(f, b) && |a| == |b|
    decreases |a|
  {
    assert |a| == |multiset(a)| == |multiset(b)| == |b|;
    if a != [] {
      assert a[0] in multiset(b);
      var k :| 0 <= k < |b| && b[k] == a[0];
      WithoutRemoves(a, 0);
      WithoutRemoves(b, k);
      SumByPermutation(f, Without(a, 0), Without(b, k));
      SumBySplit(f, a, 0);
      SumBySplit(f, b, k);
    }
  }

  // The score does not depend on the order of the requirements.
  lemma OrderOfRequirements(a: Input, b: Input)
    requires a == b.(requirements := a.requirements) && multiset(a.requirements) == multiset(b.requirements)
    ensures CalculatePriority(a) == CalculatePriority(b)
  {
    SumByPermutation(Urgency, a.requirements, b.requirements);
    assert RequirementScore(a.requirements) == RequirementScore(b.requirements);
  }

  lemma ProductMonotone(x: real, y: real, x': real, y': real)
    requires 0.0 <= x <= x' && 0.0 <= y <= y'
    ensures x * y <= x' * y'
  {}

  lemma AverageMonotone(t: int, t': int, n: nat)
    requires n >= 1 && t <= t'
    ensures Average(t, n) <= Average(t', n)
  {}

  lemma ScoreOfMonotone(t: int, n: nat, t': int, n': nat)
    requires 1 <= n <= n' && t >= 0 && Average(t, n) <= Average(t', n')
    ensures ScoreOf(t, n) <= ScoreOf(t', n')
  {
    AverageAtLeast(t, n, 0.0);
    ProductMonotone(Average(t, n), CountMultiplier(n), Average(t', n'), CountMultiplier(n'));
    RoundMonotone(Average(t, n) * CountMultiplier(n), Average(t', n') * CountMultiplier(n'));
  }

  // Replacing a requirement by one at least as urgent never lowers the score.
  lemma RaisingUrgency(i: Input, k: nat, requirement: string)
    requires k < |i.requirements| && Urgency(requirement) >= Urgency(i.requirements[k])
    ensures CalculatePriority(i.(requirements := i.requirements[k := requirement])) >= CalculatePriority(i)
  {
    var a, b := i.requirements, i.requirements[k := requirement];
    SumBySplit(Urgency, a, k);
    SumBySplit(Urgency, b, k);
    assert Without(a, k) == Without(b, k);
    var t, t' := SumBy(Urgency, a), SumBy(Urgency, b);
    SumByAtLeast(Urgency, a, 40);
    AverageMonotone(t, t', |a|);
    ScoreOfMonotone(t, |a|, t', |a|);
    ScoreMonotone(i, i.(requirements := b));
  }

  lemma AverageAfterAppend(t: int, n: nat, u: int)
    requires n >= 1 && u as real >= Average(t, n)
    ensures Average(t + u, n + 1) >= Average(t, n)
  {}

  // ------------------------------------------------------------------ one requirement more

  lemma CappedRoundAtLeast(x: real, s: int)
    requires s <= 100
    ensures Capped(Round(x)) >= s <==> x >= s as real - 0.5
  {}

  lemma WeightedAverageAtLeast(t: int, n: nat, m: real, y: real)
    requires n >= 1
    ensures Average(t, n) * m >= y <==> t as real * m >= y * n as real
  {
    var q, d := Average(t, n), n as real;
    assert q * d == t as real;
    assert q * m * d == t as real * m;
    assert (q * m - y) * d == t as real * m - y * d;
  }

  // The total, weighted for the count, against a rounded score.
  predicate Reaches(t: int, n: nat, s: int)
    requires n >= 1
  {
    t as real * CountMultiplier(n) >= (s as real - 0.5) * n as real
  }

  lemma ScoreOfAtLeast(t: int, n: nat, s: int)
    requires n >= 1 && s <= 100
    ensures ScoreOf(t, n) >= s <==> Reaches(t, n, s)
  {
    CappedRoundAtLeast(Average(t, n) * CountMultiplier(n), s);
    WeightedAverageAtLeast(t, n, CountMultiplier(n), s as real - 0.5);
  }

  lemma ReachesAboveAverage(t: int, n: nat, u: int)
    requires n >= 1 && t >= 40 * n && u as real >= Average(t, n)
    ensures Reaches(t + u, n + 1, ScoreOf(t, n))
  {
    AverageAfterAppend(t, n, u);
    ScoreOfMonotone(t, n, t + u, n + 1);
    ScoreOfRange(t, n);
    ScoreOfAtLeast(t + u, n + 1, ScoreOf(t, n));
  }

  lemma SumByAppend(f: string -> int, rs: seq<string>, r: string)
    ensures SumBy(f, rs + [r]) == SumBy(f, rs) + f(r)
  {
    assert (rs + [r])[..|rs|] == rs;
  }

  // With one requirement more the new total still reaches the old score.
  predicate HoldsUp(requirements: seq<string>, requirement: string) {
    Reaches(SumBy(Urgency, requirements) + Urgency(requirement), |requirements| + 1, RequirementScore(requirements))
  }

  lemma AppendedScore(requirements: seq<string>, requirement: string)
    ensures RequirementScore(requirements + [requirement]) >= RequirementScore(requirements) <==>
              requirements == [] || HoldsUp(requirements, requirement)
  {
    RequirementRange(requirements);
    RequirementRange(requirements + [requirement]);
    SumByAppend(Urgency, requirements, requirement);
    if requirements != [] {
      ScoreOfAtLeast(SumBy(Urgency, requirements + [requirement]), |requirements| + 1, RequirementScore(requirements));
    }
  }

  // Inputs that differ in their requirements compare as their requirement scores do.
  lemma ScoreFollowsRequirements(i: Input, requirements: seq<string>)
    ensures CalculatePriority(i.(requirements := requirements)) >= CalculatePriority(i) <==>
              RequirementScore(requirements) >= RequirementScore(i.requirements)
  {
    var j := i.(requirements := requirements);
    if RequirementScore(requirements) >= RequirementScore(i.requirements) {
      ScoreMonotone(i, j);
    } else {
      FactorsAreWeighted(i, j);
    }
  }

  // Asking for one unit more lowers the priority exactly when the new total does not hold up the
  // old score; the first requirement never does.
  lemma AppendingKeepsScoreIff(i: Input, requirement: string)
    ensures CalculatePriority(i.(requirements := i.requirements + [requirement])) >= CalculatePriority(i) <==>
              i.requirements == [] || HoldsUp(i.requirements, requirement)
  {
    AppendedScore(i.requirements, requirement);
    ScoreFollowsRequirements(i, i.requirements + [requirement]);
  }

  // In particular one at least as urgent as the current average never lowers it ...
  lemma AppendingUrgency(i: Input, requirement: string)
    requires i.requirements != [] ==>
               Urgency(requirement) as real >= Average(SumBy(Urgency, i.requirements), |i.requirements|)
    ensures CalculatePriority(i.(requirements := i.requirements + [requirement])) >= CalculatePriority(i)
  {
    AppendingKeepsScoreIff(i, requirement);
    if i.requirements != [] {
      SumByAtLeast(Urgency, i.requirements, 40);
      ReachesAboveAverage(SumBy(Urgency, i.requirements), |i.requirements|, Urgency(requirement));
    }
  }

  // ... but one below the average can.
  lemma AppendingCanLower()
    ensures RequirementScore(["HELICOPTER"]) == 100 && RequirementScore(["HELICOPTER", "TENT"]) == 74
    ensures !HoldsUp(["HELICOPTER"], "TENT")
  {
    ScoreOfAtLeast(140, 2, 100);
  }
}
