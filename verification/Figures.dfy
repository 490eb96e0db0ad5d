// The priority score in figures: what every level, head-count and requirement contributes, with
// requirements counted by name in whatever letter case.

module Figures {
  import opened Domain
  import opened Priority
  import opened Words

  // ------------------------------------------------------------------ requirements by name

  function Count(rs: seq<string>, word: string): nat {
    if rs == [] then 0
    else Count(rs[..|rs| - 1], word) + if SameWord(rs[|rs| - 1], word) then 1 else 0
  }

  predicate Named(requirement: string) {
    || SameWord(requirement, "HELICOPTER") || SameWord(requirement, "HAZMAT_UNIT")
    || SameWord(requirement, "RESCUE_TEAM") || SameWord(requirement, "FIRE_TRUCK")
    || SameWord(requirement, "MEDICAL_SUPPORT") || SameWord(requirement, "AMBULANCE")
  }

  function CountNamed(rs: seq<string>): nat {
    Count(rs, "HELICOPTER") + Count(rs, "HAZMAT_UNIT") + Count(rs, "RESCUE_TEAM") + Count(rs, "FIRE_TRUCK")
    + Count(rs, "MEDICAL_SUPPORT") + Count(rs, "AMBULANCE")
  }

  // The urgencies add up, 40 for every other name.
  function Total(rs: seq<string>): int {
    100 * (Count(rs, "HELICOPTER") + Count(rs, "HAZMAT_UNIT")) + 85 * Count(rs, "RESCUE_TEAM")
    + 80 * Count(rs, "FIRE_TRUCK") + 70 * Count(rs, "MEDICAL_SUPPORT") + 60 * Count(rs, "AMBULANCE")
    + 40 * (|rs| - CountNamed(rs))
  }

  lemma Capitals(r: string, word: string)
    requires forall k | 0 <= k < |word| :: !('a' <= word[k] <= 'z')
    ensures Upper(r) == word <==> SameWord(r, word)
  {
    UpperMeansSameWord(r, word);
    assert Upper(word) == word;
  }

  lemma AllCapitals(r: string)
    ensures Upper(r) == "HELICOPTER" <==> SameWord(r, "HELICOPTER")
    ensures Upper(r) == "HAZMAT_UNIT" <==> SameWord(r, "HAZMAT_UNIT")
    ensures Upper(r) == "RESCUE_TEAM" <==> SameWord(r, "RESCUE_TEAM")
    ensures Upper(r) == "FIRE_TRUCK" <==> SameWord(r, "FIRE_TRUCK")
    ensures Upper(r) == "MEDICAL_SUPPORT" <==> SameWord(r, "MEDICAL_SUPPORT")
    ensures Upper(r) == "AMBULANCE" <==> SameWord(r, "AMBULANCE")
  {
    Capitals(r, "HELICOPTER");
    Capitals(r, "HAZMAT_UNIT");
    Capitals(r, "RESCUE_TEAM");
    Capitals(r, "FIRE_TRUCK");
    Capitals(r, "MEDICAL_SUPPORT");
    Capitals(r, "AMBULANCE");
  }

  lemma UrgencyByName(r: string)
    ensures Urgency(r) == Total([r]) && CountNamed([r]) == if Named(r) then 1 else 0
  {
    AllCapitals(r);
    assert [r][..0] == [];
    assert forall word :: Count([r], word) == if SameWord(r, word) then 1 else 0;
  }

  lemma CountAppend(rs: seq<string>, r: string, word: string)
    ensures Count(rs + [r], word) == Count(rs, word) + Count([r], word)
  {
    assert (rs + [r])[..|rs|] == rs && [r][..0] == [];
  }

  lemma TotalAppend(rs: seq<string>, r: string)
    ensures Total(rs + [r]) == Total(rs) + Total([r])
  {
    CountAppend(rs, r, "HELICOPTER");
    CountAppend(rs, r, "HAZMAT_UNIT");
    CountAppend(rs, r, "RESCUE_TEAM");
    CountAppend(rs, r, "FIRE_TRUCK");
    CountAppend(rs, r, "MEDICAL_SUPPORT");
    CountAppend(rs, r, "AMBULANCE");
  }

  lemma {:induction false} SumIsTotal(rs: seq<string>)
    ensures SumBy(Urgency, rs) == Total(rs)
  {
    if rs != [] {
      var n := |rs| - 1;
      SumIsTotal(rs[..n]);
      UrgencyByName(rs[n]);
      TotalAppend(rs[..n], rs[n]);
      assert rs == rs[..n] + [rs[n]];
    }
  }

  // The average urgency, weighted for the count in twentieths, rounded and capped.
  ghost predicate IsRequirementScore(e: int, rs: seq<string>) {
    if rs == [] then e == 10
    else
      var n := |rs|;
      var twentieths := if n <= 6 then 19 + n else 25;
      && e <= 100
      && (2 * e - 1) * (20 * n) <= 2 * Total(rs) * twentieths
      && (e < 100 ==> 2 * Total(rs) * twentieths < (2 * e + 1) * (20 * n))
  }

  lemma Twentieths(n: nat)
    requires n >= 1
    ensures 20.0 * CountMultiplier(n) == (if n <= 6 then 19 + n else 25) as real
  {}

  lemma ReachesInFigures(t: int, n: nat, s: int)
    requires n >= 1
    ensures Reaches(t, n, s) <==> (2 * s - 1) * (20 * n) <= 2 * t * (if n <= 6 then 19 + n else 25)
  {
    Twentieths(n);
    var m := if n <= 6 then 19 + n else 25;
    assert 40.0 * (t as real * CountMultiplier(n)) == 2.0 * t as real * (20.0 * CountMultiplier(n));
    assert 2.0 * t as real * m as real == (2 * t * m) as real;
    assert 40.0 * ((s as real - 0.5) * n as real) == ((2 * s - 1) * (20 * n)) as real;
  }

  lemma RequirementScoreInFigures(rs: seq<string>)
    ensures IsRequirementScore(RequirementScore(rs), rs)
  {
    if rs != [] {
      var e := RequirementScore(rs);
      SumIsTotal(rs);
      RequirementRange(rs);
      ScoreOfAtLeast(Total(rs), |rs|, e);
      ReachesInFigures(Total(rs), |rs|, e);
      if e < 100 {
        ScoreOfAtLeast(Total(rs), |rs|, e + 1);
        ReachesInFigures(Total(rs), |rs|, e + 1);
      }
    }
  }

  // ------------------------------------------------------------------ the whole score

  // The lowest of the five lines, rounded; nothing for nobody.
  ghost predicate IsPopulationScore(p: int, count: real) {
    if count <= 0.0 then p == 0
    else
      && (forall j: nat | j <= 4 :: (2 * p - 1) as real <= 2.0 * Line(j, count))
      && (exists j: nat :: j <= 4 && 2.0 * Line(j, count) < (2 * p + 1) as real)
  }

  lemma PopulationScoreInFigures(count: real)
    ensures IsPopulationScore(PopulationScore(count), count)
  {
    if count > 0.0 {
      var k := PopulationIsLowestLine(count);
      assert 2.0 * Line(k, count) < (2 * PopulationScore(count) + 1) as real;
    }
  }

  lemma Steps(a: int, b: int, n: nat)
    requires a <= b
    ensures a * n <= b * n
  {}

  // These conditions leave one value each.
  lemma FiguresAreUnique(p: int, p': int, count: real, e: int, e': int, rs: seq<string>)
    requires IsPopulationScore(p, count) && IsPopulationScore(p', count) && p <= p'
    requires IsRequirementScore(e, rs) && IsRequirementScore(e', rs) && e <= e'
    ensures p == p' && e == e'
  {
    if e < e' { Steps(2 * e + 1, 2 * e' - 1, 20 * |rs|); }
  }

  // Every input has exactly this score.
  lemma PriorityInFigures(i: Input) returns (p: int, e: int)
    ensures IsPopulationScore(p, i.affectedPeople) && IsRequirementScore(e, i.requirements)
    ensures CalculatePriority(i) ==
      7.5 * (Index(i.severity) + 1) as real + 6.25 * (Index(i.timeSensitivity) + 1) as real
      + 3.75 * (Index(i.risk) + 1) as real + 0.2 * p as real + 0.1 * e as real
  {
    p, e := PopulationScore(i.affectedPeople), RequirementScore(i.requirements);
    PopulationScoreInFigures(i.affectedPeople);
    RequirementScoreInFigures(i.requirements);
    ScoreIsExact(i);
    LevelsAreEven(i.severity);
    LevelsAreEven(i.timeSensitivity);
    LevelsAreEven(i.risk);
  }

  lemma AloneRounds(u: int)
    requires u <= 100
    ensures ScoreOf(u, 1) == u
  {
    assert Average(u, 1) * CountMultiplier(1) == u as real;
  }

  lemma AloneScores(r: string)
    ensures RequirementScore([r]) == Urgency(r)
  {
    assert [r][..0] == [];
    assert SumBy(Urgency, [r]) == Urgency(r);
    AloneRounds(Urgency(r));
  }

  lemma AloneAdds(i: Input, r: string)
    ensures CalculatePriority(i.(requirements := [r])) - CalculatePriority(i.(requirements := []))
         == 0.1 * (Urgency(r) - 10) as real
  {
    FactorsAreWeighted(i.(requirements := []), i.(requirements := [r]));
    AloneScores(r);
  }

  // What one requirement alone adds to an incident without any.
  lemma OneAloneAdds(i: Input, r: string)
    ensures var more := CalculatePriority(i.(requirements := [r])) - CalculatePriority(i.(requirements := []));
      && (SameWord(r, "HELICOPTER") || SameWord(r, "HAZMAT_UNIT") ==> more == 9.0)
      && (SameWord(r, "RESCUE_TEAM") ==> more == 7.5)
      && (SameWord(r, "FIRE_TRUCK") ==> more == 7.0)
      && (SameWord(r, "MEDICAL_SUPPORT") ==> more == 6.0)
      && (SameWord(r, "AMBULANCE") ==> more == 5.0)
      && (!Named(r) ==> more == 3.0)
  {
    AloneAdds(i, r);
    AllCapitals(r);
  }
}
