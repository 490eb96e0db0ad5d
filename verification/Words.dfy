// Comparing resource types regardless of letter case, without a word about upper-casing.

module Words {
  import opened Domain

  // The same letter, or the two cases of one ASCII letter.
  predicate SameLetter(a: char, b: char) {
    || a == b
    || ('a' <= a <= 'z' && 'A' <= b <= 'Z' && a - 'a' == b - 'A')
    || ('A' <= a <= 'Z' && 'a' <= b <= 'z' && a - 'A' == b - 'a')
  }

  predicate SameWord(s: string, t: string) {
    |s| == |t| && forall k | 0 <= k < |s| :: SameLetter(s[k], t[k])
  }

  // A list of required types accepts a type if it is empty or names it.
  predicate Accepts(requirements: seq<string>, kind: string) {
    requirements == [] || exists k | 0 <= k < |requirements| :: SameWord(requirements[k], kind)
  }

  lemma UpperMeansSameWord(s: string, t: string)
    ensures Upper(s) == Upper(t) <==> SameWord(s, t)
  {
    if SameWord(s, t) {
      assert forall k | 0 <= k < |s| :: SameLetter(s[k], t[k]) && Upper(s)[k] == Upper(t)[k];
    } else if |s| == |t| {
      var k :| 0 <= k < |s| && !SameLetter(s[k], t[k]);
      assert Upper(s)[k] != Upper(t)[k];
    } else {
      assert |Upper(s)| != |Upper(t)|;
    }
  }

  lemma TypeMatchesIff(kind: string, requirements: seq<string>)
    ensures TypeMatches(kind, requirements) <==> Accepts(requirements, kind)
  {
    forall k | 0 <= k < |requirements|
      ensures Upper(requirements[k]) == Upper(kind) <==> SameWord(requirements[k], kind)
    {
      UpperMeansSameWord(requirements[k], kind);
    }
  }
}
