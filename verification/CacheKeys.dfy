// The cache keys of the hospital views, as the strings that reach Redis.

module CacheKeys {

  const HOSPITAL := "hospital:"
  const HOSPITAL_LIST := "hospital:list"
  const LIST := "list:"
  const AVAILABILITY := ":availability"

  function ById(id: string): string { HOSPITAL + id }

  function Availability(id: string): string { HOSPITAL + (id + AVAILABILITY) }

  function Decimal(n: nat): string {
    if n < 10 then [Digit(n)] else Decimal(n / 10) + [Digit(n % 10)]
  }

  function Digit(d: nat): char
    requires d < 10
  {
    ('0' as int + d) as char
  }

  // `s:${status}_p:${page}_l:${limit}`
  function Query(status: string, page: nat, limit: nat): string {
    "s:" + status + ("_" + ("p:" + Decimal(page) + ("_" + ("l:" + Decimal(limit)))))
  }

  function ListQuery(status: string, page: nat, limit: nat): string {
    HOSPITAL + (LIST + Query(status, page, limit))
  }

  // What 'hospital:list:*' matches.
  predicate IsListKey(key: string) { HOSPITAL + LIST <= key }

  predicate Plain(id: string) { ':' !in id }

  lemma Cancel(p: string, a: string, b: string)
    requires p + a == p + b
    ensures a == b
  {
    assert a == (p + a)[|p|..] && b == (p + b)[|p|..];
  }

  lemma CancelRight(a: string, b: string, p: string)
    requires a + p == b + p
    ensures a == b
  {
    assert a == (a + p)[..|a + p| - |p|] && b == (b + p)[..|b + p| - |p|];
  }

  lemma ByIdInjective(a: string, b: string)
    requires ById(a) == ById(b)
    ensures a == b
  {
    Cancel(HOSPITAL, a, b);
  }

  lemma AvailabilityInjective(a: string, b: string)
    requires Availability(a) == Availability(b)
    ensures a == b
  {
    Cancel(HOSPITAL, a + AVAILABILITY, b + AVAILABILITY);
    CancelRight(a, b, AVAILABILITY);
  }

  lemma ByIdIsAvailability(a: string, b: string)
    ensures ById(a) == Availability(b) <==> a == b + AVAILABILITY
    ensures !Plain(b + AVAILABILITY)
  {
    if ById(a) == Availability(b) { Cancel(HOSPITAL, a, b + AVAILABILITY); }
    assert (b + AVAILABILITY)[|b|] == ':';
  }

  lemma ByIdIsListQuery(a: string, status: string, page: nat, limit: nat)
    ensures ById(a) == ListQuery(status, page, limit) <==> a == LIST + Query(status, page, limit)
    ensures !Plain(LIST + Query(status, page, limit))
    ensures IsListKey(ListQuery(status, page, limit))
  {
    if ById(a) == ListQuery(status, page, limit) { Cancel(HOSPITAL, a, LIST + Query(status, page, limit)); }
    assert (LIST + Query(status, page, limit))[4] == ':';
    assert HOSPITAL + (LIST + Query(status, page, limit)) == HOSPITAL + LIST + Query(status, page, limit);
  }

  predicate IsDigit(c: char) { '0' <= c <= '9' }

  lemma {:induction false} DecimalDigits(n: nat)
    ensures Decimal(n) != [] && forall k | 0 <= k < |Decimal(n)| :: IsDigit(Decimal(n)[k])
  {
    if n >= 10 { DecimalDigits(n / 10); }
  }

  // A list key ends in a digit, an availability key in a letter.
  lemma AvailabilityIsNoListQuery(a: string, status: string, page: nat, limit: nat)
    ensures Availability(a) != ListQuery(status, page, limit)
  {
    DecimalDigits(limit);
    var k, l := Availability(a), ListQuery(status, page, limit);
    assert k[|k| - 1] == AVAILABILITY[|AVAILABILITY| - 1] == 'y';
    assert l[|l| - 1] == Decimal(limit)[|Decimal(limit)| - 1];
  }

  lemma {:induction false} DecimalInjective(m: nat, n: nat)
    requires Decimal(m) == Decimal(n)
    ensures m == n
  {
    DecimalDigits(m / 10);
    DecimalDigits(n / 10);
    if m >= 10 && n >= 10 {
      var a, b := Decimal(m / 10), Decimal(n / 10);
      assert Decimal(m)[..|Decimal(m)| - 1] == a && Decimal(n)[..|Decimal(n)| - 1] == b;
      assert Decimal(m)[|a|] == Digit(m % 10) && Decimal(n)[|b|] == Digit(n % 10);
      DecimalInjective(m / 10, n / 10);
    }
  }

  // The text before the first c determines the split.
  lemma SplitUnique(a: string, x: string, b: string, y: string, c: char)
    requires c !in a && c !in b
    requires a + ([c] + x) == b + ([c] + y)
    ensures a == b && x == y
  {
    var s, t := a + ([c] + x), b + ([c] + y);
    assert s[|a|] == c && t[|b|] == c;
    assert |a| == |b|;
    assert a == s[..|a|] && b == t[..|b|];
    assert x == s[|a| + 1..] && y == t[|b| + 1..];
  }

  lemma ListQueryInjective(status: string, page: nat, limit: nat, status': string, page': nat, limit': nat)
    requires '_' !in status && '_' !in status'
    requires ListQuery(status, page, limit) == ListQuery(status', page', limit')
    ensures status == status' && page == page' && limit == limit'
  {
    Cancel(HOSPITAL, LIST + Query(status, page, limit), LIST + Query(status', page', limit'));
    Cancel(LIST, Query(status, page, limit), Query(status', page', limit'));
    DecimalDigits(page);
    DecimalDigits(page');
    var p, p' := "p:" + Decimal(page), "p:" + Decimal(page');
    var l, l' := "l:" + Decimal(limit), "l:" + Decimal(limit');
    SplitUnique("s:" + status, p + ("_" + l), "s:" + status', p' + ("_" + l'), '_');
    SplitUnique(p, l, p', l', '_');
    Cancel("s:", status, status');
    Cancel("p:", Decimal(page), Decimal(page'));
    Cancel("l:", Decimal(limit), Decimal(limit'));
    DecimalInjective(page, page');
    DecimalInjective(limit, limit');
  }

  // ------------------------------------------------------------------ numbers in keys

  function Value(digits: string): int {
    if digits == [] then 0
    else 10 * Value(digits[..|digits| - 1]) + (digits[|digits| - 1] as int - '0' as int)
  }

  // A number in a key is its decimal numeral, without leading zeros.
  lemma {:induction false} DecimalReadsBack(n: nat)
    ensures forall c <- Decimal(n) :: IsDigit(c)
    ensures Value(Decimal(n)) == n && (n > 0 ==> Decimal(n)[0] != '0')
  {
    DecimalDigits(n);
    if n >= 10 {
      DecimalReadsBack(n / 10);
      assert Decimal(n)[..|Decimal(n)| - 1] == Decimal(n / 10);
    } else {
      assert Decimal(n)[..0] == [];
    }
  }
}
