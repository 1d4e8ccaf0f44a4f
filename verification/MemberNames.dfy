/**
 The sorted-set members of ratelimit/redis.go: prefix, millisecond timestamp and counter
 joined by colons. Distinct (prefix, counter) pairs never collide.
 */
module MemberNames {

  function Digit(d: nat): char
    requires d < 10
  {
    '0' + d as char
  }

  /** strconv.FormatUint in base 10. */
  function Decimal(n: nat): (s: string)
    ensures s != [] && ':' !in s
  {
    if n < 10 then [Digit(n)] else Decimal(n / 10) + [Digit(n % 10)]
  }

  /** strconv.FormatInt in base 10. */
  function Signed(n: int): (s: string)
    ensures ':' !in s
  {
    if n < 0 then "-" + Decimal(-n) else Decimal(n)
  }

  function Value(s: string): int {
    if s == [] then 0 else 10 * Value(s[..|s| - 1]) + (s[|s| - 1] as int - '0' as int)
  }

  lemma {:induction false} DecimalValue(n: nat)
    ensures Value(Decimal(n)) == n
  {
    if n < 10 {
      assert Decimal(n)[..0] == [];
    } else {
      DecimalValue(n / 10);
      assert Decimal(n)[..|Decimal(n)| - 1] == Decimal(n / 10);
    }
  }

  function Name(prefix: string, now: int, counter: nat): string {
    prefix + ":" + Signed(now) + ":" + Decimal(counter)
  }

  /** A text splits at its first colon in only one way. */
  lemma {:induction false} SplitUnique(p: string, x: string, q: string, y: string)
    requires ':' !in p && ':' !in q && p + ":" + x == q + ":" + y
    ensures p == q && x == y
  {
    FirstColon(p, x);
    FirstColon(q, y);
  }

  lemma {:induction false} FirstColon(p: string, x: string)
    requires ':' !in p
    ensures var s := p + ":" + x;
            && s[|p|] == ':' && (forall i :: 0 <= i < |p| ==> s[i] != ':')
            && p == s[..|p|] && x == s[|p| + 1..]
  {
    var s := p + ":" + x;
    assert forall i :: 0 <= i < |p| ==> s[i] == p[i];
  }

  /** With colon-free prefixes, equal members come from the same prefix and counter. */
  lemma {:induction false} NameInjective(p: string, n: int, c: nat, p': string, n': int, c': nat)
    requires ':' !in p && ':' !in p' && Name(p, n, c) == Name(p', n', c')
    ensures p == p' && c == c'
  {
    var x, x' := Signed(n) + ":" + Decimal(c), Signed(n') + ":" + Decimal(c');
    assert Name(p, n, c) == p + ":" + x;
    assert Name(p', n', c') == p' + ":" + x';
    SplitUnique(p, x, p', x');
    SplitUnique(Signed(n), Decimal(c), Signed(n'), Decimal(c'));
    DecimalValue(c);
    DecimalValue(c');
  }
}
