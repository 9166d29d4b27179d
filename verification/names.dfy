/**
 The strings the server builds from numbers: decimal numerals, counter keys and
 role names, and why different inputs never share one.
 */
module Names {
  import opened Options

  // ----- decimal numerals -----

  function Digit(d: nat): char
    requires d < 10
  {
    ('0' as int + d) as char
  }

  function Digits(n: nat): (s: string)
    ensures s != []
    ensures forall i | 0 <= i < |s| :: '0' <= s[i] <= '9'
  {
    if n < 10 then [Digit(n)] else Digits(n / 10) + [Digit(n % 10)]
  }

  /** strconv.FormatInt in base 10, and "%d". */
  function FormatInt(i: int): string {
    if i < 0 then "-" + Digits(-i) else Digits(i)
  }

  /** Reads a string of decimal digits. */
  function ReadDigits(s: string): int {
    if s == [] then 0 else 10 * ReadDigits(s[..|s| - 1]) + (s[|s| - 1] as int - '0' as int)
  }

  /** Reading a numeral back in base ten gives the number. It has a minus sign exactly
      when the number is negative, digits otherwise, and no leading zero. */
  lemma NumeralReadsBack(i: int)
    ensures var s := FormatInt(i);
      var digits := if i < 0 then s[1..] else s;
      && (i < 0 ==> s[0] == '-') && digits != []
      && (forall k | 0 <= k < |digits| :: '0' <= digits[k] <= '9')
      && ReadDigits(digits) == (if i < 0 then -i else i)
      && (|digits| > 1 ==> digits[0] != '0')
  {
    var n := if i < 0 then -i else i;
    DigitsReadBack(n);
    assert FormatInt(i) == if i < 0 then "-" + Digits(n) else Digits(n);
  }

  lemma {:induction false} DigitsReadBack(n: nat)
    ensures ReadDigits(Digits(n)) == n && (n > 0 ==> Digits(n)[0] != '0') && (n < 10 ==> |Digits(n)| == 1)
  {
    if n < 10 {
      assert Digits(n)[..0] == [];
    } else {
      DigitsReadBack(n / 10);
      var s := Digits(n);
      assert s[..|s| - 1] == Digits(n / 10) && s[|s| - 1] == Digit(n % 10);
    }
  }

  lemma {:induction false} DigitsInjective(m: nat, n: nat)
    requires Digits(m) == Digits(n)
    ensures m == n
  {
    var a, b := Digits(m), Digits(n);
    assert a[|a| - 1] == Digit(m % 10) && b[|b| - 1] == Digit(n % 10);
    assert (m >= 10 <==> |a| >= 2) && (n >= 10 <==> |b| >= 2);
    if m >= 10 && n >= 10 {
      assert Digits(m / 10) == a[..|a| - 1] && Digits(n / 10) == b[..|b| - 1];
      DigitsInjective(m / 10, n / 10);
    }
  }

  lemma FormatIntInjective(i: int, j: int)
    requires FormatInt(i) == FormatInt(j)
    ensures i == j
  {
    assert Digits(if i < 0 then -i else i)[0] != '-' && Digits(if j < 0 then -j else j)[0] != '-';
    if i < 0 && j < 0 {
      assert FormatInt(i)[1..] == Digits(-i) && FormatInt(j)[1..] == Digits(-j);
      DigitsInjective(-i, -j);
    } else if i >= 0 && j >= 0 {
      DigitsInjective(i, j);
    }
  }

  // ----- counter keys -----

  const RATE_LIMIT: string := "ratelimit:"
  const AUTH_FAIL: string := "authfail:"

  function CounterKey(space: string, id: string, minute: int): string {
    space + id + ":" + FormatInt(minute)
  }

  lemma NumeralHasNoColon(i: int)
    ensures ':' !in FormatInt(i)
  {
    var d := Digits(if i < 0 then -i else i);
    assert forall k | 0 <= k < |d| :: d[k] != ':';
  }

  lemma LastColonSplits(x: string, d: string, y: string, e: string)
    requires x + ":" + d == y + ":" + e && ':' !in d && ':' !in e
    ensures x == y && d == e
  {
    if |x| < |y| { ShorterHasColon(x, d, y, e); }
    if |y| < |x| { ShorterHasColon(y, e, x, d); }
    var s := x + ":" + d;
    assert s[..|x|] == x && s[|x| + 1..] == d;
    assert s == y + ":" + e && (y + ":" + e)[..|y|] == y && (y + ":" + e)[|y| + 1..] == e;
  }

  lemma ShorterHasColon(x: string, d: string, y: string, e: string)
    requires x + ":" + d == y + ":" + e && |x| < |y|
    ensures ':' in d
  {
    assert (x + ":" + d)[|y|] == (y + ":" + e)[|y|] == ':';
    assert d[|y| - |x| - 1] == ':';
  }

  /** A counter belongs to one identifier and one minute, even when the identifier
      is an address with colons in it. */
  lemma CounterKeyInjective(space: string, a: string, m: int, b: string, n: int)
    requires CounterKey(space, a, m) == CounterKey(space, b, n)
    ensures a == b && m == n
  {
    NumeralHasNoColon(m);
    NumeralHasNoColon(n);
    LastColonSplits(space + a, FormatInt(m), space + b, FormatInt(n));
    assert (space + a)[|space|..] == a && (space + b)[|space|..] == b;
    FormatIntInjective(m, n);
  }

  /** The two limiters share one cache and never a key. */
  lemma KeySpacesDisjoint(a: string, m: int, b: string, n: int)
    ensures CounterKey(RATE_LIMIT, a, m) != CounterKey(AUTH_FAIL, b, n)
  {
    assert CounterKey(RATE_LIMIT, a, m)[0] == 'r' && CounterKey(AUTH_FAIL, b, n)[0] == 'a';
  }

  // ----- role names -----

  const MAX_ROLE_NAME_BYTES := 63

  predicate IsPrefixStart(c: char) {
    'a' <= c <= 'z' || c == '_'
  }

  predicate ValidPrefix(prefix: string) {
    prefix != [] && IsPrefixStart(prefix[0]) && forall i | 0 <= i < |prefix| ::
      IsPrefixStart(prefix[i]) || '0' <= prefix[i] <= '9'
  }

  datatype NameError = InvalidPrefix | TooLong

  function RoleName(prefix: string, userId: int): Result<string, NameError> {
    if !ValidPrefix(prefix) then Err(InvalidPrefix)
    else
      var name := prefix + FormatInt(userId);
      if |name| > MAX_ROLE_NAME_BYTES then Err(TooLong) else Ok(name)
  }

  predicate HasManagedPrefix(name: string, prefix: string) {
    |name| > |prefix| && name[..|prefix|] == prefix
  }

  /** A role name is the prefix and the numeral, if the prefix begins with a small
      letter or underscore, goes on with these and digits, and the whole fits into 63
      bytes; the prefix is checked first. */
  lemma RoleNameExactly(prefix: string, userId: int)
    ensures var valid := prefix != [] && !('0' <= prefix[0] <= '9')
        && forall i | 0 <= i < |prefix| ::
             'a' <= prefix[i] <= 'z' || '0' <= prefix[i] <= '9' || prefix[i] == '_';
      RoleName(prefix, userId) ==
        if !valid then Err(InvalidPrefix)
        else if |prefix| + |FormatInt(userId)| > 63 then Err(TooLong)
        else Ok(prefix + FormatInt(userId))
  {
  }

  /** A name is managed if and only if it is the prefix followed by something. */
  lemma ManagedExactly(name: string, prefix: string)
    ensures HasManagedPrefix(name, prefix) <==> exists rest: string :: rest != [] && name == prefix + rest
  {
    if HasManagedPrefix(name, prefix) {
      assert name == prefix + name[|prefix|..];
    }
  }

  /** The keys under which the two limiters count. */
  lemma KeysExactly(id: string, minute: int)
    ensures CounterKey(RATE_LIMIT, id, minute) == "ratelimit:" + id + ":" + FormatInt(minute)
    ensures CounterKey(AUTH_FAIL, id, minute) == "authfail:" + id + ":" + FormatInt(minute)
  {
  }

  /** Every derived name is recognised as managed, and belongs to one user. */
  lemma RoleNameIdentifies(prefix: string, i: int, j: int)
    requires RoleName(prefix, i).Ok?
    ensures HasManagedPrefix(RoleName(prefix, i).value, prefix)
    ensures RoleName(prefix, j) == RoleName(prefix, i) ==> i == j
  {
    var name := prefix + FormatInt(i);
    assert name[..|prefix|] == prefix && name[|prefix|..] == FormatInt(i);
    assert (prefix + FormatInt(j))[|prefix|..] == FormatInt(j);
    if RoleName(prefix, j) == RoleName(prefix, i) {
      FormatIntInjective(i, j);
    }
  }

}
