/**
 The lockout handler: whose counter a request uses, the check before authentication
 and the increment after a 401, and how each of the two carries out one step of the
 interleaved system.
 */
module LockoutHandler {
  import opened Counters
  import opened Names
  import opened Options
  import SqlLexer
  import System = LockoutUnderCap

  // ----- the identifier of a request -----

  /** `basicUser` is the user name of well-formed Basic credentials; the strings are
      empty when the header is absent. */
  datatype Headers = Headers(
    authorization: string,
    basicUser: Option<string>,
    apiKey: string,
    clientIp: string)

  /** What a failure is charged to. */
  datatype Credential = Key(prefix: string) | User(name: string) | Address(ip: string)

  function TrimSpace(s: string): (t: string)
    ensures t != [] ==> !SqlLexer.IsSpace(t[0]) && !SqlLexer.IsSpace(t[|t| - 1])
    ensures t == [] <==> forall i | 0 <= i < |s| :: SqlLexer.IsSpace(s[i])
    ensures forall c | c in t :: c in s
  {
    if s == [] then []
    else if SqlLexer.IsSpace(s[0]) then TrimSpace(s[1..])
    else if SqlLexer.IsSpace(s[|s| - 1]) then
      var t := TrimSpace(s[..|s| - 1]);
      assert s[..|s| - 1][0] == s[0];
      t
    else s
  }

  predicate HasScheme(h: string, scheme: string) {
    |scheme| <= |h| && forall i | 0 <= i < |scheme| :: SqlLexer.LowerByte(h[i]) == scheme[i]
  }

  /** What is left is the text without the blanks at its two ends. */
  lemma {:induction false} TrimSpaceCuts(s: string) returns (i: nat, j: nat)
    ensures i <= j <= |s| && TrimSpace(s) == s[i..j]
    ensures forall k | 0 <= k < i || j <= k < |s| :: SqlLexer.IsSpace(s[k])
    decreases |s|
  {
    if s == [] {
      i, j := 0, 0;
    } else if SqlLexer.IsSpace(s[0]) {
      i, j := TrimSpaceCuts(s[1..]);
      assert s[1..][i..j] == s[i + 1..j + 1];
      assert forall k | 1 <= k < |s| :: s[k] == s[1..][k - 1];
      i, j := i + 1, j + 1;
    } else if SqlLexer.IsSpace(s[|s| - 1]) {
      i, j := TrimSpaceCuts(s[..|s| - 1]);
      assert s[..|s| - 1][i..j] == s[i..j];
      assert forall k | 0 <= k < |s| - 1 :: s[k] == s[..|s| - 1][k];
    } else {
      i, j := 0, |s|;
    }
  }

  function KeyPrefix(key: string): string {
    if |key| > 8 then key[..8] else key
  }

  const APIKEY: string := "apikey "
  const BASIC: string := "basic "

  function Fallback(r: Headers): Credential {
    var v := TrimSpace(r.apiKey);
    if v != [] then Key(KeyPrefix(v)) else Address(r.clientIp)
  }

  /** The credential a request presents. */
  function Presented(r: Headers): Credential {
    if HasScheme(r.authorization, APIKEY) then
      var rest := TrimSpace(r.authorization[|APIKEY| - 1..]);
      if rest != [] then Key(KeyPrefix(rest)) else Fallback(r)
    else if HasScheme(r.authorization, BASIC) then
      if r.basicUser.Some? && r.basicUser.value != [] then User(r.basicUser.value) else Fallback(r)
    else Fallback(r)
  }

  lemma SchemeFolded(h: string, scheme: string)
    ensures HasScheme(h, scheme) <==> |h| >= |scheme| && SqlLexer.Lower(h[..|scheme|]) == scheme
  {
    if |h| >= |scheme| {
      SqlLexer.LowerLength(h[..|scheme|]);
      forall i | 0 <= i < |scheme|
        ensures SqlLexer.Lower(h[..|scheme|])[i] == SqlLexer.LowerByte(h[i])
      {
        SqlLexer.LowerAt(h[..|scheme|], i);
      }
    }
  }

  /** Which header wins, as a decision table: a non-blank key behind "apikey", in any
      case; else the user of well-formed Basic credentials; else a non-blank X-API-Key;
      else the address. Of a key its first eight characters are taken. */
  lemma PresentedExactly(r: Headers)
    ensures var h := r.authorization;
      var keyed := |h| >= 7 && SqlLexer.Lower(h[..7]) == "apikey ";
      var basic := |h| >= 6 && SqlLexer.Lower(h[..6]) == "basic ";
      var inline := if keyed then TrimSpace(h[6..]) else [];
      var header := TrimSpace(r.apiKey);
      Presented(r) ==
        if inline != [] then Key(if |inline| > 8 then inline[..8] else inline)
        else if basic && r.basicUser.Some? && r.basicUser.value != [] then User(r.basicUser.value)
        else if header != [] then Key(if |header| > 8 then header[..8] else header)
        else Address(r.clientIp)
  {
    SchemeFolded(r.authorization, "apikey ");
    SchemeFolded(r.authorization, "basic ");
    hide SqlLexer.Lower, SqlLexer.LowerByte;
    var h := r.authorization;
    if |h| >= 7 && SqlLexer.Lower(h[..7]) == "apikey " && SqlLexer.Lower(h[..6]) == "basic " {
      SqlLexer.LowerAt(h[..7], 0);
      SqlLexer.LowerAt(h[..6], 0);
      assert false;
    }
  }

  function LockoutId(c: Credential): string {
    match c
    case Key(p) => "k:" + p
    case User(n) => "u:" + n
    case Address(ip) => "ip:" + ip
  }

  /** Different credentials or minutes are charged to different counters, and no
      counter of the rate limiter is among them. */
  lemma ChargedApart(a: Credential, m: int, b: Credential, n: int, ip: string, k: int)
    ensures CounterKey(AUTH_FAIL, LockoutId(a), m) == CounterKey(AUTH_FAIL, LockoutId(b), n) <==> a == b && m == n
    ensures CounterKey(AUTH_FAIL, LockoutId(a), m) != CounterKey(RATE_LIMIT, ip, k)
  {
    hide CounterKey;
    KeySpacesDisjoint(ip, k, LockoutId(a), m);
    if CounterKey(AUTH_FAIL, LockoutId(a), m) == CounterKey(AUTH_FAIL, LockoutId(b), n) {
      CounterKeyInjective(AUTH_FAIL, LockoutId(a), m, LockoutId(b), n);
      LockoutIdInjective(a, b);
    }
  }

  lemma LockoutIdInjective(a: Credential, b: Credential)
    requires LockoutId(a) == LockoutId(b)
    ensures a == b
  {
    var s, t := LockoutId(a), LockoutId(b);
    assert s[0] == t[0] && s[2..] == t[2..] && (a.Address? ==> s[3..] == a.ip) && (b.Address? ==> t[3..] == b.ip);
  }

  /** The counter a credential's failures are charged to, as text. */
  lemma FailureKeyExactly(c: Credential, minute: int)
    ensures CounterKey(AUTH_FAIL, LockoutId(c), minute) ==
      "authfail:" + (match c case Key(p) => "k:" + p case User(n) => "u:" + n case Address(ip) => "ip:" + ip)
      + ":" + FormatInt(minute)
  {
    KeysExactly(LockoutId(c), minute);
  }

  /** Of an API key at most eight characters enter a counter key, so two keys are
      charged together if and only if these agree. */
  lemma KeysChargedTogether(r: Headers, s: Headers)
    requires Presented(r).Key? && Presented(s).Key?
    ensures |Presented(r).prefix| <= 8
    ensures LockoutId(Presented(r)) == LockoutId(Presented(s)) <==> Presented(r).prefix == Presented(s).prefix
  {
    if LockoutId(Presented(r)) == LockoutId(Presented(s)) {
      LockoutIdInjective(Presented(r), Presented(s));
    }
  }

  // ----- the two cache operations, as steps of the system -----

  /** Reads the running total, seeding the window on first use. */
  method CheckFailures(c: CounterCache, limit: nat, id: string, now: nat, ghost s: System.State, ghost t: nat)
    returns (locked: bool)
    requires s.cache == c.entries && s.now == now && s.limit == limit
    requires t in s.pcs && s.pcs[t].Arrived? && s.pcs[t].id == id
    modifies c
    ensures c.entries == System.Apply(s, System.Check(t)).cache
    ensures System.Apply(s, System.Check(t)).pcs[t]
         == if locked then System.Leaving(s.pcs[t].chain) else System.Passed(s.pcs[t].chain, id, MinuteOf(now))
  {
    var count := c.Increment(CounterKey(AUTH_FAIL, id, MinuteOf(now)), 0, MINUTE, now);
    locked := count >= limit;
  }

  /** Charges a 401 to the window the check was made in, whatever the time is now. */
  method RecordFailure(c: CounterCache, id: string, minute: nat, now: nat, ghost s: System.State, ghost t: nat)
    requires s.cache == c.entries && s.now == now && t in s.pcs && s.pcs[t].Refused? && s.pcs[t].id == id && s.pcs[t].minute == minute
    modifies c
    ensures c.entries == System.Apply(s, System.Record(t)).cache
  {
    var _ := c.Increment(CounterKey(AUTH_FAIL, id, minute), 1, MINUTE, now);
  }

  // ----- the whole handler, for a request nobody interferes with -----

  datatype Answer = LockedOut(retryAfter: nat) | Downstream(status: nat)

  const UNAUTHORIZED := 401

  /** `status` is what the handlers below answer at time `later`; the flags are the
      cache returning an error. */
  method BruteForceLockout(c: CounterCache?, maxFailures: int, r: Headers, now: nat, later: nat, status: nat,
                           checkFails: bool, recordFails: bool)
    returns (answer: Answer)
    requires now <= later
    modifies c
    ensures maxFailures <= 0 || c == null ==> answer == Downstream(status)
    ensures c != null && maxFailures <= 0 ==> c.entries == old(c.entries)
    ensures c != null && maxFailures > 0 ==>
      var key := CounterKey(AUTH_FAIL, LockoutId(Presented(r)), MinuteOf(now));
      var before := old(c.entries);
      var checked := if checkFails then before else Incremented(before, key, 0, MINUTE, now);
      var locked := !checkFails && key in before && now < before[key].expires && before[key].value >= maxFailures;
      && answer == (if locked then LockedOut(RetryAfter(now)) else Downstream(status))
      && c.entries == if !locked && status == 401 && !recordFails
                      then Incremented(checked, key, 1, MINUTE, later) else checked
  {
    if maxFailures <= 0 || c == null {
      return Downstream(status);
    }
    var limit: nat := maxFailures;
    var id := LockoutId(Presented(r));
    var minute := MinuteOf(now);
    var key := CounterKey(AUTH_FAIL, id, minute);
    if !checkFails {
      var count := c.Increment(key, 0, MINUTE, now);
      if count >= limit {
        return LockedOut(RetryAfter(now));
      }
    }
    if status == UNAUTHORIZED {
      if !recordFails {
        var _ := c.Increment(key, 1, MINUTE, later);
      }
    }
    return Downstream(status);
  }
}
