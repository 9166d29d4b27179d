/** The per-IP rate limiter, and what it admits over any sequence of requests. */
module RateLimiter {
  import opened Names
  import opened Counters

  datatype Verdict = Served | TooMany(retryAfter: nat)

  function RateKey(ip: string, now: nat): string {
    CounterKey(RATE_LIMIT, ip, MinuteOf(now))
  }

  /** The counter of an address in a minute, as text. */
  lemma RateKeyExactly(ip: string, now: nat)
    ensures RateKey(ip, now) == "ratelimit:" + ip + ":" + FormatInt(now / 60_000_000_000)
  {
    MinuteExactly(now);
    KeysExactly(ip, MinuteOf(now));
  }

  /** One request at time `now`. `cacheFails` is the cache returning an error,
      in which case the limiter lets the request through. */
  method RateLimit(c: CounterCache?, perMinute: int, ip: string, now: nat, cacheFails: bool)
    returns (v: Verdict)
    modifies c
    ensures perMinute <= 0 || c == null || cacheFails ==> v == Served
    ensures c != null && (perMinute <= 0 || cacheFails) ==> c.entries == old(c.entries)
    ensures c != null && perMinute > 0 && !cacheFails ==>
      && c.entries == Incremented(old(c.entries), RateKey(ip, now), 1, MINUTE, now)
      && RateKey(ip, now) in c.entries
      && v == if c.entries[RateKey(ip, now)].value > perMinute then TooMany(RetryAfter(now)) else Served
  {
    if perMinute <= 0 || c == null {
      return Served;
    }
    var key := RateKey(ip, now);
    if cacheFails {
      return Served;
    }
    var count := c.Increment(key, 1, MINUTE, now);
    if count > perMinute {
      return TooMany(RetryAfter(now));
    }
    return Served;
  }

  // ----- sequences of requests, with a clock that does not go back -----

  datatype Req = Req(ip: string, at: nat)

  ghost predicate Nondecreasing(reqs: seq<Req>) {
    forall i, j | 0 <= i <= j < |reqs| :: reqs[i].at <= reqs[j].at
  }

  /** The cache when the first `n` requests have been counted. */
  function CacheAfter(reqs: seq<Req>, n: nat): Cache
    requires n <= |reqs|
  {
    if n == 0 then map[] else
      var r := reqs[n - 1];
      Incremented(CacheAfter(reqs, n - 1), RateKey(r.ip, r.at), 1, MINUTE, r.at)
  }

  predicate Admits(perMinute: nat, reqs: seq<Req>, i: nat)
    requires i < |reqs|
  {
    ValueOf(CacheAfter(reqs, i + 1), RateKey(reqs[i].ip, reqs[i].at)) <= perMinute
  }

  /** An independent account: how many of the first `n` requests came from `ip` in
      minute `m`. */
  ghost function Requests(reqs: seq<Req>, n: nat, ip: string, m: nat): nat
    requires n <= |reqs|
  {
    if n == 0 then 0 else
      Requests(reqs, n - 1, ip, m) + if reqs[n - 1].ip == ip && MinuteOf(reqs[n - 1].at) == m then 1 else 0
  }

  ghost function Admitted(perMinute: nat, reqs: seq<Req>, n: nat, ip: string, m: nat): nat
    requires n <= |reqs|
  {
    if n == 0 then 0 else
      Admitted(perMinute, reqs, n - 1, ip, m)
      + if reqs[n - 1].ip == ip && MinuteOf(reqs[n - 1].at) == m && Admits(perMinute, reqs, n - 1) then 1 else 0
  }

  /** What `ip` got through in the 60 seconds from `from` on. */
  ghost function AdmittedInWindow(perMinute: nat, reqs: seq<Req>, n: nat, ip: string, from: nat): nat
    requires n <= |reqs|
  {
    if n == 0 then 0 else
      AdmittedInWindow(perMinute, reqs, n - 1, ip, from)
      + if reqs[n - 1].ip == ip && from <= reqs[n - 1].at < from + MINUTE && Admits(perMinute, reqs, n - 1) then 1 else 0
  }

  /** A counter that is there will not expire inside its own minute. */
  ghost predicate Outlives(c: Cache, key: string, minute: nat) {
    key in c ==> c[key].expires >= (minute + 1) * MINUTE
  }

  lemma Counted(c: Cache, key: string, at: nat, now: nat)
    requires at <= now && MinuteOf(at) == MinuteOf(now)
    requires Outlives(Live(c, at), key, MinuteOf(now))
    ensures var live := Live(Incremented(c, key, 1, MINUTE, at), now);
      && ValueOf(live, key) == ValueOf(Live(c, at), key) + 1
      && Outlives(live, key, MinuteOf(now))
  {
    MinuteBounds(now);
    MinuteBounds(at);
  }

  /** Inside its minute the cache's counter is the number of requests. */
  lemma {:induction false} CounterExact(reqs: seq<Req>, n: nat, ip: string, now: nat)
    requires Nondecreasing(reqs) && n <= |reqs| && (n > 0 ==> reqs[n - 1].at <= now)
    ensures var live, key := Live(CacheAfter(reqs, n), now), RateKey(ip, now);
      && ValueOf(live, key) == Requests(reqs, n, ip, MinuteOf(now))
      && Outlives(live, key, MinuteOf(now))
  {
    hide CounterKey, MinuteOf;
    if n > 0 {
      var r := reqs[n - 1];
      var key := RateKey(ip, now);
      assert n > 1 ==> reqs[n - 2].at <= r.at;
      if r.ip == ip && MinuteOf(r.at) == MinuteOf(now) {
        CounterExact(reqs, n - 1, ip, r.at);
        Counted(CacheAfter(reqs, n - 1), key, r.at, now);
      } else {
        CounterExact(reqs, n - 1, ip, now);
        if RateKey(r.ip, r.at) == key {
          CounterKeyInjective(RATE_LIMIT, r.ip, MinuteOf(r.at), ip, MinuteOf(now));
        }
      }
    }
  }

  /** The limiter admits a request if and only if fewer than `perMinute` requests
      of the same address came before it in the same minute. */
  lemma AdmitsExactly(perMinute: nat, reqs: seq<Req>, i: nat)
    requires Nondecreasing(reqs) && i < |reqs|
    ensures Admits(perMinute, reqs, i) <==>
      Requests(reqs, i, reqs[i].ip, MinuteOf(reqs[i].at)) < perMinute
  {
    CounterExact(reqs, i + 1, reqs[i].ip, reqs[i].at);
    assert ValueOf(Live(CacheAfter(reqs, i + 1), reqs[i].at), RateKey(reqs[i].ip, reqs[i].at))
        == ValueOf(CacheAfter(reqs, i + 1), RateKey(reqs[i].ip, reqs[i].at)) by {
      CounterFresh(reqs, i);
    }
  }

  lemma CounterFresh(reqs: seq<Req>, i: nat)
    requires Nondecreasing(reqs) && i < |reqs|
    ensures var r, c := reqs[i], CacheAfter(reqs, i + 1);
      RateKey(r.ip, r.at) in Live(c, r.at)
  {
  }

  /** Per calendar minute an address gets exactly its quota, or all it asked for. */
  lemma {:induction false} QuotaPerMinute(perMinute: nat, reqs: seq<Req>, n: nat, ip: string, m: nat)
    requires Nondecreasing(reqs) && n <= |reqs|
    ensures Admitted(perMinute, reqs, n, ip, m)
         == if Requests(reqs, n, ip, m) <= perMinute then Requests(reqs, n, ip, m) else perMinute
  {
    hide Admits, MinuteOf, Nondecreasing;
    if n > 0 {
      QuotaPerMinute(perMinute, reqs, n - 1, ip, m);
      AdmitsExactly(perMinute, reqs, n - 1);
    }
  }

  lemma {:induction false} WindowSpansTwoMinutes(perMinute: nat, reqs: seq<Req>, n: nat, ip: string, from: nat)
    requires n <= |reqs|
    ensures AdmittedInWindow(perMinute, reqs, n, ip, from)
         <= Admitted(perMinute, reqs, n, ip, MinuteOf(from)) + Admitted(perMinute, reqs, n, ip, MinuteOf(from) + 1)
  {
    hide Admits, MinuteOf;
    if n > 0 {
      WindowSpansTwoMinutes(perMinute, reqs, n - 1, ip, from);
      var at := reqs[n - 1].at;
      if from <= at < from + MINUTE {
        MinuteBounds(from);
        MinuteBounds(at);
        assert MinuteOf(from) <= MinuteOf(at) <= MinuteOf(from) + 1;
      }
    }
  }

  /** In any 60 seconds an address gets at most twice its quota. */
  lemma TwiceInAnyWindow(perMinute: nat, reqs: seq<Req>, ip: string, from: nat)
    requires Nondecreasing(reqs)
    ensures AdmittedInWindow(perMinute, reqs, |reqs|, ip, from) <= 2 * perMinute
  {
    WindowSpansTwoMinutes(perMinute, reqs, |reqs|, ip, from);
    QuotaPerMinute(perMinute, reqs, |reqs|, ip, MinuteOf(from));
    QuotaPerMinute(perMinute, reqs, |reqs|, ip, MinuteOf(from) + 1);
  }

  /** The Retry-After hint is rounded down, so a client that waits exactly that
      long reaches the next minute if and only if the time left is a whole number
      of seconds or less than one. */
  lemma RetryAfterReaches(now: nat)
    ensures 1 <= RetryAfter(now) <= 60
    ensures var left := (MinuteOf(now) + 1) * MINUTE - now;
      MinuteOf(now + RetryAfter(now) * SECOND) > MinuteOf(now) <==> left % SECOND == 0 || left < SECOND
  {
    var left := (MinuteOf(now) + 1) * MINUTE - now;
    MinuteBounds(now);
    MinuteBounds(now + RetryAfter(now) * SECOND);
    assert left == left / SECOND * SECOND + left % SECOND;
  }

  /** It does fall short: one nanosecond into a minute the hint is 59 seconds, and
      after 59 seconds the minute is still the same. */
  lemma RetryAfterFallsShort()
    ensures RetryAfter(1) == 59 && MinuteOf(1 + RetryAfter(1) * SECOND) == MinuteOf(1)
  {
    assert MinuteOf(1) == 0;
  }
}
