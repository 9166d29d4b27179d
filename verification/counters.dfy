/**
 The fixed-window counters of the shared cache, and the per-IP rate limiter built
 on them. Times are nanoseconds since the Unix epoch.
 */
module Counters {
  import opened Names

  const SECOND: nat := 1_000_000_000
  const MINUTE: nat := 60 * SECOND

  /** now.Unix() / 60 */
  function MinuteOf(now: nat): nat {
    now / SECOND / 60
  }

  /** The minute of a time in nanoseconds. */
  lemma MinuteExactly(now: nat)
    ensures MinuteOf(now) == now / 60_000_000_000 && MINUTE == 60_000_000_000
  {
  }

  lemma MinuteBounds(now: nat)
    ensures MinuteOf(now) * MINUTE <= now < (MinuteOf(now) + 1) * MINUTE
  {
  }

  lemma MinuteMonotone(a: nat, b: nat)
    requires a <= b
    ensures MinuteOf(a) <= MinuteOf(b)
  {
  }

  datatype Entry = Entry(value: nat, expires: nat)
  type Cache = map<string, Entry>

  /** What has not expired. */
  function Live(c: Cache, now: nat): Cache {
    map k | k in c && now < c[k].expires :: c[k]
  }

  function ValueOf(c: Cache, key: string): nat {
    if key in c then c[key].value else 0
  }

  /** The cache after Increment: seeded with the time to live on first use, and
      the expiry kept after that. */
  function Incremented(c: Cache, key: string, delta: nat, ttl: nat, now: nat): Cache {
    var live := Live(c, now);
    var entry := if key in live then live[key] else Entry(0, now + ttl);
    live[key := Entry(entry.value + delta, entry.expires)]
  }

  /** An expired or missing counter starts again at zero with a new expiry, a live one
      goes on with the expiry it had; of the others exactly the live ones stay. */
  lemma IncrementedExactly(c: Cache, key: string, delta: nat, ttl: nat, now: nat)
    ensures var next := Incremented(c, key, delta, ttl, now);
      && key in next
      && (key in c && now < c[key].expires ==> next[key] == Entry(c[key].value + delta, c[key].expires))
      && (key !in c || now >= c[key].expires ==> next[key] == Entry(delta, now + ttl))
      && forall k | k != key ::
           && (k in next <==> k in c && now < c[k].expires)
           && (k in next ==> next[k] == c[k])
  {
  }

  class CounterCache {
    var entries: Cache

    constructor ()
      ensures entries == map[]
    {
      entries := map[];
    }

    method Increment(key: string, delta: nat, ttl: nat, now: nat) returns (value: nat)
      modifies this
      ensures entries == Incremented(old(entries), key, delta, ttl, now)
      ensures value == delta + if key in old(entries) && now < old(entries)[key].expires then old(entries)[key].value else 0
      ensures value == ValueOf(entries, key)
    {
      entries := Live(entries, now);
      if key !in entries {
        entries := entries[key := Entry(0, now + ttl)];
      }
      value := entries[key].value + delta;
      entries := entries[key := Entry(value, entries[key].expires)];
    }
  }

  function RetryAfter(now: nat): nat {
    var secs := ((MinuteOf(now) + 1) * MINUTE - now) / SECOND;
    if secs < 1 then 1 else secs
  }
}
