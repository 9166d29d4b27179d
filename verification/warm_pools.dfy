/**
 The role pools as they are inside the mutex: lazily created pools, and the LRU
 that lets only some of them keep idle connections.
 */
module WarmPools {
  import opened Counting
  import opened Options
  import opened Sorting

  /** A pool: its handle, the time of the last Acquire, the flag, and the idle
      setting of the underlying database/sql pool. */
  datatype Pool = Pool(handle: nat, lastUsed: int, cooled: bool, idle: int)
  type Pools = map<string, Pool>

  // ----- which roles cool down -----

  datatype Use = Use(role: string, at: int)

  /** Oldest first; ties are broken by the role name. */
  predicate Older(a: Use, b: Use) {
    if a.at == b.at then Less(a.role, b.role) else a.at < b.at
  }

  const OLDER: (Use, Use) -> bool := (a: Use, b: Use) => Older(a, b)

  function Uses(lastUsed: map<string, int>): set<Use> {
    set r | r in lastUsed :: Use(r, lastUsed[r])
  }

  /** The roles used after `role`. */
  ghost function Newer(lastUsed: map<string, int>, role: string): set<string>
    requires role in lastUsed
  {
    set r | r in lastUsed && Older(Use(role, lastUsed[role]), Use(r, lastUsed[r]))
  }

  function Keep(warmLimit: int): nat {
    if warmLimit < 0 then 0 else warmLimit
  }

  /** A role gives up its idle connections when as many roles as may stay warm were
      used after it. */
  ghost function CoolSet(lastUsed: map<string, int>, warmLimit: int): set<string> {
    set r | r in lastUsed && |Newer(lastUsed, r)| >= Keep(warmLimit)
  }

  lemma OlderIsStrict()
    ensures StrictWeak(OLDER)
  {
    forall a, b
      ensures OLDER(a, b) ==> !OLDER(b, a)
    {
      LessTotal(a.role, b.role);
    }
    forall a, b, c
      ensures OLDER(a, c) ==> OLDER(a, b) || OLDER(b, c)
    {
      if a.at == b.at == c.at && OLDER(a, c) { LessWeak(a.role, b.role, c.role); }
    }
  }

  function RolesOf(entries: seq<Use>): set<string> {
    set e | e in entries :: e.role
  }

  lemma RolesOfSize(lastUsed: map<string, int>, entries: seq<Use>, lo: nat, hi: nat)
    requires Lists(entries, Uses(lastUsed)) && lo <= hi <= |entries|
    ensures |RolesOf(entries[lo..hi])| == hi - lo
    decreases hi - lo
  {
    hide Lists, Uses, RolesOf;
    if lo < hi {
      RolesOfSize(lastUsed, entries, lo, hi - 1);
      UsesByRole(lastUsed, entries, lo, hi - 1);
      RolesOfLonger(entries[lo..hi - 1], entries[hi - 1]);
      assert entries[lo..hi] == entries[lo..hi - 1] + [entries[hi - 1]];
    } else {
      NobodyListed();
      assert entries[lo..hi] == [];
    }
  }

  lemma NobodyListed()
    ensures RolesOf([]) == {}
  {
  }

  lemma RolesOfLonger(entries: seq<Use>, e: Use)
    ensures RolesOf(entries + [e]) == RolesOf(entries) + {e.role}
  {
    assert e in entries + [e];
  }

  lemma UsesByRole(lastUsed: map<string, int>, entries: seq<Use>, lo: nat, at: nat)
    requires Lists(entries, Uses(lastUsed)) && lo <= at < |entries|
    ensures entries[at].role !in RolesOf(entries[lo..at])
  {
    ListsFacts(entries, Uses(lastUsed));
    forall e | e in entries[lo..at]
      ensures e.role != entries[at].role
    {
      var i :| 0 <= i < at - lo && entries[lo..at][i] == e;
      assert entries[lo + i] == e && entries[lo + i] != entries[at];
    }
  }

  lemma IndexOf(lastUsed: map<string, int>, entries: seq<Use>, role: string) returns (i: nat)
    requires Lists(entries, Uses(lastUsed)) && role in lastUsed
    ensures i < |entries| && entries[i] == Use(role, lastUsed[role])
  {
    ListsFacts(entries, Uses(lastUsed));
    assert Use(role, lastUsed[role]) in Uses(lastUsed);
    i :| 0 <= i < |entries| && entries[i] == Use(role, lastUsed[role]);
  }

  /** In an ascending listing the entries behind a role are those used after it. */
  lemma NewerIsBehind(lastUsed: map<string, int>, entries: seq<Use>, i: nat)
    requires Lists(entries, Uses(lastUsed)) && SortedBy(OLDER, entries) && i < |entries|
    ensures entries[i].role in lastUsed && lastUsed[entries[i].role] == entries[i].at
    ensures |Newer(lastUsed, entries[i].role)| == |entries| - 1 - i
  {
    ListsFacts(entries, Uses(lastUsed));
    var behind := entries[i + 1..];
    forall j | 0 <= j < |entries|
      ensures j > i <==> Older(entries[i], entries[j])
    {
      LessTotal(entries[i].role, entries[j].role);
      assert j < i ==> !OLDER(entries[i], entries[j]);
      assert j > i ==> !OLDER(entries[j], entries[i]);
    }
    forall r | r in Newer(lastUsed, entries[i].role)
      ensures r in RolesOf(behind)
    {
      var j := IndexOf(lastUsed, entries, r);
      assert behind[j - i - 1] == entries[j];
    }
    assert Newer(lastUsed, entries[i].role) == RolesOf(behind);
    RolesOfSize(lastUsed, entries, i + 1, |entries|);
    assert entries[i + 1..|entries|] == behind;
  }

  /** So the cool roles are the front of the listing. */
  lemma CoolIsFront(lastUsed: map<string, int>, warmLimit: int, entries: seq<Use>)
    requires Lists(entries, Uses(lastUsed)) && SortedBy(OLDER, entries)
    ensures |entries| == |lastUsed|
    ensures var n := if |entries| <= Keep(warmLimit) then 0 else |entries| - Keep(warmLimit);
            CoolSet(lastUsed, warmLimit) == RolesOf(entries[..n]) && |CoolSet(lastUsed, warmLimit)| == n
  {
    var n := if |entries| <= Keep(warmLimit) then 0 else |entries| - Keep(warmLimit);
    FrontByCount(lastUsed, warmLimit, entries, n);
    RolesOfSize(lastUsed, entries, 0, n);
    assert entries[0..n] == entries[..n];
    ListingSize(lastUsed, entries);
  }

  lemma ListingSize(lastUsed: map<string, int>, entries: seq<Use>)
    requires Lists(entries, Uses(lastUsed))
    ensures |entries| == |lastUsed|
  {
    ListsFacts(entries, Uses(lastUsed));
    RolesOfSize(lastUsed, entries, 0, |entries|);
    assert entries[0..|entries|] == entries;
    forall r | r in lastUsed
      ensures r in RolesOf(entries)
    {
      var i := IndexOf(lastUsed, entries, r);
    }
    assert RolesOf(entries) == lastUsed.Keys;
  }

  lemma FrontByCount(lastUsed: map<string, int>, warmLimit: int, entries: seq<Use>, n: nat)
    requires Lists(entries, Uses(lastUsed)) && SortedBy(OLDER, entries)
    requires n == if |entries| <= Keep(warmLimit) then 0 else |entries| - Keep(warmLimit)
    ensures CoolSet(lastUsed, warmLimit) == RolesOf(entries[..n])
  {
    hide Lists, SortedBy, Newer;
    forall i | 0 <= i < |entries|
      ensures entries[i].role in CoolSet(lastUsed, warmLimit) <==> i < n
    {
      NewerIsBehind(lastUsed, entries, i);
    }
    forall r | r in CoolSet(lastUsed, warmLimit)
      ensures r in RolesOf(entries[..n])
    {
      var i := IndexOf(lastUsed, entries, r);
      assert entries[..n][i] == entries[i];
    }
  }

  /** The loop that turns the map into a slice, in whatever order it comes. */
  method Collect(lastUsed: map<string, int>) returns (entries: seq<Use>)
    ensures Lists(entries, Uses(lastUsed))
  {
    entries := [];
    var rest := lastUsed.Keys;
    while rest != {}
      invariant rest <= lastUsed.Keys
      invariant Lists(entries, Uses(lastUsed - rest))
    {
      var role :| role in rest;
      assert lastUsed - (rest - {role}) == (lastUsed - rest)[role := lastUsed[role]];
      UsesGrow(lastUsed - rest, role, lastUsed[role]);
      entries := entries + [Use(role, lastUsed[role])];
      rest := rest - {role};
    }
    assert lastUsed - {} == lastUsed;
  }

  predicate OldestFirst(lastUsed: map<string, int>, cool: seq<string>) {
    forall i, j | 0 <= i < j < |cool| :: cool[i] in lastUsed && cool[j] in lastUsed
      && Older(Use(cool[i], lastUsed[cool[i]]), Use(cool[j], lastUsed[cool[j]]))
  }

  method RolesToCoolDown(lastUsed: map<string, int>, warmLimit: int) returns (cool: seq<string>)
    ensures forall r :: r in cool <==> r in CoolSet(lastUsed, warmLimit)
    ensures |cool| == |CoolSet(lastUsed, warmLimit)|
    ensures OldestFirst(lastUsed, cool)
  {
    hide Lists, SortedBy, CoolSet, Uses;
    cool := [];
    OlderIsStrict();
    if |lastUsed| <= warmLimit {
      ghost var listing := ListingExists(Uses(lastUsed), OLDER);
      CoolIsFront(lastUsed, warmLimit, listing);
      return;
    }
    var entries := Collect(lastUsed);
    entries := Sort(entries, OLDER);
    CoolIsFront(lastUsed, warmLimit, entries);
    var keep := if warmLimit < 0 then 0 else warmLimit;
    for i := 0 to |entries| - keep
      invariant |cool| == i && forall j | 0 <= j < i :: cool[j] == entries[j].role
    {
      cool := cool + [entries[i].role];
    }
    FrontIsCool(lastUsed, entries, cool);
  }

  lemma UsesGrow(m: map<string, int>, role: string, at: int)
    requires role !in m
    ensures Use(role, at) !in Uses(m) && Uses(m[role := at]) == Uses(m) + {Use(role, at)}
  {
    var n := m[role := at];
    assert forall r | r in m :: n[r] == m[r];
    assert forall u | u in Uses(m) :: u.role in n && u == Use(u.role, n[u.role]);
    assert Use(role, at) == Use(role, n[role]);
  }

  lemma FrontIsCool(lastUsed: map<string, int>, entries: seq<Use>, cool: seq<string>)
    requires Lists(entries, Uses(lastUsed)) && SortedBy(OLDER, entries) && |cool| <= |entries|
    requires forall j | 0 <= j < |cool| :: cool[j] == entries[j].role
    ensures forall r :: r in cool <==> r in RolesOf(entries[..|cool|])
    ensures OldestFirst(lastUsed, cool)
  {
    ListsFacts(entries, Uses(lastUsed));
    assert forall j | 0 <= j < |cool| :: entries[..|cool|][j] == entries[j];
    forall i, j | 0 <= i < j < |cool|
      ensures cool[i] in lastUsed && cool[j] in lastUsed
      ensures Older(Use(cool[i], lastUsed[cool[i]]), Use(cool[j], lastUsed[cool[j]]))
    {
      LessTotal(entries[i].role, entries[j].role);
      assert !OLDER(entries[j], entries[i]);
    }
  }

  // ----- the pools -----

  function LastUsed(p: Pools): map<string, int> {
    map r | r in p :: p[r].lastUsed
  }

  /** Every pool's idle setting is what its flag says. */
  predicate IdleMatches(p: Pools, maxIdle: int) {
    forall r | r in p :: p[r].idle == if p[r].cooled then 0 else maxIdle
  }

  ghost function Warm(p: Pools): set<string> {
    set r | r in p && !p[r].cooled
  }

  /** Every pool set from scratch, whatever its flag was. */
  ghost function Recomputed(p: Pools, warmLimit: int, maxIdle: int): Pools {
    var cool := CoolSet(LastUsed(p), warmLimit);
    map r | r in p :: p[r].(cooled := r in cool, idle := if r in cool then 0 else maxIdle)
  }

  function HandlesOf(p: Pools): set<nat> {
    set r | r in p :: p[r].handle
  }

  /** Go's regular expression ^[A-Za-z_][A-Za-z0-9_]*$. */
  predicate ValidRole(role: string) {
    role != [] && !('0' <= role[0] <= '9')
    && forall i | 0 <= i < |role| ::
         'A' <= role[i] <= 'Z' || 'a' <= role[i] <= 'z' || '0' <= role[i] <= '9' || role[i] == '_'
  }

  /** A role may be used in a connection string if and only if it is an ASCII
      identifier. */
  lemma ValidRoleExactly(role: string)
    ensures ValidRole(role) <==> role != [] && forall i | 0 <= i < |role| ::
      || 'a' <= role[i] <= 'z' || 'A' <= role[i] <= 'Z' || role[i] == '_'
      || (i > 0 && '0' <= role[i] <= '9')
  {
    if role != [] && ValidRole(role) { assert !('0' <= role[0] <= '9'); }
  }

  /** lastUsed of a pool that was never acquired. */
  const ZERO_TIME: int := 0

  /** The pools after getOrCreatePool; `dialed` is the new handle, None if opening
      fails. */
  function Created(p: Pools, role: string, dialed: Option<nat>, maxIdle: int): Option<Pools> {
    if role in p then Some(p)
    else if !ValidRole(role) then None
    else match dialed
      case None => None
      case Some(h) => Some(p[role := Pool(h, ZERO_TIME, false, maxIdle)])
  }

  /** The pools after the part of Acquire that holds the mutex. */
  ghost function Acquired(p: Pools, role: string, dialed: Option<nat>, now: int, warmLimit: int, maxIdle: int)
    : (next: Option<Pools>)
    ensures next.Some? ==> role in next.value
  {
    match Created(p, role, dialed, maxIdle)
    case None => None
    case Some(q) => Some(Recomputed(q[role := q[role].(lastUsed := now)], warmLimit, maxIdle))
  }

  class RolePools {
    const warmLimit: int
    const maxIdle: int
    var pools: Pools

    constructor (warmLimit: int, maxIdle: int)
      ensures this.warmLimit == warmLimit && this.maxIdle == maxIdle && pools == map[]
    {
      this.warmLimit, this.maxIdle := warmLimit, maxIdle;
      pools := map[];
    }

    method GetOrCreatePool(role: string, dialed: Option<nat>) returns (ok: bool)
      modifies this
      ensures Created(old(pools), role, dialed, maxIdle) == if ok then Some(pools) else None
      ensures !ok ==> pools == old(pools)
      ensures ok ==> role in pools
    {
      if role in pools {
        return true;
      }
      if !ValidRole(role) {
        return false;
      }
      match dialed {
        case None =>
          return false;
        case Some(handle) =>
          pools := pools[role := Pool(handle, ZERO_TIME, false, maxIdle)];
          return true;
      }
    }

    /** Only flips the pools whose flag is wrong, and still ends where setting every
        pool from scratch would. */
    method ReconcileWarm()
      requires IdleMatches(pools, maxIdle)
      modifies this
      ensures pools == Recomputed(old(pools), warmLimit, maxIdle)
    {
      hide CoolSet;
      var lastUsed := map r | r in pools :: pools[r].lastUsed;
      var cool := RolesToCoolDown(lastUsed, warmLimit);
      var coolSet := set r | r in cool;
      ghost var before := pools;
      var rest := pools.Keys;
      while rest != {}
        invariant rest <= pools.Keys && pools.Keys == before.Keys
        invariant forall r | r in rest :: pools[r] == before[r]
        invariant forall r | r in pools && r !in rest :: pools[r] == Recomputed(before, warmLimit, maxIdle)[r]
      {
        var role :| role in rest;
        var pool := pools[role];
        if role in coolSet {
          if !pool.cooled {
            pools := pools[role := pool.(idle := 0, cooled := true)];
          }
        } else if pool.cooled {
          pools := pools[role := pool.(idle := maxIdle, cooled := false)];
        }
        rest := rest - {role};
      }
    }

    /** The part of Acquire that holds the mutex. */
    method AcquireLocked(role: string, dialed: Option<nat>, now: int) returns (handle: Option<nat>)
      requires IdleMatches(pools, maxIdle)
      modifies this
      ensures IdleMatches(pools, maxIdle)
      ensures var next := Acquired(old(pools), role, dialed, now, warmLimit, maxIdle);
        match next
        case None => handle == None && pools == old(pools)
        case Some(p) => pools == p && handle == Some(p[role].handle)
    {
      var ok := GetOrCreatePool(role, dialed);
      if !ok {
        return None;
      }
      pools := pools[role := pools[role].(lastUsed := now)];
      ReconcileWarm();
      return Some(pools[role].handle);
    }

    /** Removes the pool; the caller closes its handle after the mutex is released. */
    method Evict(role: string) returns (toClose: Option<nat>)
      modifies this
      ensures pools == old(pools) - {role}
      ensures toClose == if role in old(pools) then Some(old(pools)[role].handle) else None
    {
      if role !in pools {
        assert pools - {role} == pools;
        return None;
      }
      toClose := Some(pools[role].handle);
      pools := pools - {role};
    }

    /** Swaps the map for an empty one; the caller closes the handles one by one. */
    method Close() returns (toClose: set<nat>)
      modifies this
      ensures pools == map[] && toClose == HandlesOf(old(pools))
    {
      toClose := HandlesOf(pools);
      pools := map[];
    }
  }

  // ----- the warm pools -----

  /** After an Acquire exactly the most recently used pools are warm, as many as
      the limit allows. */
  lemma WarmExactly(p: Pools, role: string, dialed: Option<nat>, now: int, warmLimit: int, maxIdle: int)
    requires Acquired(p, role, dialed, now, warmLimit, maxIdle).Some?
    ensures var q := Acquired(p, role, dialed, now, warmLimit, maxIdle).value;
      && q.Keys == p.Keys + {role} && q[role].lastUsed == now
      && (role !in p ==> dialed == Some(q[role].handle)) && (role in p ==> q[role].handle == p[role].handle)
      && (forall r | r in p && r != role :: q[r].lastUsed == p[r].lastUsed && q[r].handle == p[r].handle)
      && IdleMatches(q, maxIdle)
      && Warm(q) == (set r | r in q && |Newer(LastUsed(q), r)| < Keep(warmLimit))
      && |Warm(q)| == if |q| <= Keep(warmLimit) then |q| else Keep(warmLimit)
  {
    hide CoolSet, Newer, ValidRole, Keep;
    var before := Created(p, role, dialed, maxIdle).value;
    var touched := before[role := before[role].(lastUsed := now)];
    assert touched.Keys == p.Keys + {role};
    RecomputedWarm(touched, warmLimit, maxIdle);
  }

  lemma RecomputedWarm(p: Pools, warmLimit: int, maxIdle: int)
    ensures var q := Recomputed(p, warmLimit, maxIdle);
      && LastUsed(q) == LastUsed(p)
      && Warm(q) == (set r | r in q && |Newer(LastUsed(q), r)| < Keep(warmLimit))
      && |Warm(q)| == if |q| <= Keep(warmLimit) then |q| else Keep(warmLimit)
  {
    hide Newer, Uses, Lists, SortedBy;
    var q := Recomputed(p, warmLimit, maxIdle);
    var used := LastUsed(p);
    assert LastUsed(q) == used;
    OlderIsStrict();
    var listing := ListingExists(Uses(used), OLDER);
    CoolIsFront(used, warmLimit, listing);
    var cool := CoolSet(used, warmLimit);
    assert Warm(q) == q.Keys - cool;
    assert cool <= q.Keys && used.Keys == q.Keys;
    assert |q| == |q.Keys| && |used| == |used.Keys|;
  }

  /** The same without the flags: after an Acquire a pool keeps idle connections, and
      then as many as configured, if and only if fewer than max(0, warmLimit) others
      were used after it: later, or at the same time with a greater name. */
  lemma IdleExactly(p: Pools, role: string, dialed: Option<nat>, now: int, warmLimit: int, maxIdle: int,
                    r: string, after: set<string>)
    requires Acquired(p, role, dialed, now, warmLimit, maxIdle).Some?
    requires var q := Acquired(p, role, dialed, now, warmLimit, maxIdle).value;
      && r in q
      && forall x :: x in after <==>
           x in q && (q[x].lastUsed > q[r].lastUsed || (q[x].lastUsed == q[r].lastUsed && Less(r, x)))
    ensures var q := Acquired(p, role, dialed, now, warmLimit, maxIdle).value;
      q[r].idle == if |after| >= (if warmLimit > 0 then warmLimit else 0) then 0 else maxIdle
  {
    hide Acquired, ValidRole, Less, CoolSet, Newer, LastUsed;
    WarmExactly(p, role, dialed, now, warmLimit, maxIdle);
    var q := Acquired(p, role, dialed, now, warmLimit, maxIdle).value;
    NewerSpelled(q, r, after);
    assert r in Warm(q) <==> |after| < Keep(warmLimit);
  }

  lemma NewerSpelled(q: Pools, r: string, after: set<string>)
    requires r in q && forall x :: x in after <==>
      x in q && (q[x].lastUsed > q[r].lastUsed || (q[x].lastUsed == q[r].lastUsed && Less(r, x)))
    ensures r in LastUsed(q) && Newer(LastUsed(q), r) == after
  {
    hide Less;
    forall x
      ensures x in Newer(LastUsed(q), r) <==> x in after
    {
    }
  }

  /** A cooled pool was used before every warm one. */
  lemma WarmAreNewest(p: Pools, warmLimit: int, maxIdle: int, r: string, w: string)
    requires r in p && w in p
    requires var q := Recomputed(p, warmLimit, maxIdle); q[r].cooled && !q[w].cooled
    ensures p[r].lastUsed < p[w].lastUsed || (p[r].lastUsed == p[w].lastUsed && Less(r, w))
  {
    var used := LastUsed(p);
    LessTotal(r, w);
    if !Older(Use(r, used[r]), Use(w, used[w])) {
      assert r != w && Older(Use(w, used[w]), Use(r, used[r]));
      OlderIsStrict();
      forall x | x in Newer(used, r)
        ensures x in Newer(used, w)
      {
        assert OLDER(Use(r, used[r]), Use(x, used[x]));
        assert !OLDER(Use(r, used[r]), Use(w, used[w]));
        assert OLDER(Use(w, used[w]), Use(x, used[x]));
      }
      SubsetSize(Newer(used, r), Newer(used, w));
    }
  }

  /** Removing pools never makes more of the rest warm. */
  lemma EvictKeepsWarm(p: Pools, gone: set<string>)
    ensures Warm(p - gone) <= Warm(p) && |Warm(p - gone)| <= |Warm(p)|
    ensures forall maxIdle | IdleMatches(p, maxIdle) :: IdleMatches(p - gone, maxIdle)
  {
    SubsetSize(Warm(p - gone), Warm(p));
  }
}
