/**
 The role-pool manager as a step system: Acquire takes a token before the mutex
 and may fail under it, release gives the token back once, Evict and Close take
 pools out of the map under the mutex and close them after it.
 */
module RolePoolSteps {
  import opened Counting
  import opened Options
  import opened Sorting
  import opened WarmPools

  type Tid = nat

  datatype Pc =
    | Waiting(role: string)       // Acquire: has its token, before the mutex
    | Failing                     // Acquire: opening failed, before giving the token back
    | Closing(left: set<nat>)     // Evict or Close: these handles are still to be closed

  /** `closes[h]` counts how often handle h was closed; handles are numbered in the
      order in which they were opened. `leases` are the release functions handed
      out, with whether they have run. */
  datatype State = State(
    cap: nat,
    warmLimit: int,
    maxIdle: int,
    sem: nat,
    pools: Pools,
    closes: seq<nat>,
    pcs: map<Tid, Pc>,
    leases: map<nat, bool>)

  datatype Action =
    | Take(t: Tid, role: string)
    | Enter(t: Tid, dials: bool, now: int, lease: nat)
    | GiveBack(t: Tid)
    | Release(lease: nat)
    | Evict(t: Tid, role: string)
    | CloseAll(t: Tid)
    | CloseOne(t: Tid, handle: nat)
    | Return(t: Tid)

  function Init(cap: nat, warmLimit: int, maxIdle: int): State {
    State(cap, warmLimit, maxIdle, 0, map[], [], map[], map[])
  }

  predicate Enabled(s: State, a: Action) {
    match a
    case Take(t, role) => t !in s.pcs && ValidRole(role) && s.sem < s.cap
    case Enter(t, _, _, lease) => t in s.pcs && s.pcs[t].Waiting? && lease !in s.leases
    case GiveBack(t) => t in s.pcs && s.pcs[t].Failing? && s.sem > 0
    case Release(lease) => lease in s.leases && (s.leases[lease] || s.sem > 0)
    case Evict(t, _) => t !in s.pcs
    case CloseAll(t) => t !in s.pcs
    case CloseOne(t, h) => t in s.pcs && s.pcs[t].Closing? && h in s.pcs[t].left && h < |s.closes|
    case Return(t) => t in s.pcs && s.pcs[t].Closing? && s.pcs[t].left == {}
  }

  ghost function Entered(s: State, t: Tid, dials: bool, now: int, lease: nat): State
    requires t in s.pcs && s.pcs[t].Waiting?
  {
    var role := s.pcs[t].role;
    match Acquired(s.pools, role, if dials then Some(|s.closes|) else None, now, s.warmLimit, s.maxIdle)
    case None => s.(pcs := s.pcs[t := Failing])
    case Some(p) =>
      s.(pools := p, closes := if role in s.pools then s.closes else s.closes + [0],
         pcs := s.pcs - {t}, leases := s.leases[lease := false])
  }

  ghost function Apply(s: State, a: Action): State
    requires Enabled(s, a)
  {
    match a
    case Take(t, role) => s.(sem := s.sem + 1, pcs := s.pcs[t := Waiting(role)])
    case Enter(t, dials, now, lease) => Entered(s, t, dials, now, lease)
    case GiveBack(t) => s.(sem := s.sem - 1, pcs := s.pcs - {t})
    case Release(lease) =>
      if s.leases[lease] then s else s.(sem := s.sem - 1, leases := s.leases[lease := true])
    case Evict(t, role) =>
      if role in s.pools
      then s.(pools := s.pools - {role}, pcs := s.pcs[t := Closing({s.pools[role].handle})])
      else s
    case CloseAll(t) => s.(pools := map[], pcs := s.pcs[t := Closing(HandlesOf(s.pools))])
    case CloseOne(t, h) =>
      s.(closes := s.closes[h := s.closes[h] + 1], pcs := s.pcs[t := Closing(s.pcs[t].left - {h})])
    case Return(t) => s.(pcs := s.pcs - {t})
  }

  // ----- the invariant -----

  const ACQUIRING: Pc -> bool := (pc: Pc) => pc.Waiting? || pc.Failing?
  const UNRELEASED: bool -> bool := (done: bool) => !done

  function WillClose(h: nat): Pc -> bool {
    (pc: Pc) => pc.Closing? && h in pc.left
  }

  function HasHandle(h: nat): Pool -> bool {
    (pool: Pool) => pool.handle == h
  }

  /** A token is held by every Acquire past the send and by every lease that has
      not been released, and by nobody else. */
  ghost predicate TokensAccounted(s: State) {
    s.sem == Count(s.pcs, ACQUIRING) + Count(s.leases, UNRELEASED) <= s.cap
  }

  /** A handle is live under one role, or about to be closed by one thread, or has
      been closed once: exactly one of these. */
  ghost predicate OnePlace(s: State, h: nat)
    requires h < |s.closes|
  {
    Count(s.pools, HasHandle(h)) + Count(s.pcs, WillClose(h)) + s.closes[h] == 1
  }

  ghost predicate HandlesAccounted(s: State) {
    && (forall h | 0 <= h < |s.closes| :: OnePlace(s, h))
    && (forall r | r in s.pools :: s.pools[r].handle < |s.closes|)
    && (forall t, h | t in s.pcs && s.pcs[t].Closing? && h in s.pcs[t].left :: h < |s.closes|)
  }

  ghost predicate WarmBounded(s: State) {
    && (forall r | r in s.pools :: s.pools[r].idle == if s.pools[r].cooled then 0 else s.maxIdle)
    && |Warm(s.pools)| <= Keep(s.warmLimit)
  }

  predicate RolesValid(s: State) {
    && (forall r | r in s.pools :: ValidRole(r))
    && (forall t | t in s.pcs && s.pcs[t].Waiting? :: ValidRole(s.pcs[t].role))
  }

  ghost predicate Inv(s: State) {
    TokensAccounted(s) && HandlesAccounted(s) && WarmBounded(s) && RolesValid(s)
  }

  lemma TokensKept(s: State, a: Action)
    requires Inv(s) && Enabled(s, a)
    ensures TokensAccounted(Apply(s, a))
  {
    hide HandlesAccounted, WarmBounded, RolesValid, Acquired;
    var s' := Apply(s, a);
    match a
    case Take(t, role) => CountPut(s.pcs, t, Waiting(role), ACQUIRING);
    case Enter(t, _, _, lease) =>
      CountPut(s.pcs, t, Failing, ACQUIRING);
      CountDrop(s.pcs, t, ACQUIRING);
      CountPut(s.leases, lease, false, UNRELEASED);
    case GiveBack(t) => CountDrop(s.pcs, t, ACQUIRING);
    case Release(lease) => CountPut(s.leases, lease, true, UNRELEASED);
    case Return(t) => CountDrop(s.pcs, t, ACQUIRING);
    case _ => if a.t in s'.pcs { CountPut(s.pcs, a.t, s'.pcs[a.t], ACQUIRING); }
  }

  /** Entering under the mutex keeps every live handle and adds at most the new one. */
  lemma EnterHandles(p: Pools, q: Pools, role: string, first: nat, h: nat)
    requires q.Keys == p.Keys + {role}
    requires forall r | r in p :: q[r].handle == p[r].handle
    requires role !in p ==> q[role].handle == first
    ensures Count(q, HasHandle(h)) == Count(p, HasHandle(h)) + if role !in p && h == first then 1 else 0
  {
    hide Where, HasHandle;
    var added: set<string> := if role !in p && h == first then {role} else {};
    forall r
      ensures r in Where(q, HasHandle(h)) <==> r in Where(p, HasHandle(h)) || r in added
    {
      WithHandle(p, h, r);
      WithHandle(q, h, r);
    }
    assert Where(q, HasHandle(h)) == Where(p, HasHandle(h)) + added;
    if role !in p { WithHandle(p, h, role); }
  }

  lemma WithHandle(p: Pools, h: nat, r: string)
    ensures r in Where(p, HasHandle(h)) <==> r in p && p[r].handle == h
  {
  }

  lemma Entering(s: State, a: Action)
    requires Enabled(s, a) && a.Enter? && Apply(s, a).pools != s.pools
    ensures var role, p, q := s.pcs[a.t].role, s.pools, Apply(s, a).pools;
      && q.Keys == p.Keys + {role}
      && (forall r | r in p :: q[r].handle == p[r].handle)
      && (role !in p ==> q[role].handle == |s.closes| && Apply(s, a).closes == s.closes + [0])
      && (role in p ==> Apply(s, a).closes == s.closes)
      && IdleMatches(q, s.maxIdle) && |Warm(q)| <= Keep(s.warmLimit)
  {
    var dialed := if a.dials then Some(|s.closes|) else None;
    if Acquired(s.pools, s.pcs[a.t].role, dialed, a.now, s.warmLimit, s.maxIdle).Some? {
      WarmExactly(s.pools, s.pcs[a.t].role, dialed, a.now, s.warmLimit, s.maxIdle);
    }
  }

  lemma OnePlaceKept(s: State, a: Action, h: nat)
    requires Inv(s) && Enabled(s, a) && h < |Apply(s, a).closes|
    ensures OnePlace(Apply(s, a), h)
  {
    hide TokensAccounted, WarmBounded, RolesValid, Acquired;
    var s' := Apply(s, a);
    assert h < |s.closes| ==> OnePlace(s, h);
    if h == |s.closes| {
      assert Where(s.pools, HasHandle(h)) == {} && Where(s.pcs, WillClose(h)) == {};
    }
    match a
    case Take(t, role) => CountPut(s.pcs, t, Waiting(role), WillClose(h));
    case Enter(t, _, _, _) =>
      CountPut(s.pcs, t, Failing, WillClose(h));
      CountDrop(s.pcs, t, WillClose(h));
      if s'.pools != s.pools {
        Entering(s, a);
        EnterHandles(s.pools, s'.pools, s.pcs[t].role, |s.closes|, h);
      }
    case Evict(t, role) =>
      CountDrop(s.pools, role, HasHandle(h));
      if role in s.pools { CountPut(s.pcs, t, Closing({s.pools[role].handle}), WillClose(h)); }
    case CloseAll(t) =>
      CountPut(s.pcs, t, Closing(HandlesOf(s.pools)), WillClose(h));
      assert Where(s'.pools, HasHandle(h)) == {};
      HandleListed(s.pools, h);
    case CloseOne(t, g) => CountPut(s.pcs, t, s'.pcs[t], WillClose(h));
    case Return(t) => CountDrop(s.pcs, t, WillClose(h));
    case GiveBack(t) => CountDrop(s.pcs, t, WillClose(h));
    case Release(_) =>
  }

  lemma HandleListed(p: Pools, h: nat)
    ensures h in HandlesOf(p) <==> Count(p, HasHandle(h)) >= 1
  {
    if h in HandlesOf(p) {
      var r :| r in p && p[r].handle == h;
      CountSome(p, r, HasHandle(h));
    }
    if Count(p, HasHandle(h)) >= 1 {
      var r := CountWitness(p, HasHandle(h));
    }
  }

  lemma HandlesKept(s: State, a: Action)
    requires Inv(s) && Enabled(s, a)
    ensures HandlesAccounted(Apply(s, a))
  {
    hide TokensAccounted, WarmBounded, RolesValid, Acquired, OnePlace;
    var s' := Apply(s, a);
    forall h | 0 <= h < |s'.closes|
      ensures OnePlace(s', h)
    {
      OnePlaceKept(s, a, h);
    }
    if a.Enter? && s'.pools != s.pools {
      Entering(s, a);
    }
  }

  lemma WarmKept(s: State, a: Action)
    requires Inv(s) && Enabled(s, a)
    ensures WarmBounded(Apply(s, a))
  {
    hide TokensAccounted, HandlesAccounted, RolesValid;
    match a
    case Enter(_, _, _, _) => if Apply(s, a).pools != s.pools { Entering(s, a); }
    case Evict(_, role) => EvictKeepsWarm(s.pools, {role});
    case CloseAll(_) => assert Warm(map[]) == {};
    case _ =>
  }

  lemma RolesKept(s: State, a: Action)
    requires Inv(s) && Enabled(s, a)
    ensures RolesValid(Apply(s, a))
  {
    hide TokensAccounted, HandlesAccounted, WarmBounded, ValidRole;
    if a.Enter? && Apply(s, a).pools != s.pools {
      Entering(s, a);
    }
  }

  lemma InvKept(s: State, a: Action)
    requires Inv(s) && Enabled(s, a)
    ensures Inv(Apply(s, a))
  {
    TokensKept(s, a);
    HandlesKept(s, a);
    WarmKept(s, a);
    RolesKept(s, a);
  }

  // ----- every run -----

  ghost predicate Legal(s: State, acts: seq<Action>)
    decreases |acts|
  {
    acts == [] || (Enabled(s, acts[0]) && Legal(Apply(s, acts[0]), acts[1..]))
  }

  ghost function Exec(s: State, acts: seq<Action>): State
    requires Legal(s, acts)
    decreases |acts|
  {
    if acts == [] then s else Exec(Apply(s, acts[0]), acts[1..])
  }

  lemma {:induction false} InvAlways(s: State, acts: seq<Action>)
    requires Inv(s) && Legal(s, acts)
    ensures Inv(Exec(s, acts))
    decreases |acts|
  {
    hide Inv, Apply;
    if acts != [] {
      InvKept(s, acts[0]);
      InvAlways(Apply(s, acts[0]), acts[1..]);
    }
  }

  lemma InvAtStart(cap: nat, warmLimit: int, maxIdle: int)
    ensures Inv(Init(cap, warmLimit, maxIdle))
  {
    assert Warm(map[]) == {};
    var s := Init(cap, warmLimit, maxIdle);
    assert Where(s.pcs, ACQUIRING) == {} && Where(s.leases, UNRELEASED) == {};
  }

  // ----- what the invariant gives -----

  /** No caller waits for the token it gives back, neither the failed Acquire nor
      the first call of a release function. */
  lemma GivingBackNeverBlocks(s: State, t: Tid, lease: nat)
    requires Inv(s)
    ensures t in s.pcs && s.pcs[t].Failing? ==> Enabled(s, GiveBack(t))
    ensures lease in s.leases ==> Enabled(s, Release(lease))
  {
    if t in s.pcs && s.pcs[t].Failing? { CountSome(s.pcs, t, ACQUIRING); }
    if lease in s.leases && !s.leases[lease] { CountSome(s.leases, lease, UNRELEASED); }
  }

  /** Releasing again changes nothing, whatever happened in between. */
  lemma ReleaseOnce(s: State, lease: nat)
    requires Inv(s) && Enabled(s, Release(lease))
    ensures var s1 := Apply(s, Release(lease));
      Enabled(s1, Release(lease)) && Apply(s1, Release(lease)) == s1
  {
  }

  /** The leases in use never exceed the cap, and when every Acquire has finished
      and every lease is released the semaphore is empty again. */
  lemma LeasesWithinCap(s: State)
    requires Inv(s)
    ensures Count(s.leases, UNRELEASED) <= s.cap
    ensures Count(s.pcs, ACQUIRING) == 0 && Count(s.leases, UNRELEASED) == 0 <==> s.sem == 0
  {
  }

  /** A failed Acquire leaves everything but its own token as it was. */
  lemma FailedAcquire(s: State, t: Tid, now: int, lease: nat)
    requires Inv(s) && Enabled(s, Enter(t, false, now, lease)) && s.pcs[t].role !in s.pools
    ensures var s1 := Apply(s, Enter(t, false, now, lease));
      && Enabled(s1, GiveBack(t))
      && Apply(s1, GiveBack(t)) == s.(sem := s.sem - 1, pcs := s.pcs - {t})
  {
    var s1 := Apply(s, Enter(t, false, now, lease));
    CountSome(s.pcs, t, ACQUIRING);
    assert s.pcs[t := Failing] - {t} == s.pcs - {t};
  }

  /** At every point a cooled pool keeps no idle connection, any other one keeps as
      many as configured, and at most max(0, warmLimit) keep any. */
  lemma IdleBounded(s: State)
    requires Inv(s)
    ensures forall r | r in s.pools :: s.pools[r].idle == if s.pools[r].cooled then 0 else s.maxIdle
    ensures var idling := set r | r in s.pools && s.pools[r].idle != 0;
      |idling| <= if s.warmLimit > 0 then s.warmLimit else 0
  {
    hide TokensAccounted, HandlesAccounted, RolesValid;
    var idling := set r | r in s.pools && s.pools[r].idle != 0;
    SubsetSize(idling, Warm(s.pools));
  }

  /** The step of an Acquire that holds the mutex leaves exactly the most recently used
      pools with idle connections, whatever else is going on. */
  lemma EnterIdles(s: State, t: Tid, dials: bool, now: int, lease: nat, r: string, after: set<string>)
    requires Inv(s) && Enabled(s, Enter(t, dials, now, lease))
    requires var s' := Apply(s, Enter(t, dials, now, lease));
      && lease in s'.leases && r in s'.pools
      && forall x :: x in after <==>
           && x in s'.pools
           && (s'.pools[x].lastUsed > s'.pools[r].lastUsed
               || (s'.pools[x].lastUsed == s'.pools[r].lastUsed && Less(r, x)))
    ensures Apply(s, Enter(t, dials, now, lease)).pools[r].idle
         == if |after| >= (if s.warmLimit > 0 then s.warmLimit else 0) then 0 else s.maxIdle
  {
    hide Inv, Acquired, Less;
    var dialed := if dials then Some(|s.closes|) else None;
    assert Acquired(s.pools, s.pcs[t].role, dialed, now, s.warmLimit, s.maxIdle)
        == Some(Apply(s, Enter(t, dials, now, lease)).pools);
    IdleExactly(s.pools, s.pcs[t].role, dialed, now, s.warmLimit, s.maxIdle, r, after);
  }

  /** No handle is under two roles, closed while live, or closed twice. */
  lemma HandleFate(s: State, h: nat)
    requires Inv(s) && h < |s.closes|
    ensures s.closes[h] <= 1
    ensures forall r, q | r in s.pools && q in s.pools && s.pools[r].handle == h == s.pools[q].handle :: r == q
    ensures (exists r | r in s.pools :: s.pools[r].handle == h) ==> s.closes[h] == 0
    ensures s.closes[h] == 0 && (forall t | t in s.pcs :: !WillClose(h)(s.pcs[t])) ==>
      exists r | r in s.pools :: s.pools[r].handle == h
  {
    assert OnePlace(s, h);
    forall r, q | r in s.pools && q in s.pools && s.pools[r].handle == h == s.pools[q].handle
      ensures r == q
    {
      if r != q {
        CountDrop(s.pools, r, HasHandle(h));
        CountSome(s.pools - {r}, q, HasHandle(h));
      }
    }
    HandleListed(s.pools, h);
    if s.closes[h] == 0 && (forall t | t in s.pcs :: !WillClose(h)(s.pcs[t])) {
      assert Where(s.pcs, WillClose(h)) == {};
    }
  }

  /** Over every interleaving, from the start. */
  lemma PoolsAccounted(cap: nat, warmLimit: int, maxIdle: int, acts: seq<Action>)
    requires Legal(Init(cap, warmLimit, maxIdle), acts)
    ensures Inv(Exec(Init(cap, warmLimit, maxIdle), acts))
  {
    InvAtStart(cap, warmLimit, maxIdle);
    InvAlways(Init(cap, warmLimit, maxIdle), acts);
  }
}
