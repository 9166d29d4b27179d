/**
 The brute-force lockout behind the global in-flight cap, as a step system. The
 check before authentication and the increment after a 401 are separate steps, so
 requests that passed the check together can all still fail. Every handler chain
 has a semaphore of its own; the cache, and so the counters, are shared.
 */
module LockoutUnderCap {
  import opened Counters
  import opened Counting
  import opened Names

  type Tid = nat

  datatype Pc =
    | Arrived(chain: nat, id: string)                // has its global slot, before the lockout check
    | Passed(chain: nat, id: string, minute: nat)    // below the limit: authentication is running
    | Refused(chain: nat, id: string, minute: nat)   // answered 401, before the increment
    | Leaving(chain: nat)                            // done; the slot is still taken

  /** `issued` and `recorded` are the history: 401s answered and counted, per
      identifier and minute. */
  datatype State = State(
    limit: nat,
    caps: seq<nat>,
    now: nat,
    cache: Cache,
    inflight: seq<nat>,
    pcs: map<Tid, Pc>,
    issued: map<(string, nat), nat>,
    recorded: map<(string, nat), nat>)

  datatype Action =
    | Tick(now: nat)
    | Arrive(t: Tid, chain: nat, id: string)
    | Check(t: Tid)
    | Succeed(t: Tid)
    | Unauthorized(t: Tid)
    | Record(t: Tid)
    | Leave(t: Tid)

  function Zeros(n: nat): seq<nat> {
    seq(n, _ => 0)
  }

  function Init(limit: nat, caps: seq<nat>, now: nat): State {
    State(limit, caps, now, map[], Zeros(|caps|), map[], map[], map[])
  }

  function FailKey(id: string, minute: nat): string {
    CounterKey(AUTH_FAIL, id, minute)
  }

  function At(m: map<(string, nat), nat>, id: string, minute: nat): nat {
    if (id, minute) in m then m[(id, minute)] else 0
  }

  function Bump(m: map<(string, nat), nat>, id: string, minute: nat): map<(string, nat), nat> {
    m[(id, minute) := At(m, id, minute) + 1]
  }

  predicate Enabled(s: State, a: Action) {
    match a
    case Tick(now) => s.now <= now
    case Arrive(t, c, _) => t !in s.pcs && c < |s.caps| && c < |s.inflight| && s.inflight[c] < s.caps[c]
    case Check(t) => t in s.pcs && s.pcs[t].Arrived?
    case Succeed(t) => t in s.pcs && s.pcs[t].Passed?
    case Unauthorized(t) => t in s.pcs && s.pcs[t].Passed?
    case Record(t) => t in s.pcs && s.pcs[t].Refused?
    case Leave(t) =>
      t in s.pcs && s.pcs[t].Leaving? && s.pcs[t].chain < |s.inflight| && s.inflight[s.pcs[t].chain] > 0
  }

  function Goto(s: State, t: Tid, pc: Pc): State {
    s.(pcs := s.pcs[t := pc])
  }

  function Apply(s: State, a: Action): State
    requires Enabled(s, a)
  {
    match a
    case Tick(now) => s.(now := now)
    case Arrive(t, c, id) => Goto(s.(inflight := s.inflight[c := s.inflight[c] + 1]), t, Arrived(c, id))
    case Check(t) =>
      var c, id, minute := s.pcs[t].chain, s.pcs[t].id, MinuteOf(s.now);
      var cache := Incremented(s.cache, FailKey(id, minute), 0, MINUTE, s.now);
      Goto(s.(cache := cache), t,
           if ValueOf(cache, FailKey(id, minute)) >= s.limit then Leaving(c) else Passed(c, id, minute))
    case Succeed(t) => Goto(s, t, Leaving(s.pcs[t].chain))
    case Unauthorized(t) =>
      var pc := s.pcs[t];
      Goto(s.(issued := Bump(s.issued, pc.id, pc.minute)), t, Refused(pc.chain, pc.id, pc.minute))
    case Record(t) =>
      var pc := s.pcs[t];
      Goto(s.(cache := Incremented(s.cache, FailKey(pc.id, pc.minute), 1, MINUTE, s.now),
              recorded := Bump(s.recorded, pc.id, pc.minute)), t, Leaving(pc.chain))
    case Leave(t) =>
      var c := s.pcs[t].chain;
      s.(pcs := s.pcs - {t}, inflight := s.inflight[c := s.inflight[c] - 1])
  }

  // ----- the invariant -----

  function Answered(id: string, minute: nat): Pc -> bool {
    (pc: Pc) => pc.Refused? && pc.id == id && pc.minute == minute
  }

  function Charging(id: string, minute: nat): Pc -> bool {
    (pc: Pc) => (pc.Refused? || pc.Passed?) && pc.id == id && pc.minute == minute
  }

  function InChain(c: nat): Pc -> bool {
    (pc: Pc) => pc.chain == c
  }

  function Total(ns: seq<nat>): nat {
    if ns == [] then 0 else Total(ns[..|ns| - 1]) + ns[|ns| - 1]
  }

  lemma {:induction false} TotalUpdate(ns: seq<nat>, c: nat, v: nat)
    requires c < |ns|
    ensures Total(ns[c := v]) + ns[c] == Total(ns) + v
  {
    var last := |ns| - 1;
    if c == last {
      assert ns[c := v][..last] == ns[..last];
    } else {
      TotalUpdate(ns[..last], c, v);
      assert ns[c := v][..last] == ns[..last][c := v];
    }
  }

  lemma {:induction false} TotalMonotone(ns: seq<nat>, ms: seq<nat>)
    requires |ns| == |ms| && forall c | 0 <= c < |ns| :: ns[c] <= ms[c]
    ensures Total(ns) <= Total(ms)
  {
    if ns != [] {
      TotalMonotone(ns[..|ns| - 1], ms[..|ms| - 1]);
    }
  }

  /** Every chain's semaphore holds a token for each of its requests. */
  ghost predicate Slots(s: State) {
    && s.limit >= 1 && |s.inflight| == |s.caps| && |s.pcs| == Total(s.inflight)
    && (forall c | 0 <= c < |s.caps| :: s.inflight[c] == Count(s.pcs, InChain(c)) <= s.caps[c])
    && (forall t | t in s.pcs :: s.pcs[t].chain < |s.caps|)
  }

  /** Nothing belongs to a minute that has not begun. */
  ghost predicate Past(s: State) {
    && (forall t | t in s.pcs && (s.pcs[t].Passed? || s.pcs[t].Refused?) :: s.pcs[t].minute <= MinuteOf(s.now))
    && (forall id, m | m > MinuteOf(s.now) :: At(s.recorded, id, m) == 0 && FailKey(id, m) !in s.cache)
  }

  /** In the running minute the cache has counted every recorded 401. */
  ghost predicate Counted(s: State) {
    forall id :: CountedFor(s, id)
  }

  ghost predicate CountedFor(s: State, id: string) {
    var live, m := Live(s.cache, s.now), MinuteOf(s.now);
    && ValueOf(live, FailKey(id, m)) == At(s.recorded, id, m)
    && (FailKey(id, m) in live ==> live[FailKey(id, m)].expires >= (m + 1) * MINUTE)
  }

  ghost predicate Charged(s: State) {
    && (forall id, m :: At(s.issued, id, m) == At(s.recorded, id, m) + Count(s.pcs, Answered(id, m)))
    && (forall id, m :: At(s.recorded, id, m) + Count(s.pcs, Charging(id, m)) <= s.limit - 1 + Total(s.caps))
  }

  ghost predicate Inv(s: State) {
    Slots(s) && Past(s) && Counted(s) && Charged(s)
  }

  lemma SlotsKept(s: State, a: Action)
    requires Inv(s) && Enabled(s, a)
    ensures Slots(Apply(s, a))
  {
    hide Past, Counted, Charged, Total, Count, Apply, Enabled;
    var s' := Apply(s, a);
    ThreadsCounted(s, a);
    ChainsKept(s, a);
    forall c | 0 <= c < |s.caps|
      ensures s'.inflight[c] == Count(s'.pcs, InChain(c)) <= s.caps[c]
    {
      ChainCounted(s, a, c);
    }
  }

  lemma ChainsKept(s: State, a: Action)
    requires Slots(s) && Enabled(s, a)
    ensures var s' := Apply(s, a);
      && s'.limit == s.limit && s'.caps == s.caps && |s'.inflight| == |s.caps|
      && forall t | t in s'.pcs :: s'.pcs[t].chain < |s.caps|
  {
    hide Incremented, Live, Total, Count;
  }

  lemma ChainCounted(s: State, a: Action, c: nat)
    requires Slots(s) && Enabled(s, a) && c < |s.caps|
    ensures var s' := Apply(s, a); |s'.inflight| == |s.caps| && s'.inflight[c] == Count(s'.pcs, InChain(c)) <= s.caps[c]
  {
    hide Incremented, Live, Total, Count;
    if a.Leave? {
      CountDrop(s.pcs, a.t, InChain(c));
    } else if !a.Tick? {
      CountPut(s.pcs, a.t, Apply(s, a).pcs[a.t], InChain(c));
    }
  }

  lemma ThreadsCounted(s: State, a: Action)
    requires Slots(s) && Enabled(s, a)
    ensures |Apply(s, a).pcs| == Total(Apply(s, a).inflight)
  {
    hide Incremented, Live, Total, Bump, At, FailKey, ValueOf, MinuteOf, InChain, Count;
    if a.Leave? {
      SizeDrop(s.pcs, a.t);
      TotalUpdate(s.inflight, s.pcs[a.t].chain, s.inflight[s.pcs[a.t].chain] - 1);
    } else if !a.Tick? {
      SizePut(s.pcs, a.t, Apply(s, a).pcs[a.t]);
      if a.Arrive? { TotalUpdate(s.inflight, a.chain, s.inflight[a.chain] + 1); }
    }
  }

  /** There are never more requests in flight than all the caps together allow. */
  lemma FewRequests(s: State)
    requires Slots(s)
    ensures |s.pcs| <= Total(s.caps)
  {
    TotalMonotone(s.inflight, s.caps);
  }

  lemma PastKept(s: State, a: Action)
    requires Inv(s) && Enabled(s, a)
    ensures Past(Apply(s, a))
  {
    hide Slots, Counted, Charged, CounterKey;
    var s' := Apply(s, a);
    MinuteMonotone(s.now, s'.now);
    forall id, m | m > MinuteOf(s'.now)
      ensures At(s'.recorded, id, m) == 0 && FailKey(id, m) !in s'.cache
    {
      if a.Check? { KeyOfAnother(s.pcs[a.t].id, MinuteOf(s.now), id, m); }
      if a.Record? { KeyOfAnother(s.pcs[a.t].id, s.pcs[a.t].minute, id, m); }
    }
  }

  lemma KeyOfAnother(id: string, m: nat, id': string, m': nat)
    ensures FailKey(id, m) == FailKey(id', m') ==> id == id' && m == m'
  {
    if FailKey(id, m) == FailKey(id', m') {
      CounterKeyInjective(AUTH_FAIL, id, m, id', m');
    }
  }

  lemma CountedKept(s: State, a: Action)
    requires Inv(s) && Enabled(s, a)
    ensures Counted(Apply(s, a))
  {
    forall id
      ensures CountedFor(Apply(s, a), id)
    {
      CountedForKept(s, a, id);
    }
  }

  lemma CountedForKept(s: State, a: Action, id: string)
    requires Inv(s) && Enabled(s, a)
    ensures CountedFor(Apply(s, a), id)
  {
    hide Slots, Charged, CounterKey;
    var s' := Apply(s, a);
    assert CountedFor(s, id);
    MinuteMonotone(s.now, s'.now);
    MinuteBounds(s'.now);
    if a.Check? { KeyOfAnother(s.pcs[a.t].id, MinuteOf(s.now), id, MinuteOf(s.now)); }
    if a.Record? { KeyOfAnother(s.pcs[a.t].id, s.pcs[a.t].minute, id, MinuteOf(s.now)); }
  }

  lemma ChargedKept(s: State, a: Action)
    requires Inv(s) && Enabled(s, a)
    ensures Charged(Apply(s, a))
  {
    var s' := Apply(s, a);
    forall id, m
      ensures At(s'.issued, id, m) == At(s'.recorded, id, m) + Count(s'.pcs, Answered(id, m))
      ensures At(s'.recorded, id, m) + Count(s'.pcs, Charging(id, m)) <= s'.limit - 1 + Total(s'.caps)
    {
      ChargedForKept(s, a, id, m);
    }
  }

  lemma ChargedForKept(s: State, a: Action, id: string, m: nat)
    requires Inv(s) && Enabled(s, a)
    ensures var s' := Apply(s, a);
      && At(s'.issued, id, m) == At(s'.recorded, id, m) + Count(s'.pcs, Answered(id, m))
      && At(s'.recorded, id, m) + Count(s'.pcs, Charging(id, m)) <= s'.limit - 1 + Total(s'.caps)
  {
    hide Past, CounterKey;
    var s' := Apply(s, a);
    if a.Leave? {
      CountDrop(s.pcs, a.t, Answered(id, m));
      CountDrop(s.pcs, a.t, Charging(id, m));
    } else if !a.Tick? {
      CountPut(s.pcs, a.t, s'.pcs[a.t], Answered(id, m));
      CountPut(s.pcs, a.t, s'.pcs[a.t], Charging(id, m));
    }
    if a.Check? && Charging(id, m)(s'.pcs[a.t]) {
      PassedBelowLimit(s, a.t);
      SlotsKept(s, a);
      FewRequests(s');
      CountAtMostAll(s'.pcs, Charging(id, m));
    }
  }

  /** Whoever passes the check passes it below the limit. */
  lemma PassedBelowLimit(s: State, t: Tid)
    requires Inv(s) && Enabled(s, Check(t)) && Apply(s, Check(t)).pcs[t].Passed?
    ensures At(s.recorded, s.pcs[t].id, MinuteOf(s.now)) < s.limit
  {
    hide Slots, Past, Charged, CounterKey;
    assert CountedFor(s, s.pcs[t].id);
  }

  lemma InvKept(s: State, a: Action)
    requires Inv(s) && Enabled(s, a)
    ensures Inv(Apply(s, a))
  {
    SlotsKept(s, a);
    PastKept(s, a);
    CountedKept(s, a);
    ChargedKept(s, a);
  }

  // ----- every run -----

  predicate Legal(s: State, acts: seq<Action>)
    decreases |acts|
  {
    acts == [] || (Enabled(s, acts[0]) && Legal(Apply(s, acts[0]), acts[1..]))
  }

  function Exec(s: State, acts: seq<Action>): State
    requires Legal(s, acts)
    decreases |acts|
  {
    if acts == [] then s else Exec(Apply(s, acts[0]), acts[1..])
  }

  lemma {:induction false} InvAlways(s: State, acts: seq<Action>)
    requires Inv(s) && Legal(s, acts)
    ensures Inv(Exec(s, acts)) && Exec(s, acts).limit == s.limit && Exec(s, acts).caps == s.caps
    decreases |acts|
  {
    hide Slots, Past, Counted, Charged;
    if acts != [] {
      InvKept(s, acts[0]);
      InvAlways(Apply(s, acts[0]), acts[1..]);
    }
  }

  /** Over every interleaving the 401s answered for one identifier in one minute, in
      all the chains together, number at most the limit, less one, and all the caps. */
  lemma FailuresBounded(limit: nat, caps: seq<nat>, now: nat, acts: seq<Action>, id: string, minute: nat)
    requires limit >= 1 && Legal(Init(limit, caps, now), acts)
    ensures At(Exec(Init(limit, caps, now), acts).issued, id, minute) <= limit - 1 + Total(caps)
  {
    var s0 := Init(limit, caps, now);
    InvAtStart(limit, caps, now);
    InvAlways(s0, acts);
    var s := Exec(s0, acts);
    CountMonotone(s.pcs, Answered(id, minute), Charging(id, minute));
  }

  /** With one handler chain this is limit + cap - 1. */
  lemma OneChainBounded(limit: nat, cap: nat, now: nat, acts: seq<Action>, id: string, minute: nat)
    requires limit >= 1 && Legal(Init(limit, [cap], now), acts)
    ensures At(Exec(Init(limit, [cap], now), acts).issued, id, minute) <= limit + cap - 1
  {
    FailuresBounded(limit, [cap], now, acts, id, minute);
    assert [cap][..0] == [] && Total([cap]) == cap;
  }

  /** Giving the slot back never waits: the semaphore holds the leaver's token. */
  lemma LeaveNeverBlocks(s: State, t: Tid)
    requires Inv(s) && t in s.pcs && s.pcs[t].Leaving?
    ensures Enabled(s, Leave(t))
  {
    CountSome(s.pcs, t, InChain(s.pcs[t].chain));
  }

  // ----- the bound is reached -----

  lemma {:induction false} ExecThen(s: State, acts: seq<Action>, a: Action)
    requires Legal(s, acts) && Enabled(Exec(s, acts), a)
    ensures Legal(s, acts + [a]) && Exec(s, acts + [a]) == Apply(Exec(s, acts), a)
    decreases |acts|
  {
    hide Enabled, Apply;
    if acts == [] {
      assert acts + [a] == [a] && [a][1..] == [];
    } else {
      assert (acts + [a])[1..] == acts[1..] + [a];
      ExecThen(Apply(s, acts[0]), acts[1..], a);
    }
  }

  /** A run from the start that is in state `s` now. */
  ghost predicate Reaches(limit: nat, caps: seq<nat>, acts: seq<Action>, s: State) {
    && Legal(Init(limit, caps, 0), acts) && Exec(Init(limit, caps, 0), acts) == s
    && Inv(s) && s.limit == limit && s.caps == caps && s.now == 0
  }

  lemma Step(limit: nat, caps: seq<nat>, acts: seq<Action>, s: State, a: Action)
    requires Reaches(limit, caps, acts, s) && Enabled(s, a) && !a.Tick?
    ensures Reaches(limit, caps, acts + [a], Apply(s, a))
  {
    hide Inv;
    ExecThen(Init(limit, caps, 0), acts, a);
    InvKept(s, a);
  }

  const USER: string := "u"

  /** With nobody between a 401 and its increment, the counter is what was answered,
      so the check lets the next request through below the limit. */
  lemma CheckPasses(s: State, t: Tid)
    requires Inv(s) && s.now == 0 && t in s.pcs && s.pcs[t].Arrived? && s.pcs[t].id == USER
    requires Count(s.pcs, Answered(USER, 0)) == 0 && At(s.issued, USER, 0) < s.limit
    ensures Apply(s, Check(t)).pcs == s.pcs[t := Passed(s.pcs[t].chain, USER, 0)]
  {
    hide Slots, Past, CounterKey;
    assert CountedFor(s, USER);
  }

  /** While not all slots are taken some chain has one. */
  lemma RoomSomewhere(s: State) returns (c: nat)
    requires Slots(s) && |s.pcs| < Total(s.caps)
    ensures c < |s.caps| && s.inflight[c] < s.caps[c]
  {
    if forall c | 0 <= c < |s.caps| :: s.caps[c] <= s.inflight[c] {
      TotalMonotone(s.caps, s.inflight);
      assert false;
    }
    c :| 0 <= c < |s.caps| && s.caps[c] > s.inflight[c];
  }

  /** A request that arrives in a chain with room and passes the check. */
  lemma Enters(limit: nat, caps: seq<nat>, acts: seq<Action>, s: State, t: Tid)
    returns (acts': seq<Action>, s': State, c: nat)
    requires Reaches(limit, caps, acts, s) && t !in s.pcs && |s.pcs| < Total(caps)
    requires At(s.issued, USER, 0) < limit && Count(s.pcs, Answered(USER, 0)) == 0
    ensures Reaches(limit, caps, acts', s') && s'.issued == s.issued
    ensures s'.pcs == s.pcs[t := Passed(c, USER, 0)]
  {
    hide Reaches, Answered, Apply;
    c := ChainWithRoom(limit, caps, acts, s);
    var acts1, s1 := Arrives(limit, caps, acts, s, t, c);
    acts', s' := Checks(limit, caps, acts1, s1, t);
    assert s.pcs[t := Arrived(c, USER)][t := Passed(c, USER, 0)] == s.pcs[t := Passed(c, USER, 0)];
  }

  lemma ChainWithRoom(limit: nat, caps: seq<nat>, acts: seq<Action>, s: State) returns (c: nat)
    requires Reaches(limit, caps, acts, s) && |s.pcs| < Total(caps)
    ensures c < |s.caps| && c < |s.inflight| && s.inflight[c] < s.caps[c]
  {
    hide Legal, Exec;
    c := RoomSomewhere(s);
  }

  lemma Checks(limit: nat, caps: seq<nat>, acts: seq<Action>, s: State, t: Tid)
    returns (acts': seq<Action>, s': State)
    requires Reaches(limit, caps, acts, s) && t in s.pcs && s.pcs[t].Arrived? && s.pcs[t].id == USER
    requires Count(s.pcs, Answered(USER, 0)) == 0 && At(s.issued, USER, 0) < limit
    ensures Reaches(limit, caps, acts', s') && s'.issued == s.issued
    ensures s'.pcs == s.pcs[t := Passed(s.pcs[t].chain, USER, 0)]
  {
    hide Inv, Legal, Exec, Answered;
    CheckPasses(s, t);
    Step(limit, caps, acts, s, Check(t));
    acts', s' := acts + [Check(t)], Apply(s, Check(t));
  }

  lemma Arrives(limit: nat, caps: seq<nat>, acts: seq<Action>, s: State, t: Tid, c: nat)
    returns (acts': seq<Action>, s': State)
    requires Reaches(limit, caps, acts, s) && Enabled(s, Arrive(t, c, USER))
    requires Count(s.pcs, Answered(USER, 0)) == 0
    ensures Reaches(limit, caps, acts', s') && s'.issued == s.issued
    ensures s'.pcs == s.pcs[t := Arrived(c, USER)] && Count(s'.pcs, Answered(USER, 0)) == 0
  {
    hide Inv, Answered;
    Step(limit, caps, acts, s, Arrive(t, c, USER));
    CountPut(s.pcs, t, Arrived(c, USER), Answered(USER, 0));
    ArrivedIsNotAnswered(c);
    acts', s' := acts + [Arrive(t, c, USER)], Apply(s, Arrive(t, c, USER));
  }

  lemma ArrivedIsNotAnswered(c: nat)
    ensures !Answered(USER, 0)(Arrived(c, USER))
  {
  }

  /** One request that fails, with nobody else around. */
  lemma OneFailure(limit: nat, caps: seq<nat>, acts: seq<Action>, s: State) returns (acts': seq<Action>, s': State)
    requires Reaches(limit, caps, acts, s) && Total(caps) >= 1 && s.pcs == map[] && At(s.issued, USER, 0) < limit
    ensures Reaches(limit, caps, acts', s') && s'.pcs == map[]
    ensures At(s'.issued, USER, 0) == At(s.issued, USER, 0) + 1
  {
    assert Where(s.pcs, Answered(USER, 0)) == {};
    var c: nat;
    acts', s', c := Enters(limit, caps, acts, s, 0);
    acts', s' := FailureEnds(limit, caps, acts', s', c);
  }

  lemma FailureEnds(limit: nat, caps: seq<nat>, acts: seq<Action>, s: State, c: nat)
    returns (acts': seq<Action>, s': State)
    requires Reaches(limit, caps, acts, s) && s.pcs == map[0 := Passed(c, USER, 0)]
    ensures Reaches(limit, caps, acts', s') && s'.pcs == map[]
    ensures At(s'.issued, USER, 0) == At(s.issued, USER, 0) + 1
  {
    hide Inv;
    Step(limit, caps, acts, s, Unauthorized(0));
    var s3 := Apply(s, Unauthorized(0));
    Step(limit, caps, acts + [Unauthorized(0)], s3, Record(0));
    var s4 := Apply(s3, Record(0));
    LeaveNeverBlocks(s4, 0);
    Step(limit, caps, acts + [Unauthorized(0)] + [Record(0)], s4, Leave(0));
    acts', s' := acts + [Unauthorized(0)] + [Record(0)] + [Leave(0)], Apply(s4, Leave(0));
  }

  lemma {:induction false} FailuresInARow(limit: nat, caps: seq<nat>, n: nat) returns (acts: seq<Action>, s: State)
    requires limit >= 1 && Total(caps) >= 1 && n <= limit
    ensures Reaches(limit, caps, acts, s) && s.pcs == map[] && At(s.issued, USER, 0) == n
  {
    if n == 0 {
      acts, s := [], Init(limit, caps, 0);
      InvAtStart(limit, caps, 0);
    } else {
      acts, s := FailuresInARow(limit, caps, n - 1);
      acts, s := OneFailure(limit, caps, acts, s);
    }
  }

  lemma {:induction false} ZerosTotal(n: nat)
    ensures Total(Zeros(n)) == 0
  {
    if n > 0 {
      ZerosTotal(n - 1);
      assert Zeros(n)[..n - 1] == Zeros(n - 1);
    }
  }

  lemma InvAtStart(limit: nat, caps: seq<nat>, now: nat)
    requires limit >= 1
    ensures Inv(Init(limit, caps, now))
  {
    var s0 := Init(limit, caps, now);
    ZerosTotal(|caps|);
    assert forall id, m :: Count(s0.pcs, Answered(id, m)) == 0 && Count(s0.pcs, Charging(id, m)) == 0;
    assert forall c: nat :: Count(s0.pcs, InChain(c)) == 0;
    assert Counted(s0) by { assert forall id :: CountedFor(s0, id); }
  }

  /** Threads 0..n-1 and no others: the first `refused` have been answered 401, the
      rest have passed the check. */
  predicate Crowd(s: State, refused: nat, n: nat) {
    && |s.pcs| == n
    && (forall t | 0 <= t < n :: t in s.pcs)
    && (forall t | t in s.pcs :: t < n && InCrowd(s.pcs[t], t < refused))
  }

  predicate InCrowd(pc: Pc, refused: bool) {
    (if refused then pc.Refused? else pc.Passed?) && pc.id == USER && pc.minute == 0
  }

  lemma {:induction false} CrowdPasses(limit: nat, caps: seq<nat>, n: nat) returns (acts: seq<Action>, s: State)
    requires limit >= 1 && 1 <= Total(caps) && n <= Total(caps)
    ensures Reaches(limit, caps, acts, s) && Crowd(s, 0, n) && At(s.issued, USER, 0) == limit - 1
  {
    if n == 0 {
      acts, s := FailuresInARow(limit, caps, limit - 1);
    } else {
      acts, s := CrowdPasses(limit, caps, n - 1);
      acts, s := JoinCrowd(limit, caps, acts, s, n - 1);
    }
  }

  lemma JoinCrowd(limit: nat, caps: seq<nat>, acts: seq<Action>, s: State, t: Tid)
    returns (acts': seq<Action>, s': State)
    requires Reaches(limit, caps, acts, s) && Crowd(s, 0, t) && t < Total(caps) && At(s.issued, USER, 0) == limit - 1
    ensures Reaches(limit, caps, acts', s') && Crowd(s', 0, t + 1) && At(s'.issued, USER, 0) == limit - 1
  {
    hide Reaches, Answered;
    NobodyRefused(s, t);
    var c: nat;
    acts', s', c := Enters(limit, caps, acts, s, t);
    SizePut(s.pcs, t, Passed(c, USER, 0));
  }

  lemma NobodyRefused(s: State, n: nat)
    requires Crowd(s, 0, n)
    ensures Count(s.pcs, Answered(USER, 0)) == 0
  {
    assert Where(s.pcs, Answered(USER, 0)) == {};
  }

  lemma {:induction false} CrowdFails(limit: nat, caps: seq<nat>, refused: nat) returns (acts: seq<Action>, s: State)
    requires limit >= 1 && 1 <= Total(caps) && refused <= Total(caps)
    ensures Reaches(limit, caps, acts, s) && Crowd(s, refused, Total(caps))
    ensures At(s.issued, USER, 0) == limit - 1 + refused
  {
    hide Reaches;
    if refused == 0 {
      acts, s := CrowdPasses(limit, caps, Total(caps));
    } else {
      acts, s := CrowdFails(limit, caps, refused - 1);
      Step(limit, caps, acts, s, Unauthorized(refused - 1));
      acts, s := acts + [Unauthorized(refused - 1)], Apply(s, Unauthorized(refused - 1));
    }
  }

  /** The bound is exact: for every limit and caps some run answers that many. */
  lemma BoundReached(limit: nat, caps: seq<nat>)
    requires limit >= 1 && Total(caps) >= 1
    ensures exists acts: seq<Action> ::
      && Legal(Init(limit, caps, 0), acts)
      && At(Exec(Init(limit, caps, 0), acts).issued, USER, 0) == limit - 1 + Total(caps)
  {
    var acts, s := CrowdFails(limit, caps, Total(caps));
  }
}
