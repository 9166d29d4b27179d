/**
 The per-user concurrency limiter as a step system: every request is a thread,
 and a step is what the program does between two points at which another thread
 may run. The map is read and changed under the mutex; the channel send in
 acquire is not.
 */
module PerUserLimiter {
  import opened Counting
  import opened Options

  type Tid = nat
  type Key = string

  /** A channel is named by the order of its creation. */
  type Chan = nat

  datatype Pc =
    | Sending(key: Key, sem: Chan, created: bool)  // acquire: looked up, before the select
    | Refused(key: Key, sem: Chan, created: bool)  // acquire: took the default branch
    | Cleaning(key: Key, sem: Chan)                // acquire: locked, saw its own channel empty
    | Holding(key: Key)                            // the request is being served
    | Draining(key: Key, sem: Chan)                // release: locked, before the receive
    | Drained(key: Key, sem: Chan)                 // release: locked, after the receive
    | Removing(key: Key, sem: Chan)                // release: locked, saw the channel empty

  /** `made` remembers for which key each channel was created. */
  datatype State = State(
    max: nat,
    sems: map<Key, Chan>,
    tokens: seq<nat>,
    made: seq<Key>,
    lock: Option<Tid>,
    pcs: map<Tid, Pc>)

  datatype Action =
    | Lookup(t: Tid, key: Key)
    | Send(t: Tid)
    | Refuse(t: Tid)
    | CleanCheck(t: Tid)
    | Clean(t: Tid)
    | ReleaseLookup(t: Tid)
    | Receive(t: Tid)
    | LengthCheck(t: Tid)
    | Delete(t: Tid)

  function Init(max: nat): State {
    State(max, map[], [], [], None, map[])
  }

  predicate WellFormed(s: State) {
    && |s.made| == |s.tokens|
    && (forall k | k in s.sems :: s.sems[k] < |s.tokens|)
    && (forall t | t in s.pcs && !s.pcs[t].Holding? :: s.pcs[t].sem < |s.tokens|)
  }

  predicate Enabled(s: State, a: Action)
    requires WellFormed(s)
  {
    match a
    case Lookup(t, _) => t !in s.pcs && s.lock == None
    case Send(t) => t in s.pcs && s.pcs[t].Sending? && s.tokens[s.pcs[t].sem] < s.max
    case Refuse(t) => t in s.pcs && s.pcs[t].Sending? && s.tokens[s.pcs[t].sem] >= s.max
    case CleanCheck(t) => t in s.pcs && s.pcs[t].Refused? && s.lock == None
    case Clean(t) => t in s.pcs && s.pcs[t].Cleaning?
    case ReleaseLookup(t) => t in s.pcs && s.pcs[t].Holding? && s.lock == None
    case Receive(t) => t in s.pcs && s.pcs[t].Draining? && s.tokens[s.pcs[t].sem] > 0
    case LengthCheck(t) => t in s.pcs && s.pcs[t].Drained?
    case Delete(t) => t in s.pcs && s.pcs[t].Removing?
  }

  function Goto(s: State, t: Tid, pc: Pc): State {
    s.(pcs := s.pcs[t := pc])
  }

  function Finish(s: State, t: Tid): State {
    s.(pcs := s.pcs - {t})
  }

  function Apply(s: State, a: Action): State
    requires WellFormed(s) && Enabled(s, a)
  {
    match a
    case Lookup(t, key) =>
      if key in s.sems then Goto(s, t, Sending(key, s.sems[key], false))
      else
        Goto(s.(sems := s.sems[key := |s.tokens|], tokens := s.tokens + [0], made := s.made + [key]),
             t, Sending(key, |s.tokens|, true))
    case Send(t) =>
      var c := s.pcs[t].sem;
      Goto(s.(tokens := s.tokens[c := s.tokens[c] + 1]), t, Holding(s.pcs[t].key))
    case Refuse(t) =>
      var pc := s.pcs[t];
      Goto(s, t, Refused(pc.key, pc.sem, pc.created))
    case CleanCheck(t) =>
      var pc := s.pcs[t];
      if pc.created && s.tokens[pc.sem] == 0
      then Goto(s.(lock := Some(t)), t, Cleaning(pc.key, pc.sem))
      else Finish(s, t)
    case Clean(t) =>
      var pc := s.pcs[t];
      var sems := if pc.key in s.sems && s.sems[pc.key] == pc.sem then s.sems - {pc.key} else s.sems;
      Finish(s.(sems := sems, lock := None), t)
    case ReleaseLookup(t) =>
      var key := s.pcs[t].key;
      if key in s.sems then Goto(s.(lock := Some(t)), t, Draining(key, s.sems[key])) else Finish(s, t)
    case Receive(t) =>
      var pc := s.pcs[t];
      Goto(s.(tokens := s.tokens[pc.sem := s.tokens[pc.sem] - 1]), t, Drained(pc.key, pc.sem))
    case LengthCheck(t) =>
      var pc := s.pcs[t];
      if s.tokens[pc.sem] == 0 then Goto(s, t, Removing(pc.key, pc.sem)) else Finish(s.(lock := None), t)
    case Delete(t) =>
      Finish(s.(sems := s.sems - {s.pcs[t].key}, lock := None), t)
  }

  // ----- the invariant -----

  /** The thread was let through and has not yet given its slot back. */
  predicate Holds(pc: Pc, key: Key) {
    (pc.Holding? || pc.Draining?) && pc.key == key
  }

  function HoldsSlot(key: Key): Pc -> bool {
    pc => Holds(pc, key)
  }

  ghost function Holders(s: State, key: Key): nat {
    Count(s.pcs, HoldsSlot(key))
  }

  predicate HasLock(pc: Pc) {
    pc.Cleaning? || pc.Draining? || pc.Drained? || pc.Removing?
  }

  /** The thread created this channel and has neither sent to it nor given up on it. */
  predicate Created(pc: Pc, c: Chan) {
    ((pc.Sending? || pc.Refused?) && pc.created && pc.sem == c) || (pc.Cleaning? && pc.sem == c)
  }

  /** Somebody is about to fill, or is about to remove, the empty channel `c`. */
  predicate Tended(pc: Pc, key: Key, c: Chan) {
    pc == Sending(key, c, true) || pc == Drained(key, c) || pc == Removing(key, c)
  }

  /** Channels are where they belong. */
  ghost predicate Channels(s: State) {
    && WellFormed(s) && s.max >= 1
    && (forall c | 0 <= c < |s.tokens| :: s.tokens[c] <= s.max)
    && (forall k | k in s.sems :: s.made[s.sems[k]] == k)
    && (forall t | t in s.pcs && !s.pcs[t].Holding? :: s.made[s.pcs[t].sem] == s.pcs[t].key)
  }

  /** The mutex is held by the thread that is in a locked region. */
  ghost predicate Mutex(s: State) {
    && (forall t | t in s.pcs :: HasLock(s.pcs[t]) <==> s.lock == Some(t))
    && (s.lock.Some? ==> s.lock.value in s.pcs)
  }

  ghost predicate Structure(s: State) {
    Channels(s) && Mutex(s)
  }

  ghost predicate OneCreator(s: State) {
    forall t, u, c | t in s.pcs && u in s.pcs && Created(s.pcs[t], c) && Created(s.pcs[u], c) :: u == t
  }

  ghost predicate UnderLock(s: State) {
    forall t | t in s.pcs ::
      var pc := s.pcs[t];
      && (pc.Draining? || pc.Drained? || pc.Removing? ==> pc.key in s.sems && s.sems[pc.key] == pc.sem)
      && (pc.Cleaning? ==> !(pc.key in s.sems && s.sems[pc.key] == pc.sem))
  }

  ghost predicate Backed(s: State)
    requires WellFormed(s)
  {
    forall k | k in s.sems :: s.tokens[s.sems[k]] <= Holders(s, k)
  }

  ghost predicate NoIdleChannel(s: State)
    requires WellFormed(s)
  {
    forall k | k in s.sems && s.tokens[s.sems[k]] == 0 ::
      exists t | t in s.pcs :: Tended(s.pcs[t], k, s.sems[k])
  }

  ghost predicate Inv(s: State) {
    Structure(s) && OneCreator(s) && UnderLock(s) && Backed(s) && NoIdleChannel(s)
  }

  /** An empty mapped channel is tended by somebody, so the thread that created it
      and was then refused finds it unmapped. */
  lemma RefusedIsUnmapped(s: State, t: Tid)
    requires Inv(s) && t in s.pcs && s.pcs[t].Refused? && s.lock == None
    ensures var pc := s.pcs[t];
      pc.created && s.tokens[pc.sem] == 0 ==> !(pc.key in s.sems && s.sems[pc.key] == pc.sem)
  {
    var pc := s.pcs[t];
    if pc.created && s.tokens[pc.sem] == 0 && pc.key in s.sems && s.sems[pc.key] == pc.sem {
      var u :| u in s.pcs && Tended(s.pcs[u], pc.key, pc.sem);
      assert Created(pc, pc.sem);
      assert false;
    }
  }

  lemma ChannelsKept(s: State, a: Action)
    requires Channels(s) && Enabled(s, a)
    ensures Channels(Apply(s, a))
  {
  }

  lemma MutexKept(s: State, a: Action)
    requires Channels(s) && Mutex(s) && Enabled(s, a)
    ensures Mutex(Apply(s, a))
  {
    hide Channels;
  }

  lemma StructureKept(s: State, a: Action)
    requires Inv(s) && Enabled(s, a)
    ensures Structure(Apply(s, a))
  {
    hide OneCreator, UnderLock, Backed, NoIdleChannel, Apply;
    ChannelsKept(s, a);
    MutexKept(s, a);
  }

  lemma OneCreatorKept(s: State, a: Action)
    requires Inv(s) && Enabled(s, a)
    ensures OneCreator(Apply(s, a))
  {
    hide UnderLock, Backed, NoIdleChannel;
    var s' := Apply(s, a);
    forall t, c | t in s'.pcs && Created(s'.pcs[t], c)
      ensures (t in s.pcs && Created(s.pcs[t], c)) || (a.Lookup? && t == a.t && c == |s.tokens|)
    {
    }
  }

  lemma UnderLockKept(s: State, a: Action)
    requires Inv(s) && Enabled(s, a)
    ensures UnderLock(Apply(s, a))
  {
    hide Backed, NoIdleChannel;
    if a.CleanCheck? {
      RefusedIsUnmapped(s, a.t);
    }
  }

  lemma BackedKept(s: State, a: Action)
    requires Inv(s) && Enabled(s, a)
    ensures WellFormed(Apply(s, a)) && Backed(Apply(s, a))
  {
    hide NoIdleChannel;
    var s' := Apply(s, a);
    StructureKept(s, a);
    forall k | k in s'.sems
      ensures s'.tokens[s'.sems[k]] <= Holders(s', k)
    {
      HoldersAfter(s, a, k);
      if a.Lookup? && k !in s.sems {
      } else {
        assert k in s.sems && s'.sems[k] == s.sems[k];
      }
    }
  }

  /** How a step changes the number of threads that hold a slot for `k`. */
  lemma HoldersAfter(s: State, a: Action, k: Key)
    requires WellFormed(s) && Enabled(s, a)
    ensures var before, after := Holders(s, k), Holders(Apply(s, a), k);
      match a
      case Send(t) => after == before + if s.pcs[t].key == k then 1 else 0
      case Receive(t) => after == before - if s.pcs[t].key == k then 1 else 0
      case ReleaseLookup(t) => after == before - if s.pcs[t].key == k && k !in s.sems then 1 else 0
      case _ => after == before
  {
    var s' := Apply(s, a);
    if a.t in s'.pcs {
      CountPut(s.pcs, a.t, s'.pcs[a.t], HoldsSlot(k));
    } else {
      CountDrop(s.pcs, a.t, HoldsSlot(k));
    }
  }

  /** A channel that nobody new tends was mapped and empty before the step. */
  lemma IdleBefore(s: State, a: Action, k: Key)
    requires Channels(s) && UnderLock(s) && Enabled(s, a) && WellFormed(Apply(s, a))
    requires var s' := Apply(s, a);
      k in s'.sems && s'.tokens[s'.sems[k]] == 0 && !(a.t in s'.pcs && Tended(s'.pcs[a.t], k, s'.sems[k]))
    ensures k in s.sems && Apply(s, a).sems[k] == s.sems[k] && s.tokens[s.sems[k]] == 0
    ensures a.t in s.pcs ==> !Tended(s.pcs[a.t], k, s.sems[k])
  {
    hide UnderLock;
    if a.Receive? && s.pcs[a.t].sem == s.sems[k] { ReceivesFromItsOwn(s, a.t, k); }
  }

  lemma ReceivesFromItsOwn(s: State, t: Tid, k: Key)
    requires Channels(s) && t in s.pcs && s.pcs[t].Draining? && k in s.sems && s.sems[k] == s.pcs[t].sem
    ensures k == s.pcs[t].key
  {
  }

  lemma NoIdleChannelKept(s: State, a: Action)
    requires Inv(s) && Enabled(s, a)
    ensures WellFormed(Apply(s, a)) && NoIdleChannel(Apply(s, a))
  {
    hide Backed, Channels, Mutex, UnderLock, OneCreator, Tended;
    StructureKept(s, a);
    ChannelsAreWellFormed(s);
    ChannelsAreWellFormed(Apply(s, a));
    var s' := Apply(s, a);
    forall k | k in s'.sems && s'.tokens[s'.sems[k]] == 0
      ensures exists t | t in s'.pcs :: Tended(s'.pcs[t], k, s'.sems[k])
    {
      var c := s'.sems[k];
      if a.t in s'.pcs && Tended(s'.pcs[a.t], k, c) {
      } else {
        IdleBefore(s, a, k);
        var u :| u in s.pcs && Tended(s.pcs[u], k, c);
        OthersStay(s, a, u);
      }
    }
  }

  lemma ChannelsAreWellFormed(s: State)
    requires Channels(s)
    ensures WellFormed(s)
  {
  }

  lemma OthersStay(s: State, a: Action, u: Tid)
    requires WellFormed(s) && Enabled(s, a) && u in s.pcs && u != a.t
    ensures u in Apply(s, a).pcs && Apply(s, a).pcs[u] == s.pcs[u]
  {
  }

  // ----- every run -----

  predicate Legal(s: State, acts: seq<Action>)
    requires WellFormed(s)
    decreases |acts|
  {
    acts == [] || (Enabled(s, acts[0]) && WellFormed(Apply(s, acts[0])) && Legal(Apply(s, acts[0]), acts[1..]))
  }

  function Exec(s: State, acts: seq<Action>): State
    requires WellFormed(s) && Legal(s, acts)
    decreases |acts|
  {
    if acts == [] then s else Exec(Apply(s, acts[0]), acts[1..])
  }

  lemma InvKept(s: State, a: Action)
    requires Inv(s) && Enabled(s, a)
    ensures Inv(Apply(s, a))
  {
    StructureKept(s, a);
    OneCreatorKept(s, a);
    UnderLockKept(s, a);
    BackedKept(s, a);
    NoIdleChannelKept(s, a);
  }

  lemma {:induction false} InvAlways(s: State, acts: seq<Action>)
    requires Inv(s) && Legal(s, acts)
    ensures Inv(Exec(s, acts))
    decreases |acts|
  {
    hide Apply, OneCreator, UnderLock, Backed, NoIdleChannel;
    if acts != [] {
      InvKept(s, acts[0]);
      InvAlways(Apply(s, acts[0]), acts[1..]);
    }
  }

  lemma InvAtStart(max: nat)
    requires max >= 1
    ensures Inv(Init(max))
  {
  }

  // ----- what the invariant gives -----

  /** A release that finds its channel empty is not stuck: the thread that created
      the channel is still before its send, and that send is possible. */
  lemma ReleaseNotStuck(s: State, t: Tid) returns (sender: Tid)
    requires Inv(s) && t in s.pcs && s.pcs[t].Draining? && s.tokens[s.pcs[t].sem] == 0
    ensures Enabled(s, Send(sender)) && s.pcs[sender].sem == s.pcs[t].sem && sender != t
    ensures Enabled(Apply(s, Send(sender)), Receive(t))
  {
    var pc := s.pcs[t];
    sender :| sender in s.pcs && Tended(s.pcs[sender], pc.key, pc.sem);
    assert HasLock(pc);
    StructureKept(s, Send(sender));
  }

  /** No deadlock: while requests are in flight some thread can take a step. */
  lemma Progress(s: State) returns (a: Action)
    requires Inv(s) && s.pcs != map[]
    ensures Enabled(s, a) && !a.Lookup?
  {
    hide Apply;
    if s.lock.Some? {
      var t := s.lock.value;
      assert HasLock(s.pcs[t]);
      if s.pcs[t].Draining? && s.tokens[s.pcs[t].sem] == 0 {
        var sender := ReleaseNotStuck(s, t);
        a := Send(sender);
      } else {
        a := match s.pcs[t]
             case Cleaning(_, _) => Clean(t)
             case Draining(_, _) => Receive(t)
             case Drained(_, _) => LengthCheck(t)
             case _ => Delete(t);
      }
    } else {
      var t :| t in s.pcs;
      assert !HasLock(s.pcs[t]);
      a := match s.pcs[t]
           case Sending(_, c, _) => if s.tokens[c] < s.max then Send(t) else Refuse(t)
           case Refused(_, _, _) => CleanCheck(t)
           case _ => ReleaseLookup(t);
    }
  }

  ghost function ActiveKeys(s: State): set<Key> {
    set t | t in s.pcs :: s.pcs[t].key
  }

  /** Memory is bounded by the active keys: every map entry belongs to a key that
      has a request in flight, and when none is, the map is empty. */
  lemma MapBounded(s: State)
    requires Inv(s)
    ensures s.sems.Keys <= ActiveKeys(s) && |s.sems| <= |ActiveKeys(s)|
    ensures s.pcs == map[] ==> s.sems == map[]
  {
    forall k | k in s.sems
      ensures k in ActiveKeys(s)
    {
      if s.tokens[s.sems[k]] == 0 {
        var t :| t in s.pcs && Tended(s.pcs[t], k, s.sems[k]);
      } else {
        var t := CountWitness(s.pcs, HoldsSlot(k));
      }
    }
    SubsetSize(s.sems.Keys, ActiveKeys(s));
    assert s.sems.Keys == {} ==> s.sems == map[];
  }

  /** The clean-up after a refused acquire never finds its channel in the map. */
  lemma CleanRemovesNothing(s: State, t: Tid)
    requires Inv(s) && Enabled(s, Clean(t))
    ensures Apply(s, Clean(t)).sems == s.sems
  {
    assert s.pcs[t].Cleaning?;
  }

  // ----- the cap -----

  function Mapped(s: State, k: Key): nat
    requires WellFormed(s)
  {
    if k in s.sems then s.tokens[s.sems[k]] else 0
  }

  /** The mapped channel counts the key's requests in flight. */
  ghost predicate Exact(s: State)
    requires WellFormed(s)
  {
    forall k :: Holders(s, k) == Mapped(s, k)
  }

  /** A step after which the map misses a slot in use: a send to a channel that has
      left the map since it was looked up, or the delete of a channel that was sent
      to after its length was read. */
  predicate Uncounts(s: State, a: Action)
    requires WellFormed(s) && Enabled(s, a)
  {
    || (a.Send? && !(s.pcs[a.t].key in s.sems && s.sems[s.pcs[a.t].key] == s.pcs[a.t].sem))
    || (a.Delete? && s.tokens[s.pcs[a.t].sem] > 0)
  }

  lemma ExactAt(s: State, a: Action, k: Key)
    requires Inv(s) && Exact(s) && Enabled(s, a) && WellFormed(Apply(s, a))
    ensures Uncounts(s, a) && k == s.pcs[a.t].key ==> Holders(Apply(s, a), k) != Mapped(Apply(s, a), k)
    ensures !Uncounts(s, a) ==> Holders(Apply(s, a), k) == Mapped(Apply(s, a), k)
  {
    hide NoIdleChannel, OneCreator;
    HoldersAfter(s, a, k);
    assert Holders(s, k) == Mapped(s, k);
    if a.ReleaseLookup? { CountSome(s.pcs, a.t, HoldsSlot(s.pcs[a.t].key)); }
  }

  /** One step keeps the count exact if and only if it is neither of these. */
  lemma ExactStep(s: State, a: Action)
    requires Inv(s) && Exact(s) && Enabled(s, a)
    ensures WellFormed(Apply(s, a))
    ensures Exact(Apply(s, a)) <==> !Uncounts(s, a)
  {
    StructureKept(s, a);
    if Uncounts(s, a) {
      var k := s.pcs[a.t].key;
      ExactAt(s, a, k);
      assert Holders(Apply(s, a), k) != Mapped(Apply(s, a), k);
    } else {
      forall k
        ensures Holders(Apply(s, a), k) == Mapped(Apply(s, a), k)
      {
        ExactAt(s, a, k);
      }
    }
  }

  predicate KeepsCount(s: State, acts: seq<Action>)
    requires WellFormed(s) && Legal(s, acts)
    decreases |acts|
  {
    acts == [] || (!Uncounts(s, acts[0]) && KeepsCount(Apply(s, acts[0]), acts[1..]))
  }

  /** The per-key cap, on every run without such a step. */
  lemma {:induction false} Capped(s: State, acts: seq<Action>, k: Key)
    requires Inv(s) && Exact(s) && Legal(s, acts) && KeepsCount(s, acts)
    ensures Holders(Exec(s, acts), k) <= s.max
    decreases |acts|
  {
    hide Enabled, UnderLock, Backed, NoIdleChannel, OneCreator;
    if acts == [] {
      assert Holders(s, k) == Mapped(s, k);
    } else {
      InvKept(s, acts[0]);
      ExactStep(s, acts[0]);
      Capped(Apply(s, acts[0]), acts[1..], k);
    }
  }

  /** Lookup and send as one step: nothing runs between them. */
  predicate OneStepAcquire(acts: seq<Action>)
    decreases |acts|
  {
    if acts == [] then true
    else if |acts| > 1 && acts[0].Lookup? && acts[1] == Send(acts[0].t) then OneStepAcquire(acts[2..])
    else !acts[0].Send? && OneStepAcquire(acts[1..])
  }

  /** Nobody has sent to a channel that is about to be deleted. */
  predicate Quiet(s: State)
    requires WellFormed(s)
  {
    forall t | t in s.pcs && s.pcs[t].Removing? :: s.tokens[s.pcs[t].sem] == 0
  }

  /** Only a send while the mutex is held could disturb a delete. */
  lemma QuietStep(s: State, a: Action)
    requires Inv(s) && Quiet(s) && Enabled(s, a) && (a.Send? ==> s.lock == None)
    ensures Inv(Apply(s, a)) && Quiet(Apply(s, a))
  {
    InvKept(s, a);
    hide OneCreator, UnderLock, Backed, NoIdleChannel;
    var s' := Apply(s, a);
    forall t | t in s'.pcs && s'.pcs[t].Removing?
      ensures s'.tokens[s'.pcs[t].sem] == 0
    {
      assert t in s.pcs && (HasLock(s.pcs[t]) <==> s.lock == Some(t));
    }
  }

  lemma {:induction false} OneStepKeepsCount(s: State, acts: seq<Action>)
    requires Inv(s) && Quiet(s) && Legal(s, acts) && OneStepAcquire(acts)
    ensures KeepsCount(s, acts)
    decreases |acts|
  {
    hide OneCreator, UnderLock, Backed, NoIdleChannel, Quiet;
    if acts != [] {
      var s1 := Apply(s, acts[0]);
      QuietStep(s, acts[0]);
      DeleteIsQuiet(s, acts[0]);
      if |acts| > 1 && acts[0].Lookup? && acts[1] == Send(acts[0].t) {
        assert acts[1..][0] == acts[1] && acts[1..][1..] == acts[2..];
        QuietStep(s1, acts[1]);
        OneStepKeepsCount(Apply(s1, acts[1]), acts[2..]);
        assert !Uncounts(s1, acts[1]);
      } else {
        OneStepKeepsCount(s1, acts[1..]);
      }
    }
  }

  lemma DeleteIsQuiet(s: State, a: Action)
    requires WellFormed(s) && Quiet(s) && Enabled(s, a) && !a.Send?
    ensures !Uncounts(s, a)
  {
  }

  /** So the cap holds for every run of the limiter that locks over the send. */
  lemma OneStepCapped(max: nat, acts: seq<Action>, k: Key)
    requires max >= 1 && Legal(Init(max), acts) && OneStepAcquire(acts)
    ensures Holders(Exec(Init(max), acts), k) <= max
  {
    InvAtStart(max);
    OneStepKeepsCount(Init(max), acts);
    assert forall k :: Holders(Init(max), k) == 0;
    Capped(Init(max), acts, k);
  }

  // ----- two runs over the cap -----

  /** For the program as it is the cap can be exceeded, in two ways. Under a cap of
      one a thread looks the channel up while the only holder leaves. Its send comes
      after the channel was deleted, or between the length test and the delete; in
      both cases the channel no longer counts and the next request gets a new one. */
  const LATE_SEND: seq<Action> := [Delete(0)] + ([Send(1)] + NEXT_REQUEST)
  const WINDOW_SEND: seq<Action> := [Send(1)] + ([Delete(0)] + NEXT_REQUEST)
  const NEXT_REQUEST: seq<Action> := [Lookup(2, "u")] + ([Send(2)] + [])

  /** The only holder leaves, and has seen the channel empty. */
  function HolderLeaves(rest: seq<Action>): seq<Action> {
    [Lookup(0, "u")] + ([Send(0)] + ([Lookup(1, "u")] + Releases(rest)))
  }

  function Releases(rest: seq<Action>): seq<Action> {
    [ReleaseLookup(0)] + ([Receive(0)] + ([LengthCheck(0)] + rest))
  }

  /** The states these runs go through, one step after the other. */
  const FOUND := State(1, map["u" := 0], [0], ["u"], None, map[0 := Sending("u", 0, true)])
  const HELD := FOUND.(tokens := [1], pcs := map[0 := Holding("u")])
  const SHARED := HELD.(pcs := map[0 := Holding("u"), 1 := Sending("u", 0, false)])
  const LOCKED := SHARED.(lock := Some(0), pcs := map[0 := Draining("u", 0), 1 := Sending("u", 0, false)])
  const EMPTIED := LOCKED.(tokens := [0], pcs := map[0 := Drained("u", 0), 1 := Sending("u", 0, false)])
  const REMOVING := EMPTIED.(pcs := map[0 := Removing("u", 0), 1 := Sending("u", 0, false)])
  const DELETED := State(1, map[], [0], ["u"], None, map[1 := Sending("u", 0, false)])
  const REFILLED := REMOVING.(tokens := [1], pcs := map[0 := Removing("u", 0), 1 := Holding("u")])
  const UNMAPPED := State(1, map[], [1], ["u"], None, map[1 := Holding("u")])
  const RENEWED :=
    State(1, map["u" := 1], [1, 0], ["u", "u"], None, map[1 := Holding("u"), 2 := Sending("u", 1, true)])
  const BOTH := RENEWED.(tokens := [1, 1], pcs := map[1 := Holding("u"), 2 := Holding("u")])

  lemma HolderArrives()
    ensures Goes(Init(1), Lookup(0, "u"), FOUND) && Goes(FOUND, Send(0), HELD)
  {
  }

  lemma SecondLooksUp()
    ensures Goes(HELD, Lookup(1, "u"), SHARED) && Goes(SHARED, ReleaseLookup(0), LOCKED)
  {
  }

  lemma HolderReceives()
    ensures Goes(LOCKED, Receive(0), EMPTIED)
  {
    assert EMPTIED.pcs == LOCKED.pcs[0 := Drained("u", 0)];
  }

  lemma HolderSeesEmpty()
    ensures Goes(EMPTIED, LengthCheck(0), REMOVING)
  {
    assert REMOVING.pcs == EMPTIED.pcs[0 := Removing("u", 0)];
  }

  lemma SendAfterDelete()
    ensures Goes(REMOVING, Delete(0), DELETED) && Goes(DELETED, Send(1), UNMAPPED)
  {
    assert DELETED.pcs == REMOVING.pcs - {0} && DELETED.sems == REMOVING.sems - {"u"};
  }

  lemma SendBeforeDelete()
    ensures Goes(REMOVING, Send(1), REFILLED)
  {
    assert REFILLED.pcs == REMOVING.pcs[1 := Holding("u")];
  }

  lemma DeleteAfterSend()
    ensures Goes(REFILLED, Delete(0), UNMAPPED)
  {
    assert UNMAPPED.pcs == REFILLED.pcs - {0} && UNMAPPED.sems == REFILLED.sems - {"u"};
  }

  lemma ThirdArrives()
    ensures Goes(UNMAPPED, Lookup(2, "u"), RENEWED) && Goes(RENEWED, Send(2), BOTH)
  {
  }

  lemma CapCanBeExceeded(late: bool)
    ensures var run := HolderLeaves(if late then LATE_SEND else WINDOW_SEND);
      Legal(Init(1), run) && Holders(Exec(Init(1), run), "u") == 2
  {
    hide Exec, Legal, Holders, Goes;
    var rest := if late then LATE_SEND else WINDOW_SEND;
    SendsAndDeletes(late);
    HolderArrives();
    SecondLooksUp();
    HolderReceives();
    HolderSeesEmpty();
    Then(EMPTIED, LengthCheck(0), REMOVING, rest);
    Then(LOCKED, Receive(0), EMPTIED, [LengthCheck(0)] + rest);
    Then(SHARED, ReleaseLookup(0), LOCKED, [Receive(0)] + ([LengthCheck(0)] + rest));
    Then(HELD, Lookup(1, "u"), SHARED, Releases(rest));
    Then(FOUND, Send(0), HELD, [Lookup(1, "u")] + Releases(rest));
    Then(Init(1), Lookup(0, "u"), FOUND, [Send(0)] + ([Lookup(1, "u")] + Releases(rest)));
  }

  lemma SendsAndDeletes(late: bool)
    ensures var rest := if late then LATE_SEND else WINDOW_SEND;
      WellFormed(REMOVING) && Legal(REMOVING, rest) && Holders(Exec(REMOVING, rest), "u") == 2
  {
    hide Exec, Legal, Holders, Goes;
    NextRequest();
    if late {
      SendAfterDelete();
      Then(DELETED, Send(1), UNMAPPED, NEXT_REQUEST);
      Then(REMOVING, Delete(0), DELETED, [Send(1)] + NEXT_REQUEST);
    } else {
      SendBeforeDelete();
      DeleteAfterSend();
      Then(REFILLED, Delete(0), UNMAPPED, NEXT_REQUEST);
      Then(REMOVING, Send(1), REFILLED, [Delete(0)] + NEXT_REQUEST);
    }
  }

  lemma NextRequest()
    ensures WellFormed(UNMAPPED) && Legal(UNMAPPED, NEXT_REQUEST) && Holders(Exec(UNMAPPED, NEXT_REQUEST), "u") == 2
  {
    hide Holders, Goes;
    ThirdArrives();
    TwoHolders(BOTH);
    Then(RENEWED, Send(2), BOTH, []);
    Then(UNMAPPED, Lookup(2, "u"), RENEWED, [Send(2)] + []);
  }

  lemma TwoHolders(s: State)
    requires s.pcs == map[1 := Holding("u"), 2 := Holding("u")]
    ensures Holders(s, "u") == 2
  {
    assert Where(s.pcs, HoldsSlot("u")) == {1, 2};
  }

  predicate Goes(s: State, a: Action, s': State) {
    WellFormed(s) && Enabled(s, a) && WellFormed(s') && Apply(s, a) == s'
  }

  lemma Then(s: State, a: Action, s': State, acts: seq<Action>)
    requires Goes(s, a, s') && WellFormed(s') && Legal(s', acts)
    ensures WellFormed(s) && Legal(s, [a] + acts) && Exec(s, [a] + acts) == Exec(s', acts)
  {
    assert ([a] + acts)[1..] == acts;
  }
}
