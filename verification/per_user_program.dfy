/**
 The per-user limiter as it is written: a map of channels that acquire and release
 change. A call that nobody interferes with goes through exactly the steps that the
 interleaved system describes.
 */
module PerUserProgram {
  import Counting
  import opened Options
  import opened PerUserLimiter

  // ----- an undisturbed call, as a change of the system's state -----

  /** After acquire: a slot is taken if the key's channel, or a new one, has room. */
  function AfterAcquire(s: State, t: Tid, key: Key): (s': State)
    requires WellFormed(s)
    ensures WellFormed(s) && s.lock == None && t !in s.pcs ==> WellFormed(s')
  {
    var isNew := key !in s.sems;
    var c := if isNew then |s.tokens| else s.sems[key];
    var tokens := if isNew then s.tokens + [0] else s.tokens;
    var made := if isNew then s.made + [key] else s.made;
    if tokens[c] < s.max
    then s.(sems := s.sems[key := c], tokens := tokens[c := tokens[c] + 1], made := made,
            pcs := s.pcs[t := Holding(key)])
    else s.(tokens := tokens, made := made)
  }

  /** The receive in release finds a token, or there is no channel to receive from. */
  predicate CanReceive(s: State, key: Key)
    requires WellFormed(s)
  {
    key in s.sems ==> s.tokens[s.sems[key]] >= 1
  }

  /** After release: the slot is back, and an empty channel has left the map. */
  function AfterRelease(s: State, t: Tid, key: Key): State
    requires WellFormed(s) && CanReceive(s, key)
  {
    if key !in s.sems then s.(pcs := s.pcs - {t})
    else
      var c := s.sems[key];
      s.(tokens := s.tokens[c := s.tokens[c] - 1],
         sems := if s.tokens[c] == 1 then s.sems - {key} else s.sems,
         pcs := s.pcs - {t})
  }

  lemma AcquireIsRun(s: State, t: Tid, key: Key) returns (acts: seq<Action>)
    requires WellFormed(s) && s.lock == None && t !in s.pcs
    ensures Legal(s, acts) && OneStepAcquire(acts) && Exec(s, acts) == AfterAcquire(s, t, key)
  {
    hide Legal, Exec, OneStepAcquire, AfterAcquire;
    var s1 := Apply(s, Lookup(t, key));
    acts := AfterLookup(s, s1, t, key);
    if Enabled(s1, Send(t)) {
      Then(s, Lookup(t, key), s1, [Send(t)] + []);
      acts := [Lookup(t, key)] + ([Send(t)] + []);
      PairIsOneStep(acts, t, key);
    } else {
      Then(s, Lookup(t, key), s1, acts);
      acts := [Lookup(t, key)] + acts;
      NoSends(acts);
    }
  }

  lemma PairIsOneStep(acts: seq<Action>, t: Tid, key: Key)
    requires acts == [Lookup(t, key), Send(t)]
    ensures OneStepAcquire(acts)
  {
    assert acts[2..] == [];
  }

  lemma AfterLookup(s: State, s1: State, t: Tid, key: Key) returns (acts: seq<Action>)
    requires WellFormed(s) && s.lock == None && t !in s.pcs && s1 == Apply(s, Lookup(t, key))
    ensures WellFormed(s1) && Legal(s1, acts) && Exec(s1, acts) == AfterAcquire(s, t, key)
    ensures if Enabled(s1, Send(t)) then acts == [Send(t)] + [] else forall a | a in acts :: !a.Send?
  {
    hide Legal, Exec, AfterAcquire, WellFormed;
    LookupIsWellFormed(s, s1, t, key);
    if Enabled(s1, Send(t)) {
      acts := [Send(t)] + [];
      SendEndsAcquire(s, s1, t, key);
    } else {
      acts := RefusalEndsAcquire(s, s1, t, key);
    }
  }

  lemma LookupIsWellFormed(s: State, s1: State, t: Tid, key: Key)
    requires WellFormed(s) && s.lock == None && t !in s.pcs && s1 == Apply(s, Lookup(t, key))
    ensures WellFormed(s1)
  {
  }

  lemma SendEndsAcquire(s: State, s1: State, t: Tid, key: Key)
    requires WellFormed(s) && s.lock == None && t !in s.pcs && s1 == Apply(s, Lookup(t, key))
    requires WellFormed(s1) && Enabled(s1, Send(t))
    ensures Legal(s1, [Send(t)] + []) && Exec(s1, [Send(t)] + []) == AfterAcquire(s, t, key)
  {
    hide Legal, Exec;
    var s2 := Apply(s1, Send(t));
    NothingLeft(s2);
    Then(s1, Send(t), s2, []);
    assert s2.pcs == s.pcs[t := Holding(key)];
  }

  lemma RefusalEndsAcquire(s: State, s1: State, t: Tid, key: Key) returns (acts: seq<Action>)
    requires WellFormed(s) && s.lock == None && t !in s.pcs && s1 == Apply(s, Lookup(t, key))
    requires WellFormed(s1) && !Enabled(s1, Send(t))
    ensures Legal(s1, acts) && Exec(s1, acts) == AfterAcquire(s, t, key) && forall a | a in acts :: !a.Send?
  {
    hide Legal, Exec;
    var s2 := Apply(s1, Refuse(t));
    acts := LeaveRefused(s2, t);
    Then(s1, Refuse(t), s2, acts);
    acts := [Refuse(t)] + acts;
    assert s2.pcs - {t} == s.pcs;
    assert key !in s.sems ==> s2.sems - {key} == s.sems;
  }

  lemma NothingLeft(s: State)
    requires WellFormed(s)
    ensures Legal(s, []) && Exec(s, []) == s
  {
  }

  /** What a refused thread still does: a channel it made itself and found full is
      taken out of the map again. */
  lemma LeaveRefused(s: State, t: Tid) returns (acts: seq<Action>)
    requires WellFormed(s) && s.lock == None && t in s.pcs && s.pcs[t].Refused?
    requires s.pcs[t].created ==>
      s.tokens[s.pcs[t].sem] == 0 && s.pcs[t].key in s.sems && s.sems[s.pcs[t].key] == s.pcs[t].sem
    ensures Legal(s, acts) && forall a | a in acts :: !a.Send?
    ensures Exec(s, acts)
         == s.(pcs := s.pcs - {t}, sems := if s.pcs[t].created then s.sems - {s.pcs[t].key} else s.sems)
  {
    hide Legal, Exec;
    var s1 := Apply(s, CleanCheck(t));
    if s.pcs[t].created {
      var s2 := Apply(s1, Clean(t));
      NothingLeft(s2);
      Then(s1, Clean(t), s2, []);
      Then(s, CleanCheck(t), s1, [Clean(t)] + []);
      acts := [CleanCheck(t)] + ([Clean(t)] + []);
      assert s2.pcs == s.pcs - {t};
    } else {
      NothingLeft(s1);
      Then(s, CleanCheck(t), s1, []);
      acts := [CleanCheck(t)] + [];
    }
  }

  /** What a releasing thread does after the receive: a channel it finds empty is
      taken out of the map. */
  lemma FinishRelease(s: State, t: Tid) returns (acts: seq<Action>)
    requires WellFormed(s) && t in s.pcs && s.pcs[t].Drained?
    ensures Legal(s, acts) && forall a | a in acts :: !a.Send?
    ensures var pc := s.pcs[t];
      Exec(s, acts) == s.(lock := None, pcs := s.pcs - {t},
                          sems := if s.tokens[pc.sem] == 0 then s.sems - {pc.key} else s.sems)
  {
    hide Legal, Exec;
    var s1 := Apply(s, LengthCheck(t));
    if s.tokens[s.pcs[t].sem] == 0 {
      var s2 := Apply(s1, Delete(t));
      NothingLeft(s2);
      Then(s1, Delete(t), s2, []);
      Then(s, LengthCheck(t), s1, [Delete(t)] + []);
      acts := [LengthCheck(t)] + ([Delete(t)] + []);
      assert s2.pcs == s.pcs - {t};
    } else {
      NothingLeft(s1);
      Then(s, LengthCheck(t), s1, []);
      acts := [LengthCheck(t)] + [];
    }
  }

  lemma ReleaseIsRun(s: State, t: Tid, key: Key) returns (acts: seq<Action>)
    requires WellFormed(s) && s.lock == None && t in s.pcs && s.pcs[t] == Holding(key) && CanReceive(s, key)
    ensures Legal(s, acts) && OneStepAcquire(acts) && Exec(s, acts) == AfterRelease(s, t, key)
  {
    hide Legal, Exec;
    var s1 := Apply(s, ReleaseLookup(t));
    if key !in s.sems {
      acts := [ReleaseLookup(t)] + [];
      NothingLeft(s1);
      Then(s, ReleaseLookup(t), s1, []);
      NoSends(acts);
      return;
    }
    var s2 := Apply(s1, Receive(t));
    assert s2.pcs - {t} == s.pcs - {t};
    var rest := FinishRelease(s2, t);
    Then(s1, Receive(t), s2, rest);
    Then(s, ReleaseLookup(t), s1, [Receive(t)] + rest);
    acts := [ReleaseLookup(t)] + ([Receive(t)] + rest);
    NoSends(acts);
  }

  lemma {:induction false} NoSends(acts: seq<Action>)
    requires forall a | a in acts :: !a.Send?
    ensures OneStepAcquire(acts)
    decreases |acts|
  {
    if acts != [] {
      if |acts| > 1 { assert acts[1] in acts; }
      NoSends(acts[1..]);
    }
  }

  /** A request in flight has a token in the mapped channel when the count is exact,
      so its release does not wait. */
  lemma HolderIsCounted(s: State, t: Tid, key: Key)
    requires WellFormed(s) && Exact(s) && t in s.pcs && s.pcs[t] == Holding(key)
    ensures key in s.sems && CanReceive(s, key)
  {
    assert t in Counting.Where(s.pcs, HoldsSlot(key));
    assert Holders(s, key) == Mapped(s, key);
  }

  /** Runs of undisturbed calls keep the count exact. */
  lemma {:induction false} StaysExact(s: State, acts: seq<Action>)
    requires Inv(s) && Exact(s) && Legal(s, acts) && KeepsCount(s, acts)
    ensures WellFormed(Exec(s, acts)) && Exact(Exec(s, acts))
    decreases |acts|
  {
    hide Enabled, UnderLock, Backed, NoIdleChannel, OneCreator;
    if acts != [] {
      InvKept(s, acts[0]);
      ExactStep(s, acts[0]);
      StaysExact(Apply(s, acts[0]), acts[1..]);
    }
  }

  // ----- the program -----

  class PerUserState {
    const max: nat
    var sems: map<Key, Chan>
    /** The number of tokens in each channel made so far, and the key it was made for. */
    var tokens: seq<nat>
    ghost var made: seq<Key>

    constructor (max: nat)
      ensures this.max == max && Shows(Init(max))
    {
      this.max, sems, tokens, made := max, map[], [], [];
    }

    /** The object is where system state `s` says, and the mutex is free. */
    ghost predicate Shows(s: State)
      reads this
    {
      WellFormed(s) && s.max == max && s.sems == sems && s.tokens == tokens && s.made == made && s.lock == None
    }

    method Acquire(key: Key, ghost s: State, ghost t: Tid) returns (ok: bool)
      requires Shows(s) && t !in s.pcs
      modifies this
      ensures Shows(AfterAcquire(s, t, key))
      ensures ok <==> Mapped(s, key) < max
    {
      var existed := key in sems;
      if !existed {
        sems := sems[key := |tokens|];
        tokens := tokens + [0];
        made := made + [key];
      }
      var sem := sems[key];
      if tokens[sem] < max {
        tokens := tokens[sem := tokens[sem] + 1];
        return true;
      }
      if !existed && tokens[sem] == 0 {
        if key in sems && sems[key] == sem {
          sems := sems - {key};
        }
      }
      return false;
    }

    /** `waits` means that the receive blocks, with the mutex held and nothing
        changed; another thread's send then lets it go on. */
    method Release(key: Key, ghost s: State, ghost t: Tid) returns (waits: bool)
      requires Shows(s) && t in s.pcs && s.pcs[t] == Holding(key)
      modifies this
      ensures waits <==> !CanReceive(s, key)
      ensures Shows(if CanReceive(s, key) then AfterRelease(s, t, key) else s)
    {
      waits := false;
      if key !in sems {
        return;
      }
      var sem := sems[key];
      if tokens[sem] == 0 {
        return true;
      }
      tokens := tokens[sem := tokens[sem] - 1];
      if tokens[sem] == 0 {
        sems := sems - {key};
      }
    }
  }
}
