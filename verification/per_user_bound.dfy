/**
 How far a key's requests in flight can exceed the cap, over every interleaving: by
 at most one for each send that comes too late.
 */
module PerUserBound {
  import opened Counting
  import opened Options
  import opened PerUserLimiter

  /** A lookup of `k` may still find channel `c`: it is mapped, and nobody has
      decided to delete it. */
  predicate Findable(s: State, k: Key, c: Chan) {
    && k in s.sems && s.sems[k] == c
    && !(s.lock.Some? && s.lock.value in s.pcs && s.pcs[s.lock.value] == Removing(k, c))
  }

  /** The tokens that the next lookup of `k` will find in its channel. */
  function Visible(s: State, k: Key): nat
    requires WellFormed(s)
  {
    if k in s.sems && Findable(s, k, s.sems[k]) then s.tokens[s.sems[k]] else 0
  }

  /** A send for `k` that no later lookup of `k` will see. */
  predicate Late(s: State, a: Action, k: Key)
    requires WellFormed(s) && Enabled(s, a)
  {
    a.Send? && s.pcs[a.t].key == k && !Findable(s, k, s.pcs[a.t].sem)
  }

  function LateSends(s: State, acts: seq<Action>, k: Key): nat
    requires WellFormed(s) && Legal(s, acts)
    decreases |acts|
  {
    if acts == [] then 0
    else (if Late(s, acts[0], k) then 1 else 0) + LateSends(Apply(s, acts[0]), acts[1..], k)
  }

  /** One step moves the requests in flight away from what is visible by at most
      one, and only if it is a late send. */
  lemma ExcessStep(s: State, a: Action, k: Key)
    requires Inv(s) && Enabled(s, a) && WellFormed(Apply(s, a))
    ensures var s' := Apply(s, a);
      Holders(s', k) + Visible(s, k) <= Holders(s, k) + Visible(s', k) + if Late(s, a, k) then 1 else 0
  {
    hide NoIdleChannel, OneCreator, Backed;
    HoldersAfter(s, a, k);
    assert a.t in s.pcs ==> (HasLock(s.pcs[a.t]) <==> s.lock == Some(a.t));
  }

  lemma {:induction false} ExcessGrows(s: State, acts: seq<Action>, k: Key)
    requires Inv(s) && Legal(s, acts)
    ensures WellFormed(Exec(s, acts)) && Exec(s, acts).max == s.max && Inv(Exec(s, acts))
    ensures Holders(Exec(s, acts), k) + Visible(s, k) <= Holders(s, k) + Visible(Exec(s, acts), k) + LateSends(s, acts, k)
    decreases |acts|
  {
    hide OneCreator, UnderLock, Backed, NoIdleChannel, Visible, Late;
    if acts != [] {
      InvKept(s, acts[0]);
      ExcessStep(s, acts[0], k);
      ExcessGrows(Apply(s, acts[0]), acts[1..], k);
    }
  }

  /** Over every run a key's requests in flight number at most the cap and one for
      each of its late sends. */
  lemma CappedPlusLate(max: nat, acts: seq<Action>, k: Key)
    requires max >= 1 && Legal(Init(max), acts)
    ensures Holders(Exec(Init(max), acts), k) <= max + LateSends(Init(max), acts, k)
  {
    InvAtStart(max);
    assert Holders(Init(max), k) == 0;
    ExcessGrows(Init(max), acts, k);
  }
}
