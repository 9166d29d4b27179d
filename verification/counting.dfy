/** Counting the entries of a map that are in a given situation. */
module Counting {

  ghost function Where<K, T>(m: map<K, T>, p: T -> bool): set<K> {
    set t | t in m && p(m[t])
  }

  ghost function Count<K, T>(m: map<K, T>, p: T -> bool): nat {
    |Where(m, p)|
  }

  lemma CountDrop<K, T>(m: map<K, T>, t: K, p: T -> bool)
    ensures Count(m - {t}, p) == Count(m, p) - if t in m && p(m[t]) then 1 else 0
  {
    assert Where(m - {t}, p) == Where(m, p) - {t};
  }

  lemma CountPut<K, T>(m: map<K, T>, t: K, v: T, p: T -> bool)
    ensures Count(m[t := v], p)
         == Count(m, p) - (if t in m && p(m[t]) then 1 else 0) + if p(v) then 1 else 0
  {
    CountDrop(m, t, p);
    CountDrop(m[t := v], t, p);
    assert m[t := v] - {t} == m - {t};
  }

  lemma SizeDrop<K, T>(m: map<K, T>, t: K)
    requires t in m
    ensures |m - {t}| == |m| - 1
  {
    assert (m - {t}).Keys == m.Keys - {t};
  }

  lemma SizePut<K, T>(m: map<K, T>, t: K, v: T)
    ensures |m[t := v]| == |m| + if t in m then 0 else 1
  {
    assert m[t := v].Keys == m.Keys + {t};
  }

  lemma CountAtMostAll<K, T>(m: map<K, T>, p: T -> bool)
    ensures Count(m, p) <= |m|
  {
    SubsetSize(Where(m, p), m.Keys);
  }

  lemma CountSome<K, T>(m: map<K, T>, t: K, p: T -> bool)
    requires t in m && p(m[t])
    ensures Count(m, p) >= 1
  {
    assert t in Where(m, p);
  }

  lemma CountWitness<K, T>(m: map<K, T>, p: T -> bool) returns (t: K)
    requires Count(m, p) >= 1
    ensures t in m && p(m[t])
  {
    t :| t in Where(m, p);
  }

  /** A narrower situation has no more threads in it. */
  lemma CountMonotone<K, T(!new)>(m: map<K, T>, p: T -> bool, q: T -> bool)
    requires forall v :: p(v) ==> q(v)
    ensures Count(m, p) <= Count(m, q)
  {
    SubsetSize(Where(m, p), Where(m, q));
  }

  lemma {:induction false} SubsetSize<T>(a: set<T>, b: set<T>)
    requires a <= b
    ensures |a| <= |b|
  {
    if a != {} {
      var x :| x in a;
      SubsetSize(a - {x}, b - {x});
    }
  }
}
