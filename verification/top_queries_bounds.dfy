/**
 The Space-Saving guarantee, over every stream of Record calls: what the bounded
 table says about the true totals it does not store.
 */
module TopQueryBounds {
  import opened Options
  import opened Sorting
  import opened TopQueryList

  datatype Event = Event(query: string, ms: U64)

  // ----- the truth -----

  ghost function TrueTotal(stream: seq<Event>, q: string): nat {
    if stream == [] then 0 else
      var e := stream[|stream| - 1];
      TrueTotal(stream[..|stream| - 1], q) + if e.query == q then e.ms else 0
  }

  ghost function GrandTotal(stream: seq<Event>): nat {
    if stream == [] then 0 else GrandTotal(stream[..|stream| - 1]) + stream[|stream| - 1].ms
  }

  // ----- what the table stores -----

  ghost function Sum(t: Table, f: Stat -> nat): nat {
    if t == map[] then 0 else
      var q :| q in t;
      f(t[q]) + Sum(t - {q}, f)
  }

  ghost const TOTAL: Stat -> nat := (s: Stat) => s.totalMs
  ghost const COUNT: Stat -> nat := (s: Stat) => s.count

  lemma {:induction false} SumWithout(t: Table, f: Stat -> nat, q: string)
    requires q in t
    ensures Sum(t, f) == f(t[q]) + Sum(t - {q}, f)
    decreases |t|
  {
    var p :| p in t && Sum(t, f) == f(t[p]) + Sum(t - {p}, f);
    if p != q {
      SumWithout(t - {p}, f, q);
      SumWithout(t - {q}, f, p);
      assert t - {p} - {q} == t - {q} - {p};
    }
  }

  lemma SumInsert(t: Table, f: Stat -> nat, q: string, s: Stat)
    requires q !in t
    ensures Sum(t[q := s], f) == f(s) + Sum(t, f)
  {
    SumWithout(t[q := s], f, q);
    assert t[q := s] - {q} == t;
  }

  lemma SumUpdate(t: Table, f: Stat -> nat, q: string, s: Stat)
    requires q in t
    ensures Sum(t[q := s], f) + f(t[q]) == f(s) + Sum(t, f)
  {
    SumWithout(t, f, q);
    SumInsert(t - {q}, f, q, s);
    assert (t - {q})[q := s] == t[q := s];
  }

  lemma {:induction false} SumAtLeast(t: Table, f: Stat -> nat, low: nat)
    requires forall q | q in t :: low <= f(t[q])
    ensures |t| * low <= Sum(t, f)
    decreases |t|
  {
    if t != map[] {
      var q :| q in t && Sum(t, f) == f(t[q]) + Sum(t - {q}, f);
      SumAtLeast(t - {q}, f, low);
      assert |t| * low == (|t| - 1) * low + low;
    }
  }

  /** `low` is the least total of a full table, and 0 while there is room. */
  ghost predicate IsFloor(capacity: int, t: Table, low: nat) {
    if |t| < capacity then low == 0
    else (exists q | q in t :: t[q].totalMs == low) && forall q | q in t :: low <= t[q].totalMs
  }

  // ----- every stream -----

  /** The tables a tracker may go through, from the empty one. */
  ghost predicate Run(capacity: int, stream: seq<Event>, tables: seq<Table>) {
    && |tables| == |stream| + 1 && tables[0] == map[]
    && forall i | 0 <= i < |stream| ::
         Recorded(capacity, tables[i], stream[i].query, stream[i].ms, Some(tables[i + 1]))
  }

  /** No counter can have wrapped, and the scan's starting value is out of reach. */
  ghost predicate InRange(stream: seq<Event>) {
    GrandTotal(stream) < MAX_U64 && |stream| <= MAX_U64
  }

  /** The guarantee, for the table after `stream`. */
  ghost predicate Sketch(capacity: int, stream: seq<Event>, t: Table, low: nat) {
    && |t| <= capacity && IsFloor(capacity, t, low)
    && Conserves(stream, t) && Brackets(stream, t, low)
  }

  /** Nothing is lost: the table's totals and counts add up to the stream's. */
  ghost predicate Conserves(stream: seq<Event>, t: Table) {
    Sum(t, TOTAL) == GrandTotal(stream) && Sum(t, COUNT) == |stream|
  }

  ghost predicate Brackets(stream: seq<Event>, t: Table, low: nat) {
    && (forall q | q in t :: TrueTotal(stream, q) <= t[q].totalMs <= TrueTotal(stream, q) + low)
    && (forall q | q !in t :: TrueTotal(stream, q) <= low)
  }

  lemma TotalsWithin(t: Table, f: Stat -> nat, q: string)
    requires q in t
    ensures f(t[q]) <= Sum(t, f)
  {
    SumWithout(t, f, q);
  }

  lemma {:induction false} FloorExists(capacity: int, t: Table) returns (low: nat)
    requires capacity >= 1
    ensures IsFloor(capacity, t, low)
  {
    if |t| < capacity {
      low := 0;
    } else {
      var q := LeastEntry(t);
      low := t[q].totalMs;
    }
  }

  lemma {:induction false} LeastEntry(t: Table) returns (q: string)
    requires t != map[]
    ensures q in t && forall p | p in t :: t[q].totalMs <= t[p].totalMs
    decreases |t|
  {
    var p :| p in t;
    if t - {p} == map[] {
      q := p;
      assert forall r | r in t :: r == p || r in t - {p};
    } else {
      q := LeastEntry(t - {p});
      assert forall r | r in t && r != p :: r in t - {p};
      if t[p].totalMs < t[q].totalMs { q := p; }
    }
  }

  lemma StreamGrows(stream: seq<Event>, e: Event)
    ensures GrandTotal(stream + [e]) == GrandTotal(stream) + e.ms
    ensures forall q :: TrueTotal(stream + [e], q) == TrueTotal(stream, q) + if e.query == q then e.ms else 0
  {
    assert (stream + [e])[..|stream|] == stream;
  }

  /** Counters of a table whose sums are known do not wrap when `e` is added. */
  lemma NoWrap(stream: seq<Event>, t: Table, e: Event, q: string)
    requires InRange(stream + [e]) && q in t
    requires Conserves(stream, t)
    ensures Add(t[q].totalMs, e.ms) == t[q].totalMs + e.ms < MAX_U64
    ensures Add(t[q].count, 1) == t[q].count + 1
  {
    StreamGrows(stream, e);
    TotalsWithin(t, TOTAL, q);
    TotalsWithin(t, COUNT, q);
  }

  lemma HitConserves(stream: seq<Event>, t: Table, e: Event)
    requires InRange(stream + [e]) && Conserves(stream, t) && e.query in t
    ensures var s := t[e.query];
      && Conserves(stream + [e], t[e.query := Stat(Add(s.count, 1), Add(s.totalMs, e.ms))])
      && Add(s.totalMs, e.ms) == s.totalMs + e.ms
  {
    hide InRange;
    var s := t[e.query];
    var s' := Stat(Add(s.count, 1), Add(s.totalMs, e.ms));
    StreamGrows(stream, e);
    NoWrap(stream, t, e, e.query);
    SumUpdate(t, TOTAL, e.query, s');
    SumUpdate(t, COUNT, e.query, s');
  }

  lemma KeepsHit(capacity: int, stream: seq<Event>, t: Table, low: nat, e: Event) returns (newLow: nat)
    requires capacity >= 1 && InRange(stream + [e]) && Sketch(capacity, stream, t, low) && e.query in t
    ensures var s := t[e.query];
            var next := t[e.query := Stat(Add(s.count, 1), Add(s.totalMs, e.ms))];
            Sketch(capacity, stream + [e], next, newLow) && low <= newLow
  {
    hide Conserves, InRange;
    var s := t[e.query];
    var next := t[e.query := Stat(Add(s.count, 1), Add(s.totalMs, e.ms))];
    assert next.Keys == t.Keys && |next.Keys| == |next| && |t.Keys| == |t|;
    HitConserves(stream, t, e);
    newLow := FloorExists(capacity, next);
    HitBrackets(stream, t, low, e, next, newLow);
  }

  lemma HitBrackets(stream: seq<Event>, t: Table, low: nat, e: Event, next: Table, newLow: nat)
    requires Brackets(stream, t, low) && low <= newLow && e.query in t && next.Keys == t.Keys
    requires next[e.query].totalMs == t[e.query].totalMs + e.ms
    requires forall q | q in t && q != e.query :: next[q] == t[q]
    ensures Brackets(stream + [e], next, newLow)
  {
    hide TrueTotal;
    StreamGrows(stream, e);
  }

  lemma InsertConserves(stream: seq<Event>, t: Table, e: Event)
    requires Conserves(stream, t) && e.query !in t
    ensures Conserves(stream + [e], t[e.query := Stat(1, e.ms)])
  {
    StreamGrows(stream, e);
    SumInsert(t, TOTAL, e.query, Stat(1, e.ms));
    SumInsert(t, COUNT, e.query, Stat(1, e.ms));
  }

  lemma KeepsInsert(capacity: int, stream: seq<Event>, t: Table, low: nat, e: Event) returns (newLow: nat)
    requires capacity >= 1 && Sketch(capacity, stream, t, low) && e.query !in t && |t| < capacity
    ensures Sketch(capacity, stream + [e], t[e.query := Stat(1, e.ms)], newLow) && low <= newLow
  {
    var next := t[e.query := Stat(1, e.ms)];
    newLow := FloorExists(capacity, next);
    InsertConserves(stream, t, e);
    hide Conserves;
    StreamGrows(stream, e);
  }

  lemma EvictConserves(stream: seq<Event>, t: Table, e: Event, victim: string)
    requires InRange(stream + [e]) && Conserves(stream, t) && victim in t && e.query !in t
    ensures Conserves(stream + [e], Replaced(t, victim, e.query, e.ms))
    ensures Replaced(t, victim, e.query, e.ms)[e.query].totalMs == t[victim].totalMs + e.ms
  {
    var s := Stat(Add(t[victim].count, 1), Add(t[victim].totalMs, e.ms));
    StreamGrows(stream, e);
    NoWrap(stream, t, e, victim);
    SumWithout(t, TOTAL, victim);
    SumWithout(t, COUNT, victim);
    SumInsert(t - {victim}, TOTAL, e.query, s);
    SumInsert(t - {victim}, COUNT, e.query, s);
  }

  lemma EvictBrackets(stream: seq<Event>, t: Table, low: nat, e: Event, victim: string, newLow: nat)
    requires Brackets(stream, t, low) && victim in t && t[victim].totalMs == low <= newLow && e.query !in t
    requires Replaced(t, victim, e.query, e.ms)[e.query].totalMs == low + e.ms
    ensures Brackets(stream + [e], Replaced(t, victim, e.query, e.ms), newLow)
  {
    StreamGrows(stream, e);
  }

  lemma KeepsEvict(capacity: int, stream: seq<Event>, t: Table, low: nat, e: Event, victim: string)
    returns (newLow: nat)
    requires capacity >= 1 && InRange(stream + [e]) && Sketch(capacity, stream, t, low)
    requires e.query !in t && |t| >= capacity && victim in t && t[victim].totalMs == low
    ensures Sketch(capacity, stream + [e], Replaced(t, victim, e.query, e.ms), newLow) && low <= newLow
  {
    hide Conserves, Brackets, InRange;
    var next := Replaced(t, victim, e.query, e.ms);
    EvictConserves(stream, t, e, victim);
    assert t.Keys == (t - {victim}).Keys + {victim};
    newLow := FloorExists(capacity, next);
    EvictBrackets(stream, t, low, e, victim, newLow);
  }

  /** While the counters are in range the scan always finds a least entry. */
  lemma ScanFinds(capacity: int, stream: seq<Event>, t: Table, low: nat, victim: string)
    requires capacity >= 1 && GrandTotal(stream) < MAX_U64 && Sketch(capacity, stream, t, low)
    requires |t| >= capacity && ScanPicks(t, victim)
    ensures victim in t && t[victim].totalMs == low
  {
    var q :| q in t && t[q].totalMs == low;
    TotalsWithin(t, TOTAL, q);
  }

  /** One call keeps the guarantee, cannot panic, and never lowers the floor. */
  lemma RecordKeeps(capacity: int, stream: seq<Event>, t: Table, low: nat, e: Event, next: Option<Table>)
    returns (newLow: nat)
    requires capacity >= 1 && InRange(stream + [e]) && Sketch(capacity, stream, t, low)
    requires Recorded(capacity, t, e.query, e.ms, next)
    ensures next.Some? && Sketch(capacity, stream + [e], next.value, newLow) && low <= newLow
  {
    if e.query in t {
      newLow := KeepsHit(capacity, stream, t, low, e);
    } else if |t| < capacity {
      newLow := KeepsInsert(capacity, stream, t, low, e);
    } else {
      var victim :| ScanPicks(t, victim)
        && next == if victim in t then Some(Replaced(t, victim, e.query, e.ms)) else None;
      StreamGrows(stream, e);
      ScanFinds(capacity, stream, t, low, victim);
      newLow := KeepsEvict(capacity, stream, t, low, e, victim);
    }
  }

  /** The guarantee holds after every stream. */
  lemma {:induction false} Guarantee(capacity: int, stream: seq<Event>, tables: seq<Table>) returns (low: nat)
    requires capacity >= 1 && InRange(stream) && Run(capacity, stream, tables)
    ensures Sketch(capacity, stream, tables[|stream|], low)
    decreases |stream|
  {
    if stream == [] {
      low := 0;
    } else {
      var n := |stream| - 1;
      var before, e := stream[..n], stream[n];
      assert stream == before + [e];
      StreamGrows(before, e);
      assert Run(capacity, before, tables[..n + 1]);
      var low' := Guarantee(capacity, before, tables[..n + 1]);
      low := RecordKeeps(capacity, before, tables[n], low', e, Some(tables[n + 1]));
    }
  }

  /** The floor never falls: what once was small enough to be forgotten never
      bounds less later. */
  lemma {:induction false} FloorRises(capacity: int, stream: seq<Event>, tables: seq<Table>, i: nat, low: nat, high: nat)
    requires capacity >= 1 && InRange(stream) && Run(capacity, stream, tables) && i <= |stream|
    requires IsFloor(capacity, tables[i], low) && IsFloor(capacity, tables[|stream|], high)
    ensures low <= high
    decreases |stream| - i
  {
    if i < |stream| {
      var m := FloorStep(capacity, stream, tables, i, low);
      FloorRises(capacity, stream, tables, i + 1, m, high);
    }
  }

  lemma FloorStep(capacity: int, stream: seq<Event>, tables: seq<Table>, i: nat, low: nat) returns (m: nat)
    requires capacity >= 1 && InRange(stream) && Run(capacity, stream, tables) && i < |stream|
    requires IsFloor(capacity, tables[i], low)
    ensures IsFloor(capacity, tables[i + 1], m) && low <= m
  {
    hide Recorded, InRange;
    var before, e := stream[..i], stream[i];
    PrefixInRange(stream, i);
    PrefixInRange(stream, i + 1);
    assert stream[..i + 1] == before + [e];
    assert Run(capacity, before, tables[..i + 1]);
    var l := Guarantee(capacity, before, tables[..i + 1]);
    m := RecordKeeps(capacity, before, tables[i], l, e, Some(tables[i + 1]));
  }

  lemma {:induction false} PrefixInRange(stream: seq<Event>, i: nat)
    requires i <= |stream| && InRange(stream)
    ensures InRange(stream[..i])
    decreases |stream|
  {
    if i < |stream| {
      var n := |stream| - 1;
      PrefixInRange(stream[..n], i);
      assert stream[..n][..i] == stream[..i];
    } else {
      assert stream[..i] == stream;
    }
  }

  lemma Scale(k: nat, a: nat, b: nat)
    requires a <= b
    ensures k * a <= k * b
  {
  }

  /** A query that took more than its share of the total time is in the table. */
  lemma HeavyHitters(capacity: int, stream: seq<Event>, t: Table, low: nat, q: string)
    requires capacity >= 1 && Sketch(capacity, stream, t, low)
    ensures capacity * low <= GrandTotal(stream)
    ensures capacity * TrueTotal(stream, q) > GrandTotal(stream) ==> q in t
  {
    if |t| == capacity {
      SumAtLeast(t, TOTAL, low);
    }
    if q !in t {
      Scale(capacity, TrueTotal(stream, q), low);
    }
  }

  // ----- the toplist -----

  lemma ListedOnce(t: Table, all: seq<QueryStat>, i: nat)
    requires multiset(all) == multiset(Entries(t)) && i < |all|
    ensures all[i].query in t && all[i].totalMs == t[all[i].query].totalMs && all[i].count == t[all[i].query].count
  {
    assert all[i] in multiset(all);
  }

  lemma EveryEntryListed(t: Table, all: seq<QueryStat>, q: string) returns (i: nat)
    requires multiset(all) == multiset(Entries(t)) && q in t
    ensures i < |all| && all[i].query == q && all[i].totalMs == t[q].totalMs
  {
    var entry := QueryStat(q, t[q].count, t[q].totalMs);
    assert entry in Entries(t);
    assert entry in multiset(all);
    i :| 0 <= i < |all| && all[i] == entry;
  }

  lemma EmptyTop(stream: seq<Event>, t: Table, all: seq<QueryStat>)
    requires Conserves(stream, t) && multiset(all) == multiset(Entries(t)) && all == []
    ensures stream == []
  {
    if t != map[] {
      var p :| p in t;
      var i := EveryEntryListed(t, all, p);
      assert false;
    }
  }

  lemma ShownBounds(t: Table, all: seq<QueryStat>, last: nat, q: string)
    requires multiset(all) == multiset(Entries(t)) && Descending(all) && last < |all| && q in t
    requires forall i | 0 <= i <= last :: all[i].query != q
    ensures t[q].totalMs <= all[last].totalMs
  {
    hide Entries;
    var i := EveryEntryListed(t, all, q);
  }

  /** Top lists as many entries as were asked for, or all there are: entries of the
      table with their counts and totals, none twice, the slowest first. */
  lemma TopExactly(t: Table, n: nat, list: seq<QueryStat>, i: nat, j: nat)
    requires IsTop(t, n, list)
    ensures |list| == if n < |t| then n else |t|
    ensures i < |list| ==> list[i].query in t && list[i].totalMs == t[list[i].query].totalMs
                           && list[i].count == t[list[i].query].count
    ensures i < j < |list| ==> list[i].query != list[j].query && list[i].totalMs >= list[j].totalMs
  {
    hide Entries;
    var all: seq<QueryStat> :| multiset(all) == multiset(Entries(t)) && Descending(all)
                               && list == if |all| > n then all[..n] else all;
    EntriesSize(t, all);
    if i < |list| { ListedOnce(t, all, i); }
    if i < j < |list| {
      ListedOnce(t, all, j);
      EntriesDiffer(t, all, i, j);
    }
  }

  lemma {:induction false} EntriesSize(t: Table, all: seq<QueryStat>)
    requires multiset(all) == multiset(Entries(t))
    ensures |all| == |t|
  {
    assert |all| == |multiset(all)| == |multiset(Entries(t))| == |Entries(t)|;
    EntriesCount(t);
  }

  lemma {:induction false} EntriesCount(t: Table)
    ensures |Entries(t)| == |t|
    decreases |t|
  {
    if t != map[] {
      var q :| q in t;
      EntriesCount(t - {q});
      EntriesGrow(t - {q}, q, t[q]);
      assert (t - {q})[q := t[q]] == t;
    } else {
      assert Entries(t) == {};
    }
  }

  lemma EntriesDiffer(t: Table, all: seq<QueryStat>, i: nat, j: nat)
    requires multiset(all) == multiset(Entries(t)) && i < j < |all|
    ensures all[i].query != all[j].query
  {
    ListedOnce(t, all, i);
    ListedOnce(t, all, j);
    ListsFacts(all, Entries(t));
  }

  /** Top is sound for the true totals: whatever it leaves out took no more time
      than the last entry says it shows, and an empty list means an empty stream. */
  lemma TopSound(capacity: int, stream: seq<Event>, t: Table, low: nat, n: nat, list: seq<QueryStat>, q: string)
    requires capacity >= 1 && Sketch(capacity, stream, t, low)
    requires n >= 1 && IsTop(t, n, list)
    requires forall i | 0 <= i < |list| :: list[i].query != q
    ensures list == [] ==> stream == []
    ensures list != [] ==> TrueTotal(stream, q) <= list[|list| - 1].totalMs
  {
    hide Conserves, Entries, Descending, TrueTotal;
    var all: seq<QueryStat> :| multiset(all) == multiset(Entries(t)) && Descending(all)
                               && list == if |all| > n then all[..n] else all;
    if list == [] {
      EmptyTop(stream, t, all);
    } else {
      var last := |list| - 1;
      ListedOnce(t, all, last);
      if q in t {
        ShownBounds(t, all, last, q);
      } else {
        FloorBelow(capacity, t, low, all[last].query);
      }
    }
  }

  lemma FloorBelow(capacity: int, t: Table, low: nat, p: string)
    requires IsFloor(capacity, t, low) && p in t
    ensures low <= t[p].totalMs
  {
  }

  // ----- where the guarantee ends -----

  /** Exactly when a call panics: a full table in which every total has reached
      the largest uint64, a new query, and no entry under the empty name. */
  lemma PanicsExactlyWhen(capacity: int, t: Table, query: string, ms: U64)
    ensures Recorded(capacity, t, query, ms, None) <==>
      query !in t && |t| >= capacity && "" !in t && forall q | q in t :: t[q].totalMs == MAX_U64
  {
    if query !in t && |t| >= capacity && "" !in t && forall q | q in t :: t[q].totalMs == MAX_U64 {
      assert ScanPicks(t, "");
    }
  }

  /** The bound on the grand total cannot be dropped: one call of the largest
      duration makes the next new query panic, and the next repeat wrap to zero. */
  lemma RangeIsNeeded()
    ensures MAX_U64 == 18446744073709551615
    ensures var t := map["a" := Stat(1, 18446744073709551615)];
      && Run(1, [Event("a", 18446744073709551615)], [map[], t])
      && Recorded(1, t, "b", 0, None)
      && Recorded(1, t, "a", 1, Some(map["a" := Stat(2, 0)]))
  {
    var t := map["a" := Stat(1, MAX_U64)];
    PanicsExactlyWhen(1, t, "b", 0);
    assert t["a" := Stat(Add(1, 1), Add(MAX_U64, 1))] == map["a" := Stat(2, 0)];
    assert map["a" := Stat(1, MAX_U64)] == map[]["a" := Stat(1, MAX_U64)];
  }
}
