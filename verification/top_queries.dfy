/**
 The bounded toplist of slow queries: a weighted Space-Saving tracker.
 */
module TopQueryList {
  import opened Options
  import opened Sorting

  const TWO_64: nat := 0x1_0000_0000_0000_0000
  const MAX_U64: nat := TWO_64 - 1

  /** Go's uint64 and its addition. */
  type U64 = n: nat | n < TWO_64

  function Add(a: U64, b: U64): U64 {
    (a + b) % TWO_64
  }

  datatype Stat = Stat(count: U64, totalMs: U64)
  datatype QueryStat = QueryStat(query: string, count: U64, totalMs: U64)
  type Table = map<string, Stat>

  // ----- one call of Record, as a relation -----

  /** What the eviction scan may return: some entry with the least total, if that
      is below the largest uint64, which is what the scan starts from; otherwise
      the empty name it was initialised with. */
  ghost predicate ScanPicks(t: Table, victim: string) {
    if exists q | q in t :: t[q].totalMs < MAX_U64
    then victim in t && t[victim].totalMs < MAX_U64 && forall q | q in t :: t[victim].totalMs <= t[q].totalMs
    else victim == ""
  }

  function Replaced(t: Table, victim: string, query: string, ms: U64): Table
    requires victim in t
  {
    (t - {victim})[query := Stat(Add(t[victim].count, 1), Add(t[victim].totalMs, ms))]
  }

  /** `next` is a possible table after the call; None is the nil dereference that
      follows a scan which found no entry. */
  ghost predicate Recorded(capacity: int, t: Table, query: string, ms: U64, next: Option<Table>) {
    if query in t then
      next == Some(t[query := Stat(Add(t[query].count, 1), Add(t[query].totalMs, ms))])
    else if |t| < capacity then
      next == Some(t[query := Stat(1, ms)])
    else
      exists victim :: ScanPicks(t, victim)
        && next == if victim in t then Some(Replaced(t, victim, query, ms)) else None
  }

  /** A full listing of the table, in some order. */
  function Entries(t: Table): set<QueryStat> {
    set q | q in t :: QueryStat(q, t[q].count, t[q].totalMs)
  }

  lemma EntriesGrow(t: Table, q: string, s: Stat)
    requires q !in t
    ensures QueryStat(q, s.count, s.totalMs) !in Entries(t)
    ensures Entries(t[q := s]) == Entries(t) + {QueryStat(q, s.count, s.totalMs)}
  {
    var u := t[q := s];
    assert forall k | k in t :: u[k] == t[k];
    assert forall e | e in Entries(u) :: e.query in u && e == QueryStat(e.query, u[e.query].count, u[e.query].totalMs);
    assert forall e | e in Entries(t) :: e.query in u && e == QueryStat(e.query, u[e.query].count, u[e.query].totalMs);
    assert QueryStat(q, s.count, s.totalMs) == QueryStat(q, u[q].count, u[q].totalMs);
  }

  ghost predicate Descending(list: seq<QueryStat>) {
    forall i, j | 0 <= i < j < |list| :: list[i].totalMs >= list[j].totalMs
  }

  /** `list` is what Top(n) may return: the first n of a descending listing. */
  ghost predicate IsTop(t: Table, n: nat, list: seq<QueryStat>) {
    exists all: seq<QueryStat> ::
      && multiset(all) == multiset(Entries(t)) && Descending(all)
      && list == if |all| > n then all[..n] else all
  }

  // ----- the program -----

  class TopQueries {
    const capacity: int
    var stats: Table

    constructor (capacity: int)
      ensures this.capacity == capacity && stats == map[]
    {
      this.capacity := capacity;
      stats := map[];
    }

    /** The loop over the map, in whatever order it comes. */
    method Scan() returns (minQuery: string)
      ensures ScanPicks(stats, minQuery)
    {
      minQuery := "";
      var minTotalMs: U64 := MAX_U64;
      var rest := stats.Keys;
      while rest != {}
        invariant rest <= stats.Keys
        invariant minTotalMs == MAX_U64 ==> minQuery == ""
        invariant minTotalMs < MAX_U64 ==> minQuery in stats && stats[minQuery].totalMs == minTotalMs
        invariant forall q | q in stats && q !in rest :: minTotalMs <= stats[q].totalMs
      {
        var q :| q in rest;
        if stats[q].totalMs < minTotalMs {
          minTotalMs := stats[q].totalMs;
          minQuery := q;
        }
        rest := rest - {q};
      }
    }

    method Record(query: string, durationMs: U64) returns (panicked: bool)
      modifies this
      ensures Recorded(capacity, old(stats), query, durationMs, if panicked then None else Some(stats))
      ensures panicked ==> stats == old(stats)
    {
      if query in stats {
        stats := stats[query := Stat(Add(stats[query].count, 1), Add(stats[query].totalMs, durationMs))];
        return false;
      }
      if |stats| < capacity {
        stats := stats[query := Stat(1, durationMs)];
        return false;
      }
      var minQuery := Scan();
      if minQuery !in stats {
        return true;
      }
      var evicted := stats[minQuery];
      stats := stats - {minQuery};
      stats := stats[query := Stat(Add(evicted.count, 1), Add(evicted.totalMs, durationMs))];
      return false;
    }

    /** None is the panic of slicing up to a negative index. */
    method Top(n: int) returns (r: Option<seq<QueryStat>>)
      ensures r.Some? <==> n >= 0
      ensures r.Some? ==> IsTop(stats, n, r.value)
    {
      var list: seq<QueryStat> := [];
      var rest := stats.Keys;
      while rest != {}
        invariant rest <= stats.Keys
        invariant multiset(list) == multiset(Entries(stats - rest))
      {
        var q :| q in rest;
        var entry := QueryStat(q, stats[q].count, stats[q].totalMs);
        assert stats - (rest - {q}) == (stats - rest)[q := stats[q]];
        EntriesGrow(stats - rest, q, stats[q]);
        list := list + [entry];
        rest := rest - {q};
      }
      assert stats - {} == stats;
      list := Sort(list, SLOWER);
      if |list| > n {
        if n < 0 {
          return None;
        }
        list := list[..n];
      }
      return Some(list);
    }
  }

  /** The comparison Top passes to sort.Slice. */
  const SLOWER: (QueryStat, QueryStat) -> bool := (a: QueryStat, b: QueryStat) => a.totalMs > b.totalMs
}
