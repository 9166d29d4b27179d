/**
 Go's sort.Slice and sort.Strings, as far as their callers may rely on them, and
 the byte order of strings.
 */
module Sorting {

  /** What sort.Slice asks of `less`. */
  ghost predicate StrictWeak<T(!new)>(less: (T, T) -> bool) {
    && (forall a, b :: less(a, b) ==> !less(b, a))
    && (forall a, b, c :: less(a, c) ==> less(a, b) || less(b, c))
  }

  ghost predicate SortedBy<T>(less: (T, T) -> bool, s: seq<T>) {
    forall i, j | 0 <= i < j < |s| :: !less(s[j], s[i])
  }

  function InsertBy<T>(less: (T, T) -> bool, s: seq<T>, x: T): seq<T> {
    if s == [] || less(x, s[0]) then [x] + s else [s[0]] + InsertBy(less, s[1..], x)
  }

  lemma {:induction false} InsertPermutes<T>(less: (T, T) -> bool, s: seq<T>, x: T)
    ensures multiset(InsertBy(less, s, x)) == multiset(s) + multiset{x}
  {
    if s != [] && !less(x, s[0]) {
      InsertPermutes(less, s[1..], x);
      assert s == [s[0]] + s[1..];
    }
  }

  lemma {:induction false} InsertSorts<T(!new)>(less: (T, T) -> bool, s: seq<T>, x: T)
    requires StrictWeak(less) && SortedBy(less, s)
    ensures SortedBy(less, InsertBy(less, s, x))
  {
    if s != [] && !less(x, s[0]) {
      var rest := InsertBy(less, s[1..], x);
      InsertSorts(less, s[1..], x);
      InsertPermutes(less, s[1..], x);
      forall i | 0 <= i < |rest|
        ensures !less(rest[i], s[0])
      {
        assert rest[i] in multiset(rest);
        assert rest[i] == x || rest[i] in s[1..];
      }
    }
  }

  /** Stands for the library sort. */
  method Sort<T(!new)>(s: seq<T>, less: (T, T) -> bool) returns (sorted: seq<T>)
    requires StrictWeak(less)
    ensures multiset(sorted) == multiset(s) && SortedBy(less, sorted)
  {
    sorted := [];
    for i := 0 to |s|
      invariant multiset(sorted) == multiset(s[..i]) && SortedBy(less, sorted)
    {
      InsertPermutes(less, sorted, s[i]);
      InsertSorts(less, sorted, s[i]);
      assert s[..i + 1] == s[..i] + [s[i]];
      sorted := InsertBy(less, sorted, s[i]);
    }
    assert s[..|s|] == s;
  }

  // ----- strings -----

  /** The bytewise order of Go's `<` on strings. */
  predicate Less(a: string, b: string) {
    b != [] && (a == [] || a[0] < b[0] || (a[0] == b[0] && Less(a[1..], b[1..])))
  }

  lemma {:induction false} LessTotal(a: string, b: string)
    ensures a == b || Less(a, b) || Less(b, a)
    ensures !(Less(a, b) && Less(b, a)) && !Less(a, a)
    decreases |a|
  {
    if a != [] {
      LessTotal(a[1..], a[1..]);
      if b != [] {
        LessTotal(a[1..], b[1..]);
        assert a == [a[0]] + a[1..] && b == [b[0]] + b[1..];
      }
    }
  }

  lemma {:induction false} LessWeak(a: string, b: string, c: string)
    requires Less(a, c)
    ensures Less(a, b) || Less(b, c)
  {
    if a != [] && b != [] && a[0] == b[0] == c[0] {
      LessWeak(a[1..], b[1..], c[1..]);
    }
  }

  /** `a` comes before `b` if and only if at the first place where they differ `a`
      has ended or has the smaller byte. */
  lemma {:induction false} LessExactly(a: string, b: string)
    ensures Less(a, b) <==>
      exists i | 0 <= i <= |a| && i < |b| :: a[..i] == b[..i] && (i == |a| || a[i] < b[i])
  {
    if a == [] || b == [] || a[0] != b[0] {
      FirstPlaceDiffers(a, b);
    } else {
      LessExactly(a[1..], b[1..]);
      if Less(a[1..], b[1..]) {
        var i :| 0 <= i <= |a[1..]| && i < |b[1..]| && a[1..][..i] == b[1..][..i]
                 && (i == |a[1..]| || a[1..][i] < b[1..][i]);
        assert a[..i + 1] == [a[0]] + a[1..][..i] && b[..i + 1] == [b[0]] + b[1..][..i];
      }
      if i :| 0 <= i <= |a| && i < |b| && a[..i] == b[..i] && (i == |a| || a[i] < b[i]) {
        assert i > 0 && a[1..][..i - 1] == a[..i][1..] && b[1..][..i - 1] == b[..i][1..];
      }
    }
  }

  lemma FirstPlaceDiffers(a: string, b: string)
    requires a == [] || b == [] || a[0] != b[0]
    ensures Less(a, b) <==>
      exists i | 0 <= i <= |a| && i < |b| :: a[..i] == b[..i] && (i == |a| || a[i] < b[i])
  {
    if Less(a, b) {
      assert a[..0] == b[..0] && (0 == |a| || a[0] < b[0]);
    }
    forall i | 0 < i <= |a| && i < |b|
      ensures a[..i] != b[..i]
    {
      assert a[..i][0] == a[0] && b[..i][0] == b[0];
    }
  }

  const BYTE_ORDER: (string, string) -> bool := (a, b) => Less(a, b)

  lemma ByteOrderIsStrict()
    ensures StrictWeak(BYTE_ORDER)
  {
    forall a, b
      ensures BYTE_ORDER(a, b) ==> !BYTE_ORDER(b, a)
    {
      LessTotal(a, b);
    }
    forall a, b, c
      ensures BYTE_ORDER(a, c) ==> BYTE_ORDER(a, b) || BYTE_ORDER(b, c)
    {
      if Less(a, c) { LessWeak(a, b, c); }
    }
  }

  // ----- listings without repetition -----

  /** `s` lists the elements of `xs`, each of them once. */
  predicate Lists<T(==)>(s: seq<T>, xs: set<T>) {
    multiset(s) == multiset(xs)
  }

  lemma ListsFacts<T>(s: seq<T>, xs: set<T>)
    requires Lists(s, xs)
    ensures |s| == |xs|
    ensures forall i | 0 <= i < |s| :: s[i] in xs
    ensures forall x | x in xs :: x in s
    ensures forall i, j | 0 <= i < j < |s| :: s[i] != s[j]
  {
    assert |multiset(s)| == |multiset(xs)|;
    forall i | 0 <= i < |s|
      ensures s[i] in xs
    {
      assert s[i] in multiset(s);
    }
    forall x | x in xs
      ensures x in s
    {
      assert x in multiset(s);
    }
    forall i, j | 0 <= i < j < |s|
      ensures s[i] != s[j]
    {
      Twice(s, i, j);
    }
  }

  /** Every finite set has an ascending listing. */
  lemma {:induction false} ListingExists<T(!new)>(xs: set<T>, less: (T, T) -> bool) returns (s: seq<T>)
    requires StrictWeak(less)
    ensures Lists(s, xs) && SortedBy(less, s)
  {
    if xs == {} {
      s := [];
    } else {
      var x :| x in xs;
      var rest := ListingExists(xs - {x}, less);
      s := InsertBy(less, rest, x);
      InsertPermutes(less, rest, x);
      InsertSorts(less, rest, x);
      assert multiset(xs) == multiset(xs - {x}) + multiset{x};
    }
  }

  lemma Twice<T>(s: seq<T>, i: nat, j: nat)
    requires i < j < |s| && multiset(s)[s[i]] <= 1
    ensures s[i] != s[j]
  {
    assert s == s[..i] + [s[i]] + s[i + 1..j] + [s[j]] + s[j + 1..];
  }

  lemma SameFirst(a: seq<string>, b: seq<string>, xs: set<string>)
    requires Lists(a, xs) && Lists(b, xs) && SortedBy(BYTE_ORDER, a) && SortedBy(BYTE_ORDER, b) && a != []
    ensures b != [] && a[0] == b[0]
  {
    ListsFacts(a, xs);
    ListsFacts(b, xs);
    LessTotal(a[0], b[0]);
  }

  lemma ListsRest(s: seq<string>, xs: set<string>)
    requires Lists(s, xs) && s != []
    ensures Lists(s[1..], xs - {s[0]})
  {
    assert s == [s[0]] + s[1..];
    assert s[0] in multiset(s);
    assert multiset(xs - {s[0]}) == multiset(xs) - multiset{s[0]};
  }

  /** Two ascending listings of the same strings are the same list. */
  lemma {:induction false} AscendingUnique(a: seq<string>, b: seq<string>, xs: set<string>)
    requires Lists(a, xs) && Lists(b, xs) && SortedBy(BYTE_ORDER, a) && SortedBy(BYTE_ORDER, b)
    ensures a == b
    decreases |a|
  {
    if a == [] {
      ListsFacts(a, xs);
      ListsFacts(b, xs);
    } else {
      SameFirst(a, b, xs);
      ListsRest(a, xs);
      ListsRest(b, xs);
      AscendingUnique(a[1..], b[1..], xs - {a[0]});
      assert a == [a[0]] + a[1..] && b == [b[0]] + b[1..];
    }
  }
}
