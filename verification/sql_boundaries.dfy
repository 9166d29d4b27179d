/**
 Where the lexer may be cut. `Look` is the one byte a finished segment depends
 on beyond its own text; everything about joining and splitting queries follows
 from the fact that it depends on nothing else.
 */
module SqlBoundaries {
  import opened Options
  import opened SqlLexer

  /** The byte that follows a segment. The end of the query acts like a newline. */
  function Look(rest: string): char {
    if rest == [] then '\n' else rest[0]
  }

  // ----- each scanner sees its own text and one byte more -----

  lemma {:induction false} LineRunLocal(s: string, x: string, y: string)
    requires LineRun(s + x) <= |s| && Look(x) == Look(y)
    ensures LineRun(s + y) == LineRun(s + x)
  {
    if s == [] {
      assert s + x == x && s + y == y;
    } else if s[0] != '\n' {
      assert (s + x)[1..] == s[1..] + x && (s + y)[1..] == s[1..] + y;
      LineRunLocal(s[1..], x, y);
    }
  }

  lemma {:induction false} WordRunLocal(s: string, x: string, y: string)
    requires WordRun(s + x) <= |s| && Look(x) == Look(y)
    ensures WordRun(s + y) == WordRun(s + x)
  {
    if s == [] {
      assert s + x == x && s + y == y;
    } else if IsWordByte(s[0]) {
      assert (s + x)[1..] == s[1..] + x && (s + y)[1..] == s[1..] + y;
      WordRunLocal(s[1..], x, y);
    }
  }

  lemma {:induction false} TagByteRunLocal(s: string, x: string, y: string)
    requires TagByteRun(s + x) <= |s| && Look(x) == Look(y)
    ensures TagByteRun(s + y) == TagByteRun(s + x)
  {
    if s == [] {
      assert s + x == x && s + y == y;
    } else if IsTagByte(s[0]) {
      assert (s + x)[1..] == s[1..] + x && (s + y)[1..] == s[1..] + y;
      TagByteRunLocal(s[1..], x, y);
    }
  }

  lemma {:induction false} TagRunLocal(s: string, x: string, y: string)
    requires TagRun(s + x) <= |s| && Look(x) == Look(y)
    ensures TagRun(s + y) == TagRun(s + x)
  {
    if s == [] {
      assert s + x == x && s + y == y;
    } else if IsTagStart(s[0]) {
      TagByteRunLocal(s, x, y);
    }
  }

  lemma {:induction false} TagWithinWord(s: string)
    ensures TagByteRun(s) <= WordRun(s)
  {
    if s != [] && IsTagByte(s[0]) {
      TagWithinWord(s[1..]);
    }
  }

  lemma {:induction false} CommentEndLocal(s: string, depth: nat, x: string, y: string)
    requires CommentEnd(s + x, depth).Some? && CommentEnd(s + x, depth).value <= |s|
    ensures CommentEnd(s + y, depth) == CommentEnd(s + x, depth)
    decreases |s|
  {
    if depth > 0 && |s| > 0 {
      assert (s + x)[1..] == s[1..] + x && (s + y)[1..] == s[1..] + y;
      if |s| == 1 {
        CommentEndNeedsCloser(s[1..] + x, depth);
      } else {
        assert (s + x)[2..] == s[2..] + x && (s + y)[2..] == s[2..] + y;
        if Opens(s + x) {
          CommentEndLocal(s[2..], depth + 1, x, y);
        } else if Closes(s + x) {
          CommentEndLocal(s[2..], depth - 1, x, y);
        } else {
          CommentEndLocal(s[1..], depth, x, y);
        }
      }
    } else if depth > 0 {
      CommentEndNeedsCloser(s + x, depth);
    }
  }

  lemma {:induction false} CommentEndNeedsCloser(s: string, depth: nat)
    requires depth > 0 && CommentEnd(s, depth).Some?
    ensures CommentEnd(s, depth).value >= 2
    decreases |s|
  {
    if !Opens(s) && !Closes(s) {
      CommentEndNeedsCloser(s[1..], depth);
    }
  }

  lemma {:induction false} QuoteEndLocal(s: string, q: char, backslash: bool, x: string, y: string)
    requires QuoteEnd(s + x, q, backslash).Some? && QuoteEnd(s + x, q, backslash).value <= |s|
    requires Look(x) == Look(y) && q != '\n'
    ensures QuoteEnd(s + y, q, backslash) == QuoteEnd(s + x, q, backslash)
    ensures !backslash ==> QuoteText(s + y, q) == QuoteText(s + x, q)
    decreases |s|
  {
    if |s| > 0 {
      assert (s + x)[1..] == s[1..] + x && (s + y)[1..] == s[1..] + y;
      if |s| > 1 {
        assert (s + x)[2..] == s[2..] + x && (s + y)[2..] == s[2..] + y;
        if (backslash && s[0] == '\\') || (s[0] == q && s[1] == q) {
          QuoteEndLocal(s[2..], q, backslash, x, y);
        } else if s[0] != q {
          QuoteEndLocal(s[1..], q, backslash, x, y);
        }
      }
    }
  }

  /** A find that lies within the first `n` bytes depends on no others. */
  lemma {:induction false} FindLocal(u: string, v: string, pat: string, n: nat)
    requires n <= |u| && n <= |v| && u[..n] == v[..n]
    requires Find(u, pat).Some? && Find(u, pat).value + |pat| <= n
    ensures Find(v, pat) == Find(u, pat)
  {
    assert |pat| <= n;
    assert u[..|pat|] == u[..n][..|pat|] && v[..|pat|] == v[..n][..|pat|];
    if !(pat <= u) {
      assert !(pat <= v);
      assert u[1..][..n - 1] == u[..n][1..] && v[1..][..n - 1] == v[..n][1..];
      FindLocal(u[1..], v[1..], pat, n - 1);
    }
  }

  lemma DollarEndLocal(s: string, x: string, y: string)
    requires s != [] && s[0] == '$' && Look(x) == Look(y)
    requires match DollarEnd(s + x)
             case NotQuote => 1 + WordRun((s + x)[1..]) <= |s|
             case Quote(end) => end.Some? && end.value <= |s|
    ensures DollarEnd(s + y) == DollarEnd(s + x)
  {
    hide Find, WordRun;
    assert (s + x)[1..] == s[1..] + x && (s + y)[1..] == s[1..] + y;
    var t := 1 + TagRun((s + x)[1..]);
    TagWithinWord((s + x)[1..]);
    TagRunLocal(s[1..], x, y);
    if DollarEnd(s + x).Quote? {
      assert (s + x)[..t + 1] == (s + y)[..t + 1] == s[..t + 1];
      var n := |s| - t - 1;
      assert (s + x)[t + 1..][..n] == s[t + 1..] == (s + y)[t + 1..][..n];
      FindLocal((s + x)[t + 1..], (s + y)[t + 1..], s[..t + 1], n);
    }
  }

  /** A finished segment is decided by its own text and the byte after it. */
  lemma StepLocal(s: string, x: string, y: string)
    requires s != [] && Look(x) == Look(y)
    requires Step(s + x).closed && Step(s + x).len <= |s|
    ensures Step(s + y) == Step(s + x)
  {
    hide CommentEnd, QuoteEnd, QuoteText, WordRun, LineRun, DollarEnd, Lower;
    var sx, sy := s + x, s + y;
    assert sx[1..] == s[1..] + x && sy[1..] == s[1..] + y;
    assert |s| == 1 ==> (|sx| > 1 ==> sx[1] == Look(x)) && (|sy| > 1 ==> sy[1] == Look(y));
    if |s| > 1 {
      assert sx[2..] == s[2..] + x && sy[2..] == s[2..] + y;
    }
    if IsSpace(s[0]) {
    } else if s[0] == '-' && |sx| > 1 && sx[1] == '-' {
      LineRunLocal(s[2..], x, y);
    } else if Opens(sx) {
      CommentEndLocal(s[2..], 1, x, y);
    } else if s[0] == '\'' {
      QuoteEndLocal(s[1..], '\'', false, x, y);
    } else if (s[0] == 'e' || s[0] == 'E') && |sx| > 1 && sx[1] == '\'' {
      QuoteEndLocal(s[2..], '\'', true, x, y);
    } else if s[0] == '"' {
      QuoteEndLocal(s[1..], '"', false, x, y);
    } else if s[0] == '$' {
      DollarEndLocal(s, x, y);
      if DollarEnd(sx).NotQuote? {
        WordRunLocal(s[1..], x, y);
      }
    } else if IsWordStart(s[0]) {
      WordRunLocal(s[1..], x, y);
      var n := 1 + WordRun(sx[1..]);
      assert sx[..n] == sy[..n] == s[..n];
    }
  }

  // ----- cutting the input -----

  /** Reading `s` segment by segment, all of them finished, arrives exactly at `k`. */
  ghost predicate Boundary(s: string, k: nat)
    requires k <= |s|
    decreases |s|
  {
    k == 0 || (Step(s).closed && Step(s).len <= k && Boundary(s[Step(s).len..], k - Step(s).len))
  }

  /** What those segments emit. */
  ghost function Emitted(s: string, k: nat): seq<Token>
    requires k <= |s| && Boundary(s, k)
    decreases |s|
  {
    if k == 0 then [] else Step(s).out + Emitted(s[Step(s).len..], k - Step(s).len)
  }

  /** A query that leaves no literal or comment open. */
  ghost predicate Closed(s: string) {
    Boundary(s, |s|)
  }

  /** Boundaries and emitted tokens, one segment at a time. */
  lemma BoundaryAt(s: string, k: nat)
    requires 0 < k <= |s|
    ensures Boundary(s, k) <==>
      Step(s).closed && Step(s).len <= k && Boundary(s[Step(s).len..], k - Step(s).len)
    ensures Boundary(s, k) ==> Emitted(s, k) == Step(s).out + Emitted(s[Step(s).len..], k - Step(s).len)
  {
    hide Step;
  }

  lemma {:induction false} SplitAtBoundary(s: string, k: nat)
    requires k <= |s| && Boundary(s, k)
    ensures Lex(s) == Emitted(s, k) + Lex(s[k..])
    decreases |s|
  {
    hide Step;
    if k > 0 {
      var n := Step(s).len;
      SplitAtBoundary(s[n..], k - n);
      assert s[n..][k - n..] == s[k..];
    } else {
      assert s[k..] == s;
    }
  }

  /** A cut survives any change behind it that keeps the byte after the cut. */
  lemma {:induction false} BoundaryTransfers(a: string, x: string, y: string)
    requires Boundary(a + x, |a|) && Look(x) == Look(y)
    ensures Boundary(a + y, |a|)
    ensures Emitted(a + y, |a|) == Emitted(a + x, |a|)
    decreases |a|
  {
    hide Step;
    if a != [] {
      BoundaryAt(a + x, |a|);
      StepLocal(a, x, y);
      var n := Step(a + x).len;
      assert (a + x)[n..] == a[n..] + x && (a + y)[n..] == a[n..] + y;
      BoundaryTransfers(a[n..], x, y);
      BoundaryAt(a + y, |a|);
    }
  }

  lemma {:induction false} ClosedExtends(a: string, y: string)
    requires Closed(a) && Look(y) == '\n'
    ensures Boundary(a + y, |a|) && Lex(a + y) == Lex(a) + Lex(y)
  {
    hide Step;
    assert a + [] == a;
    BoundaryTransfers(a, [], y);
    SplitAtBoundary(a + y, |a|);
    SplitAtBoundary(a, |a|);
    assert (a + y)[|a|..] == y;
    assert a[|a|..] == [];
  }

  // ----- queries joined by a newline -----

  /** Text that can finish no literal and no comment. */
  const PROBE: string := "\nx"

  lemma {:induction false} CommentStaysOpen(s: string, depth: nat)
    requires depth > 0 && CommentEnd(s, depth) == None
    ensures CommentEnd(s + PROBE, depth) == None
    decreases |s|
  {
    if s == [] {
      assert s + PROBE == PROBE && PROBE[1..] == "x" && "x"[1..] == [];
      assert CommentEnd("x", depth) == Shift(1, CommentEnd([], depth));
    } else {
      assert (s + PROBE)[1..] == s[1..] + PROBE;
      if |s| > 1 { assert (s + PROBE)[2..] == s[2..] + PROBE; }
      if Opens(s) {
        CommentStaysOpen(s[2..], depth + 1);
      } else if Closes(s) {
        CommentStaysOpen(s[2..], depth - 1);
      } else {
        CommentStaysOpen(s[1..], depth);
      }
    }
  }

  lemma {:induction false} QuoteStaysOpen(s: string, q: char, backslash: bool)
    requires q in {'\'', '"'} && QuoteEnd(s, q, backslash) == None
    ensures QuoteEnd(s + PROBE, q, backslash) == None
    decreases |s|
  {
    assert PROBE[1..] == "x" && "x"[1..] == [];
    assert QuoteEnd("x", q, backslash) == Shift(1, QuoteEnd([], q, backslash));
    if s == [] {
      assert s + PROBE == PROBE;
    } else {
      assert (s + PROBE)[1..] == s[1..] + PROBE;
      if |s| > 1 { assert (s + PROBE)[2..] == s[2..] + PROBE; }
      if backslash && s[0] == '\\' {
        if |s| == 1 {
          assert (s + PROBE)[2..] == "x";
        } else {
          QuoteStaysOpen(s[2..], q, backslash);
        }
      } else if s[0] == q {
        QuoteStaysOpen(s[2..], q, backslash);
      } else {
        QuoteStaysOpen(s[1..], q, backslash);
      }
    }
  }

  lemma {:induction false} FindStaysNone(s: string, pat: string)
    requires pat != [] && pat[|pat| - 1] == '$' && Find(s, pat) == None
    ensures Find(s + PROBE, pat) == None
  {
    var t := s + PROBE;
    if Find(t, pat).Some? {
      var k := Find(t, pat).value;
      FindOccurs(t, pat);
      assert t[k..k + |pat|][|pat| - 1] == t[k + |pat| - 1] == '$';
      assert k + |pat| <= |s|;
      assert s[k..k + |pat|] == t[k..k + |pat|];
      FindIsFirst(s, pat, k);
    }
  }

  lemma StepStaysOpen(s: string)
    requires s != [] && !Step(s).closed
    ensures !Step(s + PROBE).closed && |Step(s + PROBE).out| == |Step(s).out|
    ensures Step(s).len == |s| && Step(s + PROBE).len == |s| + 2
  {
    hide CommentEnd, QuoteEnd, Find;
    var t := s + PROBE;
    assert t[1..] == s[1..] + PROBE;
    if |s| > 1 { assert t[2..] == s[2..] + PROBE; }
    if Opens(s) {
      CommentStaysOpen(s[2..], 1);
    } else if s[0] == '\'' {
      QuoteStaysOpen(s[1..], '\'', false);
    } else if s[0] == '"' {
      QuoteStaysOpen(s[1..], '"', false);
    } else if s[0] == '$' {
      var n := 1 + TagRun(s[1..]);
      TagRunLocal(s[1..], [], PROBE);
      assert s[1..] + [] == s[1..];
      assert t[..n + 1] == s[..n + 1] && t[n + 1..] == s[n + 1..] + PROBE;
      FindStaysNone(s[n + 1..], s[..n + 1]);
    } else {
      QuoteStaysOpen(s[2..], '\'', true);
    }
  }

  lemma CancelPrefix<T>(p: seq<T>, x: seq<T>, y: seq<T>)
    ensures p + x == p + y ==> x == y
  {
    assert (p + x)[|p|..] == x && (p + y)[|p|..] == y;
  }

  lemma ProbeLexes()
    ensures |Lex("x")| == 1
  {
    assert Step("x").len == 1 && |Step("x").out| == 1;
    assert Lex("x") == Step("x").out + Lex("x"[1..]);
  }

  lemma {:induction false} OpenSwallows(a: string)
    requires !Closed(a)
    ensures Lex(a + PROBE) != Lex(a) + Lex("x")
    decreases |a|
  {
    hide Step;
    ProbeLexes();
    var g := Step(a);
    if g.closed {
      assert a + [] == a;
      StepLocal(a, [], PROBE);
      assert (a + PROBE)[g.len..] == a[g.len..] + PROBE;
      OpenSwallows(a[g.len..]);
      assert Lex(a) + Lex("x") == g.out + (Lex(a[g.len..]) + Lex("x"));
      CancelPrefix(g.out, Lex(a[g.len..] + PROBE), Lex(a[g.len..]) + Lex("x"));
    } else {
      StepStaysOpen(a);
      assert Lex(a) == g.out + Lex(a[|a|..]);
      assert Lex(a + PROBE) == Step(a + PROBE).out + Lex((a + PROBE)[|a| + 2..]);
    }
  }

  /** Exactly the queries that leave nothing open can be joined by a newline
      without changing what either of them means to the gate. */
  lemma Concatenation(a: string)
    ensures Closed(a) <==> forall b: string :: Lex(a + "\n" + b) == Lex(a) + Lex(b)
  {
    if Closed(a) {
      forall b: string
        ensures Lex(a + "\n" + b) == Lex(a) + Lex(b)
      {
        NewlineSeparates(a, b);
      }
    } else {
      OpenSwallows(a);
      assert a + "\n" + "x" == a + PROBE;
    }
  }

  lemma StepAtBlank(s: string)
    requires s != [] && IsSpace(s[0])
    ensures Step(s) == Segment(1, [], true)
  {
  }

  lemma NewlineSeparates(a: string, b: string)
    requires Closed(a)
    ensures Lex(a + "\n" + b) == Lex(a) + Lex(b)
  {
    hide Step;
    var y := "\n" + b;
    assert a + "\n" + b == a + y;
    ClosedExtends(a, y);
    StepAtBlank(y);
    assert y[1..] == b && Lex(y) == Step(y).out + Lex(y[1..]);
  }

  // ----- what sits inside a literal does not matter -----

  /** `l` is read as one finished segment in front of `b`, and emits nothing. */
  predicate Silent(l: string, b: string) {
    l != [] && Step(l + b) == Segment(|l|, [], true)
  }

  /** Wherever it sits in the query, one silent segment may replace another that
      begins with the same byte. */
  lemma SilentSwap(a: string, l: string, m: string, b: string)
    requires Silent(l, b) && Silent(m, b) && l[0] == m[0]
    requires Boundary(a + (l + b), |a|)
    ensures Boundary(a + (m + b), |a|)
    ensures Lex(a + (m + b)) == Lex(a + (l + b))
  {
    BoundaryTransfers(a, l + b, m + b);
    SplitAtBoundary(a + (l + b), |a|);
    SplitAtBoundary(a + (m + b), |a|);
    assert (a + (l + b))[|a|..] == l + b && (a + (m + b))[|a|..] == m + b;
    assert (l + b)[|l|..] == b == (m + b)[|m|..];
  }
}
