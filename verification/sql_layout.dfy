/**
 A printer for queries, as an independent description of what the lexer reads:
 pieces of SQL text, what each of them looks like, and when two of them may
 stand next to each other. The lexer is its inverse.
 */
module SqlLayout {
  import opened Options
  import opened SqlLexer
  import opened SqlBoundaries

  lemma Regroup<T>(a: seq<T>, b: seq<T>, c: seq<T>)
    ensures (a + b) + c == a + (b + c)
  {
  }

  // ----- block comments: text, and comments inside comments -----

  datatype Body =
    | Plain(text: string)
    | Nest(before: string, inner: Body, after: Body)

  function PrintBody(b: Body): string {
    match b
    case Plain(t) => t
    case Nest(t, inner, after) => t + ("/*" + (PrintBody(inner) + ("*/" + PrintBody(after))))
  }

  predicate IsDelimiter(c: char, d: char) {
    (c == '/' && d == '*') || (c == '*' && d == '/')
  }

  /** No comment delimiter begins inside `t` when `next` is the byte after it. */
  predicate NoDelimiter(t: string, next: char) {
    t == [] || (!IsDelimiter(t[0], if |t| > 1 then t[1] else next) && NoDelimiter(t[1..], next))
  }

  predicate WellNested(b: Body) {
    match b
    case Plain(t) => NoDelimiter(t, '*')
    case Nest(t, inner, after) => NoDelimiter(t, '/') && WellNested(inner) && WellNested(after)
  }

  lemma {:induction false} TextScan(t: string, r: string, depth: nat)
    requires depth > 0 && r != [] && NoDelimiter(t, r[0])
    ensures CommentEnd(t + r, depth) == Shift(|t|, CommentEnd(r, depth))
  {
    if t == [] {
      assert t + r == r;
    } else {
      assert (t + r)[1..] == t[1..] + r;
      TextScan(t[1..], r, depth);
    }
  }

  lemma DelimiterScan(r: string, depth: nat)
    requires depth > 0
    ensures CommentEnd("/*" + r, depth) == Shift(2, CommentEnd(r, depth + 1))
    ensures CommentEnd("*/" + r, depth) == Shift(2, CommentEnd(r, depth - 1))
  {
    assert ("/*" + r)[2..] == r && ("*/" + r)[2..] == r;
  }

  lemma NestLayout(t: string, inner: string, after: string, r: string)
    ensures t + ("/*" + (inner + ("*/" + after))) + r == t + ("/*" + (inner + ("*/" + (after + r))))
  {
    Regroup("*/", after, r);
    Regroup(inner, "*/" + after, r);
    Regroup("/*", inner + ("*/" + after), r);
    Regroup(t, "/*" + (inner + ("*/" + after)), r);
  }

  lemma {:induction false} BodyScan(b: Body, r: string, depth: nat)
    requires depth > 0 && WellNested(b) && Closes(r)
    ensures CommentEnd(PrintBody(b) + r, depth) == Shift(|PrintBody(b)|, CommentEnd(r, depth))
    decreases b, 1
  {
    match b
    case Plain(t) => TextScan(t, r, depth);
    case Nest(t, inner, after) =>
      var tail := PrintBody(after) + r;
      NestLayout(t, PrintBody(inner), PrintBody(after), r);
      OpenScan(t, PrintBody(inner) + ("*/" + tail), depth);
      InnerScan(b, inner, tail, depth);
      BodyScan(after, r, depth);
  }

  lemma OpenScan(t: string, mid: string, depth: nat)
    requires depth > 0 && NoDelimiter(t, '/')
    ensures CommentEnd(t + ("/*" + mid), depth) == Shift(|t| + 2, CommentEnd(mid, depth + 1))
  {
    TextScan(t, "/*" + mid, depth);
    DelimiterScan(mid, depth);
  }

  lemma {:induction false} InnerScan(b: Body, inner: Body, tail: string, depth: nat)
    requires depth > 0 && b.Nest? && b.inner == inner && WellNested(inner)
    ensures CommentEnd(PrintBody(inner) + ("*/" + tail), depth + 1)
         == Shift(|PrintBody(inner)| + 2, CommentEnd(tail, depth))
    decreases b, 0
  {
    hide CommentEnd, WellNested, PrintBody;
    BodyScan(inner, "*/" + tail, depth + 1);
    DelimiterScan(tail, depth + 1);
  }

  /** Nested comments: after the opener the scan stops exactly past the closer
      of the comment that was opened, whatever comes next. */
  lemma CommentScan(b: Body, rest: string)
    requires WellNested(b)
    ensures CommentEnd(PrintBody(b) + "*/" + rest, 1) == Some(|PrintBody(b)| + 2)
  {
    BodyScan(b, "*/" + rest, 1);
    assert PrintBody(b) + "*/" + rest == PrintBody(b) + ("*/" + rest);
    assert ("*/" + rest)[2..] == rest;
  }

  lemma {:induction false} SplitDepth(s: string, m: nat, d: nat) returns (k: nat)
    requires CommentEnd(s, m + d).Some?
    ensures k <= CommentEnd(s, m + d).value && CommentEnd(s, m) == Some(k)
    ensures CommentEnd(s[k..], d) == Some(CommentEnd(s, m + d).value - k)
    decreases |s|, 1
  {
    hide CommentEnd, Opens, Closes;
    CommentAt(s, m + d);
    CommentAt(s, m);
    if m == 0 {
      k := 0;
      assert s[0..] == s;
    } else {
      if Opens(s) {
        k := SplitFrom(s, 2, m + 1, d);
      } else if Closes(s) {
        k := SplitFrom(s, 2, m - 1, d);
      } else {
        k := SplitFrom(s, 1, m, d);
      }
    }
  }

  /** The same for the rest of the text, told about the whole. */
  lemma {:induction false} SplitFrom(s: string, step: nat, m: nat, d: nat) returns (k: nat)
    requires 1 <= step <= |s| && CommentEnd(s[step..], m + d).Some?
    ensures k <= |s| && Shift(step, CommentEnd(s[step..], m)) == Some(k)
    ensures var end := step + CommentEnd(s[step..], m + d).value;
      k <= end && CommentEnd(s[k..], d) == Some(end - k)
    decreases |s|, 0
  {
    hide CommentEnd;
    var j := SplitDepth(s[step..], m, d);
    SliceTwice(s, step, j);
    k := step + j;
  }

  lemma TakeSplit<T>(s: seq<T>, n: nat, k: nat)
    requires n <= k <= |s|
    ensures s[..k] == s[..n] + s[n..][..k - n]
  {
  }

  lemma SliceTwice<T>(s: seq<T>, i: nat, j: nat)
    requires i + j <= |s|
    ensures s[i..][j..] == s[i + j..]
  {
  }

  /** Conversely, every comment the scan closes is a well nested one. */
  lemma {:induction false} BodyOf(s: string) returns (b: Body)
    requires CommentEnd(s, 1).Some?
    ensures WellNested(b) && s[..CommentEnd(s, 1).value] == PrintBody(b) + "*/"
    decreases |s|, 1
  {
    if Opens(s) {
      b := NestOf(s);
    } else if Closes(s) {
      b := Plain("");
      assert CommentEnd(s[2..], 0) == Some(0);
    } else {
      var k := CommentEnd(s, 1).value;
      var c := BodyOf(s[1..]);
      assert s[..k] == [s[0]] + s[1..][..k - 1];
      assert s[1] == (PrintBody(c) + "*/")[0];
      PrefixedNests(s[0], c);
      b := Prefixed(s[0], c);
    }
  }

  lemma {:induction false} NestOf(s: string) returns (b: Body)
    requires CommentEnd(s, 1).Some? && Opens(s)
    ensures WellNested(b) && s[..CommentEnd(s, 1).value] == PrintBody(b) + "*/"
    decreases |s|, 0
  {
    var k := CommentEnd(s, 1).value;
    var k1 := SplitDepth(s[2..], 1, 1);
    SliceTwice(s, 2, k1);
    var inner := BodyOf(s[2..]);
    var after := BodyOf(s[2 + k1..]);
    b := Nest("", inner, after);
    NestPrints(s, k1, k, inner, after);
  }

  lemma NestPrints(s: string, k1: nat, k: nat, inner: Body, after: Body)
    requires Opens(s) && 2 + k1 <= k <= |s|
    requires s[2..][..k1] == PrintBody(inner) + "*/"
    requires s[2 + k1..][..k - 2 - k1] == PrintBody(after) + "*/"
    ensures s[..k] == PrintBody(Nest("", inner, after)) + "*/"
  {
    var i, a := PrintBody(inner), PrintBody(after);
    assert s[..k] == "/*" + ((i + "*/") + (a + "*/")) by {
      assert s[..k] == s[..2] + (s[2..][..k1] + s[2 + k1..][..k - 2 - k1]);
    }
    Regroup(i, "*/", a + "*/");
    Regroup("*/", a, "*/");
    Regroup(i, "*/" + a, "*/");
    Regroup("/*", i + ("*/" + a), "*/");
    assert [] + ("/*" + (i + ("*/" + a))) == "/*" + (i + ("*/" + a));
  }

  /** One more byte in front of a comment body. */
  function Prefixed(c: char, b: Body): Body {
    match b
    case Plain(t) => Plain([c] + t)
    case Nest(t, inner, after) => Nest([c] + t, inner, after)
  }

  lemma PrefixedNests(c: char, b: Body)
    requires WellNested(b) && !IsDelimiter(c, (PrintBody(b) + "*/")[0])
    ensures WellNested(Prefixed(c, b)) && PrintBody(Prefixed(c, b)) == [c] + PrintBody(b)
  {
    match b
    case Plain(t) =>
      PrefixedText(c, t, '*');
    case Nest(t, inner, after) =>
      var rest := "/*" + (PrintBody(inner) + ("*/" + PrintBody(after)));
      assert t != [] ==> (PrintBody(b) + "*/")[0] == t[0];
      PrefixedText(c, t, '/');
      Regroup([c], t, rest);
  }

  lemma PrefixedText(c: char, t: string, next: char)
    requires NoDelimiter(t, next) && !IsDelimiter(c, if t != [] then t[0] else next)
    ensures NoDelimiter([c] + t, next)
  {
    assert ([c] + t)[1..] == t;
  }

  // ----- quoted text -----

  /** Every quote of the body doubled. */
  function Doubled(body: string, q: char): string {
    if body == [] then []
    else (if body[0] == q then [q, q] else [body[0]]) + Doubled(body[1..], q)
  }

  lemma {:induction false} QuoteScan(body: string, q: char, rest: string)
    requires rest == [] || rest[0] != q
    ensures QuoteEnd(Doubled(body, q) + ([q] + rest), q, false) == Some(|Doubled(body, q)| + 1)
    ensures QuoteText(Doubled(body, q) + ([q] + rest), q) == body
  {
    hide QuoteEnd, QuoteText;
    if body == [] {
      assert [] + ([q] + rest) == [q] + rest;
      QuoteAt([q] + rest, q);
    } else {
      var t := Doubled(body[1..], q) + ([q] + rest);
      QuoteScan(body[1..], q, rest);
      QuoteHead(body[0], q, t);
      Regroup(if body[0] == q then [q, q] else [body[0]], Doubled(body[1..], q), [q] + rest);
      assert body == [body[0]] + body[1..];
    }
  }

  lemma QuoteHead(c: char, q: char, t: string)
    ensures var head := if c == q then [q, q] else [c];
      && QuoteEnd(head + t, q, false) == Shift(|head|, QuoteEnd(t, q, false))
      && QuoteText(head + t, q) == [c] + QuoteText(t, q)
  {
    hide QuoteEnd, QuoteText;
    var s := (if c == q then [q, q] else [c]) + t;
    QuoteAt(s, q);
    if c == q { assert s[2..] == t; } else { assert s[1..] == t; }
  }

  lemma {:induction false} QuoteUnscan(s: string, q: char)
    requires QuoteEnd(s, q, false).Some?
    ensures var k := QuoteEnd(s, q, false).value;
            s[..k] == Doubled(QuoteText(s, q), q) + [q] && (k < |s| ==> s[k] != q)
    decreases |s|
  {
    hide QuoteEnd, QuoteText, Doubled;
    QuoteAtEnd(q);
    QuoteAt(s, q);
    var k := QuoteEnd(s, q, false).value;
    if s[0] != q {
      QuoteUnscan(s[1..], q);
      DoubledFront(s, 1, k, s[0], QuoteText(s[1..], q), q);
    } else if |s| >= 2 && s[1] == q {
      QuoteUnscan(s[2..], q);
      DoubledFront(s, 2, k, q, QuoteText(s[2..], q), q);
    } else {
      NothingDoubled(q);
      assert s[..1] == [] + [q];
    }
  }

  lemma NothingDoubled(q: char)
    ensures Doubled([], q) == []
  {
  }

  lemma DoubledFront(s: string, n: nat, k: nat, c: char, text: string, q: char)
    requires n <= k <= |s| && s[n..][..k - n] == Doubled(text, q) + [q]
    requires s[..n] == if c == q then [q, q] else [c]
    ensures s[..k] == Doubled([c] + text, q) + [q]
  {
    assert ([c] + text)[1..] == text;
    Regroup(s[..n], Doubled(text, q), [q]);
    TakeSplit(s, n, k);
  }

  /** The content of an escape string, byte by byte as it was written. */
  datatype Item = Raw(c: char) | Twice | Escape(c: char)

  function PrintItem(item: Item): string {
    match item
    case Raw(c) => [c]
    case Twice => "''"
    case Escape(c) => ['\\', c]
  }

  function PrintItems(items: seq<Item>): string {
    if items == [] then [] else PrintItem(items[0]) + PrintItems(items[1..])
  }

  predicate RawIsPlain(items: seq<Item>) {
    forall i | 0 <= i < |items| && items[i].Raw? :: items[i].c != '\'' && items[i].c != '\\'
  }

  lemma {:induction false} EscapeScan(items: seq<Item>, rest: string)
    requires RawIsPlain(items) && (rest == [] || rest[0] != '\'')
    ensures QuoteEnd(PrintItems(items) + ("'" + rest), '\'', true) == Some(|PrintItems(items)| + 1)
  {
    if items != [] {
      var t := PrintItems(items[1..]) + ("'" + rest);
      EscapeScan(items[1..], rest);
      ItemScan(items[0], t);
      Regroup(PrintItem(items[0]), PrintItems(items[1..]), "'" + rest);
    }
  }

  lemma ItemScan(item: Item, t: string)
    requires item.Raw? ==> item.c != '\'' && item.c != '\\'
    ensures QuoteEnd(PrintItem(item) + t, '\'', true) == Shift(|PrintItem(item)|, QuoteEnd(t, '\'', true))
  {
    var s := PrintItem(item) + t;
    if item.Raw? { assert s[1..] == t; } else { assert s[2..] == t; }
  }

  lemma {:induction false} ItemsOf(s: string) returns (items: seq<Item>)
    requires QuoteEnd(s, '\'', true).Some?
    ensures RawIsPlain(items)
    ensures var k := QuoteEnd(s, '\'', true).value;
            s[..k] == PrintItems(items) + "'" && (k < |s| ==> s[k] != '\'')
    decreases |s|
  {
    var k := QuoteEnd(s, '\'', true).value;
    if s[0] == '\\' {
      items := ItemsOf(s[2..]);
      items := PutItem(s, 2, k, Escape(s[1]), items);
    } else if s[0] != '\'' {
      items := ItemsOf(s[1..]);
      items := PutItem(s, 1, k, Raw(s[0]), items);
    } else if |s| >= 2 && s[1] == '\'' {
      items := ItemsOf(s[2..]);
      items := PutItem(s, 2, k, Twice, items);
    } else {
      items := [];
    }
  }

  lemma PutItem(s: string, n: nat, k: nat, first: Item, tail: seq<Item>) returns (items: seq<Item>)
    requires n <= k <= |s| && s[n..][..k - n] == PrintItems(tail) + "'" && RawIsPlain(tail)
    requires s[..n] == PrintItem(first) && (first.Raw? ==> first.c != '\'' && first.c != '\\')
    ensures RawIsPlain(items) && s[..k] == PrintItems(items) + "'"
  {
    items := [first] + tail;
    assert items[1..] == tail;
    Regroup(PrintItem(first), PrintItems(tail), "'");
    TakeSplit(s, n, k);
  }

  // ----- words and tags -----

  predicate WordBytes(w: string) {
    forall i | 0 <= i < |w| :: IsWordByte(w[i])
  }

  predicate ValidTag(t: string) {
    t == [] || (IsTagStart(t[0]) && forall i | 0 <= i < |t| :: IsTagByte(t[i]))
  }

  lemma {:induction false} WordScan(w: string, rest: string)
    ensures WordBytes(w) && !IsWordByte(Look(rest)) <==> WordBytes(w) && WordRun(w + rest) == |w|
  {
    if w == [] {
      assert w + rest == rest;
    } else if WordBytes(w) {
      assert IsWordByte(w[0]) && (w + rest)[1..] == w[1..] + rest;
      WordScan(w[1..], rest);
    }
  }

  lemma {:induction false} WordUnscan(s: string)
    ensures WordBytes(s[..WordRun(s)]) && !IsWordByte(Look(s[WordRun(s)..]))
  {
    if s != [] && IsWordByte(s[0]) {
      WordUnscan(s[1..]);
      var n := WordRun(s[1..]);
      assert s[..n + 1] == [s[0]] + s[1..][..n] && s[n + 1..] == s[1..][n..];
    }
  }

  lemma {:induction false} TagByteScan(t: string, rest: string)
    requires (forall i | 0 <= i < |t| :: IsTagByte(t[i])) && !IsTagByte(Look(rest))
    ensures TagByteRun(t + rest) == |t|
  {
    if t == [] {
      assert t + rest == rest;
    } else {
      assert IsTagByte(t[0]) && (t + rest)[1..] == t[1..] + rest;
      TagByteScan(t[1..], rest);
    }
  }

  lemma TagScan(t: string, rest: string)
    requires ValidTag(t) && Look(rest) == '$'
    ensures TagRun(t + rest) == |t|
  {
    TagByteScan(t, rest);
    if t == [] { assert t + rest == rest; }
  }

  lemma {:induction false} TagByteUnscan(s: string)
    ensures forall i | 0 <= i < TagByteRun(s) :: IsTagByte(s[i])
  {
    if s != [] && IsTagByte(s[0]) {
      TagByteUnscan(s[1..]);
      assert forall i | 1 <= i < TagByteRun(s) :: s[i] == s[1..][i - 1];
    }
  }

  lemma TagUnscan(s: string)
    ensures ValidTag(s[..TagRun(s)])
  {
    TagByteUnscan(s);
  }

  /** A dollar quote opens if and only if between this dollar sign and another one
      there is nothing, or an ASCII identifier without a leading digit. */
  lemma DollarOpensExactly(s: string)
    requires s != [] && s[0] == '$'
    ensures DollarEnd(s).Quote? <==>
      exists t | 1 <= t < |s| :: s[t] == '$' && forall i | 1 <= i < t ::
        || 'a' <= s[i] <= 'z' || 'A' <= s[i] <= 'Z' || s[i] == '_'
        || (i > 1 && '0' <= s[i] <= '9')
  {
    hide TagRun;
    TagUnscan(s[1..]);
    forall t | 1 <= t < |s| && s[t] == '$' && SpellsTag(s, t)
      ensures TagRun(s[1..]) == t - 1
    {
      assert s[1..] == s[1..t] + s[t..];
      TagScan(s[1..t], s[t..]);
    }
    var n := 1 + TagRun(s[1..]);
    if n < |s| && s[n] == '$' {
      assert SpellsTag(s, n) by {
        assert forall i | 1 <= i < n :: s[i] == s[1..][..n - 1][i - 1];
      }
    }
  }

  predicate SpellsTag(s: string, t: nat)
    requires t <= |s|
  {
    forall i | 1 <= i < t ::
      || 'a' <= s[i] <= 'z' || 'A' <= s[i] <= 'Z' || s[i] == '_'
      || (i > 1 && '0' <= s[i] <= '9')
  }

  // ----- pieces -----

  datatype Piece =
    | Name(word: string)
    | Quoted(body: string)
    | Mark(c: char)
    | Blank(c: char)
    | LineComment(text: string)
    | BlockComment(comment: Body)
    | Text(body: string)
    | EscapeText(e: char, items: seq<Item>)
    | DollarText(tag: string, body: string)
    | Param(run: string)

  function Delimiter(tag: string): string {
    "$" + tag + "$"
  }

  function Print(p: Piece): string {
    match p
    case Name(w) => w
    case Quoted(body) => "\"" + (Doubled(body, '"') + "\"")
    case Mark(c) => [c]
    case Blank(c) => [c]
    case LineComment(t) => "--" + t
    case BlockComment(b) => "/*" + (PrintBody(b) + "*/")
    case Text(body) => "'" + (Doubled(body, '\'') + "'")
    case EscapeText(e, items) => [e, '\''] + (PrintItems(items) + "'")
    case DollarText(tag, body) => Delimiter(tag) + (body + Delimiter(tag))
    case Param(run) => "$" + run
  }

  /** The tokens a piece stands for; the other pieces are trivia. */
  function Out(p: Piece): seq<Token> {
    match p
    case Name(w) => [Token(Word, Lower(w))]
    case Quoted(body) => [Token(Ident, Lower(body))]
    case Mark(c) => [Token(Punct, [c])]
    case _ => []
  }

  /** That token, character by character: the kind, the length, and the capitals A to
      Z folded by 32 with every other character kept. */
  lemma TokenOfPiece(p: Piece)
    ensures p.Name? || p.Quoted? ==>
      var raw := if p.Name? then p.word else p.body;
      && |Out(p)| == 1 && Out(p)[0].kind == (if p.Name? then Word else Ident)
      && |Out(p)[0].text| == |raw|
      && forall i | 0 <= i < |raw| ::
           Out(p)[0].text[i] == if 'A' <= raw[i] <= 'Z' then (raw[i] as int + 32) as char else raw[i]
    ensures p.Mark? ==> Out(p) == [Token(Punct, [p.c])]
    ensures !p.Name? && !p.Quoted? && !p.Mark? ==> Out(p) == []
  {
    hide Lower, LowerByte;
    if p.Name? || p.Quoted? {
      var raw := if p.Name? then p.word else p.body;
      LowerLength(raw);
      forall i | 0 <= i < |raw|
        ensures Out(p)[0].text[i] == if 'A' <= raw[i] <= 'Z' then (raw[i] as int + 32) as char else raw[i]
      {
        LowerAt(raw, i);
      }
    }
  }

  predicate IsMark(c: char) {
    !IsSpace(c) && !IsWordStart(c) && c !in {'\'', '"', '$'}
  }

  /** The piece is what it says it is. */
  predicate Valid(p: Piece) {
    match p
    case Name(w) => w != [] && IsWordStart(w[0]) && WordBytes(w)
    case Quoted(_) => true
    case Mark(c) => IsMark(c)
    case Blank(c) => IsSpace(c)
    case LineComment(t) => '\n' !in t
    case BlockComment(b) => WellNested(b)
    case Text(_) => true
    case EscapeText(e, items) => e in {'e', 'E'} && RawIsPlain(items)
    case DollarText(tag, body) =>
      ValidTag(tag) && Find(body + Delimiter(tag), Delimiter(tag)) == Some(|body|)
    case Param(run) => WordBytes(run)
  }

  /** The byte behind the piece is not taken for a part of it. */
  predicate Apart(p: Piece, next: char) {
    match p
    case Name(w) => !IsWordByte(next) && !(w in {"e", "E"} && next == '\'')
    case Quoted(_) => next != '"'
    case Mark(c) => !(c == '-' && next == '-') && !(c == '/' && next == '*')
    case Blank(_) => true
    case LineComment(_) => next == '\n'
    case BlockComment(_) => true
    case Text(_) => next != '\''
    case EscapeText(_, _) => next != '\''
    case DollarText(_, _) => true
    case Param(run) => !IsWordByte(next) && !(ValidTag(run) && next == '$')
  }

  predicate Fits(p: Piece, rest: string) {
    Valid(p) && Apart(p, Look(rest))
  }

  function PrintAll(ps: seq<Piece>): string {
    if ps == [] then [] else Print(ps[0]) + PrintAll(ps[1..])
  }

  function Tokens(ps: seq<Piece>): seq<Token> {
    if ps == [] then [] else Out(ps[0]) + Tokens(ps[1..])
  }

  predicate Printable(ps: seq<Piece>, rest: string) {
    ps == [] || (Fits(ps[0], PrintAll(ps[1..]) + rest) && Printable(ps[1..], rest))
  }

  // ----- one piece is one segment -----

  lemma {:induction false} LineScan(t: string, rest: string)
    requires '\n' !in t && Look(rest) == '\n'
    ensures LineRun(t + rest) == |t|
  {
    if t == [] {
      assert t + rest == rest;
    } else {
      assert t[0] in t && (t + rest)[1..] == t[1..] + rest;
      LineScan(t[1..], rest);
    }
  }

  lemma {:induction false} LineUnscan(s: string)
    ensures '\n' !in s[..LineRun(s)] && Look(s[LineRun(s)..]) == '\n'
  {
    if s != [] && s[0] != '\n' {
      LineUnscan(s[1..]);
      var n := LineRun(s[1..]);
      assert s[..n + 1] == [s[0]] + s[1..][..n] && s[n + 1..] == s[1..][n..];
    }
  }

  lemma DollarOpens(tag: string, after: string)
    requires ValidTag(tag)
    ensures DollarEnd(Delimiter(tag) + after)
         == Quote(Shift(2 * |Delimiter(tag)|, Find(after, Delimiter(tag))))
  {
    var d := Delimiter(tag);
    var s := d + after;
    assert s[1..] == tag + ("$" + after);
    TagScan(tag, "$" + after);
    assert s[..|d|] == d && s[|d|..] == after;
  }

  lemma ParamScan(run: string, rest: string)
    requires Fits(Param(run), rest)
    ensures DollarEnd("$" + run + rest) == NotQuote
  {
    var s := "$" + run + rest;
    assert s[1..] == run + rest;
    WordScan(run, rest);
    var n := TagRun(run + rest);
    TagWithinWord(run + rest);
    TagUnscan(run + rest);
    if n == |run| {
      assert (run + rest)[..n] == run;
    } else {
      assert s[n + 1] == run[n] && IsWordByte(run[n]);
    }
  }

  // The branches of `Step`, one at a time.

  lemma StepAtText(s: string)
    requires s != [] && s[0] == '\''
    ensures Step(s) == Skipped(1, QuoteEnd(s[1..], '\'', false), |s|, [])
  {
  }

  lemma StepAtIdent(s: string)
    requires s != [] && s[0] == '"'
    ensures Step(s)
         == Skipped(1, QuoteEnd(s[1..], '"', false), |s|, [Token(Ident, Lower(QuoteText(s[1..], '"')))])
  {
  }

  lemma StepAtEscape(s: string)
    requires |s| > 1 && s[0] in {'e', 'E'} && s[1] == '\''
    ensures Step(s) == Skipped(2, QuoteEnd(s[2..], '\'', true), |s|, [])
  {
  }

  lemma StepAtBlock(s: string)
    requires Opens(s)
    ensures Step(s) == Skipped(2, CommentEnd(s[2..], 1), |s|, [])
  {
  }

  lemma StepAtLine(s: string)
    requires |s| > 1 && s[0] == '-' && s[1] == '-'
    ensures Step(s) == Segment(2 + LineRun(s[2..]), [], true)
  {
  }

  lemma StepAtDollar(s: string)
    requires s != [] && s[0] == '$'
    ensures match DollarEnd(s)
            case Quote(end) => Step(s) == Skipped(0, end, |s|, [])
            case NotQuote => Step(s) == Segment(1 + WordRun(s[1..]), [], true)
  {
  }

  lemma StepAtWord(s: string)
    requires s != [] && IsWordStart(s[0])
    requires !(s[0] in {'e', 'E'} && |s| > 1 && s[1] == '\'')
    ensures var n := 1 + WordRun(s[1..]); Step(s) == Segment(n, [Token(Word, Lower(s[..n]))], true)
  {
  }

  lemma NameIsNoEscape(w: string, rest: string)
    requires Fits(Name(w), rest)
    ensures !(w[0] in {'e', 'E'} && |w + rest| > 1 && (w + rest)[1] == '\'')
  {
    if |w| == 1 {
      assert w == [w[0]];
    } else {
      assert (w + rest)[1] == w[1] && IsWordByte(w[1]);
    }
  }

  lemma StepOfName(w: string, rest: string)
    requires Fits(Name(w), rest)
    ensures Step(w + rest) == Segment(|w|, [Token(Word, Lower(w))], true)
  {
    var s := w + rest;
    assert s[1..] == w[1..] + rest && s[..|w|] == w;
    assert WordBytes(w[1..]) by { assert forall i | 0 <= i < |w| - 1 :: w[1..][i] == w[i + 1]; }
    WordScan(w[1..], rest);
    NameIsNoEscape(w, rest);
    StepAtWord(s);
  }

  lemma StepOfQuoted(body: string, q: char, rest: string)
    requires q in {'\'', '"'} && Look(rest) != q
    ensures Step([q] + (Doubled(body, q) + [q]) + rest)
         == Segment(|Doubled(body, q)| + 2, if q == '"' then [Token(Ident, Lower(body))] else [], true)
  {
    var m := Doubled(body, q);
    Regroup([q], m + [q], rest);
    Regroup(m, [q], rest);
    var s := [q] + (m + ([q] + rest));
    assert s[1..] == m + ([q] + rest);
    if q == '"' { StepAtIdent(s); } else { StepAtText(s); }
    QuoteScan(body, q, rest);
  }

  lemma StepOfEscape(e: char, items: seq<Item>, rest: string)
    requires Fits(EscapeText(e, items), rest)
    ensures Step([e, '\''] + (PrintItems(items) + "'") + rest) == Segment(|PrintItems(items)| + 3, [], true)
  {
    var m := PrintItems(items);
    Regroup([e, '\''], m + "'", rest);
    Regroup(m, "'", rest);
    var s := [e, '\''] + (m + ("'" + rest));
    assert s[2..] == m + ("'" + rest);
    StepAtEscape(s);
    EscapeScan(items, rest);
  }

  lemma StepOfBlock(b: Body, rest: string)
    requires WellNested(b)
    ensures Step("/*" + (PrintBody(b) + "*/") + rest) == Segment(|PrintBody(b)| + 4, [], true)
  {
    var m := PrintBody(b) + "*/";
    Regroup("/*", m, rest);
    var s := "/*" + (m + rest);
    assert s[2..] == m + rest;
    StepAtBlock(s);
    CommentScan(b, rest);
  }

  lemma StepOfLine(t: string, rest: string)
    requires Fits(LineComment(t), rest)
    ensures Step("--" + t + rest) == Segment(|t| + 2, [], true)
  {
    Regroup("--", t, rest);
    var s := "--" + (t + rest);
    assert s[2..] == t + rest;
    StepAtLine(s);
    LineScan(t, rest);
  }

  lemma StepOfDollar(tag: string, body: string, rest: string)
    requires Valid(DollarText(tag, body))
    ensures Step(Delimiter(tag) + (body + Delimiter(tag)) + rest)
         == Segment(|body| + 2 * |Delimiter(tag)|, [], true)
  {
    var d := Delimiter(tag);
    var bd := body + d;
    Regroup(d, bd, rest);
    assert (bd + rest)[..|bd|] == bd[..|bd|];
    FindLocal(bd, bd + rest, d, |bd|);
    DollarOpens(tag, bd + rest);
    StepAtDollar(d + (bd + rest));
  }

  lemma StepOfParam(run: string, rest: string)
    requires Fits(Param(run), rest)
    ensures Step("$" + run + rest) == Segment(1 + |run|, [], true)
  {
    ParamScan(run, rest);
    StepAtDollar("$" + run + rest);
    assert ("$" + run + rest)[1..] == run + rest;
    WordScan(run, rest);
  }

  /** Reading a printed piece gives the piece back, in front of any text it fits. */
  lemma StepOfPiece(p: Piece, rest: string)
    requires Fits(p, rest)
    ensures Step(Print(p) + rest) == Segment(|Print(p)|, Out(p), true)
  {
    match p
    case Name(w) => StepOfName(w, rest);
    case Mark(c) =>
    case Blank(c) =>
    case DollarText(tag, body) => StepOfDollar(tag, body, rest);
    case Param(run) => StepOfParam(run, rest);
    case Quoted(body) => StepOfQuoted(body, '"', rest);
    case Text(body) => StepOfQuoted(body, '\'', rest);
    case EscapeText(e, items) => StepOfEscape(e, items, rest);
    case LineComment(t) => StepOfLine(t, rest);
    case BlockComment(b) => StepOfBlock(b, rest);
  }

  lemma DollarTextOf(s: string) returns (p: Piece)
    requires s != [] && s[0] == '$' && DollarEnd(s).Quote? && DollarEnd(s).end.Some?
    ensures Valid(p) && p.DollarText? && Print(p) == s[..DollarEnd(s).end.value]
  {
    hide Find, DollarEnd, ValidTag;
    var tag, after := DollarParts(s);
    var d := Delimiter(tag);
    FoundInText(after, d);
    var k := Find(after, d).value;
    p := DollarText(tag, after[..k]);
    assert s[..|d| + (k + |d|)] == d + after[..k + |d|];
  }

  lemma DollarParts(s: string) returns (tag: string, after: string)
    requires s != [] && s[0] == '$' && DollarEnd(s).Quote?
    ensures ValidTag(tag) && s == Delimiter(tag) + after
    ensures DollarEnd(s) == Quote(Shift(2 * |Delimiter(tag)|, Find(after, Delimiter(tag))))
  {
    var t := 1 + TagRun(s[1..]);
    TagUnscan(s[1..]);
    tag, after := s[1..][..t - 1], s[t + 1..];
    assert s[..t + 1] == Delimiter(tag);
  }

  lemma FoundInText(after: string, d: string)
    requires Find(after, d).Some?
    ensures var k := Find(after, d).value;
            after[..k + |d|] == after[..k] + d && Find(after[..k] + d, d) == Some(k)
  {
    hide Find;
    var k := Find(after, d).value;
    FindOccurs(after, d);
    var n, bd := k + |d|, after[..k] + d;
    assert after[..n] == after[..k] + after[k..n];
    assert bd[..n] == after[..n];
    FindLocal(after, bd, d, n);
  }

  lemma ParamOf(s: string) returns (p: Piece)
    requires s != [] && s[0] == '$' && DollarEnd(s).NotQuote?
    ensures Fits(p, s[Step(s).len..]) && Print(p) == s[..Step(s).len]
  {
    StepAtDollar(s);
    var n := WordRun(s[1..]);
    var run, rest := s[1..][..n], s[n + 1..];
    p := Param(run);
    WordUnscan(s[1..]);
    assert s[1..][n..] == rest && s[..n + 1] == "$" + run;
    assert s[1..] == run + rest;
    if ValidTag(run) && Look(rest) == '$' {
      TagScan(run, rest);
      assert false;
    }
  }

  lemma TextOf(s: string) returns (p: Piece)
    requires s != [] && Step(s).closed
    requires s[0] in {'\'', '"'} || (s[0] in {'e', 'E'} && |s| > 1 && s[1] == '\'')
    ensures Fits(p, s[Step(s).len..]) && Print(p) == s[..Step(s).len]
  {
    var n := Step(s).len;
    if s[0] in {'e', 'E'} {
      StepAtEscape(s);
      var items := ItemsOf(s[2..]);
      p := EscapeText(s[0], items);
      assert s[..n] == s[..2] + s[2..][..n - 2];
    } else {
      if s[0] == '"' { StepAtIdent(s); } else { StepAtText(s); }
      QuoteUnscan(s[1..], s[0]);
      var text := QuoteText(s[1..], s[0]);
      p := if s[0] == '"' then Quoted(text) else Text(text);
      assert s[..n] == s[..1] + s[1..][..n - 1];
    }
  }

  lemma CommentOf(s: string) returns (p: Piece)
    requires s != [] && Step(s).closed
    requires Opens(s) || (s[0] == '-' && |s| > 1 && s[1] == '-')
    ensures Fits(p, s[Step(s).len..]) && Print(p) == s[..Step(s).len]
  {
    hide Step, CommentEnd, WellNested, PrintBody, LineRun;
    var n := Step(s).len;
    if Opens(s) {
      StepAtBlock(s);
      var b := BodyOf(s[2..]);
      p := BlockComment(b);
      Rejoin(s, n, "/*");
    } else {
      StepAtLine(s);
      LineUnscan(s[2..]);
      p := LineComment(s[2..][..n - 2]);
      Rejoin(s, n, "--");
    }
  }

  lemma Rejoin(s: string, n: nat, start: string)
    requires 2 <= n <= |s| && |start| == 2 && s[0] == start[0] && s[1] == start[1]
    ensures s[..n] == start + s[2..][..n - 2] && s[2..][n - 2..] == s[n..]
  {
  }

  lemma NameOf(s: string) returns (p: Piece)
    requires s != [] && IsWordStart(s[0])
    requires !(s[0] in {'e', 'E'} && |s| > 1 && s[1] == '\'')
    ensures Fits(p, s[Step(s).len..]) && Print(p) == s[..Step(s).len]
  {
    StepAtWord(s);
    var n := 1 + WordRun(s[1..]);
    var w := s[..n];
    p := Name(w);
    WordUnscan(s[1..]);
    assert forall i | 1 <= i < n :: w[i] == s[1..][..n - 1][i - 1];
    assert s[1..][n - 1..] == s[n..];
    if w in {"e", "E"} {
      assert n == 1;
    }
  }

  /** Every finished segment is a printed piece. */
  lemma PieceOfStep(s: string) returns (p: Piece)
    requires s != [] && Step(s).closed
    ensures Fits(p, s[Step(s).len..]) && Print(p) == s[..Step(s).len]
  {
    var c := s[0];
    if IsSpace(c) {
      p := Blank(c);
    } else if Opens(s) || (c == '-' && |s| > 1 && s[1] == '-') {
      p := CommentOf(s);
    } else if c in {'\'', '"'} || (c in {'e', 'E'} && |s| > 1 && s[1] == '\'') {
      p := TextOf(s);
    } else if c == '$' {
      StepAtDollar(s);
      if DollarEnd(s).Quote? {
        p := DollarTextOf(s);
      } else {
        p := ParamOf(s);
      }
    } else if IsWordStart(c) {
      p := NameOf(s);
    } else {
      p := Mark(c);
    }
  }

  // ----- whole queries -----

  lemma LexAt(s: string)
    requires s != []
    ensures Lex(s) == Step(s).out + Lex(s[Step(s).len..])
  {
  }

  /** One piece in front of a text that is already understood. */
  lemma LexOfPiece(p: Piece, rest: string, k: nat)
    requires Fits(p, rest) && k <= |rest|
    ensures Lex(Print(p) + rest) == Out(p) + Lex(rest)
    ensures Boundary(Print(p) + rest, |Print(p)| + k) <==> Boundary(rest, k)
  {
    hide Step;
    var s := Print(p) + rest;
    StepOfPiece(p, rest);
    assert s[|Print(p)|..] == rest;
    LexAt(s);
    BoundaryAt(s, |Print(p)| + k);
  }

  lemma {:induction false} PrintedBoundary(ps: seq<Piece>, rest: string)
    requires Printable(ps, rest)
    ensures Boundary(PrintAll(ps) + rest, |PrintAll(ps)|)
  {
    hide Step;
    if ps != [] {
      Regroup(Print(ps[0]), PrintAll(ps[1..]), rest);
      PrintedBoundary(ps[1..], rest);
      LexOfPiece(ps[0], PrintAll(ps[1..]) + rest, |PrintAll(ps[1..])|);
    }
  }

  /** Print, then lex: any pieces, in any order, with any trivia between them. */
  lemma {:induction false} RoundTrip(ps: seq<Piece>, rest: string)
    requires Printable(ps, rest)
    ensures Lex(PrintAll(ps) + rest) == Tokens(ps) + Lex(rest)
  {
    hide Step;
    if ps == [] {
      assert PrintAll(ps) + rest == rest;
    } else {
      Regroup(Print(ps[0]), PrintAll(ps[1..]), rest);
      RoundTrip(ps[1..], rest);
      LexOfPiece(ps[0], PrintAll(ps[1..]) + rest, 0);
      Regroup(Out(ps[0]), Tokens(ps[1..]), Lex(rest));
    }
  }

  /** So a printed word or identifier, in front of any text it fits, comes back as one
      token with exactly its capitals folded. */
  lemma FoldedBack(p: Piece, rest: string)
    requires Fits(p, rest) && (p.Name? || p.Quoted?)
    ensures var raw, toks := if p.Name? then p.word else p.body, Lex(Print(p) + rest);
      && toks != [] && toks[1..] == Lex(rest)
      && toks[0].kind == (if p.Name? then Word else Ident) && |toks[0].text| == |raw|
      && forall i | 0 <= i < |raw| ::
           toks[0].text[i] == if 'A' <= raw[i] <= 'Z' then (raw[i] as int + 32) as char else raw[i]
  {
    hide Lex, Fits, Print, Lower, LowerByte, Out;
    TokenOfPiece(p);
    LexOfPiece(p, rest, 0);
    assert Lex(Print(p) + rest)[0] == Out(p)[0];
  }

  lemma {:induction false} TokensAppend(ps: seq<Piece>, qs: seq<Piece>)
    ensures Tokens(ps + qs) == Tokens(ps) + Tokens(qs)
  {
    if ps == [] {
      assert ps + qs == qs;
    } else {
      TokensAppend(ps[1..], qs);
      assert (ps + qs)[0] == ps[0] && (ps + qs)[1..] == ps[1..] + qs;
      Regroup(Out(ps[0]), Tokens(ps[1..]), Tokens(qs));
    }
  }

  /** The tokens of a query around one of its pieces. */
  lemma TokensAround(ps: seq<Piece>, j: nat)
    requires j < |ps|
    ensures Tokens(ps) == Tokens(ps[..j]) + Out(ps[j]) + Tokens(ps[j + 1..])
  {
    assert ps == ps[..j] + ps[j..] && ps[j..][0] == ps[j] && ps[j..][1..] == ps[j + 1..];
    TokensAppend(ps[..j], ps[j..]);
    Regroup(Tokens(ps[..j]), Out(ps[j]), Tokens(ps[j + 1..]));
  }

  /** The round trip, one token at a time: the token of any piece of a printed query
      stands where the tokens before it end, with exactly its capitals folded. */
  lemma RoundTripAt(ps: seq<Piece>, rest: string, j: nat)
    requires Printable(ps, rest) && j < |ps|
    ensures var toks, at := Lex(PrintAll(ps) + rest), |Tokens(ps[..j])|;
      && (ps[j].Mark? ==> at < |toks| && toks[at] == Token(Punct, [ps[j].c]))
      && (ps[j].Name? || ps[j].Quoted? ==>
            var raw := if ps[j].Name? then ps[j].word else ps[j].body;
            && at < |toks| && toks[at].kind == (if ps[j].Name? then Word else Ident)
            && |toks[at].text| == |raw|
            && forall i | 0 <= i < |raw| ::
                 toks[at].text[i] == if 'A' <= raw[i] <= 'Z' then (raw[i] as int + 32) as char else raw[i])
  {
    hide Printable, Lex, PrintAll, Tokens, Lower, LowerByte, Out;
    RoundTrip(ps, rest);
    TokensAround(ps, j);
    TokenOfPiece(ps[j]);
    var at := |Tokens(ps[..j])|;
    if Out(ps[j]) != [] {
      assert Lex(PrintAll(ps) + rest)[at] == Out(ps[j])[0];
    }
  }

  /** Lex, then print: every query is a list of pieces, and if something is left
      over it is one literal or comment that is never closed. */
  lemma {:induction false} Decompose(s: string) returns (ps: seq<Piece>, open: string)
    ensures PrintAll(ps) + open == s && Printable(ps, open)
    ensures open != [] ==> !Step(open).closed
    decreases |s|
  {
    if s == [] {
      ps, open := [], [];
    } else if !Step(s).closed {
      ps, open := [], s;
    } else {
      var p := PieceOfStep(s);
      var rest := s[Step(s).len..];
      assert s == Print(p) + rest;
      ps, open := Decompose(rest);
      PrependPiece(p, ps, open);
      ps := [p] + ps;
    }
  }

  lemma {:induction false} ClosedBehind(s: string, k: nat)
    requires k <= |s| && Boundary(s, k)
    ensures Closed(s) <==> Closed(s[k..])
    decreases |s|
  {
    hide Step;
    if k == 0 {
      assert s[0..] == s;
    } else {
      BoundaryAt(s, k);
      BoundaryAt(s, |s|);
      var n := Step(s).len;
      ClosedBehind(s[n..], k - n);
      SliceTwice(s, n, k - n);
    }
  }

  /** With `Decompose`: what the lexer makes of any query, and when it is closed. */
  lemma Reading(ps: seq<Piece>, open: string)
    requires Printable(ps, open) && (open != [] ==> !Step(open).closed)
    ensures Lex(PrintAll(ps) + open) == Tokens(ps) + (if open == [] then [] else Step(open).out)
    ensures Closed(PrintAll(ps) + open) <==> open == []
  {
    hide Step;
    var s := PrintAll(ps) + open;
    RoundTrip(ps, open);
    PrintedBoundary(ps, open);
    ClosedBehind(s, |PrintAll(ps)|);
    assert s[|PrintAll(ps)|..] == open;
    if open != [] { OpenIsLast(open); }
  }

  lemma OpenIsLast(s: string)
    requires s != [] && !Step(s).closed
    ensures Lex(s) == Step(s).out && !Closed(s)
  {
    StepStaysOpen(s);
    LexAt(s);
    assert s[Step(s).len..] == [];
  }

  lemma PrependPiece(p: Piece, qs: seq<Piece>, open: string)
    requires Fits(p, PrintAll(qs) + open) && Printable(qs, open)
    ensures Printable([p] + qs, open)
    ensures PrintAll([p] + qs) + open == Print(p) + (PrintAll(qs) + open)
  {
    assert ([p] + qs)[1..] == qs;
    Regroup(Print(p), PrintAll(qs), open);
  }

  /** The queries that leave nothing open are exactly the printed ones. */
  lemma ClosedIsPrinted(s: string)
    ensures Closed(s) <==> exists ps: seq<Piece> :: Printable(ps, []) && PrintAll(ps) == s
  {
    if Closed(s) {
      var ps, open := Decompose(s);
      Reading(ps, open);
      assert PrintAll(ps) + [] == PrintAll(ps);
    }
    forall ps: seq<Piece> | Printable(ps, []) && PrintAll(ps) == s
      ensures Closed(s)
    {
      PrintedBoundary(ps, []);
      assert PrintAll(ps) + [] == s;
    }
  }

  /** The same pieces with a blank after each of them. */
  function Spaced(ps: seq<Piece>): seq<Piece> {
    if ps == [] then [] else
      [ps[0], Blank(if ps[0].LineComment? then '\n' else ' ')] + Spaced(ps[1..])
  }

  lemma {:induction false} SpacedFits(ps: seq<Piece>)
    requires forall p | p in ps :: Valid(p)
    ensures Printable(Spaced(ps), []) && Tokens(Spaced(ps)) == Tokens(ps)
  {
    hide Valid, Print;
    if ps != [] {
      SpacedFits(ps[1..]);
      var blank, rest := Spaced(ps)[1], Spaced(ps[1..]);
      assert Spaced(ps)[1..] == [blank] + rest && ([blank] + rest)[1..] == rest;
      assert Tokens([blank] + rest) == Tokens(rest);
      assert ps[0] in ps;
      BlankFits(ps[0], blank, PrintAll(rest));
      assert PrintAll([blank] + rest) + [] == Print(blank) + PrintAll(rest);
      assert PrintAll(rest) + [] == PrintAll(rest);
    }
  }

  lemma BlankFits(p: Piece, blank: Piece, rest: string)
    requires Valid(p) && blank == Blank(if p.LineComment? then '\n' else ' ')
    ensures Fits(p, Print(blank) + rest) && Fits(blank, rest)
  {
  }

  /** With blanks in between no piece needs to look at its neighbour. */
  lemma SpacedRoundTrip(ps: seq<Piece>)
    requires forall p | p in ps :: Valid(p)
    ensures Printable(Spaced(ps), []) && Lex(PrintAll(Spaced(ps))) == Tokens(ps)
  {
    SpacedFits(ps);
    RoundTrip(Spaced(ps), []);
    assert PrintAll(Spaced(ps)) + [] == PrintAll(Spaced(ps));
  }

  /** Opacity: wherever a literal or comment sits in a query, other contents of
      the same kind leave the token stream unchanged. */
  lemma Opacity(a: string, p: Piece, q: Piece, b: string)
    requires Fits(p, b) && Fits(q, b) && Out(p) == [] && Out(q) == []
    requires Print(p)[0] == Print(q)[0]
    requires Boundary(a + (Print(p) + b), |a|)
    ensures Lex(a + (Print(q) + b)) == Lex(a + (Print(p) + b))
  {
    StepOfPiece(p, b);
    StepOfPiece(q, b);
    SilentSwap(a, Print(p), Print(q), b);
  }
}
