/**
 The lexer of the SQL gate. A query is a string whose characters stand for the
 bytes of the Go string.

 The functions describe the lexer on the text that is still to be read; the
 methods below them are the index loops of the program and are proved equal to
 those functions.
 */
module SqlLexer {
  import opened Options

  datatype Kind = Word | Ident | Punct

  datatype Token = Token(kind: Kind, text: string)

  // ----- byte classes -----

  predicate IsSpace(c: char) {
    c == ' ' || c == '\t' || c == '\r' || c == '\n' || c == '\U{000C}' || c == '\U{000B}'
  }

  predicate IsLetter(c: char) {
    'a' <= c <= 'z' || 'A' <= c <= 'Z'
  }

  predicate IsDigit(c: char) {
    '0' <= c <= '9'
  }

  predicate IsWordStart(c: char) {
    IsLetter(c) || c == '_' || c as int >= 0x80
  }

  predicate IsWordByte(c: char) {
    IsWordStart(c) || IsDigit(c)
  }

  predicate IsTagStart(c: char) {
    IsLetter(c) || c == '_'
  }

  predicate IsTagByte(c: char) {
    IsTagStart(c) || IsDigit(c)
  }

  function LowerByte(c: char): char {
    if 'A' <= c <= 'Z' then (c as int + 32) as char else c
  }

  function Lower(s: string): string {
    if s == [] then [] else [LowerByte(s[0])] + Lower(s[1..])
  }

  /** Case folding, byte by byte: the capitals A to Z move up by 32, nothing else changes. */
  lemma {:induction false} LowerAt(s: string, i: nat)
    requires i < |s|
    ensures |Lower(s)| == |s|
    ensures Lower(s)[i] == if 'A' <= s[i] <= 'Z' then (s[i] as int + 32) as char else s[i]
  {
    if i == 0 {
      LowerLength(s);
    } else {
      LowerAt(s[1..], i - 1);
    }
  }

  lemma {:induction false} LowerLength(s: string)
    ensures |Lower(s)| == |s|
  {
    if s != [] { LowerLength(s[1..]); }
  }

  // ----- the pieces a scanner measures, on the text still to be read -----

  /** Bytes up to, and not including, the next newline. */
  function LineRun(s: string): (n: nat)
    ensures n <= |s|
  {
    if s == [] || s[0] == '\n' then 0 else 1 + LineRun(s[1..])
  }

  function WordRun(s: string): (n: nat)
    ensures n <= |s|
  {
    if s == [] || !IsWordByte(s[0]) then 0 else 1 + WordRun(s[1..])
  }

  function TagByteRun(s: string): (n: nat)
    ensures n <= |s|
  {
    if s == [] || !IsTagByte(s[0]) then 0 else 1 + TagByteRun(s[1..])
  }

  /** The optional tag of a dollar quote; a tag may not begin with a digit. */
  function TagRun(s: string): (n: nat)
    ensures n <= |s|
  {
    if s != [] && IsTagStart(s[0]) then TagByteRun(s) else 0
  }

  predicate Opens(s: string) {
    |s| >= 2 && s[0] == '/' && s[1] == '*'
  }

  predicate Closes(s: string) {
    |s| >= 2 && s[0] == '*' && s[1] == '/'
  }

  /** Where `depth` open block comments are all closed; None if they never are. */
  function CommentEnd(s: string, depth: nat): (end: Option<nat>)
    ensures end.Some? ==> end.value <= |s|
    decreases |s|
  {
    if depth == 0 then Some(0)
    else if s == [] then None
    else if Opens(s) then Shift(2, CommentEnd(s[2..], depth + 1))
    else if Closes(s) then Shift(2, CommentEnd(s[2..], depth - 1))
    else Shift(1, CommentEnd(s[1..], depth))
  }

  function Shift(n: nat, end: Option<nat>): Option<nat> {
    match end
    case None => None
    case Some(k) => Some(n + k)
  }

  /** One step of the comment scan. */
  lemma CommentAt(s: string, n: nat)
    ensures n == 0 ==> CommentEnd(s, n) == Some(0)
    ensures n > 0 && CommentEnd(s, n).Some? ==> s != []
    ensures n > 0 && Opens(s) ==> |s| >= 2 && CommentEnd(s, n) == Shift(2, CommentEnd(s[2..], n + 1))
    ensures n > 0 && Closes(s) ==> !Opens(s) && |s| >= 2 && CommentEnd(s, n) == Shift(2, CommentEnd(s[2..], n - 1))
    ensures n > 0 && s != [] && !Opens(s) && !Closes(s) ==> CommentEnd(s, n) == Shift(1, CommentEnd(s[1..], n))
  {
  }

  /** Just past the quote `q` that closes a quoted run whose opening quote has
      been read. A doubled quote is content; so is the byte after a backslash
      when `backslash` is on. None if the run is not terminated. */
  function QuoteEnd(s: string, q: char, backslash: bool): (end: Option<nat>)
    ensures end.Some? ==> 1 <= end.value <= |s|
  {
    if s == [] then None
    else if backslash && s[0] == '\\' then
      if |s| == 1 then None else Shift(2, QuoteEnd(s[2..], q, backslash))
    else if s[0] == q then
      if |s| >= 2 && s[1] == q then Shift(2, QuoteEnd(s[2..], q, backslash)) else Some(1)
    else Shift(1, QuoteEnd(s[1..], q, backslash))
  }

  /** The text of a quoted run with its doubled quotes made single. */
  function QuoteText(s: string, q: char): string {
    if s == [] then []
    else if s[0] == q then
      if |s| >= 2 && s[1] == q then [q] + QuoteText(s[2..], q) else []
    else [s[0]] + QuoteText(s[1..], q)
  }

  /** The branches of the two functions above, for a run without escapes. */
  lemma QuoteAt(s: string, q: char)
    requires s != []
    ensures s[0] == q && !(|s| > 1 && s[1] == q) ==> QuoteEnd(s, q, false) == Some(1) && QuoteText(s, q) == []
    ensures s[0] != q ==>
      QuoteEnd(s, q, false) == Shift(1, QuoteEnd(s[1..], q, false)) && QuoteText(s, q) == [s[0]] + QuoteText(s[1..], q)
    ensures s[0] == q && |s| > 1 && s[1] == q ==>
      QuoteEnd(s, q, false) == Shift(2, QuoteEnd(s[2..], q, false)) && QuoteText(s, q) == [q] + QuoteText(s[2..], q)
  {
  }

  lemma QuoteAtEnd(q: char)
    ensures QuoteEnd([], q, false) == None && QuoteText([], q) == []
  {
  }

  /** The first place where `pat` occurs in `s`. */
  function Find(s: string, pat: string): (at: Option<nat>)
    ensures at.Some? ==> at.value + |pat| <= |s|
  {
    if pat <= s then Some(0)
    else if s == [] then None
    else Shift(1, Find(s[1..], pat))
  }

  /** `Find` gives an occurrence, and by `FindIsFirst` the first one; None means
      there is none. */
  lemma {:induction false} FindOccurs(s: string, pat: string)
    requires Find(s, pat).Some?
    ensures var k := Find(s, pat).value; s[k..k + |pat|] == pat
  {
    if !(pat <= s) {
      FindOccurs(s[1..], pat);
      var k := Find(s[1..], pat).value;
      assert s[1..][k..k + |pat|] == s[k + 1..k + 1 + |pat|];
    }
  }

  lemma {:induction false} FindIsFirst(s: string, pat: string, j: nat)
    requires j + |pat| <= |s| && s[j..j + |pat|] == pat
    ensures Find(s, pat).Some? && Find(s, pat).value <= j
  {
    if !(pat <= s) {
      assert j > 0;
      assert s[1..][j - 1..j - 1 + |pat|] == pat;
      FindIsFirst(s[1..], pat, j - 1);
    }
  }

  /** A text that begins with '$': no dollar quote, or one with its end. */
  datatype Dollar = NotQuote | Quote(end: Option<nat>)

  function DollarEnd(s: string): (d: Dollar)
    requires s != [] && s[0] == '$'
    ensures d.Quote? && d.end.Some? ==> 1 <= d.end.value <= |s|
  {
    var t := 1 + TagRun(s[1..]);
    if t >= |s| || s[t] != '$' then NotQuote
    else Quote(Shift(2 * (t + 1), Find(s[t + 1..], s[..t + 1])))
  }

  // ----- one lexical segment, and the whole input -----

  /** One turn of the lexer: how much it reads, what it emits, and whether a
      literal or comment was left open by the end of the input. */
  datatype Segment = Segment(len: nat, out: seq<Token>, closed: bool)

  function Skipped(start: nat, end: Option<nat>, total: nat, out: seq<Token>): Segment {
    match end
    case None => Segment(total, out, false)
    case Some(k) => Segment(start + k, out, true)
  }

  function Step(s: string): (g: Segment)
    requires s != []
    ensures 1 <= g.len <= |s|
  {
    var c := s[0];
    if IsSpace(c) then Segment(1, [], true)
    else if c == '-' && |s| > 1 && s[1] == '-' then Segment(2 + LineRun(s[2..]), [], true)
    else if Opens(s) then Skipped(2, CommentEnd(s[2..], 1), |s|, [])
    else if c == '\'' then Skipped(1, QuoteEnd(s[1..], '\'', false), |s|, [])
    else if (c == 'e' || c == 'E') && |s| > 1 && s[1] == '\'' then
      Skipped(2, QuoteEnd(s[2..], '\'', true), |s|, [])
    else if c == '"' then
      Skipped(1, QuoteEnd(s[1..], '"', false), |s|, [Token(Ident, Lower(QuoteText(s[1..], '"')))])
    else if c == '$' then
      match DollarEnd(s)
      case Quote(end) => Skipped(0, end, |s|, [])
      case NotQuote => Segment(1 + WordRun(s[1..]), [], true)
    else if IsWordStart(c) then
      var n := 1 + WordRun(s[1..]);
      Segment(n, [Token(Word, Lower(s[..n]))], true)
    else Segment(1, [Token(Punct, [c])], true)
  }

  /** The token stream of a query. */
  function Lex(s: string): seq<Token> {
    if s == [] then [] else
      var g := Step(s);
      g.out + Lex(s[g.len..])
  }

  // ----- case and byte classes, seen in the token stream -----

  /** No word and no quoted identifier comes out with a capital letter in it. */
  lemma {:induction false} TokensAreFolded(s: string, i: nat, j: nat)
    requires i < |Lex(s)| && Lex(s)[i].kind != Punct && j < |Lex(s)[i].text|
    ensures !('A' <= Lex(s)[i].text[j] <= 'Z')
    decreases |s|
  {
    var g := Step(s);
    if i < |g.out| {
      SegmentIsFolded(s, j);
    } else {
      TokensAreFolded(s[g.len..], i - |g.out|, j);
    }
  }

  lemma SegmentIsFolded(s: string, j: nat)
    requires s != [] && Step(s).out != [] && Step(s).out[0].kind != Punct && j < |Step(s).out[0].text|
    ensures |Step(s).out| == 1 && !('A' <= Step(s).out[0].text[j] <= 'Z')
  {
    hide Lower, LowerByte, WordRun, QuoteText, QuoteEnd, CommentEnd, DollarEnd;
    var raw := if s[0] == '"' then QuoteText(s[1..], '"') else s[..1 + WordRun(s[1..])];
    assert Step(s).out[0].text == Lower(raw);
    LowerLength(raw);
    LowerAt(raw, j);
  }

  /** What a query of one byte lexes to, for every byte. */
  lemma OneByte(c: char)
    ensures Lex([c]) ==
      if c == ' ' || 9 <= c as int <= 13 || c == '\'' || c == '$' then []
      else if c == '"' then [Token(Ident, "")]
      else if 'A' <= c <= 'Z' then [Token(Word, [(c as int + 32) as char])]
      else if 'a' <= c <= 'z' || c == '_' || c as int >= 128 then [Token(Word, [c])]
      else [Token(Punct, [c])]
  {
    LexOne(c);
    LowerOne(c);
    assert [c][1..] == [] && [c][..1] == [c];
    assert QuoteText([], '"') == [] && Lower([]) == [];
  }

  lemma LexOne(c: char)
    ensures Lex([c]) == Step([c]).out && Step([c]).len == 1
  {
    hide Step;
    assert [c][1..] == [];
  }

  lemma LowerOne(c: char)
    ensures Lower([c]) == [LowerByte(c)]
  {
    assert [c][1..] == [];
  }

  /** A byte continues a word if and only if it is a letter, a digit, an underscore
      or outside ASCII. */
  lemma WordContinues(c: char)
    ensures Step(['a', c]).len == 2 <==>
      'a' <= c <= 'z' || 'A' <= c <= 'Z' || '0' <= c <= '9' || c == '_' || c as int >= 128
  {
    assert ['a', c][1..] == [c] && [c][1..] == [];
  }

  // ----- the program's loops -----

  function Past(i: nat, end: Option<nat>, n: nat): nat {
    match end
    case None => n
    case Some(k) => i + k
  }

  method SkipBlockComment(s: string, start: nat) returns (i: nat)
    requires start < |s| && Opens(s[start..])
    ensures i == Past(start + 2, CommentEnd(s[start + 2..], 1), |s|)
  {
    hide CommentEnd;
    var n := |s|;
    var depth: nat := 1;
    i := start + 2;
    while i < n && depth > 0
      invariant start + 2 <= i <= n
      invariant Past(start + 2, CommentEnd(s[start + 2..], 1), n) == Past(i, CommentEnd(s[i..], depth), n)
    {
      Suffixes(s, i);
      CommentAt(s[i..], depth);
      if i + 1 < n && s[i] == '/' && s[i + 1] == '*' {
        depth := depth + 1;
        i := i + 2;
        continue;
      }
      if i + 1 < n && s[i] == '*' && s[i + 1] == '/' {
        depth := depth - 1;
        i := i + 2;
        continue;
      }
      i := i + 1;
    }
    CommentAt(s[i..], depth);
  }

  method SkipString(s: string, q: nat, backslash: bool) returns (r: nat)
    requires q < |s| && s[q] == '\''
    ensures r == Past(q + 1, QuoteEnd(s[q + 1..], '\'', backslash), |s|)
  {
    var n := |s|;
    var i := q + 1;
    while i < n
      invariant q + 1 <= i
      invariant i <= n ==>
        Past(q + 1, QuoteEnd(s[q + 1..], '\'', backslash), n) == Past(i, QuoteEnd(s[i..], '\'', backslash), n)
      invariant i > n ==> Past(q + 1, QuoteEnd(s[q + 1..], '\'', backslash), n) == n
    {
      var c := s[i];
      assert s[i..][1..] == s[i + 1..];
      assert i + 1 < n ==> s[i..][2..] == s[i + 2..];
      if backslash && c == '\\' {
        i := i + 2;
        continue;
      }
      if c == '\'' {
        if i + 1 < n && s[i + 1] == '\'' {
          i := i + 2;
          continue;
        }
        return i + 1;
      }
      i := i + 1;
    }
    return n;
  }

  method ScanQuotedIdent(s: string, q: nat) returns (r: nat, text: string)
    requires q < |s| && s[q] == '"'
    ensures r == Past(q + 1, QuoteEnd(s[q + 1..], '"', false), |s|)
    ensures text == QuoteText(s[q + 1..], '"')
  {
    hide QuoteEnd, QuoteText;
    var n := |s|;
    text := [];
    var i := q + 1;
    QuoteAtEnd('"');
    while i < n
      invariant q + 1 <= i <= n
      invariant Past(q + 1, QuoteEnd(s[q + 1..], '"', false), n) == Past(i, QuoteEnd(s[i..], '"', false), n)
      invariant text + QuoteText(s[i..], '"') == QuoteText(s[q + 1..], '"')
    {
      var c := s[i];
      QuoteAt(s[i..], '"');
      Suffixes(s, i);
      if c == '"' {
        if i + 1 < n && s[i + 1] == '"' {
          text := text + ['"'];
          i := i + 2;
          continue;
        }
        return i + 1, text;
      }
      text := text + [c];
      i := i + 1;
    }
    assert s[n..] == [];
    return n, text;
  }

  lemma Suffixes(s: string, i: nat)
    requires i < |s|
    ensures s[i..] != [] && s[i..][0] == s[i] && s[i..][1..] == s[i + 1..]
    ensures i + 1 < |s| ==> |s[i..]| > 1 && s[i..][1] == s[i + 1] && s[i..][2..] == s[i + 2..]
  {
  }

  method DollarQuote(s: string, i: nat) returns (end: nat, ok: bool)
    requires i < |s| && s[i] == '$'
    ensures ok <==> DollarEnd(s[i..]).Quote?
    ensures ok ==> end == Past(i, DollarEnd(s[i..]).end, |s|)
  {
    hide Find;
    var n := |s|;
    var j := i + 1;
    if j < n && (IsLetter(s[j]) || s[j] == '_') {
      j := j + 1;
      assert s[i + 1..][1..] == s[j..];
      while j < n && (IsLetter(s[j]) || IsDigit(s[j]) || s[j] == '_')
        invariant i + 1 <= j <= n
        invariant TagRun(s[i + 1..]) == j - i - 1 + TagByteRun(s[j..])
      {
        assert s[j..][1..] == s[j + 1..];
        j := j + 1;
      }
    }
    assert s[i..][1..] == s[i + 1..];
    assert j == i + 1 + TagRun(s[i + 1..]);
    if j >= n || s[j] != '$' {
      return 0, false;
    }
    var tag := s[i..j + 1];
    var rest := s[j + 1..];
    assert s[i..][..j - i + 1] == tag && s[i..][j - i + 1..] == rest;
    match Find(rest, tag) {
      case Some(k) => return j + 1 + k + |tag|, true;
      case None => return n, true;
    }
  }

  /** The line-comment loop: from `i` to the next newline. */
  method SkipLine(s: string, i: nat) returns (j: nat)
    requires i <= |s|
    ensures j == i + LineRun(s[i..])
  {
    j := i;
    while j < |s| && s[j] != '\n'
      invariant i <= j <= |s|
      invariant j + LineRun(s[j..]) == i + LineRun(s[i..])
    {
      assert s[j..][1..] == s[j + 1..];
      j := j + 1;
    }
  }

  /** The word loop, used for words and for what follows a bare '$'. */
  method SkipWordBytes(s: string, i: nat) returns (j: nat)
    requires i <= |s|
    ensures j == i + WordRun(s[i..])
  {
    j := i;
    while j < |s| && IsWordByte(s[j])
      invariant i <= j <= |s|
      invariant j + WordRun(s[j..]) == i + WordRun(s[i..])
    {
      assert s[j..][1..] == s[j + 1..];
      j := j + 1;
    }
  }

  /** One turn of the lexer's loop at index `i`: the next index and what is emitted. */
  method NextToken(s: string, i: nat) returns (next: nat, out: seq<Token>)
    requires i < |s|
    ensures next == i + Step(s[i..]).len
    ensures out == Step(s[i..]).out
  {
    hide CommentEnd, QuoteEnd, QuoteText, WordRun, LineRun, DollarEnd, Lower;
    var n := |s|;
    var c := s[i];
    ghost var rest := s[i..];
    assert rest[1..] == s[i + 1..];
    out := [];
    if c == ' ' || c == '\t' || c == '\r' || c == '\n' || c == '\U{000C}' || c == '\U{000B}' {
      next := i + 1;
    } else if c == '-' && i + 1 < n && s[i + 1] == '-' {
      next := SkipLine(s, i + 2);
      assert rest[2..] == s[i + 2..];
    } else if c == '/' && i + 1 < n && s[i + 1] == '*' {
      next := SkipBlockComment(s, i);
      assert rest[2..] == s[i + 2..];
    } else if c == '\'' {
      next := SkipString(s, i, false);
    } else if (c == 'e' || c == 'E') && i + 1 < n && s[i + 1] == '\'' {
      next := SkipString(s, i + 1, true);
      assert rest[2..] == s[i + 2..];
    } else if c == '"' {
      var j, text := ScanQuotedIdent(s, i);
      out := [Token(Ident, Lower(text))];
      next := j;
    } else if c == '$' {
      var end, ok := DollarQuote(s, i);
      if ok {
        next := end;
      } else {
        next := SkipWordBytes(s, i + 1);
      }
    } else if IsWordStart(c) {
      next := SkipWordBytes(s, i + 1);
      assert rest[..next - i] == s[i..next];
      out := [Token(Word, Lower(s[i..next]))];
    } else {
      out := [Token(Punct, [c])];
      next := i + 1;
    }
  }

  method Tokenize(s: string) returns (toks: seq<Token>)
    ensures toks == Lex(s)
  {
    hide Step;
    toks := [];
    var i := 0;
    while i < |s|
      invariant 0 <= i <= |s|
      invariant toks + Lex(s[i..]) == Lex(s)
    {
      var next, out := NextToken(s, i);
      assert s[i..][next - i..] == s[next..];
      toks := toks + out;
      i := next;
    }
  }
}
