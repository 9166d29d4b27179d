/**
 The SQL gate's two validators and the RETURNING test, on top of the lexer.
 */
module SqlGate {
  import opened Options
  import opened SqlLexer
  import opened SqlBoundaries
  import opened SqlLayout

  datatype GateError = Empty | NotRead | Multiple | Catalog | NotAllowed

  datatype Class = Read | Write

  const MODE_OFF: string := "off"

  const READ_STARTERS: set<string> := {"select", "with", "table", "values"}
  const WRITE_STARTERS: set<string> := {"insert", "update", "delete"}

  predicate IsCatalogIdent(name: string) {
    name == "information_schema" || "pg_" <= name
  }

  const OPEN_PAREN := Token(Punct, "(")
  const SEMICOLON := Token(Punct, ";")

  predicate NamesCatalog(t: Token) {
    t.kind != Punct && IsCatalogIdent(t.text)
  }

  // ----- the rules, as statements about a token stream -----

  /** The statement begins with token `k`: only opening parentheses stand before it. */
  predicate LeadsAt(toks: seq<Token>, k: nat) {
    k < |toks| && toks[k] != OPEN_PAREN && forall j | 0 <= j < k :: toks[j] == OPEN_PAREN
  }

  /** The first token that is not an opening parenthesis is one of these words. */
  ghost predicate BeginsWith(toks: seq<Token>, words: set<string>) {
    exists k | 0 <= k < |toks| :: LeadsAt(toks, k) && toks[k].kind == Word && toks[k].text in words
  }

  /** Token `i` breaks the single-statement or the no-catalog rule. */
  predicate Offends(toks: seq<Token>, i: nat)
    requires i < |toks|
  {
    (toks[i] == SEMICOLON && i != |toks| - 1) || NamesCatalog(toks[i])
  }

  predicate Clean(toks: seq<Token>) {
    forall i | 0 <= i < |toks| :: !Offends(toks, i)
  }

  /** What the rule loop reports from token `i` on. */
  function Offence(toks: seq<Token>, i: nat): Option<GateError>
    requires i <= |toks|
    decreases |toks| - i
  {
    if i == |toks| then None
    else if toks[i] == SEMICOLON then
      if i != |toks| - 1 then Some(Multiple) else Offence(toks, i + 1)
    else if NamesCatalog(toks[i]) then Some(Catalog)
    else Offence(toks, i + 1)
  }

  /** The number of opening parentheses in front. */
  function Parens(toks: seq<Token>): (k: nat)
    ensures k <= |toks|
    ensures forall i | 0 <= i < k :: toks[i] == OPEN_PAREN
    ensures k < |toks| ==> LeadsAt(toks, k)
  {
    if toks == [] || toks[0] != OPEN_PAREN then 0 else
      var k := 1 + Parens(toks[1..]);
      assert forall i | 1 <= i < k :: toks[i] == toks[1..][i - 1];
      k
  }

  function CheckTokens(toks: seq<Token>): Option<GateError> {
    var k := Parens(toks);
    if k == |toks| then Some(Empty)
    else if toks[k].kind != Word || toks[k].text !in READ_STARTERS then Some(NotRead)
    else Offence(toks, 0)
  }

  function CheckVerdict(query: string, mode: string): Option<GateError> {
    if mode == MODE_OFF then None else CheckTokens(Lex(query))
  }

  function StarterClass(t: Token): Option<Class> {
    if t.kind != Word then None
    else if t.text == "with" || t.text in WRITE_STARTERS then Some(Write)
    else if t.text in READ_STARTERS then Some(Read)
    else None
  }

  function ClassOfTokens(toks: seq<Token>): Result<Class, GateError> {
    var k := Parens(toks);
    if k == |toks| then Err(Empty)
    else match StarterClass(toks[k])
      case None => Err(NotAllowed)
      case Some(c) =>
        match Offence(toks, 0)
        case None => Ok(c)
        case Some(e) => Err(e)
  }

  function ClassVerdict(query: string): Result<Class, GateError> {
    ClassOfTokens(Lex(query))
  }

  predicate Returns(query: string) {
    Token(Word, "returning") in Lex(query)
  }

  // ----- the program -----

  /** The loop that skips leading parentheses. */
  method SkipParens(toks: seq<Token>) returns (first: nat)
    ensures first == Parens(toks)
  {
    first := 0;
    while first < |toks| && toks[first].kind == Punct && toks[first].text == "("
      invariant first <= |toks|
      invariant first + Parens(toks[first..]) == Parens(toks)
    {
      assert toks[first..][1..] == toks[first + 1..];
      first := first + 1;
    }
  }

  /** The single pass over the tokens that both validators make. */
  method ScanRules(toks: seq<Token>) returns (err: Option<GateError>)
    ensures err == Offence(toks, 0)
  {
    for i := 0 to |toks|
      invariant Offence(toks, 0) == Offence(toks, i)
    {
      var t := toks[i];
      if t.kind == Punct && t.text == ";" {
        if i != |toks| - 1 {
          return Some(Multiple);
        }
      } else if t.kind == Word || t.kind == Ident {
        if IsCatalogIdent(t.text) {
          return Some(Catalog);
        }
      }
    }
    return None;
  }

  method Check(query: string, mode: string) returns (err: Option<GateError>)
    ensures err == CheckVerdict(query, mode)
  {
    if mode == MODE_OFF {
      return None;
    }
    var toks := Tokenize(query);
    var first := SkipParens(toks);
    if first >= |toks| {
      return Some(Empty);
    }
    var ft := toks[first];
    if ft.kind != Word || ft.text !in READ_STARTERS {
      return Some(NotRead);
    }
    err := ScanRules(toks);
  }

  method Classify(query: string) returns (r: Result<Class, GateError>)
    ensures r == ClassVerdict(query)
  {
    var toks := Tokenize(query);
    var first := SkipParens(toks);
    if first >= |toks| {
      return Err(Empty);
    }
    var ft := toks[first];
    if ft.kind != Word {
      return Err(NotAllowed);
    }
    var verdict: Class;
    if ft.text == "with" || ft.text in WRITE_STARTERS {
      verdict := Write;
    } else if ft.text in READ_STARTERS {
      verdict := Read;
    } else {
      return Err(NotAllowed);
    }
    var err := ScanRules(toks);
    match err {
      case Some(e) => return Err(e);
      case None => return Ok(verdict);
    }
  }

  method HasReturning(query: string) returns (found: bool)
    ensures found <==> Returns(query)
  {
    hide Lex;
    var toks := Tokenize(query);
    for i := 0 to |toks|
      invariant forall j | 0 <= j < i :: toks[j] != Token(Word, "returning")
    {
      if toks[i].kind == Word && toks[i].text == "returning" {
        return true;
      }
    }
    return false;
  }

  // ----- what the verdicts mean -----

  lemma BeginsAtParens(toks: seq<Token>, words: set<string>)
    ensures BeginsWith(toks, words) <==>
      Parens(toks) < |toks| && toks[Parens(toks)].kind == Word && toks[Parens(toks)].text in words
  {
    var k := Parens(toks);
    if k < |toks| { assert LeadsAt(toks, k); }
    forall m | 0 <= m < |toks| && LeadsAt(toks, m)
      ensures m == k
    {
    }
  }

  /** The rule loop blames the first token that breaks a rule. */
  lemma {:induction false} OffenceIsFirst(toks: seq<Token>, i: nat)
    requires i <= |toks|
    ensures Offence(toks, i) == None <==> forall j | i <= j < |toks| :: !Offends(toks, j)
    ensures Offence(toks, i).Some? ==>
      exists j | i <= j < |toks| ::
        && Offends(toks, j) && (forall m | i <= m < j :: !Offends(toks, m))
        && Offence(toks, i) == Some(if toks[j] == SEMICOLON then Multiple else Catalog)
    decreases |toks| - i
  {
    if i < |toks| {
      OffenceIsFirst(toks, i + 1);
      if !Offends(toks, i) && Offence(toks, i + 1).Some? {
        var j :| i + 1 <= j < |toks| && Offends(toks, j) && (forall m | i + 1 <= m < j :: !Offends(toks, m))
                 && Offence(toks, i + 1) == Some(if toks[j] == SEMICOLON then Multiple else Catalog);
        assert forall m | i <= m < j :: !Offends(toks, m);
      }
    }
  }

  /** Every mode but "off" accepts exactly the clean queries that begin with a
      read starter, and names the first reason otherwise. */
  lemma CheckMeaning(query: string, mode: string)
    requires mode != MODE_OFF
    ensures var toks, v := Lex(query), CheckVerdict(query, mode);
      && (v == None <==> BeginsWith(toks, READ_STARTERS) && Clean(toks))
      && (v == Some(Empty) <==> forall i | 0 <= i < |toks| :: toks[i] == OPEN_PAREN)
      && (v == Some(NotRead) <==> v != Some(Empty) && !BeginsWith(toks, READ_STARTERS))
      && v != Some(NotAllowed)
  {
    var toks := Lex(query);
    OffenceIsFirst(toks, 0);
    BeginsAtParens(toks, READ_STARTERS);
  }

  /** Classify takes the same statements and the write starters; WITH is a write. */
  lemma ClassMeaning(query: string)
    ensures var toks, c := Lex(query), ClassVerdict(query);
      && (c == Ok(Read) <==> BeginsWith(toks, READ_STARTERS - {"with"}) && Clean(toks))
      && (c == Ok(Write) <==> BeginsWith(toks, WRITE_STARTERS + {"with"}) && Clean(toks))
      && (c == Err(Empty) <==> forall i | 0 <= i < |toks| :: toks[i] == OPEN_PAREN)
      && (c == Err(NotAllowed) <==> c != Err(Empty) && !BeginsWith(toks, READ_STARTERS + WRITE_STARTERS))
      && c != Err(NotRead)
  {
    var toks := Lex(query);
    OffenceIsFirst(toks, 0);
    BeginsAtParens(toks, READ_STARTERS - {"with"});
    BeginsAtParens(toks, WRITE_STARTERS + {"with"});
    BeginsAtParens(toks, READ_STARTERS + WRITE_STARTERS);
  }

  // ----- the same, with the words spelled out -----

  /** A word or quoted identifier of the catalogs, character by character. */
  ghost predicate SpellsCatalog(t: Token) {
    t.kind != Punct && (t.text == "information_schema" || (|t.text| >= 3 && t.text[..3] == "pg_"))
  }

  lemma CatalogSpelled(t: Token)
    ensures NamesCatalog(t) <==> SpellsCatalog(t)
  {
    if |t.text| >= 3 && t.text[..3] == "pg_" { assert "pg_" <= t.text; }
    if "pg_" <= t.text { assert t.text[..3] == "pg_"; }
  }

  /** For every query and mode: Check accepts if and only if the gate is off, or the
      query begins with SELECT, WITH, TABLE or VALUES, has a semicolon at its end
      only, and names neither information_schema nor anything that begins with pg_. */
  lemma CheckAcceptsExactly(query: string, mode: string)
    ensures var toks := Lex(query);
      CheckVerdict(query, mode) == None <==>
        || mode == "off"
        || (&& (exists k | 0 <= k < |toks| ::
                  && toks[k].kind == Word && toks[k].text in {"select", "with", "table", "values"}
                  && forall j | 0 <= j < k :: toks[j] == Token(Punct, "("))
            && (forall i | 0 <= i < |toks| - 1 :: toks[i] != Token(Punct, ";"))
            && (forall i | 0 <= i < |toks| :: toks[i].kind != Punct ==>
                  toks[i].text != "information_schema" && !(|toks[i].text| >= 3 && toks[i].text[..3] == "pg_")))
  {
    var toks := Lex(query);
    hide Lex, Offence, Parens;
    if mode != MODE_OFF {
      CheckMeaning(query, mode);
      CleanSpelled(toks);
      BeginsSpelled(toks, READ_STARTERS);
    }
  }

  lemma CleanSpelled(toks: seq<Token>)
    ensures Clean(toks) <==>
      && (forall i | 0 <= i < |toks| - 1 :: toks[i] != Token(Punct, ";"))
      && forall i | 0 <= i < |toks| :: toks[i].kind != Punct ==>
           toks[i].text != "information_schema" && !(|toks[i].text| >= 3 && toks[i].text[..3] == "pg_")
  {
    hide IsCatalogIdent;
    forall i | 0 <= i < |toks|
      ensures NamesCatalog(toks[i]) <==> SpellsCatalog(toks[i])
    {
      CatalogSpelled(toks[i]);
    }
    assert forall i | 0 <= i < |toks| :: Offends(toks, i) <==>
      (toks[i] == SEMICOLON && i != |toks| - 1) || SpellsCatalog(toks[i]);
    assert Clean(toks) ==> forall i | 0 <= i < |toks| :: !Offends(toks, i);
  }

  lemma BeginsSpelled(toks: seq<Token>, words: set<string>)
    ensures BeginsWith(toks, words) <==>
      exists k | 0 <= k < |toks| ::
        && toks[k].kind == Word && toks[k].text in words
        && forall j | 0 <= j < k :: toks[j] == Token(Punct, "(")
  {
    forall k | 0 <= k < |toks| && toks[k].kind == Word && forall j | 0 <= j < k :: toks[j] == Token(Punct, "(")
      ensures LeadsAt(toks, k)
    {
    }
  }

  /** Classify takes SELECT, TABLE and VALUES for reads; WITH, INSERT, UPDATE and
      DELETE for writes; and applies the same two rules. */
  lemma ClassifiesExactly(query: string)
    ensures var toks := Lex(query);
      var clean := && (forall i | 0 <= i < |toks| - 1 :: toks[i] != Token(Punct, ";"))
                   && forall i | 0 <= i < |toks| :: toks[i].kind != Punct ==>
                        toks[i].text != "information_schema" && !(|toks[i].text| >= 3 && toks[i].text[..3] == "pg_");
      var asRead := exists k | 0 <= k < |toks| ::
        && toks[k].kind == Word && toks[k].text in {"select", "table", "values"}
        && forall j | 0 <= j < k :: toks[j] == Token(Punct, "(");
      var asWrite := exists k | 0 <= k < |toks| ::
        && toks[k].kind == Word && toks[k].text in {"with", "insert", "update", "delete"}
        && forall j | 0 <= j < k :: toks[j] == Token(Punct, "(");
      && (ClassVerdict(query) == Ok(Read) <==> clean && asRead)
      && (ClassVerdict(query) == Ok(Write) <==> clean && asWrite)
  {
    var toks := Lex(query);
    hide Lex, Offence, Parens;
    ClassMeaning(query);
    CleanSpelled(toks);
    BeginsSpelled(toks, READ_STARTERS - {"with"});
    BeginsSpelled(toks, WRITE_STARTERS + {"with"});
    assert READ_STARTERS - {"with"} == {"select", "table", "values"};
    assert WRITE_STARTERS + {"with"} == {"with", "insert", "update", "delete"};
  }

  /** Either validator refuses a query that names a catalog, in every strict mode. */
  lemma CatalogRefused(query: string, mode: string, i: nat)
    requires mode != "off" && i < |Lex(query)| && Lex(query)[i].kind != Punct
    requires var text := Lex(query)[i].text;
      text == "information_schema" || (|text| >= 3 && text[..3] == "pg_")
    ensures CheckVerdict(query, mode) != None && ClassVerdict(query).Err?
  {
    hide Lex, Offence, Parens;
    var toks := Lex(query);
    CatalogSpelled(toks[i]);
    assert Offends(toks, i);
    AcceptedNeedsClean(query, mode);
  }

  lemma AcceptedNeedsClean(query: string, mode: string)
    requires mode != "off"
    ensures CheckVerdict(query, mode) == None || ClassVerdict(query).Ok? ==> Clean(Lex(query))
  {
    hide Lex;
    OffenceIsFirst(Lex(query), 0);
  }

  /** Which of the two rules is blamed: that of the first token that breaks one. */
  lemma BlamesExactly(query: string, mode: string, i: nat)
    requires mode != "off" && i < |Lex(query)|
    requires forall j | 0 <= j < i :: Lex(query)[j] != Token(Punct, ";") && !SpellsCatalog(Lex(query)[j])
    requires (Lex(query)[i] == Token(Punct, ";") && i < |Lex(query)| - 1) || SpellsCatalog(Lex(query)[i])
    ensures var error := if Lex(query)[i] == Token(Punct, ";") then Multiple else Catalog;
      && (BeginsWith(Lex(query), READ_STARTERS) ==> CheckVerdict(query, mode) == Some(error))
      && (BeginsWith(Lex(query), READ_STARTERS + WRITE_STARTERS) ==> ClassVerdict(query) == Err(error))
  {
    var toks := Lex(query);
    hide Lex, SpellsCatalog, IsCatalogIdent;
    forall j | 0 <= j <= i
      ensures NamesCatalog(toks[j]) <==> SpellsCatalog(toks[j])
    {
      CatalogSpelled(toks[j]);
    }
    OffenceAt(toks, 0, i);
    BeginsAtParens(toks, READ_STARTERS);
    BeginsAtParens(toks, READ_STARTERS + WRITE_STARTERS);
  }

  lemma {:induction false} OffenceAt(toks: seq<Token>, i: nat, k: nat)
    requires i <= k < |toks| && Offends(toks, k) && forall j | i <= j < k :: !Offends(toks, j)
    ensures Offence(toks, i) == Some(if toks[k] == SEMICOLON then Multiple else Catalog)
    decreases k - i
  {
    if i < k {
      assert !Offends(toks, i);
      OffenceAt(toks, i + 1, k);
    }
  }

  /** A statement returns rows if and only if the bare word RETURNING is one of its
      words. */
  lemma ReturnsExactly(query: string)
    ensures Returns(query) <==>
      exists i | 0 <= i < |Lex(query)| :: Lex(query)[i].kind == Word && Lex(query)[i].text == "returning"
  {
    hide Lex;
    var toks := Lex(query);
    if Returns(query) {
      var i :| 0 <= i < |toks| && toks[i] == Token(Word, "returning");
    }
  }

  /** The two validators agree: Check accepts what Classify accepts with a read
      starter in front, so everything Classify calls a read passes Check in every
      mode; and a query both refuse for a rule is refused for the same one. */
  lemma Agreement(query: string, mode: string)
    requires mode != MODE_OFF
    ensures var toks, c, v := Lex(query), ClassVerdict(query), CheckVerdict(query, mode);
      && (c == Ok(Read) ==> v == None)
      && (v == None <==> c.Ok? && BeginsWith(toks, READ_STARTERS))
      && (v == None ==> (c == Ok(Write) <==> BeginsWith(toks, {"with"})))
      && (v == Some(Empty) <==> c == Err(Empty))
      && (c == Err(NotAllowed) ==> v == Some(NotRead))
      && (v in {Some(Multiple), Some(Catalog)} ==> c == Err(v.value))
      && (c in {Err(Multiple), Err(Catalog)} ==> v in {Some(NotRead), Some(c.error)})
  {
    hide Lex;
    OffenceIsFirst(Lex(query), 0);
    BeginsAtParens(Lex(query), READ_STARTERS);
    BeginsAtParens(Lex(query), {"with"});
  }

  // ----- what an accepted query looks like as text -----

  lemma {:induction false} SilentPieces(ps: seq<Piece>)
    ensures Tokens(ps) == [] ==> forall i | 0 <= i < |ps| :: Out(ps[i]) == []
  {
    if ps != [] {
      SilentPieces(ps[1..]);
      assert forall i | 1 <= i < |ps| :: ps[i] == ps[1..][i - 1];
    }
  }

  /** In the text of a query that either validator accepts a ';' outside literals and
      comments is followed by trivia only, so there is at most one; and no word and no
      quoted identifier spells a catalog, in any mixture of capitals. */
  lemma AcceptedShape(ps: seq<Piece>, open: string, mode: string, j: nat)
    requires Printable(ps, open) && (open != [] ==> !Step(open).closed) && mode != "off"
    requires CheckVerdict(PrintAll(ps) + open, mode) == None || ClassVerdict(PrintAll(ps) + open).Ok?
    requires j < |ps|
    ensures ps[j] == Mark(';') ==>
      (forall i | j < i < |ps| :: Out(ps[i]) == []) && (open != [] ==> Step(open).out == [])
    ensures ps[j].Name? || ps[j].Quoted? ==>
      var raw := if ps[j].Name? then ps[j].word else ps[j].body;
      && !(|raw| >= 3 && raw[0] in {'p', 'P'} && raw[1] in {'g', 'G'} && raw[2] == '_')
      && !(|raw| == 18 && forall i | 0 <= i < 18 ::
             (if 'A' <= raw[i] <= 'Z' then (raw[i] as int + 32) as char else raw[i]) == "information_schema"[i])
  {
    hide Step, Printable, CheckVerdict, ClassVerdict, PrintAll, Lex, Tokens, Out, IsCatalogIdent, Lower;
    var tail := if open == [] then [] else Step(open).out;
    Reading(ps, open);
    AcceptedNeedsClean(PrintAll(ps) + open, mode);
    TokenOfPiece(ps[j]);
    CleanAround(ps, tail, j);
    if Out(ps[j]) != [] {
      if ps[j] == Mark(';') {
        SilentPieces(ps[j + 1..]);
        assert forall i | j < i < |ps| :: ps[i] == ps[j + 1..][i - j - 1];
      } else if ps[j].Name? || ps[j].Quoted? {
        var raw := if ps[j].Name? then ps[j].word else ps[j].body;
        if || (|raw| >= 3 && raw[0] in {'p', 'P'} && raw[1] in {'g', 'G'} && raw[2] == '_')
           || (|raw| == 18 && forall i | 0 <= i < 18 ::
                 (if 'A' <= raw[i] <= 'Z' then (raw[i] as int + 32) as char else raw[i]) == "information_schema"[i]) {
          CatalogInAnyCase(ps[j]);
          assert false;
        }
      }
    }
  }

  /** In a clean stream the token of a piece breaks no rule, and a semicolon is last. */
  lemma CleanAround(ps: seq<Piece>, tail: seq<Token>, j: nat)
    requires j < |ps| && Clean(Tokens(ps) + tail) && |Out(ps[j])| <= 1
    ensures Out(ps[j]) != [] ==> !NamesCatalog(Out(ps[j])[0])
    ensures Out(ps[j]) == [SEMICOLON] ==> Tokens(ps[j + 1..]) == [] && tail == []
  {
    hide Tokens, Out, IsCatalogIdent;
    TokensAround(ps, j);
    var toks, at := Tokens(ps) + tail, |Tokens(ps[..j])|;
    if Out(ps[j]) != [] {
      assert toks == Tokens(ps[..j]) + Out(ps[j]) + Tokens(ps[j + 1..]) + tail;
      assert toks[at] == Out(ps[j])[0] && !Offends(toks, at);
    }
  }

  lemma CatalogInAnyCase(p: Piece)
    requires p.Name? || p.Quoted?
    requires var raw := if p.Name? then p.word else p.body;
      || (|raw| >= 3 && raw[0] in {'p', 'P'} && raw[1] in {'g', 'G'} && raw[2] == '_')
      || (|raw| == 18 && forall i | 0 <= i < 18 ::
            (if 'A' <= raw[i] <= 'Z' then (raw[i] as int + 32) as char else raw[i]) == "information_schema"[i])
    ensures Out(p) != [] && NamesCatalog(Out(p)[0])
  {
    TokenOfPiece(p);
    hide Out, Lower, LowerByte;
    var raw, t := if p.Name? then p.word else p.body, Out(p)[0];
    CatalogSpelled(t);
    if |raw| >= 3 && raw[0] in {'p', 'P'} && raw[1] in {'g', 'G'} && raw[2] == '_' {
      assert t.text[0] == 'p' && t.text[1] == 'g' && t.text[2] == '_';
      assert t.text[..3] == "pg_";
    } else {
      assert t.text == "information_schema";
    }
  }

  /** Two statements separated by a ';' are never accepted, whatever they are. */
  lemma StackedRejected(a: string, b: string, mode: string)
    requires Closed(a) && Lex(b) != [] && mode != "off"
    ensures CheckVerdict(a + "\n" + (";\n" + b), mode) != None
    ensures ClassVerdict(a + "\n" + (";\n" + b)).Err?
  {
    hide Step, CheckVerdict, ClassVerdict;
    var q := a + "\n" + (";\n" + b);
    Concatenation(a);
    SemicolonLine(b);
    assert Lex(q) == Lex(a) + ([SEMICOLON] + Lex(b));
    assert Lex(q)[|Lex(a)|] == SEMICOLON && Offends(Lex(q), |Lex(a)|);
    AcceptedNeedsClean(q, mode);
  }

  lemma SemicolonLine(b: string)
    ensures Lex(";\n" + b) == [SEMICOLON] + Lex(b)
  {
    hide Step;
    LexOfPiece(Blank('\n'), b, 0);
    LexOfPiece(Mark(';'), "\n" + b, 0);
    assert ";\n" + b == Print(Mark(';')) + ("\n" + b);
  }

  /** Opacity, as the caller sees it: other contents in a literal or comment
      change no verdict. */
  lemma VerdictsIgnoreContents(a: string, p: Piece, q: Piece, b: string, mode: string)
    requires Fits(p, b) && Fits(q, b) && Out(p) == [] && Out(q) == []
    requires Print(p)[0] == Print(q)[0]
    requires Boundary(a + (Print(p) + b), |a|)
    ensures var s, t := a + (Print(p) + b), a + (Print(q) + b);
      && CheckVerdict(s, mode) == CheckVerdict(t, mode)
      && ClassVerdict(s) == ClassVerdict(t)
      && (Returns(s) <==> Returns(t))
  {
    Opacity(a, p, q, b);
  }
}
