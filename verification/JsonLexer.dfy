/** The tokenizer as a function of the text, one token at a time. */
module JsonLexer {
  import opened Hashing
  import opened Options
  import opened JsonValues

  datatype Token =
    | TNull | TTrue | TFalse
    | TStr(s: string)
    | TInt(digits: string)
    | LBracket | RBracket | LBrace | RBrace
    | Comma | Colon

  /** The tokens found, and whether the whole text was accepted. */
  datatype Lexed = Lexed(tokens: seq<Token>, ok: bool)

  /** What the tokenizer does at one position. */
  datatype Step = Skip | Emit(t: Token, len: nat) | Reject

  predicate IsSpace(c: char) {
    c == ' ' || c == '\n' || c == '\t'
  }

  predicate IsBreaker(c: char) {
    c in ",[]{} "
  }

  predicate IsWordChar(c: char) {
    !IsBreaker(c)
  }

  /** Length of the longest front whose characters all satisfy p. */
  function Span(s: string, p: char -> bool): (n: nat)
    ensures n <= |s|
    ensures forall i | 0 <= i < n :: p(s[i])
    ensures n < |s| ==> !p(s[n])
  {
    if s == [] || !p(s[0]) then 0 else 1 + Span(s[1..], p)
  }

  /** The scan's test for a closing quote at i, where s starts at the opening one. */
  predicate Closes(s: string, i: nat)
    requires 1 <= i < |s|
  {
    s[i] == '"' && (s[i - 1] != '\\' || (i > 1 && s[i - 2] == '\\'))
  }

  /** Position of the first closing quote from i on, or the end of the text. */
  function QuoteEnd(s: string, i: nat): (e: nat)
    requires 1 <= i <= |s|
    ensures i <= e <= |s|
    ensures e < |s| ==> Closes(s, e)
    ensures forall j | i <= j < e :: !Closes(s, j)
    decreases |s| - i
  {
    if i == |s| || Closes(s, i) then i else QuoteEnd(s, i + 1)
  }

  function Keyword(c: char): Option<(string, Token)> {
    if c == 'n' then Some(("null", TNull))
    else if c == 't' then Some(("true", TTrue))
    else if c == 'f' then Some(("false", TFalse))
    else None
  }

  function Punctuation(c: char): Option<Token> {
    if c == '[' then Some(LBracket)
    else if c == ']' then Some(RBracket)
    else if c == '{' then Some(LBrace)
    else if c == '}' then Some(RBrace)
    else if c == ',' then Some(Comma)
    else if c == ':' then Some(Colon)
    else None
  }

  /** The front of s up to a breaker is read as `word` when it is a prefix of it. */
  function WordStep(s: string, word: string, t: Token): Step {
    var n := Span(s, IsWordChar);
    if s[..n] <= word then Emit(t, n) else Reject
  }

  function StringStep(s: string): Step
    requires s != []
  {
    var e := QuoteEnd(s, 1);
    if e < |s| then Emit(TStr(s[1..e]), e + 1) else Reject
  }

  function Next(s: string): (r: Step)
    requires s != []
    ensures r.Emit? ==> 1 <= r.len <= |s|
  {
    var c := s[0];
    if IsSpace(c) then Skip
    else if Keyword(c).Some? then WordStep(s, Keyword(c).value.0, Keyword(c).value.1)
    else if c == '"' then StringStep(s)
    else if Punctuation(c).Some? then Emit(Punctuation(c).value, 1)
    else if IsDigit(c) then Emit(TInt(s[..Span(s, IsDigit)]), Span(s, IsDigit))
    else Reject
  }

  function Lex(s: string): Lexed
    decreases |s|
  {
    if s == [] then Lexed([], true)
    else match Next(s)
      case Skip => Lex(s[1..])
      case Emit(t, len) => Before([t], Lex(s[len..]))
      case Reject => Lexed([], false)
  }

  function Before(ts: seq<Token>, l: Lexed): Lexed {
    Lexed(ts + l.tokens, l.ok)
  }

  /** a, then b unless a was rejected. */
  function Then(a: Lexed, b: Lexed): Lexed {
    if a.ok then Before(a.tokens, b) else a
  }

  // ----- Spans and quotes

  lemma {:induction false} SpanConcat(a: string, b: string, p: char -> bool)
    requires forall i | 0 <= i < |a| :: p(a[i])
    requires b == [] || !p(b[0])
    ensures Span(a + b, p) == |a|
  {
    if a == [] {
      assert a + b == b;
    } else {
      assert (a + b)[1..] == a[1..] + b;
      SpanConcat(a[1..], b, p);
    }
  }

  /** The scan of `"s"` followed by anything ends at the last quote of `"s"`
      exactly when s satisfies the look-back predicate. */
  lemma {:induction false} ScanEndsAtLastQuote(s: string, rest: string)
    ensures QuoteEnd(Quoted(s) + rest, 1) == |s| + 1 <==> QuoteOk(s)
  {
    var t := Quoted(s) + rest;
    assert t[0] == '"' && t[|s| + 1] == '"';
    assert forall j | 0 <= j < |s| :: t[j + 1] == s[j];
    assert forall j | 1 <= j <= |s| :: Closes(t, j) <==> s[j - 1] == '"' && !Blocked(s, j - 1);
    assert Closes(t, |s| + 1) <==> !Blocked(s, |s|);
    var e := QuoteEnd(t, 1);
    if QuoteOk(s) {
      assert e >= |s| + 1;
    }
    if e == |s| + 1 {
      forall j | 0 <= j < |s| ensures s[j] == '"' ==> Blocked(s, j) {
        assert !Closes(t, j + 1);
      }
    }
  }

  /** A string the scan has delimited satisfies the look-back predicate. */
  lemma {:induction false} ScannedIsQuoteOk(s: string, e: nat)
    requires s != [] && s[0] == '"' && e < |s| && e == QuoteEnd(s, 1)
    ensures QuoteOk(s[1..e])
  {
    var t := s[1..e];
    assert Closes(s, e);
    forall j | 0 <= j < |t| ensures t[j] == '"' ==> Blocked(t, j) {
      assert !Closes(s, j + 1);
    }
  }

  /** Length of the run of backslashes that ends before j. */
  function BackslashRun(s: string, j: nat): (n: nat)
    requires j <= |s|
    ensures n <= j
    ensures forall i | j - n <= i < j :: s[i] == '\\'
    ensures n < j ==> s[j - n - 1] != '\\'
  {
    if j == 0 || s[j - 1] != '\\' then 0 else 1 + BackslashRun(s, j - 1)
  }

  /** Section 7 of RFC 8259: a quote is escaped when an odd number of
      backslashes stands before it. */
  predicate EscapedQuote(s: string, j: nat)
    requires j <= |s|
  {
    BackslashRun(s, j) % 2 == 1
  }

  lemma {:induction false} BlockedByOne(s: string, j: nat)
    requires j <= |s|
    ensures Blocked(s, j) <==> BackslashRun(s, j) == 1
  {
    var n := BackslashRun(s, j);
    assert n >= 1 ==> s[j - 1] == '\\';
    assert n >= 2 ==> s[j - 2] == '\\';
  }

  lemma {:induction false} ClosesUnlessBlocked(s: string, rest: string, j: nat)
    requires j <= |s| && (Quoted(s) + rest)[j + 1] == '"'
    ensures Closes(Quoted(s) + rest, j + 1) <==> !Blocked(s, j)
  {
    assert forall i | 0 <= i < |s| :: (Quoted(s) + rest)[i + 1] == s[i];
  }

  /** At every quote of a quoted string, and at its final one, the scan stops
      unless exactly one backslash stands before it; so its test and escape
      parity differ exactly after an odd run of three or more backslashes. */
  lemma {:induction false} LookBackAgainstParity(s: string, rest: string, j: nat)
    requires j <= |s| && (Quoted(s) + rest)[j + 1] == '"'
    ensures Closes(Quoted(s) + rest, j + 1) <==> BackslashRun(s, j) != 1
    ensures (Closes(Quoted(s) + rest, j + 1) <==> !EscapedQuote(s, j)) <==>
            !(BackslashRun(s, j) % 2 == 1 && BackslashRun(s, j) >= 3)
  {
    hide Closes, Blocked, BackslashRun;
    ClosesUnlessBlocked(s, rest, j);
    BlockedByOne(s, j);
  }

  // ----- Every prefix

  predicate IsBracket(t: Token) {
    t.LBracket? || t.RBracket? || t.LBrace? || t.RBrace?
  }

  lemma {:induction false} SpanPrefix(p: string, s: string, f: char -> bool)
    requires p <= s
    ensures Span(p, f) == if Span(s, f) < |p| then Span(s, f) else |p|
  {
    if p != [] && f(p[0]) {
      SpanPrefix(p[1..], s[1..], f);
    }
  }

  lemma {:induction false} QuoteEndPrefix(p: string, s: string, i: nat)
    requires p <= s && 1 <= i <= |p|
    ensures QuoteEnd(p, i) == if QuoteEnd(s, i) < |p| then QuoteEnd(s, i) else |p|
    decreases |p| - i
  {
    if i < |p| && !Closes(p, i) {
      QuoteEndPrefix(p, s, i + 1);
    }
  }

  /** One step on a prefix: the same step, or the prefix is used up by a piece
      of a token that is no bracket and no colon. */
  lemma {:induction false} NextOfPrefix(p: string, s: string)
    requires p != [] && p <= s
    ensures Next(s).Skip? ==> Next(p).Skip?
    ensures Next(s).Emit? && Next(s).len <= |p| ==> Next(p) == Next(s) || Next(s).len == |p|
    ensures Next(p) == Next(s) || Next(p).Reject? ||
            (Next(p).Emit? && Next(p).len == |p| && !IsBracket(Next(p).t) && !Next(p).t.Colon?)
  {
    if Keyword(s[0]).Some? {
      SpanPrefix(p, s, IsWordChar);
      var n := Span(s, IsWordChar);
      if n < |p| {
        assert s[..n] == p[..n];
      }
    } else if s[0] == '"' {
      QuoteEndPrefix(p, s, 1);
      var e := QuoteEnd(s, 1);
      if e < |p| {
        assert s[1..e] == p[1..e];
      }
    } else {
      SpanPrefix(p, s, IsDigit);
      var n := Span(s, IsDigit);
      if n < |p| {
        assert s[..n] == p[..n];
      }
    }
  }

  /** The tokens of a prefix are the first k tokens of the text, perhaps
      followed by one piece of a token that is no bracket and no colon. */
  lemma {:induction false} LexPrefix(p: string, s: string) returns (k: nat, extra: seq<Token>)
    requires p <= s
    ensures k <= |Lex(s).tokens|
    ensures |extra| <= 1 && forall i | 0 <= i < |extra| :: !IsBracket(extra[i]) && !extra[i].Colon?
    ensures Lex(p).tokens == Lex(s).tokens[..k] + extra
    decreases |p|
  {
    if p == [] {
      return 0, [];
    }
    NextOfPrefix(p, s);
    if Next(p) == Next(s) {
      match Next(p) {
        case Skip =>
          k, extra := LexPrefix(p[1..], s[1..]);
        case Emit(t, len) =>
          k, extra := LexPrefix(p[len..], s[len..]);
          k := k + 1;
          assert [t] + (Lex(s[len..]).tokens[..k - 1] + extra) == Lex(s).tokens[..k] + extra;
        case Reject =>
          k, extra := 0, [];
      }
    } else if Next(p).Reject? {
      k, extra := 0, [];
    } else {
      k, extra := 0, [Next(p).t];
      assert Lex(p[|p|..]).tokens == [];
    }
  }

  /** Every string that a colon follows can be hashed: property names are the
      only strings that go into a table. */
  ghost predicate AsciiKeys(ts: seq<Token>) {
    forall i | 0 <= i < |ts| - 1 && ts[i].TStr? && ts[i + 1].Colon? :: Ascii(ts[i].s)
  }

  lemma {:induction false} AsciiKeysFrom(ts: seq<Token>, k: nat)
    requires AsciiKeys(ts) && k <= |ts|
    ensures AsciiKeys(ts[k..])
  {
    forall i | 0 <= i < |ts[k..]| - 1 && ts[k..][i].TStr? && ts[k..][i + 1].Colon? ensures Ascii(ts[k..][i].s) {
      assert ts[k + i] == ts[k..][i] && ts[k + i + 1] == ts[k..][i + 1];
    }
  }

  /** A cut-off text has no property names but the text's. */
  lemma {:induction false} AsciiKeysOfPrefix(p: string, s: string)
    requires p <= s && AsciiKeys(Lex(s).tokens)
    ensures AsciiKeys(Lex(p).tokens)
  {
    hide Lex, Ascii;
    var k, extra := LexPrefix(p, s);
    var ts, all := Lex(s).tokens, Lex(s).tokens[..k] + extra;
    forall i | 0 <= i < |all| - 1 && all[i].TStr? && all[i + 1].Colon? ensures Ascii(all[i].s) {
      assert i + 1 < k && all[i] == ts[i] && all[i + 1] == ts[i + 1];
    }
  }

  /** Every string token the tokenizer emits satisfies the look-back predicate,
      and every number token is a run of digits. */
  ghost predicate CleanToken(t: Token) {
    && (t.TStr? ==> QuoteOk(t.s))
    && (t.TInt? ==> t.digits != [] && forall i | 0 <= i < |t.digits| :: IsDigit(t.digits[i]))
  }

  lemma {:induction false} LexClean(s: string)
    ensures forall i | 0 <= i < |Lex(s).tokens| :: CleanToken(Lex(s).tokens[i])
    decreases |s|
  {
    if s != [] {
      match Next(s) {
        case Skip => LexClean(s[1..]);
        case Emit(t, len) =>
          LexClean(s[len..]);
          if s[0] == '"' {
            ScannedIsQuoteOk(s, QuoteEnd(s, 1));
          }
        case Reject =>
      }
    }
  }
}
