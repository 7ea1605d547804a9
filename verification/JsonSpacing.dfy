/** The tokenizer character by character, and white space between tokens. */
module JsonSpacing {
  import opened Options
  import opened Tables
  import opened JsonValues
  import opened JsonLexer
  import opened JsonGrammar
  import opened JsonRoundTrip

  predicate IsBlank(c: char) {
    c == ' ' || c == '\n' || c == '\t'
  }

  /** What ends a keyword; a newline, a tab and a colon do not. */
  predicate EndsWord(c: char) {
    c == ',' || c == '[' || c == ']' || c == '{' || c == '}' || c == ' '
  }

  // ----- One token, by its first character

  /** A blank, a newline or a tab between tokens is passed over. */
  lemma {:induction false} BlankIsSkipped(c: char, s: string)
    requires c == ' ' || c == '\n' || c == '\t'
    ensures Lex([c] + s) == Lex(s)
  {
    assert ([c] + s)[1..] == s;
  }

  /** Each bracket, brace, comma and colon is a token. */
  lemma {:induction false} PunctuationIsRead(s: string)
    ensures Lex("[" + s) == Before([LBracket], Lex(s)) && Lex("]" + s) == Before([RBracket], Lex(s))
    ensures Lex("{" + s) == Before([LBrace], Lex(s)) && Lex("}" + s) == Before([RBrace], Lex(s))
    ensures Lex("," + s) == Before([Comma], Lex(s)) && Lex(":" + s) == Before([Colon], Lex(s))
  {
    LexChar('[', s);
    LexChar(']', s);
    LexChar('{', s);
    LexChar('}', s);
    LexChar(',', s);
    LexChar(':', s);
  }

  function KeywordToken(word: string): Token {
    if word == "null" then TNull else if word == "true" then TTrue else TFalse
  }

  /** A front of a keyword that is followed by a breaker or ends the text is read
      as the keyword; anything else that begins like one is rejected. */
  lemma {:induction false} KeywordIsRead(word: string, w: string, rest: string)
    requires word == "null" || word == "true" || word == "false"
    requires w != "" && w[0] == word[0] && forall i | 0 <= i < |w| :: !EndsWord(w[i])
    requires rest == "" || EndsWord(rest[0])
    ensures Lex(w + rest) == if w <= word then Before([KeywordToken(word)], Lex(rest)) else Lexed([], false)
  {
    SpanConcat(w, rest, IsWordChar);
    var all := w + rest;
    assert all[0] == w[0] && all[..|w|] == w && all[|w|..] == rest;
  }

  /** Digits are one integer, as far as they go. */
  lemma {:induction false} DigitsAreRead(s: string, rest: string)
    requires s != "" && forall i | 0 <= i < |s| :: '0' <= s[i] <= '9'
    requires rest == "" || !('0' <= rest[0] <= '9')
    ensures Lex(s + rest) == Before([TInt(s)], Lex(rest))
  {
    hide Span;
    SpanConcat(s, rest, IsDigit);
    var all := s + rest;
    assert all[..|s|] == s && all[|s|..] == rest && all[0] == s[0];
  }

  /** A text of digits alone is the integer that strtol and the cast make of it. */
  lemma {:induction false} NumberText(s: string)
    requires s != "" && forall i | 0 <= i < |s| :: '0' <= s[i] <= '9'
    ensures Deserialize(s) == Some(Int(ToInt(s)))
  {
    hide Lex, Span;
    DigitsAreRead(s, "");
    assert s + "" == s;
    LexOfNothing();
    SpanConcat(s, "", IsDigit);
    assert s[..|s|] == s;
  }

  /** A string that is not closed, and any other character, end the tokens. */
  lemma {:induction false} OthersAreRejected(s: string)
    requires s != ""
    requires if s[0] == '"' then forall i | 1 <= i < |s| :: s[i] == '"' ==> Blocked(s[1..], i - 1)
             else s[0] !in " \n\tntf[]{},:0123456789"
    ensures Lex(s) == Lexed([], false)
  {
    if s[0] == '"' {
      forall i | 1 <= i < |s| ensures !Closes(s, i) {
        assert s[i] == '"' ==> Blocked(s[1..], i - 1);
      }
      var e := QuoteEnd(s, 1);
    } else {
      var c := s[0];
      assert !IsSpace(c) && Keyword(c).None? && Punctuation(c).None?;
      assert IsDigit(c) ==> c in "0123456789";
    }
  }

  // ----- White space between the tokens

  /** How a token is written. */
  function Spelling(t: Token): string {
    match t
    case TNull => "null"
    case TTrue => "true"
    case TFalse => "false"
    case TStr(s) => "\"" + s + "\""
    case TInt(digits) => digits
    case LBracket => "["
    case RBracket => "]"
    case LBrace => "{"
    case RBrace => "}"
    case Comma => ","
    case Colon => ":"
  }

  /** The tokens, each followed by its gap. */
  function Laid(ts: seq<Token>, gaps: seq<string>): string
    requires |gaps| == |ts|
  {
    if ts == [] then "" else Spelling(ts[0]) + (gaps[0] + Laid(ts[1..], gaps[1..]))
  }

  predicate IsGap(gap: string) {
    forall i | 0 <= i < |gap| :: IsBlank(gap[i])
  }

  predicate IsKeyword(t: Token) {
    t.TNull? || t.TTrue? || t.TFalse?
  }

  /** After a keyword a gap has to begin with a blank: a newline or a tab does not
      end the word. */
  predicate MayFollow(t: Token, gap: string) {
    IsKeyword(t) && gap != "" ==> gap[0] == ' '
  }

  /** The first token whose gap may not follow it. */
  function FirstBad(ts: seq<Token>, gaps: seq<string>): (k: nat)
    requires |gaps| == |ts|
    ensures k <= |ts| && (forall i | 0 <= i < k :: MayFollow(ts[i], gaps[i]))
    ensures k < |ts| ==> !MayFollow(ts[k], gaps[k])
  {
    if ts == [] || !MayFollow(ts[0], gaps[0]) then 0 else 1 + FirstBad(ts[1..], gaps[1..])
  }

  /** What stands after a word or a number in a text that is to be tokenized. */
  predicate Ends(t: Token) {
    t.Comma? || t.RBracket? || t.RBrace?
  }

  ghost predicate Separated(ts: seq<Token>) {
    forall i | 0 <= i < |ts| - 1 && (IsKeyword(ts[i]) || ts[i].TInt?) :: Ends(ts[i + 1])
  }

  lemma {:induction false} GapIsSkipped(gap: string, s: string)
    requires IsGap(gap)
    ensures Lex(gap + s) == Lex(s)
  {
    hide Lex;
    if gap == "" {
      assert gap + s == s;
    } else {
      assert gap + s == [gap[0]] + (gap[1..] + s);
      BlankIsSkipped(gap[0], gap[1..] + s);
      GapIsSkipped(gap[1..], s);
    }
  }

  /** A keyword in front of a newline or a tab. */
  lemma {:induction false} KeywordIsStopped(t: Token, rest: string)
    requires IsKeyword(t) && rest != "" && (rest[0] == '\n' || rest[0] == '\t')
    ensures Lex(Spelling(t) + rest) == Lexed([], false)
  {
    var n := Span(rest, IsWordChar);
    var w := Spelling(t) + rest[..n];
    assert Spelling(t) + rest == w + rest[n..];
    forall i | 0 <= i < |w| ensures !EndsWord(w[i]) {
      if i >= |Spelling(t)| {
        assert w[i] == rest[i - |Spelling(t)|];
      }
    }
    assert |w| > |Spelling(t)|;
    KeywordIsRead(Spelling(t), w, rest[n..]);
  }

  /** One token and what follows it. */
  lemma {:induction false} TokenIsRead(t: Token, rest: string)
    requires CleanToken(t)
    requires IsKeyword(t) ==> rest == "" || EndsWord(rest[0])
    requires t.TInt? ==> rest == "" || !('0' <= rest[0] <= '9')
    ensures Lex(Spelling(t) + rest) == Before([t], Lex(rest))
  {
    hide Lex;
    match t
    case TStr(s) => LexQuoted(s, rest);
    case TInt(digits) => DigitsAreRead(digits, rest);
    case TNull => KeywordIsRead("null", "null", rest);
    case TTrue => KeywordIsRead("true", "true", rest);
    case TFalse => KeywordIsRead("false", "false", rest);
    case _ => PunctuationIsRead(rest);
  }

  /** What follows a token begins with its gap, or with the next token. */
  lemma {:induction false} NextCharacter(ts: seq<Token>, gaps: seq<string>)
    requires ts != [] && |gaps| == |ts| && Separated(ts) && IsGap(gaps[0])
    ensures var rest := gaps[0] + Laid(ts[1..], gaps[1..]);
            && (IsKeyword(ts[0]) && MayFollow(ts[0], gaps[0]) ==> rest == "" || EndsWord(rest[0]))
            && (ts[0].TInt? ==> rest == "" || !('0' <= rest[0] <= '9'))
            && (!MayFollow(ts[0], gaps[0]) ==> rest != "" && (rest[0] == '\n' || rest[0] == '\t'))
  {
    var rest := gaps[0] + Laid(ts[1..], gaps[1..]);
    if gaps[0] != "" {
      assert rest[0] == gaps[0][0];
    } else if |ts| > 1 {
      assert rest == Laid(ts[1..], gaps[1..]);
    }
  }

  /** The tokens are read up to the first gap that may not follow its token. */
  lemma {:induction false} LaidIsRead(ts: seq<Token>, gaps: seq<string>)
    requires |gaps| == |ts| && Separated(ts) && AllClean(ts) && forall i | 0 <= i < |gaps| :: IsGap(gaps[i])
    ensures var k := FirstBad(ts, gaps); Lex(Laid(ts, gaps)) == Lexed(ts[..k], k == |ts|)
  {
    hide Lex, MayFollow, EndsWord, IsGap, CleanToken;
    if ts == [] {
      LexOfNothing();
    } else {
      var rest := gaps[0] + Laid(ts[1..], gaps[1..]);
      NextCharacter(ts, gaps);
      if MayFollow(ts[0], gaps[0]) {
        TokenIsRead(ts[0], rest);
        GapIsSkipped(gaps[0], Laid(ts[1..], gaps[1..]));
        LaidIsRead(ts[1..], gaps[1..]);
        var k := FirstBad(ts, gaps);
        assert ts[..k] == [ts[0]] + ts[1..][..k - 1];
      } else {
        NotKeywordMayFollow(ts[0], gaps[0]);
        KeywordIsStopped(ts[0], rest);
      }
    }
  }

  lemma {:induction false} NotKeywordMayFollow(t: Token, gap: string)
    requires !MayFollow(t, gap)
    ensures IsKeyword(t)
  {
  }

  // ----- The tokens of a derivation are separated

  lemma {:induction false} OpenedSeparated(t: Token, ts: seq<Token>)
    requires !IsKeyword(t) && !t.TInt? && Separated(ts)
    ensures Separated([t] + ts)
  {
    var all := [t] + ts;
    forall i | 0 <= i < |all| - 1 && (IsKeyword(all[i]) || all[i].TInt?) ensures Ends(all[i + 1]) {
      assert all[i] == ts[i - 1] && all[i + 1] == ts[i];
    }
  }

  lemma {:induction false} EndedSeparated(a: seq<Token>, end: Token, b: seq<Token>)
    requires Separated(a) && Ends(end) && Separated(b)
    ensures Separated(a + [end] + b)
  {
    var all := a + [end] + b;
    forall i | 0 <= i < |all| - 1 && (IsKeyword(all[i]) || all[i].TInt?) ensures Ends(all[i + 1]) {
      if i > |a| {
        assert all[i] == b[i - |a| - 1] && all[i + 1] == b[i - |a|];
      }
    }
  }

  lemma {:induction false} YieldSeparated(t: Tree)
    requires Proper(t)
    ensures Separated(Yield(t))
    decreases t
  {
    hide Separated, Ends;
    assert Ends(RBracket) && Ends(RBrace) && Separated([]) by { SomeSeparated(RBracket); }
    match t
    case Prim(tok) => SomeSeparated(tok);
    case ArrTree(ts) =>
      ElemsSeparated(ts);
      OpenedSeparated(LBracket, YieldElems(ts));
      EndedSeparated([LBracket] + YieldElems(ts), RBracket, []);
      assert Yield(t) + [] == Yield(t);
    case ObjTree(ms) =>
      MembersSeparated(ms);
      OpenedSeparated(LBrace, YieldMembers(ms));
      EndedSeparated([LBrace] + YieldMembers(ms), RBrace, []);
      assert Yield(t) + [] == Yield(t);
  }

  lemma {:induction false} SomeSeparated(t: Token)
    ensures Separated([]) && Separated([t]) && Ends(Comma) && Ends(RBracket) && Ends(RBrace)
  {
  }

  lemma {:induction false} ElemsSeparated(ts: seq<Tree>)
    requires forall i | 0 <= i < |ts| :: Proper(ts[i])
    ensures Separated(YieldElems(ts))
    decreases ts
  {
    hide Yield, Separated, Ends;
    SomeSeparated(Comma);
    if ts != [] {
      YieldSeparated(ts[0]);
      ElemsSeparated(ts[1..]);
      EndedSeparated(Yield(ts[0]), Comma, YieldElems(ts[1..]));
    }
  }

  lemma {:induction false} MembersSeparated(ms: seq<Pair<Tree>>)
    requires forall i | 0 <= i < |ms| :: Proper(ms[i].val)
    ensures Separated(YieldMembers(ms))
    decreases ms
  {
    hide Yield, Separated, Ends;
    SomeSeparated(Comma);
    if ms != [] {
      var m := ms[0];
      YieldSeparated(m.val);
      OpenedSeparated(Colon, Yield(m.val));
      OpenedSeparated(TStr(m.key), [Colon] + Yield(m.val));
      assert [TStr(m.key)] + ([Colon] + Yield(m.val)) == YieldMember(m);
      MembersSeparated(ms[1..]);
      EndedSeparated(YieldMember(m), Comma, YieldMembers(ms[1..]));
    }
  }

  // ----- The printed text is the tokens' spellings

  function Spelled(ts: seq<Token>): string {
    if ts == [] then "" else Spelling(ts[0]) + Spelled(ts[1..])
  }

  lemma {:induction false} SpelledConcat(a: seq<Token>, b: seq<Token>)
    ensures Spelled(a + b) == Spelled(a) + Spelled(b)
  {
    if a == [] {
      assert a + b == b;
    } else {
      assert (a + b)[1..] == a[1..] + b;
      SpelledConcat(a[1..], b);
    }
  }

  lemma {:induction false} SpelledOne(t: Token)
    ensures Spelled([t]) == Spelling(t)
  {
    assert [t][1..] == [] && Spelling(t) + "" == Spelling(t);
  }

  lemma {:induction false} SpelledEnclosed(open: Token, ts: seq<Token>, close: Token)
    ensures Spelled([open] + ts + [close]) == Spelling(open) + Spelled(ts) + Spelling(close)
  {
    SpelledConcat([open] + ts, [close]);
    SpelledConcat([open], ts);
    SpelledOne(open);
    SpelledOne(close);
  }

  lemma {:induction false} PrintIsSpelled(v: Json)
    ensures Print(v) == Spelled(Yield(TreeOf(v)))
    decreases v
  {
    hide Spelled, YieldElems, YieldMembers, PrintElems, PrintMembers;
    match v
    case Arr(xs) =>
      ElemsAreSpelled(xs);
      SpelledEnclosed(LBracket, YieldElems(ElemTrees(xs)), RBracket);
    case Obj(ms) =>
      MembersAreSpelled(ms);
      SpelledEnclosed(LBrace, YieldMembers(MemberTrees(ms)), RBrace);
    case _ => SpelledOne(TreeOf(v).t);
  }

  lemma {:induction false} ElemsAreSpelled(xs: seq<Json>)
    ensures PrintElems(xs) == Spelled(YieldElems(ElemTrees(xs)))
    decreases xs
  {
    hide Print, Yield, TreeOf;
    if xs != [] {
      var t, more := TreeOf(xs[0]), ElemTrees(xs[1..]);
      PrintIsSpelled(xs[0]);
      ElemsAreSpelled(xs[1..]);
      YieldElemsCons(t, more);
      SpelledConcat(Yield(t) + [Comma], YieldElems(more));
      SpelledConcat(Yield(t), [Comma]);
      SpelledOne(Comma);
    }
  }

  lemma {:induction false} MembersAreSpelled(ms: seq<Pair<Json>>)
    ensures PrintMembers(ms) == Spelled(YieldMembers(MemberTrees(ms)))
    decreases ms
  {
    hide Print, Yield, TreeOf;
    if ms != [] {
      var m, more := Pair(ms[0].key, TreeOf(ms[0].val)), MemberTrees(ms[1..]);
      PrintIsSpelled(ms[0].val);
      MembersAreSpelled(ms[1..]);
      YieldMembersCons(m, more);
      SpelledConcat([TStr(m.key), Colon], Yield(m.val));
      assert [TStr(m.key), Colon] == [TStr(m.key)] + [Colon];
      SpelledConcat([TStr(m.key)], [Colon]);
      SpelledOne(TStr(m.key));
      SpelledOne(Colon);
      SpelledConcat(YieldMember(m) + [Comma], YieldMembers(more));
      SpelledConcat(YieldMember(m), [Comma]);
      SpelledOne(Comma);
    }
  }

  lemma {:induction false} LaidWithoutGaps(ts: seq<Token>, gaps: seq<string>)
    requires |gaps| == |ts| && forall i | 0 <= i < |gaps| :: gaps[i] == ""
    ensures Laid(ts, gaps) == Spelled(ts)
  {
    if ts != [] {
      LaidWithoutGaps(ts[1..], gaps[1..]);
    }
  }

  // ----- White space leaves the value alone

  /** A front of the tokens of a whole value holds none. */
  lemma {:induction false} FrontHasNoValue(ts: seq<Token>, k: nat)
    requires Parse(ts).Value? && Parse(ts).n == |ts| && k < |ts|
    ensures Parse(ts[..k]) == NoValue
  {
    if Parse(ts[..k]).Value? {
      var t := ParseSound(ts[..k]);
      var n := Parse(ts[..k]).n;
      assert ts == ts[..n] + ts[n..] && ts[..k][..n] == ts[..n];
      ParseComplete(t, ts[n..]);
      assert false;
    }
  }

  /** White space before and after the tokens of a printed value leaves the value
      as it is, exactly when no newline and no tab comes right after null, true
      or false; otherwise nothing is parsed. */
  lemma {:induction false} WhiteSpaceIff(v: Json, lead: string, gaps: seq<string>)
    requires Printable(v) && |gaps| == |Lex(Print(v)).tokens|
    requires IsGap(lead) && forall i | 0 <= i < |gaps| :: IsGap(gaps[i])
    ensures var ts := Lex(Print(v)).tokens;
            && Deserialize(lead + Laid(ts, gaps)) ==
               (if forall i | 0 <= i < |ts| :: MayFollow(ts[i], gaps[i]) then Some(v) else None)
            && ((forall i | 0 <= i < |ts| :: gaps[i] == "") ==> Laid(ts, gaps) == Print(v))
  {
    var t, ts := TreeOf(v), Lex(Print(v)).tokens;
    TokensOfText(v);
    YieldSeparated(t);
    LexClean(Print(v));
    hide Lex, Separated, CleanToken, MayFollow, IsGap, Printable, TreeOf, Print, Yield;
    assert AllClean(ts);
    LaidIsRead(ts, gaps);
    GapIsSkipped(lead, Laid(ts, gaps));
    var k := FirstBad(ts, gaps);
    if k < |ts| {
      FrontHasNoValue(ts, k);
    } else {
      assert ts[..k] == ts;
    }
    if forall i | 0 <= i < |ts| :: gaps[i] == "" {
      LaidWithoutGaps(ts, gaps);
      PrintIsSpelled(v);
    }
  }

  lemma {:induction false} TokensOfText(v: Json)
    requires Printable(v)
    ensures var ts := Lex(Print(v)).tokens;
            && Proper(TreeOf(v)) && ts == Yield(TreeOf(v)) && Parse(ts) == Value(v, |ts|)
  {
    assert Print(v) + "" == Print(v);
    LexPrint(v, "");
    LexOfNothing();
    TreeIsRight(v);
    ParseComplete(TreeOf(v), []);
    assert Yield(TreeOf(v)) + [] == Yield(TreeOf(v));
  }
}
