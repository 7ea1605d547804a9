/** The in-place tokenizer: tokens are kinds with a place in the text. */
module JsonTokenizer {
  import opened JsonValues
  import opened JsonLexer

  datatype Kind =
    | KindNull | KindTrue | KindFalse | KindString | KindInt
    | KindLeftBracket | KindRightBracket | KindLeftBrace | KindRightBrace
    | KindComma | KindColon

  /** `struct json_token`: where the token's text starts, its length, its type. */
  datatype RawToken = RawToken(value: nat, length: nat, kind: Kind)

  /** What the parser reads from a token: for a string, the text between the
      quotes; for a number, the digits `strtol` reads from its start. */
  function View(data: string, r: RawToken): Token {
    match r.kind
    case KindNull => TNull
    case KindTrue => TTrue
    case KindFalse => TFalse
    case KindString =>
      if r.length >= 2 && r.value + r.length <= |data| then TStr(data[r.value + 1..r.value + r.length - 1])
      else TStr("")
    case KindInt => if r.value <= |data| then TInt(DigitsAt(data[r.value..])) else TInt("")
    case KindLeftBracket => LBracket
    case KindRightBracket => RBracket
    case KindLeftBrace => LBrace
    case KindRightBrace => RBrace
    case KindComma => Comma
    case KindColon => Colon
  }

  function DigitsAt(s: string): string {
    s[..Span(s, IsDigit)]
  }

  function Views(data: string, rs: seq<RawToken>): (ts: seq<Token>)
    ensures |ts| == |rs|
    ensures forall i | 0 <= i < |rs| :: ts[i] == View(data, rs[i])
  {
    seq(|rs|, i requires 0 <= i < |rs| => View(data, rs[i]))
  }

  lemma {:induction false} SpanIs(s: string, n: nat, p: char -> bool)
    requires n <= |s| && (forall i | 0 <= i < n :: p(s[i])) && (n == |s| || !p(s[n]))
    ensures Span(s, p) == n
  {
    assert s == s[..n] + s[n..];
    SpanConcat(s[..n], s[n..], p);
  }

  /** The three keyword loops: run to the next breaker. */
  method ScanWord(data: string, begin: nat) returns (i: nat)
    requires begin <= |data|
    ensures i == begin + Span(data[begin..], IsWordChar)
    ensures i <= |data|
  {
    i := begin;
    while i < |data| && !IsBreaker(data[i])
      invariant begin <= i <= |data|
      invariant forall k | begin <= k < i :: IsWordChar(data[k])
    {
      i := i + 1;
    }
    SpanIs(data[begin..], i - begin, IsWordChar);
  }

  method ScanDigits(data: string, begin: nat) returns (i: nat)
    requires begin <= |data|
    ensures i == begin + Span(data[begin..], IsDigit)
    ensures i <= |data|
  {
    i := begin;
    while i < |data| && IsDigit(data[i])
      invariant begin <= i <= |data|
      invariant forall k | begin <= k < i :: IsDigit(data[k])
    {
      i := i + 1;
    }
    SpanIs(data[begin..], i - begin, IsDigit);
  }

  lemma {:induction false} QuoteEndIs(s: string, i: nat, e: nat)
    requires 1 <= i <= e <= |s|
    requires forall j | i <= j < e :: !Closes(s, j)
    requires e == |s| || Closes(s, e)
    ensures QuoteEnd(s, i) == e
    decreases |s| - i
  {
    if i < e {
      QuoteEndIs(s, i + 1, e);
    }
  }

  /** The string loop: ok is set exactly when a closing quote was found, and i
      is its place. */
  method ScanString(data: string, begin: nat) returns (i: nat, ok: bool)
    requires begin < |data|
    ensures i == begin + QuoteEnd(data[begin..], 1) <= |data|
    ensures ok <==> i < |data|
  {
    i, ok := begin + 1, false;
    while i < |data|
      invariant begin + 1 <= i <= |data|
      invariant !ok
      invariant forall j | 1 <= j < i - begin :: !Closes(data[begin..], j)
    {
      var quote := data[i] == '"';
      var escape1 := i - begin > 0 && data[i - 1] == '\\';
      var escape2 := i - begin > 1 && data[i - 2] == '\\';
      assert Closes(data[begin..], i - begin) <==> quote && (!escape1 || escape2);
      if quote {
        if !escape1 || escape2 {
          ok := true;
          break;
        }
      }
      i := i + 1;
    }
    QuoteEndIs(data[begin..], 1, i - begin);
  }

  /** The characters of the text that a token stands for: a word up to its
      breaker, a string with its quotes, digits, or one character. */
  function UsedBy(data: string, r: RawToken): nat
  {
    if r.value > |data| then 0
    else match r.kind
    case KindNull => Span(data[r.value..], IsWordChar)
    case KindTrue => Span(data[r.value..], IsWordChar)
    case KindFalse => Span(data[r.value..], IsWordChar)
    case KindString => r.length
    case KindInt => Span(data[r.value..], IsDigit)
    case _ => 1
  }

  /** The length field: a word's is that of the whole word, however much of it is
      there, and an integer's is one too long. */
  predicate LengthRight(data: string, r: RawToken) {
    r.value < |data| &&
    match r.kind
    case KindNull => r.length == 4
    case KindTrue => r.length == 4
    case KindFalse => r.length == 5
    case KindString =>
      && 2 <= r.length <= |data| - r.value
      && data[r.value] == '"' && data[r.value + r.length - 1] == '"'
    case KindInt => r.length == UsedBy(data, r) + 1
    case _ => r.length == 1
  }

  /** The tokens' places, one after the other up to end. */
  ghost predicate InOrder(data: string, rs: seq<RawToken>, end: nat) {
    && (forall k | 0 <= k < |rs| :: LengthRight(data, rs[k]) && rs[k].value + UsedBy(data, rs[k]) <= end)
    && (forall j, k | 0 <= j < k < |rs| :: LengthRight(data, rs[j]) &&
                                           rs[j].value + UsedBy(data, rs[j]) <= rs[k].value)
  }

  lemma {:induction false} InOrderSnoc(data: string, rs: seq<RawToken>, r: RawToken, i: nat, end: nat)
    requires InOrder(data, rs, i) && LengthRight(data, r)
    requires r.value == i && r.value + UsedBy(data, r) <= end
    ensures InOrder(data, rs + [r], end)
  {
    hide LengthRight, UsedBy;
  }

  lemma {:induction false} NoneInOrder(data: string)
    ensures InOrder(data, [], 0)
  {
  }

  lemma {:induction false} InOrderSkip(data: string, rs: seq<RawToken>, i: nat, end: nat)
    requires InOrder(data, rs, i) && i <= end
    ensures InOrder(data, rs, end)
  {
    hide LengthRight, UsedBy;
  }

  /** What one turn of the tokenizer's loop does: nothing, one token, or -1. */
  datatype Turn = NoToken | Token(r: RawToken) | Error

  /** The cases of the three keywords. */
  method WordCase(data: string, i: nat, word: string, kind: Kind) returns (turn: Turn, at: nat)
    requires i < |data| && !IsBreaker(data[i])
    requires kind.KindNull? || kind.KindTrue? || kind.KindFalse?
    ensures i <= at < |data| && !turn.NoToken?
    ensures turn.Token? ==> turn.r == RawToken(i, |word|, kind) && at + 1 == i + UsedBy(data, turn.r)
    ensures WordStep(data[i..], word, View(data, RawToken(0, 0, kind))) ==
            if turn.Token? then Emit(View(data, turn.r), at + 1 - i) else Reject
  {
    var j := ScanWord(data, i);
    assert data[i..j] == data[i..][..j - i];
    assert Span(data[i..], IsWordChar) > 0;
    if data[i..j] <= word {
      turn, at := Token(RawToken(i, |word|, kind)), j - 1;
    } else {
      turn, at := Error, i;
    }
  }

  /** The case of a quote. */
  method StringCase(data: string, i: nat) returns (turn: Turn, at: nat)
    requires i < |data| && data[i] == '"'
    ensures i <= at < |data| && !turn.NoToken?
    ensures turn.Token? ==> turn.r == RawToken(i, at + 1 - i, KindString) && LengthRight(data, turn.r)
    ensures StringStep(data[i..]) == if turn.Token? then Emit(View(data, turn.r), at + 1 - i) else Reject
  {
    var j, ok := ScanString(data, i);
    if ok {
      assert data[i + 1..j] == data[i..][1..j - i];
      turn, at := Token(RawToken(i, j - i + 1, KindString)), j;
    } else {
      turn, at := Error, i;
    }
  }

  /** The switch on `data[i]`; at is left on the last character used. */
  method Switch(data: string, i: nat) returns (turn: Turn, at: nat)
    requires i < |data|
    ensures i <= at < |data|
    ensures turn.NoToken? ==> at == i
    ensures turn.Token? ==> turn.r.value == i && LengthRight(data, turn.r) && at + 1 == i + UsedBy(data, turn.r)
    ensures turn.Token? ==> turn.r.length == match turn.r.kind
                                             case KindNull => 4
                                             case KindTrue => 4
                                             case KindFalse => 5
                                             case KindString => at + 1 - i
                                             case KindInt => at + 2 - i
                                             case _ => 1
    ensures Next(data[i..]) == match turn
                               case NoToken => Skip
                               case Token(r) => Emit(View(data, r), at + 1 - i)
                               case Error => Reject
  {
    var c := data[i];
    ghost var s := data[i..];
    assert s[0] == c;
    at := i;
    if c == ' ' || c == '\n' || c == '\t' {
      turn := NoToken;
    } else if c == 'n' || c == 't' || c == 'f' {
      var word := if c == 'n' then "null" else if c == 't' then "true" else "false";
      var kind := if c == 'n' then KindNull else if c == 't' then KindTrue else KindFalse;
      turn, at := WordCase(data, i, word, kind);
    } else if c == '"' {
      turn, at := StringCase(data, i);
    } else if c == '[' || c == ']' || c == '{' || c == '}' || c == ',' || c == ':' {
      var kind := if c == '[' then KindLeftBracket
                  else if c == ']' then KindRightBracket
                  else if c == '{' then KindLeftBrace
                  else if c == '}' then KindRightBrace
                  else if c == ',' then KindComma
                  else KindColon;
      turn := Token(RawToken(i, 1, kind));
    } else if !IsDigit(c) {
      turn := Error;
    } else {
      var j := ScanDigits(data, i);
      turn, at := Token(RawToken(i, j - i + 1, KindInt)), j - 1;  // one too long, and never read
    }
  }

  lemma {:induction false} LexTurn(data: string, i: nat, before: seq<Token>)
    requires i < |data|
    ensures var n := Next(data[i..]);
            Before(before, Lex(data[i..])) ==
            match n
            case Skip => Before(before, Lex(data[i + 1..]))
            case Emit(t, len) => Before(before + [t], Lex(data[i + len..]))
            case Reject => Lexed(before, false)
  {
    hide Next;
    match Next(data[i..])
    case Skip => assert data[i..][1..] == data[i + 1..];
    case Emit(t, len) =>
      assert data[i..][len..] == data[i + len..];
      assert before + ([t] + Lex(data[i + len..]).tokens) == (before + [t]) + Lex(data[i + len..]).tokens;
    case Reject =>
  }

  lemma {:induction false} EndOfText(before: seq<Token>)
    ensures Before(before, Lex("")) == Lexed(before, true)
  {
  }

  lemma {:induction false} ViewsSnoc(data: string, rs: seq<RawToken>, r: RawToken)
    ensures Views(data, rs + [r]) == Views(data, rs) + [View(data, r)]
  {
  }

  /** `tokenize_json`: fills the token array and reports whether the whole text
      was accepted; what was found before an error stays in the array. */
  method Tokenize(data: string, tokens: array<RawToken>) returns (code: int, cnt: nat)
    requires |data| <= tokens.Length
    modifies tokens
    ensures cnt <= |data|
    ensures Views(data, tokens[..cnt]) == Lex(data).tokens
    ensures code == if Lex(data).ok then 0 else -1
    ensures InOrder(data, tokens[..cnt], |data|)
  {
    hide Lex, InOrder, LengthRight, UsedBy;
    cnt := 0;
    var i := 0;
    assert data[0..] == data && Views(data, tokens[..0]) == [];
    NoneInOrder(data);
    while i < |data|
      invariant 0 <= cnt <= i <= |data|
      invariant Before(Views(data, tokens[..cnt]), Lex(data[i..])) == Lex(data)
      invariant InOrder(data, tokens[..cnt], i)
    {
      ghost var before := Views(data, tokens[..cnt]);
      LexTurn(data, i, before);
      var turn, at := Switch(data, i);
      match turn {
        case NoToken => InOrderSkip(data, tokens[..cnt], i, at + 1);
        case Token(r) =>
          ghost var found := tokens[..cnt];
          tokens[cnt] := r;
          cnt := cnt + 1;
          assert tokens[..cnt] == found + [r];
          ViewsSnoc(data, found, r);
          InOrderSnoc(data, found, r, i, at + 1);
        case Error =>
          InOrderSkip(data, tokens[..cnt], i, |data|);
          return -1, cnt;
      }
      i := at + 1;
    }
    EndOfText(Views(data, tokens[..cnt]));
    assert data[i..] == "";
    code := 0;
  }
}
