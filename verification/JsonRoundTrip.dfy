/** Printing then parsing, and parsing then printing. */
module JsonRoundTrip {
  import opened Hashing
  import opened Options
  import opened Tables
  import opened JsonValues
  import opened JsonLexer
  import opened JsonGrammar

  // ----- The tokens of a printed value

  const NOTHING := Lexed([], true)

  /** The tokens of the text of v; a minus sign stops the tokenizer. */
  function Toks(v: Json): Lexed {
    match v
    case Null => Lexed([TNull], true)
    case Bool(b) => Lexed([if b then TTrue else TFalse], true)
    case Int(n) => if n < 0 then Lexed([], false) else Lexed([TInt(Digits(n))], true)
    case Str(s) => Lexed([TStr(s)], true)
    case Arr(xs) => Then(Before([LBracket], ToksElems(xs)), Lexed([RBracket], true))
    case Obj(ms) => Then(Before([LBrace], ToksMembers(ms)), Lexed([RBrace], true))
  }

  function ToksElems(xs: seq<Json>): Lexed {
    if xs == [] then NOTHING
    else if |xs| == 1 then Toks(xs[0])
    else Then(Toks(xs[0]), Before([Comma], ToksElems(xs[1..])))
  }

  function ToksMember(m: Pair<Json>): Lexed {
    Before([TStr(m.key), Colon], Toks(m.val))
  }

  function ToksMembers(ms: seq<Pair<Json>>): Lexed {
    if ms == [] then NOTHING
    else if |ms| == 1 then ToksMember(ms[0])
    else Then(ToksMember(ms[0]), Before([Comma], ToksMembers(ms[1..])))
  }

  /** What may follow a value: nothing, a comma or a closing bracket. */
  predicate Delimited(rest: string) {
    rest == [] || rest[0] in ",]}"
  }

  lemma {:induction false} LexWord(word: string, t: Token, rest: string)
    requires word in {"null", "true", "false"}
    requires Keyword(word[0]) == Some((word, t)) && Delimited(rest)
    ensures Lex(word + rest) == Before([t], Lex(rest))
  {
    SpanConcat(word, rest, IsWordChar);
    var all := word + rest;
    assert all[..|word|] == word && all[|word|..] == rest;
  }

  lemma {:induction false} LexDigits(s: string, rest: string)
    requires s != [] && (forall i | 0 <= i < |s| :: IsDigit(s[i])) && Delimited(rest)
    ensures Lex(s + rest) == Before([TInt(s)], Lex(rest))
  {
    hide Span;
    SpanConcat(s, rest, IsDigit);
    var all := s + rest;
    assert all[..|s|] == s && all[|s|..] == rest;
    assert all[0] == s[0];
  }

  lemma {:induction false} LexQuoted(s: string, rest: string)
    requires QuoteOk(s)
    ensures Lex(Quoted(s) + rest) == Before([TStr(s)], Lex(rest))
  {
    ScanEndsAtLastQuote(s, rest);
    var all := Quoted(s) + rest;
    assert all[0] == '"' && all[1..|s| + 1] == s && all[|s| + 2..] == rest;
  }

  lemma {:induction false} LexChar(c: char, rest: string)
    requires Punctuation(c).Some?
    ensures Lex([c] + rest) == Before([Punctuation(c).value], Lex(rest))
  {
    assert ([c] + rest)[1..] == rest;
  }

  lemma {:induction false} LexMinus(rest: string)
    ensures Lex("-" + rest) == Lexed([], false)
  {
    assert ("-" + rest)[0] == '-';
  }

  // ----- Reassociating texts and token lists

  lemma {:induction false} EnclosedText(open: string, p: string, close: string, rest: string)
    ensures (open + p + close) + rest == open + (p + (close + rest))
  {
  }

  lemma {:induction false} EnclosedTokens(open: Token, a: Lexed, close: Token, r: Lexed)
    ensures Before([open], Then(a, Before([close], r))) ==
            Then(Then(Before([open], a), Lexed([close], true)), r)
  {
    assert [open] + (a.tokens + ([close] + r.tokens)) == (([open] + a.tokens) + [close]) + r.tokens;
  }

  lemma {:induction false} CommaTokens(a: Lexed, b: Lexed, r: Lexed)
    ensures Then(a, Before([Comma], Then(b, r))) == Then(Then(a, Before([Comma], b)), r)
  {
    assert a.tokens + ([Comma] + (b.tokens + r.tokens)) == (a.tokens + ([Comma] + b.tokens)) + r.tokens;
    assert [Comma] + (b.tokens + r.tokens) == ([Comma] + b.tokens) + r.tokens;
  }

  lemma {:induction false} MemberTokens(key: string, a: Lexed, r: Lexed)
    ensures Before([TStr(key)], Before([Colon], Then(a, r))) == Then(Before([TStr(key), Colon], a), r)
  {
    assert [TStr(key)] + ([Colon] + (a.tokens + r.tokens)) == ([TStr(key), Colon] + a.tokens) + r.tokens;
    assert [TStr(key)] + ([Colon] + a.tokens) == [TStr(key), Colon] + a.tokens;
  }

  // ----- Printed text tokenizes to those tokens

  lemma {:induction false} LexPrint(v: Json, rest: string)
    requires Clean(v) && Delimited(rest)
    ensures Lex(Print(v) + rest) == Then(Toks(v), Lex(rest))
    decreases v
  {
    hide Lex;
    match v
    case Null => LexWord("null", TNull, rest);
    case Bool(b) =>
      if b { LexWord("true", TTrue, rest); } else { LexWord("false", TFalse, rest); }
    case Int(n) =>
      if n < 0 {
        assert Print(v) + rest == "-" + (Digits(-n) + rest);
        LexMinus(Digits(-n) + rest);
      } else {
        LexDigits(Digits(n), rest);
      }
    case Str(s) => LexQuoted(s, rest);
    case Arr(xs) =>
      EnclosedText("[", PrintElems(xs), "]", rest);
      LexChar('[', PrintElems(xs) + ("]" + rest));
      LexElems(xs, "]" + rest);
      LexChar(']', rest);
      EnclosedTokens(LBracket, ToksElems(xs), RBracket, Lex(rest));
    case Obj(ms) =>
      EnclosedText("{", PrintMembers(ms), "}", rest);
      LexChar('{', PrintMembers(ms) + ("}" + rest));
      LexMembers(ms, "}" + rest);
      LexChar('}', rest);
      EnclosedTokens(LBrace, ToksMembers(ms), RBrace, Lex(rest));
  }

  lemma {:induction false} LexElems(xs: seq<Json>, rest: string)
    requires (forall i | 0 <= i < |xs| :: Clean(xs[i])) && Delimited(rest)
    ensures Lex(PrintElems(xs) + rest) == Then(ToksElems(xs), Lex(rest))
    decreases xs
  {
    hide Lex;
    if xs == [] {
      assert PrintElems(xs) + rest == rest;
    } else if |xs| == 1 {
      LexPrint(xs[0], rest);
    } else {
      var p, q := Print(xs[0]), PrintElems(xs[1..]);
      EnclosedText(p, ",", q, rest);
      LexPrint(xs[0], "," + (q + rest));
      LexChar(',', q + rest);
      LexElems(xs[1..], rest);
      CommaTokens(Toks(xs[0]), ToksElems(xs[1..]), Lex(rest));
    }
  }

  lemma {:induction false} LexMember(m: Pair<Json>, rest: string)
    requires QuoteOk(m.key) && Clean(m.val) && Delimited(rest)
    ensures Lex(PrintMember(m) + rest) == Then(ToksMember(m), Lex(rest))
    decreases m, 0
  {
    hide Lex;
    EnclosedText(Quoted(m.key), ":", Print(m.val), rest);
    LexQuoted(m.key, ":" + (Print(m.val) + rest));
    LexChar(':', Print(m.val) + rest);
    LexPrint(m.val, rest);
    MemberTokens(m.key, Toks(m.val), Lex(rest));
  }

  lemma {:induction false} LexMembers(ms: seq<Pair<Json>>, rest: string)
    requires (forall i | 0 <= i < |ms| :: QuoteOk(ms[i].key) && Clean(ms[i].val)) && Delimited(rest)
    ensures Lex(PrintMembers(ms) + rest) == Then(ToksMembers(ms), Lex(rest))
    decreases ms
  {
    hide Lex;
    if ms == [] {
      assert PrintMembers(ms) + rest == rest;
    } else if |ms| == 1 {
      LexMember(ms[0], rest);
    } else {
      var p, q := PrintMember(ms[0]), PrintMembers(ms[1..]);
      EnclosedText(p, ",", q, rest);
      LexMember(ms[0], "," + (q + rest));
      LexChar(',', q + rest);
      LexMembers(ms[1..], rest);
      CommaTokens(ToksMember(ms[0]), ToksMembers(ms[1..]), Lex(rest));
    }
  }

  // ----- The derivation of a printed value

  function TreeOf(v: Json): Tree {
    match v
    case Null => Prim(TNull)
    case Bool(b) => Prim(if b then TTrue else TFalse)
    case Int(n) => Prim(TInt(PrintInt(n)))
    case Str(s) => Prim(TStr(s))
    case Arr(xs) => ArrTree(ElemTrees(xs))
    case Obj(ms) => ObjTree(MemberTrees(ms))
  }

  function ElemTrees(xs: seq<Json>): (ts: seq<Tree>)
    ensures |ts| == |xs|
  {
    if xs == [] then [] else [TreeOf(xs[0])] + ElemTrees(xs[1..])
  }

  function MemberTrees(ms: seq<Pair<Json>>): (ts: seq<Pair<Tree>>)
    ensures |ts| == |ms|
  {
    if ms == [] then [] else [Pair(ms[0].key, TreeOf(ms[0].val))] + MemberTrees(ms[1..])
  }

  lemma {:induction false} DigitsReadBack(n: nat)
    requires n <= INT_MAX
    ensures TokenInt(Digits(n)) == n
  {
    DigitsValue(n);
    var s := Digits(n);
    assert s + "" == s;
    SpanConcat(s, "", IsDigit);
    assert s[..|s|] == s;
  }

  /** The derivation spells the tokens of v and has v as its value. */
  lemma {:induction false} TreeIsRight(v: Json)
    requires Printable(v)
    ensures Proper(TreeOf(v))
    ensures Toks(v) == Lexed(Yield(TreeOf(v)), true)
    ensures Eval(TreeOf(v)) == v
    decreases v
  {
    hide Toks, Yield, Eval, Proper, TreeOf, Put, PutAll, QuoteOk;
    match v
    case Arr(xs) =>
      ElemTreesAreRight(xs);
      ArrayIsRight(xs);
    case Obj(ms) =>
      MemberTreesAreRight(ms);
      ObjectIsRight(ms);
    case _ => LeafIsRight(v);
  }

  lemma {:induction false} ArrayIsRight(xs: seq<Json>)
    requires forall i | 0 <= i < |xs| :: Proper(ElemTrees(xs)[i])
    requires ToksElems(xs) == Lexed(YieldElems(ElemTrees(xs)), true) && EvalElems(ElemTrees(xs)) == xs
    ensures var t := TreeOf(Arr(xs));
            Proper(t) && Toks(Arr(xs)) == Lexed(Yield(t), true) && Eval(t) == Arr(xs)
  {
    hide ElemTrees, ToksElems, YieldElems, EvalElems;
  }

  lemma {:induction false} ObjectIsRight(ms: seq<Pair<Json>>)
    requires ms != [] && Canonical(ms) && forall i | 0 <= i < |ms| :: Proper(MemberTrees(ms)[i].val)
    requires ToksMembers(ms) == Lexed(YieldMembers(MemberTrees(ms)), true) && EvalMembers(MemberTrees(ms)) == ms
    ensures var t := TreeOf(Obj(ms));
            Proper(t) && Toks(Obj(ms)) == Lexed(Yield(t), true) && Eval(t) == Obj(ms)
  {
    hide Put, PutAll, MemberTrees, ToksMembers, YieldMembers, EvalMembers;
    assert [] + ms == ms;
    PutAllAppends([], ms);
  }

  lemma {:induction false} LeafIsRight(v: Json)
    requires Printable(v) && !v.Arr? && !v.Obj?
    ensures Proper(TreeOf(v))
    ensures Toks(v) == Lexed(Yield(TreeOf(v)), true)
    ensures Eval(TreeOf(v)) == v
  {
    hide Digits;
    if v.Int? {
      DigitsReadBack(v.n);
    }
  }

  lemma {:induction false} ElemTreesAreRight(xs: seq<Json>)
    requires forall i | 0 <= i < |xs| :: Printable(xs[i])
    ensures forall i | 0 <= i < |xs| :: Proper(ElemTrees(xs)[i])
    ensures ToksElems(xs) == Lexed(YieldElems(ElemTrees(xs)), true)
    ensures EvalElems(ElemTrees(xs)) == xs
    decreases xs
  {
    hide Toks, Yield, Eval, Proper, TreeOf, Printable;
    if xs != [] {
      TreeIsRight(xs[0]);
      ElemTreesAreRight(xs[1..]);
      var t, more := TreeOf(xs[0]), ElemTrees(xs[1..]);
      assert ElemTrees(xs) == [t] + more;
      YieldElemsCons(t, more);
      EvalElemsCons(t, more);
    }
  }

  lemma {:induction false} MemberTreesAreRight(ms: seq<Pair<Json>>)
    requires forall i | 0 <= i < |ms| :: QuoteOk(ms[i].key) && Printable(ms[i].val)
    ensures forall i | 0 <= i < |ms| :: Proper(MemberTrees(ms)[i].val)
    ensures ToksMembers(ms) == Lexed(YieldMembers(MemberTrees(ms)), true)
    ensures EvalMembers(MemberTrees(ms)) == ms
    decreases ms
  {
    hide Toks, Yield, Eval, Proper, TreeOf, Printable;
    if ms != [] {
      TreeIsRight(ms[0].val);
      MemberTreesAreRight(ms[1..]);
      var t, more := Pair(ms[0].key, TreeOf(ms[0].val)), MemberTrees(ms[1..]);
      assert MemberTrees(ms) == [t] + more;
      YieldMembersCons(t, more);
      EvalMembersCons(t, more);
    }
  }

  /** Round trip: what a printable value prints parses back to it, at any depth
      and with every object's chains. */
  lemma {:induction false} PrintThenParse(v: Json)
    requires Printable(v)
    ensures Deserialize(Print(v)) == Some(v)
  {
    assert Print(v) + "" == Print(v);
    LexPrint(v, "");
    TreeIsRight(v);
    ParseComplete(TreeOf(v), []);
    assert Yield(TreeOf(v)) + [] == Yield(TreeOf(v));
  }

  /** Down to the layout: an object's text rebuilds its very chains. */
  lemma {:induction false} RoundTripKeepsChains(b: seq<seq<Pair<Json>>>)
    requires Tables.Valid(b) && Printable(Obj(Enumerate(b)))
    ensures var r := Deserialize(Print(Obj(Enumerate(b))));
            r.Some? && r.value.Obj? && Layout(r.value.members) == b
  {
    hide Deserialize, Print;
    PrintThenParse(Obj(Enumerate(b)));
    LayoutOfEnumeration(b);
  }

  // ----- What parsing builds

  ghost predicate AllClean(ts: seq<Token>) {
    forall i | 0 <= i < |ts| :: CleanToken(ts[i])
  }

  lemma {:induction false} CleanParts(a: seq<Token>, b: seq<Token>)
    requires AllClean(a + b)
    ensures AllClean(a) && AllClean(b)
  {
    assert forall i | 0 <= i < |a| :: a[i] == (a + b)[i];
    assert forall i | 0 <= i < |b| :: b[i] == (a + b)[|a| + i];
  }

  lemma {:induction false} EvalIsClean(t: Tree)
    requires Proper(t) && AllClean(Yield(t))
    ensures WellFormed(Eval(t)) && Clean(Eval(t))
    decreases t
  {
    match t
    case Prim(tok) =>
      assert CleanToken(Yield(t)[0]);
    case ArrTree(ts) =>
      CleanParts([LBracket] + YieldElems(ts), [RBracket]);
      CleanParts([LBracket], YieldElems(ts));
      EvalElemsAreClean(ts);
    case ObjTree(ms) =>
      CleanParts([LBrace] + YieldMembers(ms), [RBrace]);
      CleanParts([LBrace], YieldMembers(ms));
      EvalMembersAreClean(ms);
      TableIsClean(EvalMembers(ms));
  }

  ghost predicate CleanMember(m: Pair<Json>) {
    QuoteOk(m.key) && WellFormed(m.val) && Clean(m.val)
  }

  /** A table of clean members is a clean object. */
  lemma {:induction false} TableIsClean(ms: seq<Pair<Json>>)
    requires ms != [] && forall m | m in ms :: CleanMember(m)
    ensures WellFormed(Obj(PutAll([], ms))) && Clean(Obj(PutAll([], ms)))
  {
    hide PutAll;
    PutAllCanonical([], ms);
    PutAllNonEmpty([], ms);
    var r := PutAll([], ms);
    forall i | 0 <= i < |r| ensures CleanMember(r[i]) {
      assert r[i] in r;
      PutAllSubset([], ms, r[i]);
    }
  }

  lemma {:induction false} EvalElemsAreClean(ts: seq<Tree>)
    requires (forall i | 0 <= i < |ts| :: Proper(ts[i])) && AllClean(YieldElems(ts))
    ensures forall i | 0 <= i < |ts| :: WellFormed(EvalElems(ts)[i]) && Clean(EvalElems(ts)[i])
    decreases ts
  {
    if ts != [] {
      var t, more := ts[0], ts[1..];
      if more != [] {
        CleanParts(Yield(t) + [Comma], YieldElems(more));
        CleanParts(Yield(t), [Comma]);
      }
      EvalIsClean(t);
      EvalElemsAreClean(more);
    }
  }

  lemma {:induction false} EvalMembersAreClean(ms: seq<Pair<Tree>>)
    requires (forall i | 0 <= i < |ms| :: Proper(ms[i].val)) && AllClean(YieldMembers(ms))
    ensures forall m | m in EvalMembers(ms) :: CleanMember(m)
    decreases ms
  {
    if ms != [] {
      var m, more := ms[0], ms[1..];
      if more != [] {
        CleanParts(YieldMember(m) + [Comma], YieldMembers(more));
        CleanParts(YieldMember(m), [Comma]);
      }
      CleanParts([TStr(m.key), Colon], Yield(m.val));
      assert CleanToken([TStr(m.key), Colon][0]);
      EvalIsClean(m.val);
      EvalMembersAreClean(more);
    }
  }

  /** Whatever text a value was parsed from, only a negative integer in it can
      keep it from being printable. */
  lemma {:induction false} ParsedIsClean(text: string)
    requires Deserialize(text).Some?
    ensures WellFormed(Deserialize(text).value) && Clean(Deserialize(text).value)
    ensures Printable(Deserialize(text).value) <==> NonNegative(Deserialize(text).value)
  {
    var ts := Lex(text).tokens;
    LexClean(text);
    var t := ParseSound(ts);
    assert ts == ts[..Parse(ts).n] + ts[Parse(ts).n..];
    CleanParts(ts[..Parse(ts).n], ts[Parse(ts).n..]);
    EvalIsClean(t);
  }

  /** Digits that read as an int of at least 0: the low 32 bits have no sign, and
      strtol does not saturate. */
  predicate ReadsUnsigned(digits: string) {
    var n := DecimalValue(digits[..Span(digits, IsDigit)]);
    n < LONG_MAX && n % 0x1_0000_0000 < 0x8000_0000
  }

  lemma {:induction false} UnsignedIff(digits: string)
    ensures TokenInt(digits) >= 0 <==> ReadsUnsigned(digits)
  {
    var s := digits[..Span(digits, IsDigit)];
    var d := DecimalValue(s);
    hide DecimalValue, Span;
    if d < LONG_MAX {
    }
  }

  /** No integer of the derivation reads below 0, but for those in members that
      a later member replaces. */
  ghost predicate KeepsSign(t: Tree) {
    match t
    case Prim(tok) => tok.TInt? ==> ReadsUnsigned(tok.digits)
    case ArrTree(ts) => forall i | 0 <= i < |ts| :: KeepsSign(ts[i])
    case ObjTree(ms) => forall i: nat | i < |ms| && LastUnderKey(ms, i) :: KeepsSign(ms[i].val)
  }

  lemma {:induction false} EvalElemsAt(ts: seq<Tree>, i: nat)
    requires (forall j | 0 <= j < |ts| :: Proper(ts[j])) && i < |ts|
    ensures EvalElems(ts)[i] == Eval(ts[i])
  {
    hide Eval;
    if i > 0 {
      EvalElemsAt(ts[1..], i - 1);
    }
  }

  lemma {:induction false} EvalMembersAt(ms: seq<Pair<Tree>>, i: nat)
    requires (forall j | 0 <= j < |ms| :: Proper(ms[j].val)) && i < |ms|
    ensures EvalMembers(ms)[i] == Pair(ms[i].key, Eval(ms[i].val))
  {
    hide Eval;
    if i > 0 {
      EvalMembersAt(ms[1..], i - 1);
    }
  }

  lemma {:induction false} SameLast(ms: seq<Pair<Tree>>, i: nat)
    requires forall j | 0 <= j < |ms| :: Proper(ms[j].val)
    ensures LastUnderKey(EvalMembers(ms), i) <==> LastUnderKey(ms, i)
  {
    hide Eval, EvalMembers;
    forall j: nat | j < |ms| ensures EvalMembers(ms)[j].key == ms[j].key {
      EvalMembersAt(ms, j);
    }
  }

  /** In an object the last member under a name counts; a name that no member has
      is no property. */
  lemma {:induction false} LastMemberWins(ms: seq<Pair<Tree>>, k: string, rest: seq<Token>)
    requires Proper(ObjTree(ms))
    ensures var p, n := Parse(Yield(ObjTree(ms)) + rest), |Yield(ObjTree(ms))|;
            && p.Value? && p.v.Obj? && p.n == n
            && (forall i | 0 <= i < |ms| && ms[i].key == k && (forall j | i < j < |ms| :: ms[j].key != k) ::
                  Property(p.v, k) == Some(Eval(ms[i].val)))
            && ((forall i | 0 <= i < |ms| :: ms[i].key != k) ==> Property(p.v, k) == None)
  {
    ParseComplete(ObjTree(ms), rest);
    hide Parse, Yield, EvalMembers, PutAll;
    var adds := EvalMembers(ms);
    var r := PutAll([], adds);
    assert Eval(ObjTree(ms)) == Obj(r);
    hide Eval, Proper;
    PutAllCanonical([], adds);
    forall i | 0 <= i < |ms| && ms[i].key == k && (forall j | i < j < |ms| :: ms[j].key != k)
      ensures Get(r, k) == Some(Eval(ms[i].val))
    {
      EvalMembersAt(ms, i);
      SameLast(ms, i);
      assert Remains(adds, adds[i]);
      PutAllHolds(adds, adds[i]);
      MemberInMap(r, adds[i]);
      ToMapGet(r, k);
    }
    if forall i | 0 <= i < |ms| :: ms[i].key != k {
      ToMapGet(r, k);
      if Get(r, k).Some? {
        var x := r[Position(r, k)];
        PutAllHolds(adds, x);
        var i: nat :| i < |adds| && LastUnderKey(adds, i) && adds[i] == x;
        EvalMembersAt(ms, i);
        assert false;
      }
    }
  }

  /** A table of members is free of negative integers when the last members are. */
  lemma {:induction false} TableNonNegativeIff(adds: seq<Pair<Json>>)
    ensures NonNegative(Obj(PutAll([], adds))) <==>
            forall i: nat | i < |adds| && LastUnderKey(adds, i) :: NonNegative(adds[i].val)
  {
    hide PutAll;
    var r := PutAll([], adds);
    if forall i: nat | i < |adds| && LastUnderKey(adds, i) :: NonNegative(adds[i].val) {
      forall k | 0 <= k < |r| ensures NonNegative(r[k].val) {
        PutAllHolds(adds, r[k]);
        assert r[k] in r;
        var i: nat :| LastUnderKey(adds, i) && adds[i] == r[k];
      }
    }
    if NonNegative(Obj(r)) {
      forall i: nat | i < |adds| && LastUnderKey(adds, i) ensures NonNegative(adds[i].val) {
        PutAllHolds(adds, adds[i]);
        assert Remains(adds, adds[i]);
        var k :| 0 <= k < |r| && r[k] == adds[i];
      }
    }
  }

  lemma {:induction false} SignOfArray(ts: seq<Tree>)
    requires forall i | 0 <= i < |ts| :: Proper(ts[i]) && (NonNegative(Eval(ts[i])) <==> KeepsSign(ts[i]))
    ensures NonNegative(Eval(ArrTree(ts))) <==> KeepsSign(ArrTree(ts))
  {
    hide EvalElems;
    forall i | 0 <= i < |ts| ensures EvalElems(ts)[i] == Eval(ts[i]) {
      EvalElemsAt(ts, i);
    }
    assert Eval(ArrTree(ts)) == Arr(EvalElems(ts));
  }

  lemma {:induction false} SignOfObject(ms: seq<Pair<Tree>>)
    requires ms != []
    requires forall i | 0 <= i < |ms| :: Proper(ms[i].val) && (NonNegative(Eval(ms[i].val)) <==> KeepsSign(ms[i].val))
    ensures NonNegative(Eval(ObjTree(ms))) <==> KeepsSign(ObjTree(ms))
  {
    hide EvalMembers, PutAll, LastUnderKey;
    var adds := EvalMembers(ms);
    forall i: nat | i < |ms|
      ensures adds[i].val == Eval(ms[i].val) && (LastUnderKey(adds, i) <==> LastUnderKey(ms, i))
    {
      EvalMembersAt(ms, i);
      SameLast(ms, i);
    }
    TableNonNegativeIff(adds);
    assert Eval(ObjTree(ms)) == Obj(PutAll([], adds));
  }

  lemma {:induction false} SignIsKept(t: Tree)
    requires Proper(t)
    ensures NonNegative(Eval(t)) <==> KeepsSign(t)
    decreases t
  {
    match t
    case Prim(tok) =>
      if tok.TInt? {
        UnsignedIff(tok.digits);
      }
    case ArrTree(ts) =>
      forall i | 0 <= i < |ts| ensures NonNegative(Eval(ts[i])) <==> KeepsSign(ts[i]) {
        SignIsKept(ts[i]);
      }
      SignOfArray(ts);
    case ObjTree(ms) =>
      forall i | 0 <= i < |ms| ensures NonNegative(Eval(ms[i].val)) <==> KeepsSign(ms[i].val) {
        SignIsKept(ms[i].val);
      }
      SignOfObject(ms);
  }

  /** Normalising a text whose tokens begin with the derivation t: its value
      prints to a text that parses back to it, and so prints as itself, exactly
      when no integer that t keeps reads below 0; otherwise to nothing. By
      ParseSound every text that has a value begins with a derivation of it. */
  lemma {:induction false} NormaliseIdempotent(text: string, t: Tree)
    requires Proper(t) && Yield(t) <= Lex(text).tokens
    ensures Deserialize(text) == Some(Eval(t))
    ensures Deserialize(Print(Eval(t))) == if KeepsSign(t) then Some(Eval(t)) else None
  {
    var ts := Lex(text).tokens;
    assert ts == Yield(t) + ts[|Yield(t)|..];
    ParseComplete(t, ts[|Yield(t)|..]);
    ParsedIsClean(text);
    SignIsKept(t);
    if KeepsSign(t) {
      PrintThenParse(Eval(t));
    } else {
      NegativeIsLost(Eval(t));
    }
  }

  /** Every number from 2^31 to 2^32 - 1 wraps, and does not survive. */
  lemma {:induction false} WrappedIsLost(n: nat)
    requires INT_MAX < n <= 2 * INT_MAX + 1
    ensures Deserialize(Digits(n)) == Some(Int(n - 0x1_0000_0000))
    ensures Deserialize(Print(Int(n - 0x1_0000_0000))) == None
  {
    var s := Digits(n);
    hide Digits, Lex, DecimalValue;
    assert s + "" == s;
    LexDigits(s, "");
    LexOfNothing();
    SpanConcat(s, "", IsDigit);
    DigitsValue(n);
    assert s[..|s|] == s;
    NegativeIsLost(Int(n - 0x1_0000_0000));
  }

  /** An integer token that fits an int. */
  ghost predicate InRange(t: Token) {
    t.TInt? ==> DecimalValue(t.digits[..Span(t.digits, IsDigit)]) <= INT_MAX
  }

  ghost predicate AllInRange(ts: seq<Token>) {
    forall i | 0 <= i < |ts| :: InRange(ts[i])
  }

  lemma {:induction false} InRangeParts(a: seq<Token>, b: seq<Token>)
    requires AllInRange(a + b)
    ensures AllInRange(a) && AllInRange(b)
  {
    assert forall i | 0 <= i < |a| :: a[i] == (a + b)[i];
    assert forall i | 0 <= i < |b| :: b[i] == (a + b)[|a| + i];
  }

  lemma {:induction false} EvalIsNonNegative(t: Tree)
    requires Proper(t) && AllInRange(Yield(t))
    ensures NonNegative(Eval(t))
    decreases t
  {
    hide PutAll, InRange;
    match t
    case Prim(tok) => PrimIsNonNegative(tok);
    case ArrTree(ts) =>
      InRangeParts([LBracket] + YieldElems(ts), [RBracket]);
      InRangeParts([LBracket], YieldElems(ts));
      EvalElemsAreNonNegative(ts);
    case ObjTree(ms) =>
      InRangeParts([LBrace] + YieldMembers(ms), [RBrace]);
      InRangeParts([LBrace], YieldMembers(ms));
      EvalMembersAreNonNegative(ms);
      TableIsNonNegative(EvalMembers(ms));
  }

  lemma {:induction false} PrimIsNonNegative(tok: Token)
    requires IsPrimitive(tok) && AllInRange([tok])
    ensures NonNegative(PrimValue(tok))
  {
    assert InRange([tok][0]);
  }

  lemma {:induction false} TableIsNonNegative(ms: seq<Pair<Json>>)
    requires forall m | m in ms :: NonNegative(m.val)
    ensures NonNegative(Obj(PutAll([], ms)))
  {
    hide PutAll;
    var r := PutAll([], ms);
    PutAllCanonical([], ms);
    forall i | 0 <= i < |r| ensures NonNegative(r[i].val) {
      assert r[i] in r;
      PutAllSubset([], ms, r[i]);
    }
  }

  lemma {:induction false} EvalElemsAreNonNegative(ts: seq<Tree>)
    requires (forall i | 0 <= i < |ts| :: Proper(ts[i])) && AllInRange(YieldElems(ts))
    ensures forall i | 0 <= i < |ts| :: NonNegative(EvalElems(ts)[i])
    decreases ts
  {
    hide InRange;
    if ts != [] {
      var t, more := ts[0], ts[1..];
      if more != [] {
        InRangeParts(Yield(t) + [Comma], YieldElems(more));
        InRangeParts(Yield(t), [Comma]);
      }
      EvalIsNonNegative(t);
      EvalElemsAreNonNegative(more);
    }
  }

  lemma {:induction false} EvalMembersAreNonNegative(ms: seq<Pair<Tree>>)
    requires (forall i | 0 <= i < |ms| :: Proper(ms[i].val)) && AllInRange(YieldMembers(ms))
    ensures forall m | m in EvalMembers(ms) :: NonNegative(m.val)
    decreases ms
  {
    hide InRange;
    if ms != [] {
      var m, more := ms[0], ms[1..];
      if more != [] {
        InRangeParts(YieldMember(m) + [Comma], YieldMembers(more));
        InRangeParts(YieldMember(m), [Comma]);
      }
      InRangeParts([TStr(m.key), Colon], Yield(m.val));
      EvalIsNonNegative(m.val);
      EvalMembersAreNonNegative(more);
    }
  }

  /** A text whose integers fit an int gives a printable value, if any. */
  lemma {:induction false} InRangeTextIsPrintable(text: string)
    requires Deserialize(text).Some? && AllInRange(Lex(text).tokens)
    ensures Printable(Deserialize(text).value)
  {
    hide InRange, Lex;
    var ts := Lex(text).tokens;
    ParsedIsClean(text);
    var t := ParseSound(ts);
    assert ts == ts[..Parse(ts).n] + ts[Parse(ts).n..];
    InRangeParts(ts[..Parse(ts).n], ts[Parse(ts).n..]);
    EvalIsNonNegative(t);
  }

  // ----- Nesting depth

  function Weight(t: Token): int {
    match t
    case LBracket => 1
    case LBrace => 1
    case RBracket => -1
    case RBrace => -1
    case _ => 0
  }

  /** Opened and not yet closed. */
  function Depth(ts: seq<Token>): int {
    if ts == [] then 0 else Weight(ts[0]) + Depth(ts[1..])
  }

  /** No front of ts is less than d deep. */
  ghost predicate DeepFrom(ts: seq<Token>, d: int) {
    forall i | 0 <= i <= |ts| :: Depth(ts[..i]) >= d
  }

  /** Every front of ts but the empty one is still open. */
  ghost predicate NeverCloses(ts: seq<Token>) {
    forall i | 1 <= i <= |ts| :: Depth(ts[..i]) >= 1
  }

  lemma {:induction false} DepthConcat(a: seq<Token>, b: seq<Token>)
    ensures Depth(a + b) == Depth(a) + Depth(b)
  {
    if a == [] {
      assert a + b == b;
    } else {
      assert (a + b)[1..] == a[1..] + b;
      DepthConcat(a[1..], b);
    }
  }

  lemma {:induction false} DeepConcat(a: seq<Token>, b: seq<Token>)
    requires DeepFrom(a, 0) && DeepFrom(b, 0) && Depth(a) >= 0
    ensures DeepFrom(a + b, 0) && Depth(a + b) == Depth(a) + Depth(b)
  {
    DepthConcat(a, b);
    forall i | 0 <= i <= |a + b| ensures Depth((a + b)[..i]) >= 0 {
      if i <= |a| {
        assert (a + b)[..i] == a[..i];
      } else {
        assert (a + b)[..i] == a + b[..i - |a|];
        DepthConcat(a, b[..i - |a|]);
      }
    }
  }

  lemma {:induction false} OpenedNeverCloses(open: Token, ts: seq<Token>)
    requires Weight(open) == 1 && DeepFrom(ts, 0)
    ensures NeverCloses([open] + ts)
  {
    forall i | 1 <= i <= |ts| + 1 ensures Depth(([open] + ts)[..i]) >= 1 {
      assert ([open] + ts)[..i] == [open] + ts[..i - 1];
      assert ([open] + ts[..i - 1])[1..] == ts[..i - 1];
    }
  }

  lemma {:induction false} YieldDepth(t: Tree)
    requires Proper(t)
    ensures Depth(Yield(t)) == 0
    decreases t
  {
    match t
    case Prim(tok) =>
      assert Yield(t)[1..] == [];
    case ArrTree(ts) =>
      YieldElemsDepth(ts);
      EnclosedDepth(LBracket, YieldElems(ts), RBracket);
    case ObjTree(ms) =>
      YieldMembersDepth(ms);
      EnclosedDepth(LBrace, YieldMembers(ms), RBrace);
  }

  lemma {:induction false} EnclosedDepth(open: Token, ts: seq<Token>, close: Token)
    ensures Depth([open] + ts + [close]) == Weight(open) + Depth(ts) + Weight(close)
  {
    DepthConcat([open] + ts, [close]);
    DepthConcat([open], ts);
    assert [open][1..] == [] && [close][1..] == [];
  }

  lemma {:induction false} YieldElemsDepth(ts: seq<Tree>)
    requires forall i | 0 <= i < |ts| :: Proper(ts[i])
    ensures Depth(YieldElems(ts)) == 0
    decreases ts
  {
    if ts != [] {
      YieldDepth(ts[0]);
      YieldElemsDepth(ts[1..]);
      DepthConcat(Yield(ts[0]) + [Comma], YieldElems(ts[1..]));
      DepthConcat(Yield(ts[0]), [Comma]);
      assert [Comma][1..] == [];
    }
  }

  lemma {:induction false} YieldMembersDepth(ms: seq<Pair<Tree>>)
    requires forall i | 0 <= i < |ms| :: Proper(ms[i].val)
    ensures Depth(YieldMembers(ms)) == 0
    decreases ms
  {
    if ms != [] {
      var m := ms[0];
      YieldDepth(m.val);
      YieldMembersDepth(ms[1..]);
      DepthConcat([TStr(m.key), Colon], Yield(m.val));
      assert [TStr(m.key), Colon][1..] == [Colon] && [Colon][1..] == [];
      DepthConcat(YieldMember(m) + [Comma], YieldMembers(ms[1..]));
      DepthConcat(YieldMember(m), [Comma]);
      assert [Comma][1..] == [];
    }
  }

  /** Tokens that never close hold no value. */
  lemma {:induction false} NoValueWhileOpen(ts: seq<Token>)
    requires NeverCloses(ts)
    ensures Parse(ts) == NoValue
  {
    assert Parse(ts).Value? ==> Depth(ts[..Parse(ts).n]) >= 1;
    if Parse(ts).Value? {
      var t := ParseSound(ts);
      YieldDepth(t);
      assert false;
    }
  }

  // ----- Exactly which values survive the round trip

  lemma {:induction false} ToksOk(v: Json)
    ensures Toks(v).ok <==> NonNegative(v)
    decreases v
  {
    match v
    case Arr(xs) => ToksElemsOk(xs);
    case Obj(ms) => ToksMembersOk(ms);
    case _ =>
  }

  lemma {:induction false} ToksElemsOk(xs: seq<Json>)
    ensures ToksElems(xs).ok <==> forall i | 0 <= i < |xs| :: NonNegative(xs[i])
    decreases xs
  {
    if xs != [] {
      ToksOk(xs[0]);
      ToksElemsOk(xs[1..]);
    }
  }

  lemma {:induction false} ToksMembersOk(ms: seq<Pair<Json>>)
    ensures ToksMembers(ms).ok <==> forall i | 0 <= i < |ms| :: NonNegative(ms[i].val)
    decreases ms
  {
    if ms != [] {
      ToksOk(ms[0].val);
      ToksMembersOk(ms[1..]);
    }
  }

  /** Printed tokens never close more than they opened. */
  ghost predicate Balanced(l: Lexed) {
    DeepFrom(l.tokens, 0) && Depth(l.tokens) >= 0 && (l.ok ==> Depth(l.tokens) == 0)
  }

  lemma {:induction false} FlatBalanced(ts: seq<Token>, ok: bool)
    requires forall i | 0 <= i < |ts| :: !IsBracket(ts[i])
    ensures Balanced(Lexed(ts, ok)) && Depth(ts) == 0
  {
    FlatDepth(ts);
    forall i | 0 <= i <= |ts| ensures Depth(ts[..i]) >= 0 {
      FlatDepth(ts[..i]);
    }
  }

  lemma {:induction false} FlatDepth(ts: seq<Token>)
    requires forall i | 0 <= i < |ts| :: !IsBracket(ts[i])
    ensures Depth(ts) == 0
  {
    if ts != [] {
      FlatDepth(ts[1..]);
    }
  }

  lemma {:induction false} ThenBalanced(a: Lexed, b: Lexed)
    requires Balanced(a) && Balanced(b)
    ensures Balanced(Then(a, b))
  {
    if a.ok {
      DeepConcat(a.tokens, b.tokens);
    }
  }

  lemma {:induction false} EnclosedBalanced(open: Token, a: Lexed, close: Token)
    requires Weight(open) == 1 && Weight(close) == -1 && Balanced(a)
    ensures Balanced(Then(Before([open], a), Lexed([close], true)))
    ensures NeverCloses([open] + a.tokens)
  {
    var ts := [open] + a.tokens;
    OpenedNeverCloses(open, a.tokens);
    EnclosedDepth(open, a.tokens, close);
    DepthConcat([open], a.tokens);
    assert [open][1..] == [];
    forall i | 0 <= i <= |ts| + 1 ensures Depth((ts + [close])[..i]) >= 0 || (!a.ok && i == |ts| + 1) {
      if i <= |ts| {
        assert (ts + [close])[..i] == ts[..i];
      } else {
        assert (ts + [close])[..i] == ts + [close];
      }
    }
    forall i | 0 <= i <= |ts| ensures Depth(ts[..i]) >= 0 {
      assert i >= 1 ==> Depth(ts[..i]) >= 1;
    }
  }

  lemma {:induction false} ToksBalanced(v: Json)
    ensures Balanced(Toks(v))
    decreases v
  {
    match v
    case Arr(xs) =>
      ToksElemsBalanced(xs);
      EnclosedBalanced(LBracket, ToksElems(xs), RBracket);
    case Obj(ms) =>
      ToksMembersBalanced(ms);
      EnclosedBalanced(LBrace, ToksMembers(ms), RBrace);
    case _ => FlatBalanced(Toks(v).tokens, Toks(v).ok);
  }

  lemma {:induction false} CommaBalanced(a: Lexed, b: Lexed)
    requires Balanced(a) && Balanced(b)
    ensures Balanced(Then(a, Before([Comma], b)))
  {
    FlatBalanced([Comma], true);
    ThenBalanced(Lexed([Comma], true), b);
    ThenBalanced(a, Before([Comma], b));
  }

  lemma {:induction false} ToksElemsBalanced(xs: seq<Json>)
    ensures Balanced(ToksElems(xs))
    decreases xs
  {
    if xs == [] {
      FlatBalanced([], true);
    } else {
      ToksBalanced(xs[0]);
      ToksElemsBalanced(xs[1..]);
      CommaBalanced(Toks(xs[0]), ToksElems(xs[1..]));
    }
  }

  lemma {:induction false} ToksMembersBalanced(ms: seq<Pair<Json>>)
    ensures Balanced(ToksMembers(ms))
    decreases ms
  {
    if ms == [] {
      FlatBalanced([], true);
    } else {
      ToksBalanced(ms[0].val);
      FlatBalanced([TStr(ms[0].key), Colon], true);
      ThenBalanced(Lexed([TStr(ms[0].key), Colon], true), Toks(ms[0].val));
      ToksMembersBalanced(ms[1..]);
      CommaBalanced(ToksMember(ms[0]), ToksMembers(ms[1..]));
    }
  }

  /** A negative integer anywhere makes the text parse to nothing. */
  lemma {:induction false} NegativeIsLost(v: Json)
    requires Clean(v) && !NonNegative(v)
    ensures Deserialize(Print(v)) == None
  {
    hide Lex;
    assert Print(v) + "" == Print(v);
    LexPrint(v, "");
    ToksOk(v);
    match v
    case Arr(xs) =>
      ToksElemsBalanced(xs);
      EnclosedBalanced(LBracket, ToksElems(xs), RBracket);
      NoValueWhileOpen([LBracket] + ToksElems(xs).tokens);
    case Obj(ms) =>
      ToksMembersBalanced(ms);
      EnclosedBalanced(LBrace, ToksMembers(ms), RBrace);
      NoValueWhileOpen([LBrace] + ToksMembers(ms).tokens);
    case Int(_) =>
  }

  /** The round trip is exact: of all values a `json_t` can hold, those and only
      those that are printable parse back from their text. */
  lemma {:induction false} RoundTripIff(v: Json)
    requires WellFormed(v)
    ensures Deserialize(Print(v)) == Some(v) <==> Printable(v)
  {
    if Printable(v) {
      PrintThenParse(v);
    } else if Deserialize(Print(v)) == Some(v) {
      ParsedIsClean(Print(v));
      NegativeIsLost(v);
      assert false;
    }
  }

  // ----- Property names

  /** Every property name in v can be hashed. */
  ghost predicate AsciiNames(v: Json) {
    match v
    case Arr(xs) => forall i | 0 <= i < |xs| :: AsciiNames(xs[i])
    case Obj(ms) => forall i | 0 <= i < |ms| :: Ascii(ms[i].key) && AsciiNames(ms[i].val)
    case _ => true
  }

  ghost predicate Named(ts: seq<Token>) {
    AsciiKeys(ts) && (ts != [] ==> !ts[0].Colon?)
  }

  lemma {:induction false} NamedConcat(a: seq<Token>, b: seq<Token>)
    requires Named(a) && Named(b)
    ensures Named(a + b)
  {
    hide Ascii;
    var all := a + b;
    forall i | 0 <= i < |all| - 1 && all[i].TStr? && all[i + 1].Colon? ensures Ascii(all[i].s) {
      if i < |a| - 1 {
        assert a[i].TStr? && a[i + 1].Colon?;
      } else if i >= |a| {
        assert b[i - |a|].TStr? && b[i - |a| + 1].Colon?;
      }
    }
  }

  lemma {:induction false} NamedThen(a: Lexed, b: Lexed)
    requires Named(a.tokens) && Named(b.tokens)
    ensures Named(Then(a, b).tokens) && Named(Before(a.tokens, b).tokens)
  {
    hide Named;
    NamedConcat(a.tokens, b.tokens);
  }

  lemma {:induction false} NamedComma(a: Lexed, b: Lexed)
    requires Named(a.tokens) && Named(b.tokens)
    ensures Named(Then(a, Before([Comma], b)).tokens)
  {
    assert Named([Comma]);
    hide Named;
    NamedThen(Lexed([Comma], true), b);
    NamedThen(a, Before([Comma], b));
  }

  lemma {:induction false} NamedEnclosed(open: Token, l: Lexed, close: Token)
    requires Named(l.tokens) && !open.Colon? && !close.Colon?
    ensures Named(Then(Before([open], l), Lexed([close], true)).tokens)
  {
    assert Named([open]) && Named([close]);
    hide Named;
    NamedThen(Lexed([open], true), l);
    NamedThen(Before([open], l), Lexed([close], true));
  }

  lemma {:induction false} ToksNamed(v: Json)
    requires AsciiNames(v)
    ensures Named(Toks(v).tokens)
    decreases v
  {
    match v
    case Arr(xs) =>
      ToksElemsNamed(xs);
      NamedEnclosed(LBracket, ToksElems(xs), RBracket);
    case Obj(ms) =>
      ToksMembersNamed(ms);
      NamedEnclosed(LBrace, ToksMembers(ms), RBrace);
    case _ =>
  }

  lemma {:induction false} ToksElemsNamed(xs: seq<Json>)
    requires forall i | 0 <= i < |xs| :: AsciiNames(xs[i])
    ensures Named(ToksElems(xs).tokens)
    decreases xs
  {
    hide Toks, AsciiNames;
    if xs != [] {
      ToksNamed(xs[0]);
      ToksElemsNamed(xs[1..]);
      NamedComma(Toks(xs[0]), ToksElems(xs[1..]));
    }
  }

  lemma {:induction false} ToksMembersNamed(ms: seq<Pair<Json>>)
    requires forall i | 0 <= i < |ms| :: Ascii(ms[i].key) && AsciiNames(ms[i].val)
    ensures Named(ToksMembers(ms).tokens)
    decreases ms
  {
    hide Toks, AsciiNames;
    if ms != [] {
      ToksNamed(ms[0].val);
      assert Named([TStr(ms[0].key), Colon]);
      NamedThen(Lexed([TStr(ms[0].key), Colon], true), Toks(ms[0].val));
      ToksMembersNamed(ms[1..]);
      NamedComma(ToksMember(ms[0]), ToksMembers(ms[1..]));
    }
  }

  /** Whatever its other strings hold, the text of a value with such names has
      such names. */
  lemma {:induction false} PrintedNames(v: Json)
    requires Clean(v) && AsciiNames(v)
    ensures AsciiKeys(Lex(Print(v)).tokens)
  {
    hide Lex, Toks, Clean, AsciiKeys;
    assert Print(v) + "" == Print(v);
    LexPrint(v, "");
    LexOfNothing();
    ToksNamed(v);
    assert Named(Toks(v).tokens);
  }

  // ----- Prefixes of a printed text

  lemma {:induction false} FrontNeverCloses(ts: seq<Token>, k: nat, extra: seq<Token>)
    requires NeverCloses(ts) && k <= |ts| && |extra| <= 1
    requires forall i | 0 <= i < |extra| :: !IsBracket(extra[i])
    requires k >= 1 || extra == []
    ensures NeverCloses(ts[..k] + extra)
  {
    var all := ts[..k] + extra;
    forall i | 1 <= i <= |all| ensures Depth(all[..i]) >= 1 {
      if i <= k {
        assert all[..i] == ts[..i];
      } else {
        assert all[..i] == ts[..k] + extra;
        DepthConcat(ts[..k], extra);
        FlatDepth(extra);
      }
    }
  }

  /** A text that starts by opening a bracket and never closes it holds no
      value, and neither does any front of it. */
  lemma {:induction false} OpenFrontHasNoValue(p: string, q: string)
    requires p <= q && q != [] && q[0] in "[{"
    requires NeverCloses(Lex(q).tokens)
    ensures Deserialize(p) == None
  {
    var k, extra := LexPrefix(p, q);
    if p != [] {
      assert p[0] == q[0];
      assert IsBracket(Lex(p).tokens[0]);
    } else {
      assert Lex(p).tokens == [];
    }
    FrontNeverCloses(Lex(q).tokens, k, extra);
    NoValueWhileOpen(Lex(p).tokens);
  }

  /** The text of an array or object without its last character never closes. */
  lemma {:induction false} ContainerStaysOpen(v: Json)
    requires (v.Arr? || v.Obj?) && Clean(v)
    ensures |Print(v)| >= 2
    ensures var q := Print(v)[..|Print(v)| - 1]; q[0] in "[{" && NeverCloses(Lex(q).tokens)
  {
    hide Lex;
    match v
    case Arr(xs) =>
      var q := "[" + PrintElems(xs);
      assert Print(v)[..|Print(v)| - 1] == q;
      assert PrintElems(xs) + "" == PrintElems(xs);
      LexChar('[', PrintElems(xs));
      LexElems(xs, "");
      LexOfNothing();
      ToksElemsBalanced(xs);
      EnclosedBalanced(LBracket, ToksElems(xs), RBracket);
    case Obj(ms) =>
      var q := "{" + PrintMembers(ms);
      assert Print(v)[..|Print(v)| - 1] == q;
      assert PrintMembers(ms) + "" == PrintMembers(ms);
      LexChar('{', PrintMembers(ms));
      LexMembers(ms, "");
      LexOfNothing();
      ToksMembersBalanced(ms);
      EnclosedBalanced(LBrace, ToksMembers(ms), RBrace);
  }

  lemma {:induction false} LexOfNothing()
    ensures Lex("") == NOTHING
    ensures forall l :: Then(l, NOTHING) == l
  {
    assert forall ts: seq<Token> :: ts + [] == ts;
  }

  /** No strict front of a printed array or object parses to anything. */
  lemma {:induction false} ContainerPrefixHasNoValue(v: Json, p: string)
    requires (v.Arr? || v.Obj?) && Clean(v)
    requires p < Print(v)
    ensures Deserialize(p) == None
  {
    ContainerStaysOpen(v);
    OpenFrontHasNoValue(p, Print(v)[..|Print(v)| - 1]);
  }

  lemma {:induction false} StringPrefixHasNoValue(s: string, p: string)
    requires QuoteOk(s) && p < Quoted(s)
    ensures Deserialize(p) == None
  {
    if p != [] {
      assert Quoted(s) + "" == Quoted(s);
      ScanEndsAtLastQuote(s, "");
      QuoteEndPrefix(p, Quoted(s), 1);
      assert p[0] == '"';
      assert Next(p) == Reject;
    }
  }

  /** A cut-off keyword still tokenizes, and a cut-off number is a number. */
  lemma {:induction false} CutScalar(v: Json) returns (p: string)
    requires v.Null? || v.Bool? || (v.Int? && v.n >= 10)
    ensures p < Print(v) && Deserialize(p).Some?
  {
    p := [Print(v)[0]];
    match v
    case Null => assert Span(p, IsWordChar) == 1 && p <= "null";
    case Bool(b) => assert Span(p, IsWordChar) == 1 && p <= Print(v);
    case Int(n) =>
      LexDigits(p, "");
      assert p + "" == p;
  }

  /** Framing by the first parsed value is exact for arrays, objects, strings
      and one-digit numbers, and for no other printable value. */
  lemma {:induction false} PrefixSafeIff(v: Json)
    requires Printable(v)
    ensures (forall p: string | p < Print(v) :: Deserialize(p) == None) <==>
            v.Arr? || v.Obj? || v.Str? || (v.Int? && v.n < 10)
  {
    if v.Arr? || v.Obj? || v.Str? || (v.Int? && v.n < 10) {
      forall p: string | p < Print(v) ensures Deserialize(p) == None {
        match v
        case Str(s) => StringPrefixHasNoValue(s, p);
        case Int(n) =>
          assert p == [];
        case _ => ContainerPrefixHasNoValue(v, p);
      }
    } else {
      var p := CutScalar(v);
    }
  }
}
