/** The grammar of the comment above `parse_json`, without the empty object, and
    the recursive-descent parser, which is exact for it. */
module JsonGrammar {
  import opened Options
  import opened Tables
  import opened JsonValues
  import opened JsonLexer

  /** A derivation: json_value ::= primitive | json_array | json_object. */
  datatype Tree =
    | Prim(t: Token)
    | ArrTree(elems: seq<Tree>)
    | ObjTree(members: seq<Pair<Tree>>)

  predicate IsPrimitive(t: Token) {
    t.TNull? || t.TTrue? || t.TFalse? || t.TInt? || t.TStr?
  }

  /** Leaves are primitives and objects are not empty. */
  ghost predicate Proper(t: Tree) {
    match t
    case Prim(tok) => IsPrimitive(tok)
    case ArrTree(ts) => forall i | 0 <= i < |ts| :: Proper(ts[i])
    case ObjTree(ms) => ms != [] && forall i | 0 <= i < |ms| :: Proper(ms[i].val)
  }

  /** The tokens a derivation spells out. */
  function Yield(t: Tree): seq<Token> {
    match t
    case Prim(tok) => [tok]
    case ArrTree(ts) => [LBracket] + YieldElems(ts) + [RBracket]
    case ObjTree(ms) => [LBrace] + YieldMembers(ms) + [RBrace]
  }

  function YieldElems(ts: seq<Tree>): seq<Token> {
    if ts == [] then []
    else if |ts| == 1 then Yield(ts[0])
    else Yield(ts[0]) + [Comma] + YieldElems(ts[1..])
  }

  function YieldMember(m: Pair<Tree>): seq<Token> {
    [TStr(m.key), Colon] + Yield(m.val)
  }

  function YieldMembers(ms: seq<Pair<Tree>>): seq<Token> {
    if ms == [] then []
    else if |ms| == 1 then YieldMember(ms[0])
    else YieldMember(ms[0]) + [Comma] + YieldMembers(ms[1..])
  }

  function PrimValue(t: Token): Json
    requires IsPrimitive(t)
  {
    match t
    case TNull => Null
    case TTrue => Bool(true)
    case TFalse => Bool(false)
    case TInt(ds) => Int(TokenInt(ds))
    case TStr(s) => Str(s)
  }

  /** `(int) strtol(tokens[0].value, NULL, 10)`, which stops at the first character that is no digit. */
  function TokenInt(s: string): int {
    ToInt(s[..Span(s, IsDigit)])
  }

  /** The value of a derivation; in an object later duplicates replace earlier ones. */
  function Eval(t: Tree): Json
    requires Proper(t)
  {
    match t
    case Prim(tok) => PrimValue(tok)
    case ArrTree(ts) => Arr(EvalElems(ts))
    case ObjTree(ms) => Obj(PutAll([], EvalMembers(ms)))
  }

  function EvalElems(ts: seq<Tree>): (vs: seq<Json>)
    requires forall i | 0 <= i < |ts| :: Proper(ts[i])
    ensures |vs| == |ts|
  {
    if ts == [] then [] else [Eval(ts[0])] + EvalElems(ts[1..])
  }

  function EvalMembers(ms: seq<Pair<Tree>>): (vs: seq<Pair<Json>>)
    requires forall i | 0 <= i < |ms| :: Proper(ms[i].val)
    ensures |vs| == |ms|
  {
    if ms == [] then [] else [Pair(ms[0].key, Eval(ms[0].val))] + EvalMembers(ms[1..])
  }

  /** ts is derived from the grammar with value v. */
  ghost predicate Derives(ts: seq<Token>, v: Json) {
    exists t :: Proper(t) && Yield(t) == ts && Eval(t) == v
  }

  // ----- The parser

  /** A value and the number of tokens it took. */
  datatype Parsed = NoValue | Value(v: Json, n: nat)

  /** The same value, k tokens further on. */
  function After(p: Parsed, k: nat): Parsed {
    match p
    case NoValue => NoValue
    case Value(v, n) => Value(v, n + k)
  }

  function Parse(ts: seq<Token>): (p: Parsed)
    ensures p.Value? ==> 1 <= p.n <= |ts|
    decreases |ts|, 0
  {
    if ts == [] then NoValue
    else if IsPrimitive(ts[0]) then Value(PrimValue(ts[0]), 1)
    else if ts[0].LBracket? then
      if |ts| > 1 && ts[1].RBracket? then Value(Arr([]), 2)
      else After(ParseElems(ts[1..], []), 1)
    else if ts[0].LBrace? then After(ParseMembers(ts[1..], []), 1)
    else NoValue
  }

  /** After `[` or a comma, with the elements so far. */
  function ParseElems(ts: seq<Token>, acc: seq<Json>): (p: Parsed)
    ensures p.Value? ==> 1 <= p.n <= |ts|
    decreases |ts|, 1
  {
    match Parse(ts)
    case NoValue => NoValue
    case Value(v, n) =>
      if n == |ts| then NoValue
      else if ts[n].Comma? then After(ParseElems(ts[n + 1..], acc + [v]), n + 1)
      else if ts[n].RBracket? then Value(Arr(acc + [v]), n + 1)
      else NoValue
  }

  /** A member and the number of tokens it took. */
  datatype ParsedMember = NoMember | Member(e: Pair<Json>, n: nat)

  /** A property, a colon and a value. */
  function ParseMember(ts: seq<Token>): (p: ParsedMember)
    ensures p.Member? ==> 1 <= p.n <= |ts|
    decreases |ts|, 1
  {
    match Parse(ts)
    case NoValue => NoMember
    case Value(key, k) =>
      if !key.Str? || k == |ts| || !ts[k].Colon? then NoMember
      else
        match Parse(ts[k + 1..])
        case NoValue => NoMember
        case Value(v, n) => Member(Pair(key.s, v), k + 1 + n)
  }

  /** After `{` or a comma, with the table so far. */
  function ParseMembers(ts: seq<Token>, acc: seq<Pair<Json>>): (p: Parsed)
    ensures p.Value? ==> 1 <= p.n <= |ts|
    decreases |ts|, 2
  {
    match ParseMember(ts)
    case NoMember => NoValue
    case Member(e, n) =>
      if n == |ts| then NoValue
      else if ts[n].Comma? then After(ParseMembers(ts[n + 1..], Put(acc, e)), n + 1)
      else if ts[n].RBrace? then Value(Obj(Put(acc, e)), n + 1)
      else NoValue
  }

  /** `deserialize_json`: the tokenizer's verdict is ignored. */
  function Deserialize(s: string): Option<Json> {
    match Parse(Lex(s).tokens)
    case NoValue => None
    case Value(v, _) => Some(v)
  }

  /** Braces around nothing are no value, whatever follows. */
  lemma {:induction false} NoEmptyObject(rest: seq<Token>)
    ensures Parse([LBrace, RBrace] + rest) == NoValue
  {
    assert ([LBrace, RBrace] + rest)[1..] == [RBrace] + rest;
    assert Parse([RBrace] + rest) == NoValue;
    assert ParseMember([RBrace] + rest) == NoMember;
    assert ParseMembers([RBrace] + rest, []) == NoValue;
  }

  // ----- Completeness: what the grammar derives is parsed, whatever follows

  lemma {:induction false} YieldHead(t: Tree)
    requires Proper(t)
    ensures Yield(t) != [] && !Yield(t)[0].RBracket?
  {
  }

  lemma {:induction false} YieldElemsHead(ts: seq<Tree>)
    requires ts != [] && forall i | 0 <= i < |ts| :: Proper(ts[i])
    ensures YieldElems(ts) != [] && !YieldElems(ts)[0].RBracket?
  {
    YieldHead(ts[0]);
  }

  /** A bracketed yield is the opening token and the rest. */
  lemma {:induction false} OpenAndRest(open: Token, y: seq<Token>, close: Token, rest: seq<Token>)
    ensures ([open] + y + [close] + rest)[1..] == y + [close] + rest
    ensures ([open] + y + [close] + rest)[0] == open
  {
  }

  lemma {:induction false} ParseComplete(t: Tree, rest: seq<Token>)
    requires Proper(t)
    ensures Parse(Yield(t) + rest) == Value(Eval(t), |Yield(t)|)
    decreases t
  {
    hide Put;
    match t
    case Prim(tok) =>
      assert (Yield(t) + rest)[0] == tok;
    case ArrTree(ts) =>
      OpenAndRest(LBracket, YieldElems(ts), RBracket, rest);
      if ts != [] {
        YieldElemsHead(ts);
        ParseElemsComplete(ts, [], rest);
        assert [] + EvalElems(ts) == EvalElems(ts);
      }
    case ObjTree(ms) =>
      OpenAndRest(LBrace, YieldMembers(ms), RBrace, rest);
      ParseMembersComplete(ms, [], rest);
  }

  // One turn of each loop, on any tokens.

  lemma {:induction false} ElemThenComma(ts: seq<Token>, n: nat, acc: seq<Json>, v: Json)
    requires Parse(ts) == Value(v, n) && n < |ts| && ts[n].Comma?
    ensures ParseElems(ts, acc) == After(ParseElems(ts[n + 1..], acc + [v]), n + 1)
  {
  }

  lemma {:induction false} ElemThenBracket(ts: seq<Token>, n: nat, acc: seq<Json>, v: Json)
    requires Parse(ts) == Value(v, n) && n < |ts| && ts[n].RBracket?
    ensures ParseElems(ts, acc) == Value(Arr(acc + [v]), n + 1)
  {
  }

  lemma {:induction false} MemberThenComma(ts: seq<Token>, n: nat, acc: seq<Pair<Json>>, e: Pair<Json>)
    requires ParseMember(ts) == Member(e, n) && n < |ts| && ts[n].Comma?
    ensures ParseMembers(ts, acc) == After(ParseMembers(ts[n + 1..], Put(acc, e)), n + 1)
  {
    hide Put;
  }

  lemma {:induction false} MemberThenBrace(ts: seq<Token>, n: nat, acc: seq<Pair<Json>>, e: Pair<Json>)
    requires ParseMember(ts) == Member(e, n) && n < |ts| && ts[n].RBrace?
    ensures ParseMembers(ts, acc) == Value(Obj(Put(acc, e)), n + 1)
  {
    hide Put;
  }

  /** A string, a colon and a value make a member. */
  lemma {:induction false} SpelledMember(ts: seq<Token>, v: Json, n: nat)
    requires |ts| > 2 && ts[0].TStr? && ts[1].Colon? && Parse(ts[2..]) == Value(v, n)
    ensures ParseMember(ts) == Member(Pair(ts[0].s, v), n + 2)
  {
    assert Parse(ts) == Value(Str(ts[0].s), 1);
  }

  lemma {:induction false} SnocCons<T>(a: seq<T>, x: T, b: seq<T>)
    ensures a + ([x] + b) == (a + [x]) + b
  {
  }

  /** One tree, a comma, the rest: where the rest begins. */
  lemma {:induction false} SplitAtComma(y: seq<Token>, z: seq<Token>, close: Token, rest: seq<Token>)
    ensures (y + [Comma] + z) + [close] + rest == y + ([Comma] + (z + [close] + rest))
    ensures ((y + [Comma] + z) + [close] + rest)[|y| + 1..] == z + [close] + rest
  {
    assert (y + [Comma] + z) + [close] + rest == y + ([Comma] + (z + [close] + rest));
  }

  lemma {:induction false} YieldElemsCons(t: Tree, more: seq<Tree>)
    ensures YieldElems([t] + more) == if more == [] then Yield(t) else Yield(t) + [Comma] + YieldElems(more)
  {
    assert ([t] + more)[1..] == more;
  }

  lemma {:induction false} EvalElemsCons(t: Tree, more: seq<Tree>)
    requires Proper(t) && forall i | 0 <= i < |more| :: Proper(more[i])
    ensures EvalElems([t] + more) == [Eval(t)] + EvalElems(more)
  {
    assert ([t] + more)[1..] == more;
  }

  lemma {:induction false} LastElem(t: Tree, acc: seq<Json>, rest: seq<Token>)
    requires Proper(t)
    requires Parse(Yield(t) + ([RBracket] + rest)) == Value(Eval(t), |Yield(t)|)
    ensures ParseElems(YieldElems([t]) + [RBracket] + rest, acc) ==
            Value(Arr(acc + EvalElems([t])), |YieldElems([t])| + 1)
  {
    var all := YieldElems([t]) + [RBracket] + rest;
    assert all == Yield(t) + ([RBracket] + rest);
    ElemThenBracket(all, |Yield(t)|, acc, Eval(t));
    assert EvalElems([t]) == [Eval(t)];
  }

  lemma {:induction false} FirstElem(t: Tree, more: seq<Tree>, acc: seq<Json>, rest: seq<Token>)
    requires Proper(t) && more != [] && forall i | 0 <= i < |more| :: Proper(more[i])
    requires Parse(Yield(t) + ([Comma] + (YieldElems(more) + [RBracket] + rest))) == Value(Eval(t), |Yield(t)|)
    requires ParseElems(YieldElems(more) + [RBracket] + rest, acc + [Eval(t)]) ==
             Value(Arr((acc + [Eval(t)]) + EvalElems(more)), |YieldElems(more)| + 1)
    ensures ParseElems(YieldElems([t] + more) + [RBracket] + rest, acc) ==
            Value(Arr(acc + EvalElems([t] + more)), |YieldElems([t] + more)| + 1)
  {
    hide Parse, ParseElems, Yield, YieldElems, Eval, EvalElems, Proper;
    YieldElemsCons(t, more);
    EvalElemsCons(t, more);
    SplitAtComma(Yield(t), YieldElems(more), RBracket, rest);
    ElemThenComma(YieldElems([t] + more) + [RBracket] + rest, |Yield(t)|, acc, Eval(t));
    SnocCons(acc, Eval(t), EvalElems(more));
  }

  lemma {:induction false} ParseElemsComplete(ts: seq<Tree>, acc: seq<Json>, rest: seq<Token>)
    requires ts != [] && forall i | 0 <= i < |ts| :: Proper(ts[i])
    ensures ParseElems(YieldElems(ts) + [RBracket] + rest, acc) ==
            Value(Arr(acc + EvalElems(ts)), |YieldElems(ts)| + 1)
    decreases ts
  {
    hide Parse, ParseElems, Yield, YieldElems, Eval, EvalElems, Proper;
    var t, more := ts[0], ts[1..];
    if more == [] {
      ParseComplete(t, [RBracket] + rest);
      LastElem(t, acc, rest);
      assert ts == [t];
    } else {
      ParseComplete(t, [Comma] + (YieldElems(more) + [RBracket] + rest));
      ParseElemsComplete(more, acc + [Eval(t)], rest);
      FirstElem(t, more, acc, rest);
      assert ts == [t] + more;
    }
  }

  lemma {:induction false} YieldMembersCons(m: Pair<Tree>, more: seq<Pair<Tree>>)
    ensures YieldMembers([m] + more) ==
            if more == [] then YieldMember(m) else YieldMember(m) + [Comma] + YieldMembers(more)
  {
    assert ([m] + more)[1..] == more;
  }

  lemma {:induction false} EvalMembersCons(m: Pair<Tree>, more: seq<Pair<Tree>>)
    requires Proper(m.val) && forall i | 0 <= i < |more| :: Proper(more[i].val)
    ensures EvalMembers([m] + more) == [Pair(m.key, Eval(m.val))] + EvalMembers(more)
  {
    assert ([m] + more)[1..] == more;
  }

  /** Evaluating members one by one is putting them one by one. */
  lemma {:induction false} PutMembersCons(acc: seq<Pair<Json>>, m: Pair<Tree>, more: seq<Pair<Tree>>)
    requires Proper(m.val) && forall i | 0 <= i < |more| :: Proper(more[i].val)
    ensures PutAll(acc, EvalMembers([m] + more)) ==
            PutAll(Put(acc, Pair(m.key, Eval(m.val))), EvalMembers(more))
  {
    EvalMembersCons(m, more);
    assert EvalMembers([m] + more)[1..] == EvalMembers(more);
  }

  /** The member of a proper tree is read, whatever follows it. */
  lemma {:induction false} MemberComplete(m: Pair<Tree>, rest: seq<Token>)
    requires Proper(m.val)
    requires Parse(Yield(m.val) + rest) == Value(Eval(m.val), |Yield(m.val)|)
    ensures ParseMember(YieldMember(m) + rest) == Member(Pair(m.key, Eval(m.val)), |YieldMember(m)|)
  {
    hide Parse, ParseMember, Eval, Yield, Proper;
    var all := YieldMember(m) + rest;
    assert all[2..] == Yield(m.val) + rest;
    SpelledMember(all, Eval(m.val), |Yield(m.val)|);
  }

  lemma {:induction false} LastMember(m: Pair<Tree>, acc: seq<Pair<Json>>, rest: seq<Token>)
    requires Proper(m.val)
    requires ParseMember(YieldMember(m) + ([RBrace] + rest)) == Member(Pair(m.key, Eval(m.val)), |YieldMember(m)|)
    ensures ParseMembers(YieldMembers([m]) + [RBrace] + rest, acc) ==
            Value(Obj(PutAll(acc, EvalMembers([m]))), |YieldMembers([m])| + 1)
  {
    hide Put;
    var all := YieldMembers([m]) + [RBrace] + rest;
    assert all == YieldMember(m) + ([RBrace] + rest);
    MemberThenBrace(all, |YieldMember(m)|, acc, Pair(m.key, Eval(m.val)));
    assert [m] + [] == [m];
    PutMembersCons(acc, m, []);
  }

  lemma {:induction false} FirstMember(m: Pair<Tree>, more: seq<Pair<Tree>>, acc: seq<Pair<Json>>, rest: seq<Token>)
    requires Proper(m.val) && more != [] && forall i | 0 <= i < |more| :: Proper(more[i].val)
    requires ParseMember(YieldMember(m) + ([Comma] + (YieldMembers(more) + [RBrace] + rest))) ==
             Member(Pair(m.key, Eval(m.val)), |YieldMember(m)|)
    requires ParseMembers(YieldMembers(more) + [RBrace] + rest, Put(acc, Pair(m.key, Eval(m.val)))) ==
             Value(Obj(PutAll(Put(acc, Pair(m.key, Eval(m.val))), EvalMembers(more))), |YieldMembers(more)| + 1)
    ensures ParseMembers(YieldMembers([m] + more) + [RBrace] + rest, acc) ==
            Value(Obj(PutAll(acc, EvalMembers([m] + more))), |YieldMembers([m] + more)| + 1)
  {
    hide Put, PutAll, ParseMember, ParseMembers, YieldMember, YieldMembers, Eval, EvalMembers, Proper;
    YieldMembersCons(m, more);
    PutMembersCons(acc, m, more);
    SplitAtComma(YieldMember(m), YieldMembers(more), RBrace, rest);
    MemberThenComma(YieldMembers([m] + more) + [RBrace] + rest, |YieldMember(m)|, acc, Pair(m.key, Eval(m.val)));
  }

  lemma {:induction false} ParseMembersComplete(ms: seq<Pair<Tree>>, acc: seq<Pair<Json>>, rest: seq<Token>)
    requires ms != [] && forall i | 0 <= i < |ms| :: Proper(ms[i].val)
    ensures ParseMembers(YieldMembers(ms) + [RBrace] + rest, acc) ==
            Value(Obj(PutAll(acc, EvalMembers(ms))), |YieldMembers(ms)| + 1)
    decreases ms
  {
    hide Put, PutAll, Parse, ParseMember, ParseMembers, Yield, YieldMember, YieldMembers, Eval, EvalMembers, Proper;
    var m, more := ms[0], ms[1..];
    if more == [] {
      ParseComplete(m.val, [RBrace] + rest);
      MemberComplete(m, [RBrace] + rest);
      LastMember(m, acc, rest);
      assert ms == [m];
    } else {
      var tail := YieldMembers(more) + [RBrace] + rest;
      ParseComplete(m.val, [Comma] + tail);
      MemberComplete(m, [Comma] + tail);
      ParseMembersComplete(more, Put(acc, Pair(m.key, Eval(m.val))), rest);
      FirstMember(m, more, acc, rest);
      assert ms == [m] + more;
    }
  }

  // ----- Soundness: what is parsed is derived

  /** t is a derivation of what is parsed. */
  ghost predicate DerivesParsed(ts: seq<Token>, t: Tree) {
    Proper(t) && Parse(ts).Value? && Yield(t) == ts[..Parse(ts).n] && Eval(t) == Parse(ts).v
  }

  lemma {:induction false} ParseSound(ts: seq<Token>) returns (t: Tree)
    requires Parse(ts).Value?
    ensures Proper(t) && Yield(t) == ts[..Parse(ts).n] && Eval(t) == Parse(ts).v
    decreases |ts|, 0
  {
    hide Put, PutAll, ParseElems, ParseMembers, YieldElems, YieldMembers, EvalElems, EvalMembers;
    if IsPrimitive(ts[0]) {
      t := Prim(ts[0]);
    } else if ts[0].LBracket? {
      if |ts| > 1 && ts[1].RBracket? {
        t := ArrTree([]);
        EmptyArraySound(ts);
      } else {
        var trees := ParseElemsSound(ts[1..], []);
        t := ArrTree(trees);
        ArraySound(ts, trees);
      }
    } else {
      var ms := ParseMembersSound(ts[1..], []);
      t := ObjTree(ms);
      ObjectSound(ts, ms);
    }
  }

  lemma {:induction false} EmptyArraySound(ts: seq<Token>)
    requires |ts| > 1 && ts[0].LBracket? && ts[1].RBracket?
    ensures DerivesParsed(ts, ArrTree([]))
  {
  }

  lemma {:induction false} ArraySound(ts: seq<Token>, trees: seq<Tree>)
    requires ts != [] && ts[0].LBracket? && !(|ts| > 1 && ts[1].RBracket?)
    requires ParseElems(ts[1..], []).Value? && forall i | 0 <= i < |trees| :: Proper(trees[i])
    requires YieldElems(trees) + [RBracket] == ts[1..][..ParseElems(ts[1..], []).n]
    requires ParseElems(ts[1..], []).v == Arr([] + EvalElems(trees))
    ensures DerivesParsed(ts, ArrTree(trees))
  {
    hide ParseElems, YieldElems, EvalElems;
    HeadAndRest(ts, ParseElems(ts[1..], []).n, YieldElems(trees), RBracket);
    assert [] + EvalElems(trees) == EvalElems(trees);
  }

  lemma {:induction false} ObjectSound(ts: seq<Token>, ms: seq<Pair<Tree>>)
    requires ts != [] && ts[0].LBrace? && ms != []
    requires ParseMembers(ts[1..], []).Value? && forall i | 0 <= i < |ms| :: Proper(ms[i].val)
    requires YieldMembers(ms) + [RBrace] == ts[1..][..ParseMembers(ts[1..], []).n]
    requires ParseMembers(ts[1..], []).v == Obj(PutAll([], EvalMembers(ms)))
    ensures DerivesParsed(ts, ObjTree(ms))
  {
    hide PutAll, ParseMembers, YieldMembers, EvalMembers;
    HeadAndRest(ts, ParseMembers(ts[1..], []).n, YieldMembers(ms), RBrace);
  }

  lemma {:induction false} HeadAndRest(ts: seq<Token>, n: nat, y: seq<Token>, close: Token)
    requires n + 1 <= |ts| && y + [close] == ts[1..][..n]
    ensures [ts[0]] + y + [close] == ts[..n + 1]
  {
    assert ts[..n + 1] == [ts[0]] + ts[1..][..n];
  }

  /** What a successful turn of the element loop saw. */
  lemma {:induction false} ElemsInversion(ts: seq<Token>, acc: seq<Json>, p: Parsed, n: nat)
    requires ParseElems(ts, acc).Value?
    requires p == Parse(ts) && (p.Value? ==> n == p.n)
    ensures p.Value? && n < |ts|
    ensures ts[n].RBracket? ==> ParseElems(ts, acc) == Value(Arr(acc + [p.v]), n + 1)
    ensures !ts[n].RBracket? ==> ts[n].Comma? && ParseElems(ts[n + 1..], acc + [p.v]).Value?
    ensures !ts[n].RBracket? ==> ParseElems(ts, acc) == After(ParseElems(ts[n + 1..], acc + [p.v]), n + 1)
  {
  }

  /** What a successful turn of the member loop saw. */
  lemma {:induction false} MembersInversion(ts: seq<Token>, acc: seq<Pair<Json>>, p: ParsedMember, n: nat)
    requires ParseMembers(ts, acc).Value?
    requires p == ParseMember(ts) && (p.Member? ==> n == p.n)
    ensures p.Member? && n < |ts|
    ensures ts[n].RBrace? ==> ParseMembers(ts, acc) == Value(Obj(Put(acc, p.e)), n + 1)
    ensures !ts[n].RBrace? ==> ts[n].Comma? && ParseMembers(ts[n + 1..], Put(acc, p.e)).Value?
    ensures !ts[n].RBrace? ==> ParseMembers(ts, acc) == After(ParseMembers(ts[n + 1..], Put(acc, p.e)), n + 1)
  {
    hide Put;
  }

  /** What a member that was read looks like. */
  lemma {:induction false} MemberInversion(ts: seq<Token>)
    requires ParseMember(ts).Member?
    ensures |ts| > 2 && ts[0].TStr? && ts[1].Colon? && Parse(ts[2..]).Value?
    ensures ParseMember(ts) == Member(Pair(ts[0].s, Parse(ts[2..]).v), Parse(ts[2..]).n + 2)
  {
    StringFirst(ts);
  }

  lemma {:induction false} StringFirst(ts: seq<Token>)
    ensures Parse(ts).Value? && Parse(ts).v.Str? ==> ts[0] == TStr(Parse(ts).v.s) && Parse(ts).n == 1
  {
    if ts != [] && ts[0].LBracket? {
      ElemsGiveArray(ts[1..], []);
    } else if ts != [] && ts[0].LBrace? {
      MembersGiveObject(ts[1..], []);
    }
  }

  lemma {:induction false} ElemsGiveArray(ts: seq<Token>, acc: seq<Json>)
    ensures ParseElems(ts, acc).Value? ==> ParseElems(ts, acc).v.Arr?
    decreases |ts|
  {
    var p := Parse(ts);
    if p.Value? && p.n < |ts| {
      ElemsGiveArray(ts[p.n + 1..], acc + [p.v]);
    }
  }

  lemma {:induction false} MembersGiveObject(ts: seq<Token>, acc: seq<Pair<Json>>)
    ensures ParseMembers(ts, acc).Value? ==> ParseMembers(ts, acc).v.Obj?
    decreases |ts|
  {
    hide Put;
    var p := ParseMember(ts);
    if p.Member? && p.n < |ts| {
      MembersGiveObject(ts[p.n + 1..], Put(acc, p.e));
    }
  }

  lemma {:induction false} PrefixSplit(ts: seq<Token>, n: nat, m: nat)
    requires n + 1 + m <= |ts|
    ensures ts[..n + 1 + m] == ts[..n] + ([ts[n]] + ts[n + 1..][..m])
  {
  }

  lemma {:induction false} YieldElemsPrefix(ts: seq<Token>, n: nat, m: nat, t: Tree, more: seq<Tree>)
    requires n + 1 + m <= |ts| && more != []
    requires Yield(t) == ts[..n] && ts[n].Comma?
    requires YieldElems(more) + [RBracket] == ts[n + 1..][..m]
    ensures YieldElems([t] + more) + [RBracket] == ts[..n + 1 + m]
  {
    hide Yield, YieldElems;
    PrefixSplit(ts, n, m);
    YieldElemsCons(t, more);
    SplitAtComma(ts[..n], YieldElems(more), RBracket, []);
    assert YieldElems(more) + [RBracket] + [] == YieldElems(more) + [RBracket];
  }

  lemma {:induction false} YieldMembersPrefix(ts: seq<Token>, n: nat, m: nat, p: Pair<Tree>, more: seq<Pair<Tree>>)
    requires n + 1 + m <= |ts| && more != []
    requires YieldMember(p) == ts[..n] && ts[n].Comma?
    requires YieldMembers(more) + [RBrace] == ts[n + 1..][..m]
    ensures YieldMembers([p] + more) + [RBrace] == ts[..n + 1 + m]
  {
    hide YieldMember, YieldMembers;
    PrefixSplit(ts, n, m);
    YieldMembersCons(p, more);
    SplitAtComma(ts[..n], YieldMembers(more), RBrace, []);
    assert YieldMembers(more) + [RBrace] + [] == YieldMembers(more) + [RBrace];
  }

  lemma {:induction false} ElemsOfOne(t: Tree)
    requires Proper(t)
    ensures YieldElems([t]) == Yield(t) && EvalElems([t]) == [Eval(t)]
  {
  }

  lemma {:induction false} ParseElemsSound(ts: seq<Token>, acc: seq<Json>) returns (trees: seq<Tree>)
    requires ParseElems(ts, acc).Value?
    ensures trees != [] && forall i | 0 <= i < |trees| :: Proper(trees[i])
    ensures YieldElems(trees) + [RBracket] == ts[..ParseElems(ts, acc).n]
    ensures ParseElems(ts, acc).v == Arr(acc + EvalElems(trees))
    decreases |ts|, 1
  {
    hide Parse, ParseElems, Yield, YieldElems, Eval, EvalElems, Proper;
    ElemsInversion(ts, acc, Parse(ts), if Parse(ts).Value? then Parse(ts).n else 0);
    var t := ParseSound(ts);
    var n, v := Parse(ts).n, Parse(ts).v;
    if ts[n].RBracket? {
      trees := [t];
      ElemsOfOne(t);
      assert ts[..n + 1] == ts[..n] + [RBracket];
    } else {
      var more := ParseElemsSound(ts[n + 1..], acc + [v]);
      trees := [t] + more;
      YieldElemsPrefix(ts, n, ParseElems(ts[n + 1..], acc + [v]).n, t, more);
      EvalElemsCons(t, more);
      SnocCons(acc, v, EvalElems(more));
    }
  }

  lemma {:induction false} MemberPrefix(ts: seq<Token>, n: nat, t: Tree)
    requires n + 2 <= |ts| && ts[0].TStr? && ts[1].Colon? && Yield(t) == ts[2..][..n]
    ensures YieldMember(Pair(ts[0].s, t)) == ts[..n + 2]
  {
    assert ts[..n + 2] == [ts[0], ts[1]] + ts[2..][..n];
  }

  lemma {:induction false} ParseMemberSound(ts: seq<Token>) returns (m: Pair<Tree>)
    requires ParseMember(ts).Member?
    ensures Proper(m.val) && YieldMember(m) == ts[..ParseMember(ts).n]
    ensures ParseMember(ts).e == Pair(m.key, Eval(m.val))
    decreases |ts|, 1
  {
    MemberInversion(ts);
    var t := ParseSound(ts[2..]);
    m := Pair(ts[0].s, t);
    MemberPrefix(ts, Parse(ts[2..]).n, t);
  }

  lemma {:induction false} ParseMembersSound(ts: seq<Token>, acc: seq<Pair<Json>>) returns (ms: seq<Pair<Tree>>)
    requires ParseMembers(ts, acc).Value?
    ensures ms != [] && forall i | 0 <= i < |ms| :: Proper(ms[i].val)
    ensures YieldMembers(ms) + [RBrace] == ts[..ParseMembers(ts, acc).n]
    ensures ParseMembers(ts, acc).v == Obj(PutAll(acc, EvalMembers(ms)))
    decreases |ts|, 2
  {
    hide Put;
    var n := if ParseMember(ts).Member? then ParseMember(ts).n else 0;
    MembersInversion(ts, acc, ParseMember(ts), n);
    var m := ParseMemberSound(ts);
    var e := ParseMember(ts).e;
    if ts[n].RBrace? {
      ms := [m];
      assert [m] + [] == [m];
      PutMembersCons(acc, m, []);
      assert ts[..n + 1] == ts[..n] + [RBrace];
    } else {
      var more := ParseMembersSound(ts[n + 1..], Put(acc, e));
      ms := [m] + more;
      PutMembersCons(acc, m, more);
      YieldMembersPrefix(ts, n, ParseMembers(ts[n + 1..], Put(acc, e)).n, m, more);
    }
  }

  /** The parser returns v after n tokens exactly when the grammar derives v
      from those n tokens; n and v do not depend on what follows them. */
  lemma {:induction false} ParserIsExact(ts: seq<Token>, v: Json, n: nat)
    requires n <= |ts|
    ensures Parse(ts) == Value(v, n) <==> Derives(ts[..n], v)
  {
    hide Parse, Yield, Eval, Proper;
    if Parse(ts) == Value(v, n) {
      var t := ParseSound(ts);
    }
    if Derives(ts[..n], v) {
      var t :| Proper(t) && Yield(t) == ts[..n] && Eval(t) == v;
      ParseComplete(t, ts[n..]);
      assert ts == ts[..n] + ts[n..];
    }
  }
}
