/** The recursive-descent parser over the token array. A place in it with the
    remaining count is the sequence of tokens still ahead. Arrays are collected
    in a vector, objects in a hash table. */
module JsonReader {
  import opened Hashing
  import opened Options
  import opened Tables
  import opened JsonValues
  import opened JsonLexer
  import opened JsonGrammar
  import opened JsonTokenizer
  import opened HashMaps
  import opened Vectors

  /** What a call of the parser returned agrees with the parse p. */
  ghost predicate Agrees(r: Option<Json>, passed: nat, p: Parsed) {
    match p
    case NoValue => r == None
    case Value(v, n) => r == Some(v) && passed == n
  }

  lemma {:induction false} ViewsFrom(data: string, rs: seq<RawToken>, k: nat)
    requires k <= |rs|
    ensures Views(data, rs[k..]) == Views(data, rs)[k..]
    ensures AsciiKeys(Views(data, rs)) ==> AsciiKeys(Views(data, rs[k..]))
  {
    assert Views(data, rs[k..]) == Views(data, rs)[k..];
    if AsciiKeys(Views(data, rs)) {
      AsciiKeysFrom(Views(data, rs), k);
    }
  }

  /** A property name is a string that a colon follows. */
  lemma {:induction false} KeyIsAscii(ts: seq<Token>)
    requires AsciiKeys(ts) && Parse(ts).Value? && Parse(ts).v.Str?
    requires Parse(ts).n < |ts| && ts[Parse(ts).n].Colon?
    ensures Ascii(Parse(ts).v.s)
  {
    hide Parse;
    StringFirst(ts);
    assert ts[0].TStr? && ts[0 + 1].Colon?;
  }

  /** `parse_json` */
  method ParseJson(data: string, tokens: seq<RawToken>) returns (r: Option<Json>, passed: nat)
    requires AsciiKeys(Views(data, tokens))
    ensures Agrees(r, passed, Parse(Views(data, tokens)))
    decreases |tokens|, 0
  {
    hide ParseElems, ParseMembers, AsciiKeys, Put;
    if |tokens| == 0 {
      return None, 0;
    }
    assert Views(data, tokens)[0] == View(data, tokens[0]);
    match tokens[0].kind
    case KindNull => return Some(Null), 1;
    case KindFalse => return Some(Bool(false)), 1;
    case KindTrue => return Some(Bool(true)), 1;
    case KindInt => return Some(Int(TokenInt(View(data, tokens[0]).digits))), 1;
    case KindString => return Some(Str(View(data, tokens[0]).s)), 1;
    case KindLeftBracket =>
      ViewsFrom(data, tokens, 1);
      if |tokens| > 1 && tokens[1].kind == KindRightBracket {
        return Some(Arr([])), 2;
      }
      r, passed := ParseArray(data, tokens[1..]);
    case KindLeftBrace =>
      ViewsFrom(data, tokens, 1);
      r, passed := ParseObject(data, tokens[1..]);
    case _ => return None, 0;
  }

  /** The loop of the J_T_LEFT_BRACKET case, past the bracket. */
  method ParseArray(data: string, tokens: seq<RawToken>) returns (r: Option<Json>, passed: nat)
    requires AsciiKeys(Views(data, tokens))
    ensures Agrees(r, passed, After(ParseElems(Views(data, tokens), []), 1))
    decreases |tokens|, 1
  {
    hide Views, Parse, Vector.Valid, Vector.Sizes, AsciiKeys;
    var array_ := new Vector<Json>();
    var rest := tokens;
    passed := 1;
    while true
      invariant array_.Valid() && fresh(array_) && fresh(array_.data)
      invariant |rest| <= |tokens| && AsciiKeys(Views(data, rest))
      invariant After(ParseElems(Views(data, rest), array_.Contents()), passed) ==
                After(ParseElems(Views(data, tokens), []), 1)
      decreases |rest|
    {
      ghost var ts, acc := Views(data, rest), array_.Contents();
      var element, n := ParseJson(data, rest);
      if element.None? {
        return None, 0;
      }
      array_.Append(element.value);
      ViewsFrom(data, rest, n);
      rest, passed := rest[n..], passed + n;
      if |rest| == 0 {
        return None, 0;
      }
      assert ts[n] == View(data, rest[0]);
      if rest[0].kind == KindComma {
        ElemThenComma(ts, n, acc, element.value);
        ViewsFrom(data, rest, 1);
        rest, passed := rest[1..], passed + 1;
      } else if rest[0].kind == KindRightBracket {
        ElemThenBracket(ts, n, acc, element.value);
        var elements := array_.ToSeq();
        return Some(Arr(elements)), passed + 1;
      } else {
        return None, 0;
      }
    }
  }

  /** What reading one member returned agrees with p. */
  ghost predicate MemberAgrees(r: Option<Pair<Json>>, passed: nat, p: ParsedMember) {
    match p
    case NoMember => r == None
    case Member(e, n) => r == Some(e) && passed == n
  }

  /** One turn's property, colon and value. */
  method ParseProperty(data: string, tokens: seq<RawToken>) returns (r: Option<Pair<Json>>, passed: nat)
    requires AsciiKeys(Views(data, tokens))
    ensures MemberAgrees(r, passed, ParseMember(Views(data, tokens)))
    ensures r.Some? ==> Ascii(r.value.key)
    decreases |tokens|, 1
  {
    var property, k := ParseJson(data, tokens);
    if property.None? {
      return None, 0;
    }
    if !property.value.Str? {
      return None, 0;
    }
    ViewsFrom(data, tokens, k);
    var rest := tokens[k..];
    if |rest| == 0 {
      return None, 0;
    }
    assert Views(data, tokens)[k] == View(data, rest[0]);
    if rest[0].kind != KindColon {
      return None, 0;
    }
    KeyIsAscii(Views(data, tokens));
    ViewsFrom(data, tokens, k + 1);
    var value, n := ParseJson(data, tokens[k + 1..]);
    if value.None? {
      return None, 0;
    }
    return Some(Pair(property.value.s, value.value)), k + 1 + n;
  }

  /** The loop of the J_T_LEFT_BRACE case, past the brace. */
  method ParseObject(data: string, tokens: seq<RawToken>) returns (r: Option<Json>, passed: nat)
    requires AsciiKeys(Views(data, tokens))
    ensures Agrees(r, passed, After(ParseMembers(Views(data, tokens), []), 1))
    decreases |tokens|, 2
  {
    hide Put, Enumerate, Tables.Valid, HashMap.Shape, Views, ParseMember, AsciiKeys;
    var object_ := new HashMap<Json>();
    EnumerateEmpty<Json>();
    var rest := tokens;
    passed := 1;
    while true
      invariant object_.Valid() && fresh(object_.Repr)
      invariant |rest| <= |tokens| && AsciiKeys(Views(data, rest))
      invariant After(ParseMembers(Views(data, rest), object_.Elements()), passed) ==
                After(ParseMembers(Views(data, tokens), []), 1)
      decreases |rest|
    {
      ghost var ts, acc := Views(data, rest), object_.Elements();
      var member, n := ParseProperty(data, rest);
      if member.None? {
        return None, 0;
      }
      object_.Add(member.value);
      ViewsFrom(data, rest, n);
      rest, passed := rest[n..], passed + n;
      if |rest| == 0 {
        return None, 0;
      }
      assert ts[n] == View(data, rest[0]);
      if rest[0].kind == KindComma {
        MemberThenComma(ts, n, acc, member.value);
        ViewsFrom(data, rest, 1);
        rest, passed := rest[1..], passed + 1;
      } else if rest[0].kind == KindRightBrace {
        MemberThenBrace(ts, n, acc, member.value);
        var entries := object_.GetEntries();
        return Some(Obj(entries)), passed + 1;
      } else {
        return None, 0;
      }
    }
  }

  /** `deserialize_json`: the tokenizer's verdict is ignored, and the tokens
      found so far are parsed. */
  method DeserializeJson(data: string) returns (r: Option<Json>)
    requires AsciiKeys(Lex(data).tokens) && |data| <= OUTPUT_BUFFER_SIZE
    ensures r == Deserialize(data)
  {
    var tokens := new RawToken[OUTPUT_BUFFER_SIZE](_ => RawToken(0, 0, KindNull));
    var code, cnt := Tokenize(data, tokens);
    var passed;
    r, passed := ParseJson(data, tokens[..cnt]);
  }
}
