/** JSON values and their printed text. An object is carried as the enumeration
    of its hash table (bucket by bucket, chain by chain), which by
    Tables.LayoutOfEnumeration fixes every chain. */
module JsonValues {
  import opened Hashing
  import opened Options
  import opened Tables

  /** Size of the printed text's buffer and of the token array. */
  const OUTPUT_BUFFER_SIZE: nat := 102400

  datatype Json =
    | Null
    | Bool(b: bool)
    | Int(n: int)
    | Str(s: string)
    | Arr(elems: seq<Json>)
    | Obj(members: seq<Pair<Json>>)

  /** What a `json_t` can hold: C ints, and objects that are tables. */
  ghost predicate WellFormed(v: Json) {
    match v
    case Int(n) => -INT_MAX - 1 <= n <= INT_MAX
    case Arr(xs) => forall i | 0 <= i < |xs| :: WellFormed(xs[i])
    case Obj(ms) => Canonical(ms) && forall i | 0 <= i < |ms| :: WellFormed(ms[i].val)
    case _ => true
  }

  // ----- Properties

  /** `json_get_property` */
  function Property(v: Json, key: string): Option<Json> {
    if v.Obj? then Get(v.members, key) else None
  }

  /** `json_set_property` */
  function WithProperty(v: Json, key: string, val: Json): Json {
    if v.Obj? then Obj(Put(v.members, Pair(key, val))) else v
  }

  /** Setting a property of an object: it reads back, others keep their value,
      and the result is again a table. Anything else has no properties and takes
      none. */
  lemma {:induction false} SetThenGet(v: Json, key: string, val: Json, k: string)
    requires v.Obj? ==> Canonical(v.members)
    ensures v.Obj? ==> WithProperty(v, key, val).Obj? && Canonical(WithProperty(v, key, val).members)
    ensures v.Obj? ==> Property(WithProperty(v, key, val), k) == if k == key then Some(val) else Property(v, k)
    ensures !v.Obj? ==> WithProperty(v, key, val) == v && Property(v, k) == None
  {
    if !v.Obj? {
      return;
    }
    var b := Layout(v.members);
    EnumerationOfLayout(v.members);
    PutCanonical(v.members, Pair(key, val));
    FullScanIsBucketScan(b, k);
    FullScanIsBucketScan(Add(b, Pair(key, val)), k);
    ChainAddGet(b[Hash(key)], Pair(key, val), k);
  }

  // ----- Numbers

  function DigitChar(d: nat): (c: char)
    requires d < 10
    ensures '0' <= c <= '9' && c == "0123456789"[d]
  {
    ('0' as int + d) as char
  }

  predicate IsDigit(c: char) {
    '0' <= c <= '9'
  }

  function DigitValue(c: char): (d: nat)
    requires IsDigit(c)
    ensures d < 10 && "0123456789"[d] == c
  {
    c as int - '0' as int
  }

  function Digits(n: nat): (s: string)
    ensures |s| > 0 && forall i | 0 <= i < |s| :: IsDigit(s[i])
  {
    if n < 10 then [DigitChar(n)] else Digits(n / 10) + [DigitChar(n % 10)]
  }

  function DecimalValue(s: string): nat
    requires forall i | 0 <= i < |s| :: IsDigit(s[i])
  {
    if s == [] then 0
    else DecimalValue(s[..|s| - 1]) * 10 + DigitValue(s[|s| - 1])
  }

  lemma {:induction false} DigitsValue(n: nat)
    ensures DecimalValue(Digits(n)) == n
  {
    var s := Digits(n);
    if n >= 10 {
      DigitsValue(n / 10);
      assert s[..|s| - 1] == Digits(n / 10);
    } else {
      assert s[..|s| - 1] == [];
      assert DecimalValue(s) == 0 * 10 + DigitValue(s[0]);
    }
  }

  /** One more digit: ten times the value, and the digit. */
  lemma {:induction false} DecimalSnoc(s: string, d: nat)
    requires (forall i | 0 <= i < |s| :: IsDigit(s[i])) && d < 10
    ensures IsDigit("0123456789"[d]) && DecimalValue("") == 0
    ensures DecimalValue(s + ["0123456789"[d]]) == 10 * DecimalValue(s) + d
  {
    var t := s + [DigitChar(d)];
    assert t[..|t| - 1] == s && t[|t| - 1] == DigitChar(d);
    assert DigitValue(DigitChar(d)) == d;
  }

  lemma {:induction false} DigitsSnoc(v: nat, c: char)
    requires v > 0 && IsDigit(c)
    ensures Digits(10 * v + DigitValue(c)) == Digits(v) + [c]
  {
    assert (10 * v + DigitValue(c)) / 10 == v && (10 * v + DigitValue(c)) % 10 == DigitValue(c);
    assert DigitChar(DigitValue(c)) == c;
  }

  /** A text of digits that does not begin with a zero is that of its number. */
  lemma {:induction false} DigitsOfValue(s: string)
    requires s != "" && (forall i | 0 <= i < |s| :: IsDigit(s[i])) && s[0] != '0'
    ensures DecimalValue(s) > 0 && s == Digits(DecimalValue(s))
    decreases |s|
  {
    hide Digits;
    var init, c := s[..|s| - 1], s[|s| - 1];
    assert s == init + [c];
    if init == "" {
      OneDigit(c);
    } else {
      DigitsOfValue(init);
      DigitsSnoc(DecimalValue(init), c);
    }
  }

  lemma {:induction false} OneDigit(c: char)
    requires IsDigit(c)
    ensures DecimalValue([c]) == DigitValue(c) && Digits(DigitValue(c)) == [c]
  {
    assert [c][..0] == "" && DigitChar(DigitValue(c)) == c;
  }

  lemma {:induction false} NoLeadingZero(n: nat)
    ensures |Digits(n)| > 1 ==> Digits(n)[0] != '0'
    ensures |Digits(n)| == 1 <==> n < 10
  {
    if n >= 10 {
      NoLeadingZero(n / 10);
    }
  }

  const LONG_MAX: int := 0x7FFF_FFFF_FFFF_FFFF

  /** The cast of a long that is not negative to int. */
  function LowWord(n: nat): (r: int)
    ensures -INT_MAX - 1 <= r <= INT_MAX && (n <= INT_MAX ==> r == n)
    ensures (n - r) % 0x1_0000_0000 == 0
  {
    var m := n % 0x1_0000_0000;
    if m <= INT_MAX then m else m - 0x1_0000_0000
  }

  /** `(int) strtol(s, NULL, 10)` on digits: the long saturates, the cast keeps
      the low 32 bits. */
  function ToInt(s: string): (n: int)
    requires forall i | 0 <= i < |s| :: IsDigit(s[i])
    ensures -INT_MAX - 1 <= n <= INT_MAX
    ensures DecimalValue(s) <= INT_MAX ==> n == DecimalValue(s)
    ensures DecimalValue(s) <= LONG_MAX ==> (DecimalValue(s) - n) % 0x1_0000_0000 == 0
    ensures DecimalValue(s) >= LONG_MAX ==> n == -1
  {
    LowWord(if DecimalValue(s) <= LONG_MAX then DecimalValue(s) else LONG_MAX)
  }

  // ----- Printing

  function PrintInt(n: int): string {
    if n < 0 then "-" + Digits(-n) else Digits(n)
  }

  /** Decimal digits that denote m, with no needless zero in front. */
  ghost predicate IsNumeral(s: string, m: nat) {
    && s != "" && (forall i | 0 <= i < |s| :: '0' <= s[i] <= '9')
    && (|s| > 1 ==> s[0] != '0')
    && DecimalValue(s) == m
  }

  /** What `%d` stands for: a minus sign if n is negative, and its magnitude. */
  ghost predicate IsDecimal(text: string, n: int) {
    if n < 0 then text != "" && text[0] == '-' && IsNumeral(text[1..], -n) else IsNumeral(text, n)
  }

  lemma {:induction false} NumeralIff(s: string, m: nat)
    ensures s == Digits(m) <==> IsNumeral(s, m)
  {
    hide Digits, DecimalValue;
    DigitsValue(m);
    NoLeadingZero(m);
    if IsNumeral(s, m) {
      if s[0] != '0' {
        DigitsOfValue(s);
      } else {
        OneDigit(s[0]);
        assert s == [s[0]];
      }
    }
  }

  /** The text of an integer is its decimal notation, and there is no other. */
  lemma {:induction false} IntTextIff(text: string, n: int)
    ensures text == PrintInt(n) <==> IsDecimal(text, n)
  {
    hide Digits, IsNumeral;
    if n < 0 {
      assert ("-" + Digits(-n))[1..] == Digits(-n);
      assert text != "" && text[0] == '-' ==> text == "-" + text[1..];
      NumeralIff(Digits(-n), -n);
      if text != "" {
        NumeralIff(text[1..], -n);
      }
    } else {
      NumeralIff(text, n);
    }
  }

  function Quoted(s: string): string {
    "\"" + s + "\""
  }

  /** The text of a value. */
  function Print(v: Json): string {
    match v
    case Null => "null"
    case Bool(b) => if b then "true" else "false"
    case Int(n) => PrintInt(n)
    case Str(s) => Quoted(s)
    case Arr(xs) => "[" + PrintElems(xs) + "]"
    case Obj(ms) => "{" + PrintMembers(ms) + "}"
  }

  /** Elements with commas between them. */
  function PrintElems(xs: seq<Json>): string {
    if xs == [] then ""
    else if |xs| == 1 then Print(xs[0])
    else Print(xs[0]) + "," + PrintElems(xs[1..])
  }

  function PrintMember(m: Pair<Json>): string {
    Quoted(m.key) + ":" + Print(m.val)
  }

  function PrintMembers(ms: seq<Pair<Json>>): string {
    if ms == [] then ""
    else if |ms| == 1 then PrintMember(ms[0])
    else PrintMember(ms[0]) + "," + PrintMembers(ms[1..])
  }

  // ----- The text, part by part

  /** The parts with a comma between each two. */
  function Commas(parts: seq<string>): string {
    if parts == [] then ""
    else if |parts| == 1 then parts[0]
    else Commas(parts[..|parts| - 1]) + "," + parts[|parts| - 1]
  }

  lemma {:induction false} CommasCons(first: string, more: seq<string>)
    requires more != []
    ensures Commas([first] + more) == first + "," + Commas(more)
    decreases |more|
  {
    var all, init := [first] + more, more[..|more| - 1];
    assert all[..|all| - 1] == [first] + init;
    if init == [] {
      assert more == [more[0]];
      assert all[..1] == [first];
    } else {
      CommasCons(first, init);
    }
  }

  function ElemTexts(xs: seq<Json>): (texts: seq<string>)
    ensures |texts| == |xs| && forall i | 0 <= i < |xs| :: texts[i] == Print(xs[i])
  {
    seq(|xs|, i requires 0 <= i < |xs| => Print(xs[i]))
  }

  /** A member is its name in quotes, a colon, and the text of its value. */
  function MemberTexts(ms: seq<Pair<Json>>): (texts: seq<string>)
    ensures |texts| == |ms|
    ensures forall i | 0 <= i < |ms| :: texts[i] == "\"" + ms[i].key + "\":" + Print(ms[i].val)
  {
    seq(|ms|, i requires 0 <= i < |ms| => "\"" + ms[i].key + "\":" + Print(ms[i].val))
  }

  lemma {:induction false} ElemsText(xs: seq<Json>)
    ensures PrintElems(xs) == Commas(ElemTexts(xs))
  {
    hide Print;
    if |xs| > 1 {
      ElemsText(xs[1..]);
      assert ElemTexts(xs) == [Print(xs[0])] + ElemTexts(xs[1..]);
      CommasCons(Print(xs[0]), ElemTexts(xs[1..]));
    }
  }

  lemma {:induction false} MemberText(m: Pair<Json>)
    ensures PrintMember(m) == "\"" + m.key + "\":" + Print(m.val)
  {
  }

  lemma {:induction false} MembersText(ms: seq<Pair<Json>>)
    ensures PrintMembers(ms) == Commas(MemberTexts(ms))
  {
    hide Print, PrintMember;
    if ms != [] {
      MemberText(ms[0]);
    }
    if |ms| > 1 {
      MembersText(ms[1..]);
      assert MemberTexts(ms) == [PrintMember(ms[0])] + MemberTexts(ms[1..]);
      CommasCons(PrintMember(ms[0]), MemberTexts(ms[1..]));
    }
  }

  /** The text of every kind of value. */
  lemma {:induction false} TextOf(v: Json)
    ensures match v
            case Null => Print(v) == "null"
            case Bool(b) => Print(v) == if b then "true" else "false"
            case Int(n) => IsDecimal(Print(v), n)
            case Str(s) => Print(v) == "\"" + s + "\""
            case Arr(xs) => Print(v) == "[" + Commas(ElemTexts(xs)) + "]"
            case Obj(ms) => Print(v) == "{" + Commas(MemberTexts(ms)) + "}"
  {
    match v
    case Int(n) => IntTextIff(Print(v), n);
    case Arr(xs) => ElemsText(xs);
    case Obj(ms) => MembersText(ms);
    case _ =>
  }

  // ----- Which values survive printing

  /** The look-back rule: a quote at j is not taken as closing when a single
      backslash, not itself after a backslash, stands before it. */
  predicate Blocked(s: string, j: nat)
    requires j <= |s|
  {
    j >= 1 && s[j - 1] == '\\' && !(j >= 2 && s[j - 2] == '\\')
  }

  /** The scan of `"s"` stops at its last quote and no earlier. */
  predicate QuoteOk(s: string) {
    && !Blocked(s, |s|)
    && (forall j | 0 <= j < |s| :: s[j] == '"' ==> Blocked(s, j))
  }

  /** No empty object, and only strings that the closing-quote scan accepts. */
  ghost predicate Clean(v: Json) {
    match v
    case Str(s) => QuoteOk(s)
    case Arr(xs) => forall i | 0 <= i < |xs| :: Clean(xs[i])
    case Obj(ms) => ms != [] && forall i | 0 <= i < |ms| :: QuoteOk(ms[i].key) && Clean(ms[i].val)
    case _ => true
  }

  /** No negative integer anywhere. */
  ghost predicate NonNegative(v: Json) {
    match v
    case Int(n) => n >= 0
    case Arr(xs) => forall i | 0 <= i < |xs| :: NonNegative(xs[i])
    case Obj(ms) => forall i | 0 <= i < |ms| :: NonNegative(ms[i].val)
    case _ => true
  }

  ghost predicate Printable(v: Json) {
    WellFormed(v) && Clean(v) && NonNegative(v)
  }
}
