/** Sending a file word by word: the server answers every message of the client
    with the next word, the client every word with a request for one more. */
module FileTransfer {
  import opened Options
  import opened Tables
  import opened JsonValues
  import JsonLexer
  import opened JsonGrammar
  import opened JsonRoundTrip
  import opened JsonReader
  import opened Framing
  import opened Requests

  // ----- Words

  /** `isspace` in the C locale. */
  predicate IsSpace(c: char) {
    c == ' ' || '\t' <= c <= '\r'
  }

  predicate IsWord(w: string) {
    w != "" && forall i | 0 <= i < |w| :: !IsSpace(w[i])
  }

  /** How much of s stands before its first white space. */
  function WordLength(s: string): (k: nat)
    ensures k <= |s| && (forall i | 0 <= i < k :: !IsSpace(s[i])) && (k < |s| ==> IsSpace(s[k]))
  {
    if s == "" || IsSpace(s[0]) then 0 else 1 + WordLength(s[1..])
  }

  /** The words of a text: its longest runs without white space. */
  function Words(s: string): (ws: seq<string>)
    ensures forall w | w in ws :: IsWord(w)
    decreases |s|
  {
    if s == "" then []
    else if IsSpace(s[0]) then Words(s[1..])
    else var k := WordLength(s); [s[..k]] + Words(s[k..])
  }

  /** What `fprintf(f, "%s ", ...)` leaves behind. */
  function Spaced(ws: seq<string>): string {
    if ws == [] then "" else Spaced(ws[..|ws| - 1]) + ws[|ws| - 1] + " "
  }

  predicate EndsInSpace(s: string) {
    s == "" || IsSpace(s[|s| - 1])
  }

  lemma {:induction false} SkippedSpace(s: string, i: nat)
    requires i < |s| && IsSpace(s[i])
    ensures Words(s[i..]) == Words(s[i + 1..])
  {
    assert s[i..][1..] == s[i + 1..];
  }

  lemma {:induction false} FirstWord(s: string, i: nat, j: nat)
    requires i <= j <= |s| && (forall k | i <= k < j :: !IsSpace(s[k])) && (j < |s| ==> IsSpace(s[j]))
    ensures i < j ==> Words(s[i..]) == [s[i..j]] + Words(s[j..])
  {
    assert s[i..][..j - i] == s[i..j] && s[i..][j - i..] == s[j..];
  }

  /** After a space a new word begins. */
  lemma {:induction false} WordsConcat(a: string, b: string)
    requires EndsInSpace(a)
    ensures Words(a + b) == Words(a) + Words(b)
    decreases |a|
  {
    hide Words, WordLength;
    if a == "" {
      NoWords();
      assert a + b == b;
    } else if IsSpace(a[0]) {
      SkippedSpace(a, 0);
      SkippedSpace(a + b, 0);
      assert (a + b)[1..] == a[1..] + b && a[0..] == a && (a + b)[0..] == a + b;
      WordsConcat(a[1..], b);
    } else {
      var k := WordLength(a);
      FirstWordOf(a, b, k);
      WordsConcat(a[k..], b);
    }
  }

  lemma {:induction false} FirstWordOf(a: string, b: string, k: nat)
    requires EndsInSpace(a) && a != "" && !IsSpace(a[0]) && k == WordLength(a)
    ensures 0 < k < |a| && Words(a) == [a[..k]] + Words(a[k..])
    ensures Words(a + b) == [a[..k]] + Words(a[k..] + b)
  {
    hide Words;
    FirstWord(a, 0, k);
    assert (a + b)[k] == a[k];
    FirstWord(a + b, 0, k);
    assert (a + b)[k..] == a[k..] + b && (a + b)[0..k] == a[..k] == a[0..k];
    assert a[0..] == a && (a + b)[0..] == a + b;
  }

  lemma {:induction false} WordsOfOne(w: string)
    requires IsWord(w)
    ensures Words(w + " ") == [w]
  {
    var s := w + " ";
    assert s[..|w|] == w && s[|w|..] == " ";
    assert Words(" ") == Words(" "[1..]);
  }

  lemma {:induction false} OneMoreWord(s: string, w: string)
    requires EndsInSpace(s) && IsWord(w)
    ensures Words(s + w + " ") == Words(s) + [w]
  {
    assert s + w + " " == s + (w + " ");
    WordsConcat(s, w + " ");
    WordsOfOne(w);
  }

  lemma {:induction false} NoWords()
    ensures Words("") == []
  {
  }

  /** Written words are read back. */
  lemma {:induction false} WordsOfSpaced(ws: seq<string>)
    requires forall w | w in ws :: IsWord(w)
    ensures Words(Spaced(ws)) == ws && EndsInSpace(Spaced(ws))
    decreases |ws|
  {
    hide Words;
    if ws == [] {
      NoWords();
    } else {
      var init, w := ws[..|ws| - 1], ws[|ws| - 1];
      assert w in ws;
      WordsOfSpaced(init);
      OneMoreWord(Spaced(init), w);
      assert Spaced(ws) == Spaced(init) + w + " ";
      assert ws == init + [w];
    }
  }

  lemma {:induction false} TrailingSpace(a: string, c: char)
    requires IsSpace(c)
    ensures Words(a + [c]) == Words(a)
    decreases |a|
  {
    var s := a + [c];
    if a == "" {
      assert s[1..] == "";
    } else if IsSpace(a[0]) {
      assert s[1..] == a[1..] + [c];
      TrailingSpace(a[1..], c);
    } else {
      var k := WordLength(a);
      assert s[k] == if k < |a| then a[k] else c;
      FirstWord(s, 0, k);
      FirstWord(a, 0, k);
      assert s[0..] == s && a[0..] == a && s[0..k] == a[0..k] && s[k..] == a[k..] + [c];
      TrailingSpace(a[k..], c);
    }
  }

  /** Words end at each of the six white-space characters; 11 and 12 are the
      vertical tab and the form feed. */
  lemma {:induction false} WordsSplit(a: string, c: char, b: string)
    requires c == ' ' || c == '\t' || c == '\n' || c as int == 11 || c as int == 12 || c == '\r'
    ensures Words(a + [c] + b) == Words(a) + Words(b)
  {
    hide Words;
    WordsConcat(a + [c], b);
    TrailingSpace(a, c);
  }

  /** And at no other: a text that is not empty is one word, itself, exactly when
      it has none of the six. */
  lemma {:induction false} OneWordIff(s: string)
    ensures Words(s) == [s] <==> s != "" && forall c | c in s ::
              c != ' ' && c != '\t' && c != '\n' && c as int != 11 && c as int != 12 && c != '\r'
  {
    if Words(s) == [s] {
      assert s in Words(s);
    }
    if s != "" && forall c | c in s ::
         c != ' ' && c != '\t' && c != '\n' && c as int != 11 && c as int != 12 && c != '\r'
    {
      forall i | 0 <= i < |s| ensures !IsSpace(s[i]) {
        assert s[i] in s;
      }
      FirstWord(s, 0, |s|);
      NoWords();
      assert s[0..] == s && s[0..|s|] == s && s[|s|..] == "";
    }
  }

  // ----- Messages

  /** The name and port that go with every message, and its method. */
  datatype Server = Server(name: string, port: nat, what: string)

  /** Names the quote scan accepts, and a port. */
  predicate Sendable(server: Server) {
    QuoteOk(server.name) && server.port < 0x1_0000 && QuoteOk(server.what)
  }

  function NextWordPayload(w: string): Json {
    ObjectOf([Pair("next_word", Str(w))])
  }

  function EndPayload(): Json {
    ObjectOf([Pair("end_of_transmission", Bool(true))])
  }

  /** The text of a message with this payload. */
  function Message(server: Server, payload: Json): string {
    Print(Request(server.name, server.port, server.what, payload))
  }

  /** What `handle_file_download` finds in the data it received. */
  function NextWord(data: string): Option<string> {
    var word_response := Deserialize(data);
    if word_response.None? then None
    else
      var body := Property(word_response.value, "body");
      if body.None? then None
      else
        var next := Property(body.value, "next_word");
        if next.Some? && next.value.Str? then Some(next.value.s) else None
  }

  lemma {:induction false} PayloadFields(w: string)
    ensures Property(NextWordPayload(w), "next_word") == Some(Str(w))
    ensures Property(EndPayload(), "next_word") == None
    ensures Property(EndPayload(), "end_of_transmission") == Some(Bool(true))
    ensures QuoteOk(w) ==> Printable(NextWordPayload(w))
    ensures Printable(EndPayload())
  {
    hide PutAll, ObjectOf, Printable, Property;
    var next, end := [Pair("next_word", Str(w))], [Pair("end_of_transmission", Bool(true))];
    PropertyReadsBack(next, "next_word");
    assert "end_of_transmission"[0] != "next_word"[0];
    assert LastSet(end[..0], "next_word") == None;
    PropertyReadsBack(end, "next_word");
    PropertyReadsBack(end, "end_of_transmission");
    PlainKey("next_word");
    PlainKey("end_of_transmission");
    assert Printable(Bool(true)) by { PrintableLeaf(w); }
    ObjectIsPrintable(end);
    if QuoteOk(w) {
      PrintableLeaf(w);
      ObjectIsPrintable(next);
    }
  }

  lemma {:induction false} PrintableLeaf(w: string)
    ensures Printable(Bool(true)) && (QuoteOk(w) ==> Printable(Str(w)))
  {
  }

  lemma {:induction false} MessageReads(server: Server, payload: Json)
    requires Sendable(server) && Printable(payload)
    ensures Deserialize(Message(server, payload)) == Some(Request(server.name, server.port, server.what, payload))
    ensures Property(Request(server.name, server.port, server.what, payload), "body") == Some(payload)
  {
    hide Request, Deserialize, Print, Printable, Property;
    RequestFields(server.name, server.port, server.what, payload);
    PrintThenParse(Request(server.name, server.port, server.what, payload));
  }

  lemma {:induction false} EndHasNoWord(server: Server)
    requires Sendable(server)
    ensures NextWord(Message(server, EndPayload())) == None
  {
    hide Request, Deserialize, Print, Printable, Property, EndPayload;
    PayloadFields("");
    MessageReads(server, EndPayload());
  }

  lemma {:induction false} PropertyClean(v: Json, key: string)
    requires Clean(v) && Property(v, key).Some?
    ensures Clean(Property(v, key).value)
  {
    var i := Position(v.members, key);
    assert v.members[i].key == key;
  }

  /** Only words that the quote scan accepts come out of a message at all. */
  lemma {:induction false} FoundWordIsClean(data: string)
    requires NextWord(data).Some?
    ensures QuoteOk(NextWord(data).value)
  {
    hide Deserialize, Property;
    var v := Deserialize(data).value;
    ParsedIsClean(data);
    PropertyClean(v, "body");
    PropertyClean(Property(v, "body").value, "next_word");
  }

  /** A word survives its message if and only if the quote scan accepts it. */
  lemma {:induction false} WordSurvivesIff(server: Server, w: string)
    requires Sendable(server)
    ensures NextWord(Message(server, NextWordPayload(w))) == Some(w) <==> QuoteOk(w)
  {
    var data := Message(server, NextWordPayload(w));
    hide Deserialize, Print, Printable, Property, NextWordPayload, Message, Request, QuoteOk;
    if QuoteOk(w) {
      PayloadFields(w);
      MessageReads(server, NextWordPayload(w));
    } else if NextWord(data).Some? {
      FoundWordIsClean(data);
    }
  }

  /** The word `"` is lost on the way. */
  lemma {:induction false} QuoteIsLost(server: Server)
    requires Sendable(server)
    ensures IsWord("\"") && NextWord(Message(server, NextWordPayload("\""))) != Some("\"")
  {
    hide NextWord, Message, NextWordPayload, Sendable;
    assert "\""[0] == '"' && !Blocked("\"", 0);
    WordSurvivesIff(server, "\"");
  }

  const BEGIN: Json := Str("begin_file_response")

  /** The comparison in `begin_file_download`. */
  predicate Accepted(data: string) {
    Deserialize(data).Some? && Property(Deserialize(data).value, "body") == Some(BEGIN)
  }

  /** The client begins on the server's first message, and on no other body. */
  lemma {:induction false} BeginIsAccepted(server: Server, payload: Json)
    requires Sendable(server)
    ensures BEGIN == Str("begin_file_response") && Printable(BEGIN)
    ensures Printable(payload) ==> (Accepted(Message(server, payload)) <==> payload == BEGIN)
  {
    hide Request, Deserialize, Print, Property;
    assert Printable(BEGIN) by {
      PlainKey("begin_file_response");
      PrintableLeaf("begin_file_response");
    }
    hide Printable;
    if Printable(payload) {
      MessageReads(server, payload);
    }
  }

  // ----- The two parties

  /** A message to the client, by what it is for. */
  datatype Msg = Beginning | Next(w: string) | End

  /** Its payload. */
  function Payload(m: Msg): Json {
    match m
    case Beginning => BEGIN
    case Next(w) => NextWordPayload(w)
    case End => EndPayload()
  }

  /** What the client finds in a message. */
  type Finder = Msg -> Option<string>

  /** The client reads the words out of JSON texts. */
  ghost predicate ReadsTexts(found: Finder, server: Server) {
    Sendable(server) && forall m {:trigger Payload(m)} :: found(m) == NextWord(Message(server, Payload(m)))
  }

  datatype Side = Asked | Open | Closed

  /** `rest` are the words not read yet; `got` what was handed to `fprintf`. */
  datatype Transfer = Transfer(
    rest: seq<string>,
    serving: bool,
    side: Side,
    toServer: seq<string>,
    toClient: seq<Msg>,
    got: seq<string>,
    out: string,
    broken: bool)

  datatype Step =
    | Begin   // the rest of begin_file_download, once it is answered
    | Serve   // handle_file_upload
    | Read    // handle_file_download
    | Break   // the connection is lost

  /** After `begin_file_upload`. */
  function Start(text: string): Transfer {
    Transfer(Words(text), true, Asked, [], [Beginning], [], "", false)
  }

  predicate Enabled(t: Transfer, step: Step) {
    !t.broken &&
    match step
    case Begin => t.side.Asked? && t.toClient != []
    case Serve => t.serving && t.toServer != []
    case Read => t.side.Open? && t.toClient != []
    case Break => true
  }

  function Do(t: Transfer, step: Step, found: Finder): Transfer
    requires Enabled(t, step)
  {
    match step
    case Begin => t.(side := Open, toClient := t.toClient[1..], toServer := t.toServer + ["begin_transfer"])
    case Serve =>
      t.(serving := t.rest != [], rest := if t.rest == [] then [] else t.rest[1..],
         toServer := t.toServer[1..], toClient := t.toClient + [if t.rest == [] then End else Next(t.rest[0])])
    case Read =>
      match found(t.toClient[0]) {
        case Some(w) =>
          t.(got := t.got + [w], out := t.out + w + " ",
             toClient := t.toClient[1..], toServer := t.toServer + ["give_next_word"])
        case None => t.(side := Closed, toClient := t.toClient[1..])
      }
    case Break => t.(broken := true)
  }

  // ----- What every step keeps, whatever the client finds in the words' messages

  /** The message on its way is the one that the two parties' progress calls for. */
  ghost predicate InFlight(t: Transfer, n: nat, words: seq<string>, found: Finder)
    requires n <= |words|
  {
    match t.side
    case Asked => n == 0 && t.got == [] && t.serving && t.toServer == [] && t.toClient == [Beginning]
    case Open =>
      if t.toServer != []
      then && t.toServer == [if n == 0 then "begin_transfer" else "give_next_word"]
           && t.toClient == [] && t.serving && |t.got| == n
      else if t.serving then n > 0 && |t.got| == n - 1 && t.toClient == [Next(words[n - 1])]
      else n == |words| == |t.got| && t.toClient == [End]
    case Closed =>
      && t.toServer == [] && t.toClient == []
      && if t.serving then n > 0 && |t.got| == n - 1 && found(Next(words[n - 1])) == None
         else n == |words| == |t.got|
  }

  ghost predicate Inv(t: Transfer, words: seq<string>, found: Finder) {
    && |t.rest| <= |words| && t.rest == words[|words| - |t.rest|..]
    && |t.got| <= |words| - |t.rest|
    && InFlight(t, |words| - |t.rest|, words, found)
    && (forall i | 0 <= i < |t.got| :: found(Next(words[i])) == Some(t.got[i]))
    && t.out == Spaced(t.got)
  }

  lemma {:induction false} SpacedSnoc(ws: seq<string>, w: string)
    ensures Spaced(ws + [w]) == Spaced(ws) + w + " "
  {
    assert (ws + [w])[..|ws|] == ws;
  }

  /** Every step keeps the two parties in lock step. */
  lemma {:induction false} StepKeepsInv(t: Transfer, step: Step, words: seq<string>, found: Finder)
    requires Inv(t, words, found) && Enabled(t, step) && found(End) == None
    ensures Inv(Do(t, step, found), words, found)
  {
    hide Spaced;
    if step.Read? && found(t.toClient[0]).Some? {
      SpacedSnoc(t.got, found(t.toClient[0]).value);
    }
  }

  // ----- Runs

  ghost predicate Enables(t: Transfer, steps: seq<Step>, found: Finder)
    decreases |steps|, 0
  {
    steps == [] ||
    var k := |steps| - 1;
    Enables(t, steps[..k], found) && Enabled(Run(t, steps[..k], found), steps[k])
  }

  function Run(t: Transfer, steps: seq<Step>, found: Finder): Transfer
    requires Enables(t, steps, found)
    decreases |steps|, 1
  {
    if steps == [] then t
    else var k := |steps| - 1; Do(Run(t, steps[..k], found), steps[k], found)
  }

  lemma {:induction false} InvInEveryRun(text: string, steps: seq<Step>, found: Finder)
    requires Enables(Start(text), steps, found) && found(End) == None
    ensures Inv(Run(Start(text), steps, found), Words(text), found)
    decreases |steps|
  {
    hide Words, Do, Enabled;
    var t := Start(text);
    if steps != [] {
      var k := |steps| - 1;
      InvInEveryRun(text, steps[..k], found);
      hide Inv;
      StepKeepsInv(Run(t, steps[..k], found), steps[k], Words(text), found);
    }
  }

  /** Both have stopped: the server after the last word, the client after the end. */
  predicate Complete(t: Transfer) {
    !t.serving && t.side.Closed?
  }

  lemma {:induction false} GotIsPrefixIff(t: Transfer, words: seq<string>, found: Finder)
    requires Inv(t, words, found)
    ensures |t.toServer| + |t.toClient| <= 1 && |t.got| <= |words| && t.out == Spaced(t.got)
    ensures t.got <= words <==> forall i | 0 <= i < |t.got| :: found(Next(words[i])) == Some(words[i])
    ensures Complete(t) ==> |t.got| == |words|
  {
    hide Spaced;
    forall i | 0 <= i < |t.got| ensures t.got[i] == words[i] <==> found(Next(words[i])) == Some(words[i]) {
      assert found(Next(words[i])) == Some(t.got[i]);
    }
  }

  // ----- Progress

  /** The steps left until both stop. */
  function Left(t: Transfer): nat {
    match t.side
    case Asked => 2 * |t.rest| + 3
    case Open => if t.toServer != [] then 2 * |t.rest| + 2 else if t.serving then 2 * |t.rest| + 3 else 1
    case Closed => 0
  }

  /** Lock step: until both have stopped, exactly one party can move, and when
      every word is found in its message the move brings the end one step closer;
      the connection can break at any time, and then neither moves again. */
  lemma {:induction false} LockStep(t: Transfer, words: seq<string>, found: Finder)
    requires Inv(t, words, found) && !t.broken && found(End) == None
    requires forall w | w in words :: found(Next(w)) == Some(w)
    ensures t.side.Closed? <==> Complete(t)
    ensures Enabled(t, Begin) <==> t.side.Asked?
    ensures Enabled(t, Serve) <==> t.side.Open? && t.toServer != []
    ensures Enabled(t, Read) <==> t.side.Open? && t.toServer == []
    ensures forall step | Enabled(t, step) && step != Break :: Left(Do(t, step, found)) == Left(t) - 1
    ensures Enabled(t, Break) && forall step :: !Enabled(Do(t, Break, found), step)
  {
    hide Spaced;
    var n := |words| - |t.rest|;
    assert n > 0 ==> words[n - 1] in words;
  }

  lemma {:induction false} StepsAddUp(text: string, steps: seq<Step>, found: Finder)
    requires Enables(Start(text), steps, found) && Break !in steps && found(End) == None
    requires forall w | w in Words(text) :: found(Next(w)) == Some(w)
    ensures var t := Run(Start(text), steps, found);
            && !t.broken && |steps| + Left(t) == 2 * |Words(text)| + 3
            && (Complete(t) <==> |steps| == 2 * |Words(text)| + 3)
    decreases |steps|
  {
    hide Words, Do, Inv;
    var t := Start(text);
    InvInEveryRun(text, steps, found);
    if steps != [] {
      var k := |steps| - 1;
      StepsAddUp(text, steps[..k], found);
      InvInEveryRun(text, steps[..k], found);
      LockStep(Run(t, steps[..k], found), Words(text), found);
      StillWhole(Run(t, steps[..k], found), steps[k], found);
    }
    LockStep(Run(t, steps, found), Words(text), found);
  }

  lemma {:induction false} StillWhole(t: Transfer, step: Step, found: Finder)
    requires Enabled(t, step) && step != Break
    ensures !Do(t, step, found).broken
  {
  }

  // ----- The transfer over JSON texts

  /** A word is found in its message if and only if the quote scan accepts it;
      none is found in the last message. */
  lemma {:induction false} FoundIff(found: Finder, server: Server, w: string)
    requires ReadsTexts(found, server)
    ensures found(Next(w)) == Some(w) <==> QuoteOk(w)
    ensures found(End) == None
  {
    hide NextWord, Message, NextWordPayload, EndPayload, Sendable, QuoteOk;
    assert Payload(Next(w)) == NextWordPayload(w) && Payload(End) == EndPayload();
    WordSurvivesIff(server, w);
    EndHasNoWord(server);
  }

  /** In every run, at most one message is in flight; what was written is a
      prefix of the file's words just when the quote scan accepts the words that
      it stands for; and a complete run wrote all the file's words, unchanged,
      just when it accepts them all. */
  lemma {:induction false} TransferFidelity(server: Server, found: Finder, text: string, steps: seq<Step>)
    requires ReadsTexts(found, server) && Enables(Start(text), steps, found)
    ensures var t, words := Run(Start(text), steps, found), Words(text);
            && |t.toServer| + |t.toClient| <= 1 && |t.got| <= |words| && t.out == Spaced(t.got)
            && (t.got <= words <==> forall i | 0 <= i < |t.got| :: QuoteOk(words[i]))
            && (Complete(t) ==> (t.got == words <==> forall i | 0 <= i < |words| :: QuoteOk(words[i])))
  {
    hide Run, Start, Words, Enables, ReadsTexts, QuoteOk, Spaced, Inv;
    var t, words := Run(Start(text), steps, found), Words(text);
    forall w ensures found(Next(w)) == Some(w) <==> QuoteOk(w) {
      FoundIff(found, server, w);
    }
    FoundIff(found, server, "");
    InvInEveryRun(text, steps, found);
    GotIsPrefixIff(t, words, found);
  }

  /** With acceptable words, what the client wrote can be served again: the same
      words, in the same order; complete runs reproduce the whole file. */
  lemma {:induction false} ServedAgain(server: Server, found: Finder, text: string, steps: seq<Step>)
    requires ReadsTexts(found, server) && Enables(Start(text), steps, found)
    requires forall w | w in Words(text) :: QuoteOk(w)
    ensures var t := Run(Start(text), steps, found);
            && Start(t.out).rest == t.got && t.got <= Words(text)
            && (Complete(t) ==> Start(t.out) == Start(text))
  {
    hide Run, Words, Enables, ReadsTexts, QuoteOk, Spaced;
    var t, words := Run(Start(text), steps, found), Words(text);
    TransferFidelity(server, found, text, steps);
    forall i | 0 <= i < |words| ensures QuoteOk(words[i]) {
      assert words[i] in words;
    }
    WordsOfSpaced(t.got);
  }

  /** When the quote scan accepts every word, a run in which the connection holds
      has at most two steps for each word and three more, and is complete then. */
  lemma {:induction false} TransferEnds(server: Server, found: Finder, text: string, steps: seq<Step>)
    requires ReadsTexts(found, server) && Enables(Start(text), steps, found) && Break !in steps
    requires forall w | w in Words(text) :: QuoteOk(w)
    ensures |steps| <= 2 * |Words(text)| + 3
    ensures Complete(Run(Start(text), steps, found)) <==> |steps| == 2 * |Words(text)| + 3
  {
    hide Run, Start, Words, Enables, ReadsTexts, QuoteOk;
    forall w | w in Words(text) ensures found(Next(w)) == Some(w) {
      FoundIff(found, server, w);
    }
    FoundIff(found, server, "");
    StepsAddUp(text, steps, found);
  }

  // ----- The callbacks

  /** `{"next_word": ...}` */
  method MakeNextWord(w: string) returns (payload: Json)
    ensures payload == NextWordPayload(w)
  {
    hide PutAll;
    payload := BuildObject([Pair("next_word", Str(w))]);
  }

  /** `{"end_of_transmission": true}` */
  method MakeEnd() returns (payload: Json)
    ensures payload == EndPayload()
  {
    hide PutAll;
    payload := BuildObject([Pair("end_of_transmission", Bool(true))]);
  }

  /** The serving side: an open file and how far it has been read. */
  class Upload {
    const text: string
    var pos: nat
    var open: bool

    ghost predicate Valid()
      reads this
    {
      pos <= |text|
    }

    /** The words not read yet. */
    ghost function Rest(): seq<string>
      requires Valid()
      reads this
    {
      Words(text[pos..])
    }

    /** `begin_file_upload` */
    constructor (text: string)
      ensures Valid() && this.text == text && Rest() == Words(text) && open
    {
      this.text := text;
      pos := 0;
      open := true;
      new;
      assert text[0..] == text;
    }

    /** `fscanf(f, "%s", buf)`: white space is skipped, then a word is read. */
    method ReadWord() returns (word: Option<string>)
      requires Valid()
      modifies `pos
      ensures Valid()
      ensures word == if old(Rest()) == [] then None else Some(old(Rest())[0])
      ensures Rest() == if old(Rest()) == [] then [] else old(Rest())[1..]
    {
      hide Words;
      while pos < |text| && IsSpace(text[pos])
        invariant pos <= |text| && Words(text[pos..]) == old(Rest())
        decreases |text| - pos
      {
        SkippedSpace(text, pos);
        pos := pos + 1;
      }
      var start := pos;
      while pos < |text| && !IsSpace(text[pos])
        invariant start <= pos <= |text| && forall i | start <= i < pos :: !IsSpace(text[i])
        decreases |text| - pos
      {
        pos := pos + 1;
      }
      FirstWord(text, start, pos);
      if start < pos {
        word := Some(text[start..pos]);
      } else {
        word := None;
        NoWords();
        assert text[pos..] == "";
      }
    }

    /** `handle_file_upload`, as the step Serve of t: the payload sent is that of
        Serve's message, and the file stays open just when t goes on. */
    method HandleUpload(ghost t: Transfer, ghost found: Finder) returns (payload: Json)
      requires Valid() && Enabled(t, Serve) && t.rest == Rest() && t.serving == open
      modifies this
      ensures Valid() && Do(t, Serve, found).rest == Rest() && Do(t, Serve, found).serving == open
      ensures var t' := Do(t, Serve, found);
              |t'.toClient| == |t.toClient| + 1 && payload == Payload(t'.toClient[|t.toClient|])
      ensures old(Rest()) != [] ==> Property(payload, "next_word") == Some(Str(old(Rest())[0])) && open == old(open)
      ensures old(Rest()) == [] ==> Property(payload, "end_of_transmission") == Some(Bool(true)) && !open
    {
      hide Words, NextWordPayload, EndPayload, Property, Printable, QuoteOk;
      var word := ReadWord();
      if word.Some? {
        payload := MakeNextWord(word.value);
        PayloadFields(word.value);
      } else {
        open := false;
        payload := MakeEnd();
        PayloadFields("");
      }
    }
  }

  /** The receiving side: the file being written. */
  class Download {
    var out: string
    var open: bool

    constructor ()
      ensures out == "" && open
    {
      out, open := "", true;
    }

    /** `handle_file_download`, as the step Read of t on the data of its message. */
    method HandleDownload(data: string, ghost t: Transfer, ghost found: Finder) returns (reply: Option<string>)
      requires Enabled(t, Read) && found(t.toClient[0]) == NextWord(data) && t.out == out && open
      requires JsonLexer.AsciiKeys(JsonLexer.Lex(data).tokens) && |data| <= BUFFER_SIZE
      modifies this
      ensures var t' := Do(t, Read, found);
              && t'.out == out && (t'.side.Open? <==> open) && (reply.Some? <==> open)
              && (open ==> t'.got == t.got + [NextWord(data).value])
              && t'.toServer == t.toServer + if reply.Some? then [reply.value] else []
      ensures match NextWord(data)
              case Some(w) => open && out == old(out) + w + " " && reply == Some("give_next_word")
              case None => !open && out == old(out) && reply == None
    {
      hide Deserialize, Property, Message, Payload;
      var word_response := DeserializeJson(data);
      var next_word := None;
      if word_response.Some? {
        var body := Property(word_response.value, "body");
        if body.Some? {
          next_word := Property(body.value, "next_word");
        }
      }
      if next_word.None? || !next_word.value.Str? {
        open := false;
        return None;
      }
      out := out + next_word.value.s + " ";
      reply := Some("give_next_word");
    }
  }
}
