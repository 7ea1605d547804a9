/** Requests over a stream: the sender prints one object, the receiver
    accumulates what arrives and stops at the first parsed value. */
module Framing {
  import opened Options
  import opened JsonValues
  import opened JsonLexer
  import opened JsonGrammar
  import opened JsonRoundTrip
  import opened JsonReader
  import opened JsonWriter

  /** The bytes of several receptions together. */
  function Joined(chunks: seq<string>): string {
    if chunks == [] then "" else Joined(chunks[..|chunks| - 1]) + chunks[|chunks| - 1]
  }

  lemma {:induction false} JoinedPrefix(chunks: seq<string>, i: nat)
    requires i <= |chunks|
    ensures Joined(chunks[..i]) <= Joined(chunks)
    decreases |chunks|
  {
    if i == |chunks| {
      assert chunks[..i] == chunks;
    } else {
      var init := chunks[..|chunks| - 1];
      JoinedPrefix(init, i);
      assert init[..i] == chunks[..i];
    }
  }

  /** Prefix-safe framing: however the text of a printable array or object is
      cut into receptions, parsing what has arrived gives nothing until the last
      byte is there, and then exactly the value. */
  lemma {:induction false} FirstValueIsWholeValue(v: Json, chunks: seq<string>, i: nat)
    requires Printable(v) && (v.Arr? || v.Obj?)
    requires Joined(chunks) == Print(v) && i <= |chunks|
    ensures Deserialize(Joined(chunks[..i])) ==
            if |Joined(chunks[..i])| < |Print(v)| then None else Some(v)
  {
    JoinedPrefix(chunks, i);
    var p := Joined(chunks[..i]);
    if |p| < |Print(v)| {
      ContainerPrefixHasNoValue(v, p);
    } else {
      assert p == Print(v);
      PrintThenParse(v);
    }
  }

  const BUFFER_SIZE: nat := 20480

  /** `struct request_context`, as far as reception goes. */
  class Receiver {
    const buf: array<char>
    var len: nat

    ghost predicate Valid()
      reads this
    {
      buf.Length == BUFFER_SIZE && len <= buf.Length
    }

    /** What has been received. */
    ghost function Received(): string
      requires Valid()
      reads this, buf
    {
      buf[..len]
    }

    /** `receive_request_sock` */
    constructor ()
      ensures Valid() && Received() == ""
      ensures fresh(buf)
    {
      buf := new char[BUFFER_SIZE](_ => '\0');
      len := 0;
    }

    /** `pr_recv`: one reception is appended, and all that has arrived is parsed. */
    method Receive(chunk: string) returns (r: Option<Json>)
      requires Valid() && AsciiKeys(Lex(Received() + chunk).tokens)
      requires |chunk| <= buf.Length - len
      modifies this, buf
      ensures Valid()
      ensures Received() == old(Received()) + chunk
      ensures r == Deserialize(Received())
    {
      var i := 0;
      while i < |chunk|
        invariant 0 <= i <= |chunk|
        invariant len == old(len)
        invariant buf[..len + i] == old(buf[..len]) + chunk[..i]
      {
        buf[len + i] := chunk[i];
        i := i + 1;
      }
      len := len + |chunk|;
      assert buf[..len] == old(buf[..len]) + chunk;
      r := DeserializeJson(buf[..len]);
    }
  }

  lemma {:induction false} JoinedSnoc(chunks: seq<string>, i: nat)
    requires i < |chunks|
    ensures Joined(chunks[..i + 1]) == Joined(chunks[..i]) + chunks[i]
  {
    assert chunks[..i + 1][..i] == chunks[..i];
  }

  lemma {:induction false} TextNotEmpty(v: Json)
    requires v.Arr? || v.Obj?
    ensures Print(v) != ""
  {
  }

  lemma {:induction false} JoinedNothing()
    ensures Joined([]) == ""
  {
  }

  lemma {:induction false} NextChunkFits(v: Json, chunks: seq<string>, i: nat)
    requires Printable(v) && AsciiNames(v) && Joined(chunks) == Print(v)
    requires i < |chunks| && |Joined(chunks)| <= BUFFER_SIZE
    ensures AsciiKeys(Lex(Joined(chunks[..i]) + chunks[i]).tokens)
    ensures |Joined(chunks[..i])| + |chunks[i]| <= BUFFER_SIZE
  {
    PrintedNames(v);
    JoinedPrefix(chunks, i + 1);
    JoinedSnoc(chunks, i);
    AsciiKeysOfPrefix(Joined(chunks[..i + 1]), Joined(chunks));
  }

  /** `pr_recv` runs for each reception until a value is parsed: that is v, at
      the reception that completes the text. What is then read out of v is
      Requests.ReadResponse. */
  method ReceiveValue(ghost v: Json, chunks: seq<string>) returns (i: nat, r: Option<Json>)
    requires Printable(v) && (v.Arr? || v.Obj?)
    requires Joined(chunks) == Print(v) && AsciiNames(v) && |Print(v)| <= BUFFER_SIZE
    ensures r == Some(v)
    ensures 0 < i <= |chunks| && Joined(chunks[..i]) == Print(v)
    ensures Joined(chunks[..i - 1]) < Print(v)
  {
    hide Printable, AsciiNames, Deserialize, Joined, Lex, AsciiKeys, Print;
    var receiver := new Receiver();
    i, r := 0, None;
    JoinedNothing();
    TextNotEmpty(v);
    assert chunks[..|chunks|] == chunks;
    while r.None?
      invariant receiver.Valid() && fresh(receiver) && fresh(receiver.buf)
      invariant 0 <= i <= |chunks|
      invariant receiver.Received() == Joined(chunks[..i])
      invariant i == 0 ==> r.None?
      invariant r.Some? ==> Joined(chunks[..i - 1]) < Print(v)
      invariant r == if |Joined(chunks[..i])| < |Print(v)| then None else Some(v)
      decreases |chunks| - i
    {
      JoinedPrefix(chunks, i);
      NextChunkFits(v, chunks, i);
      JoinedSnoc(chunks, i);
      FirstValueIsWholeValue(v, chunks, i + 1);
      r := receiver.Receive(chunks[i]);
      i := i + 1;
    }
    JoinedPrefix(chunks, i);
  }
}
