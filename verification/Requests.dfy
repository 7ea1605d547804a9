/** The request object: what the sender builds, prints and the receiver reads. */
module Requests {
  import opened Hashing
  import opened Options
  import opened Tables
  import opened JsonValues
  import opened JsonGrammar
  import opened JsonRoundTrip
  import opened JsonWriter
  import opened HashMaps
  import opened Framing

  /** The object with these properties, set in order. */
  function ObjectOf(props: seq<Pair<Json>>): Json {
    Obj(PutAll([], props))
  }

  /** The `from` object of every request. */
  function Sender(name: string, port: nat): Json {
    ObjectOf([Pair("name", Str(name)), Pair("listen_port", Int(port))])
  }

  /** The object that `pr_send` sends. */
  function Request(name: string, port: nat, what: string, body: Json): Json {
    ObjectOf([Pair("method", Str(what)), Pair("body", body), Pair("from", Sender(name, port))])
  }

  /** An object built from printable properties is printable. */
  lemma {:induction false} ObjectIsPrintable(props: seq<Pair<Json>>)
    requires props != [] && forall m | m in props :: QuoteOk(m.key) && Printable(m.val)
    ensures Printable(ObjectOf(props))
  {
    hide PutAll;
    var r := PutAll([], props);
    PutAllCanonical([], props);
    PutAllNonEmpty([], props);
    forall i | 0 <= i < |r| ensures QuoteOk(r[i].key) && Printable(r[i].val) {
      assert r[i] in r;
      PutAllSubset([], props, r[i]);
    }
  }

  /** What a property reads as: the last value set, if any. */
  function LastSet(props: seq<Pair<Json>>, key: string): Option<Json> {
    if props == [] then None
    else if props[|props| - 1].key == key then Some(props[|props| - 1].val)
    else LastSet(props[..|props| - 1], key)
  }

  /** Properties read back what was last set under them. */
  lemma {:induction false} PropertyReadsBack(props: seq<Pair<Json>>, key: string)
    ensures Property(ObjectOf(props), key) == LastSet(props, key)
    decreases |props|
  {
    if props != [] {
      hide PutAll, Put;
      var init, e := props[..|props| - 1], props[|props| - 1];
      assert props == init + [e];
      PutAllSnoc([], init, e);
      PutAllCanonical([], init);
      SetThenGet(ObjectOf(init), e.key, e.val, key);
      PropertyReadsBack(init, key);
    }
  }

  lemma {:induction false} PlainKey(s: string)
    requires forall i | 0 <= i < |s| :: s[i] != '"' && s[i] != '\\'
    ensures QuoteOk(s)
  {
  }

  lemma {:induction false} TwoKeys()
    ensures QuoteOk("name") && QuoteOk("listen_port") && "name" != "listen_port"
  {
    PlainKey("name");
    PlainKey("listen_port");
    assert "name"[0] != "listen_port"[0];
  }

  lemma {:induction false} PrintableLeaves(s: string, n: nat)
    requires n <= INT_MAX
    ensures Printable(Int(n)) && (QuoteOk(s) ==> Printable(Str(s)))
  {
  }

  lemma {:induction false} TwoProperties(k: string, x: Json, l: string, y: Json)
    requires k != l && QuoteOk(k) && QuoteOk(l) && Printable(x) && Printable(y)
    ensures var v := ObjectOf([Pair(k, x), Pair(l, y)]);
            Printable(v) && Property(v, k) == Some(x) && Property(v, l) == Some(y)
  {
    hide PutAll, ObjectOf, Property, Printable, QuoteOk;
    var props := [Pair(k, x), Pair(l, y)];
    assert props[..1] == [Pair(k, x)];
    ObjectIsPrintable(props);
    PropertyReadsBack(props, k);
    PropertyReadsBack(props, l);
  }

  lemma {:induction false} SenderFields(name: string, port: nat)
    requires QuoteOk(name) && port < 0x1_0000
    ensures Printable(Sender(name, port))
    ensures Property(Sender(name, port), "name") == Some(Str(name))
    ensures Property(Sender(name, port), "listen_port") == Some(Int(port))
  {
    hide PutAll, ObjectOf, Property, Printable, QuoteOk;
    TwoKeys();
    PrintableLeaves(name, port);
    TwoProperties("name", Str(name), "listen_port", Int(port));
  }

  lemma {:induction false} FixedKeys()
    ensures QuoteOk("method") && QuoteOk("body") && QuoteOk("from")
    ensures "method" != "body" && "body" != "from" && "method" != "from"
  {
    PlainKey("method");
    PlainKey("body");
    PlainKey("from");
    assert "body"[0] != "from"[0];
  }

  lemma {:induction false} ThreeProperties(k: string, x: Json, l: string, y: Json, m: string, z: Json)
    requires k != l && l != m && k != m
    requires QuoteOk(k) && QuoteOk(l) && QuoteOk(m)
    ensures var v := ObjectOf([Pair(k, x), Pair(l, y), Pair(m, z)]);
            && Property(v, k) == Some(x) && Property(v, l) == Some(y) && Property(v, m) == Some(z)
            && (Printable(x) && Printable(y) && Printable(z) ==> Printable(v))
  {
    hide ObjectOf, Property, Printable, QuoteOk;
    var props := [Pair(k, x), Pair(l, y), Pair(m, z)];
    assert props[..2] == [Pair(k, x), Pair(l, y)];
    assert props[..2][..1] == [Pair(k, x)];
    assert LastSet(props[..2][..1], k) == Some(x);
    PropertyReadsBack(props, k);
    PropertyReadsBack(props, l);
    PropertyReadsBack(props, m);
    if Printable(x) && Printable(y) && Printable(z) {
      ObjectIsPrintable(props);
    }
  }

  /** Every request with a printable body and names the quote scan accepts is
      printable, and carries what it was built from. */
  lemma {:induction false} RequestFields(name: string, port: nat, what: string, body: Json)
    requires QuoteOk(name) && port < 0x1_0000 && QuoteOk(what) && Printable(body)
    ensures Printable(Request(name, port, what, body))
    ensures Property(Request(name, port, what, body), "method") == Some(Str(what))
    ensures Property(Request(name, port, what, body), "body") == Some(body)
    ensures Property(Request(name, port, what, body), "from") == Some(Sender(name, port))
  {
    hide ObjectOf, Property, Printable, Sender, QuoteOk;
    SenderFields(name, port);
    PrintableLeaves(what, 0);
    FixedKeys();
    ThreeProperties("method", Str(what), "body", body, "from", Sender(name, port));
  }

  lemma {:induction false} SetOnlyThese(props: seq<Pair<Json>>, key: string)
    requires forall i | 0 <= i < |props| :: props[i].key != key
    ensures LastSet(props, key) == None
  {
    if props != [] {
      SetOnlyThese(props[..|props| - 1], key);
    }
  }

  lemma {:induction false} SenderHasOnly(name: string, port: nat, key: string)
    requires QuoteOk(name) && port < 0x1_0000
    ensures Property(Sender(name, port), key) ==
            if key == "name" then Some(Str(name)) else if key == "listen_port" then Some(Int(port)) else None
  {
    hide ObjectOf, Property, Printable, QuoteOk, LastSet;
    SenderFields(name, port);
    if key != "name" && key != "listen_port" {
      SetOnlyThese([Pair("name", Str(name)), Pair("listen_port", Int(port))], key);
      PropertyReadsBack([Pair("name", Str(name)), Pair("listen_port", Int(port))], key);
    }
  }

  /** A request has these three properties and no others. */
  lemma {:induction false} RequestHasOnly(name: string, port: nat, what: string, body: Json, key: string)
    requires QuoteOk(name) && port < 0x1_0000 && QuoteOk(what) && Printable(body)
    ensures Property(Request(name, port, what, body), key) ==
            if key == "method" then Some(Str(what)) else if key == "body" then Some(body)
            else if key == "from" then Some(Sender(name, port)) else None
  {
    hide ObjectOf, Property, Printable, QuoteOk, Sender, LastSet;
    RequestFields(name, port, what, body);
    var props := [Pair("method", Str(what)), Pair("body", body), Pair("from", Sender(name, port))];
    if key != "method" && key != "body" && key != "from" {
      SetOnlyThese(props, key);
      PropertyReadsBack(props, key);
    }
  }

  // ----- What the receiver reads out of the parsed value

  /** `response_t`; an absent body is NULL, and so is a name that is no string. */
  datatype Response = Response(status: int, body: Option<Json>, name: Option<string>, port: nat)

  /** The `int_value` field; it is 0 where nothing sets it. */
  function IntValue(v: Json): int {
    match v
    case Int(n) => n
    case Bool(b) => if b then 1 else 0
    case _ => 0
  }

  function StringValue(v: Json): Option<string> {
    if v.Str? then Some(v.s) else None
  }

  /** The response that `pr_recv` hands to its callback; None where it reads
      through NULL before it gets there. */
  function ReadResponse(v: Json): Option<Response> {
    var status, from := Property(v, "status"), Property(v, "from");
    if status.None? || from.None? then None
    else
      var name, port := Property(from.value, "name"), Property(from.value, "listen_port");
      if name.None? || port.None? then None
      else Some(Response(IntValue(status.value), Property(v, "body"), StringValue(name.value),
                         IntValue(port.value) % 0x1_0000))
  }

  lemma {:induction false} StatusIsNew()
    ensures "status" != "method" && "status" != "body" && "status" != "from"
  {
    assert "status"[0] != "method"[0] && "status"[0] != "body"[0] && "status"[0] != "from"[0];
  }

  /** No request that `pr_send` builds has a status, so `pr_recv` reads through
      NULL on every one of them. */
  lemma {:induction false} RequestHasNoStatus(name: string, port: nat, what: string, body: Json)
    ensures Property(Request(name, port, what, body), "status") == None
    ensures ReadResponse(Request(name, port, what, body)) == None
  {
    hide ObjectOf, Property, Sender;
    StatusIsNew();
    var props := [Pair("method", Str(what)), Pair("body", body), Pair("from", Sender(name, port))];
    assert props[..2] == [Pair("method", Str(what)), Pair("body", body)];
    assert props[..2][..1] == [Pair("method", Str(what))];
    assert props[..2][..1][..0] == [];
    assert LastSet(props[..2][..1], "status") == None;
    assert LastSet(props[..2], "status") == None;
    PropertyReadsBack(props, "status");
    assert Request(name, port, what, body) == ObjectOf(props);
  }

  /** A status is all that is missing: with one set, the callback gets it, the
      body and the sender. */
  lemma {:induction false} StatusMakesResponse(name: string, port: nat, what: string, body: Json, status: int)
    requires QuoteOk(name) && port < 0x1_0000 && QuoteOk(what) && Printable(body)
    ensures var v := WithProperty(Request(name, port, what, body), "status", Int(status));
            ReadResponse(v) == Some(Response(status, Some(body), Some(name), port))
  {
    hide Property, Sender, WithProperty, QuoteOk, Printable;
    var v := Request(name, port, what, body);
    RequestFields(name, port, what, body);
    SenderFields(name, port);
    StatusIsNew();
    RequestIsTable(name, port, what, body);
    hide Request;
    SetThenGet(v, "status", Int(status), "status");
    SetThenGet(v, "status", Int(status), "from");
    SetThenGet(v, "status", Int(status), "body");
    var w := WithProperty(v, "status", Int(status));
    assert Property(w, "status") == Some(Int(status));
    assert Property(w, "body") == Some(body);
    assert Property(w, "from") == Some(Sender(name, port));
    assert Property(Sender(name, port), "name") == Some(Str(name));
    assert Property(Sender(name, port), "listen_port") == Some(Int(port));
  }

  lemma {:induction false} RequestIsTable(name: string, port: nat, what: string, body: Json)
    ensures Request(name, port, what, body).Obj? && Canonical(Request(name, port, what, body).members)
  {
    hide PutAll, Sender;
    PutAllCanonical([], [Pair("method", Str(what)), Pair("body", body), Pair("from", Sender(name, port))]);
  }

  /** What `pr_recv` has to find to reach its callback, and what it then reads: an
      integer, or 0 and 1 for a boolean; the port is cut to 16 bits. */
  lemma {:induction false} ResponseIff(v: Json)
    ensures ReadResponse(v).Some? <==>
            && Property(v, "status").Some? && Property(v, "from").Some?
            && Property(Property(v, "from").value, "name").Some?
            && Property(Property(v, "from").value, "listen_port").Some?
    ensures ReadResponse(v).Some? ==>
            var r, from := ReadResponse(v).value, Property(v, "from").value;
            var status, port := Property(v, "status").value, Property(from, "listen_port").value;
            && r.body == Property(v, "body")
            && (status.Int? ==> r.status == status.n) && (status == Bool(true) ==> r.status == 1)
            && (!status.Int? && status != Bool(true) ==> r.status == 0)
            && (r.name.Some? <==> Property(from, "name").value.Str?)
            && (r.name.Some? ==> Property(from, "name") == Some(Str(r.name.value)))
            && r.port < 0x1_0000 && (port.Int? ==> (port.n - r.port) % 0x1_0000 == 0)
  {
    hide Property;
    var from := Property(v, "from");
    if ReadResponse(v).Some? {
      var port := IntValue(Property(from.value, "listen_port").value);
      assert port - port % 0x1_0000 == 0x1_0000 * (port / 0x1_0000);
    }
  }

  /** From sender to receiver: however the sent text is cut, nothing is
      parsed before it is complete; then the request is, and its fields can be
      read, but not as the response that `pr_recv` takes it for. */
  lemma {:induction false} RequestDelivered(name: string, port: nat, what: string, body: Json, chunks: seq<string>)
    requires QuoteOk(name) && port < 0x1_0000 && QuoteOk(what) && Printable(body)
    requires Joined(chunks) == Print(Request(name, port, what, body))
    ensures forall i | 0 <= i <= |chunks| && Joined(chunks[..i]) != Joined(chunks) ::
              Deserialize(Joined(chunks[..i])) == None
    ensures var r := Deserialize(Joined(chunks));
            r.Some? && Property(r.value, "body") == Some(body) && Property(r.value, "method") == Some(Str(what)) &&
            Property(r.value, "from") == Some(Sender(name, port)) && ReadResponse(r.value) == None
  {
    hide Request, Deserialize, Property, Printable, ReadResponse;
    var v := Request(name, port, what, body);
    RequestIsTable(name, port, what, body);
    RequestHasNoStatus(name, port, what, body);
    RequestFields(name, port, what, body);
    PrintThenParse(v);
    forall i | 0 <= i <= |chunks| && Joined(chunks[..i]) != Joined(chunks)
      ensures Deserialize(Joined(chunks[..i])) == None
    {
      JoinedPrefix(chunks, i);
      FirstValueIsWholeValue(v, chunks, i);
    }
  }

  /** `json_create_object` and `json_set_property` over a heap table. */
  method BuildObject(props: seq<Pair<Json>>) returns (v: Json)
    requires forall m | m in props :: Ascii(m.key)
    ensures v == ObjectOf(props)
  {
    hide Put, Enumerate, Tables.Valid, HashMap.Shape;
    var object_ := new HashMap<Json>();
    EnumerateEmpty<Json>();
    var i := 0;
    while i < |props|
      invariant 0 <= i <= |props|
      invariant object_.Valid() && fresh(object_.Repr)
      invariant object_.Elements() == PutAll([], props[..i])
    {
      object_.Add(props[i]);
      PutAllSnoc([], props[..i], props[i]);
      assert props[..i + 1] == props[..i] + [props[i]];
      i := i + 1;
    }
    assert props[..i] == props;
    var entries := object_.GetEntries();
    v := Obj(entries);
  }

  /** `pr_send`: the buffer handed to `send` holds the request's text. */
  method Send(name: string, port: nat, what: string, body: Json) returns (data: array<char>)
    requires |Print(Request(name, port, what, body))| < OUTPUT_BUFFER_SIZE
    ensures fresh(data) && data.Length == OUTPUT_BUFFER_SIZE
    ensures var text := Print(Request(name, port, what, body));
            data[..|text|] == text && data[|text|] == '\0'
  {
    hide PutAll, Print;
    var from := BuildObject([Pair("name", Str(name)), Pair("listen_port", Int(port))]);
    var request := BuildObject([Pair("method", Str(what)), Pair("body", body), Pair("from", from)]);
    data := Serialize(request);
  }
}
