/** A peer's handlers and bootstrap over the heap table of known nodes, and how
    they carry out the steps of the gossip. */
module Peers {
  import opened Hashing
  import opened Options
  import opened Tables
  import opened HashMaps
  import opened Gossip

  /** `struct known_node_hashmap_entry`, keyed by the node's name. */
  datatype Contact = Contact(addr: Addr, waiting: int)

  type Table = seq<Pair<Contact>>

  /** What the gossip sees of a table. */
  function Book(es: Table): map<Name, Addr> {
    map x | x in ToMap(es) :: ToMap(es)[x].addr
  }

  /** Since when an answer of x is awaited; 0 when none is. */
  function WaitingOf(es: Table, x: Name): int {
    var c := Get(es, x);
    if c.Some? then c.value.waiting else 0
  }

  /** The record that `add_known_node` stores. */
  function Entered(es: Table, x: Name, a: Addr): Pair<Contact> {
    Pair(x, Contact(a, WaitingOf(es, x)))
  }

  /** Adding a node is learning about it; nobody's wait is touched, a new node
      has none. */
  lemma {:induction false} EnteredIsLearned(es: Table, x: Name, a: Addr, y: Name)
    requires Canonical(es)
    ensures Book(Put(es, Entered(es, x, a))) == Learn(Book(es), x, a)
    ensures WaitingOf(Put(es, Entered(es, x, a)), y) == WaitingOf(es, y)
  {
    var e, b := Entered(es, x, a), Layout(es);
    EnumerationOfLayout(es);
    AddRefines(b, e);
    ToMapGet(es, y);
    ToMapGet(Put(es, e), y);
  }

  lemma {:induction false} SetThenGetEntry(es: Table, e: Pair<Contact>, y: Name)
    requires Canonical(es)
    ensures Get(Put(es, e), y) == if y == e.key then Some(e.val) else Get(es, y)
  {
    EnumerationOfLayout(es);
    AddRefines(Layout(es), e);
    ToMapGet(es, y);
    ToMapGet(Put(es, e), y);
  }

  /** The table after `add_known_node`, and the wait found in x's chain. */
  lemma {:induction false} EnteredInBucket(b: seq<seq<Pair<Contact>>>, x: Name, a: Addr)
    requires Tables.Valid(b)
    ensures var es, e := Enumerate(b), Entered(Enumerate(b), x, a);
            && e.val.waiting == WaitingOf(b[Hash(x)], x)
            && Enumerate(Tables.Add(b, e)) == Put(es, e) && Book(Put(es, e)) == Learn(Book(es), x, a)
            && (forall y :: WaitingOf(Put(es, e), y) == WaitingOf(es, y))
            && forall y :: Get(Put(es, e), y) ==
                  if y != x then Get(es, y)
                  else Some(Contact(a, if Get(es, x).Some? then Get(es, x).value.waiting else 0))
  {
    var es := Enumerate(b);
    EnumerateCanonical(b);
    LayoutOfEnumeration(b);
    FullScanIsBucketScan(b, x);
    forall y
      ensures WaitingOf(Put(es, Entered(es, x, a)), y) == WaitingOf(es, y)
      ensures Get(Put(es, Entered(es, x, a)), y) == if y == x then Some(Entered(es, x, a).val) else Get(es, y)
    {
      EnteredIsLearned(es, x, a, y);
      SetThenGetEntry(es, Entered(es, x, a), y);
    }
    EnteredIsLearned(es, x, a, x);
  }

  lemma {:induction false} ContactInBook(es: Table, i: nat)
    requires i < |es| && UniqueKeys(es)
    ensures es[i].key in Book(es) && Book(es)[es[i].key] == es[i].val.addr
  {
    ToMapGet(es, es[i].key);
    var j := Position(es, es[i].key);
    assert j <= i;
  }

  lemma {:induction false} BookInContacts(es: Table, x: Name)
    requires x in Book(es)
    ensures exists i | 0 <= i < |es| :: es[i].key == x && es[i].val.addr == Book(es)[x]
  {
    ToMapGet(es, x);
    var i := Position(es, x);
    assert es[i].key == x;
  }

  /** The connections that `push_node` tries, one for each known node. */
  function Attempts(self: Name, es: Table, x: Name, a: Addr): (ps: seq<Push>)
    ensures |ps| == |es| && forall i | 0 <= i < |es| :: ps[i] == Push(self, es[i].val.addr, x, a)
  {
    seq(|es|, i requires 0 <= i < |es| => Push(self, es[i].val.addr, x, a))
  }

  /** The attempts that find a listener are the pushes of the gossip. */
  lemma {:induction false} AttemptsArePushes(n: Net, self: Name, es: Table, x: Name, a: Addr)
    requires Canonical(es) && n.phase.Keys == n.home.Keys
    ensures Pushed(n, self, Book(es), x, a) == set p | p in Attempts(self, es, x, a) && p.to in LiveAddrs(n)
  {
    hide LiveAddrs, Book;
    forall p | p in Pushed(n, self, Book(es), x, a) ensures p in Attempts(self, es, x, a) {
      var y :| y in Book(es) && Book(es)[y] == p.to;
      BookInContacts(es, y);
      var i :| 0 <= i < |es| && es[i].key == y && es[i].val.addr == Book(es)[y];
      assert Attempts(self, es, x, a)[i] == p;
    }
    forall p | p in Attempts(self, es, x, a) ensures p.to in Book(es).Values && p == Push(self, p.to, x, a) {
      var i :| 0 <= i < |es| && Attempts(self, es, x, a)[i] == p;
      ContactInBook(es, i);
      assert Book(es)[es[i].key] in Book(es).Values;
    }
  }

  /** A node list as sent: names and addresses, in the table's order. */
  function NodeList(es: Table): (list: seq<Pair<Addr>>)
    ensures |list| == |es| && forall i | 0 <= i < |es| :: list[i] == Pair(es[i].key, es[i].val.addr)
  {
    seq(|es|, i requires 0 <= i < |es| => Pair(es[i].key, es[i].val.addr))
  }

  lemma {:induction false} NodeListTail(es: Table)
    requires es != []
    ensures NodeList(es)[1..] == NodeList(es[1..])
  {
  }

  /** The list says what the table says. */
  lemma {:induction false} NodeListIsBook(es: Table)
    ensures ToMap(NodeList(es)) == Book(es)
  {
    if es != [] {
      NodeListTail(es);
      NodeListIsBook(es[1..]);
    }
  }

  lemma {:induction false} NothingMerged(known: map<Name, Addr>, self: Name)
    ensures Merge(known, ToMap<Addr>([]), self) == known
  {
  }

  lemma {:induction false} ToMapSnoc(list: seq<Pair<Addr>>, e: Pair<Addr>)
    requires forall i | 0 <= i < |list| :: list[i].key != e.key
    ensures ToMap(list + [e]) == ToMap(list)[e.key := e.val]
  {
    if list == [] {
      assert ToMap([e]) == ToMap([e][1..])[e.key := e.val];
    } else {
      assert (list + [e])[1..] == list[1..] + [e];
      ToMapSnoc(list[1..], e);
    }
  }

  /** After the merge the list's addresses are on record, without one's own, and
      of the nodes not listed what was known. */
  lemma {:induction false} MergedAt(known: map<Name, Addr>, list: map<Name, Addr>, self: Name, x: Name)
    ensures var m := Merge(known, list, self);
            && (x in list && x != self ==> x in m && m[x] == list[x])
            && (x !in list || x == self ==> (x in m <==> x in known) && (x in m ==> m[x] == known[x]))
  {
  }

  /** Merging a list entry by entry. */
  lemma {:induction false} OneMoreMerged(known: map<Name, Addr>, list: seq<Pair<Addr>>, i: nat, self: Name)
    requires UniqueKeys(list) && i < |list|
    ensures Merge(known, ToMap(list[..i + 1]), self) ==
            if list[i].key == self then Merge(known, ToMap(list[..i]), self)
            else Learn(Merge(known, ToMap(list[..i]), self), list[i].key, list[i].val)
  {
    ToMapSnoc(list[..i], list[i]);
    assert list[..i + 1] == list[..i] + [list[i]];
  }

  lemma {:induction false} PushedToItself(self: Name, es: Table, x: Name, a: Addr)
    requires x in Book(es) && Book(es)[x] == a
    ensures Push(self, a, x, a) in Attempts(self, es, x, a)
  {
    BookInContacts(es, x);
    var i :| 0 <= i < |es| && es[i].key == x && es[i].val.addr == a;
    assert Attempts(self, es, x, a)[i] == Push(self, a, x, a);
  }

  // ----- Look-up by address

  /** In a safe network a node is found under the address that x announced
      exactly when x is known, and then it is x. */
  lemma {:induction false} FoundByAddressIff(n: Net, y: Name, es: Table, x: Name)
    requires Safe(n) && y in n.home && n.known[y] == Book(es) && Canonical(es) && x in n.home
    ensures (exists e :: e in es && e.val.addr == n.home[x]) <==> x in n.known[y]
    ensures forall e | e in es && e.val.addr == n.home[x] :: e.key == x
  {
    assert SafeNode(n, y);
    hide Book, SafeNode, TruePush;
    forall e | e in es && e.val.addr == n.home[x] ensures e.key == x && x in n.known[y] {
      var j :| 0 <= j < |es| && es[j] == e;
      ContactInBook(es, j);
    }
    if x in n.known[y] {
      BookInContacts(es, x);
      var i :| 0 <= i < |es| && es[i].key == x && es[i].val.addr == Book(es)[x];
      assert es[i] in es && es[i].val.addr == n.home[x];
    }
  }

  /** So the look-up by that address finds x. */
  lemma {:induction false} AddressIdentifies(n: Net, y: Name, es: Table, x: Name, accepts: Pair<Contact> -> bool)
    requires Safe(n) && y in n.home && n.known[y] == Book(es) && Canonical(es) && x in n.known[y] && x in n.home
    requires forall e | e in es :: accepts(e) <==> e.val.addr == n.home[x]
    ensures Find(es, accepts).Some? && Find(es, accepts).value.key == x
  {
    hide Safe, Book;
    FoundByAddressIff(n, y, es, x);
    var e :| e in es && e.val.addr == n.home[x];
    assert accepts(e);
    var j :| 0 <= j < |es| && Find(es, accepts).value == es[j];
    assert es[j] in es;
  }

  // ----- The peer

  class Peer {
    const name: Name
    const addr: Addr
    const nodes: HashMap<Contact>

    ghost predicate Valid()
      reads this, nodes, nodes.Repr
    {
      nodes.Valid()
    }

    /** The nodes this peer knows. */
    ghost function Known(): map<Name, Addr>
      requires Valid()
      reads this, nodes, nodes.Repr
    {
      Book(nodes.Elements())
    }

    /** `init_known_nodes_hashmap` */
    constructor (name: Name, addr: Addr)
      ensures Valid() && fresh(nodes.Repr) && Known() == map[] && this.name == name && this.addr == addr
    {
      hide HashMap.Shape, Tables.Valid, Enumerate;
      this.name, this.addr := name, addr;
      nodes := new HashMap<Contact>();
      new;
      EnumerateEmpty<Contact>();
    }

    /** `add_known_node`: an entry is found by walking its chain and rewritten,
        but for its wait; or a new one is linked at the end. */
    method AddKnownNode(x: Name, a: Addr)
      requires Valid() && Ascii(x)
      modifies nodes.Repr
      ensures Valid() && fresh(nodes.Repr - old(nodes.Repr))
      ensures nodes.Elements() == Put(old(nodes.Elements()), Entered(old(nodes.Elements()), x, a))
      ensures Known() == Learn(old(Known()), x, a)
      ensures forall y :: WaitingOf(nodes.Elements(), y) == WaitingOf(old(nodes.Elements()), y)
      ensures forall y | y != x :: Get(nodes.Elements(), y) == Get(old(nodes.Elements()), y)
      ensures Get(old(nodes.Elements()), x) == None ==> Get(nodes.Elements(), x) == Some(Contact(a, 0))
      ensures Get(old(nodes.Elements()), x).Some? ==>
                Get(nodes.Elements(), x) == Some(Contact(a, Get(old(nodes.Elements()), x).value.waiting))
    {
      ghost var b, e := nodes.buckets, Entered(nodes.Elements(), x, a);
      EnteredInBucket(b, x, a);
      var hash := PolynomialHash(x, PRIME as int32, BUCKETS as int32);
      var h := hash as nat;
      var prev, cur, i := nodes.Walk(h, x);
      if cur == null {
        nodes.LinkLast(h, prev, Pair(x, Contact(a, 0)));
      } else {
        nodes.SetValue(h, i, cur, Pair(x, Contact(a, cur.value.val.waiting)));
      }
      assert nodes.buckets == Tables.Add(b, e);
    }

    /** `look_up_known_node`: the first node in the table's order with this
        address, whatever its name. */
    method LookUpKnownNode(a: Addr) returns (r: Option<Pair<Contact>>)
      requires Valid()
      ensures r.None? ==> forall e | e in nodes.Elements() :: e.val.addr != a
      ensures r.Some? ==> exists i | 0 <= i < |nodes.Elements()| ::
                            && r.value == nodes.Elements()[i] && r.value.val.addr == a
                            && forall j | 0 <= j < i :: nodes.Elements()[j].val.addr != a
    {
      hide HashMap.Shape, Tables.Valid, Enumerate;
      r := nodes.LookUp((e: Pair<Contact>) => e.val.addr == a);
    }

    /** The MAGIC_HELLO handler, as the introducer's step in n: the newcomer is
        added, and then pushed to every known node, itself included; of these
        attempts the ones that find a listener are the step's pushes. */
    method OnHello(x: Name, a: Addr, ghost n: Net)
      returns (reply: (Name, nat), attempts: seq<Push>, keepAlive: bool)
      requires Valid() && Ascii(x)
      requires Enabled(n, HandleHello(x)) && n.phase[x] == Hello(name) && n.home[x] == a && n.known[name] == Known()
      modifies nodes.Repr
      ensures Valid() && fresh(nodes.Repr - old(nodes.Repr))
      ensures reply == (name, addr.port) && keepAlive
      ensures attempts == Attempts(name, nodes.Elements(), x, a) && Push(name, a, x, a) in attempts
      ensures var n' := Do(n, HandleHello(x));
              && n'.known == n.known[name := Known()]
              && n'.pushes == n.pushes + set p | p in attempts && p.to in LiveAddrs(n)
    {
      hide HashMap.Shape, Tables.Valid, Enumerate, Put, Pushed, LiveAddrs, Book;
      AddKnownNode(x, a);
      var entries := nodes.GetEntries();
      EnumerateCanonical(nodes.buckets);
      AttemptsArePushes(n, name, entries, x, a);
      attempts := [];
      var i := 0;
      while i < |entries|
        invariant 0 <= i <= |entries|
        invariant attempts == Attempts(name, entries, x, a)[..i]
      {
        attempts := attempts + [Push(name, entries[i].val.addr, x, a)];
        i := i + 1;
      }
      PushedToItself(name, entries, x, a);
      reply, keepAlive := (name, addr.port), true;
    }

    /** The MAGIC_GET_NODE_LIST handler, as the introducer's step in n. */
    method OnGetNodeList(x: Name, ghost n: Net) returns (list: seq<Pair<Addr>>)
      requires Valid()
      requires Enabled(n, HandleList(x)) && n.phase[x] == Asking(name) && n.known[name] == Known()
      ensures list == NodeList(nodes.Elements())
      ensures UniqueKeys(list) && Do(n, HandleList(x)).phase[x] == Listed(name, ToMap(list))
    {
      hide HashMap.Shape, Tables.Valid, Enumerate, Book, GreetedBy;
      var entries := nodes.GetEntries();
      EnumerateCanonical(nodes.buckets);
      NodeListIsBook(entries);
      list := [];
      var i := 0;
      while i < |entries|
        invariant 0 <= i <= |entries|
        invariant list == NodeList(entries)[..i]
      {
        list := list + [Pair(entries[i].key, entries[i].val.addr)];
        i := i + 1;
      }
    }

    /** The MAGIC_PUSH_NODE handler, as the delivery of p. First the sender is
        looked up by its address; the handler reads the entry found without
        looking whether there is one. In a safe network there is one exactly
        when the sender is known here, and it is the sender's. */
    method OnPushNode(p: Push, sender: Addr, ghost n: Net) returns (entry: Option<Pair<Contact>>)
      requires Valid() && Ascii(p.name)
      requires Enabled(n, Deliver(p, name)) && n.known[name] == Known()
      requires p.from in n.home && sender == n.home[p.from]
      modifies nodes.Repr
      ensures Valid() && fresh(nodes.Repr - old(nodes.Repr))
      ensures Do(n, Deliver(p, name)).known == n.known[name := Known()]
      ensures Safe(n) ==> (entry.Some? <==> p.from in n.known[name])
      ensures Safe(n) && entry.Some? ==> entry.value.key == p.from && entry.value.val.addr == sender
    {
      hide HashMap.Shape, Tables.Valid, Enumerate, Put, Book, Safe;
      EnumerateCanonical(nodes.buckets);
      if Safe(n) {
        FoundByAddressIff(n, name, nodes.Elements(), p.from);
      }
      entry := LookUpKnownNode(sender);
      AddKnownNode(p.name, p.addr);
    }

    /** `bootstrap_known_nodes` after `say_hello`: the introducer is added. */
    method OnHelloReply(b: Name, a: Addr, ghost n: Net)
      requires Valid() && Ascii(b)
      requires Enabled(n, HelloReply(name)) && n.phase[name] == Answered(b)
      requires n.home[b] == a && n.known[name] == Known()
      modifies nodes.Repr
      ensures Valid() && fresh(nodes.Repr - old(nodes.Repr))
      ensures Do(n, HelloReply(name)).known == n.known[name := Known()]
    {
      hide HashMap.Shape, Tables.Valid, Enumerate, Put, Book;
      AddKnownNode(b, a);
    }

    /** `bootstrap_known_nodes` after `get_known_nodes`: everyone listed is added,
        but for the peer itself. */
    method OnNodeList(list: seq<Pair<Addr>>, ghost n: Net)
      requires Valid() && UniqueKeys(list) && forall e | e in list :: Ascii(e.key)
      requires Enabled(n, ListReply(name)) && n.phase[name].list == ToMap(list) && n.known[name] == Known()
      modifies nodes.Repr
      ensures Valid() && fresh(nodes.Repr - old(nodes.Repr))
      ensures Do(n, ListReply(name)).known == n.known[name := Known()]
    {
      hide HashMap.Shape, Tables.Valid, Enumerate, Put, Book, ToMap, Ascii;
      ghost var known := Known();
      NothingMerged(known, name);
      var i := 0;
      while i < |list|
        invariant 0 <= i <= |list|
        invariant Valid() && fresh(nodes.Repr - old(nodes.Repr))
        invariant Known() == Merge(known, ToMap(list[..i]), name)
      {
        assert list[i] in list;
        OneMoreMerged(known, list, i, name);
        if list[i].key != name {
          AddKnownNode(list[i].key, list[i].val);
        }
        i := i + 1;
      }
      assert list[..i] == list;
    }
  }
}
