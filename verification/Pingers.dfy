/** The ping callbacks in place: over the descriptor loop and the heap table of
    known nodes, whose entries carry what is awaited. */
module Pingers {
  import Hashing
  import opened Options
  import opened Tables
  import opened HashMaps
  import opened EventLoops
  import opened Peers
  import opened Pings

  /** Since when each known node's pong is awaited. */
  function Waits(es: Table): map<string, int> {
    map x | x in ToMap(es) :: ToMap(es)[x].waiting
  }

  /** The keys of a table, in the order of its enumeration from bucket h on. */
  function NamesFrom(kt: seq<seq<string>>, h: nat): seq<string>
    requires h <= |kt|
    decreases |kt| - h
  {
    if h == |kt| then [] else kt[h] + NamesFrom(kt, h + 1)
  }

  lemma {:induction false} NamesAreKeys(b: seq<seq<Pair<Contact>>>, h: nat)
    requires h <= |b|
    ensures NamesFrom(KeyTable(b), h) == Keys(EnumerateFrom(b, h))
    decreases |b| - h
  {
    hide Keys;
    if h == |b| {
    } else {
      NamesAreKeys(b, h + 1);
      KeysConcat(b[h], EnumerateFrom(b, h + 1));
    }
  }

  /** Those before bucket h. */
  function NamesBefore(kt: seq<seq<string>>, h: nat): seq<string>
    requires h <= |kt|
  {
    if h == 0 then [] else NamesBefore(kt, h - 1) + kt[h - 1]
  }

  lemma {:induction false} NamesSplit(kt: seq<seq<string>>, h: nat)
    requires h <= |kt|
    ensures NamesBefore(kt, h) + NamesFrom(kt, h) == NamesFrom(kt, 0)
  {
    if h > 0 {
      NamesSplit(kt, h - 1);
    }
  }

  /** The j-th key of bucket h comes after the keys of the buckets before it. */
  lemma {:induction false} NamesAt(kt: seq<seq<string>>, h: nat, j: nat)
    requires h < |kt| && j < |kt[h]|
    ensures |NamesBefore(kt, h)| + j < |NamesFrom(kt, 0)|
    ensures NamesFrom(kt, 0)[|NamesBefore(kt, h)| + j] == kt[h][j]
  {
    NamesSplit(kt, h);
  }

  /** Rewriting the wait of one entry where it stands. */
  lemma {:induction false} WaitRewritten(b: seq<seq<Pair<Contact>>>, h: nat, i: nat, t: int)
    requires Tables.Valid(b) && h < |b| && i < |b[h]|
    ensures var old_ := b[h][i];
            var b' := b[h := b[h][i := Pair(old_.key, Contact(old_.val.addr, t))]];
            && Tables.Valid(b') && Waits(Enumerate(b')) == Waits(Enumerate(b))[old_.key := t]
            && Book(Enumerate(b')) == Book(Enumerate(b)) && KeyTable(b') == KeyTable(b)
            && WaitingOf(Enumerate(b), old_.key) == old_.val.waiting && old_.key in Waits(Enumerate(b))
  {
    var old_ := b[h][i];
    var e := Pair(old_.key, Contact(old_.val.addr, t));
    FoundInPlace(b, h, i);
    assert b[h := b[h][i := e]] == Tables.Add(b, e);
    AddRefines(b, e);
    FullScanIsBucketScan(b, old_.key);
    ToMapGet(Enumerate(b), old_.key);
    SameRow(b, h, i, e);
  }

  lemma {:induction false} FoundInPlace(b: seq<seq<Pair<Contact>>>, h: nat, i: nat)
    requires Tables.Valid(b) && h < |b| && i < |b[h]|
    ensures Hashing.Hash(b[h][i].key) == h && Position(b[h], b[h][i].key) == i
  {
    hide Hashing.Hash;
    assert UniqueKeys(b[h]) && AllHash(b[h], h);
    var k := Position(b[h], b[h][i].key);
    assert k <= i;
  }

  lemma {:induction false} SameRow(b: seq<seq<Pair<Contact>>>, h: nat, i: nat, e: Pair<Contact>)
    requires h < |b| && i < |b[h]| && e.key == b[h][i].key
    ensures KeyTable(b[h := b[h][i := e]]) == KeyTable(b)
  {
    var c, c' := b[h], b[h][i := e];
    assert Keys(c') == Keys(c) by {
      assert forall j | 0 <= j < |c| :: Keys(c')[j] == c'[j].key == c[j].key == Keys(c)[j];
    }
  }

  class Pinger {
    const events: EventLoop<Callback, string>
    const nodes: HashMap<Contact>

    constructor (events: EventLoop<Callback, string>, nodes: HashMap<Contact>)
      ensures this.events == events && this.nodes == nodes
    {
      this.events, this.nodes := events, nodes;
    }

    /** The loop and the table of nodes are in the state w. */
    ghost predicate Is(w: World)
      reads this, events, events.Repr, nodes, nodes.Repr
    {
      && events.Repr !! nodes.Repr && events.Valid() && nodes.Valid()
      && events.Table() == w.loop.table && events.Stack() == w.loop.toRemove
      && Waits(nodes.Elements()) == w.waiting
    }

    /** `entry` is an entry of the table: the i-th of bucket h. */
    ghost predicate Holds(entry: HashMaps.Entry<Contact>, h: nat, i: nat)
      reads nodes
    {
      h < |nodes.chains| && i < |nodes.chains[h]| && nodes.chains[h][i] == entry
    }

    /** `node_entry->waiting_pong_since = t` */
    method SetWait(entry: HashMaps.Entry<Contact>, ghost h: nat, ghost i: nat, t: int, ghost w: World)
      requires Is(w) && Holds(entry, h, i)
      modifies nodes.Repr
      ensures Is(w.(waiting := w.waiting[old(entry.value.key) := t])) && entry.value.key == old(entry.value.key)
      ensures nodes.chains == old(nodes.chains) && nodes.data == old(nodes.data)
      ensures KeyTable(nodes.buckets) == old(KeyTable(nodes.buckets))
      ensures nodes.Repr == old(nodes.Repr) && Book(nodes.Elements()) == old(Book(nodes.Elements()))
    {
      hide Waits, Book, KeyTable, Tables.Valid, Enumerate, Disjoint;
      ghost var b := nodes.buckets;
      assert b[h][i] == entry.value;
      WaitRewritten(b, h, i, t);
      nodes.SetValue(h, i, entry, Pair(entry.value.key, Contact(entry.value.val.addr, t)));
    }

    /** `ping_node` */
    method PingNode(entry: HashMaps.Entry<Contact>, connected: Option<int>, now: int,
                    ghost h: nat, ghost i: nat, ghost w: World)
      requires Is(w) && Holds(entry, h, i) && entry.value.key in w.waiting && now > 0
      modifies events.Repr, nodes.Repr
      ensures Is(Pinged(w, old(entry.value.key), connected, now, events.max))
      ensures nodes.chains == old(nodes.chains) && nodes.data == old(nodes.data) && nodes.Repr == old(nodes.Repr)
      ensures KeyTable(nodes.buckets) == old(KeyTable(nodes.buckets))
    {
      hide Waits, KeyTable, Tables.Valid, Enumerate, Disjoint, AddAll;
      WaitOfEntry(entry, h, i, w);
      if entry.value.val.waiting == 0 {
        ghost var x := entry.value.key;
        if connected.None? {
          SetWait(entry, h, i, -1, w);
          return;
        }
        SetWait(entry, h, i, now, w);
        var code := events.AddFd(Reg(connected.value, PING_EVENTS, PingSock, entry.value.key));
      }
    }

    /** What the entry carries is what the world awaits. */
    lemma {:induction false} WaitOfEntry(entry: HashMaps.Entry<Contact>, h: nat, i: nat, w: World)
      requires Is(w) && Holds(entry, h, i)
      ensures entry.value.key in w.waiting && w.waiting[entry.value.key] == entry.value.val.waiting
    {
      var b := nodes.buckets;
      assert b[h][i] == entry.value;
      WaitRewritten(b, h, i, 0);
      ToMapGet(Enumerate(b), entry.value.key);
    }

    /** `ping_sock` for the next entry of the loop, whose argument is `entry`: a
        pong ends the wait and schedules the descriptor, which is the step Pong;
        anything else changes nothing and returns -1. */
    method OnPingReply(fd: int, entry: HashMaps.Entry<Contact>, pong: bool,
                       ghost h: nat, ghost i: nat, ghost w: World) returns (code: int)
      requires Is(w) && Sound(w) && Enabled(w, if pong then Pong else NoPong) && Holds(entry, h, i)
      requires var x := w.loop.table[w.next]; fd == x.fd && entry.value.key == x.arg
      requires events.nextToRemove < events.max
      modifies events.Repr, nodes.Repr
      ensures pong ==> code == 0 && Is(Do(w, Pong, events.max))
      ensures !pong ==> code == -1 && Is(w)
      ensures !pong ==> events.nextToRemove == old(events.nextToRemove)
    {
      hide Sound, Waits, KeyTable, Tables.Valid, Enumerate, Disjoint, AddAll;
      NothingAdded(w.loop.table, events.max);
      if !pong {
        return -1;
      }
      SetWait(entry, h, i, 0, w);
      ghost var t := events.Table();
      events.ScheduleRemove(fd);
      assert events.Table() == t;
      code := 0;
    }

    /** The callback, and what `event_loop_run_loop` does with its result: the
        whole step, with or without a pong. */
    method CallPing(entry: HashMaps.Entry<Contact>, pong: bool, ghost h: nat, ghost i: nat, ghost w: World, fd: int)
      requires Is(w) && Sound(w) && Enabled(w, if pong then Pong else NoPong) && Holds(entry, h, i)
      requires var x := w.loop.table[w.next]; fd == x.fd && entry.value.key == x.arg
      requires events.nextToRemove < events.max
      modifies events.Repr, nodes.Repr
      ensures Is(Do(w, if pong then Pong else NoPong, events.max))
    {
      hide Sound, Waits, KeyTable, Tables.Valid, Enumerate, Disjoint, AddAll;
      NothingAdded(w.loop.table, events.max);
      var code := OnPingReply(fd, entry, pong, h, i, w);
      if code < 0 {
        ghost var t := events.Table();
        events.ScheduleRemove(fd);
        assert events.Table() == t;
      }
    }

    /** What a walk needs of the heap: where a bucket's chain begins, and what
        comes after each of its entries. */
    lemma {:induction false} ChainFacts(h: nat, w: World)
      requires Is(w) && h < nodes.data.Length
      ensures |nodes.chains| == |nodes.buckets| == nodes.data.Length == Hashing.BUCKETS
      ensures nodes.data[h] == NodeAt(nodes.chains[h], 0)
      ensures forall j | 0 <= j < |nodes.chains[h]| :: nodes.chains[h][j].next == NodeAt(nodes.chains[h], j + 1)
      ensures |KeyTable(nodes.buckets)[h]| == |nodes.chains[h]|
      ensures forall j | 0 <= j < |nodes.chains[h]| :: KeyTable(nodes.buckets)[h][j] == nodes.chains[h][j].value.key
    {
      hide Waits;
      assert ChainLinked(nodes.data[h], nodes.chains[h]) && Carries(nodes.chains[h], nodes.buckets[h]);
      assert forall j | 0 <= j < |nodes.chains[h]| :: nodes.buckets[h][j] == nodes.chains[h][j].value;
    }

    /** What a walk over the entries leaves alone. */
    twostate predicate SameEntries()
      reads nodes
    {
      nodes.chains == old(nodes.chains) && nodes.data == old(nodes.data) && nodes.Repr == old(nodes.Repr)
    }

    /** The inner loop of `ping_all_nodes`: one chain. */
    method PingChain(h: nat, k0: nat, connects: seq<Option<int>>, now: int, ghost names: seq<string>, ghost w: World)
      returns (k: nat)
      requires now > 0 && |connects| == |names| && forall i | 0 <= i < |names| :: names[i] in w.waiting
      requires k0 <= |names| && Is(PingedAll(w, names, connects, now, k0, events.max)) && h < nodes.data.Length
      requires names == NamesFrom(KeyTable(nodes.buckets), 0) && |nodes.buckets| == nodes.data.Length
      requires k0 == |NamesBefore(KeyTable(nodes.buckets), h)|
      modifies events.Repr, nodes.Repr
      ensures k <= |names| && Is(PingedAll(w, names, connects, now, k, events.max))
      ensures SameEntries() && KeyTable(nodes.buckets) == old(KeyTable(nodes.buckets))
      ensures k == |NamesBefore(old(KeyTable(nodes.buckets)), h + 1)|
    {
      hide Is, Pinged, PingedAll, NamesFrom, NamesBefore, KeyTable;
      ghost var kt := KeyTable(nodes.buckets);
      ChainFacts(h, PingedAll(w, names, connects, now, k0, events.max));
      var current := nodes.data[h];
      ghost var j := 0;
      k := k0;
      while current != null
        invariant h < |nodes.chains| && j <= |kt[h]| == |nodes.chains[h]| && k == k0 + j <= |names|
        invariant current == NodeAt(nodes.chains[h], j)
        invariant SameEntries() && KeyTable(nodes.buckets) == kt
        invariant Is(PingedAll(w, names, connects, now, k, events.max))
        decreases |kt[h]| - j
      {
        ghost var before := PingedAll(w, names, connects, now, k, events.max);
        ChainFacts(h, before);
        NamesAt(kt, h, j);
        PingedNext(w, names, connects, now, k, events.max);
        PingNode(current, connects[k], now, h, j, before);
        k := k + 1;
        ChainFacts(h, PingedAll(w, names, connects, now, k, events.max));
        current, j := current.next, j + 1;
      }
      OneRowMore(kt, h);
    }

    lemma {:induction false} PingedNext(w: World, names: seq<string>, connects: seq<Option<int>>, now: int,
                                        k: nat, max: nat)
      requires |connects| == |names| && (forall i | 0 <= i < |names| :: names[i] in w.waiting) && k < |names|
      ensures var before := PingedAll(w, names, connects, now, k, max);
              names[k] in before.waiting &&
              PingedAll(w, names, connects, now, k + 1, max) == Pinged(before, names[k], connects[k], now, max)
    {
      hide Pinged;
    }

    lemma {:induction false} NothingPinged(w: World, names: seq<string>, connects: seq<Option<int>>, now: int, max: nat)
      requires forall i | 0 <= i < |names| :: names[i] in w.waiting
      ensures PingedAll(w, names, connects, now, 0, max) == w
    {
    }

    lemma {:induction false} TableSize(w: World)
      requires Is(w)
      ensures nodes.Valid() && |nodes.buckets| == nodes.data.Length
    {
    }

    lemma {:induction false} OneRowMore(kt: seq<seq<string>>, h: nat)
      requires h < |kt|
      ensures |NamesBefore(kt, h + 1)| == |NamesBefore(kt, h)| + |kt[h]|
    {
    }

    /** `ping_all_nodes`: every entry of every chain in turn, as ping steps in the
        order of the table's enumeration. That w awaits every name is part of Is. */
    method PingAllNodes(connects: seq<Option<int>>, now: int, ghost names: seq<string>, ghost w: World)
      requires Is(w) && now > 0 && names == Keys(nodes.Elements()) && |connects| == |names|
      requires forall i | 0 <= i < |names| :: names[i] in w.waiting
      modifies events.Repr, nodes.Repr
      ensures Is(PingedAll(w, names, connects, now, |names|, events.max))
    {
      hide Is, Pinged, PingedAll, NamesFrom, NamesBefore, KeyTable, Keys, EnumerateFrom, Tables.Valid, HashMap.Shape;
      TableSize(w);
      NothingPinged(w, names, connects, now, events.max);
      ghost var kt := KeyTable(nodes.buckets);
      NamesAreKeys(nodes.buckets, 0);
      NoNamesYet(kt);
      var i, k := 0, 0;
      while i < nodes.data.Length
        invariant 0 <= i <= nodes.data.Length == |kt| == |nodes.buckets|
        invariant SameEntries() && KeyTable(nodes.buckets) == kt
        invariant k == |NamesBefore(kt, i)| <= |names|
        invariant Is(PingedAll(w, names, connects, now, k, events.max))
      {
        k := PingChain(i, k, connects, now, names, w);
        i := i + 1;
      }
      NamesSplit(kt, |kt|);
      AllNames(kt);
    }

    lemma {:induction false} NoNamesYet(kt: seq<seq<string>>)
      ensures NamesBefore(kt, 0) == []
    {
    }

    lemma {:induction false} AllNames(kt: seq<seq<string>>)
      ensures NamesFrom(kt, |kt|) == []
    {
    }
  }
}
