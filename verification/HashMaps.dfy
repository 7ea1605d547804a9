/** The heap form of the chained table: linked entries hanging off an array of
    bucket heads. A `struct hashmap_entry **` cursor is the pair of the entry
    whose `next` it points at (null for the bucket head itself) and that
    field's current value. */
module HashMaps {
  import opened Hashing
  import opened Tables
  import opened Options

  class Entry<V> {
    var value: Pair<V>
    var next: Entry?<V>

    constructor (value: Pair<V>)
      ensures this.value == value && next == null
    {
      this.value := value;
      this.next := null;
    }
  }

  /** The i-th entry of a chain; null past its end. */
  ghost function NodeAt<V>(c: seq<Entry<V>>, i: nat): Entry?<V> {
    if i < |c| then c[i] else null
  }

  /** The links from a bucket head spell out the chain. */
  ghost predicate ChainLinked<V>(head: Entry?<V>, c: seq<Entry<V>>)
    reads c
  {
    && head == NodeAt(c, 0)
    && (forall i {:trigger c[i].next} | 0 <= i < |c| :: c[i].next == NodeAt(c, i + 1))
  }

  /** The entries of a chain carry these elements. */
  ghost predicate Carries<V>(c: seq<Entry<V>>, vs: seq<Pair<V>>)
    reads c
  {
    && |vs| == |c|
    && (forall i {:trigger c[i].value} {:trigger vs[i]} | 0 <= i < |c| :: vs[i] == c[i].value)
  }

  /** Chains are acyclic and disjoint: no entry occurs twice. */
  ghost predicate Disjoint<V>(chains: seq<seq<Entry<V>>>) {
    forall h, i, h', j | 0 <= h < |chains| && 0 <= i < |chains[h]| &&
                         0 <= h' < |chains| && 0 <= j < |chains[h']| ::
      chains[h][i] == chains[h'][j] ==> h == h' && i == j
  }

  lemma {:induction false} DisjointAppend<V>(chains: seq<seq<Entry<V>>>, h: nat, n: Entry<V>)
    requires Disjoint(chains) && h < |chains|
    requires forall h', i | 0 <= h' < |chains| && 0 <= i < |chains[h']| :: chains[h'][i] != n
    ensures Disjoint(chains[h := chains[h] + [n]])
  {
  }

  lemma {:induction false} DisjointCut<V>(chains: seq<seq<Entry<V>>>, h: nat, i: nat)
    requires Disjoint(chains) && h < |chains| && i < |chains[h]|
    ensures Disjoint(chains[h := chains[h][..i] + chains[h][i + 1..]])
  {
    var c := chains[h][..i] + chains[h][i + 1..];
    assert forall j | 0 <= j < |c| :: c[j] == if j < i then chains[h][j] else chains[h][j + 1];
  }

  lemma {:induction false} NotElsewhere<V>(chains: seq<seq<Entry<V>>>, h: nat)
    requires Disjoint(chains) && h < |chains|
    ensures forall h', i | 0 <= h' < |chains| && h' != h && 0 <= i < |chains[h]| :: chains[h][i] !in chains[h']
    ensures forall i, j | 0 <= i < j < |chains[h]| :: chains[h][i] != chains[h][j]
  {
  }

  class HashMap<V> {
    var data: array<Entry?<V>>
    ghost var chains: seq<seq<Entry<V>>>
    ghost var buckets: seq<seq<Pair<V>>>  // the table this object stands for
    ghost var Repr: set<object>

    ghost predicate Owned()
      reads this
    {
      && this in Repr && data in Repr
      && (forall h, i | 0 <= h < |chains| && 0 <= i < |chains[h]| :: chains[h][i] in Repr)
    }

    /** The heap links spell out `chains`. */
    ghost predicate Linked()
      requires Owned()
      reads this, Repr
    {
      && data.Length == |chains| == |buckets|
      && (forall h | 0 <= h < |chains| :: ChainLinked(data[h], chains[h]) && Carries(chains[h], buckets[h]))
    }

    /** Everything but the hash discipline. */
    ghost predicate Shape()
      reads this, Repr
    {
      Owned() && Disjoint(chains) && Linked()
    }

    ghost predicate Valid()
      reads this, Repr
      ensures Valid() ==> this in Repr
    {
      Shape() && Tables.Valid(buckets)
    }

    /** What the table contains, in the order of its enumeration. */
    ghost function Elements(): seq<Pair<V>>
      requires Valid()
      reads this, Repr
    {
      Enumerate(buckets)
    }

    /** `hashmap_create`, with the program's one size and hash. */
    constructor ()
      ensures Valid() && fresh(Repr)
      ensures buckets == Empty()
    {
      data := new Entry?<V>[BUCKETS](_ => null);
      chains := seq(BUCKETS, _ => []);
      buckets := Empty();
      new;
      Repr := {this, data};
    }

    /** Where a key's walk along its bucket stops. */
    method Walk(h: nat, key: string) returns (prev: Entry?<V>, cur: Entry?<V>, ghost i: nat)
      requires Valid() && h < BUCKETS
      ensures i == Position(buckets[h], key)
      ensures cur == NodeAt(chains[h], i)
      ensures prev == if i == 0 then null else NodeAt(chains[h], i - 1)
    {
      prev, cur, i := null, data[h], 0;
      while cur != null && cur.value.key != key
        invariant i <= |chains[h]|
        invariant cur == NodeAt(chains[h], i)
        invariant prev == if i == 0 then null else NodeAt(chains[h], i - 1)
        invariant forall j | 0 <= j < i :: buckets[h][j].key != key
        decreases |chains[h]| - i
      {
        prev, cur, i := cur, cur.next, i + 1;
      }
    }

    /** Storing a new entry through a cursor that reached the end of a chain. */
    method LinkLast(h: nat, prev: Entry?<V>, e: Pair<V>)
      requires Shape() && h < |chains|
      requires prev == if |chains[h]| == 0 then null else NodeAt(chains[h], |chains[h]| - 1)
      modifies Repr
      ensures Shape() && fresh(Repr - old(Repr))
      ensures buckets == old(buckets)[h := old(buckets)[h] + [e]]
    {
      hide Tables.Valid, Disjoint;
      assert prev != null ==> forall h' | 0 <= h' < |chains| && h' != h :: prev !in chains[h'] by {
        NotElsewhere(chains, h);
      }
      var n := new Entry(e);
      DisjointAppend(chains, h, n);
      chains, buckets, Repr := chains[h := chains[h] + [n]], buckets[h := buckets[h] + [e]], Repr + {n};
      if prev == null {
        data[h] := n;
      } else {
        prev.next := n;
      }
      assert ChainLinked(data[h], chains[h]) && Carries(chains[h], buckets[h]);
    }

    /** Assigning `(*pos)->value`. */
    method SetValue(ghost h: nat, ghost i: nat, cur: Entry<V>, e: Pair<V>)
      requires Shape() && h < |chains| && i < |chains[h]| && cur == chains[h][i]
      modifies Repr
      ensures Shape() && Repr == old(Repr) && chains == old(chains) && data == old(data)
      ensures buckets == old(buckets)[h := old(buckets)[h][i := e]]
    {
      cur.value := e;
      buckets := buckets[h := buckets[h][i := e]];
    }

    /** `*pos = (*pos)->next`. */
    method Unlink(h: nat, ghost i: nat, prev: Entry?<V>, cur: Entry<V>)
      requires Shape() && h < |chains| && i < |chains[h]| && cur == chains[h][i]
      requires prev == if i == 0 then null else NodeAt(chains[h], i - 1)
      modifies Repr
      ensures Shape() && Repr == old(Repr)
      ensures buckets == old(buckets)[h := old(buckets)[h][..i] + old(buckets)[h][i + 1..]]
    {
      hide Tables.Valid, Disjoint;
      NotElsewhere(chains, h);
      assert prev != null ==> forall h' | 0 <= h' < |chains| && h' != h :: prev !in chains[h'];
      DisjointCut(chains, h, i);
      ghost var c := chains[h][..i] + chains[h][i + 1..];
      chains, buckets := chains[h := c], buckets[h := buckets[h][..i] + buckets[h][i + 1..]];
      if prev == null {
        data[h] := cur.next;
      } else {
        prev.next := cur.next;
      }
      assert ChainLinked(data[h], c) && Carries(c, buckets[h]);
    }

    /** `hashmap_add_element` */
    method Add(e: Pair<V>)
      requires Valid() && Ascii(e.key)
      modifies Repr
      ensures Valid() && fresh(Repr - old(Repr))
      ensures buckets == Tables.Add(old(buckets), e)
      ensures Elements() == Put(old(Elements()), e)
    {
      LayoutOfEnumeration(buckets);
      var hash := PolynomialHash(e.key, PRIME as int32, BUCKETS as int32);
      var h := hash as nat;
      ghost var b := buckets;
      var prev, cur, i := Walk(h, e.key);
      if cur == null {
        LinkLast(h, prev, e);
      } else {
        SetValue(h, i, cur, e);
      }
      assert buckets == Tables.Add(b, e);
    }

    /** `hashmap_remove_element` */
    method Remove(key: string)
      requires Valid() && Ascii(key)
      modifies Repr
      ensures Valid() && Repr == old(Repr)
      ensures buckets == Tables.Remove(old(buckets), key)
    {
      var hash := PolynomialHash(key, PRIME as int32, BUCKETS as int32);
      var h := hash as nat;
      ghost var b := buckets;
      var prev, cur, i := Walk(h, key);
      if cur != null {
        Unlink(h, i, prev, cur);
      }
      assert buckets == Tables.Remove(b, key);
    }

    /** The inner loop of the look-up: one chain. */
    method ScanChain(h: nat, accepts: Pair<V> -> bool) returns (r: Option<Pair<V>>)
      requires Shape() && h < |chains|
      ensures r == Find(buckets[h], accepts)
    {
      var current := data[h];
      ghost var j := 0;
      while current != null
        invariant j <= |chains[h]|
        invariant current == NodeAt(chains[h], j)
        invariant Find(buckets[h], accepts) == Find(buckets[h][j..], accepts)
        decreases |chains[h]| - j
      {
        assert buckets[h][j] == current.value;
        if accepts(current.value) {
          return Some(current.value);
        }
        current, j := current.next, j + 1;
      }
      return None;
    }

    /** `hashmap_look_up_element`: the whole table is scanned, whatever the
        comparison; the first element accepted is found. */
    method LookUp(accepts: Pair<V> -> bool) returns (r: Option<Pair<V>>)
      requires Valid()
      ensures r == Find(Elements(), accepts)
    {
      hide Find;
      var i := 0;
      while i < data.Length
        invariant 0 <= i <= data.Length
        invariant Find(Elements(), accepts) == Find(EnumerateFrom(buckets, i), accepts)
      {
        var found := ScanChain(i, accepts);
        FindConcat(buckets[i], EnumerateFrom(buckets, i + 1), accepts);
        if found.Some? {
          return found;
        }
        i := i + 1;
      }
      r := None;
    }

    /** The look-up under the table's own comparison. */
    method LookUpKey(key: string) returns (r: Option<V>)
      requires Valid()
      ensures r == Get(Elements(), key)
      ensures r == Get(buckets[Hash(key)], key)
    {
      var accepts := (x: Pair<V>) => x.key == key;
      var found := LookUp(accepts);
      FindByKey(Elements(), key, accepts);
      FullScanIsBucketScan(buckets, key);
      r := if found.Some? then Some(found.value.val) else None;
    }

    /** The inner loop of the enumeration: one chain, in order. */
    method CollectChain(h: nat) returns (entries: seq<Pair<V>>)
      requires Shape() && h < |chains|
      ensures entries == buckets[h]
    {
      var current := data[h];
      entries := [];
      while current != null
        invariant |entries| <= |chains[h]|
        invariant current == NodeAt(chains[h], |entries|)
        invariant entries == buckets[h][..|entries|]
        decreases |chains[h]| - |entries|
      {
        assert buckets[h][|entries|] == current.value;
        entries := entries + [current.value];
        current := current.next;
      }
    }

    /** `hashmap_get_entries`, the walk shared by `hashmap_for_each_element`. */
    method GetEntries() returns (entries: seq<Pair<V>>)
      requires Valid()
      ensures entries == Elements()
      ensures Layout(entries) == buckets
    {
      hide Layout;
      entries := [];
      var i := 0;
      while i < data.Length
        invariant 0 <= i <= data.Length
        invariant entries + EnumerateFrom(buckets, i) == Elements()
      {
        var chain := CollectChain(i);
        assert entries + (chain + EnumerateFrom(buckets, i + 1)) == (entries + chain) + EnumerateFrom(buckets, i + 1);
        entries := entries + chain;
        i := i + 1;
      }
      LayoutOfEnumeration(buckets);
    }
  }
}
