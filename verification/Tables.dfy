/** The chained hash table as a value: one chain of elements per bucket. An
    element is a key and the rest of its record. */
module Tables {
  import opened Hashing
  import opened Options

  /** An element of a table: `json_kv_pair`, or a node keyed by its name. */
  datatype Pair<V> = Pair(key: string, val: V)

  /** Position of the first element with key k, or the chain's length. */
  function Position<V>(c: seq<Pair<V>>, k: string): (i: nat)
    ensures i <= |c|
    ensures forall j | 0 <= j < i :: c[j].key != k
    ensures i < |c| ==> c[i].key == k
  {
    if c == [] || c[0].key == k then 0 else 1 + Position(c[1..], k)
  }

  /** Adding to a chain replaces in place, or appends. */
  function ChainAdd<V>(c: seq<Pair<V>>, e: Pair<V>): seq<Pair<V>> {
    var i := Position(c, e.key);
    if i < |c| then c[i := e] else c + [e]
  }

  /** Removing from a chain unlinks the first element with the key. */
  function ChainRemove<V>(c: seq<Pair<V>>, k: string): seq<Pair<V>> {
    var i := Position(c, k);
    if i < |c| then c[..i] + c[i + 1..] else c
  }

  ghost predicate UniqueKeys<V>(c: seq<Pair<V>>) {
    forall i, j | 0 <= i < j < |c| :: c[i].key != c[j].key
  }

  /** Each element sits in its own hash bucket; keys are unique. */
  ghost predicate Valid<V>(b: seq<seq<Pair<V>>>) {
    && |b| == BUCKETS
    && (forall h | 0 <= h < |b| :: UniqueKeys(b[h]) && AllHash(b[h], h))
  }

  ghost predicate AllHash<V>(c: seq<Pair<V>>, h: nat) {
    forall i | 0 <= i < |c| :: Hash(c[i].key) == h
  }

  function Empty<V>(): (b: seq<seq<Pair<V>>>)
    ensures Valid(b)
  {
    seq(BUCKETS, _ => [])
  }

  function Add<V>(b: seq<seq<Pair<V>>>, e: Pair<V>): (r: seq<seq<Pair<V>>>)
    requires |b| == BUCKETS
    ensures |r| == BUCKETS
    ensures Valid(b) ==> Valid(r)
  {
    var h := Hash(e.key);
    b[h := ChainAdd(b[h], e)]
  }

  function Remove<V>(b: seq<seq<Pair<V>>>, k: string): (r: seq<seq<Pair<V>>>)
    requires |b| == BUCKETS
    ensures |r| == BUCKETS
    ensures Valid(b) ==> Valid(r)
  {
    var h := Hash(k);
    b[h := ChainRemove(b[h], k)]
  }

  /** Bucket-major enumeration from bucket h on. */
  function EnumerateFrom<V>(b: seq<seq<Pair<V>>>, h: nat): seq<Pair<V>>
    requires h <= |b|
    decreases |b| - h
  {
    if h == |b| then [] else b[h] + EnumerateFrom(b, h + 1)
  }

  /** The order of `hashmap_get_entries` and of the printed members. */
  function Enumerate<V>(b: seq<seq<Pair<V>>>): seq<Pair<V>> {
    EnumerateFrom(b, 0)
  }

  lemma {:induction false} EnumerateEmptyFrom<V>(h: nat)
    requires h <= BUCKETS
    ensures EnumerateFrom<V>(Empty(), h) == []
    decreases BUCKETS - h
  {
    if h < BUCKETS {
      EnumerateEmptyFrom<V>(h + 1);
    }
  }

  lemma {:induction false} EnumerateEmpty<V>()
    ensures Enumerate<V>(Empty()) == []
  {
    EnumerateEmptyFrom<V>(0);
  }

  /** The elements of one bucket, in order. */
  function InBucket<V>(es: seq<Pair<V>>, h: nat): (c: seq<Pair<V>>)
    ensures AllHash(c, h)
    ensures |c| <= |es|
  {
    if es == [] then []
    else if Hash(es[0].key) == h then [es[0]] + InBucket(es[1..], h)
    else InBucket(es[1..], h)
  }

  /** The chains that an enumeration comes from. */
  function Layout<V>(es: seq<Pair<V>>): (b: seq<seq<Pair<V>>>)
    ensures |b| == BUCKETS
  {
    seq(BUCKETS, h requires h >= 0 => InBucket(es, h))
  }

  /** What an enumeration looks like: buckets in order, keys unique. */
  ghost predicate Canonical<V>(es: seq<Pair<V>>) {
    && UniqueKeys(es)
    && SortedByBucket(es)
  }

  ghost predicate SortedByBucket<V>(es: seq<Pair<V>>) {
    forall i, j | 0 <= i < j < |es| :: Hash(es[i].key) <= Hash(es[j].key)
  }

  // ----- Enumerations and layouts determine each other

  lemma {:induction false} InBucketConcat<V>(a: seq<Pair<V>>, b: seq<Pair<V>>, h: nat)
    ensures InBucket(a + b, h) == InBucket(a, h) + InBucket(b, h)
  {
    if a == [] {
      assert a + b == b;
    } else {
      assert (a + b)[1..] == a[1..] + b;
      InBucketConcat(a[1..], b, h);
    }
  }

  lemma {:induction false} InBucketSame<V>(c: seq<Pair<V>>, h: nat, h': nat)
    requires AllHash(c, h)
    ensures InBucket(c, h') == if h == h' then c else []
  {
    if c != [] {
      InBucketSame(c[1..], h, h');
    }
  }

  /** Elements of the buckets from h on, keys unique, buckets in order. */
  lemma {:induction false} EnumerateFromCanonical<V>(b: seq<seq<Pair<V>>>, h: nat)
    requires Valid(b) && h <= |b|
    ensures Canonical(EnumerateFrom(b, h))
    ensures forall i | 0 <= i < |EnumerateFrom(b, h)| :: h <= Hash(EnumerateFrom(b, h)[i].key)
    decreases |b| - h
  {
    if h < |b| {
      EnumerateFromCanonical(b, h + 1);
      assert UniqueKeys(b[h]) && AllHash(b[h], h);
    }
  }

  /** Every enumeration is canonical. */
  lemma {:induction false} EnumerateCanonical<V>(b: seq<seq<Pair<V>>>)
    requires Valid(b)
    ensures Canonical(Enumerate(b))
  {
    EnumerateFromCanonical(b, 0);
  }

  lemma {:induction false} InBucketOfChain<V>(b: seq<seq<Pair<V>>>, h: nat, h': nat)
    requires Valid(b) && h < |b|
    ensures InBucket(b[h], h') == if h == h' then b[h] else []
  {
    hide InBucket;
    InBucketSame(b[h], h, h');
  }

  lemma {:induction false} InBucketEnumerateFrom<V>(b: seq<seq<Pair<V>>>, h: nat, h': nat)
    requires Valid(b) && h <= |b| && h' < |b|
    ensures InBucket(EnumerateFrom(b, h), h') == if h <= h' then b[h'] else []
    decreases |b| - h
  {
    hide Valid, InBucket;
    if h == |b| {
    } else {
      InBucketConcat(b[h], EnumerateFrom(b, h + 1), h');
      InBucketEnumerateFrom(b, h + 1, h');
      InBucketOfChain(b, h, h');
    }
  }

  /** An enumeration determines every chain of the table it came from. */
  lemma {:induction false} LayoutOfEnumeration<V>(b: seq<seq<Pair<V>>>)
    requires Valid(b)
    ensures Layout(Enumerate(b)) == b
  {
    forall h | 0 <= h < BUCKETS ensures Layout(Enumerate(b))[h] == b[h] {
      InBucketEnumerateFrom(b, 0, h);
    }
  }

  /** Splitting a sorted sequence at bucket h: the front is that bucket, the
      rest has the same later buckets. */
  lemma {:induction false} SplitBucket<V>(es: seq<Pair<V>>, k: nat, h: nat)
    requires k <= |es| && h < BUCKETS
    requires AllHash(es[..k], h)
    requires forall i | k <= i < |es| :: Hash(es[i].key) > h
    ensures Layout(es)[h] == es[..k]
    ensures forall h' | h < h' < BUCKETS :: Layout(es)[h'] == Layout(es[k..])[h']
  {
    assert es == es[..k] + es[k..];
    InBucketConcat(es[..k], es[k..], h);
    InBucketSame(es[..k], h, h);
    NotInBucket(es[k..], h);
    forall h' | h < h' < BUCKETS ensures Layout(es)[h'] == Layout(es[k..])[h'] {
      InBucketConcat(es[..k], es[k..], h');
      InBucketSame(es[..k], h, h');
    }
  }

  lemma {:induction false} SortedRest<V>(es: seq<Pair<V>>, k: nat, h: nat)
    requires SortedByBucket(es) && k <= |es|
    requires forall i | k <= i < |es| :: h < Hash(es[i].key)
    ensures SortedByBucket(es[k..]) && forall i | 0 <= i < |es[k..]| :: h + 1 <= Hash(es[k..][i].key)
  {
    hide Hash;
  }

  lemma {:induction false} EnumerateLayoutStep<V>(es: seq<Pair<V>>, k: nat, h: nat)
    requires h < BUCKETS && k <= |es| && Layout(es)[h] == es[..k]
    requires forall h' | h < h' < BUCKETS :: Layout(es)[h'] == Layout(es[k..])[h']
    requires EnumerateFrom(Layout(es[k..]), h + 1) == es[k..]
    ensures EnumerateFrom(Layout(es), h) == es
  {
    hide Layout;
    EnumerateFromSame(Layout(es), Layout(es[k..]), h + 1);
    assert es == es[..k] + es[k..];
  }

  lemma {:induction false} EnumerateLayoutFrom<V>(es: seq<Pair<V>>, h: nat)
    requires h <= BUCKETS && SortedByBucket(es)
    requires forall i | 0 <= i < |es| :: h <= Hash(es[i].key)
    ensures EnumerateFrom(Layout(es), h) == es
    decreases BUCKETS - h
  {
    assert es == [] || Hash(es[0].key) < BUCKETS;
    if h < BUCKETS {
      hide Layout, EnumerateFrom, Hash;
      var k := FirstAbove(es, h);
      SplitBucket(es, k, h);
      SortedRest(es, k, h);
      EnumerateLayoutFrom(es[k..], h + 1);
      EnumerateLayoutStep(es, k, h);
    }
  }

  function FirstAbove<V>(es: seq<Pair<V>>, h: nat): (k: nat)
    ensures k <= |es|
    ensures forall i | 0 <= i < k :: Hash(es[i].key) <= h
    ensures k < |es| ==> Hash(es[k].key) > h
  {
    if es == [] || Hash(es[0].key) > h then 0 else 1 + FirstAbove(es[1..], h)
  }

  lemma {:induction false} NotInBucket<V>(es: seq<Pair<V>>, h: nat)
    requires forall i | 0 <= i < |es| :: Hash(es[i].key) != h
    ensures InBucket(es, h) == []
  {
    if es != [] {
      NotInBucket(es[1..], h);
    }
  }

  lemma {:induction false} EnumerateFromSame<V>(a: seq<seq<Pair<V>>>, b: seq<seq<Pair<V>>>, h: nat)
    requires |a| == |b| && h <= |a|
    requires forall i | h <= i < |a| :: a[i] == b[i]
    ensures EnumerateFrom(a, h) == EnumerateFrom(b, h)
    decreases |a| - h
  {
    if h < |a| {
      EnumerateFromSame(a, b, h + 1);
    }
  }

  /** Every canonical sequence is the enumeration of its own layout. */
  lemma {:induction false} EnumerationOfLayout<V>(es: seq<Pair<V>>)
    requires Canonical(es)
    ensures Valid(Layout(es))
    ensures Enumerate(Layout(es)) == es
  {
    EnumerateLayoutFrom(es, 0);
    forall h | 0 <= h < BUCKETS ensures UniqueKeys(Layout(es)[h]) && AllHash(Layout(es)[h], h) {
      InBucketUnique(es, h);
    }
  }

  lemma {:induction false} InBucketSubset<V>(es: seq<Pair<V>>, h: nat)
    ensures forall i | 0 <= i < |InBucket(es, h)| :: InBucket(es, h)[i] in es
  {
    if es != [] {
      InBucketSubset(es[1..], h);
    }
  }

  lemma {:induction false} InBucketUnique<V>(es: seq<Pair<V>>, h: nat)
    requires UniqueKeys(es)
    ensures UniqueKeys(InBucket(es, h))
  {
    if es != [] {
      InBucketUnique(es[1..], h);
      InBucketSubset(es[1..], h);
    }
  }

  // ----- Adding to a table seen through its enumeration

  /** The enumeration after adding e to the table that enumerates as es. */
  function Put<V>(es: seq<Pair<V>>, e: Pair<V>): seq<Pair<V>> {
    Enumerate(Add(Layout(es), e))
  }

  /** Adding several elements, first to last. */
  function PutAll<V>(es: seq<Pair<V>>, more: seq<Pair<V>>): seq<Pair<V>>
    decreases |more|
  {
    if more == [] then es else PutAll(Put(es, more[0]), more[1..])
  }

  lemma {:induction false} PutCanonical<V>(es: seq<Pair<V>>, e: Pair<V>)
    requires Canonical(es)
    ensures Canonical(Put(es, e))
    ensures Layout(Put(es, e)) == Add(Layout(es), e)
  {
    EnumerationOfLayout(es);
    EnumerateCanonical(Add(Layout(es), e));
    LayoutOfEnumeration(Add(Layout(es), e));
  }

  lemma {:induction false} NewKey<V>(es: seq<Pair<V>>, e: Pair<V>)
    requires UniqueKeys(es + [e])
    ensures Position(InBucket(es, Hash(e.key)), e.key) == |InBucket(es, Hash(e.key))|
  {
    InBucketSubset(es, Hash(e.key));
    forall j | 0 <= j < |es| ensures es[j].key != e.key {
      assert (es + [e])[j].key != (es + [e])[|es|].key;
    }
  }

  /** Adding an element that sorts last appends it. */
  lemma {:induction false} PutAppends<V>(es: seq<Pair<V>>, e: Pair<V>)
    requires Canonical(es + [e])
    ensures Put(es, e) == es + [e]
  {
    var h := Hash(e.key);
    NewKey(es, e);
    forall h' | 0 <= h' < BUCKETS ensures Layout(es + [e])[h'] == Add(Layout(es), e)[h'] {
      InBucketConcat(es, [e], h');
      InBucketSame([e], h, h');
    }
    assert Layout(es + [e]) == Add(Layout(es), e);
    EnumerationOfLayout(es + [e]);
  }

  /** Adding the elements of an enumeration, in its order, to an empty table
      gives that enumeration again; here from any point of it on. */
  lemma {:induction false} PutAllAppends<V>(es: seq<Pair<V>>, more: seq<Pair<V>>)
    requires Canonical(es + more)
    ensures PutAll(es, more) == es + more
    decreases |more|
  {
    if more == [] {
      assert es + more == es;
    } else {
      var e := more[0];
      assert es + more == (es + [e]) + more[1..];
      PrefixCanonical(es + [e], more[1..]);
      PutAppends(es, e);
      PutAllAppends(es + [e], more[1..]);
    }
  }

  lemma {:induction false} PrefixCanonical<V>(a: seq<Pair<V>>, b: seq<Pair<V>>)
    requires Canonical(a + b)
    ensures Canonical(a)
  {
    forall i, j | 0 <= i < j < |a|
      ensures a[i].key != a[j].key && Hash(a[i].key) <= Hash(a[j].key)
    {
      assert (a + b)[i] == a[i] && (a + b)[j] == a[j];
    }
  }

  lemma {:induction false} PutAllCanonical<V>(es: seq<Pair<V>>, more: seq<Pair<V>>)
    requires Canonical(es)
    ensures Canonical(PutAll(es, more))
    decreases |more|
  {
    if more != [] {
      PutCanonical(es, more[0]);
      PutAllCanonical(Put(es, more[0]), more[1..]);
    }
  }

  lemma {:induction false} EnumerateFromSubset<V>(b: seq<seq<Pair<V>>>, h: nat, x: Pair<V>)
    requires h <= |b| && x in EnumerateFrom(b, h)
    ensures exists h' | h <= h' < |b| :: x in b[h']
    decreases |b| - h
  {
    if h < |b| && x !in b[h] {
      EnumerateFromSubset(b, h + 1, x);
    }
  }

  lemma {:induction false} PutSubset<V>(es: seq<Pair<V>>, e: Pair<V>, x: Pair<V>)
    requires x in Put(es, e)
    ensures x in es || x == e
  {
    var b := Add(Layout(es), e);
    EnumerateFromSubset(b, 0, x);
    var h :| 0 <= h < |b| && x in b[h];
    InBucketSubset(es, h);
  }

  /** Nothing is in the table that was not put there. */
  lemma {:induction false} PutAllSubset<V>(es: seq<Pair<V>>, more: seq<Pair<V>>, x: Pair<V>)
    requires x in PutAll(es, more)
    ensures x in es || x in more
    decreases |more|
  {
    hide Put;
    if more != [] {
      PutAllSubset(Put(es, more[0]), more[1..], x);
      if x in Put(es, more[0]) {
        PutSubset(es, more[0], x);
      }
    }
  }

  lemma {:induction false} PutKeeps<V>(es: seq<Pair<V>>, e: Pair<V>)
    requires Canonical(es)
    ensures Get(Put(es, e), e.key) == Some(e.val)
  {
    EnumerationOfLayout(es);
    FullScanIsBucketScan(Add(Layout(es), e), e.key);
    ChainAddGet(Layout(es)[Hash(e.key)], e, e.key);
  }

  /** A table into which something was put is not empty. */
  lemma {:induction false} PutAllNonEmpty<V>(es: seq<Pair<V>>, more: seq<Pair<V>>)
    requires Canonical(es) && (es != [] || more != [])
    ensures PutAll(es, more) != []
    decreases |more|
  {
    hide Put;
    if more != [] {
      PutCanonical(es, more[0]);
      PutKeeps(es, more[0]);
      PutAllNonEmpty(Put(es, more[0]), more[1..]);
    }
  }

  /** Re-inserting a table's elements in enumeration order into an empty table
      reproduces every chain. */
  lemma {:induction false} Rebuild<V>(b: seq<seq<Pair<V>>>)
    requires Valid(b)
    ensures Layout(PutAll([], Enumerate(b))) == b
  {
    var es := Enumerate(b);
    EnumerateCanonical(b);
    assert [] + es == es;
    PutAllAppends([], es);
    LayoutOfEnumeration(b);
  }

  // ----- Scans

  /** The first element that the comparison accepts. */
  function Find<V>(es: seq<Pair<V>>, accepts: Pair<V> -> bool): (r: Option<Pair<V>>)
    ensures r.None? ==> forall x | x in es :: !accepts(x)
    ensures r.Some? ==> exists i | 0 <= i < |es| ::
                          r.value == es[i] && accepts(es[i]) && forall j | 0 <= j < i :: !accepts(es[j])
  {
    if es == [] then None
    else if accepts(es[0]) then Some(es[0])
    else
      var r := Find(es[1..], accepts);
      assert forall j | 0 < j < |es| :: es[1..][j - 1] == es[j];
      r
  }

  lemma {:induction false} FindConcat<V>(a: seq<Pair<V>>, b: seq<Pair<V>>, accepts: Pair<V> -> bool)
    ensures Find(a + b, accepts) == if Find(a, accepts).Some? then Find(a, accepts) else Find(b, accepts)
  {
    if a == [] {
      assert a + b == b;
    } else {
      assert (a + b)[1..] == a[1..] + b;
      FindConcat(a[1..], b, accepts);
    }
  }

  // ----- The table as a finite map

  /** What the first element with key k carries. */
  function Get<V>(es: seq<Pair<V>>, k: string): Option<V> {
    var i := Position(es, k);
    if i < |es| then Some(es[i].val) else None
  }

  /** Under the comparison of keys, the scan is the look-up. */
  lemma {:induction false} FindByKey<V>(es: seq<Pair<V>>, k: string, accepts: Pair<V> -> bool)
    requires forall x | x in es :: accepts(x) <==> x.key == k
    ensures Get(es, k) == if Find(es, accepts).Some? then Some(Find(es, accepts).value.val) else None
  {
    if es != [] {
      assert es[0] in es;
      FindByKey(es[1..], k, accepts);
    }
  }

  function ToMap<V>(es: seq<Pair<V>>): map<string, V> {
    if es == [] then map[] else ToMap(es[1..])[es[0].key := es[0].val]
  }

  lemma {:induction false} ToMapGet<V>(es: seq<Pair<V>>, k: string)
    ensures Get(es, k) == if k in ToMap(es) then Some(ToMap(es)[k]) else None
  {
    if es != [] {
      ToMapGet(es[1..], k);
    }
  }

  /** With unique keys the map has one entry for each element. */
  lemma {:induction false} ToMapSize<V>(es: seq<Pair<V>>)
    requires UniqueKeys(es)
    ensures |ToMap(es)| == |es|
  {
    if es != [] {
      ToMapSize(es[1..]);
      ToMapGet(es[1..], es[0].key);
      assert ToMap(es).Keys == ToMap(es[1..]).Keys + {es[0].key};
    }
  }

  lemma {:induction false} PositionConcat<V>(a: seq<Pair<V>>, b: seq<Pair<V>>, k: string)
    ensures Position(a + b, k) == if Position(a, k) < |a| then Position(a, k) else |a| + Position(b, k)
  {
    if a == [] {
      assert a + b == b;
    } else {
      assert (a + b)[1..] == a[1..] + b;
      PositionConcat(a[1..], b, k);
    }
  }

  lemma {:induction false} GetNothing<V>(k: string)
    ensures Get<V>([], k) == None
  {
  }

  lemma {:induction false} GetConcat<V>(a: seq<Pair<V>>, b: seq<Pair<V>>, k: string)
    ensures Get(a + b, k) == if Get(a, k).Some? then Get(a, k) else Get(b, k)
  {
    PositionConcat(a, b, k);
  }

  /** A key is not in another bucket than its own. */
  lemma {:induction false} GetElsewhere<V>(c: seq<Pair<V>>, h: nat, k: string)
    requires AllHash(c, h) && Hash(k) != h
    ensures Get(c, k) == None
  {
    hide Hash;
  }

  lemma {:induction false} PositionEnumerate<V>(b: seq<seq<Pair<V>>>, h: nat, k: string)
    requires Valid(b) && h <= |b|
    ensures Get(EnumerateFrom(b, h), k) == if h <= Hash(k) then Get(b[Hash(k)], k) else None
    decreases |b| - h
  {
    hide Get, AllHash;
    if h == |b| {
      GetNothing<V>(k);
    } else {
      GetConcat(b[h], EnumerateFrom(b, h + 1), k);
      PositionEnumerate(b, h + 1, k);
      assert AllHash(b[h], h);
      if h != Hash(k) {
        GetElsewhere(b[h], h, k);
      }
    }
  }

  /** Scanning the whole table for a key finds what its one bucket holds. */
  lemma {:induction false} FullScanIsBucketScan<V>(b: seq<seq<Pair<V>>>, k: string)
    requires Valid(b)
    ensures Get(Enumerate(b), k) == Get(b[Hash(k)], k)
  {
    PositionEnumerate(b, 0, k);
  }

  /** Replacing an element by one with its key moves no position. */
  lemma {:induction false} PositionUpdate<V>(c: seq<Pair<V>>, i: nat, e: Pair<V>, k: string)
    requires i < |c| && c[i].key == e.key
    ensures Position(c[i := e], k) == Position(c, k)
  {
    if i > 0 {
      assert c[i := e][1..] == c[1..][i - 1 := e];
      PositionUpdate(c[1..], i - 1, e, k);
    } else {
      assert c[i := e][1..] == c[1..];
    }
  }

  lemma {:induction false} ChainAddGet<V>(c: seq<Pair<V>>, e: Pair<V>, k: string)
    ensures Get(ChainAdd(c, e), k) == if k == e.key then Some(e.val) else Get(c, k)
  {
    var i := Position(c, e.key);
    if i < |c| {
      PositionUpdate(c, i, e, k);
    } else {
      PositionConcat(c, [e], k);
    }
  }

  lemma {:induction false} ChainRemoveGet<V>(c: seq<Pair<V>>, r: string, k: string)
    requires UniqueKeys(c)
    ensures Get(ChainRemove(c, r), k) == if k == r then None else Get(c, k)
  {
    var i := Position(c, r);
    if i < |c| {
      GetOnce(c, i, k);
      hide Get, Position;
      assert c == c[..i] + ([c[i]] + c[i + 1..]);
      GetConcat(c[..i], [c[i]] + c[i + 1..], k);
      GetConcat([c[i]], c[i + 1..], k);
      GetConcat(c[..i], c[i + 1..], k);
    }
  }

  lemma {:induction false} GetOnce<V>(c: seq<Pair<V>>, i: nat, k: string)
    requires UniqueKeys(c) && i < |c|
    ensures Get([c[i]], k) == if c[i].key == k then Some(c[i].val) else None
    ensures c[i].key == k ==> Get(c[..i], k) == None && Get(c[i + 1..], k) == None
  {
  }

  /** Adding is map update. */
  lemma {:induction false} AddRefines<V>(b: seq<seq<Pair<V>>>, e: Pair<V>)
    requires Valid(b)
    ensures ToMap(Enumerate(Add(b, e))) == ToMap(Enumerate(b))[e.key := e.val]
  {
    var m, m' := ToMap(Enumerate(b)), ToMap(Enumerate(Add(b, e)));
    forall k: string
      ensures k in m' <==> k in m[e.key := e.val]
      ensures k in m' ==> m'[k] == m[e.key := e.val][k]
    {
      ToMapGet(Enumerate(b), k);
      ToMapGet(Enumerate(Add(b, e)), k);
      FullScanIsBucketScan(b, k);
      FullScanIsBucketScan(Add(b, e), k);
      ChainAddGet(b[Hash(e.key)], e, k);
    }
  }

  lemma {:induction false} MemberInMap<V>(es: seq<Pair<V>>, x: Pair<V>)
    requires UniqueKeys(es)
    ensures x in es <==> x.key in ToMap(es) && ToMap(es)[x.key] == x.val
  {
    ToMapGet(es, x.key);
    var i := Position(es, x.key);
    if x in es {
      var j :| 0 <= j < |es| && es[j] == x;
      assert i == j;
    }
  }

  /** After adding e, e is there in place of what had its key. */
  lemma {:induction false} PutMember<V>(es: seq<Pair<V>>, e: Pair<V>, x: Pair<V>)
    requires Canonical(es)
    ensures x in Put(es, e) <==> x == e || (x in es && x.key != e.key)
  {
    EnumerationOfLayout(es);
    AddRefines(Layout(es), e);
    PutCanonical(es, e);
    hide Put, Layout, ToMap, Enumerate, Add;
    MemberInMap(es, x);
    MemberInMap(Put(es, e), x);
  }

  lemma {:induction false} PutAllSnoc<V>(es: seq<Pair<V>>, more: seq<Pair<V>>, e: Pair<V>)
    ensures PutAll(es, more + [e]) == Put(PutAll(es, more), e)
    decreases |more|
  {
    hide Put;
    if more == [] {
      assert more + [e] == [e];
      assert PutAll(es, [e]) == PutAll(Put(es, e), [e][1..]);
    } else {
      assert (more + [e])[0] == more[0] && (more + [e])[1..] == more[1..] + [e];
      PutAllSnoc(Put(es, more[0]), more[1..], e);
    }
  }

  /** The i-th addition is the last under its key. */
  ghost predicate LastUnderKey<V>(adds: seq<Pair<V>>, i: nat) {
    i < |adds| && forall j | i < j < |adds| :: adds[j].key != adds[i].key
  }

  /** x was added, and nothing later under its key. */
  ghost predicate Remains<V>(adds: seq<Pair<V>>, x: Pair<V>) {
    exists i: nat | i < |adds| :: LastUnderKey(adds, i) && adds[i] == x
  }

  lemma {:induction false} LastSnoc<V>(adds: seq<Pair<V>>, e: Pair<V>, i: nat)
    requires i <= |adds|
    ensures LastUnderKey(adds + [e], i) <==>
            i == |adds| || (LastUnderKey(adds, i) && adds[i].key != e.key)
  {
    var all := adds + [e];
    assert all[|adds|] == e && forall j | 0 <= j < |adds| :: all[j] == adds[j];
  }

  lemma {:induction false} RemainsSnoc<V>(adds: seq<Pair<V>>, e: Pair<V>, x: Pair<V>)
    ensures Remains(adds + [e], x) <==> x == e || (Remains(adds, x) && x.key != e.key)
  {
    hide LastUnderKey;
    var all := adds + [e];
    LastSnoc(adds, e, |adds|);
    assert all[|adds|] == e && forall j | 0 <= j < |adds| :: all[j] == adds[j];
    if Remains(adds, x) && x.key != e.key {
      var i: nat :| i < |adds| && LastUnderKey(adds, i) && adds[i] == x;
      LastSnoc(adds, e, i);
      assert all[i] == x;
    }
    if Remains(all, x) && x != e {
      var i: nat :| i < |all| && LastUnderKey(all, i) && all[i] == x;
      LastSnoc(adds, e, i);
    }
  }

  /** A table built by additions holds exactly those that nothing replaced later. */
  lemma {:induction false} PutAllHolds<V>(adds: seq<Pair<V>>, x: Pair<V>)
    ensures x in PutAll([], adds) <==> Remains(adds, x)
    decreases |adds|
  {
    hide Put, PutAll, Remains;
    if adds == [] {
      NothingRemains(x);
    } else {
      var init, e := adds[..|adds| - 1], adds[|adds| - 1];
      assert adds == init + [e];
      PutAllHolds(init, x);
      RemainsSnoc(init, e, x);
      PutAllSnoc([], init, e);
      PutAllCanonical([], init);
      PutMember(PutAll([], init), e, x);
    }
  }

  lemma {:induction false} NothingRemains<V>(x: Pair<V>)
    ensures x !in PutAll([], []) && !Remains([], x)
  {
  }

  /** Removing deletes one key of the map. */
  lemma {:induction false} RemoveRefines<V>(b: seq<seq<Pair<V>>>, r: string)
    requires Valid(b)
    ensures ToMap(Enumerate(Remove(b, r))) == ToMap(Enumerate(b)) - {r}
  {
    var m, m' := ToMap(Enumerate(b)), ToMap(Enumerate(Remove(b, r)));
    forall k: string
      ensures k in m' <==> k in m - {r}
      ensures k in m' ==> m'[k] == m[k]
    {
      ToMapGet(Enumerate(b), k);
      ToMapGet(Enumerate(Remove(b, r)), k);
      FullScanIsBucketScan(b, k);
      FullScanIsBucketScan(Remove(b, r), k);
      assert UniqueKeys(b[Hash(r)]);
      ChainRemoveGet(b[Hash(r)], r, k);
    }
  }

  datatype Op<V> = AddOp(e: Pair<V>) | RemoveOp(k: string)

  function Exec<V>(b: seq<seq<Pair<V>>>, ops: seq<Op<V>>): (r: seq<seq<Pair<V>>>)
    requires |b| == BUCKETS
    ensures |r| == BUCKETS
    decreases |ops|
  {
    if ops == [] then b
    else match ops[0]
      case AddOp(e) => Exec(Add(b, e), ops[1..])
      case RemoveOp(k) => Exec(Remove(b, k), ops[1..])
  }

  function ExecMap<V>(m: map<string, V>, ops: seq<Op<V>>): map<string, V>
    decreases |ops|
  {
    if ops == [] then m
    else match ops[0]
      case AddOp(e) => ExecMap(m[e.key := e.val], ops[1..])
      case RemoveOp(k) => ExecMap(m - {k}, ops[1..])
  }

  /** Over every run the table is the finite map, each element sits in its own
      bucket, and the enumeration lists each key of the map exactly once. */
  lemma {:induction false} RunRefines<V>(b: seq<seq<Pair<V>>>, ops: seq<Op<V>>)
    requires Valid(b)
    ensures Valid(Exec(b, ops))
    ensures ToMap(Enumerate(Exec(b, ops))) == ExecMap(ToMap(Enumerate(b)), ops)
    ensures Canonical(Enumerate(Exec(b, ops)))
    ensures |Enumerate(Exec(b, ops))| == |ExecMap(ToMap(Enumerate(b)), ops)|
    decreases |ops|
  {
    if ops == [] {
      EnumerateCanonical(b);
      ToMapSize(Enumerate(b));
    } else {
      match ops[0]
      case AddOp(e) =>
        AddRefines(b, e);
        RunRefines(Add(b, e), ops[1..]);
      case RemoveOp(k) =>
        RemoveRefines(b, k);
        RunRefines(Remove(b, k), ops[1..]);
    }
  }

  lemma {:induction false} ChainRemoveConcat<V>(a: seq<Pair<V>>, b: seq<Pair<V>>, k: string)
    ensures ChainRemove(a + b, k) ==
            if Position(a, k) < |a| then ChainRemove(a, k) + b else a + ChainRemove(b, k)
  {
    hide Position;
    PositionConcat(a, b, k);
    var i := Position(a + b, k);
    if i < |a| + |b| {
    }
  }

  lemma {:induction false} RemoveFrom<V>(b: seq<seq<Pair<V>>>, k: string, h: nat)
    requires Valid(b) && h <= |b|
    ensures EnumerateFrom(Remove(b, k), h) ==
            if h <= Hash(k) then ChainRemove(EnumerateFrom(b, h), k) else EnumerateFrom(b, h)
    decreases |b| - h
  {
    if h < |b| {
      RemoveFrom(b, k, h + 1);
      assert AllHash(b[h], h);
      PositionEnumerate(b, h + 1, k);
      ChainRemoveConcat(b[h], EnumerateFrom(b, h + 1), k);
    }
  }

  /** Removing unlinks the one element with the key and keeps all others in
      their order. */
  lemma {:induction false} RemoveUnlinksOne<V>(b: seq<seq<Pair<V>>>, k: string)
    requires Valid(b)
    ensures var es, i := Enumerate(b), Position(Enumerate(b), k);
            Enumerate(Remove(b, k)) == if i < |es| then es[..i] + es[i + 1..] else es
  {
    RemoveFrom(b, k, 0);
  }

  lemma {:induction false} ChainAddConcat<V>(a: seq<Pair<V>>, b: seq<Pair<V>>, e: Pair<V>)
    ensures ChainAdd(a + b, e) ==
            if Position(a, e.key) < |a| then ChainAdd(a, e) + b else a + ChainAdd(b, e)
  {
    hide Position;
    PositionConcat(a, b, e.key);
    var i := Position(a + b, e.key);
    if i < |a| + |b| {
    } else {
      assert (a + b) + [e] == a + (b + [e]);
    }
  }

  lemma {:induction false} ReplaceFrom<V>(b: seq<seq<Pair<V>>>, e: Pair<V>, h: nat)
    requires Valid(b) && h <= |b|
    requires Get(b[Hash(e.key)], e.key).Some?
    ensures EnumerateFrom(Add(b, e), h) ==
            if h <= Hash(e.key) then ChainAdd(EnumerateFrom(b, h), e) else EnumerateFrom(b, h)
    decreases |b| - h
  {
    if h < |b| {
      ReplaceFrom(b, e, h + 1);
      assert AllHash(b[h], h);
      PositionEnumerate(b, h + 1, e.key);
      ChainAddConcat(b[h], EnumerateFrom(b, h + 1), e);
    }
  }

  /** Adding under a present key replaces that element where it stands. */
  lemma {:induction false} AddReplacesInPlace<V>(b: seq<seq<Pair<V>>>, e: Pair<V>)
    requires Valid(b)
    requires Get(Enumerate(b), e.key).Some?
    ensures Enumerate(Add(b, e)) == Enumerate(b)[Position(Enumerate(b), e.key) := e]
  {
    FullScanIsBucketScan(b, e.key);
    ReplaceFrom(b, e, 0);
  }

  /** One chain changes: an element is replaced where its key stands, or linked last. */
  lemma {:induction false} AddChangesOneChain<V>(b: seq<seq<Pair<V>>>, e: Pair<V>, h: nat)
    requires Valid(b) && h < |b|
    ensures Add(b, e)[h] ==
            if h != Hash(e.key) then b[h]
            else if exists i | 0 <= i < |b[h]| :: b[h][i].key == e.key
            then seq(|b[h]|, i requires 0 <= i < |b[h]| => if b[h][i].key == e.key then e else b[h][i])
            else b[h] + [e]
  {
    if h == Hash(e.key) {
      hide Hash;
      var i := Position(b[h], e.key);
      assert UniqueKeys(b[h]);
      assert i < |b[h]| ==> forall j | 0 <= j < |b[h]| :: b[h][j].key == e.key <==> j == i;
    }
  }

  // ----- Build orders

  function Keys<V>(es: seq<Pair<V>>): (ks: seq<string>)
    ensures |ks| == |es|
    ensures forall i | 0 <= i < |es| :: ks[i] == es[i].key
  {
    if es == [] then [] else [es[0].key] + Keys(es[1..])
  }

  /** The table after adding the elements in order to an empty one. */
  function Build<V>(adds: seq<Pair<V>>): (b: seq<seq<Pair<V>>>)
    ensures Valid(b)
  {
    if adds == [] then Empty() else Add(Build(adds[..|adds| - 1]), adds[|adds| - 1])
  }

  /** The keys of bucket h in the order of their first insertion. */
  function FirstInsertions(ks: seq<string>, h: nat): seq<string> {
    if ks == [] then []
    else
      var r, k := FirstInsertions(ks[..|ks| - 1], h), ks[|ks| - 1];
      if Hash(k) == h && k !in r then r + [k] else r
  }

  lemma {:induction false} KeysContain<V>(c: seq<Pair<V>>, k: string)
    ensures k in Keys(c) <==> Position(c, k) < |c|
  {
    var i := Position(c, k);
    assert i < |c| ==> Keys(c)[i] == k;
  }

  lemma {:induction false} ChainAddKeys<V>(c: seq<Pair<V>>, e: Pair<V>)
    ensures Keys(ChainAdd(c, e)) == if e.key in Keys(c) then Keys(c) else Keys(c) + [e.key]
  {
    KeysContain(c, e.key);
    if e.key !in Keys(c) {
      KeysConcat(c, [e]);
      assert Keys([e]) == [e.key];
    }
  }

  lemma {:induction false} BuildChainKeys<V>(adds: seq<Pair<V>>, h: nat)
    requires h < BUCKETS
    ensures Keys(Build(adds)[h]) == FirstInsertions(Keys(adds), h)
  {
    hide Keys, Valid, ChainAdd;
    if adds == [] {
    } else {
      var init, e := adds[..|adds| - 1], adds[|adds| - 1];
      BuildChainKeys(init, h);
      assert Keys(adds)[..|adds| - 1] == Keys(init);
      ChainAddKeys(Build(init)[h], e);
    }
  }

  lemma {:induction false} EnumerateFromKeys<V, W>(a: seq<seq<Pair<V>>>, b: seq<seq<Pair<W>>>, h: nat)
    requires |a| == |b| && h <= |a|
    requires forall h' | h <= h' < |a| :: Keys(a[h']) == Keys(b[h'])
    ensures Keys(EnumerateFrom(a, h)) == Keys(EnumerateFrom(b, h))
    decreases |a| - h
  {
    if h < |a| {
      EnumerateFromKeys(a, b, h + 1);
      assert Keys(a[h]) == Keys(b[h]);
      KeysConcat(a[h], EnumerateFrom(a, h + 1));
      KeysConcat(b[h], EnumerateFrom(b, h + 1));
    }
  }

  lemma {:induction false} KeysConcat<V>(a: seq<Pair<V>>, b: seq<Pair<V>>)
    ensures Keys(a + b) == Keys(a) + Keys(b)
  {
  }

  lemma {:induction false} InBucketKeys<V, W>(a: seq<Pair<V>>, b: seq<Pair<W>>, h: nat)
    requires Keys(a) == Keys(b)
    ensures Keys(InBucket(a, h)) == Keys(InBucket(b, h))
  {
    if a != [] {
      assert Keys(a)[0] == a[0].key && Keys(b)[0] == b[0].key;
      assert Keys(a[1..]) == Keys(a)[1..] == Keys(b[1..]);
      InBucketKeys(a[1..], b[1..], h);
    }
  }

  /** The keys of every bucket, in chain order. */
  function KeyTable<V>(b: seq<seq<Pair<V>>>): (kt: seq<seq<string>>)
    ensures |kt| == |b|
  {
    seq(|b|, h requires 0 <= h < |b| => Keys(b[h]))
  }

  /** The order of first insertion, bucket by bucket. */
  function InsertionOrder(ks: seq<string>): seq<seq<string>> {
    seq(BUCKETS, h requires h >= 0 => FirstInsertions(ks, h))
  }

  lemma {:induction false} KeyTableOfBuild<V>(adds: seq<Pair<V>>)
    ensures KeyTable(Build(adds)) == InsertionOrder(Keys(adds))
  {
    forall h | 0 <= h < BUCKETS ensures KeyTable(Build(adds))[h] == InsertionOrder(Keys(adds))[h] {
      BuildChainKeys(adds, h);
    }
  }

  lemma {:induction false} SameKeysByBucket<V, W>(a: seq<seq<Pair<V>>>, b: seq<seq<Pair<W>>>)
    requires Valid(a) && Valid(b)
    ensures Keys(Enumerate(a)) == Keys(Enumerate(b)) <==> KeyTable(a) == KeyTable(b)
  {
    if KeyTable(a) == KeyTable(b) {
      forall h | 0 <= h < BUCKETS ensures Keys(a[h]) == Keys(b[h]) {
        assert KeyTable(a)[h] == KeyTable(b)[h];
      }
      EnumerateFromKeys(a, b, 0);
    }
    if Keys(Enumerate(a)) == Keys(Enumerate(b)) {
      forall h: nat | h < BUCKETS ensures KeyTable(a)[h] == KeyTable(b)[h] {
        InBucketKeys(Enumerate(a), Enumerate(b), h);
        InBucketEnumerateFrom(a, 0, h);
        InBucketEnumerateFrom(b, 0, h);
      }
    }
  }

  /** Two build orders list their keys identically exactly when, in each bucket,
      they agree on the order of first insertion. */
  lemma {:induction false} BuildOrder<V, W>(x: seq<Pair<V>>, y: seq<Pair<W>>)
    ensures Keys(Enumerate(Build(x))) == Keys(Enumerate(Build(y))) <==>
            InsertionOrder(Keys(x)) == InsertionOrder(Keys(y))
  {
    KeyTableOfBuild(x);
    KeyTableOfBuild(y);
    SameKeysByBucket(Build(x), Build(y));
  }

  /** A whole enumeration, values included, is fixed by its key order and its map. */
  lemma {:induction false} EnumerationFromKeysAndMap<V>(a: seq<Pair<V>>, b: seq<Pair<V>>)
    requires UniqueKeys(a) && UniqueKeys(b)
    ensures a == b <==> Keys(a) == Keys(b) && ToMap(a) == ToMap(b)
  {
    if Keys(a) == Keys(b) && ToMap(a) == ToMap(b) {
      forall i | 0 <= i < |a| ensures a[i] == b[i] {
        assert Keys(a)[i] == Keys(b)[i];
        ToMapGet(a, a[i].key);
        ToMapGet(b, a[i].key);
        assert Position(a, a[i].key) == i;
        assert Position(b, b[i].key) == i;
      }
    }
  }
}
