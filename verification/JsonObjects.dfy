/** The object part of the JSON interface, over the heap table. */
module JsonObjects {
  import opened Hashing
  import opened Options
  import opened Tables
  import opened JsonValues
  import opened HashMaps
  import opened Vectors

  /** A member as the two-element array that the writer works on. */
  function PairArray(m: Pair<Json>): Json {
    Arr([Str(m.key), m.val])
  }

  /** One pair for each member, in order. */
  ghost predicate ArePairs(xs: seq<Json>, ms: seq<Pair<Json>>) {
    |xs| == |ms| && forall i | 0 <= i < |ms| :: xs[i] == Arr([Str(ms[i].key), ms[i].val])
  }

  /** `json_set_property` */
  method SetProperty(object_: HashMap<Json>, key: string, val: Json)
    requires object_.Valid() && Ascii(key)
    modifies object_.Repr
    ensures object_.Valid() && fresh(object_.Repr - old(object_.Repr))
    ensures Obj(object_.Elements()) == WithProperty(Obj(old(object_.Elements())), key, val)
    ensures forall k :: Property(Obj(object_.Elements()), k) ==
                        if k == key then Some(val) else Property(Obj(old(object_.Elements())), k)
  {
    hide HashMap.Shape, Put, Get;
    ghost var v := Obj(object_.Elements());
    EnumerateCanonical(object_.buckets);
    object_.Add(Pair(key, val));
    forall k ensures Property(WithProperty(v, key, val), k) == if k == key then Some(val) else Property(v, k) {
      SetThenGet(v, key, val, k);
    }
  }

  /** `json_get_property` */
  method GetProperty(object_: HashMap<Json>, key: string) returns (r: Option<Json>)
    requires object_.Valid()
    ensures r == Property(Obj(object_.Elements()), key)
  {
    r := object_.LookUpKey(key);
  }

  /** The walk of `json_object_to_array` over a table that enumerates as ms. */
  method PairArrays(ms: seq<Pair<Json>>) returns (array_: Vector<Json>)
    ensures fresh(array_) && fresh(array_.data) && array_.Valid() && ArePairs(array_.Contents(), ms)
  {
    hide Vector.Valid;
    array_ := new Vector<Json>();
    var i := 0;
    while i < |ms|
      invariant 0 <= i <= |ms|
      invariant fresh(array_) && fresh(array_.data) && array_.Valid()
      invariant ArePairs(array_.Contents(), ms[..i])
    {
      array_.Append(PairArray(ms[i]));
      i := i + 1;
    }
    assert ms[..i] == ms;
  }

  /** `json_object_to_array`: one pair for each member, in the table's order. */
  method ObjectToArray(object_: HashMap<Json>) returns (array_: Vector<Json>)
    requires object_.Valid()
    ensures fresh(array_) && fresh(array_.data) && array_.Valid()
    ensures ArePairs(array_.Contents(), object_.Elements())
  {
    var entries := object_.GetEntries();
    array_ := PairArrays(entries);
  }

  /** Nothing is lost in the array: it determines every chain of the table. */
  lemma {:induction false} ArrayKeepsChains(a: seq<seq<Pair<Json>>>, b: seq<seq<Pair<Json>>>)
    requires Tables.Valid(a) && Tables.Valid(b) && |Enumerate(a)| == |Enumerate(b)|
    requires forall i | 0 <= i < |Enumerate(a)| :: PairArray(Enumerate(a)[i]) == PairArray(Enumerate(b)[i])
    ensures a == b
  {
    forall i | 0 <= i < |Enumerate(a)| ensures Enumerate(a)[i] == Enumerate(b)[i] {
      var x, y := Enumerate(a)[i], Enumerate(b)[i];
      assert PairArray(x).elems[0] == PairArray(y).elems[0] && PairArray(x).elems[1] == PairArray(y).elems[1];
    }
    assert Enumerate(a) == Enumerate(b);
    LayoutOfEnumeration(a);
    LayoutOfEnumeration(b);
  }
}
