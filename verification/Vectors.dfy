/** The growable vector, in place over an array. */
module Vectors {
  import opened Options

  const PREALLOC: nat := 3
  const GROW_FACTOR: nat := 2

  /** The sizes of a vector, and how many elements growing has moved so far. */
  datatype Shape = Shape(length: nat, capacity: nat, moved: nat)

  const FRESH := Shape(0, PREALLOC, 0)

  /** Insertion doubles a full vector, which moves every element once. */
  function InsertShape(s: Shape): Shape {
    if s.length == s.capacity
    then Shape(s.length + 1, s.capacity * GROW_FACTOR, s.moved + s.length)
    else s.(length := s.length + 1)
  }

  /** Removal halves a vector that is more than twice too large. */
  function RemoveShape(s: Shape): Shape
    requires s.length > 0
  {
    var n := s.length - 1;
    if s.capacity > n * GROW_FACTOR && s.capacity > 1
    then s.(length := n, capacity := s.capacity / GROW_FACTOR)
    else s.(length := n)
  }

  predicate Fits(s: Shape) {
    && 1 <= s.capacity && s.length <= s.capacity
    && (s.capacity <= PREALLOC || s.capacity <= 2 * s.length)
  }

  datatype Op<T> = InsertOp(idx: nat, x: T) | RemoveOp(idx: nat)

  /** The sequence with x inserted before position idx. */
  function Inserted<T>(s: seq<T>, idx: nat, x: T): seq<T>
    requires idx <= |s|
  {
    s[..idx] + [x] + s[idx..]
  }

  /** The sequence without position idx; past the end, without its last element. */
  function Removed<T>(s: seq<T>, idx: nat): seq<T>
    requires |s| > 0
  {
    if idx < |s| then s[..idx] + s[idx + 1..] else s[..|s| - 1]
  }

  lemma {:induction false} MadeRoom<T>(before: seq<T>, idx: nat, x: T, after: seq<T>)
    requires idx <= |before| && |after| == |before| + 1 && after[idx] == x
    requires forall k | 0 <= k < idx :: after[k] == before[k]
    requires forall k | idx < k < |after| :: after[k] == before[k - 1]
    ensures after == Inserted(before, idx, x)
  {
  }

  lemma {:induction false} ClosedGap<T>(before: seq<T>, idx: nat, after: seq<T>)
    requires |before| > 0 && |after| == |before| - 1
    requires forall k | 0 <= k < idx && k < |after| :: after[k] == before[k]
    requires forall k | idx <= k < |after| :: after[k] == before[k + 1]
    ensures after == Removed(before, idx)
  {
  }

  lemma {:induction false} InsertedIs<T>(s: seq<T>, idx: nat, x: T)
    requires idx <= |s|
    ensures Inserted(s, idx, x) == s[..idx] + [x] + s[idx..]
  {
  }

  lemma {:induction false} RemovedIs<T>(s: seq<T>, idx: nat)
    requires |s| > 0
    ensures idx < |s| ==> Removed(s, idx) == s[..idx] + s[idx + 1..]
    ensures idx >= |s| ==> Removed(s, idx) == s[..|s| - 1]
  {
  }

  /** The calls that the source defines: an insertion position inside or at the
      end, a removal from a vector that is not empty. */
  predicate Defined<T>(ops: seq<Op<T>>, length: nat)
    decreases |ops|
  {
    ops == [] ||
    match ops[0]
    case InsertOp(idx, _) => idx <= length && Defined(ops[1..], length + 1)
    case RemoveOp(_) => length > 0 && Defined(ops[1..], length - 1)
  }

  function RunShape<T>(s: Shape, ops: seq<Op<T>>): Shape
    requires Defined(ops, s.length)
    decreases |ops|
  {
    if ops == [] then s
    else match ops[0]
      case InsertOp(_, _) => RunShape(InsertShape(s), ops[1..])
      case RemoveOp(_) => RunShape(RemoveShape(s), ops[1..])
  }

  function RunContents<T>(s: seq<T>, ops: seq<Op<T>>): seq<T>
    requires Defined(ops, |s|)
    decreases |ops|
  {
    if ops == [] then s
    else match ops[0]
      case InsertOp(idx, x) => RunContents(Inserted(s, idx, x), ops[1..])
      case RemoveOp(idx) => RunContents(Removed(s, idx), ops[1..])
  }

  /** Over every mixed run the capacity stays between max(1, length) and
      max(3, 2 * length), and the sizes are those of the contents. */
  lemma {:induction false} RunKeepsBounds<T>(s: Shape, c: seq<T>, ops: seq<Op<T>>)
    requires Fits(s) && s.length == |c| && Defined(ops, |c|)
    ensures Fits(RunShape(s, ops))
    ensures var r := RunShape(s, ops);
            && 1 <= r.capacity && r.length <= r.capacity
            && (r.capacity <= 3 || r.capacity <= 2 * r.length)
            && r.length == |RunContents(c, ops)|
    decreases |ops|
  {
    if ops != [] {
      match ops[0]
      case InsertOp(idx, x) => RunKeepsBounds(InsertShape(s), Inserted(c, idx, x), ops[1..]);
      case RemoveOp(idx) => RunKeepsBounds(RemoveShape(s), Removed(c, idx), ops[1..]);
    }
  }

  function Appended(n: nat): Shape {
    if n == 0 then FRESH else InsertShape(Appended(n - 1))
  }

  /** n appends to a new vector move fewer than 2n elements through growth. */
  lemma {:induction false} AppendsMoveLittle(n: nat)
    ensures Appended(n).length == n && Fits(Appended(n))
    ensures Appended(n).moved == Appended(n).capacity - PREALLOC
    ensures n > 0 ==> Appended(n).moved < 2 * n
  {
    if n > 0 {
      AppendsMoveLittle(n - 1);
    }
  }

  /** A removal right after the insertion that grew the vector leaves it grown, so
      that inserting again moves nothing. */
  lemma {:induction false} GrownStaysGrown(s: Shape)
    requires Fits(s) && s.length == s.capacity
    ensures var grown := InsertShape(s);
            && grown == Shape(s.length + 1, 2 * s.capacity, s.moved + s.length)
            && RemoveShape(grown) == grown.(length := s.length)
            && InsertShape(RemoveShape(grown)) == grown
  {
  }

  /** k times on a vector of length n: an insertion, two removals, an insertion. */
  function Swings<T>(n: nat, x: T, k: nat): (ops: seq<Op<T>>)
    requires n > 0
    ensures |ops| == 4 * k
  {
    if k == 0 then []
    else [InsertOp(n, x), RemoveOp(n), RemoveOp(n - 1), InsertOp(n - 1, x)] + Swings(n, x, k - 1)
  }

  lemma {:induction false} OneSwing<T>(s: Shape, x: T, more: seq<Op<T>>)
    requires Fits(s) && 0 < s.length == s.capacity && Defined(more, s.length)
    ensures var n, moved := s.length, s.moved + s.length;
            var ops := [InsertOp(n, x), RemoveOp(n), RemoveOp(n - 1), InsertOp(n - 1, x)] + more;
            Defined(ops, n) && RunShape(s, ops) == RunShape(s.(moved := moved), more)
  {
    var n := s.length;
    var three := [RemoveOp(n), RemoveOp(n - 1), InsertOp(n - 1, x)] + more;
    var two, one := [RemoveOp(n - 1), InsertOp(n - 1, x)] + more, [InsertOp(n - 1, x)] + more;
    var ops := [InsertOp(n, x), RemoveOp(n), RemoveOp(n - 1), InsertOp(n - 1, x)] + more;
    assert one[1..] == more && two[1..] == one && three[1..] == two && ops[1..] == three;
    assert Defined(one, n - 1);
    assert Defined(two, n);
    assert Defined(three, n + 1);
    var s1 := InsertShape(s);
    var s2 := RemoveShape(s1);
    var s3 := RemoveShape(s2);
    assert s3 == Shape(n - 1, n, s.moved + n);
    assert RunShape(s3, one) == RunShape(InsertShape(s3), more);
    assert RunShape(s2, two) == RunShape(s3, one);
    assert RunShape(s1, three) == RunShape(s2, two);
  }

  /** But two removals shrink it again: around a full vector every four operations
      move all its elements, so mixed runs have no bound like that of appends. */
  lemma {:induction false} SwingsMoveAll<T>(s: Shape, x: T, k: nat)
    requires Fits(s) && 0 < s.length == s.capacity
    ensures Defined(Swings(s.length, x, k), s.length)
    ensures RunShape(s, Swings(s.length, x, k)) == s.(moved := s.moved + k * s.length)
    decreases k
  {
    if k > 0 {
      var s' := s.(moved := s.moved + s.length);
      SwingsMoveAll(s', x, k - 1);
      OneSwing(s, x, Swings(s.length, x, k - 1));
      assert s.length + (k - 1) * s.length == k * s.length;
    }
  }

  class Vector<T(0)> {
    var data: array<T>
    var length: nat
    ghost var moved: nat

    ghost predicate Valid()
      reads this
    {
      Fits(Sizes())
    }

    ghost function Sizes(): Shape
      reads this
    {
      Shape(length, data.Length, moved)
    }

    ghost function Contents(): (s: seq<T>)
      requires Valid()
      reads this, data
      ensures |s| == length
    {
      data[..length]
    }

    /** `vector_create` */
    constructor ()
      ensures Valid() && fresh(data)
      ensures Contents() == [] && Sizes() == FRESH
    {
      data := new T[PREALLOC];
      length, moved := 0, 0;
    }

    /** `realloc`: the elements move to an array of another size. */
    method Reallocate(capacity: nat)
      requires length <= data.Length && length <= capacity
      modifies this`data
      ensures fresh(data) && data.Length == capacity
      ensures data[..length] == old(data[..length])
    {
      var a := new T[capacity];
      var i := 0;
      while i < length
        invariant 0 <= i <= length
        invariant unchanged(this) && data[..] == old(data[..])
        invariant a[..i] == data[..i]
      {
        a[i] := data[i];
        i := i + 1;
      }
      data := a;
    }

    /** The shift loop of `vector_insert`, which makes room at idx. */
    method ShiftRight(idx: nat, ghost before: seq<T>)
      requires idx <= length < data.Length && before == data[..length]
      modifies data
      ensures forall k | 0 <= k < idx :: data[k] == before[k]
      ensures forall k | idx < k <= length :: data[k] == before[k - 1]
    {
      var i := length;
      while i > idx
        invariant idx <= i <= length
        invariant forall k | 0 <= k < i :: data[k] == before[k]
        invariant forall k | i < k <= length :: data[k] == before[k - 1]
      {
        data[i] := data[i - 1];
        i := i - 1;
      }
    }

    /** `vector_insert` */
    method Insert(idx: nat, x: T)
      requires Valid() && idx <= length
      modifies this, data
      ensures Valid() && (data == old(data) || fresh(data))
      ensures Contents() == Inserted(old(Contents()), idx, x)
      ensures Sizes() == InsertShape(old(Sizes()))
      ensures Contents() == old(Contents())[..idx] + [x] + old(Contents())[idx..]
      ensures data.Length == if old(length) == old(data.Length) then 2 * old(data.Length) else old(data.Length)
    {
      InsertedIs(Contents(), idx, x);
      hide Inserted;
      ghost var before := Contents();
      if length == data.Length {
        moved := moved + length;
        Reallocate(data.Length * GROW_FACTOR);
      }
      ShiftRight(idx, before);
      data[idx] := x;
      length := length + 1;
      MadeRoom(before, idx, x, data[..length]);
    }

    /** `vector_append` */
    method Append(x: T)
      requires Valid()
      modifies this, data
      ensures Valid() && (data == old(data) || fresh(data))
      ensures Contents() == old(Contents()) + [x]
      ensures Sizes() == InsertShape(old(Sizes()))
    {
      Insert(length, x);
    }

    /** The shift loop of `vector_remove`, which closes the gap at idx. */
    method ShiftLeft(idx: nat, ghost before: seq<T>)
      requires 0 < length <= data.Length && before == data[..length]
      modifies data
      ensures forall k | 0 <= k < idx && k < length :: data[k] == before[k]
      ensures forall k | idx <= k < length - 1 :: data[k] == before[k + 1]
    {
      var i := idx;
      while i < length - 1
        invariant i == idx || idx < i <= length - 1
        invariant forall k | 0 <= k < idx && k < length :: data[k] == before[k]
        invariant forall k | idx <= k < i :: data[k] == before[k + 1]
        invariant forall k | i <= k < length :: data[k] == before[k]
      {
        data[i] := data[i + 1];
        i := i + 1;
      }
    }

    /** `vector_remove`: an index past the end removes the last element. */
    method Remove(idx: nat)
      requires Valid() && length > 0
      modifies this, data
      ensures Valid() && (data == old(data) || fresh(data))
      ensures Contents() == Removed(old(Contents()), idx)
      ensures Sizes() == RemoveShape(old(Sizes()))
      ensures idx < old(length) ==> Contents() == old(Contents())[..idx] + old(Contents())[idx + 1..]
      ensures idx >= old(length) ==> Contents() == old(Contents())[..old(length) - 1]
      ensures var c := old(data.Length);
              data.Length == if c > 2 * (old(length) - 1) && c > 1 then c / 2 else c
    {
      RemovedIs(Contents(), idx);
      hide Removed;
      ghost var before := Contents();
      ShiftLeft(idx, before);
      length := length - 1;
      ClosedGap(before, idx, data[..length]);
      if data.Length > length * GROW_FACTOR && data.Length > 1 {
        Reallocate(data.Length / GROW_FACTOR);
      }
    }

    /** `vector_pop` */
    method Pop()
      requires Valid() && length > 0
      modifies this, data
      ensures Valid() && (data == old(data) || fresh(data))
      ensures Contents() == old(Contents())[..old(length) - 1]
    {
      Remove(length - 1);
    }

    /** `vector_index`: past the end there is nothing. */
    method Index(idx: nat) returns (x: Option<T>)
      requires Valid()
      ensures x == if idx < length then Some(Contents()[idx]) else None
    {
      if idx >= length {
        return None;
      }
      x := Some(data[idx]);
    }

    /** All elements, first to last. */
    method ToSeq() returns (s: seq<T>)
      requires Valid()
      ensures s == Contents()
    {
      s := data[..length];
    }

    /** `vector_replace` */
    method Replace(idx: nat, x: T)
      requires Valid()
      modifies data
      ensures Valid()
      ensures Contents() == if idx < length then old(Contents())[idx := x] else old(Contents())
    {
      if idx >= length {
        return;
      }
      data[idx] := x;
    }
  }
}
