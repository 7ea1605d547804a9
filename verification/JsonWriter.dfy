/** The recursive in-place writer. */
module JsonWriter {
  import opened Tables
  import opened JsonObjects
  import opened JsonValues
  import opened Vectors

  /** Buffer b after the text s and a terminator have been put at position at. */
  function Written(b: seq<char>, at: nat, s: string): (r: seq<char>)
    requires at + |s| < |b|
    ensures |r| == |b|
  {
    b[..at] + s + ['\0'] + b[at + |s| + 1..]
  }

  /** The text stands where it was put, ends with a terminator, and nothing else
      in the buffer changed. */
  lemma {:induction false} WrittenThere(b: seq<char>, at: nat, s: string)
    requires at + |s| < |b|
    ensures var r := Written(b, at, s);
            && |r| == |b| && r[at..at + |s|] == s && r[at + |s|] == '\0'
            && r[..at] == b[..at] && r[at + |s| + 1..] == b[at + |s| + 1..]
  {
  }

  /** Writing on where the last text ended overwrites its terminator. */
  lemma {:induction false} WrittenOn(b: seq<char>, at: nat, s: string, t: string)
    requires at + |s| + |t| < |b|
    ensures Written(Written(b, at, s), at + |s|, t) == Written(b, at, s + t)
  {
  }

  lemma {:induction false} OneMoreWritten(b: seq<char>, at: nat, s: string, i: nat)
    requires i < |s| && at + |s| < |b|
    ensures (b[..at] + s[..i] + b[at + i..])[at + i := s[i]] == b[..at] + s[..i + 1] + b[at + i + 1..]
  {
  }

  /** `sprintf(buf + at, ...)` with a text that is already formatted. */
  method Emit(s: string, buf: array<char>, at: nat) returns (len: nat)
    requires at + |s| < buf.Length
    modifies buf
    ensures len == |s|
    ensures buf[..] == Written(old(buf[..]), at, s)
  {
    ghost var b := buf[..];
    var i := 0;
    while i < |s|
      invariant 0 <= i <= |s|
      invariant buf[..] == b[..at] + s[..i] + b[at + i..]
    {
      OneMoreWritten(b, at, s, i);
      buf[at + i] := s[i];
      i := i + 1;
    }
    assert s[..i] == s && b[at + i..] == [b[at + i]] + b[at + i + 1..];
    buf[at + i] := '\0';
    len := i;
  }

  // What is left to print after i turns of each loop.

  lemma {:induction false} ElemsLeft(xs: seq<Json>, i: nat, done: string)
    requires i < |xs|
    ensures done + PrintElems(xs[i..]) ==
            if i == |xs| - 1 then (done + Print(xs[i])) + PrintElems(xs[i + 1..])
            else ((done + Print(xs[i])) + ",") + PrintElems(xs[i + 1..])
  {
    assert xs[i..][1..] == xs[i + 1..];
    if i < |xs| - 1 {
      assert done + (Print(xs[i]) + "," + PrintElems(xs[i + 1..])) ==
             ((done + Print(xs[i])) + ",") + PrintElems(xs[i + 1..]);
    }
  }

  lemma {:induction false} MembersLeft(ms: seq<Pair<Json>>, i: nat, done: string)
    requires i < |ms|
    ensures done + PrintMembers(ms[i..]) ==
            if i == |ms| - 1 then (done + PrintMember(ms[i])) + PrintMembers(ms[i + 1..])
            else ((done + PrintMember(ms[i])) + ",") + PrintMembers(ms[i + 1..])
  {
    assert ms[i..][1..] == ms[i + 1..];
    if i < |ms| - 1 {
      assert done + (PrintMember(ms[i]) + "," + PrintMembers(ms[i + 1..])) ==
             ((done + PrintMember(ms[i])) + ",") + PrintMembers(ms[i + 1..]);
    }
  }

  /** `serialize_json_at`: the text of v stands contiguously from startAt, ends
      with a terminator, and nothing else in the buffer changes. */
  method SerializeAt(v: Json, buf: array<char>, startAt: nat) returns (offs: nat)
    requires startAt + |Print(v)| < buf.Length
    modifies buf
    ensures offs == |Print(v)|
    ensures buf[..] == Written(old(buf[..]), startAt, Print(v))
    ensures buf[startAt..startAt + offs] == Print(v) && buf[startAt + offs] == '\0'
    ensures buf[..startAt] == old(buf[..startAt])
    ensures buf[startAt + offs + 1..] == old(buf[startAt + offs + 1..])
    decreases |Print(v)|, 1
  {
    hide Written;
    ghost var b := buf[..];
    WrittenThere(b, startAt, Print(v));
    match v
    case Null => offs := Emit("null", buf, startAt);
    case Bool(b) =>
      if b {
        offs := Emit("true", buf, startAt);
      } else {
        offs := Emit("false", buf, startAt);
      }
    case Int(n) => offs := Emit(PrintInt(n), buf, startAt);
    case Str(s) => offs := Emit(Quoted(s), buf, startAt);
    case Arr(xs) => offs := SerializeArray(xs, buf, startAt);
    case Obj(ms) => offs := SerializeObject(ms, buf, startAt);
  }

  /** The JSON_ARRAY case. */
  method SerializeArray(xs: seq<Json>, buf: array<char>, startAt: nat) returns (offs: nat)
    requires startAt + |PrintElems(xs)| + 2 < buf.Length
    modifies buf
    ensures offs == |PrintElems(xs)| + 2
    ensures buf[..] == Written(old(buf[..]), startAt, "[" + PrintElems(xs) + "]")
    decreases |PrintElems(xs)| + 2, 0
  {
    hide Written, Print;
    ghost var b, done := buf[..], "[";
    offs := Emit("[", buf, startAt);
    var i := 0;
    while i < |xs|
      invariant 0 <= i <= |xs|
      invariant offs == |done| && done + PrintElems(xs[i..]) == "[" + PrintElems(xs)
      invariant buf[..] == Written(b, startAt, done)
    {
      ElemsLeft(xs, i, done);
      var n := SerializeAt(xs[i], buf, startAt + offs);
      WrittenOn(b, startAt, done, Print(xs[i]));
      offs, done := offs + n, done + Print(xs[i]);
      if i != |xs| - 1 {
        n := Emit(",", buf, startAt + offs);
        WrittenOn(b, startAt, done, ",");
        offs, done := offs + n, done + ",";
      }
      i := i + 1;
    }
    assert xs[i..] == [] && done + "" == done;
    var n := Emit("]", buf, startAt + offs);
    WrittenOn(b, startAt, done, "]");
    offs := offs + n;
  }

  /** The JSON_OBJECT case: the members as an array of pairs, of which each is
      written as a key, a colon and a value. */
  method SerializeObject(ms: seq<Pair<Json>>, buf: array<char>, startAt: nat) returns (offs: nat)
    requires startAt + |PrintMembers(ms)| + 2 < buf.Length
    modifies buf
    ensures offs == |PrintMembers(ms)| + 2
    ensures buf[..] == Written(old(buf[..]), startAt, "{" + PrintMembers(ms) + "}")
    decreases |PrintMembers(ms)| + 2, 0
  {
    hide Written, Print, Vector.Valid, ArePairs, PrintMember;
    ghost var b, done := buf[..], "{";
    offs := Emit("{", buf, startAt);
    var array_ := PairArrays(ms);
    assert array_.length == |ms| by { PairCount(array_.Contents(), ms); }
    var i := 0;
    while i < array_.length
      invariant 0 <= i <= |ms| == array_.length && array_.Valid() && fresh(array_.data)
      invariant ArePairs(array_.Contents(), ms)
      invariant offs == |done| && done + PrintMembers(ms[i..]) == "{" + PrintMembers(ms)
      invariant buf[..] == Written(b, startAt, done)
    {
      MembersLeft(ms, i, done);
      var n := SerializePair(array_, ms, i, buf, startAt + offs);
      WrittenOn(b, startAt, done, PrintMember(ms[i]));
      offs, done := offs + n, done + PrintMember(ms[i]);
      if i != array_.length - 1 {
        n := Emit(",", buf, startAt + offs);
        WrittenOn(b, startAt, done, ",");
        offs, done := offs + n, done + ",";
      }
      i := i + 1;
    }
    assert ms[i..] == [] && done + "" == done;
    var n := Emit("}", buf, startAt + offs);
    WrittenOn(b, startAt, done, "}");
    offs := offs + n;
  }

  lemma {:induction false} PairCount(xs: seq<Json>, ms: seq<Pair<Json>>)
    requires ArePairs(xs, ms)
    ensures |xs| == |ms|
  {
  }

  lemma {:induction false} KeyPrints(m: Pair<Json>)
    ensures Print(Str(m.key)) + ":" + Print(m.val) == PrintMember(m)
  {
  }

  /** The i-th pair of the array. */
  method SerializePair(array_: Vector<Json>, ghost ms: seq<Pair<Json>>, i: nat, buf: array<char>, startAt: nat)
    returns (offs: nat)
    requires array_.Valid() && ArePairs(array_.Contents(), ms) && i < |ms|
    requires startAt + |PrintMember(ms[i])| < buf.Length
    modifies buf
    ensures offs == |PrintMember(ms[i])|
    ensures buf[..] == Written(old(buf[..]), startAt, PrintMember(ms[i]))
    decreases |PrintMember(ms[i])|, 1
  {
    hide Written, Print, PrintMember;
    ghost var b := buf[..];
    KeyPrints(ms[i]);
    var kv := array_.Index(i);
    var key, val := kv.value.elems[0], kv.value.elems[1];
    offs := SerializeAt(key, buf, startAt);
    var n := Emit(":", buf, startAt + offs);
    WrittenOn(b, startAt, Print(key), ":");
    offs := offs + n;
    n := SerializeAt(val, buf, startAt + offs);
    WrittenOn(b, startAt, Print(key) + ":", Print(val));
    offs := offs + n;
  }

  /** `serialize_json`: the C string in the returned buffer is the text of v. */
  method Serialize(v: Json) returns (buf: array<char>)
    requires |Print(v)| < OUTPUT_BUFFER_SIZE
    ensures fresh(buf)
    ensures buf.Length == OUTPUT_BUFFER_SIZE
    ensures buf[..|Print(v)|] == Print(v) && buf[|Print(v)|] == '\0'
  {
    buf := new char[OUTPUT_BUFFER_SIZE](_ => '\0');
    var offs := SerializeAt(v, buf, 0);
    buf[offs] := '\0';
  }
}
