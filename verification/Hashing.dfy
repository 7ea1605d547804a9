/** The string hash shared by both tables of the program: a polynomial of the
    characters, reduced modulo the bucket count after every step. */
module Hashing {

  /** Multiplier passed by every caller of `polynomial_hash`. */
  const PRIME: nat := 257

  /** Number of buckets of every table the program creates (`HASHMAP_ENTRIES`). */
  const BUCKETS: nat := 63

  const INT_MAX: int := 0x7FFF_FFFF

  /** C's `int`: every operation on it is checked to stay in range. */
  newtype int32 = x: int | -0x8000_0000 <= x <= 0x7FFF_FFFF

  function Pow(p: nat, n: nat): nat {
    if n == 0 then 1 else p * Pow(p, n - 1)
  }

  /** The polynomial the hash stands for, over unbounded integers:
      the sum of s[i] * p^(|s| - i). */
  function Poly(s: string, p: nat): nat {
    if s == [] then 0 else (s[0] as int) * Pow(p, |s|) + Poly(s[1..], p)
  }

  /** The bucket of a key. */
  function Hash(s: string): (h: nat)
    ensures h < BUCKETS
  {
    Poly(s, PRIME) % BUCKETS
  }

  /** The characters C's `char` holds without a sign. */
  ghost predicate Ascii(s: string) {
    forall i | 0 <= i < |s| :: s[i] as int < 128
  }

  /** One more character multiplies the whole polynomial by p. */
  lemma {:induction false} PolySnoc(s: string, c: char, p: nat)
    ensures Poly(s + [c], p) == (Poly(s, p) + c as int) * p
  {
    if s == [] {
      assert [c][1..] == [];
      assert Pow(p, 1) == p * Pow(p, 0);
      assert Poly([c], p) == (c as int) * Pow(p, 1) + Poly([], p);
    } else {
      var t := s[1..];
      assert (s + [c])[1..] == t + [c];
      PolySnoc(t, c, p);
      var a, q := s[0] as int, Pow(p, |s|);
      calc {
        Poly(s + [c], p);
        a * Pow(p, |s| + 1) + (Poly(t, p) + c as int) * p;
        { assert Pow(p, |s| + 1) == p * q; }
        a * (p * q) + (Poly(t, p) + c as int) * p;
        (a * q + Poly(t, p) + c as int) * p;
      }
    }
  }

  lemma {:induction false} ProductBound(a: nat, b: nat, p: nat)
    requires a <= b
    ensures a * p <= b * p
  {
  }

  /** Two decompositions of one number have the same quotient. */
  lemma {:induction false} QuotientUnique(q: nat, r: nat, q': nat, r': nat, m: nat)
    requires r < m && r' < m && m * q + r == m * q' + r'
    ensures q <= q'
  {
    assert m * (q - q') == m * q - m * q';
    if q > q' {
      ProductBound(1, q - q', m);
      assert false;
    }
  }

  lemma {:induction false} RemainderUnique(a: nat, q: nat, r: nat, m: nat)
    requires r < m && a == m * q + r
    ensures a % m == r
  {
    QuotientUnique(q, r, a / m, a % m, m);
    QuotientUnique(a / m, a % m, q, r, m);
  }

  lemma {:induction false} SplitProduct(m: nat, q: nat, r: nat, c: nat, p: nat)
    ensures (m * q + r + c) * p == m * (q * p) + (r + c) * p
  {
    calc {
      (m * q + (r + c)) * p;
      (m * q) * p + (r + c) * p;
      m * (q * p) + (r + c) * p;
    }
  }

  /** Reducing before a step does not change the step's remainder. */
  lemma {:induction false} ReducedStep(x: nat, c: nat, p: nat, m: nat)
    requires m > 0
    ensures ((x % m + c) * p) % m == ((x + c) * p) % m
  {
    var y := (x % m + c) * p;
    var a, b := (x / m) * p, y / m;
    SplitProduct(m, x / m, x % m, c, p);
    assert m * a + m * b == m * (a + b);
    RemainderUnique((x + c) * p, a + b, y % m, m);
  }

  /** One turn of the loop, in C's `int`: no operation overflows. */
  method HashStep(h: int32, c: char, p: int32, m: int32) returns (r: int32)
    requires 0 <= h < m && p >= 0 && c as int < 128
    requires m as int + 126 <= INT_MAX && (m as int + 126) * p as int <= INT_MAX
    ensures 0 <= r < m
    ensures r as int == ((h as int + c as int) * p as int) % m as int
  {
    ProductBound(h as int + c as int, m as int + 126, p as int);
    r := h + c as int32;
    r := r * p;
    r := r % m;
  }

  lemma {:induction false} PolyNothing(p: nat)
    ensures Poly("", p) == 0
  {
  }

  /** `polynomial_hash`: the step-reduced loop gives the unbounded polynomial
      modulo m. */
  method PolynomialHash(s: string, p: int32, m: int32) returns (h: int32)
    requires Ascii(s)
    requires p >= 0 && m > 0
    requires m as int + 126 <= INT_MAX && (m as int + 126) * p as int <= INT_MAX
    ensures 0 <= h < m
    ensures h as int == Poly(s, p as int) % m as int
  {
    hide Poly;
    PolyNothing(p as int);
    h := 0;
    var i := 0;
    while i < |s|
      invariant 0 <= i <= |s|
      invariant 0 <= h < m
      invariant h as int == Poly(s[..i], p as int) % m as int
    {
      PolySnoc(s[..i], s[i], p as int);
      ReducedStep(Poly(s[..i], p as int), s[i] as int, p as int, m as int);
      h := HashStep(h, s[i], p, m);
      assert s[..i] + [s[i]] == s[..i + 1];
      i := i + 1;
    }
    assert s[..i] == s;
  }
}
