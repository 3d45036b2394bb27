/** Small definitions and facts that several modules share. */
module Basics {

  type Byte = b: int | 0 <= b < 256

  function Zeros(n: nat): (z: seq<Byte>)
    ensures |z| == n && forall i :: 0 <= i < n ==> z[i] == 0
  {
    seq(n, _ => 0)
  }

  function Min(a: int, b: int): int { if a < b then a else b }

  function Max(a: int, b: int): int { if a < b then b else a }

  function Abs(x: int): nat { if x < 0 then -x else x }

  function Pow2(n: nat): (p: nat)
    ensures p >= 1
  {
    if n == 0 then 1 else 2 * Pow2(n - 1)
  }

  predicate Distinct<T(==)>(s: seq<T>) { forall i, j :: 0 <= i < j < |s| ==> s[i] != s[j] }

  function Rev<T>(s: seq<T>): seq<T> { if s == [] then [] else Rev(s[1..]) + [s[0]] }

  ghost function Sum(s: seq<int>): int { if s == [] then 0 else Sum(s[..|s| - 1]) + s[|s| - 1] }

  lemma {:induction false} SomeElement<T>(s: set<T>) returns (x: T)
    requires s != {}
    ensures x in s
  {
    x :| x in s;
  }

  lemma {:induction false} SubsetSize<T>(a: set<T>, b: set<T>)
    requires a <= b
    ensures |a| <= |b|
  {
    assert b == a + (b - a);
  }

  /** Any element: where an iteration order does not matter. */
  method Pick<T(==)>(s: set<T>) returns (x: T)
    requires s != {}
    ensures x in s
  {
    x :| x in s;
  }

  lemma {:induction false} Times(d: int, e: int)
    requires d > 0
    ensures e >= 1 ==> d * e >= d
    ensures e <= -1 ==> d * e <= -d
  {
    if e >= 1 { assert d * (e - 1) >= 0; } else if e <= -1 { assert d * (-1 - e) >= 0; }
  }

  /** A larger divisor gives no larger quotient. */
  lemma {:induction false} DivFalls(a: nat, d: nat, e: nat)
    requires 0 < e <= d
    ensures a / d <= a / e
  {
    QuotientFalls(d, e, a / d, a / e, a % d, a % e);
  }

  lemma {:induction false} QuotientFalls(d: nat, e: nat, p: nat, q: nat, m: nat, n: nat)
    requires n < e <= d && d * p + m == e * q + n
    ensures p <= q
  {
    var f: nat := d - e;
    assert d * p == f * p + e * p && f * p >= 0;
    assert e * (p - q) == e * p - e * q;
    Times(e, p - q);
  }

  lemma {:induction false} DivIs(x: nat, d: nat, q: int, r: nat)
    requires d > 0 && x == d * q + r && r < d
    ensures x / d == q && x % d == r
  {
    var e := q - x / d;
    assert x == d * (x / d) + x % d;
    assert d * e == x % d - r;
    Times(d, e);
  }
}
