/** CBigNum (src/bignum.h): its meaning is an integer, and bytes go in and out in the MPI format of
    OpenSSL, sign and magnitude with the highest byte first and the sign in its top bit. */
module BigNum {
  import opened Basics

  function Pow256(n: nat): (p: nat)
    ensures p >= 1
  {
    if n == 0 then 1 else 256 * Pow256(n - 1)
  }

  /** The low s bytes of x, highest first. */
  function Digits(x: nat, s: nat): (b: seq<Byte>)
    ensures |b| == s
  {
    if s == 0 then [] else Digits(x / 256, s - 1) + [x % 256]
  }

  function Value(b: seq<Byte>): nat {
    if b == [] then 0 else 256 * Value(b[..|b| - 1]) + b[|b| - 1]
  }

  /** The bytes x takes, the sign bit included. */
  function SizeOf(x: nat): nat
  {
    if x == 0 then 0 else if x < 128 then 1 else if x < 256 then 2 else 1 + SizeOf(x / 256)
  }

  /** The body of BN_bn2mpi: what follows the four bytes of length. */
  function Mpi(x: int): seq<Byte> {
    var b := Digits(Abs(x), SizeOf(Abs(x)));
    if x < 0 && b != [] && b[0] < 128 then b[0 := b[0] + 128] else b
  }

  /** BN_mpi2bn. */
  function FromMpi(b: seq<Byte>): int {
    if b == [] then 0 else if b[0] >= 128 then 0 - Value(b[0 := b[0] - 128]) else Value(b)
  }

  // ------------------------------------------------------------------------------------------
  // Digits and values
  // ------------------------------------------------------------------------------------------

  lemma {:induction false} ValueOfDigits(x: nat, s: nat)
    requires x < Pow256(s)
    ensures Value(Digits(x, s)) == x
  {
    if s > 0 {
      ValueOfDigits(x / 256, s - 1);
      assert Digits(x, s)[..s - 1] == Digits(x / 256, s - 1);
    }
  }

  lemma {:induction false} DigitsOfValue(b: seq<Byte>)
    ensures Value(b) < Pow256(|b|) && Digits(Value(b), |b|) == b
  {
    if b != [] {
      DigitsOfValue(b[..|b| - 1]);
      assert Value(b) / 256 == Value(b[..|b| - 1]) && Value(b) % 256 == b[|b| - 1];
    }
  }

  lemma {:induction false} ValueConcat(a: seq<Byte>, b: seq<Byte>)
    ensures Value(a + b) == Value(a) * Pow256(|b|) + Value(b)
  {
    if b == [] {
      assert a + b == a;
    } else {
      var rest := b[..|b| - 1];
      ValueConcat(a, rest);
      assert (a + b)[..|a + b| - 1] == a + rest;
      Assoc(Value(a), 256, Pow256(|rest|));
      assert Value(a + b) == 256 * (Value(a) * Pow256(|rest|) + Value(rest)) + b[|b| - 1];
    }
  }

  lemma {:induction false} Assoc(a: int, b: int, c: int)
    ensures a * (b * c) == b * (a * c) && a * (b * c) == (a * b) * c
  {
  }

  lemma {:induction false} PowMonotone(a: nat, b: nat)
    requires a <= b
    ensures Pow256(a) <= Pow256(b)
    decreases b
  {
    if a < b { PowMonotone(a, b - 1); }
  }

  /** SizeOf counts the bytes exactly: x needs s bytes, with the sign, and no fewer. */
  lemma {:induction false} SizeIs(x: nat)
    requires x > 0
    ensures SizeOf(x) >= 1 && 2 * x < Pow256(SizeOf(x)) && 2 * 256 * x >= Pow256(SizeOf(x))
    decreases x
  {
    if x >= 256 {
      assert SizeOf(x) == SizeOf(x / 256) + 1;
      hide SizeOf, Pow256;
      SizeIs(x / 256);
      OneByteMore(x, SizeOf(x / 256));
    } else if x >= 128 {
      assert Pow256(2) == 65536;
    } else {
      assert Pow256(1) == 256;
    }
  }

  lemma {:induction false} OneByteMore(x: nat, s: nat)
    requires s >= 1 && 2 * (x / 256) < Pow256(s) && 512 * (x / 256) >= Pow256(s)
    ensures 2 * x < Pow256(s + 1) && 512 * x >= Pow256(s + 1)
  {
    assert Pow256(s) == 256 * Pow256(s - 1);
  }

  lemma {:induction false} SizeMonotone(x: nat, y: nat)
    requires x <= y
    ensures SizeOf(x) <= SizeOf(y)
    decreases y
  {
    if x >= 256 { SizeMonotone(x / 256, y / 256); } else if y >= 256 { SizeIs(y / 256); }
  }

  lemma {:induction false} TopDigit(x: nat, s: nat)
    requires s > 0 && 2 * x < Pow256(s)
    ensures Digits(x, s)[0] < 128
  {
    if s > 1 { TopDigit(x / 256, s - 1); }
  }

  /** What is written is read back, for every integer. */
  lemma {:induction false} MpiRoundTrip(x: int)
    ensures FromMpi(Mpi(x)) == x
  {
    if x != 0 {
      var (m, s) := (Abs(x), SizeOf(Abs(x)));
      SizeIs(m);
      ValueOfDigits(m, s);
      TopDigit(m, s);
      var b := Digits(m, s);
      if x < 0 { assert Mpi(x)[0 := Mpi(x)[0] - 128] == b; }
    }
  }

  /** The first k digits. */
  lemma {:induction false} DigitsPrefix(x: nat, s: nat, k: nat)
    requires k <= s
    ensures Digits(x, s)[..k] == Digits(x / Pow256(s - k), k)
    decreases s
  {
    if k < s {
      DigitsPrefix(x / 256, s - 1, k);
      DivDiv(x, 256, Pow256(s - 1 - k));
      assert Digits(x, s)[..k] == Digits(x / 256, s - 1)[..k];
    } else {
      assert Digits(x, s)[..k] == Digits(x, s);
    }
  }

  lemma {:induction false} DivDiv(x: nat, a: nat, b: nat)
    requires a > 0 && b > 0
    ensures a * b > 0 && x / a / b == x / (a * b)
  {
    var (y, r) := (x / a, x % a);
    assert x == a * y + r;
    DivByProduct(x, a, b, y, r, y / b, y % b);
  }

  lemma {:induction false} DivByProduct(x: nat, a: nat, b: nat, y: nat, r1: nat, q: nat, r2: nat)
    requires x == a * y + r1 && r1 < a && y == b * q + r2 && r2 < b
    ensures a * b > 0 && x / (a * b) == q
  {
    Distribute(a, b, q, r2);
    ProductBelow(a, b, r2);
    DivIs(x, a * b, q, a * r2 + r1);
  }

  lemma {:induction false} Distribute(a: int, b: int, q: int, r: int)
    ensures a * (b * q + r) == (a * b) * q + a * r
  {
    assert a * (b * q) == (a * b) * q;
  }

  lemma {:induction false} ProductBelow(a: nat, b: nat, r: nat)
    requires a > 0 && r < b
    ensures a * r + a <= a * b
  {
    var d: nat := b - r - 1;
    assert a * b == a * r + a + a * d && a * d >= 0;
  }
}
