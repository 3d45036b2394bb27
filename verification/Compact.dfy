/** Compact targets (SetCompact, GetCompact, src/bignum.h): a size byte and the three highest bytes
    of a number, a sign bit among them. */
module Compact {
  import opened Basics
  import opened BigNum

  const WORD: nat := 0x100_0000
  const SIGN: nat := 0x80_0000

  /** The three highest bytes of m, when it takes s bytes. */
  function Mantissa(m: nat, s: nat): nat { if s <= 3 then Product(m, Pow256(3 - s)) else Quotient(m, Pow256(s - 3)) }

  function Product(a: nat, b: nat): nat { a * b }

  function Quotient(a: nat, b: nat): nat
    requires b > 0
  {
    a / b
  }

  /** What GetCompact computes; the size is cut to a byte. */
  function Encode(x: int): nat {
    (SizeOf(Abs(x)) % 256) * WORD + (if x < 0 then SIGN else 0) + Mantissa(Abs(x), SizeOf(Abs(x)))
  }

  function Scaled(m: nat, s: nat): nat { if s <= 3 then Quotient(m, Pow256(3 - s)) else Product(m, Pow256(s - 3)) }

  /** What SetCompact computes. */
  function Decode(nCompact: nat): int {
    var (s, w) := (nCompact / WORD, nCompact % WORD);
    if s == 0 then 0 else if w >= SIGN then 0 - Scaled(w - SIGN, s) else Scaled(w, s)
  }

  /** The value that survives: all but the three highest bytes are lost. */
  function Kept(m: nat): nat
  {
    if SizeOf(m) <= 3 then m else Product(Quotient(m, Pow256(SizeOf(m) - 3)), Pow256(SizeOf(m) - 3))
  }

  // ------------------------------------------------------------------------------------------
  // The byte-wise code computes this
  // ------------------------------------------------------------------------------------------

  lemma {:induction false} ThreeDigits(m: nat)
    requires m < WORD
    ensures Digits(m, 3) == [m / 65536, m / 256 % 256, m % 256]
    ensures Digits(m / 256, 2) == [m / 65536, m / 256 % 256] && Digits(m / 65536, 1) == [m / 65536]
  {
    assert Digits(m / 256, 2) == Digits(m / 256 / 256, 1) + [m / 256 % 256];
    assert m / 256 / 256 == m / 65536 < 256;
    assert Digits(m / 65536, 1) == Digits(m / 65536 / 256, 0) + [m / 65536 % 256];
  }

  lemma {:induction false} SmallPowers()
    ensures Pow256(0) == 1 && Pow256(1) == 256 && Pow256(2) == 65536 && Pow256(3) == WORD
  {
  }

  lemma {:induction false} MantissaSmall(m: nat, s: nat)
    requires 2 * m < Pow256(s) || (m == 0 && s == 0)
    ensures Mantissa(m, s) < SIGN
  {
    SmallPowers();
    if s > 3 {
      PowSplit(s, 3);
      var (q, p) := (m / Pow256(s - 3), Pow256(s - 3));
      assert q * p <= m by { assert m == q * p + m % p; }
      if q >= SIGN { assert q * p >= SIGN * p; }
    }
  }

  lemma {:induction false} PowSplit(s: nat, k: nat)
    requires k <= s
    ensures Pow256(s) == Pow256(k) * Pow256(s - k)
  {
    if k > 0 {
      PowSplit(s - 1, k - 1);
      Assoc(Pow256(s - k), 256, Pow256(k - 1));
    }
  }

  /** The first bytes of m, when it takes s of them, are those of its mantissa. */
  lemma {:induction false} FirstBytes(m: nat, s: nat)
    requires s > 0 && 2 * m < Pow256(s)
    ensures var (b, w) := (Digits(m, s), Mantissa(m, s));
      && w < SIGN && b[0] == w / 65536
      && (s >= 2 ==> b[1] == w / 256 % 256) && (s >= 3 ==> b[2] == w % 256)
      && (s == 1 ==> w % 65536 == 0) && (s == 2 ==> w % 256 == 0)
  {
    SmallPowers();
    var w := Mantissa(m, s);
    MantissaSmall(m, s);
    ThreeDigits(w);
    if s == 1 {
      assert w == m * 65536;
      DivIs(w, 65536, m, 0);
    } else if s == 2 {
      assert w == m * 256;
      DivIs(w, 256, m, 0);
    } else {
      FirstThree(m, s);
    }
  }

  lemma {:induction false} FirstThree(m: nat, s: nat)
    requires s >= 3
    ensures var d := Digits(Quotient(m, Pow256(s - 3)), 3);
      Digits(m, s)[0] == d[0] && Digits(m, s)[1] == d[1] && Digits(m, s)[2] == d[2]
  {
    DigitsPrefix(m, s, 3);
    var p := Digits(m, s)[..3];
    assert p[0] == Digits(m, s)[0] && p[1] == Digits(m, s)[1] && p[2] == Digits(m, s)[2];
  }

  lemma {:induction false} NoBytes(m: nat)
    ensures SizeOf(m) == 0 <==> m == 0
    ensures Mantissa(0, 0) == 0
  {
    if m > 0 { SizeIs(m); }
  }

  lemma {:induction false} Recompose(w: nat)
    ensures w / 65536 * 65536 + w / 256 % 256 * 256 + w % 256 == w
    ensures w % 65536 == 0 ==> w / 65536 * 65536 == w
    ensures w % 256 == 0 ==> w / 65536 * 65536 + w / 256 % 256 * 256 == w
  {
    assert w / 65536 == w / 256 / 256;
  }

  method GetCompact(x: int) returns (nCompact: nat)
    ensures nCompact == Encode(x)
  {
    var vch := Mpi(x);
    var nSize := |vch|;
    hide SizeOf, Mantissa, Digits, Value, Pow256;
    ghost var (m, w) := (Abs(x), Mantissa(Abs(x), nSize));
    assert nSize == SizeOf(m);
    nCompact := (nSize % 256) * WORD;
    if nSize == 0 {
      NoBytes(m);
      return;
    }
    NoBytes(m);
    SizeIs(m);
    Recompose(w);
    FirstBytes(m, nSize);
    assert vch[0] == w / 65536 + if x < 0 then 128 else 0;
    if nSize >= 1 { nCompact := nCompact + vch[0] as int * 65536; }
    if nSize >= 2 { nCompact := nCompact + vch[1] as int * 256; }
    if nSize >= 3 { nCompact := nCompact + vch[2] as int; }
  }

  lemma {:induction false} ValueOfZeros(n: nat)
    ensures Value(Zeros(n)) == 0
  {
    if n > 0 {
      ValueOfZeros(n - 1);
      assert Zeros(n)[..n - 1] == Zeros(n - 1);
    }
  }

  lemma {:induction false} ValueOfThree(b0: Byte, b1: Byte, b2: Byte)
    ensures Value([b0]) == b0 && Value([b0, b1]) == b0 * 256 + b1 && Value([b0, b1, b2]) == b0 * 65536 + b1 * 256 + b2
  {
    assert [b0][..0] == [] && [b0, b1][..1] == [b0] && [b0, b1, b2][..2] == [b0, b1];
  }

  /** A body that starts with the bytes of w and goes on with zeros. */
  lemma {:induction false} BodyValue(b: seq<Byte>, w: nat)
    requires b != [] && w < WORD && b[0] == w / 65536 && (|b| >= 2 ==> b[1] == w / 256 % 256)
    requires (|b| >= 3 ==> b[2] == w % 256)
    requires forall i :: 3 <= i < |b| ==> b[i] == 0
    ensures Value(b) == Scaled(w, |b|)
  {
    SmallPowers();
    ValueOfThree(w / 65536, w / 256 % 256, w % 256);
    if |b| == 1 {
      assert b == [w / 65536];
    } else if |b| == 2 {
      assert b == [w / 65536, w / 256 % 256];
      assert w / 65536 * 256 + w / 256 % 256 == w / 256;
    } else {
      var head := [w / 65536, w / 256 % 256, w % 256];
      assert b == head + Zeros(|b| - 3);
      ValueConcat(head, Zeros(|b| - 3));
      ValueOfZeros(|b| - 3);
      assert Value(head) == w;
      if |b| == 3 { assert Pow256(0) == 1; }
    }
  }

  lemma {:induction false} CompactBytes(c: nat)
    ensures var w := c % WORD; c / 65536 % 256 == w / 65536 && c / 256 % 256 == w / 256 % 256 && c % 256 == w % 256
  {
    var (s, w) := (c / WORD, c % WORD);
    assert c == s * WORD + w;
    DivIs(c, 65536, s * 256 + w / 65536, w % 65536);
    DivIs(s * 256 + w / 65536, 256, s, w / 65536);
    DivIs(c, 256, s * 65536 + w / 256, w % 256);
    DivIs(s * 65536 + w / 256, 256, s * 256 + w / 256 / 256, w / 256 % 256);
  }

  lemma {:induction false} SignBytes(w: nat)
    requires w < WORD
    ensures w / 65536 >= 128 <==> w >= SIGN
    ensures w >= SIGN ==>
      var v := w - SIGN;
      v / 65536 == w / 65536 - 128 && v / 256 % 256 == w / 256 % 256 && v % 256 == w % 256
  {
    if w >= SIGN {
      var v := w - SIGN;
      assert w == 128 * 65536 + v;
      assert w / 256 == 128 * 256 + v / 256;
    }
  }

  method SetCompact(nCompact: nat) returns (x: int)
    requires nCompact < 0x1_0000_0000
    ensures x == Decode(nCompact)
  {
    hide Scaled, Value, Pow256;
    var nSize := nCompact / WORD;
    ghost var w := nCompact % WORD;
    var vch := Zeros(nSize);
    if nSize >= 1 { vch := vch[0 := nCompact / 65536 % 256]; }
    if nSize >= 2 { vch := vch[1 := nCompact / 256 % 256]; }
    if nSize >= 3 { vch := vch[2 := nCompact % 256]; }
    x := FromMpi(vch);
    if nSize >= 1 {
      CompactBytes(nCompact);
      SignBytes(w);
      if w >= SIGN {
        BodyValue(vch[0 := vch[0] - 128], w - SIGN);
      } else {
        BodyValue(vch, w);
      }
    }
  }

  // ------------------------------------------------------------------------------------------
  // What survives
  // ------------------------------------------------------------------------------------------

  lemma {:induction false} QuotientIs(m: nat, p: nat)
    requires p > 0
    ensures var q := Quotient(m, p); Product(q, p) <= m < Product(q, p) + p && Quotient(Product(m, p), p) == m
  {
    assert m == p * (m / p) + m % p;
    DivIs(m * p, p, m, 0);
  }

  lemma {:induction false} Split(s: nat, w: nat)
    requires w < WORD
    ensures (s * WORD + w) / WORD == s && (s * WORD + w) % WORD == w
  {
  }

  /** Decoding what was encoded keeps the three highest bytes and the sign. */
  lemma {:induction false} DecodeEncode(x: int)
    requires SizeOf(Abs(x)) < 256
    ensures Decode(Encode(x)) == if x < 0 then 0 - Kept(Abs(x)) else Kept(Abs(x))
  {
    hide Mantissa, Scaled, Pow256;
    var (m, s) := (Abs(x), SizeOf(Abs(x)));
    NoBytes(m);
    if m > 0 { SizeIs(m); } else { assert Kept(0) == 0; }
    MantissaSmall(m, s);
    Split(s, Mantissa(m, s) + if x < 0 then SIGN else 0);
    ScaledMantissa(m);
  }

  lemma {:induction false} ScaledMantissa(m: nat)
    ensures Scaled(Mantissa(m, SizeOf(m)), SizeOf(m)) == Kept(m)
  {
    hide SizeOf, Product, Quotient;
    var s := SizeOf(m);
    if s <= 3 {
      QuotientIs(m, Pow256(3 - s));
      assert Pow256(0) == 1;
      assert s == 3 ==> Quotient(Product(m, 1), 1) == m;
    }
  }

  /** The loss is less than one unit of the lowest byte kept. */
  lemma {:induction false} KeptBounds(m: nat)
    ensures Kept(m) <= m && (SizeOf(m) <= 3 ==> Kept(m) == m)
    ensures SizeOf(m) >= 3 ==> m < Kept(m) + Pow256(SizeOf(m) - 3)
  {
    hide SizeOf, Product, Quotient;
    if SizeOf(m) > 3 { QuotientIs(m, Pow256(SizeOf(m) - 3)); }
  }

  lemma {:induction false} SizeUnique(m: nat, s: nat)
    requires s > 0 && 2 * m < Pow256(s) && 512 * m >= Pow256(s)
    ensures SizeOf(m) == s
  {
    hide SizeOf, Pow256;
    SizeIs(m);
    PowStep(SizeOf(m), s);
    PowStep(s, SizeOf(m));
  }

  lemma {:induction false} PowStep(a: nat, b: nat)
    ensures a < b ==> 256 * Pow256(a) <= Pow256(b)
  {
    if a < b { PowMonotone(a + 1, b); }
  }

  lemma {:induction false} ProductOrder(a: nat, b: nat, p: nat)
    ensures a <= b ==> Product(a, p) <= Product(b, p)
    ensures a < b ==> Product(a, p) + p <= Product(b, p)
  {
    if a <= b {
      assert (b - a) * p >= 0 && b * p == a * p + (b - a) * p;
      if a < b { assert (b - a - 1) * p >= 0 && (b - a) * p == p + (b - a - 1) * p; }
    }
  }

  /** The highest byte is kept, so is the size. */
  lemma {:induction false} KeptSize(m: nat)
    requires m > 0
    ensures SizeOf(Kept(m)) == SizeOf(m) && 512 * Kept(m) >= Pow256(SizeOf(m))
  {
    hide SizeOf, Pow256, Quotient;
    var s := SizeOf(m);
    SizeIs(m);
    if s > 3 {
      var (p, q) := (Pow256(s - 3), Quotient(m, Pow256(s - 3)));
      PowSplit(s, 3);
      SmallPowers();
      QuotientIs(m, p);
      ProductOrder(q, 32768, p);
      ProductOrder(32768, q, p);
    }
    SizeUnique(Kept(m), s);
  }

  /** Rounding twice is rounding once. */
  lemma {:induction false} KeptIdempotent(m: nat)
    ensures Kept(Kept(m)) == Kept(m)
  {
    if m > 0 {
      KeptSize(m);
      var s := SizeOf(m);
      if s > 3 { QuotientIs(Quotient(m, Pow256(s - 3)), Pow256(s - 3)); }
    }
  }

  lemma {:induction false} KeptMonotone(a: nat, b: nat)
    requires a <= b
    ensures Kept(a) <= Kept(b)
  {
    hide SizeOf;
    SizeMonotone(a, b);
    KeptBounds(a);
    KeptBounds(b);
    var (s, t) := (SizeOf(a), SizeOf(b));
    if a > 0 && t > 3 {
      KeptSize(b);
      if s == t {
        QuotientMonotone(a, b, Pow256(t - 3));
      } else {
        SizeIs(a);
        PowMonotone(s + 1, t);
        assert Pow256(s + 1) == 256 * Pow256(s);
      }
    } else if a == 0 {
      NoBytes(0);
    }
  }

  lemma {:induction false} QuotientMonotone(a: nat, b: nat, p: nat)
    requires a <= b && p > 0
    ensures Product(Quotient(a, p), p) <= Product(Quotient(b, p), p)
  {
    QuotientIs(a, p);
    QuotientIs(b, p);
    hide Product, Quotient;
    ProductOrder(Quotient(b, p), Quotient(a, p), p);
    ProductOrder(Quotient(a, p), Quotient(b, p), p);
  }
}
