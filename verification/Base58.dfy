/** Base 58 (EncodeBase58, DecodeBase58 and the checked forms, src/base58.h) over the sign-and-magnitude
    bytes of CBigNum. */
module Base58 {
  import opened Basics
  import opened BigNum

  // ------------------------------------------------------------------------------------------
  // The alphabet
  // ------------------------------------------------------------------------------------------

  type Digit = d: nat | d < 58

  /** pszBase58: the digits, then the letters without I, O and l. */
  function CharOf(d: Digit): char {
    if d < 9 then ('1' as int + d) as char
    else if d < 17 then ('A' as int + (d - 9)) as char
    else if d < 22 then ('J' as int + (d - 17)) as char
    else if d < 33 then ('P' as int + (d - 22)) as char
    else if d < 44 then ('a' as int + (d - 33)) as char
    else ('m' as int + (d - 44)) as char
  }

  predicate InAlphabet(c: char) {
    '1' <= c <= '9' || 'A' <= c <= 'H' || 'J' <= c <= 'N' || 'P' <= c <= 'Z' || 'a' <= c <= 'k' || 'm' <= c <= 'z'
  }

  /** strchr(pszBase58, c) - pszBase58. */
  function DigitOf(c: char): Digit
    requires InAlphabet(c)
  {
    if c <= '9' then c as int - '1' as int
    else if c <= 'H' then c as int - 'A' as int + 9
    else if c <= 'N' then c as int - 'J' as int + 17
    else if c <= 'Z' then c as int - 'P' as int + 22
    else if c <= 'k' then c as int - 'a' as int + 33
    else c as int - 'm' as int + 44
  }

  predicate IsSpace(c: char) { c == ' ' || '\t' <= c <= '\r' }

  /** The alphabet is the digits and letters without 0, O, I and l, in the order of their codes. */
  lemma {:induction false} AlphabetIs(c: char, d: Digit, e: Digit)
    ensures InAlphabet(c) <==>
      ('0' <= c <= '9' || 'A' <= c <= 'Z' || 'a' <= c <= 'z') && c != '0' && c != 'O' && c != 'I' && c != 'l'
    ensures InAlphabet(CharOf(d)) && (d < e ==> CharOf(d) < CharOf(e))
  {
  }

  lemma {:induction false} AlphabetInverse(c: char, d: Digit)
    ensures InAlphabet(CharOf(d)) && DigitOf(CharOf(d)) == d && !IsSpace(CharOf(d)) && (CharOf(d) == '1' <==> d == 0)
    ensures InAlphabet(c) ==> CharOf(DigitOf(c)) == c
  {
  }

  // ------------------------------------------------------------------------------------------
  // Numbers in base 58
  // ------------------------------------------------------------------------------------------

  /** The digits of v without leading zeros, as characters. */
  function Text(v: nat): string { if v == 0 then [] else Text(v / 58) + [CharOf(v % 58)] }

  predicate AllDigits(s: string) { forall i :: 0 <= i < |s| ==> InAlphabet(s[i]) }

  function Number(s: string): nat
    requires AllDigits(s)
  {
    if s == [] then 0 else 58 * Number(s[..|s| - 1]) + DigitOf(s[|s| - 1])
  }

  lemma {:induction false} TextIs(v: nat)
    ensures AllDigits(Text(v)) && Number(Text(v)) == v && (v > 0 ==> Text(v) != [] && Text(v)[0] != '1')
  {
    if v > 0 {
      TextIs(v / 58);
      AlphabetInverse('1', v % 58);
      assert Text(v)[..|Text(v)| - 1] == Text(v / 58);
      if v < 58 { assert Text(v / 58) == []; }
    }
  }

  /** A text that does not start with the zero digit is the text of its number. */
  lemma {:induction false} NumberIs(s: string)
    requires AllDigits(s) && (s != [] ==> s[0] != '1')
    ensures Text(Number(s)) == s && (s != [] ==> Number(s) > 0)
  {
    if s != [] {
      var (rest, d) := (s[..|s| - 1], DigitOf(s[|s| - 1]));
      NumberIs(rest);
      AlphabetInverse(s[|s| - 1], d);
      assert Number(s) == 58 * Number(rest) + d;
      assert Number(s) / 58 == Number(rest) && Number(s) % 58 == d;
      if rest == [] { AlphabetInverse(s[0], 0); }
    }
  }

  function Ones(n: nat): string { if n == 0 then [] else ['1'] + Ones(n - 1) }

  lemma {:induction false} OnesOnly(n: nat)
    ensures |Ones(n)| == n && AllDigits(Ones(n)) && Number(Ones(n)) == 0
    ensures forall i :: 0 <= i < n ==> Ones(n)[i] == '1'
  {
    if n > 0 {
      OnesOnly(n - 1);
      OneMore(n);
      assert Ones(n)[..n - 1] == Ones(n - 1);
    }
  }

  lemma {:induction false} OnesAre(n: nat, s: string)
    requires AllDigits(s)
    ensures |Ones(n)| == n && AllDigits(Ones(n) + s) && Number(Ones(n) + s) == Number(s)
    ensures forall i :: 0 <= i < n ==> Ones(n)[i] == '1'
    decreases |s|
  {
    hide Ones, InAlphabet;
    OnesOnly(n);
    if s == [] {
      assert Ones(n) + s == Ones(n);
    } else {
      OnesAre(n, s[..|s| - 1]);
      assert (Ones(n) + s)[..n + |s| - 1] == Ones(n) + s[..|s| - 1];
    }
  }

  lemma {:induction false} OneMore(n: nat)
    requires n > 0
    ensures Ones(n) == Ones(n - 1) + ['1']
  {
    if n > 1 {
      OneMore(n - 1);
      assert ['1'] + (Ones(n - 2) + ['1']) == (['1'] + Ones(n - 2)) + ['1'];
    }
  }

  function LeadingOnes(s: string, i: nat): (n: nat)
    requires i <= |s|
    ensures i <= n <= |s| && (forall k :: i <= k < n ==> s[k] == '1') && (n < |s| ==> s[n] != '1')
    decreases |s| - i
  {
    if i == |s| || s[i] != '1' then i else LeadingOnes(s, i + 1)
  }

  // ------------------------------------------------------------------------------------------
  // Bytes
  // ------------------------------------------------------------------------------------------

  function LeadingZeros(b: seq<Byte>, i: nat): (n: nat)
    requires i <= |b|
    ensures i <= n <= |b| && (forall k :: i <= k < n ==> b[k] == 0) && (n < |b| ==> b[n] != 0)
    decreases |b| - i
  {
    if i == |b| || b[i] != 0 then i else LeadingZeros(b, i + 1)
  }

  /** No leading zero byte. */
  predicate Canonical(b: seq<Byte>) { b != [] ==> b[0] != 0 }

  lemma {:induction false} ZerosBefore(n: nat, b: seq<Byte>)
    ensures Value(Zeros(n) + b) == Value(b)
    decreases |b|, n
  {
    if b != [] {
      ZerosBefore(n, b[..|b| - 1]);
      assert (Zeros(n) + b)[..n + |b| - 1] == Zeros(n) + b[..|b| - 1];
    } else if n > 0 {
      ZerosBefore(n - 1, b);
      assert (Zeros(n) + b)[..n - 1] == Zeros(n - 1) + b;
    }
  }

  lemma {:induction false} CanonicalValue(b: seq<Byte>)
    requires Canonical(b) && b != []
    ensures Pow256(|b| - 1) <= Value(b) < Pow256(|b|)
  {
    DigitsOfValue(b);
    if |b| > 1 { CanonicalValue(b[..|b| - 1]); } else { assert Value(b[..0]) == 0; }
  }

  /** Canonical bytes are determined by their value. */
  lemma {:induction false} CanonicalUnique(a: seq<Byte>, b: seq<Byte>)
    requires Canonical(a) && Canonical(b) && Value(a) == Value(b)
    ensures a == b
  {
    if a != [] { CanonicalValue(a); }
    if b != [] { CanonicalValue(b); }
    PowOrder(|a|, |b| - 1);
    PowOrder(|b|, |a| - 1);
    DigitsOfValue(a);
    DigitsOfValue(b);
  }

  lemma {:induction false} PowOrder(a: nat, b: int)
    ensures a <= b ==> Pow256(a) <= Pow256(b)
  {
    if a <= b { PowMonotone(a, b); }
  }

  /** getvch without its sign byte, in big-endian order. */
  function Trimmed(body: seq<Byte>): seq<Byte>
  {
    if |body| >= 2 && body[0] == 0 && body[1] >= 128 then body[1..] else body
  }

  lemma {:induction false} TopByte(v: nat, s: nat)
    requires s >= 2 && v < Pow256(s)
    ensures Digits(v, s)[0] == v / Pow256(s - 1)
    ensures (Digits(v, s)[0] == 0 ==> Digits(v, s)[1..] == Digits(v, s - 1) && v < Pow256(s - 1))
    decreases s
  {
    if s == 2 {
      assert Digits(v, 2) == Digits(v / 256, 1) + [v % 256] &&
        Digits(v / 256, 1) == Digits(v / 256 / 256, 0) + [v / 256 % 256];
      assert Pow256(1) == 256;
    } else {
      TopByte(v / 256, s - 1);
      DivDiv(v, 256, Pow256(s - 2));
      assert Digits(v, s)[1..] == Digits(v / 256, s - 1)[1..] + [v % 256];
    }
  }

  /** The bytes of a number, trimmed, are its canonical bytes. */
  lemma {:induction false} TrimmedIs(v: nat)
    ensures Canonical(Trimmed(Mpi(v))) && Value(Trimmed(Mpi(v))) == v
  {
    var s := SizeOf(v);
    if v > 0 {
      SizeIs(v);
      ValueOfDigits(v, s);
      if s >= 2 {
        TopByte(v, s);
        if Mpi(v)[0] == 0 {
          ValueOfDigits(v, s - 1);
          HighBit(v, s - 1);
        }
      } else {
        assert Pow256(1) == 256 && Digits(v, 1) == [v % 256];
      }
    }
  }

  lemma {:induction false} HighBit(v: nat, s: nat)
    requires s >= 1 && v < Pow256(s) && 2 * v >= Pow256(s)
    ensures Digits(v, s)[0] >= 128
  {
    if s > 1 {
      TopByte(v, s);
      QuotientAtLeast(v, 128, Pow256(s - 1));
    } else {
      assert Pow256(1) == 256 && Digits(v, 1) == [v % 256];
    }
  }

  lemma {:induction false} QuotientAtLeast(v: nat, k: nat, p: nat)
    requires p > 0 && v >= k * p
    ensures v / p >= k
  {
    var q := v / p;
    assert v == p * q + v % p;
    Times(p, k - q);
  }

  // ------------------------------------------------------------------------------------------
  // Encoding
  // ------------------------------------------------------------------------------------------

  /** One '1' for every leading zero byte, then the number in base 58. */
  function Encoded(b: seq<Byte>): string { Ones(LeadingZeros(b, 0)) + Text(Value(b)) }

  lemma {:induction false} RevAppend(s: string, c: char)
    ensures Rev(s + [c]) == [c] + Rev(s)
  {
    if s != [] {
      assert (s + [c])[1..] == s[1..] + [c];
      RevAppend(s[1..], c);
    }
  }

  method EncodeBase58(b: seq<Byte>) returns (str: string)
    ensures str == Encoded(b)
  {
    hide Value, Text, Rev;
    var bn := FromMpi([0] + b);
    assert bn == Value(b) by { ZerosBefore(1, b); assert Zeros(1) + b == [0] + b; }
    str := TextReversed(bn);
    var p := 0;
    assert Ones(0) + Text(Value(b)) == Text(Value(b));
    while p < |b| && b[p] == 0
      invariant p <= |b| && LeadingZeros(b, p) == LeadingZeros(b, 0) && Rev(str) == Ones(p) + Text(Value(b))
    {
      RevAppend(str, CharOf(0));
      assert ['1'] + (Ones(p) + Text(Value(b))) == (['1'] + Ones(p)) + Text(Value(b));
      assert Ones(p + 1) == ['1'] + Ones(p);
      str := str + [CharOf(0)];
      p := p + 1;
    }
    str := Rev(str);
  }

  /** The digits of the number, lowest first. */
  method TextReversed(v: nat) returns (str: string)
    ensures Rev(str) == Text(v)
  {
    str := [];
    var bn := v;
    assert Rev("") == "";
    while bn > 0
      invariant Text(bn) + Rev(str) == Text(v)
    {
      var rem := bn % 58;
      RevAppend(str, CharOf(rem));
      assert (Text(bn / 58) + [CharOf(rem)]) + Rev(str) == Text(bn / 58) + ([CharOf(rem)] + Rev(str));
      bn := bn / 58;
      str := str + [CharOf(rem)];
    }
  }

  // ------------------------------------------------------------------------------------------
  // Decoding
  // ------------------------------------------------------------------------------------------

  /** A zero byte for every leading '1', then the bytes of the number. */
  function Decoded(s: string): seq<Byte>
    requires AllDigits(s)
  {
    Zeros(LeadingOnes(s, 0)) + Trimmed(Mpi(Number(s)))
  }

  function SkipSpaces(s: string, i: nat): (j: nat)
    requires i <= |s|
    ensures i <= j <= |s| && (forall k :: i <= k < j ==> IsSpace(s[k])) && (j < |s| ==> !IsSpace(s[j]))
    decreases |s| - i
  {
    if i == |s| || !IsSpace(s[i]) then i else SkipSpaces(s, i + 1)
  }

  function SkipDigits(s: string, i: nat): (j: nat)
    requires i <= |s|
    ensures i <= j <= |s| && (forall k :: i <= k < j ==> InAlphabet(s[k])) && (j < |s| ==> !InAlphabet(s[j]))
    decreases |s| - i
  {
    if i == |s| || !InAlphabet(s[i]) then i else SkipDigits(s, i + 1)
  }

  /** What stands between the surrounding white space. */
  function Core(s: string): (c: string)
    ensures AllDigits(c)
  {
    s[SkipSpaces(s, 0)..SkipDigits(s, SkipSpaces(s, 0))]
  }

  /** Nothing but white space follows. */
  predicate Decodable(s: string) { SkipSpaces(s, SkipDigits(s, SkipSpaces(s, 0))) == |s| }

  /** A string as a C string (c_str): a NUL character ends it. */
  function CStr(s: string): (t: string)
    ensures t <= s && (forall i :: 0 <= i < |t| ==> t[i] != '\0') && (|t| < |s| ==> s[|t|] == '\0')
  {
    if s == [] || s[0] == '\0' then [] else [s[0]] + CStr(s[1..])
  }

  /** A text that can be decoded has no NUL, so all of it is read. */
  lemma {:induction false} DecodableIsRead(s: string)
    requires Decodable(s)
    ensures CStr(s) == s
  {
    assert forall k :: 0 <= k < |s| ==> IsSpace(s[k]) || InAlphabet(s[k]);
    assert !IsSpace('\0') && !InAlphabet('\0');
  }

  /** The digits from psz on, and their number. */
  method ReadDigits(s: string, psz: nat) returns (bn: nat, p: nat)
    requires psz <= |s|
    ensures p == SkipDigits(s, psz) && bn == Number(s[psz..p])
  {
    bn, p := 0, psz;
    assert s[psz..psz] == [] && Number([]) == 0;
    while p < |s| && InAlphabet(s[p])
      invariant psz <= p <= |s| && SkipDigits(s, p) == SkipDigits(s, psz)
      invariant AllDigits(s[psz..p]) && bn == Number(s[psz..p])
    {
      assert s[psz..p + 1][..p - psz] == s[psz..p];
      assert Number(s[psz..p + 1]) == 58 * Number(s[psz..p]) + DigitOf(s[p]);
      bn := bn * 58 + DigitOf(s[p]);
      p := p + 1;
    }
  }

  method PassSpaces(s: string, i: nat) returns (j: nat)
    requires i <= |s|
    ensures j == SkipSpaces(s, i)
  {
    j := i;
    while j < |s| && IsSpace(s[j])
      invariant i <= j <= |s| && SkipSpaces(s, j) == SkipSpaces(s, i)
    {
      j := j + 1;
    }
  }

  /** The ones counted in the whole string are those of the core, which ends before any other character. */
  method CountOnes(s: string, psz: nat, ghost p: nat) returns (n: nat)
    requires psz <= p <= |s| && (p < |s| ==> s[p] != '1')
    ensures n == LeadingOnes(s[psz..p], 0)
  {
    n := 0;
    ghost var core := s[psz..p];
    while psz + n < |s| && s[psz + n] == '1'
      invariant n <= |core| && LeadingOnes(core, n) == LeadingOnes(core, 0)
    {
      assert psz + n != p;
      assert core[n] == '1';
      n := n + 1;
    }
    if n < |core| { assert core[n] == s[psz + n]; }
  }

  method DecodeBase58(str: string) returns (ok: bool, vchRet: seq<Byte>)
    ensures ok <==> Decodable(CStr(str))
    ensures ok ==> vchRet == Decoded(Core(CStr(str)))
  {
    hide Number, Trimmed, Mpi, LeadingOnes, SkipSpaces, SkipDigits;
    var s := CStr(str);
    var psz := PassSpaces(s, 0);
    var bn, p := ReadDigits(s, psz);
    var end := PassSpaces(s, p);
    if end != |s| { return false, []; }
    var vchTmp := Trimmed(Mpi(bn));
    assert InAlphabet('1');
    var nLeadingZeros := CountOnes(s, psz, p);
    ok, vchRet := true, Zeros(nLeadingZeros) + vchTmp;
  }

  // ------------------------------------------------------------------------------------------
  // A bijection
  // ------------------------------------------------------------------------------------------

  /** Bytes are leading zeros followed by canonical bytes. */
  lemma {:induction false} BytesSplit(b: seq<Byte>)
    ensures var z := LeadingZeros(b, 0); b == Zeros(z) + b[z..] && Canonical(b[z..]) && Value(b) == Value(b[z..])
  {
    var z := LeadingZeros(b, 0);
    assert b == Zeros(z) + b[z..];
    ZerosBefore(z, b[z..]);
  }

  lemma {:induction false} TextSplit(s: string)
    requires AllDigits(s)
    ensures var k := LeadingOnes(s, 0); s == Ones(k) + s[k..] && AllDigits(s[k..]) && Number(s) == Number(s[k..])
  {
    var k := LeadingOnes(s, 0);
    OnesAre(k, s[k..]);
    assert s == Ones(k) + s[k..];
  }

  lemma {:induction false} LeadingOnesIs(k: nat, s: string)
    requires s != [] ==> s[0] != '1'
    ensures |Ones(k)| == k && LeadingOnes(Ones(k) + s, 0) == k
  {
    OnesAre(k, []);
    var (t, n) := (Ones(k) + s, LeadingOnes(Ones(k) + s, 0));
    assert forall i :: 0 <= i < k ==> t[i] == '1';
    if s != [] { assert t[k] == s[0]; }
  }

  /** Decoding gives back every byte string, leading zeros included. */
  lemma {:induction false} DecodeEncode(b: seq<Byte>)
    ensures Decodable(Encoded(b)) && Core(Encoded(b)) == Encoded(b) && Decoded(Encoded(b)) == b
    ensures CStr(Encoded(b)) == Encoded(b)
  {
    hide Value, Number, Trimmed, Mpi, CStr;
    var (z, v) := (LeadingZeros(b, 0), Value(b));
    BytesSplit(b);
    TextIs(v);
    if v == 0 { assert Text(0) == []; }
    OnesAre(z, Text(v));
    LeadingOnesIs(z, Text(v));
    AllCore(Encoded(b));
    DecodableIsRead(Encoded(b));
    TrimmedIs(v);
    CanonicalUnique(Trimmed(Mpi(v)), b[z..]);
  }

  lemma {:induction false} AllCore(s: string)
    requires AllDigits(s)
    ensures Decodable(s) && Core(s) == s
  {
    forall i | 0 <= i < |s| ensures !IsSpace(s[i]) { AlphabetInverse(s[i], DigitOf(s[i])); }
  }

  /** Encoding what was decoded gives back the text, without the white space around it. */
  lemma {:induction false} EncodeDecode(s: string)
    requires AllDigits(s)
    ensures Encoded(Decoded(s)) == s
  {
    hide Text, Value, Number, Trimmed, Mpi;
    var (k, v) := (LeadingOnes(s, 0), Number(s));
    TextSplit(s);
    NumberIs(s[k..]);
    TrimmedIs(v);
    ZerosBefore(k, Trimmed(Mpi(v)));
    LeadingZerosIs(k, Trimmed(Mpi(v)));
  }

  lemma {:induction false} LeadingZerosIs(k: nat, b: seq<Byte>)
    requires Canonical(b)
    ensures LeadingZeros(Zeros(k) + b, 0) == k
  {
    var (t, n) := (Zeros(k) + b, LeadingZeros(Zeros(k) + b, 0));
    assert forall i :: 0 <= i < k ==> t[i] == 0;
    if b != [] { assert t[k] == b[0]; }
  }

  // ------------------------------------------------------------------------------------------
  // Length
  // ------------------------------------------------------------------------------------------

  function Pow58(n: nat): (p: nat)
    ensures p >= 1
  {
    if n == 0 then 1 else 58 * Pow58(n - 1)
  }

  lemma {:induction false} TextLength(v: nat)
    requires v > 0
    ensures |Text(v)| >= 1 && Pow58(|Text(v)| - 1) <= v
  {
    if v >= 58 { TextLength(v / 58); } else { assert Text(v / 58) == []; }
  }

  lemma {:induction false} Pow58Order(a: nat, b: nat)
    requires a <= b
    ensures Pow58(a) <= Pow58(b)
    decreases b
  {
    if a < b { Pow58Order(a, b - 1); }
  }

  /** Eleven digits hold more than eight bytes. */
  lemma {:induction false} DigitsHoldBytes(a: nat, m: nat)
    requires 8 * a >= 11 * m
    ensures Pow58(a) >= Pow256(m)
    decreases m
  {
    if m >= 8 {
      DigitsHoldBytes(a - 11, m - 8);
      Steps58(a - 11);
      Steps256(m - 8);
      assert 24986644000165537792 * Pow58(a - 11) >= 18446744073709551616 * Pow256(m - 8);
    } else {
      var least := (11 * m + 7) / 8;
      Pow58Order(least, a);
      SmallPowers(m);
    }
  }

  lemma {:induction false} Steps58(n: nat)
    ensures Pow58(n + 11) == 24986644000165537792 * Pow58(n)
  {
    Four58(n);
    Four58(n + 4);
    Four58(n + 7);
    assert Pow58(n + 8) == 58 * Pow58(n + 7);
  }

  lemma {:induction false} Four58(n: nat)
    ensures Pow58(n + 4) == 11316496 * Pow58(n)
  {
    assert Pow58(n + 1) == 58 * Pow58(n);
    assert Pow58(n + 2) == 58 * Pow58(n + 1);
    assert Pow58(n + 3) == 58 * Pow58(n + 2);
  }

  lemma {:induction false} Four256(n: nat)
    ensures Pow256(n + 4) == 4294967296 * Pow256(n)
  {
    assert Pow256(n + 1) == 256 * Pow256(n);
    assert Pow256(n + 2) == 256 * Pow256(n + 1);
    assert Pow256(n + 3) == 256 * Pow256(n + 2);
  }

  lemma {:induction false} Steps256(n: nat)
    ensures Pow256(n + 8) == 18446744073709551616 * Pow256(n)
  {
    Four256(n);
    Four256(n + 4);
  }

  lemma {:induction false} SmallPowers(m: nat)
    requires m < 8
    ensures Pow58((11 * m + 7) / 8) >= Pow256(m)
  {
    assert Pow58(2) == 3364 && Pow58(3) == 195112 && Pow58(5) == 656356768 && Pow58(6) == 38068692544;
    assert Pow58(7) == 2207984167552 && Pow58(9) == 7427658739644928 && Pow58(10) == 430804206899405824;
    assert Pow256(1) == 256 && Pow256(2) == 65536 && Pow256(3) == 16777216 && Pow256(4) == 4294967296;
    assert Pow256(5) == 1099511627776 && Pow256(6) == 281474976710656 && Pow256(7) == 72057594037927936;
    assert Pow58(0) == 1 && Pow256(0) == 1;
  }

  /** The text never outgrows the space reserved for it. */
  lemma {:induction false} EncodedLength(b: seq<Byte>)
    ensures |Encoded(b)| <= |b| * 138 / 100 + 1
  {
    hide Pow58, Pow256;
    var (z, v) := (LeadingZeros(b, 0), Value(b));
    BytesSplit(b);
    OnesAre(z, []);
    if v == 0 {
      assert Text(0) == [];
    } else {
      var c := b[z..];
      assert Value([]) == 0;
      CanonicalValue(c);
      TextLength(v);
      var n := |Text(v)|;
      if 8 * (n - 1) >= 11 * |c| {
        DigitsHoldBytes(n - 1, |c|);
      }
      assert 8 * (n - 1) < 11 * |c|;
    }
  }

  // ------------------------------------------------------------------------------------------
  // With a checksum
  // ------------------------------------------------------------------------------------------

  type Check = c: seq<Byte> | |c| == 4 witness [0, 0, 0, 0]

  method EncodeBase58Check(hash: seq<Byte> -> Check, vchIn: seq<Byte>) returns (str: string)
    ensures str == Encoded(vchIn + hash(vchIn))
  {
    str := EncodeBase58(vchIn + hash(vchIn));
  }

  /** The last four bytes are the hash of the others. */
  predicate ChecksOut(hash: seq<Byte> -> Check, all: seq<Byte>) {
    |all| >= 4 && hash(all[..|all| - 4]) == all[|all| - 4..]
  }

  method DecodeBase58Check(hash: seq<Byte> -> Check, str: string) returns (ok: bool, vchRet: seq<Byte>)
    ensures var s := CStr(str);
      && (ok <==> Decodable(s) && ChecksOut(hash, Decoded(Core(s))))
      && (ok ==> Decoded(Core(s)) == vchRet + hash(vchRet) && Core(s) == Encoded(vchRet + hash(vchRet)))
  {
    hide Encoded, Decoded, Core, Decodable;
    ok, vchRet := DecodeBase58(str);
    ghost var s := CStr(str);
    if !ok { return; }
    ghost var all := vchRet;
    if |vchRet| < 4 { return false, []; }
    if hash(vchRet[..|vchRet| - 4]) != vchRet[|vchRet| - 4..] { return false, []; }
    vchRet := vchRet[..|vchRet| - 4];
    assert all == vchRet + hash(vchRet);
    EncodeDecode(Core(s));
  }

  /** What EncodeBase58Check writes checks out and decodes to what went in. */
  lemma {:induction false} CheckedRoundTrip(hash: seq<Byte> -> Check, b: seq<Byte>)
    ensures var s := Encoded(b + hash(b));
      && CStr(s) == s && Decodable(s) && ChecksOut(hash, Decoded(Core(s)))
      && forall v :: Decoded(Core(s)) == v + hash(v) ==> v == b
  {
    hide Encoded, Decoded, Core, Decodable;
    DecodeEncode(b + hash(b));
    forall v | b + hash(b) == v + hash(v) ensures v == b {
      assert (b + hash(b))[..|b|] == b && (v + hash(v))[..|v|] == v;
    }
    assert (b + hash(b))[..|b|] == b && (b + hash(b))[|b|..] == hash(b);
  }
}
