/**
 Bytes as numbers 0..255, the C bit operators on them, and little-endian words.
 */
module Bits {

  type byte = b: int | 0 <= b < 256

  const U32 := 0x1_0000_0000   // one past a 32-bit counter

  function Min(a: nat, b: nat): nat { if a < b then a else b }

  // C's `a & b` on unsigned numbers.
  function And(a: nat, b: nat): nat {
    if a == 0 then 0 else 2 * And(a / 2, b / 2) + (if a % 2 == 1 && b % 2 == 1 then 1 else 0)
  }

  // C's `a | b` on unsigned numbers.
  function Or(a: nat, b: nat): nat
    decreases a + b
  {
    if a == 0 then b else if b == 0 then a
    else 2 * Or(a / 2, b / 2) + (if a % 2 == 1 || b % 2 == 1 then 1 else 0)
  }

  function Pow2(n: nat): (p: nat)
    ensures p > 0
  {
    if n == 0 then 1 else 2 * Pow2(n - 1)
  }

  lemma {:induction false} AndOnes(n: nat, d: nat)
    requires d < Pow2(n)
    ensures And(Pow2(n) - 1, d) == d
  {
    if n > 0 {
      AndOnes(n - 1, d / 2);
      assert (Pow2(n) - 1) / 2 == Pow2(n - 1) - 1;
    }
  }

  // The n low bits.
  function Low(a: nat, n: nat): nat {
    if n == 0 then 0 else 2 * Low(a / 2, n - 1) + (if a % 2 == 1 then 1 else 0)
  }

  lemma {:induction false} AndLow(n: nat, a: nat)
    ensures And(a, Pow2(n) - 1) == Low(a, n)
  {
    if n == 0 {
      AndBelow(a, 0);
    } else {
      HalvesOfOnes(n);
      hide Pow2, And;
      AndLow(n - 1, a / 2);
      AndUnfolds(a, Pow2(n) - 1);
    }
  }

  lemma {:induction false} LowIsRest(n: nat, a: nat) returns (k: nat)
    ensures a == Low(a, n) + k * Pow2(n) && Low(a, n) < Pow2(n)
  {
    if n == 0 {
      k := a;
    } else {
      k := LowIsRest(n - 1, a / 2);
      TwiceProduct(k, Pow2(n - 1));
    }
  }

  lemma TwiceProduct(k: nat, p: nat)
    ensures k * (2 * p) == 2 * (k * p)
  {
  }

  lemma LowOf5(a: nat)
    ensures Low(a, 5) == a % 32
  {
    assert Pow2(5) == 32;
    hide Low, Pow2;
    var k := LowIsRest(5, a);
    Rest32(a, k, Low(a, 5));
  }

  lemma LowOf6(a: nat)
    ensures Low(a, 6) == a % 64
  {
    assert Pow2(6) == 64;
    hide Low, Pow2;
    var k := LowIsRest(6, a);
    Rest64(a, k, Low(a, 6));
  }

  lemma Rest32(a: nat, k: nat, r: nat)
    requires a == r + k * 32 && r < 32
    ensures a % 32 == r
  {
  }

  lemma Rest64(a: nat, k: nat, r: nat)
    requires a == r + k * 64 && r < 64
    ensures a % 64 == r
  {
  }

  lemma AndUnfolds(a: nat, b: nat)
    ensures And(a, b) == 2 * And(a / 2, b / 2) + (if a % 2 == 1 && b % 2 == 1 then 1 else 0)
  {
  }

  lemma {:induction false} AndBelow(a: nat, b: nat)
    ensures And(a, b) <= a && And(a, b) <= b
    decreases a
  {
    if a > 0 {
      AndBelow(a / 2, b / 2);
    }
  }

  lemma {:induction false} OrBelow(n: nat, a: nat, b: nat)
    requires a < Pow2(n) && b < Pow2(n)
    ensures Or(a, b) < Pow2(n)
  {
    if n > 0 && a > 0 && b > 0 {
      OrBelow(n - 1, a / 2, b / 2);
    }
  }

  lemma {:induction false} OrOnes(n: nat, b: nat)
    requires b < Pow2(n)
    ensures Or(Pow2(n) - 1, b) == Pow2(n) - 1 && Or(b, Pow2(n) - 1) == Pow2(n) - 1
  {
    if n > 0 && b > 0 {
      hide Pow2, Or;
      HalvesOfOnes(n);
      OrOnes(n - 1, b / 2);
      OrUnfolds(Pow2(n) - 1, b);
      OrUnfolds(b, Pow2(n) - 1);
    }
  }

  lemma HalvesOfOnes(n: nat)
    requires n > 0
    ensures Pow2(n) == 2 * Pow2(n - 1) && (Pow2(n) - 1) / 2 == Pow2(n - 1) - 1 && (Pow2(n) - 1) % 2 == 1
  {
  }

  lemma OrUnfolds(a: nat, b: nat)
    requires a > 0 && b > 0
    ensures Or(a, b) == 2 * Or(a / 2, b / 2) + (if a % 2 == 1 || b % 2 == 1 then 1 else 0)
  {
  }

  // Disjoint bit fields: `(hi << n) | lo` is a sum.
  lemma {:induction false} OrDisjoint(n: nat, hi: nat, lo: nat)
    requires lo < Pow2(n)
    ensures Or(hi * Pow2(n), lo) == hi * Pow2(n) + lo
  {
    if n > 0 && hi > 0 && lo > 0 {
      assert hi * Pow2(n) == 2 * (hi * Pow2(n - 1));
      OrDisjoint(n - 1, hi, lo / 2);
    }
  }

  lemma Reassociate<T>(a: seq<T>, b: seq<T>, c: seq<T>)
    ensures a + (b + c) == (a + b) + c
  {
  }

  // ---- little-endian words ----

  function Word16(lo: byte, hi: byte): nat { lo as int + 256 * (hi as int) }

  function Le32(x: nat): (s: seq<byte>)
    requires x < 0x1_0000_0000
    ensures |s| == 4
  {
    [x % 256, x / 256 % 256, x / 65536 % 256, x / 16777216]
  }

  function FromLe32(s: seq<byte>): nat
    requires |s| == 4
  {
    s[0] as int + 256 * (s[1] as int) + 65536 * (s[2] as int) + 16777216 * (s[3] as int)
  }

  /** Least significant byte first. */
  lemma ByteOrder()
    ensures Word16(0x34, 0x12) == 0x1234
    ensures Le32(0x12345678) == [0x78, 0x56, 0x34, 0x12] && FromLe32([0x78, 0x56, 0x34, 0x12]) == 0x12345678
  {
  }

  lemma Le32RoundTrip(x: nat)
    requires x < 0x1_0000_0000
    ensures FromLe32(Le32(x)) == x
  {
    assert x / 65536 == x / 256 / 256 && x / 16777216 == x / 65536 / 256;
  }

  lemma FromLe32RoundTrip(s: seq<byte>)
    requires |s| == 4
    ensures FromLe32(s) < 0x1_0000_0000 && Le32(FromLe32(s)) == s
  {
    var a: nat, b: nat, c: nat, d: nat := s[0], s[1], s[2], s[3];
    var x := FromLe32(s);
    assert x / 256 == b + 256 * c + 65536 * d;
    assert x / 65536 == c + 256 * d;
    assert x / 16777216 == d;
  }

  // ---- decimal digits, as printf("%u") spends them ----

  function Digits(n: nat): (d: nat)
    ensures d >= 1
  {
    if n < 10 then 1 else 1 + Digits(n / 10)
  }

  function Decimal(n: nat): (s: string)
    ensures |s| == Digits(n)
  {
    if n < 10 then [DigitChar(n)] else Decimal(n / 10) + [DigitChar(n % 10)]
  }

  function DigitChar(d: nat): char
    requires d < 10
  {
    '0' + d as char
  }

  function DecimalValue(s: string): nat {
    if s == "" then 0
    else
      var last := s[|s| - 1];
      10 * DecimalValue(s[..|s| - 1]) + if '0' <= last <= '9' then (last - '0') as nat else 0
  }

  lemma {:induction false} DecimalBack(n: nat)
    ensures DecimalValue(Decimal(n)) == n && forall c :: c in Decimal(n) ==> '0' <= c <= '9'
  {
    if n >= 10 {
      DecimalBack(n / 10);
      assert Decimal(n)[..|Decimal(n)| - 1] == Decimal(n / 10);
    } else {
      assert DecimalValue([]) == 0 && Decimal(n)[..0] == [];
    }
  }

  lemma DigitsOf16Bits(n: nat)
    requires n < 65536
    ensures Digits(n) <= 5
  {
    assert n >= 10 ==> Digits(n) == 1 + Digits(n / 10);
    assert n / 10 >= 10 ==> Digits(n / 10) == 1 + Digits(n / 100);
    assert n / 100 >= 10 ==> Digits(n / 100) == 1 + Digits(n / 1000);
    assert n / 1000 >= 10 ==> Digits(n / 1000) == 1 + Digits(n / 10000);
  }

  lemma DigitsOf32Bits(n: nat)
    requires n < 0x1_0000_0000
    ensures Digits(n) <= 10
  {
    var m := n / 100000;
    DigitsOf16Bits(m);
    assert n / 10 / 10 / 10 / 10 / 10 == m;
    DigitsStep(n); DigitsStep(n / 10); DigitsStep(n / 100); DigitsStep(n / 1000); DigitsStep(n / 10000);
  }

  lemma DigitsStep(n: nat)
    ensures Digits(n) <= 1 + Digits(n / 10)
  {
  }
}
