/**
 base64url without padding (b64url.c; section 5 of RFC 4648). A text is its bytes before the NUL.
 */
module Base64Url {
  import opened Bits

  datatype Result = Failed | Decoded(data: seq<byte>)

  // Buffers are objects of a 32-bit machine, far below the size at which `4 * n` would wrap.
  const SIZE_LIMIT := 0x4000_0000

  // ---- alphabet ----

  function Sym(v: nat): byte
    requires v < 64
  {
    if v < 26 then 65 + v else if v < 52 then 97 + v - 26 else if v < 62 then 48 + v - 52
    else if v == 62 then 45 else 95
  }

  const BAD: byte := 0xFF
  const PAD: byte := 61   // '='

  function Val(c: byte): (v: byte)
    ensures v < 64 <==> exists i :: 0 <= i < 64 && Sym(i) == c
    ensures v < 64 ==> Sym(v) == c
    ensures v < 64 || v == BAD
  {
    var v: byte := if 65 <= c <= 90 then c - 65 else if 97 <= c <= 122 then c - 97 + 26
                   else if 48 <= c <= 57 then c - 48 + 52 else if c == 45 then 62 else if c == 95 then 63 else BAD;
    assert v < 64 ==> Sym(v) == c;
    v
  }

  lemma ValOfSym(v: nat)
    requires v < 64
    ensures Val(Sym(v)) == v
  {
  }

  // ---- the code, three bytes to four symbols ----

  function Group(x: byte, y: byte, z: byte): (s: seq<byte>)
    ensures |s| == 4
  {
    [Sym(x / 4), Sym(x % 4 * 16 + y / 16), Sym(y % 16 * 4 + z / 64), Sym(z % 64)]
  }

  // B64URL_ENCODED_LEN
  function EncodedLen(n: nat): nat {
    (n * 4 + 2) / 3
  }

  function DecodedLen(n: nat): (m: nat)
    ensures m <= n
  {
    n / 4 * 3 + (if n % 4 == 0 then 0 else n % 4 - 1)
  }

  lemma DecodedLenStep(n: nat)
    requires n >= 4
    ensures DecodedLen(n) == 3 + DecodedLen(n - 4) && n % 4 == (n - 4) % 4
  {
  }

  /** The alphabet is that of table 2 of RFC 4648: its ends, and in between one symbol after the other. */
  lemma Alphabet(v: nat)
    requires v < 63
    ensures Sym(0) == 'A' as int && Sym(25) == 'Z' as int && Sym(26) == 'a' as int && Sym(51) == 'z' as int
    ensures Sym(52) == '0' as int && Sym(61) == '9' as int && Sym(62) == '-' as int && Sym(63) == '_' as int
    ensures v !in {25, 51, 61, 62} ==> Sym(v + 1) == Sym(v) + 1
  {
  }

  function Encode(data: seq<byte>): (s: seq<byte>)
    ensures |s| == EncodedLen(|data|)
  {
    if |data| == 0 then []
    else if |data| < 3 then Group(data[0], if |data| == 2 then data[1] else 0, 0)[..|data| + 1]
    else Group(data[0], data[1], data[2]) + Encode(data[3..])
  }

  predicate Legal(s: seq<byte>) {
    forall i :: 0 <= i < |s| ==> Val(s[i]) < 64
  }

  function Byte0(a: byte, b: byte): byte { (a * 4 + b / 16) % 256 }
  function Byte1(b: byte, c: byte): byte { (b * 16 + c / 4) % 256 }
  function Byte2(c: byte, d: byte): byte { (c * 64 + d) % 256 }

  function Bytes(s: seq<byte>): (data: seq<byte>)
    requires |s| % 4 != 1
    ensures |data| == DecodedLen(|s|)
  {
    if |s| == 0 then []
    else if |s| == 2 then [Byte0(Val(s[0]), Val(s[1]))]
    else if |s| == 3 then [Byte0(Val(s[0]), Val(s[1])), Byte1(Val(s[1]), Val(s[2]))]
    else
      DecodedLenStep(|s|);
      [Byte0(Val(s[0]), Val(s[1])), Byte1(Val(s[1]), Val(s[2])), Byte2(Val(s[2]), Val(s[3]))] + Bytes(s[4..])
  }

  function Unpadded(s: seq<byte>): seq<byte> {
    if s != [] && s[|s| - 1] == PAD then Unpadded(s[..|s| - 1]) else s
  }

  // b64url_decode: the three reasons to refuse, and the bytes otherwise.
  function Decode(s: seq<byte>, cap: nat): Result {
    var t := Unpadded(s);
    if |t| % 4 == 1 || DecodedLen(|t|) > cap || !Legal(t) then Failed else Decoded(Bytes(t))
  }

  // ---- test vectors ----

  const FOO: seq<byte> := [102, 111, 111]
  const ZM9V: seq<byte> := [90, 109, 57, 118]

  /** The test vectors of section 10 of RFC 4648, without their padding: "f" is "Zg", "fo" is "Zm8", "foo" is "Zm9v",
      "foob" is "Zm9vYg", "fooba" is "Zm9vYmE" and "foobar" is "Zm9vYmFy". */
  lemma TestVectors()
    ensures Encode([]) == [] && Encode([102]) == [90, 103] && Encode([102, 111]) == [90, 109, 56]
    ensures Encode(FOO) == ZM9V && Encode(FOO + [98]) == ZM9V + [89, 103]
    ensures Encode(FOO + [98, 97]) == ZM9V + [89, 109, 69]
    ensures Encode(FOO + [98, 97, 114]) == ZM9V + [89, 109, 70, 121]
  {
    OneByte(102);
    TwoBytes(102, 111);
    OneByte(98);
    TwoBytes(98, 97);
    assert Encode([]) == [];
    assert Group(102, 111, 111) == ZM9V && Group(98, 97, 114) == [89, 109, 70, 121];
    hide Encode, Group;
    WholeGroup(FOO, ZM9V, []);
    WholeGroup(FOO, ZM9V, [98]);
    WholeGroup(FOO, ZM9V, [98, 97]);
    WholeGroup(FOO, ZM9V, [98, 97, 114]);
    WholeGroup([98, 97, 114], [89, 109, 70, 121], []);
    assert FOO + [] == FOO && [98, 97, 114] + [] == [98, 97, 114];
    assert ZM9V + [] == ZM9V;
  }

  lemma OneByte(x: byte)
    ensures Encode([x]) == [Sym(x / 4), Sym(x % 4 * 16)]
  {
    hide Sym;
  }

  lemma TwoBytes(x: byte, y: byte)
    ensures Encode([x, y]) == [Sym(x / 4), Sym(x % 4 * 16 + y / 16), Sym(y % 16 * 4)]
  {
    hide Sym;
  }

  lemma WholeGroup(g: seq<byte>, text: seq<byte>, more: seq<byte>)
    requires |g| == 3 && text == Group(g[0], g[1], g[2])
    ensures Encode(g + more) == text + Encode(more)
  {
    assert (g + more)[3..] == more;
  }

  // ---- round trip ----

  lemma LowByte(q: nat, r: nat)
    requires r < 256
    ensures (256 * q + r) % 256 == r
  {
  }

  lemma ByteForms(a: byte, b: byte, c: byte, d: byte)
    requires a < 64 && b < 64 && c < 64 && d < 64
    ensures Byte0(a, b) == a * 4 + b / 16 && Byte1(b, c) == b % 16 * 16 + c / 4 && Byte2(c, d) == c % 4 * 64 + d
  {
    hide Val, Sym;
    LowByte(0, a * 4 + b / 16);
    LowByte(b / 16, b % 16 * 16 + c / 4);
    LowByte(c / 4, c % 4 * 64 + d);
    assert b == b / 16 * 16 + b % 16 && c == c / 4 * 4 + c % 4;
  }

  lemma GroupTakesApart(x: byte, y: byte, z: byte)
    ensures var g := Group(x, y, z);
            && Legal(g)
            && Byte0(Val(g[0]), Val(g[1])) == x && Byte1(Val(g[1]), Val(g[2])) == y && Byte2(Val(g[2]), Val(g[3])) == z
  {
    var a, b, c, d := x / 4, x % 4 * 16 + y / 16, y % 16 * 4 + z / 64, z % 64;
    ValOfSym(a);
    ValOfSym(b);
    ValOfSym(c);
    ValOfSym(d);
    hide Sym, Val, Byte0, Byte1, Byte2;
    ByteForms(a, b, c, d);
  }

  lemma {:induction false} EncodeIsLegal(data: seq<byte>)
    ensures Legal(Encode(data))
  {
    if |data| >= 3 {
      EncodeIsLegal(data[3..]);
      GroupTakesApart(data[0], data[1], data[2]);
      hide Group, Val;
    } else if |data| > 0 {
      GroupTakesApart(data[0], if |data| == 2 then data[1] else 0, 0);
      hide Group, Val;
    }
  }

  lemma {:induction false} BytesOfEncode(data: seq<byte>)
    ensures Bytes(Encode(data)) == data
  {
    hide Sym, Val, Group, Byte0, Byte1, Byte2;
    var s := Encode(data);
    if |data| >= 3 {
      BytesOfEncode(data[3..]);
      GroupTakesApart(data[0], data[1], data[2]);
      assert s[4..] == Encode(data[3..]);
      assert data == [data[0], data[1], data[2]] + data[3..];
    } else if |data| == 2 {
      GroupTakesApart(data[0], data[1], 0);
    } else if |data| == 1 {
      GroupTakesApart(data[0], 0, 0);
    }
  }

  lemma {:induction false} PaddingIsDropped(s: seq<byte>, k: nat)
    requires s == [] || s[|s| - 1] != PAD
    ensures Unpadded(s + seq(k, _ => PAD)) == s
  {
    var p := seq(k, _ => PAD);
    if k == 0 {
      assert s + p == s;
    } else {
      PaddingIsDropped(s, k - 1);
      assert (s + p)[..|s| + k - 1] == s + seq(k - 1, _ => PAD);
    }
  }

  /** Every byte string survives the trip, with any number of '=' behind it, as long as the buffer holds it. */
  lemma RoundTrip(data: seq<byte>, pads: nat, cap: nat)
    ensures Decode(Encode(data) + seq(pads, _ => PAD), cap) == if |data| <= cap then Decoded(data) else Failed
  {
    hide Bytes, Encode, Group, Val, Sym;
    var s := Encode(data);
    EncodeIsLegal(data);
    PadIsBad();
    PaddingIsDropped(s, pads);
    BytesOfEncode(data);
    LengthsInvert(|data|);
  }

  lemma PadIsBad()
    ensures Val(PAD) == BAD
  {
  }

  lemma LengthsInvert(n: nat)
    ensures DecodedLen(EncodedLen(n)) == n && EncodedLen(n) % 4 != 1
  {
    var k, r := n / 3, n % 3;
    assert n == 3 * k + r;
    assert EncodedLen(n) == 4 * k + (if r == 0 then 0 else r + 1);
  }

  // The bits of the last symbol that no byte uses.
  predicate SpareBitsClear(s: seq<byte>) {
    && (|s| % 4 == 2 ==> Val(s[|s| - 1]) % 16 == 0)
    && (|s| % 4 == 3 ==> Val(s[|s| - 1]) % 4 == 0)
  }

  lemma GroupPutsTogether(a: byte, b: byte, c: byte, d: byte)
    requires a < 64 && b < 64 && c < 64 && d < 64
    ensures Group(Byte0(a, b), Byte1(b, c), Byte2(c, d)) == [Sym(a), Sym(b), Sym(c), Sym(d)]
  {
    hide Sym, Byte0, Byte1, Byte2;
    ByteForms(a, b, c, d);
    assert Byte0(a, b) / 4 == a && Byte0(a, b) % 4 == b / 16;
    assert Byte1(b, c) / 16 == b % 16 && Byte1(b, c) % 16 == c / 4;
    assert Byte2(c, d) / 64 == c % 4 && Byte2(c, d) % 64 == d;
  }

  // A short last group re-encodes with its spare bits cleared.
  lemma ShortGroups(a: byte, b: byte, c: byte)
    requires a < 64 && b < 64 && c < 64
    ensures Group(Byte0(a, b), Byte1(b, c), 0)[..3] == [Sym(a), Sym(b), Sym(c / 4 * 4)]
    ensures Group(Byte0(a, b), 0, 0)[..2] == [Sym(a), Sym(b / 16 * 16)]
  {
    hide Sym, Byte0, Byte1, Byte2;
    ByteForms(a, b, c, 0);
  }

  lemma SameHead(p: seq<byte>, x: seq<byte>, y: seq<byte>)
    ensures p + x == p + y <==> x == y
  {
    assert (p + x)[|p|..] == x && (p + y)[|p|..] == y;
  }

  lemma FourMore(s: seq<byte>)
    requires |s| >= 4 && |s| % 4 != 1 && Legal(s)
    ensures Encode(Bytes(s)) == s[..4] + Encode(Bytes(s[4..]))
  {
    hide Sym, Val, Group, Byte0, Byte1, Byte2;
    GroupPutsTogether(Val(s[0]), Val(s[1]), Val(s[2]), Val(s[3]));
    assert Bytes(s)[3..] == Bytes(s[4..]);
    SymsOf(s);
  }

  lemma SymsOf(s: seq<byte>)
    requires |s| >= 4 && Legal(s)
    ensures [Sym(Val(s[0])), Sym(Val(s[1])), Sym(Val(s[2])), Sym(Val(s[3]))] == s[..4]
  {
    hide Sym;
  }

  /** The other way round: a legal text is the encoding of what it decodes to exactly when its spare bits are clear. */
  lemma {:induction false} EncodeOfBytes(s: seq<byte>)
    requires |s| % 4 != 1 && Legal(s)
    ensures Encode(Bytes(s)) == s <==> SpareBitsClear(s)
  {
    hide Sym, Val, Group, Byte0, Byte1, Byte2;
    if |s| >= 4 {
      hide Encode, Bytes, Legal;
      LegalRest(s);
      FourMore(s);
      EncodeOfBytes(s[4..]);
      SameHead(s[..4], Encode(Bytes(s[4..])), s[4..]);
      assert s == s[..4] + s[4..];
      assert s[4..] != [] ==> s[4..][|s| - 5] == s[|s| - 1];
    } else {
      ShortEncodeOfBytes(s);
    }
  }

  lemma LegalRest(s: seq<byte>)
    requires |s| >= 4 && Legal(s)
    ensures Legal(s[4..])
  {
    hide Val;
  }

  lemma ShortEncodeOfBytes(s: seq<byte>)
    requires |s| < 4 && |s| != 1 && Legal(s)
    ensures Encode(Bytes(s)) == s <==> SpareBitsClear(s)
  {
    hide Sym, Val, Group, Byte0, Byte1, Byte2;
    if |s| == 3 {
      ShortGroups(Val(s[0]), Val(s[1]), Val(s[2]));
      SymsDiffer(Val(s[2]), Val(s[2]) / 4 * 4);
      assert Encode(Bytes(s)) == [s[0], s[1], Sym(Val(s[2]) / 4 * 4)];
    } else if |s| == 2 {
      ShortGroups(Val(s[0]), Val(s[1]), 0);
      SymsDiffer(Val(s[1]), Val(s[1]) / 16 * 16);
      assert Encode(Bytes(s)) == [s[0], Sym(Val(s[1]) / 16 * 16)];
    }
  }

  lemma SymsDiffer(a: nat, b: nat)
    requires a < 64 && b < 64
    ensures Sym(a) == Sym(b) <==> a == b
  {
  }

  // ---- the C operators ----

  // (x << 16) | (y << 8) | z
  function Word24(x: byte, y: byte, z: byte): nat {
    Or(Or((x as int) * 65536, (y as int) * 256), z)
  }

  // w & 0x3F
  function SixBits(w: nat): (r: nat)
    ensures r < 64
  {
    AndBelow(w, 63);
    And(w, 63)
  }

  lemma Word24Is(x: byte, y: byte, z: byte)
    ensures Word24(x, y, z) == (x as int) * 65536 + (y as int) * 256 + z
  {
    assert Pow2(16) == 65536 && Pow2(8) == 256;
    OrDisjoint(16, x, (y as int) * 256);
    OrDisjoint(8, (x as int) * 256 + y, z);
  }

  lemma SixBitsIs(w: nat)
    ensures SixBits(w) == w % 64
  {
    assert Pow2(6) == 64;
    AndLow(6, w);
    LowOf6(w);
  }

  lemma SixBitsOf(x: byte, y: byte, z: byte)
    ensures var v := Word24(x, y, z);
            SixBits(v / 262144) == x / 4 && SixBits(v / 4096) == x % 4 * 16 + y / 16 &&
            SixBits(v / 64) == y % 16 * 4 + z / 64 && SixBits(v) == z % 64
  {
    hide Word24, SixBits;
    var v := Word24(x, y, z);
    Word24Is(x, y, z);
    SixBitsIs(v / 262144);
    SixBitsIs(v / 4096);
    SixBitsIs(v / 64);
    SixBitsIs(v);
    assert v / 262144 == x / 4;
    assert v / 4096 == (x as int) * 16 + y / 16;
    assert v / 64 == (x as int) * 1024 + (y as int) * 4 + z / 64;
  }

  // `(a | b | ...) == 0xFF` finds a bad symbol, and only a bad one.
  lemma OrTest(a: byte, b: byte)
    requires (a < 64 || a == BAD) && (b < 64 || b == BAD)
    ensures Or(a, b) == BAD <==> a == BAD || b == BAD
    ensures Or(a, b) < 64 || Or(a, b) == BAD
  {
    assert Pow2(8) == 256 && Pow2(6) == 64;
    if a == BAD || b == BAD {
      OrOnes(8, if a == BAD then b else a);
    } else {
      OrBelow(6, a, b);
    }
  }

  // ((uint8_t)((a << 2) | (b >> 4)) and its neighbours
  function Packed(hi: byte, shift: nat, lo: byte): byte {
    Or((hi as int) * Pow2(shift), lo) % 256
  }

  lemma OrBytes(a: byte, b: byte, c: byte, d: byte)
    requires a < 64 && b < 64 && c < 64 && d < 64
    ensures Packed(a, 2, b / 16) == Byte0(a, b) && Packed(b, 4, c / 4) == Byte1(b, c) && Packed(c, 6, d) == Byte2(c, d)
  {
    assert Pow2(2) == 4 && Pow2(4) == 16 && Pow2(6) == 64;
    hide Packed;
    PackedIsSum(2, a, b / 16);
    PackedIsSum(4, b, c / 4);
    PackedIsSum(6, c, d);
  }

  lemma PackedIsSum(shift: nat, hi: byte, lo: byte)
    requires lo < Pow2(shift)
    ensures Packed(hi, shift, lo) == ((hi as int) * Pow2(shift) + lo) % 256
  {
    hide Or, Pow2;
    OrDisjoint(shift, hi, lo);
  }

  // ---- the loops ----

  /** b64url_encode: the encoding and a NUL, or nothing when the buffer is too small for both. */
  method EncodeInto(data: seq<byte>, out: array<byte>) returns (o: nat)
    requires |data| < SIZE_LIMIT
    modifies out
    ensures out.Length < EncodedLen(|data|) + 1 ==> o == 0 && out[..] == old(out[..])
    ensures out.Length >= EncodedLen(|data|) + 1 ==> o < out.Length && out[..o] == Encode(data) && out[o] == 0
  {
    hide Sym, Group, SixBits, Word24, Encode;
    var n := |data|;
    var need := EncodedLen(n);
    if out.Length < need + 1 { return 0; }
    o := 0;
    var i := 0;
    assert data[0..] == data;
    while i + 3 <= n
      invariant 0 <= i <= n && o + EncodedLen(n - i) == need
      invariant out[..o] + Encode(data[i..]) == Encode(data)
    {
      EncodeStep(data, i);
      PutGroup(out, o, 4, data[i], data[i + 1], data[i + 2]);
      o, i := o + 4, i + 3;
    }
    var rem := n - i;
    EncodeStep(data, i);
    if rem == 1 {
      PutGroup(out, o, 2, data[i], 0, 0);
      o := o + 2;
    } else if rem == 2 {
      PutGroup(out, o, 3, data[i], data[i + 1], 0);
      o := o + 3;
    }
    ghost var got := out[..o];
    out[o] := 0;
    assert out[..o] == got;
  }

  // The first `count` symbols of a 24-bit group.
  method PutGroup(out: array<byte>, o: nat, count: nat, x: byte, y: byte, z: byte)
    requires 2 <= count <= 4 && o + count <= out.Length
    modifies out
    ensures out[..o + count] == old(out[..o]) + Group(x, y, z)[..count]
  {
    hide Sym, Word24, SixBits;
    SixBitsOf(x, y, z);
    var v := Word24(x, y, z);
    out[o] := Sym(SixBits(v / 262144));
    out[o + 1] := Sym(SixBits(v / 4096));
    if count > 2 { out[o + 2] := Sym(SixBits(v / 64)); }
    if count > 3 { out[o + 3] := Sym(SixBits(v)); }
  }

  lemma EncodeStep(data: seq<byte>, i: nat)
    requires i <= |data|
    ensures i == |data| ==> Encode(data[i..]) == []
    ensures i + 1 == |data| ==> Encode(data[i..]) == Group(data[i], 0, 0)[..2]
    ensures i + 2 == |data| ==> Encode(data[i..]) == Group(data[i], data[i + 1], 0)[..3]
    ensures i + 3 <= |data| ==>
        Encode(data[i..]) == Group(data[i], data[i + 1], data[i + 2])[..4] + Encode(data[i + 3..])
  {
    hide Group;
    if i + 3 <= |data| {
      assert data[i..][3..] == data[i + 3..];
      assert Group(data[i], data[i + 1], data[i + 2])[..4] == Group(data[i], data[i + 1], data[i + 2]);
    }
  }

  class Decoder {
    const DEC: array<byte>
    var ready: bool

    ghost predicate Valid()
      reads this, DEC
    {
      DEC.Length == 256 && (ready ==> forall c: byte :: DEC[c] == Val(c))
    }

    constructor ()
      ensures Valid() && !ready && fresh(DEC)
    {
      DEC, ready := new byte[256], false;
    }

    // dec_init
    method Init()
      requires Valid()
      modifies this, DEC
      ensures Valid() && ready
    {
      hide Sym, Val;
      var c := 0;
      while c < 256
        invariant 0 <= c <= 256 && forall k :: 0 <= k < c ==> DEC[k] == BAD
      {
        DEC[c] := BAD;
        c := c + 1;
      }
      var i := 0;
      while i < 64
        invariant 0 <= i <= 64
        invariant forall k: byte :: DEC[k] == if Val(k) < i then Val(k) else BAD
      {
        ValOfSym(i);
        ghost var was := DEC[..];
        DEC[Sym(i)] := i;
        forall k: byte
          ensures DEC[k] == if Val(k) < i + 1 then Val(k) else BAD
        {
          assert was[k] == if Val(k) < i then Val(k) else BAD;
        }
        i := i + 1;
      }
      ready := true;
    }

    /** b64url_decode: exactly what Decode says, with the bytes in `out`. */
    method DecodeInto(s: seq<byte>, out: array<byte>) returns (ok: bool, n: nat)
      requires Valid() && |s| < SIZE_LIMIT && out != DEC
      modifies this, DEC, out
      ensures Valid() && ready
      ensures ok <==> Decode(s, out.Length).Decoded?
      ensures ok ==> n <= out.Length && out[..n] == Decode(s, out.Length).data
    {
      hide Val, Byte0, Byte1, Byte2, Unpadded, Bytes, Legal;
      ok, n := false, 0;
      if !ready { Init(); }
      var len := Trimmed(s);
      if len % 4 == 1 { return; }
      if len / 4 * 3 + (if len % 4 == 0 then 0 else len % 4 - 1) > out.Length { return; }
      var i;
      ok, i, n := PutGroups(s, len, out);
      if ok && i < len { ok, n := PutRest(s, len, i, out, n); }
    }

    // The whole groups.
    method PutGroups(s: seq<byte>, len: nat, out: array<byte>) returns (ok: bool, i: nat, o: nat)
      requires DEC.Length == 256 && out != DEC && forall c: byte :: DEC[c] == Val(c)
      requires len <= |s| && len % 4 != 1 && DecodedLen(len) <= out.Length
      modifies out
      ensures ok ==> i % 4 == 0 && i <= len && (i == len || i + 2 <= len <= i + 3)
      ensures ok ==> o + DecodedLen(len - i) == DecodedLen(len)
      ensures ok ==> Legal(s[..len][..i]) && out[..o] + Bytes(s[..len][i..]) == Bytes(s[..len])
      ensures ok && i == len ==> Legal(s[..len]) && out[..o] == Bytes(s[..len])
      ensures !ok ==> !Legal(s[..len])
    {
      hide Val, Byte0, Byte1, Byte2, Bytes, DecodedLen, Legal;
      ghost var t := s[..len];
      assert t[0..] == t && Legal(t[..0]) by { NothingIsLegal(t[..0]); }
      i, o, ok := 0, 0, true;
      while i + 4 <= len
        invariant 0 <= i <= len && i % 4 == 0 && o + DecodedLen(len - i) == DecodedLen(len) <= out.Length
        invariant Legal(t[..i]) && out[..o] + Bytes(t[i..]) == Bytes(t)
        invariant forall c: byte :: DEC[c] == Val(c)
      {
        DecodedLenStep(len - i);
        ok := PutFour(s, len, i, out, o);
        if !ok { return; }
        o, i := o + 3, i + 4;
      }
      NoMoreGroups(t, i, out[..o]);
    }

    // One whole group.
    method PutFour(s: seq<byte>, len: nat, i: nat, out: array<byte>, o: nat) returns (ok: bool)
      requires DEC.Length == 256 && out != DEC && forall c: byte :: DEC[c] == Val(c)
      requires i + 4 <= len <= |s| && i % 4 == 0 && len % 4 != 1 && o + 3 <= out.Length
      requires Legal(s[..len][..i]) && out[..o] + Bytes(s[..len][i..]) == Bytes(s[..len])
      modifies out
      ensures ok ==> Legal(s[..len][..i + 4]) && out[..o + 3] + Bytes(s[..len][i + 4..]) == Bytes(s[..len])
      ensures !ok ==> !Legal(s[..len])
    {
      hide Val, Byte0, Byte1, Byte2, Bytes, Legal;
      ghost var t := s[..len];
      BytesStep(t, i);
      LegalStep(t, i, 4);
      ValRanges(s, i);
      ok := PutThree(out, o, DEC[s[i]], DEC[s[i + 1]], DEC[s[i + 2]], DEC[s[i + 3]]);
    }

    // The last two or three symbols.
    method PutRest(s: seq<byte>, len: nat, i: nat, out: array<byte>, o: nat) returns (ok: bool, n: nat)
      requires DEC.Length == 256 && out != DEC && forall c: byte :: DEC[c] == Val(c)
      requires i + 2 <= len <= |s| && len <= i + 3 && i % 4 == 0 && o + len - i - 1 <= out.Length
      requires Legal(s[..len][..i]) && out[..o] + Bytes(s[..len][i..]) == Bytes(s[..len])
      modifies out
      ensures ok <==> Legal(s[..len])
      ensures ok ==> n == o + len - i - 1 && out[..n] == Bytes(s[..len])
    {
      hide Val, Byte0, Byte1, Byte2, Or, Bytes, Packed;
      ghost var t := s[..len];
      ok, n := false, o;
      BytesStep(t, i);
      LegalStep(t, i, len - i);
      assert t[..len] == t;
      var a, b := DEC[s[i]], DEC[s[i + 1]];
      ValRange(a, s[i]);
      ValRange(b, s[i + 1]);
      OrTest(a, b);
      if len - i == 2 {
        if Or(a, b) == BAD { return; }
        OrBytes(a, b, 0, 0);
        out[n] := Packed(a, 2, b / 16);
      } else {
        var c := DEC[s[i + 2]];
        ValRange(c, s[i + 2]);
        OrTest(Or(a, b), c);
        if Or(Or(a, b), c) == BAD { return; }
        OrBytes(a, b, c, 0);
        out[n] := Packed(a, 2, b / 16);
        n := n + 1;
        out[n] := Packed(b, 4, c / 4);
      }
      ok, n := true, n + 1;
    }
  }

  lemma ValRange(v: byte, c: byte)
    requires v == Val(c)
    ensures v < 64 || v == BAD
  {
  }

  lemma NothingIsLegal(t: seq<byte>)
    requires t == []
    ensures Legal(t)
  {
  }

  lemma ValRanges(s: seq<byte>, i: nat)
    requires i + 4 <= |s|
    ensures forall j :: i <= j < i + 4 ==> Val(s[j]) < 64 || Val(s[j]) == BAD
  {
  }

  method PutThree(out: array<byte>, o: nat, a: byte, b: byte, c: byte, d: byte) returns (good: bool)
    requires o + 3 <= out.Length
    requires (a < 64 || a == BAD) && (b < 64 || b == BAD) && (c < 64 || c == BAD) && (d < 64 || d == BAD)
    modifies out
    ensures good <==> a < 64 && b < 64 && c < 64 && d < 64
    ensures good ==> out[..o + 3] == old(out[..o]) + [Byte0(a, b), Byte1(b, c), Byte2(c, d)]
  {
    hide Byte0, Byte1, Byte2, Or, Packed;
    OrTest(a, b);
    OrTest(Or(a, b), c);
    OrTest(Or(Or(a, b), c), d);
    if Or(Or(Or(a, b), c), d) == BAD { return false; }
    OrBytes(a, b, c, d);
    out[o] := Packed(a, 2, b / 16);
    out[o + 1] := Packed(b, 4, c / 4);
    out[o + 2] := Packed(c, 6, d);
    return true;
  }

  lemma BytesStep(t: seq<byte>, i: nat)
    requires i <= |t| && i % 4 == 0 && |t| % 4 != 1
    ensures i == |t| ==> Bytes(t[i..]) == []
    ensures i + 2 == |t| ==> Bytes(t[i..]) == [Byte0(Val(t[i]), Val(t[i + 1]))]
    ensures i + 3 == |t| ==> Bytes(t[i..]) == [Byte0(Val(t[i]), Val(t[i + 1])), Byte1(Val(t[i + 1]), Val(t[i + 2]))]
    ensures i + 4 <= |t| ==>
        Bytes(t[i..]) == [Byte0(Val(t[i]), Val(t[i + 1])), Byte1(Val(t[i + 1]), Val(t[i + 2])),
                          Byte2(Val(t[i + 2]), Val(t[i + 3]))] + Bytes(t[i + 4..])
  {
    hide Byte0, Byte1, Byte2, Val;
    if i + 4 <= |t| { assert t[i..][4..] == t[i + 4..]; }
  }

  lemma NoMoreGroups(t: seq<byte>, i: nat, done: seq<byte>)
    requires i <= |t| < i + 4 && i % 4 == 0 && |t| % 4 != 1 && Legal(t[..i]) && done + Bytes(t[i..]) == Bytes(t)
    ensures i == |t| || i + 2 <= |t| <= i + 3
    ensures i == |t| ==> Legal(t) && done == Bytes(t)
  {
    hide Legal, Bytes;
    BytesStep(t, i);
    if i == |t| { assert t[..i] == t; }
  }

  lemma LegalStep(t: seq<byte>, i: nat, k: nat)
    requires i + k <= |t| && Legal(t[..i])
    ensures Legal(t[..i + k]) <==> forall j :: i <= j < i + k ==> Val(t[j]) < 64
    ensures Legal(t) ==> Legal(t[..i + k])
  {
    hide Val;
    assert forall j :: 0 <= j < i ==> t[..i + k][j] == t[..i][j];
    assert forall j :: i <= j < i + k ==> t[..i + k][j] == t[j];
    assert forall j :: 0 <= j < i + k ==> t[..i + k][j] == t[j];
  }

  method Trimmed(s: seq<byte>) returns (len: nat)
    ensures len <= |s| && Unpadded(s) == s[..len]
  {
    len := |s|;
    assert s[..len] == s;
    while len > 0 && s[len - 1] == PAD
      invariant len <= |s| && Unpadded(s) == Unpadded(s[..len])
    {
      assert s[..len][..len - 1] == s[..len - 1];
      len := len - 1;
    }
  }
}
