/**
 The W25Q as the blob store sees it: a byte array where an erase sets a range to 0xFF and a program can only clear
 bits. A single erase command takes effect as a whole or not at all; a program that is cut leaves each byte anywhere
 between what it was and what it was meant to become.
 */
module NorFlash {
  import opened Bits

  const SECTOR := 4096
  const BLOCK := 65536
  const PAGE := 256

  function Blank(n: nat): (s: seq<byte>)
    ensures |s| == n
  {
    seq(n, _ => 255)
  }

  function Erased(f: seq<byte>, lo: nat, hi: nat): (g: seq<byte>)
    requires lo <= hi <= |f|
    ensures |g| == |f|
  {
    f[..lo] + Blank(hi - lo) + f[hi..]
  }

  function AndByte(a: byte, b: byte): (c: byte)
  {
    AndBelow(a, b);
    And(a, b)
  }

  function Programmed(f: seq<byte>, at: nat, data: seq<byte>): (g: seq<byte>)
    requires at + |data| <= |f|
    ensures |g| == |f|
  {
    seq(|f|, i requires 0 <= i < |f| => if at <= i < at + |data| then AndByte(f[i], data[i - at]) else f[i])
  }

  // A program of `data` at `at` that was cut: no bit is set, and none is cleared that was not meant to be.
  predicate Cut(f: seq<byte>, g: seq<byte>, at: nat, data: seq<byte>)
    requires at + |data| <= |f|
  {
    && SameOutside(f, g, at, at + |data|)
    && forall i :: at <= i < at + |data| ==>
         AndByte(f[i], g[i]) == g[i] && AndByte(AndByte(f[i], data[i - at]), g[i]) == AndByte(f[i], data[i - at])
  }

  predicate SameOutside(f: seq<byte>, g: seq<byte>, lo: nat, hi: nat) {
    && |g| == |f| && lo <= hi <= |f|
    && (forall i :: 0 <= i < lo ==> g[i] == f[i])
    && (forall i :: hi <= i < |f| ==> g[i] == f[i])
  }

  predicate IsBlank(f: seq<byte>, lo: nat, hi: nat) {
    lo <= hi <= |f| && forall i :: lo <= i < hi ==> f[i] == 255
  }

  lemma AndIdempotent(a: nat)
    ensures And(a, a) == a
  {
    if a > 0 { AndIdempotent(a / 2); }
  }

  lemma {:induction false} AndAbsorbs(a: nat, b: nat)
    ensures And(a, And(a, b)) == And(a, b)
    decreases a
  {
    if a > 0 {
      AndAbsorbs(a / 2, b / 2);
      assert And(a, b) / 2 == And(a / 2, b / 2) && And(a, b) % 2 == (a % 2) * (b % 2);
    }
  }

  // Cutting before the command does anything and after it is complete are the two ends.
  lemma CutEnds(f: seq<byte>, at: nat, data: seq<byte>)
    requires at + |data| <= |f|
    ensures Cut(f, f, at, data) && Cut(f, Programmed(f, at, data), at, data)
  {
    forall i | at <= i < at + |data|
      ensures AndByte(f[i], f[i]) == f[i]
      ensures AndByte(AndByte(f[i], data[i - at]), f[i]) == AndByte(f[i], data[i - at])
      ensures AndByte(f[i], AndByte(f[i], data[i - at])) == AndByte(f[i], data[i - at])
    {
      AndIdempotent(f[i]);
      AndIdempotent(AndByte(f[i], data[i - at]));
      AndAbsorbs(f[i], data[i - at]);
      AndCommutes(f[i], AndByte(f[i], data[i - at]));
    }
    forall i | at <= i < at + |data|
      ensures AndByte(AndByte(f[i], data[i - at]), AndByte(f[i], data[i - at])) == AndByte(f[i], data[i - at])
    {
      AndIdempotent(AndByte(f[i], data[i - at]));
    }
  }

  lemma {:induction false} AndCommutes(a: nat, b: nat)
    ensures And(a, b) == And(b, a)
    decreases a
  {
    if a > 0 && b > 0 {
      AndCommutes(a / 2, b / 2);
    } else if b > 0 {
      AndZero(b);
    } else {
      AndZero(a);
    }
  }

  lemma {:induction false} AndZero(a: nat)
    ensures And(a, 0) == 0
  {
    if a > 0 { AndZero(a / 2); }
  }

  /** On blank flash a program writes exactly its data. */
  lemma ProgramBlank(f: seq<byte>, at: nat, data: seq<byte>)
    requires IsBlank(f, at, at + |data|)
    ensures Programmed(f, at, data)[at..at + |data|] == data
    ensures SameOutside(f, Programmed(f, at, data), at, at + |data|)
  {
    var g := Programmed(f, at, data);
    forall i | 0 <= i < |data|
      ensures g[at + i] == data[i]
    {
      assert Pow2(8) == 256;
      AndOnes(8, data[i]);
    }
  }
}
