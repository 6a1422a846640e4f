/**
 The proxy's answer to CONNECT (altcp_bp_proxy.c; section 9.3.6 of RFC 9110): a matcher fed byte by byte, segment by
 segment, against the search over the whole text that cloud_client.c makes.
 */
module ProxyReply {
  import opened Bits
  import opened Pbuf

  const CR: byte := 13
  const LF: byte := 10
  const REPLY_SIZE := 16   // sizeof(reply)
  const END: seq<byte> := [13, 10, 13, 10]

  // "HTTP/1." and " 200"
  const HTTP1: seq<byte> := [72, 84, 84, 80, 47, 49, 46]
  const OK200: seq<byte> := [32, 50, 48, 48]

  /** The three texts. */
  lemma Texts()
    ensures forall i :: 0 <= i < 7 ==> HTTP1[i] == "HTTP/1."[i] as int
    ensures forall i :: 0 <= i < 4 ==> OK200[i] == " 200"[i] as int && END[i] == "\r\n\r\n"[i] as int
  {
  }

  // An end of headers stops just before s[n].
  predicate EndsAt(s: seq<byte>, n: nat) {
    4 <= n <= |s| && s[n - 4..n] == END
  }

  ghost predicate FirstEnd(s: seq<byte>, n: nat) {
    EndsAt(s, n) && forall m: nat | m < n :: !EndsAt(s, m)
  }

  /** cl_http_headers_end: just past the first terminator, 0 while there is none. */
  method HeadersEnd(s: seq<byte>) returns (n: nat)
    ensures n == 0 ==> forall m: nat :: !EndsAt(s, m)
    ensures n > 0 ==> FirstEnd(s, n)
  {
    var i := 0;
    while i + 3 < |s|
      invariant 0 <= i && (i + 3 <= |s| || i == 0)
      invariant forall m: nat | m < i + 4 :: !EndsAt(s, m)
    {
      assert s[i..i + 4] == [s[i], s[i + 1], s[i + 2], s[i + 3]];
      if s[i] == CR && s[i + 1] == LF && s[i + 2] == CR && s[i + 3] == LF { return i + 4; }
      i := i + 1;
    }
    return 0;
  }

  // ---- the matcher ----

  // state->end_match after one more byte; at 4 nothing more is read.
  function Step(k: nat, b: byte): (r: nat)
    requires k < 4
    ensures r <= 4
  {
    if b == END[k] then k + 1 else if b == CR then 1 else 0
  }

  function Matched(s: seq<byte>): (k: nat)
    ensures k <= 4
  {
    if s == [] then 0
    else
      var k := Matched(s[..|s| - 1]);
      if k == 4 then 4 else Step(k, s[|s| - 1])
  }

  // The last k bytes are the first k of the terminator.
  predicate Tail(s: seq<byte>, k: nat) {
    k <= 4 && k <= |s| && s[|s| - k..] == END[..k]
  }

  lemma TailGrows(s: seq<byte>, b: byte, k: nat)
    requires k < 4
    ensures Tail(s + [b], k + 1) <==> Tail(s, k) && b == END[k]
  {
    var t := s + [b];
    if k <= |s| {
      assert t[|t| - (k + 1)..] == s[|s| - k..] + [b];
      assert END[..k + 1] == END[..k] + [END[k]];
      if t[|t| - (k + 1)..] == END[..k + 1] {
        assert t[|t| - (k + 1)..][..k] == END[..k] && t[|t| - (k + 1)..][k] == b && END[..k + 1][k] == END[k];
        assert (s[|s| - k..] + [b])[..k] == s[|s| - k..];
      }
    }
  }

  lemma TailNone(s: seq<byte>)
    ensures Tail(s, 0)
  {
    assert s[|s|..] == END[..0];
  }

  lemma TailOf1(s: seq<byte>)
    ensures Tail(s, 1) <==> |s| >= 1 && s[|s| - 1] == CR
  {
    if |s| >= 1 { assert s[|s| - 1..] == [s[|s| - 1]] && END[..1] == [CR]; }
  }

  lemma TailOf2(s: seq<byte>)
    ensures Tail(s, 2) <==> |s| >= 2 && s[|s| - 2] == CR && s[|s| - 1] == LF
  {
    if |s| >= 2 { assert s[|s| - 2..] == [s[|s| - 2], s[|s| - 1]] && END[..2] == [CR, LF]; }
  }

  lemma TailOf3(s: seq<byte>)
    ensures Tail(s, 3) <==> |s| >= 3 && s[|s| - 3] == CR && s[|s| - 2] == LF && s[|s| - 1] == CR
  {
    if |s| >= 3 { assert s[|s| - 3..] == [s[|s| - 3], s[|s| - 2], s[|s| - 1]] && END[..3] == [CR, LF, CR]; }
  }

  lemma TailOf4(s: seq<byte>)
    ensures Tail(s, 4) <==> |s| >= 4 && s[|s| - 4] == CR && s[|s| - 3] == LF && s[|s| - 2] == CR && s[|s| - 1] == LF
  {
    if |s| >= 4 {
      assert s[|s| - 4..] == [s[|s| - 4], s[|s| - 3], s[|s| - 2], s[|s| - 1]] && END[..4] == [CR, LF, CR, LF];
    }
  }

  // Which shorter tails a tail has: the terminator repeats itself only after its first half.
  lemma TailsOf(s: seq<byte>, k: nat)
    requires Tail(s, k) && 2 <= k <= 4
    ensures k == 3 ==> Tail(s, 1) && !Tail(s, 2)
    ensures k == 2 ==> !Tail(s, 1)
    ensures k == 4 ==> Tail(s, 2) && !Tail(s, 1) && !Tail(s, 3)
  {
    hide Tail;
    TailOf1(s);
    TailOf2(s);
    TailOf3(s);
    TailOf4(s);
  }

  // Longest tail.
  ghost predicate Longest(s: seq<byte>, k: nat) {
    Tail(s, k) && forall j: nat | k < j <= 4 :: !Tail(s, j)
  }

  lemma StepIsLongest(s: seq<byte>, b: byte, k: nat)
    requires k < 4 && Longest(s, k)
    ensures Longest(s + [b], Step(k, b))
  {
    var t := s + [b];
    hide Tail;
    TailNone(t);
    TailNone(s);
    if k >= 2 { TailsOf(s, k); }
    TailGrows(s, b, 0);
    TailGrows(s, b, 1);
    TailGrows(s, b, 2);
    TailGrows(s, b, 3);
    assert END[0] == CR && END[1] == LF && END[2] == CR && END[3] == LF;
  }

  lemma EndIsTail(s: seq<byte>, n: nat)
    requires n <= |s|
    ensures EndsAt(s, n) <==> Tail(s[..n], 4)
  {
    if n >= 4 { assert s[..n][n - 4..] == s[n - 4..n]; }
    assert END[..4] == END;
  }

  lemma EndStays(s: seq<byte>, b: byte, n: nat)
    ensures n <= |s| ==> (EndsAt(s + [b], n) <==> EndsAt(s, n))
  {
    if 4 <= n <= |s| { assert (s + [b])[n - 4..n] == s[n - 4..n]; }
  }

  /** The matcher is at 4 exactly when the bytes so far hold a terminator, and below that it knows the longest part of
      one they end in. */
  lemma {:induction false} MatcherIsExact(s: seq<byte>)
    ensures Matched(s) == 4 <==> exists n: nat :: EndsAt(s, n)
    ensures Matched(s) < 4 ==> Longest(s, Matched(s))
  {
    hide Tail, Longest;
    if s == [] {
      NothingMatched();
    } else {
      var init, b := s[..|s| - 1], s[|s| - 1];
      MatcherIsExact(init);
      assert s == init + [b];
      forall n: nat
        ensures n <= |init| ==> (EndsAt(s, n) <==> EndsAt(init, n))
      {
        EndStays(init, b, n);
      }
      assert s[..|s|] == s;
      EndIsTail(s, |s|);
      if Matched(init) < 4 {
        StepIsLongest(init, b, Matched(init));
        LongestIsTail(s, Matched(s));
      }
    }
  }

  lemma NothingMatched()
    ensures Longest([], 0) && forall n: nat :: !EndsAt([], n)
  {
    TailNone([]);
  }

  lemma LongestIsTail(s: seq<byte>, k: nat)
    requires Longest(s, k) && k <= 4
    ensures Tail(s, 4) <==> k == 4
  {
  }

  /** It gets there with the last byte of the first terminator. */
  lemma {:induction false} MatchesAtFirstEnd(s: seq<byte>, n: nat)
    requires n <= |s|
    ensures FirstEnd(s, n) <==> Matched(s[..n]) == 4 && n > 0 && Matched(s[..n - 1]) < 4
  {
    hide Matched;
    MatcherIsExact(s[..n]);
    EndsInPrefix(s, n);
    if n > 0 {
      MatcherIsExact(s[..n - 1]);
      EndsInPrefix(s, n - 1);
    }
  }

  lemma EndsInPrefix(s: seq<byte>, n: nat)
    requires n <= |s|
    ensures forall m: nat :: EndsAt(s[..n], m) <==> m <= n && EndsAt(s, m)
  {
    forall m: nat
      ensures EndsAt(s[..n], m) <==> m <= n && EndsAt(s, m)
    {
      if 4 <= m <= n { assert s[..n][m - 4..m] == s[m - 4..m]; }
    }
  }

  // ---- the tunnel ----

  // Up to the end of the headers, or everything while there is none.
  function Headers(s: seq<byte>): (h: seq<byte>)
    ensures h <= s
    decreases |s|
  {
    if s == [] then []
    else
      var init := s[..|s| - 1];
      if Matched(init) == 4 then Headers(init) else s
  }

  lemma {:induction false} HeadersMatch(s: seq<byte>)
    ensures Matched(Headers(s)) == Matched(s)
    ensures Matched(s) == 4 ==> FirstEnd(s, |Headers(s)|)
    ensures Matched(s) < 4 ==> Headers(s) == s
    decreases |s|
  {
    hide FirstEnd;
    if s != [] {
      var init := s[..|s| - 1];
      if Matched(init) == 4 {
        HeadersMatch(init);
        MatchesAtFirstEnd(init, |Headers(init)|);
        MatchesAtFirstEnd(s, |Headers(init)|);
        assert init[..|Headers(init)|] == s[..|Headers(init)|];
        assert |Headers(init)| > 0 ==> init[..|Headers(init)| - 1] == s[..|Headers(init)| - 1];
      } else {
        MatchesAtFirstEnd(s, |s|);
        assert s[..|s|] == s;
      }
    }
  }

  /** When the tunnel is up, as the design says it: an HTTP/1 status line with code 200, and the end of its headers. */
  predicate Accepted(s: seq<byte>) {
    Matched(s) == 4 && |s| >= 12 && s[..7] == HTTP1 && s[8..12] == OK200
  }

  // What the stored start of the reply is enough for.
  lemma StartDecides(s: seq<byte>)
    requires Matched(s) == 4
    ensures var h := Headers(s);
            Accepted(s) <==> |h| >= 12 && h[..7] == HTTP1 && h[8..12] == OK200
  {
    hide Matched, Headers;
    HeadersMatch(s);
    var n := |Headers(s)|;
    assert EndsAt(s, n);
    if |s| >= 12 && s[..7] == HTTP1 && s[8..12] == OK200 && n < 12 {
      TooShort(s, n);
    }
    if n >= 12 { assert Headers(s)[..7] == s[..7] && Headers(s)[8..12] == s[8..12]; }
  }

  // A status line that far along has no terminator in it.
  lemma TooShort(s: seq<byte>, n: nat)
    requires |s| >= 12 && s[..7] == HTTP1 && s[8..12] == OK200 && 4 <= n < 12
    ensures !EndsAt(s, n)
  {
    assert forall i :: 0 <= i < 7 ==> s[i] == s[..7][i];
    assert forall i :: 8 <= i < 12 ==> s[i] == s[8..12][i - 8];
    var e := s[n - 4..n];
    assert e[0] == s[n - 4] && e[1] == s[n - 3] && e[2] == s[n - 2] && e[3] == s[n - 1];
  }

  // The buffer holds the start of h, as much as fits before the NUL.
  ghost predicate Collected(reply: seq<byte>, n: nat, h: seq<byte>) {
    |reply| == REPLY_SIZE && n == (if |h| < REPLY_SIZE - 1 then |h| else REPLY_SIZE - 1) && reply[..n] == h[..n]
  }

  lemma CollectOne(reply: seq<byte>, n: nat, h: seq<byte>, b: byte)
    requires Collected(reply, n, h)
    ensures n < REPLY_SIZE - 1 ==> Collected(reply[n := b], n + 1, h + [b])
    ensures n >= REPLY_SIZE - 1 ==> Collected(reply, n, h + [b])
  {
    if n < REPLY_SIZE - 1 {
      assert reply[n := b][..n + 1] == reply[..n] + [b];
      assert (h + [b])[..n + 1] == h[..n] + [b];
    } else {
      assert (h + [b])[..n] == h[..n];
    }
  }

  lemma Terminated(reply: seq<byte>, n: nat, h: seq<byte>)
    requires Collected(reply, n, h)
    ensures |reply| == REPLY_SIZE && n < REPLY_SIZE && Collected(reply[n := 0], n, h)
  {
    assert reply[n := 0][..n] == reply[..n];
  }

  lemma ReadsBack(reply: seq<byte>, n: nat, h: seq<byte>)
    requires Collected(reply, n, h)
    ensures n >= 12 <==> |h| >= 12
    ensures n >= 12 ==> reply[..7] == h[..7] && reply[8..12] == h[8..12]
  {
    if n >= 12 {
      assert reply[..n][..7] == reply[..7] && h[..n][..7] == h[..7];
      assert reply[..n][8..12] == reply[8..12] && h[..n][8..12] == h[8..12];
    }
  }

  datatype Setup = Waiting | Up | Refused

  class Proxy {
    const reply: array<byte>
    var replyLen: nat
    var endMatch: nat
    var setup: Setup
    ghost var stream: seq<byte>   // everything received before the setup was over

    ghost predicate Valid()
      reads this, reply
    {
      && Reading() && (setup == Waiting <==> endMatch < 4) && (setup == Up <==> Accepted(stream))
    }

    ghost predicate Reading()
      reads this, reply
    {
      endMatch == Matched(stream) && Collected(reply[..], replyLen, Headers(stream))
    }

    constructor ()
      ensures Valid() && fresh(reply) && stream == []
    {
      reply, replyLen, endMatch, setup, stream := new byte[REPLY_SIZE], 0, 0, Waiting, [];
    }

    // One byte of the collector's loop.
    method Collect(b: byte)
      requires Reading() && endMatch < 4
      modifies this`replyLen, this`endMatch, this`stream, reply
      ensures Reading() && stream == old(stream) + [b]
    {
      hide Matched, Headers, Collected;
      HeadersMatch(stream);
      OneByte(stream, b);
      CollectOne(reply[..], replyLen, stream, b);
      Terminated(reply[..], replyLen, stream);
      ghost var was := reply[..];
      if replyLen < reply.Length - 1 {
        reply[replyLen] := b;
        assert reply[..] == was[replyLen := b];
        replyLen := replyLen + 1;
      }
      endMatch := Step(endMatch, b);
      stream := stream + [b];
    }

    // One piece of the pbuf chain; the loops stop at the end of the headers.
    method CollectPiece(piece: seq<byte>)
      requires Reading()
      modifies this`replyLen, this`endMatch, this`stream, reply
      ensures Reading() && stream == old(stream) + piece
    {
      hide Matched, Headers, Collected;
      var i := 0;
      while i < |piece| && endMatch < 4
        invariant 0 <= i <= |piece| && Reading() && stream == old(stream) + piece[..i]
      {
        Collect(piece[i]);
        assert piece[..i + 1] == piece[..i] + [piece[i]];
        i := i + 1;
      }
      if endMatch == 4 {
        RestIsIgnored(stream, piece[i..]);
        stream := stream + piece[i..];
        assert piece[..i] + piece[i..] == piece;
      } else {
        MatchedIsAtMost4(stream);
        assert piece[..i] == piece;
      }
    }

    /** altcp_bp_proxy_lower_recv in the setup phase: the verdict depends on the bytes alone, not on how they came. */
    method Receive(pieces: seq<seq<byte>>)
      requires Valid() && setup == Waiting
      modifies this, reply
      ensures Valid() && stream == old(stream) + Joined(pieces)
    {
      hide Matched, Headers, Accepted, Collected, Joined;
      var i := 0;
      assert pieces[..0] == [] && Joined([]) == [] by { NoPieces(); }
      while i < |pieces|
        invariant 0 <= i <= |pieces| && Reading() && stream == old(stream) + Joined(pieces[..i])
      {
        JoinedOneMore(pieces, i);
        CollectPiece(pieces[i]);
        i := i + 1;
      }
      assert pieces[..i] == pieces;
      Judge();
    }

    // The reply is read as a C string: what lies behind its NUL is no part of a match.
    method Judge()
      requires Reading()
      modifies this`setup, reply
      ensures Valid()
    {
      hide Matched, Headers, Collected;
      setup := Waiting;
      if endMatch == 4 {
        ghost var h, was := Headers(stream), reply[..];
        StartDecides(stream);
        Terminated(was, replyLen, h);
        reply[replyLen] := 0;
        assert reply[..] == was[replyLen := 0];
        ReadsBack(reply[..], replyLen, h);
        setup := if replyLen >= 12 && reply[..7] == HTTP1 && reply[8..12] == OK200 then Up else Refused;
      }
    }
  }

  lemma MatchedIsAtMost4(s: seq<byte>)
    ensures Matched(s) <= 4
  {
  }

  lemma NoPieces()
    ensures Joined([]) == []
  {
  }

  lemma OneByte(s: seq<byte>, b: byte)
    requires Matched(s) < 4
    ensures Matched(s + [b]) == Step(Matched(s), b) && Headers(s + [b]) == s + [b]
  {
    assert (s + [b])[..|s|] == s;
  }

  lemma {:induction false} RestIsIgnored(s: seq<byte>, rest: seq<byte>)
    requires Matched(s) == 4
    ensures Matched(s + rest) == 4 && Headers(s + rest) == Headers(s)
    decreases |rest|
  {
    if rest == [] {
      assert s + rest == s;
    } else {
      var n := |rest| - 1;
      RestIsIgnored(s, rest[..n]);
      assert (s + rest)[..|s| + n] == s + rest[..n];
    }
  }
}
