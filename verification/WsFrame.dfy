/**
 Server frames (ws_frame.c; section 5.2 of RFC 6455): the parser, the frames a server sends, and what the parser makes
 of a byte stream however it is cut.
 */
module WsFrame {
  import opened Bits

  const OP_CONT := 0
  const OP_TEXT := 1
  const OP_CLOSE := 8
  const OP_PING := 9
  const PAYLOAD_MAX := 0xFFFF

  datatype Frame = Frame(opcode: nat, payload: seq<byte>)
  datatype Parsed = More | Bad | Fragmented | Complete(frame: Frame, size: nat)

  // Most significant byte first.
  function BigEndian(s: seq<byte>): nat {
    if s == [] then 0 else BigEndian(s[..|s| - 1]) * 256 + s[|s| - 1] as int
  }

  function Taken(s: seq<byte>, offset: nat, len: nat): (p: Parsed)
    requires s != []
  {
    if |s| < offset + len then More else Complete(Frame(s[0] as int % 16, s[offset..offset + len]), offset + len)
  }

  function Parse(s: seq<byte>): (p: Parsed)
    ensures p.Complete? ==> 2 <= p.size <= |s|
  {
    if |s| < 2 then More
    else if s[1] >= 128 then Bad                                    // masked
    else if s[0] as int / 16 % 8 != 0 then Bad                      // RSV1-3
    else if s[0] < 128 || s[0] as int % 16 == OP_CONT then Fragmented
    else if s[1] < 126 then Taken(s, 2, s[1])
    else if s[1] == 126 then (if |s| < 4 then More else Taken(s, 4, BigEndian(s[2..4])))
    else if |s| < 10 then More
    else if BigEndian(s[2..10]) > PAYLOAD_MAX then Bad
    else Taken(s, 10, BigEndian(s[2..10]))
  }

  /** What the parser has decided, more bytes do not change. */
  lemma ParseIsStable(s: seq<byte>, t: seq<byte>)
    requires Parse(s) != More
    ensures Parse(s + t) == Parse(s)
  {
    hide BigEndian;
    var u := s + t;
    if |s| >= 4 { assert u[2..4] == s[2..4]; }
    if |s| >= 10 { assert u[2..10] == s[2..10]; }
    if Parse(s).Complete? {
      var n := Parse(s).size;
      var len := |Parse(s).frame.payload|;
      assert u[n - len..n] == s[n - len..n];
    }
  }

  // ---- any header ----

  // How a header gives the length: in itself, in two more bytes, or in eight.
  datatype Form = Short | Medium | Long

  function Limit(form: Form): nat {
    match form
    case Short => 126
    case Medium => 0x1_0000
    case Long => 0x1_0000_0000_0000_0000
  }

  // n in k bytes, most significant first.
  function Be(n: nat, k: nat): (s: seq<byte>)
    ensures |s| == k
  {
    if k == 0 then [] else Be(n / 256, k - 1) + [n % 256]
  }

  function Pow256(k: nat): (p: nat)
    ensures p > 0
  {
    if k == 0 then 1 else 256 * Pow256(k - 1)
  }

  lemma {:induction false} BeBack(n: nat, k: nat)
    requires n < Pow256(k)
    ensures BigEndian(Be(n, k)) == n
  {
    if k > 0 {
      BeBack(n / 256, k - 1);
      assert Be(n, k)[..k - 1] == Be(n / 256, k - 1);
    }
  }

  // The first bytes of a frame, by the picture in section 5.2 of RFC 6455.
  function Header(fin: bool, rsv: nat, op: nat, masked: bool, form: Form, n: nat): (s: seq<byte>)
    requires rsv < 8 && op < 16 && n < Limit(form)
    ensures |s| == match form case Short => 2 case Medium => 4 case Long => 10
  {
    [(if fin then 128 else 0) + 16 * rsv + op,
     (if masked then 128 else 0) + match form case Short => n case Medium => 126 case Long => 127]
    + match form case Short => [] case Medium => Be(n, 2) case Long => Be(n, 8)
  }

  /** What the parser makes of any header at all, with any bytes behind it. */
  lemma ParsesAnyHeader(fin: bool, rsv: nat, op: nat, masked: bool, form: Form, n: nat, rest: seq<byte>)
    requires rsv < 8 && op < 16 && n < Limit(form)
    ensures var h := Header(fin, rsv, op, masked, form, n);
            Parse(h + rest) ==
            if masked || rsv != 0 then Bad
            else if !fin || op == 0 then Fragmented
            else if n > 65535 then Bad
            else if |rest| < n then More
            else Complete(Frame(op, rest[..n]), |h| + n)
  {
    var h := Header(fin, rsv, op, masked, form, n);
    var s := h + rest;
    FirstByte(fin, rsv, op);
    assert s[0] == h[0] && s[1] == h[1];
    LengthBytes(n, form);
    if form.Medium? { assert s[2..4] == Be(n, 2); }
    if form.Long? { assert s[2..10] == Be(n, 8); }
    if |rest| >= n { SliceOfSum(h, rest, n); }
    hide BigEndian, Be, Limit;
  }

  lemma SliceOfSum(s: seq<byte>, t: seq<byte>, n: nat)
    requires n <= |t|
    ensures (s + t)[|s|..|s| + n] == t[..n]
  {
  }

  lemma FirstByte(fin: bool, rsv: nat, op: nat)
    requires rsv < 8 && op < 16
    ensures var b := (if fin then 128 else 0) + 16 * rsv + op; b / 16 % 8 == rsv && b % 16 == op && (b >= 128 <==> fin)
  {
  }

  lemma LengthBytes(n: nat, form: Form)
    requires n < Limit(form)
    ensures form.Medium? ==> BigEndian(Be(n, 2)) == n
    ensures form.Long? ==> BigEndian(Be(n, 8)) == n
  {
    assert Pow256(2) == 0x1_0000;
    assert Pow256(4) == 0x1_0000_0000;
    assert Pow256(8) == 0x1_0000_0000_0000_0000;
    if form.Medium? { BeBack(n, 2); }
    if form.Long? { BeBack(n, 8); }
  }

  // ---- streams ----

  // The frames at the start of s.
  function ParseAll(s: seq<byte>): seq<Frame> {
    if Parse(s).Complete? then [Parse(s).frame] + ParseAll(s[Parse(s).size..]) else []
  }

  // `s` is exactly the bytes of `frames`.
  predicate Exactly(s: seq<byte>, frames: seq<Frame>) {
    if frames == [] then s == []
    else Parse(s).Complete? && Parse(s).frame == frames[0] && Exactly(s[Parse(s).size..], frames[1..])
  }

  lemma {:induction false} ExactlyThen(s: seq<byte>, frames: seq<Frame>, t: seq<byte>)
    requires Exactly(s, frames)
    ensures ParseAll(s + t) == frames + ParseAll(t)
    decreases |frames|
  {
    hide Parse, ParseAll;
    if frames == [] {
      assert s + t == t;
    } else {
      var n := Parse(s).size;
      ParseIsStable(s, t);
      DropOfSum(s, t, n);
      OneFrameMore(s + t);
      ExactlyThen(s[n..], frames[1..], t);
      HeadOf(frames, ParseAll(t));
    }
  }

  lemma DropOfSum(s: seq<byte>, t: seq<byte>, n: nat)
    requires n <= |s|
    ensures (s + t)[n..] == s[n..] + t
  {
  }

  lemma OneFrameMore(s: seq<byte>)
    requires Parse(s).Complete?
    ensures ParseAll(s) == [Parse(s).frame] + ParseAll(s[Parse(s).size..])
  {
  }

  lemma HeadOf(frames: seq<Frame>, more: seq<Frame>)
    requires frames != []
    ensures [frames[0]] + (frames[1..] + more) == frames + more
  {
  }

  lemma {:induction false} ExactlyOneMore(s: seq<byte>, frames: seq<Frame>, f: seq<byte>)
    requires Exactly(s, frames) && Parse(f).Complete? && Parse(f).size == |f|
    ensures Exactly(s + f, frames + [Parse(f).frame])
    decreases |frames|
  {
    hide Parse;
    var more := frames + [Parse(f).frame];
    if frames == [] {
      assert s + f == f && f[|f|..] == [] && more[1..] == [];
    } else {
      var n := Parse(s).size;
      ParseIsStable(s, f);
      ExactlyOneMore(s[n..], frames[1..], f);
      assert (s + f)[n..] == s[n..] + f && more[1..] == frames[1..] + [Parse(f).frame];
    }
  }

  // ---- what a server sends ----

  ghost predicate Sendable(f: Frame) {
    0 < f.opcode < 16 && |f.payload| <= PAYLOAD_MAX
  }

  function Be16(n: nat): seq<byte>
    requires n < 65536
  {
    [n / 256, n % 256]
  }

  // An unmasked frame of one piece, its length in the shortest form.
  function ServerBytes(f: Frame): (s: seq<byte>)
    requires Sendable(f)
    ensures |s| >= 2
  {
    var n := |f.payload|;
    if n < 126 then [128 + f.opcode, n] + f.payload
    else [128 + f.opcode, 126] + Be16(n) + f.payload
  }

  function ServerStream(frames: seq<Frame>): seq<byte>
    requires forall f :: f in frames ==> Sendable(f)
  {
    if frames == [] then [] else ServerBytes(frames[0]) + ServerStream(frames[1..])
  }

  lemma Be16Back(n: nat)
    requires n < 65536
    ensures BigEndian(Be16(n)) == n
  {
    assert BigEndian([]) == 0;
    assert Be16(n)[..1][..0] == [];
    assert BigEndian([n / 256]) == n / 256;
    assert Be16(n)[..1] == [n / 256];
  }

  lemma ParsesServerBytes(f: Frame, t: seq<byte>)
    requires Sendable(f)
    ensures Parse(ServerBytes(f) + t) == Complete(f, |ServerBytes(f)|)
  {
    var n := |f.payload|;
    var s := ServerBytes(f);
    var u := s + t;
    if n < 126 {
      assert u[2..2 + n] == f.payload;
    } else {
      Be16Back(n);
      assert u[2..4] == Be16(n) && u[4..4 + n] == f.payload;
    }
  }

  /** The parser reads back what a server sends, frame for frame. */
  lemma {:induction false} ParsesServerStream(frames: seq<Frame>)
    requires forall f :: f in frames ==> Sendable(f)
    ensures ParseAll(ServerStream(frames)) == frames
  {
    hide Parse, ServerBytes;
    if frames == [] {
      NothingParses();
    } else {
      ParsesServerBytes(frames[0], ServerStream(frames[1..]));
      ParsesServerStream(frames[1..]);
      var n := |ServerBytes(frames[0])|;
      assert ServerStream(frames)[n..] == ServerStream(frames[1..]);
    }
  }

  lemma NothingParses()
    ensures Parse([]) == More
  {
  }

  /** Inside a server frame the parser waits, at its end it has the frame. */
  lemma WaitsInsideFrame(f: Frame, buffered: seq<byte>, rest: seq<byte>)
    requires Sendable(f) && ServerBytes(f) <= buffered + rest
    ensures Parse(buffered) == More <==> |buffered| < |ServerBytes(f)|
    ensures |buffered| >= |ServerBytes(f)| ==> Parse(buffered) == Complete(f, |ServerBytes(f)|)
  {
    hide Parse, ServerBytes;
    var s := ServerBytes(f);
    if |buffered| >= |s| {
      assert buffered == s + buffered[|s|..];
      ParsesServerBytes(f, buffered[|s|..]);
    } else {
      ParsesServerBytes(f, []);
      assert s + [] == s;
      var gap := s[|buffered|..];
      assert s == buffered + gap;
      if Parse(buffered) != More {
        ParseIsStable(buffered, gap);
      }
    }
  }
}
