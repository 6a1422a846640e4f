/**
 The cloud link's inbound bytes (cloud_rx.c, and cloud_client.c from cl_recv_cb to cl_process_ws_frames): segments are
 taken whole or refused, complete frames are handed on, and a frame whose handler has no room stays for the next poll.
 */
module CloudRx {
  import opened Bits
  import opened Pbuf
  import opened WsFrame

  const CAP := 16384   // BP_CLOUD_RX_ACCUM

  // cloud_rx_refuse
  predicate Refuse(cap: nat, len: nat, incoming: nat)
    requires len <= cap
  {
    incoming > cap - len && len > 0
  }

  // ---- what the invariant says ----

  // The payloads of the frames with an opcode: what a handler is called with.
  function Payloads(frames: seq<Frame>, op: nat): seq<seq<byte>> {
    if frames == [] then []
    else
      var f := frames[|frames| - 1];
      Payloads(frames[..|frames| - 1], op) + (if f.opcode == op then [f.payload] else [])
  }

  lemma PayloadsOneMore(frames: seq<Frame>, f: Frame, op: nat)
    ensures Payloads(frames + [f], op) == Payloads(frames, op) + (if f.opcode == op then [f.payload] else [])
  {
    assert (frames + [f])[..|frames|] == frames;
  }

  lemma {:induction false} PayloadsJoin(a: seq<Frame>, b: seq<Frame>, op: nat)
    ensures Payloads(a + b, op) == Payloads(a, op) + Payloads(b, op)
    decreases |b|
  {
    if b == [] {
      assert a + b == a;
    } else {
      hide Payloads;
      var init, f := b[..|b| - 1], b[|b| - 1];
      PayloadsJoin(a, init, op);
      PayloadsOneMore(a + init, f, op);
      PayloadsOneMore(init, f, op);
      Reassociate(a, init, [f]);
      Reassociate(Payloads(a, op), Payloads(init, op), if f.opcode == op then [f.payload] else []);
      assert b == init + [f];
    }
  }

  // What the handlers did, as they log it: texts taken, pings answered.
  datatype Log = Log(taken: seq<seq<byte>>, answered: seq<seq<byte>>)

  function LogOf(frames: seq<Frame>): Log { Log(Payloads(frames, OP_TEXT), Payloads(frames, OP_PING)) }

  // A frame that ends the link: one the parser will not have, or the server's close.
  predicate Fatal(s: seq<byte>) {
    var p := Parse(s);
    p.Bad? || p.Fragmented? || (p.Complete? && p.frame.opcode == OP_CLOSE)
  }

  // Everything accepted is either consumed or still in the buffer, what was consumed is exactly the frames handled, and
  // the handlers took each of their texts, and answered each of their pings, once.
  ghost predicate Accounted(accepted: seq<byte>, consumed: seq<byte>, rest: seq<byte>, handled: seq<Frame>, log: Log) {
    accepted == consumed + rest && Exactly(consumed, handled) && log == LogOf(handled)
  }

  lemma TakeSegment(accepted: seq<byte>, consumed: seq<byte>, rest: seq<byte>, handled: seq<Frame>,
                    log: Log, segment: seq<byte>)
    requires Accounted(accepted, consumed, rest, handled, log)
    ensures Accounted(accepted + segment, consumed, rest + segment, handled, log)
  {
  }

  // The log once a frame is handled.
  function Logged(log: Log, f: Frame): Log {
    if f.opcode == OP_TEXT then log.(taken := log.taken + [f.payload])
    else if f.opcode == OP_PING then log.(answered := log.answered + [f.payload])
    else log
  }

  lemma HandleOne(accepted: seq<byte>, consumed: seq<byte>, rest: seq<byte>, handled: seq<Frame>, log: Log)
    requires Accounted(accepted, consumed, rest, handled, log) && Parse(rest).Complete?
    ensures var p := Parse(rest);
            Accounted(accepted, consumed + rest[..p.size], rest[p.size..], handled + [p.frame], Logged(log, p.frame))
  {
    hide Parse, Exactly, Payloads;
    var p := Parse(rest);
    var f := rest[..p.size];
    FramePrefix(rest);
    ExactlyOneMore(consumed, handled, f);
    PayloadsOneMore(handled, p.frame, OP_TEXT);
    PayloadsOneMore(handled, p.frame, OP_PING);
    assert consumed + rest == (consumed + f) + rest[p.size..];
  }

  // The bytes of a frame parse alone as they parse in the stream.
  lemma FramePrefix(s: seq<byte>)
    requires Parse(s).Complete?
    ensures var p := Parse(s); Parse(s[..p.size]) == p
  {
    hide BigEndian;
    var p := Parse(s);
    var u := s[..p.size];
    var len := |p.frame.payload|;
    if |u| >= 4 { assert u[2..4] == s[2..4]; }
    if |u| >= 10 { assert u[2..10] == s[2..10]; }
    assert u[p.size - len..p.size] == s[p.size - len..p.size];
  }

  /** Exactly once and in order: the frames of everything accepted are the handled ones and then those still waiting,
      the texts the handlers took are those of the handled ones, and so are the pings they answered. */
  lemma InOrderOnce(accepted: seq<byte>, consumed: seq<byte>, rest: seq<byte>, handled: seq<Frame>, log: Log)
    requires Accounted(accepted, consumed, rest, handled, log)
    ensures ParseAll(accepted) == handled + ParseAll(rest)
    ensures Payloads(ParseAll(accepted), OP_TEXT) == log.taken + Payloads(ParseAll(rest), OP_TEXT)
    ensures Payloads(ParseAll(accepted), OP_PING) == log.answered + Payloads(ParseAll(rest), OP_PING)
  {
    hide Payloads, Exactly;
    ExactlyThen(consumed, handled, rest);
    PayloadsJoin(handled, ParseAll(rest), OP_TEXT);
    PayloadsJoin(handled, ParseAll(rest), OP_PING);
  }

  /** Against the sender: whatever has arrived of its stream, the handlers took the texts of the first frames it sent,
      each once, and what is not handled yet is still to be read. */
  lemma TakenAreFirst(frames: seq<Frame>, accepted: seq<byte>, consumed: seq<byte>, rest: seq<byte>, tail: seq<byte>,
                      handled: seq<Frame>, log: Log)
    requires forall f :: f in frames ==> Sendable(f)
    requires Accounted(accepted, consumed, rest, handled, log) && accepted + tail == ServerStream(frames)
    ensures |handled| <= |frames| && log == LogOf(frames[..|handled|])
    ensures rest + tail == ServerStream(frames[|handled|..])
  {
    hide Payloads, Exactly, ServerStream;
    Regrouped(consumed, rest, tail);
    HandledAreFirst(frames, consumed, rest + tail, handled);
    assert handled == frames[..|handled|];
  }

  lemma Regrouped(a: seq<byte>, b: seq<byte>, c: seq<byte>)
    ensures (a + b) + c == a + (b + c)
  {
  }

  // The handled frames are the first the server sent.
  lemma {:induction false} HandledAreFirst(frames: seq<Frame>, consumed: seq<byte>, tail: seq<byte>,
                                           handled: seq<Frame>)
    requires forall f :: f in frames ==> Sendable(f)
    requires Exactly(consumed, handled) && consumed + tail == ServerStream(frames)
    ensures handled <= frames && tail == ServerStream(frames[|handled|..])
    decreases |handled|
  {
    hide Parse, ServerBytes;
    if handled == [] {
      assert consumed + tail == tail && frames[0..] == frames;
    } else {
      if frames != [] {
        ParseIsStable(consumed, tail);
        var b, more := ServerBytes(frames[0]), ServerStream(frames[1..]);
        ParsesServerBytes(frames[0], more);
        assert consumed[|b|..] + tail == (consumed + tail)[|b|..] == more;
        HandledAreFirst(frames[1..], consumed[|b|..], tail, handled[1..]);
        assert handled == [handled[0]] + handled[1..] && frames == [frames[0]] + frames[1..];
        assert frames[|handled|..] == frames[1..][|handled| - 1..];
      }
    }
  }

  /** Frames of at most half the buffer never stall the link: once the parser waits, less than half is in use, so the
      poll asks for a refused segment again, and a segment of up to half the buffer is taken. */
  lemma NoStall(frames: seq<Frame>, rest: seq<byte>, tail: seq<byte>, incoming: nat)
    requires forall f :: f in frames ==> Sendable(f) && |ServerBytes(f)| <= CAP / 2
    requires rest + tail == ServerStream(frames) && Parse(rest) == More && incoming <= CAP / 2
    ensures |rest| < CAP / 2 && !Refuse(CAP, |rest|, incoming)
    ensures tail == [] ==> rest == []
  {
    hide Parse, ServerBytes;
    if frames != [] {
      WaitsInsideFrame(frames[0], rest, tail);
    }
  }

  /** A longer frame cannot get through at all, though the parser accepts its length: it is complete in the buffer at
      some point exactly when it is no longer than the buffer. */
  lemma FrameMustFit(f: Frame, behind: seq<byte>)
    requires Sendable(f)
    ensures (exists b :: |b| <= CAP && b <= ServerBytes(f) + behind && Parse(b) != More) <==> |ServerBytes(f)| <= CAP
  {
    hide Parse, ServerBytes;
    var s := ServerBytes(f);
    var t := s + behind;
    forall b | |b| <= CAP && b <= t && Parse(b) != More
      ensures |s| <= CAP
    {
      assert t == b + t[|b|..];
      WaitsInsideFrame(f, b, t[|b|..]);
    }
    WaitsInsideFrame(f, s, behind);
  }

  // ---- the link ----

  class Link {
    const buf: array<byte>
    var len: nat
    var connected: bool
    var overflow: bool
    var refused: bool
    ghost var accepted: seq<byte>
    ghost var consumed: seq<byte>
    ghost var handled: seq<Frame>
    ghost var log: Log         // the handlers' own: every text one of them took, every ping answered
    ghost var noRoom: nat      // how often a handler had no room
    ghost var gaveUp: bool     // a handler has given the link up

    ghost predicate Valid()
      reads this, buf
    {
      && buf.Length == CAP && len <= CAP
      && (connected ==> !gaveUp)
      && (connected && !overflow ==> Accounted(accepted, consumed, buf[..len], handled, log))
    }

    // Connected, with what the upgrade response left behind it.
    constructor (leftover: seq<byte>)
      requires |leftover| <= CAP
      ensures Valid() && fresh(buf) && connected && !overflow && accepted == leftover && handled == []
      ensures log == LogOf([])
    {
      var b := new byte[CAP];
      buf, len, connected, overflow, refused := b, 0, true, false, false;
      accepted, consumed, handled, log, gaveUp := leftover, [], [], Log([], []), false;
      new;
      var i := 0;
      while i < |leftover|
        invariant 0 <= i <= |leftover| && buf[..i] == leftover[..i]
        invariant len == 0 && connected && !overflow && accepted == leftover && consumed == []
        invariant handled == [] && log == Log([], []) && !gaveUp
      {
        buf[i] := leftover[i];
        i := i + 1;
      }
      len := i;
    }

    // cloud_rx_append
    method Append(data: seq<byte>) returns (ok: bool)
      requires buf.Length == CAP && len <= CAP
      modifies this`len, buf
      ensures ok <==> |data| <= CAP - old(len)
      ensures len <= CAP && buf[..len] == old(buf[..len]) + if ok then data else []
    {
      if |data| > buf.Length - len { return false; }
      var i := 0;
      while i < |data|
        invariant 0 <= i <= |data| && len == old(len) && buf[..len + i] == old(buf[..len]) + data[..i]
      {
        buf[len + i] := data[i];
        assert buf[..len + i + 1] == buf[..len + i] + [data[i]] && data[..i + 1] == data[..i] + [data[i]];
        i := i + 1;
      }
      len := len + |data|;
      return true;
    }

    // cloud_rx_consume
    method Consume(n: nat)
      requires buf.Length == CAP && len <= CAP
      modifies this`len, buf
      ensures len <= CAP && buf[..len] == old(buf[..len])[if n >= old(len) then old(len) else n..]
    {
      if n >= len { len := 0; return; }
      ghost var was := buf[..len];
      var i := 0;
      while i < len - n
        invariant 0 <= i <= len - n && len == old(len)
        invariant buf[..i] == was[n..n + i] && forall k :: i <= k < len ==> buf[k] == was[k]
      {
        buf[i] := buf[n + i];
        assert was[n..n + i + 1] == was[n..n + i] + [was[n + i]];
        i := i + 1;
      }
      len := len - n;
    }

    /** cl_recv_cb: a segment is refused as it is or taken whole, and only one bigger than the whole buffer, coming
        while that is empty, overflows. */
    method Receive(pieces: seq<seq<byte>>) returns (took: bool)
      requires Valid()
      modifies this, buf
      ensures Valid() && connected == old(connected) && handled == old(handled) && log == old(log)
      ensures took <==> |Joined(pieces)| <= CAP - old(len) || old(len) == 0
      ensures !took ==> refused && len == old(len) && buf[..] == old(buf[..]) && accepted == old(accepted)
      ensures took ==> refused == old(refused) && accepted == old(accepted) + Joined(pieces)
      ensures overflow <==> old(overflow) || (took && old(len) == 0 && |Joined(pieces)| > CAP)
    {
      hide Accounted;
      var total := |Joined(pieces)|;
      if Refuse(CAP, len, total) {
        refused := true;
        return false;
      }
      if connected && !overflow { TakeSegment(accepted, consumed, buf[..len], handled, log, Joined(pieces)); }
      AppendAll(pieces);
      accepted := accepted + Joined(pieces);
      return true;
    }

    method AppendAll(pieces: seq<seq<byte>>)
      requires buf.Length == CAP && len <= CAP
      modifies this`len, this`overflow, buf
      ensures len <= CAP && (overflow <==> old(overflow) || |Joined(pieces)| > CAP - old(len))
      ensures |Joined(pieces)| <= CAP - old(len) ==> buf[..len] == old(buf[..len]) + Joined(pieces)
    {
      var i := 0;
      ghost var over := false;
      assert pieces[..0] == [];
      while i < |pieces|
        invariant 0 <= i <= |pieces| && len <= CAP && (overflow <==> old(overflow) || over)
        invariant over ==> |Joined(pieces)| > CAP - old(len)
        invariant !over ==> buf[..len] == old(buf[..len]) + Joined(pieces[..i])
      {
        JoinedOneMore(pieces, i);
        JoinedGrows(pieces, i + 1);
        var ok := Append(pieces[i]);
        if !ok { overflow, over := true, true; }
        i := i + 1;
      }
      assert pieces[..i] == pieces;
    }

    // cl_backoff: the link and its buffer are gone.
    method Backoff()
      requires buf.Length == CAP
      modifies this`len, this`connected, this`overflow
      ensures Valid() && !connected && len == 0
    {
      len, connected, overflow := 0, false, false;
    }

    // cl_handle_text_frame: a handler may have no room for the frame, and may give the link up.
    method HandleText(payload: seq<byte>) returns (ok: bool)
      requires buf.Length == CAP && len <= CAP && connected && !gaveUp
      modifies this`len, this`connected, this`overflow, this`log, this`noRoom, this`gaveUp
      ensures len <= CAP && (ok ==> log == old(log).(taken := old(log).taken + [payload])) && (!ok ==> log == old(log))
      ensures noRoom == old(noRoom) + if ok then 0 else 1
      ensures connected <==> !gaveUp
      ensures connected ==> len == old(len) && overflow == old(overflow)
    {
      ok := *;
      if ok { log := log.(taken := log.taken + [payload]); } else { noRoom := noRoom + 1; }
      var lost := *;
      if lost {
        gaveUp := true;
        Backoff();
      }
    }

    // cl_ws_send of a pong
    method Answer(payload: seq<byte>)
      modifies this`log
      ensures log == old(log).(answered := old(log).answered + [payload])
    {
      log := log.(answered := log.answered + [payload]);
    }

    /** cl_process_ws_frames: frame after frame, until none is complete, a handler has no room for one, which is then
        still the first in the buffer, or the link goes down: exactly when a handler gives it up or the frames after the
        handled ones reach one that ends it. `left` is what is not handled. */
    method ProcessFrames() returns (ghost busy: bool, ghost left: seq<byte>)
      requires Valid() && connected && !overflow
      modifies this, buf
      ensures Valid() && refused == old(refused) && accepted == old(accepted)
      ensures old(handled) <= handled && accepted == consumed + left && Exactly(consumed, handled)
      ensures connected ==> !overflow && left == buf[..len]
      ensures connected <==> !gaveUp && !Fatal(left)
      ensures if busy then noRoom == old(noRoom) + 1 && Parse(left).Complete? && Parse(left).frame.opcode == OP_TEXT
              else noRoom == old(noRoom)
      ensures connected && !busy ==> Parse(left) == More
    {
      hide Accounted, Parse, Exactly, Payloads;
      busy := false;
      while true
        invariant Valid() && connected && !overflow && old(handled) <= handled && !busy && noRoom == old(noRoom)
        invariant refused == old(refused) && accepted == old(accepted)
        decreases len
      {
        left := buf[..len];
        Sums(accepted, consumed, left, handled, log);
        var p := Parse(buf[..len]);
        if p.More? { return; }
        if !p.Complete? || p.frame.opcode == OP_CLOSE { Backoff(); return; }
        ghost var before := log;
        if p.frame.opcode == OP_TEXT {
          var ok := HandleText(p.frame.payload);
          if !ok { busy := true; return; }
        } else if p.frame.opcode == OP_PING {
          Answer(p.frame.payload);
        }
        if !connected { return; }
        HandleOne(accepted, consumed, left, handled, before);
        consumed, handled := consumed + left[..p.size], handled + [p.frame];
        Consume(p.size);
        assert buf[..len] == left[p.size..];
      }
    }

    /** A poll of a connected link; `ask` is the request for the refused segment. The link goes down exactly when the
        peer is gone, the buffer overflowed, a handler gives it up or a frame ends it. */
    method Poll(dropped: bool) returns (ask: bool, ghost busy: bool, ghost left: seq<byte>)
      requires Valid() && connected
      modifies this, buf
      ensures Valid() && accepted == old(accepted)
      ensures connected <==> !dropped && !old(overflow) && !gaveUp && !Fatal(left)
      ensures connected ==> !overflow && old(handled) <= handled && left == buf[..len]
      ensures !dropped && !old(overflow) ==> accepted == consumed + left && Exactly(consumed, handled)
      ensures connected && !busy ==> Parse(left) == More
      ensures busy ==> noRoom == old(noRoom) + 1 && Parse(left).Complete?
      ensures connected ==> (ask <==> old(refused) && len < CAP / 2) && refused == (old(refused) && !ask)
      ensures !connected ==> !ask
    {
      hide Accounted, Parse, Exactly;
      ask, busy, left := false, false, buf[..len];
      if dropped || overflow { Backoff(); return; }
      Sums(accepted, consumed, left, handled, log);
      if len > 0 {
        busy, left := ProcessFrames();
      } else {
        EmptyWaits();
        assert buf[..len] == [];
      }
      if !connected { return; }
      if refused && len < CAP / 2 { refused, ask := false, true; }
    }
  }

  lemma Sums(accepted: seq<byte>, consumed: seq<byte>, rest: seq<byte>, handled: seq<Frame>, log: Log)
    requires Accounted(accepted, consumed, rest, handled, log)
    ensures accepted == consumed + rest && Exactly(consumed, handled)
  {
  }

  lemma EmptyWaits()
    ensures Parse([]) == More
  {
  }
}
