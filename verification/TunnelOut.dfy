/**
 The way out of a cloud tunnel: the worker's bytes wait in a ring (conn_tx.c), the net task takes what the link has
 room for (net_server.c), and cloud_client_tunnel_out sends them as base64url frames. A send may fail at any frame.
 */
module TunnelOut {
  import opened Bits
  import opened Rings
  import B = Base64Url

  const CHUNK := 768        // BP_TUNNEL_CHUNK
  const ID_MAX := 64        // BP_TUNNEL_ID_MAX
  const FRAME_MAX := 1300   // BP_TUNNEL_OUT_FRAME_MAX
  const ENVELOPE := 51      // {"type":"tunnel.data","tunnel_id":"","data_b64":""}
  const RING := 2048        // CONN_TX_RING_SIZE
  const INDEX := 65536      // head and tail are free-running 16-bit counters

  datatype Frame = Frame(id: string, data: seq<byte>)

  function FrameLen(f: Frame): nat {
    ENVELOPE + |f.id| + |f.data|
  }

  // The text of a frame, and so its length.
  function FrameText(f: Frame): string {
    "{\"type\":\"tunnel.data\",\"tunnel_id\":\"" + f.id + "\",\"data_b64\":\"" + Chars(f.data) + "\"}"
  }

  function Chars(s: seq<byte>): (t: string)
    ensures |t| == |s|
  {
    seq(|s|, i requires 0 <= i < |s| => s[i] as char)
  }

  lemma FrameLenIs(f: Frame)
    ensures |FrameText(f)| == FrameLen(f)
  {
  }

  // What the server decodes from the frames, in order.
  function Wire(frames: seq<Frame>): seq<byte> {
    if frames == [] then []
    else
      var r := B.Decode(frames[|frames| - 1].data, CHUNK);
      Wire(frames[..|frames| - 1]) + (if r.Decoded? then r.data else [])
  }

  lemma WireOneMore(frames: seq<Frame>, id: string, data: seq<byte>)
    requires |data| <= CHUNK
    ensures Wire(frames + [Frame(id, B.Encode(data))]) == Wire(frames) + data
  {
    var more := frames + [Frame(id, B.Encode(data))];
    assert more[..|more| - 1] == frames;
    assert B.Encode(data) + seq(0, _ => B.PAD) == B.Encode(data);
    B.RoundTrip(data, 0, CHUNK);
  }

  // ---- the ring ----

  function Used(head: nat, tail: nat): (n: nat)
    ensures n < INDEX
  {
    (head - tail) % INDEX
  }

  lemma HeadSlot(head: nat, tail: nat, i: nat)
    requires head < INDEX && tail < INDEX
    ensures Slot(RING, head, i) == Slot(RING, tail, Used(head, tail) + i)
  {
    var u := Used(head, tail);
    assert head == tail + u || head == tail + u - INDEX;
  }

  // Moving the tail drops.
  lemma AdvanceDrops(ring: seq<byte>, tail: nat, n: nat, k: nat)
    requires |ring| == RING && k <= n
    ensures Queued(ring, (tail + k) % INDEX, n - k) == Queued(ring, tail, n)[k..]
  {
    var t := (tail + k) % INDEX;
    forall j | 0 <= j < n - k
      ensures Slot(RING, t, j) == Slot(RING, tail, k + j)
    {
      WrapsEvenly(tail + k, j);
    }
  }

  lemma WrapsEvenly(x: nat, j: nat)
    ensures Slot(RING, x % INDEX, j) == Slot(RING, x, j)
  {
  }

  lemma UsedAfter(head: nat, tail: nat, up: nat, down: nat)
    requires head < INDEX && tail < INDEX && down <= Used(head, tail) && Used(head, tail) + up < INDEX
    ensures Used((head + up) % INDEX, tail) == Used(head, tail) + up
    ensures Used(head, (tail + down) % INDEX) == Used(head, tail) - down
  {
    UsedIs(head, tail);
    UsedIs((head + up) % INDEX, tail);
    UsedIs(head, (tail + down) % INDEX);
    assert (head + up) % INDEX == (if head + up < INDEX then head + up else head + up - INDEX);
    assert (tail + down) % INDEX == (if tail + down < INDEX then tail + down else tail + down - INDEX);
    hide Used;
  }

  lemma UsedIs(head: nat, tail: nat)
    requires head < INDEX && tail < INDEX
    ensures Used(head, tail) == if head >= tail then head - tail else head - tail + INDEX
  {
  }

  // The run from the tail up to the end of the buffer is one stretch of memory.
  lemma StretchIsQueued(ring: seq<byte>, tail: nat, n: nat, off: nat, len: nat)
    requires |ring| == RING && off + len <= n && Slot(RING, tail, 0) + off + len <= RING
    ensures var p := Slot(RING, tail, 0) + off; ring[p..p + len] == Queued(ring, tail, n)[off..off + len]
  {
    var p := Slot(RING, tail, 0) + off;
    var stretch, queued := ring[p..p + len], Queued(ring, tail, n)[off..off + len];
    forall k | 0 <= k < len
      ensures stretch[k] == queued[k]
    {
      NoWrap(tail, off + k);
    }
  }

  lemma NoWrap(tail: nat, k: nat)
    requires Slot(RING, tail, 0) + k < RING
    ensures Slot(RING, tail, k) == Slot(RING, tail, 0) + k
  {
  }

  // ---- what the invariant says ----

  /** Nothing lost, repeated or reordered: what the frames carry and what still waits, past the `gone` bytes that are
      sent but not yet given back, is everything the ring ever took. */
  ghost predicate Kept(accepted: seq<byte>, frames: seq<Frame>, waiting: seq<byte>, gone: nat) {
    gone <= |waiting| && accepted == Wire(frames) + waiting[gone..]
  }

  lemma KeptWriting(accepted: seq<byte>, frames: seq<Frame>, waiting: seq<byte>, gone: nat, data: seq<byte>)
    requires Kept(accepted, frames, waiting, gone)
    ensures Kept(accepted + data, frames, waiting + data, gone)
  {
    hide Wire;
    assert (waiting + data)[gone..] == waiting[gone..] + data;
  }

  lemma KeptSending(accepted: seq<byte>, frames: seq<Frame>, frames': seq<Frame>, waiting: seq<byte>, gone: nat, n: nat)
    requires Kept(accepted, frames, waiting, gone) && gone + n <= |waiting|
    requires Wire(frames') == Wire(frames) + waiting[gone..gone + n]
    ensures Kept(accepted, frames', waiting, gone + n)
  {
    hide Wire;
    assert waiting[gone..] == waiting[gone..gone + n] + waiting[gone + n..];
  }

  lemma KeptAdvancing(accepted: seq<byte>, frames: seq<Frame>, waiting: seq<byte>, gone: nat)
    requires Kept(accepted, frames, waiting, gone)
    ensures Kept(accepted, frames, waiting[gone..], 0)
  {
    hide Wire;
    assert waiting[gone..][0..] == waiting[gone..];
  }

  // Frames were only added, each for this tunnel and within its buffer.
  ghost predicate AllFit(before: seq<Frame>, after: seq<Frame>, id: string) {
    before <= after && forall i :: |before| <= i < |after| ==> after[i].id == id && FrameLen(after[i]) < FRAME_MAX
  }

  lemma FitNone(frames: seq<Frame>, id: string)
    ensures AllFit(frames, frames, id)
  {
  }

  lemma FitChains(a: seq<Frame>, b: seq<Frame>, c: seq<Frame>, id: string)
    requires AllFit(a, b, id) && AllFit(b, c, id)
    ensures AllFit(a, c, id)
  {
    assert forall i :: |a| <= i < |b| ==> c[i] == b[i];
  }

  class Tunnel {
    const id: string             // never empty: an open tunnel
    const buf: array<byte>
    var head: nat
    var tail: nat
    var frames: seq<Frame>       // what went out
    ghost var accepted: seq<byte>    // what the ring ever took
    ghost var gone: nat              // what went out of it and is not given back yet
    ghost var failures: nat          // sends that failed

    ghost predicate RingOk()
      reads this, buf
    {
      buf.Length == RING && head < INDEX && tail < INDEX && Used(head, tail) < RING && 0 < |id| < ID_MAX
    }

    ghost function Contents(): seq<byte>
      requires RingOk()
      reads this, buf
    {
      Queued(buf[..], tail, Used(head, tail))
    }

    ghost predicate Valid()
      reads this, buf
    {
      RingOk() && Kept(accepted, frames, Contents(), gone)
    }

    constructor (name: string)
      requires 0 < |name| < ID_MAX
      ensures Valid() && fresh(buf) && accepted == [] && frames == [] && gone == 0
    {
      id, buf, head, tail, frames, accepted, gone, failures := name, new byte[RING], 0, 0, [], [], 0, 0;
    }

    // conn_tx_write: all or nothing
    method Write(data: seq<byte>) returns (n: nat)
      requires Valid()
      modifies this`head, this`accepted, buf
      ensures n <= |data| && Valid() && Contents() == old(Contents()) + data[..n] &&
          accepted == old(accepted) + data[..n]
      ensures n == if |data| <= RING - 1 - old(|Contents()|) then |data| else 0
    {
      hide Wire, Queued, Used, Kept;
      var used := Used(head, tail);
      if |data| > RING - 1 - used {
        assert Contents() + data[..0] == Contents() && accepted + data[..0] == accepted;
        return 0;
      }
      ghost var before := Contents();
      var i := 0;
      while i < |data|
        invariant 0 <= i <= |data| && head == old(head) && accepted == old(accepted)
        invariant Queued(buf[..], tail, used + i) == before + data[..i]
      {
        HeadSlot(head, tail, i);
        WriteAppends(buf[..], tail, used + i, data[i]);
        ghost var was := buf[..];
        buf[Slot(RING, head, i)] := data[i];
        assert buf[..] == was[Slot(RING, tail, used + i) := data[i]];
        assert data[..i + 1] == data[..i] + [data[i]];
        i := i + 1;
      }
      UsedAfter(head, tail, |data|, 0);
      KeptWriting(accepted, frames, before, gone, data);
      assert data[..|data|] == data;
      head := (head + |data|) % INDEX;
      n := |data|;
      accepted := accepted + data;
    }

    // conn_tx_peek: a pointer into the ring
    method Peek() returns (pos: nat, contig: nat)
      requires RingOk()
      ensures pos == Slot(RING, tail, 0) && contig == Min(|Contents()|, RING - pos)
      ensures Contents() != [] ==> contig > 0
    {
      hide Queued;
      var used := Used(head, tail);
      pos := Slot(RING, tail, 0);
      contig := if used < RING - pos then used else RING - pos;
    }

    // conn_tx_advance
    method Advance(n: nat)
      requires Valid() && n == gone
      modifies this`tail, this`gone
      ensures Valid() && gone == 0 && Contents() == old(Contents())[n..]
    {
      hide Queued, Used, Kept;
      KeptFits(accepted, frames, Contents(), gone);
      KeptAdvancing(accepted, frames, Contents(), gone);
      AdvanceDrops(buf[..], tail, Used(head, tail), n);
      UsedAfter(head, tail, 0, n);
      tail, gone := (tail + n) % INDEX, 0;
    }

    // The worker may queue more between any two steps of the net task.
    method WorkerMayWrite()
      requires Valid()
      modifies this`head, this`accepted, buf
      ensures Valid() && old(Contents()) <= Contents() && old(accepted) <= accepted
    {
      var data: seq<byte> := *;
      var _ := Write(data);
    }

    /** cloud_client_tunnel_out on `len` bytes of the ring from `pos` on, the worker writing all the while: whichever
        send fails, the frames carry exactly the prefix it reports. */
    method Out(pos: nat, len: nat) returns (taken: nat)
      requires Valid() && gone == 0 && pos == Slot(RING, tail, 0) && pos + len <= RING && len <= |Contents()|
      modifies this`frames, this`gone, this`head, this`accepted, this`failures, buf
      ensures Valid() && taken == gone <= len && old(Contents()) <= Contents()
      ensures Wire(frames) == old(Wire(frames)) + old(Contents())[..taken] && old(accepted) <= accepted
      ensures AllFit(old(frames), frames, id)
      ensures taken == len || taken % CHUNK == 0
      ensures failures == old(failures) + if taken == len then 0 else 1
    {
      hide Wire, Queued, Used, Kept, AllFit;
      var b64 := new byte[B.EncodedLen(CHUNK) + 1];
      ghost var before := Contents();
      var off := 0;
      assert Wire(frames) + before[..0] == Wire(frames);
      FitNone(frames, id);
      while off < len
        invariant 0 <= off <= len && (off == len || off % CHUNK == 0) && off == gone
        invariant Valid() && before <= Contents() && old(accepted) <= accepted
        invariant Wire(frames) == old(Wire(frames)) + before[..off]
        invariant AllFit(old(frames), frames, id) && failures == old(failures)
      {
        var n := if len - off > CHUNK then CHUNK else len - off;
        ghost var so, now := frames, Contents();
        PrefixSlice(before, now, off, n);
        var sent := SendChunk(pos + off, n, b64);
        if !sent { return off; }
        FitChains(old(frames), so, frames, id);
        WireChains(old(Wire(frames)), Wire(so), Wire(frames), before, off, n);
        off := off + n;
      }
      return off;
    }

    // The next n bytes, read from the live ring.
    method SendChunk(at: nat, n: nat, b64: array<byte>) returns (sent: bool)
      requires Valid() && 0 < n <= CHUNK && b64.Length == B.EncodedLen(CHUNK) + 1 && b64 != buf
      requires gone + n <= |Contents()| && at == Slot(RING, tail, 0) + gone && at + n <= RING
      modifies this`frames, this`gone, this`head, this`accepted, this`failures, buf, b64
      ensures Valid() && old(Contents()) <= Contents() && old(accepted) <= accepted
      ensures !sent ==> frames == old(frames) && gone == old(gone)
      ensures failures == old(failures) + if sent then 0 else 1
      ensures sent ==> Wire(frames) == old(Wire(frames)) + old(Contents()[gone..gone + n]) && gone == old(gone) + n
      ensures sent ==> AllFit(old(frames), frames, id)
    {
      hide Wire, Queued, Used, Kept, AllFit;
      ghost var before := Contents();
      WorkerMayWrite();
      StretchIsQueued(buf[..], tail, Used(head, tail), gone, n);
      var piece := buf[..][at..at + n];
      assert piece == before[gone..gone + n];
      WorkerMayWrite();
      var _, _, s := Send(piece, b64);
      sent := s;
    }

    /** One frame. Neither early return that would report unsent bytes as sent can be taken: a chunk always encodes,
        and its frame always fits. */
    method Send(piece: seq<byte>, b64: array<byte>) returns (o: nat, fn: nat, sent: bool)
      requires Valid() && 0 < |piece| <= CHUNK && b64.Length == B.EncodedLen(CHUNK) + 1 && b64 != buf
      requires gone + |piece| <= |Contents()| && piece == Contents()[gone..gone + |piece|]
      modifies this`frames, this`gone, this`failures, b64
      ensures o != 0 && 0 < fn < FRAME_MAX
      ensures Valid()
      ensures !sent ==> frames == old(frames) && gone == old(gone)
      ensures failures == old(failures) + if sent then 0 else 1
      ensures sent ==> Wire(frames) == old(Wire(frames)) + piece && gone == old(gone) + |piece|
      ensures sent ==> |frames| == |old(frames)| + 1 && AllFit(old(frames), frames, id)
      ensures sent ==> FrameLen(frames[|frames| - 1]) == fn
    {
      hide Wire, Queued, Used, Kept;
      o := B.EncodeInto(piece, b64);
      var f := Frame(id, b64[..o]);
      fn := FrameLen(f);
      sent := *;
      if sent {
        WireOneMore(frames, id, piece);
        KeptSending(accepted, frames, frames + [f], Contents(), gone, |piece|);
        frames, gone := frames + [f], gone + |piece|;
      } else {
        failures := failures + 1;
      }
    }

    /** One turn of the net task, the worker writing between any two of its steps: peek, send what the link has room
        for, give back only what went out. */
    method Turn(avail: nat)
      requires Valid() && gone == 0
      modifies this, buf
      ensures Valid() && gone == 0 && AllFit(old(frames), frames, id) && old(accepted) <= accepted
      ensures |old(Wire(frames))| <= |Wire(frames)| <= |old(Wire(frames))| + avail
      ensures failures == old(failures) || failures == old(failures) + 1
      ensures failures == old(failures) ==>
        |Wire(frames)| >= |old(Wire(frames))| + Min(avail, Min(|old(Contents())|, RING - Slot(RING, old(tail), 0)))
    {
      hide Wire, Queued, Used, Kept, AllFit;
      FitNone(frames, id);
      if avail == 0 { return; }
      WorkerMayWrite();
      var pos, n := Peek();
      WorkerMayWrite();
      if n > avail { n := avail; }
      var taken := Out(pos, n);
      WorkerMayWrite();
      Advance(taken);
      WorkerMayWrite();
    }
  }

  lemma PrefixSlice(a: seq<byte>, b: seq<byte>, off: nat, n: nat)
    requires a <= b && off + n <= |a|
    ensures b[off..off + n] == a[off..off + n]
  {
  }

  lemma WireChains(w: seq<byte>, w': seq<byte>, w'': seq<byte>, data: seq<byte>, off: nat, n: nat)
    requires off + n <= |data| && w' == w + data[..off] && w'' == w' + data[off..off + n]
    ensures w'' == w + data[..off + n]
  {
    assert data[..off + n] == data[..off] + data[off..off + n];
  }

  lemma KeptFits(accepted: seq<byte>, frames: seq<Frame>, waiting: seq<byte>, gone: nat)
    requires Kept(accepted, frames, waiting, gone)
    ensures gone <= |waiting|
  {
  }
}
