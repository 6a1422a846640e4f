/**
 The change decoder inside the bulk read-back: events become run-length edges, with the last edge held back until
 the sample index moves on. A frame may end after any event, and the next one goes on from the cursor.
 */
module ChangeDecoder {
  import opened Bits
  import opened RunLength
  import opened ChangeStream
  import opened ReadbackFrames

  const INDEX_LIMIT := 0x8000_0000   // chg_pend_i is a signed 32-bit long

  // chg_k, chg_end, chg_base, chg_pre, chg_trunc
  datatype ChangeConfig = ChangeConfig(k: nat, end: nat, base: nat, pre: nat, trunc: nat)

  // Where the decoder stands: chg_hdr, chg_first, chg_done, chg_off, chg_n, chg_i, chg_t and the pending edge.
  datatype Cursor = Cursor(
    hdr: bool,
    first: bool,
    done: bool,
    off: nat,
    n: nat,
    i: nat,
    t: nat,
    pendI: int,
    pendW: nat)

  const START := Cursor(false, true, false, 0, 0, 0, 0, -1, 0)

  // A stream, and the samples it stands for.
  datatype Source = Source(base: nat, k: nat, stream: seq<byte>, laSrc: seq<nat>)
  {
    ghost predicate Sound() {
      |stream| >= 3 && k > 0 && laSrc == Samples(stream, base, k, |laSrc|) && 0 < |laSrc| < INDEX_LIMIT
    }
  }

  // The half-used buffer holds the next bytes of the stream.
  ghost predicate Buffered(cur: Cursor, chunk: seq<byte>, stream: seq<byte>) {
    && cur.i <= cur.n < CHUNK_SAMPLES && cur.n <= |chunk|
    && cur.i % 3 == 0 && cur.n % 3 == 0 && cur.off % 3 == 0
    && cur.off + (cur.n - cur.i) <= |stream|
    && chunk[cur.i..cur.n] == stream[cur.off..cur.off + (cur.n - cur.i)]
  }

  // m = off / 3 events are used; the last one is the pending edge, and the edges `all` encode every LA sample
  // before it.
  ghost predicate Decoded(cur: Cursor, src: Source, all: seq<Edge>, la: nat) {
    var m := cur.off / 3;
    && |src.stream| >= 3 && src.k > 0 && src.laSrc != []
    && 3 * m == cur.off && m <= Live(src.stream)
    && cur.first == (m == 0)
    && (m == 0 ==> cur.t == 0 && cur.pendI == -1 && la == 0)
    && (m > 0 ==> cur.t == Tick(src.stream, m - 1) && cur.pendW == Word(src.stream, m - 1)
                  && cur.pendI == la == FirstSample(cur.t, src.base, src.k) < |src.laSrc|)
    && Encodes(all, src.laSrc, 0, la)
  }

  // The stream has nothing more to say: the pending word holds to the last sample.
  ghost predicate Closing(cur: Cursor, src: Source, all: seq<Edge>) {
    && 0 <= cur.pendI < |src.laSrc|
    && Encodes(all, src.laSrc, 0, cur.pendI)
    && forall i :: cur.pendI <= i < |src.laSrc| ==> src.laSrc[i] == cur.pendW
  }

  lemma SamplesAre14Bit(mem: seq<byte>, base: nat, k: nat, total: nat)
    requires |mem| >= 3
    ensures forall i :: 0 <= i < total ==> Samples(mem, base, k, total)[i] < 16384
  {
    forall i | 0 <= i < total
      ensures Samples(mem, base, k, total)[i] < 16384
    {
      LastAtIs14Bit(mem, Live(mem), base + i * k);
    }
  }

  lemma {:induction false} LastAtIs14Bit(mem: seq<byte>, n: nat, x: nat)
    requires 0 < n && 3 * n <= |mem|
    ensures LastAt(mem, n, x) < 16384
  {
    if !(n == 1 || Tick(mem, n - 1) <= x) {
      LastAtIs14Bit(mem, n - 1, x);
    }
  }

  // ---- the buffer ----

  lemma BufferFilled(cur: Cursor, chunk: seq<byte>, stream: seq<byte>)
    requires cur.i == 0 && cur.n <= |chunk| && cur.n < CHUNK_SAMPLES && cur.n % 3 == 0 && cur.off % 3 == 0
    requires cur.off + cur.n <= |stream| && chunk[..cur.n] == stream[cur.off..cur.off + cur.n]
    ensures Buffered(cur, chunk, stream)
  {
    assert chunk[0..cur.n] == chunk[..cur.n];
  }

  function ChunkWord(chunk: seq<byte>, i: nat): nat
    requires i + 3 <= |chunk|
  {
    chunk[i] as int + 256 * (chunk[i + 1] as int) + 65536 * (chunk[i + 2] as int)
  }

  lemma BufferAdvance(cur: Cursor, chunk: seq<byte>, stream: seq<byte>)
    requires Buffered(cur, chunk, stream) && cur.i < cur.n
    ensures cur.i + 3 <= cur.n <= |chunk| && cur.off + 3 <= |stream|
    ensures Buffered(cur.(i := cur.i + 3, off := cur.off + 3), chunk, stream)
    ensures ChunkWord(chunk, cur.i) == Raw(stream, cur.off / 3)
  {
    var a, b := chunk[cur.i..cur.n], stream[cur.off..cur.off + (cur.n - cur.i)];
    assert a[0] == b[0] && a[1] == b[1] && a[2] == b[2];
    assert a[3..] == chunk[cur.i + 3..cur.n] && b[3..] == stream[cur.off + 3..cur.off + (cur.n - cur.i)];
    assert 3 * (cur.off / 3) == cur.off;
  }

  // ---- one event ----

  // What the next event says, given the cursor: the first one sits at tick 0, a later one adds its delta.
  lemma EventMeaning(cur: Cursor, src: Source, all: seq<Edge>, la: nat)
    requires Decoded(cur, src, all, la) && cur.off + 3 <= |src.stream|
    ensures var m := cur.off / 3; var e := Raw(src.stream, m);
            && 3 * m == cur.off
            && Word(src.stream, m) == e % 16384 && IsEnd(src.stream, m) == (!cur.first && e / 16384 == 0)
            && Tick(src.stream, m) == (if cur.first then cur.t else cur.t + e / 16384)
            && (!IsEnd(src.stream, m) ==> m < Live(src.stream))
            && (cur.first ==> cur.pendI < 0 && FirstSample(Tick(src.stream, m), src.base, src.k) == 0)
            && cur.first == (m == 0)
            && (cur.pendI >= 0 ==> cur.pendI == la && cur.pendW < 65536)
  {
    hide Encodes;
    var m := cur.off / 3;
    assert 3 * Live(src.stream) + 3 > |src.stream| || IsEnd(src.stream, Live(src.stream));
  }

  lemma Held(src: Source, m: nat, i: nat)
    requires src.Sound() && 0 < m <= Live(src.stream)
    requires FirstSample(Tick(src.stream, m - 1), src.base, src.k) <= i < |src.laSrc|
    requires m < Live(src.stream) ==> i < FirstSample(Tick(src.stream, m), src.base, src.k)
    ensures src.laSrc[i] == Word(src.stream, m - 1)
  {
    HeldBetween(src.stream, src.base, src.k, m, i);
  }

  lemma CloseAtEnd(cur: Cursor, src: Source, all: seq<Edge>, la: nat)
    requires Decoded(cur, src, all, la) && src.Sound()
    requires 3 * (cur.off / 3) + 3 > |src.stream| || IsEnd(src.stream, cur.off / 3)
    ensures Closing(cur, src, all) && cur.pendI == la
  {
    hide Encodes;
    var m := cur.off / 3;
    assert m == Live(src.stream) && m > 0;
    forall i | cur.pendI <= i < |src.laSrc|
      ensures src.laSrc[i] == cur.pendW
    {
      Held(src, m, i);
    }
  }

  lemma CloseBeyond(cur: Cursor, src: Source, all: seq<Edge>, la: nat)
    requires Decoded(cur, src, all, la) && src.Sound()
    requires 0 < cur.off / 3 < Live(src.stream)
    requires FirstSample(Tick(src.stream, cur.off / 3), src.base, src.k) >= |src.laSrc|
    ensures Closing(cur, src, all) && cur.pendI == la
  {
    hide Encodes;
    forall i | cur.pendI <= i < |src.laSrc|
      ensures src.laSrc[i] == cur.pendW
    {
      Held(src, cur.off / 3, i);
    }
  }

  lemma SettleRun(src: Source, all: seq<Edge>, m: nat)
    requires src.Sound() && src.k > 0 && 0 < m < Live(src.stream) && 3 * m + 3 <= |src.stream|
    requires var p, q := FirstSample(Tick(src.stream, m - 1), src.base, src.k),
        FirstSample(Tick(src.stream, m), src.base, src.k);
             p < q < |src.laSrc| && Encodes(all, src.laSrc, 0, p)
    ensures var p, q := FirstSample(Tick(src.stream, m - 1), src.base, src.k),
        FirstSample(Tick(src.stream, m), src.base, src.k);
            Encodes(Extended(all, p, Word(src.stream, m - 1)), src.laSrc, 0, q)
  {
    hide Encodes, Extended, Samples, FirstSample, Live, Tick;
    var p, q := FirstSample(Tick(src.stream, m - 1), src.base, src.k),
        FirstSample(Tick(src.stream, m), src.base, src.k);
    forall i | p <= i < q
      ensures src.laSrc[i] == Word(src.stream, m - 1)
    {
      Held(src, m, i);
    }
    ExtendEncodes(all, src.laSrc, 0, p, q, Word(src.stream, m - 1));
  }

  /** One event: the pending edge is settled when the sample index moves on, and the event takes its place. */
  lemma EventStep(cur: Cursor, cur': Cursor, src: Source, all: seq<Edge>, la: nat)
    requires Decoded(cur, src, all, la) && src.Sound()
    requires cur.off / 3 < Live(src.stream)
    requires cur'.off == cur.off + 3 && !cur'.first && cur'.t == Tick(src.stream, cur.off / 3)
    requires cur'.pendI == FirstSample(cur'.t, src.base, src.k) < |src.laSrc|
    requires cur'.pendW == Word(src.stream, cur.off / 3)
    ensures la <= cur'.pendI
    ensures cur.pendI < 0 ==> cur'.pendI == 0
    ensures cur.pendI >= 0 ==> cur.pendI == la
    ensures var all' := if cur.pendI >= 0 && cur.pendI != cur'.pendI then Extended(all, cur.pendI, cur.pendW) else all;
            Decoded(cur', src, all', cur'.pendI)
  {
    hide Encodes, Extended, Source.Sound, LiveFrom;
    var m := cur.off / 3;
    if m > 0 {
      FirstSampleMonotone(src.stream, src.base, src.k, m - 1, m);
      if cur.pendI != cur'.pendI {
        SettleRun(src, all, m);
      }
    }
  }

  // ---- one frame ----

  // A frame being written: the LA samples settled so far, the last word on the wire, the edges, the text length.
  datatype Draft = Draft(la: nat, last: int, edges: seq<Edge>, pos: nat)

  // What it is written from: the client already has the edges `before`, covering la0 samples; the text starts with
  // `hdr` characters and no edge may start past `limit` - 24.
  datatype Job = Job(src: Source, before: seq<Edge>, la0: nat, hdr: nat, limit: nat)

  ghost predicate Drafted(c: Cursor, d: Draft, j: Job) {
    && j.src.Sound()
    && (if c.done then Closing(c, j.src, j.before + d.edges) && c.pendI == d.la
        else Decoded(c, j.src, j.before + d.edges, d.la))
    && d.last == LastWord(j.before + d.edges)
    && j.la0 <= d.la < |j.src.laSrc|
    && (forall i :: 0 <= i < |d.edges| ==> j.la0 <= d.edges[i].index < d.la)
    && d.pos == j.hdr + EdgesChars(d.edges) && (d.edges != [] ==> d.pos <= j.limit)
    && (c.done ==> d.pos <= j.limit)
  }

  lemma DraftStart(c: Cursor, j: Job)
    requires !c.done && Decoded(c, j.src, j.before, j.la0) && j.la0 < |j.src.laSrc| && j.src.Sound()
    ensures Drafted(c, Draft(j.la0, LastWord(j.before), [], j.hdr), j)
  {
    hide Decoded, Closing, Source.Sound;
    assert j.before + [] == j.before;
  }

  lemma DraftEnd(was: Cursor, c: Cursor, d: Draft, j: Job)
    requires Drafted(was, d, j) && !was.done && d.pos <= j.limit
    requires c.done && c.pendI == was.pendI && c.pendW == was.pendW
    requires was.off % 3 == 0 && (was.off + 3 > |j.src.stream| || IsEnd(j.src.stream, was.off / 3))
    ensures Drafted(c, d, j)
  {
    hide Decoded, Encodes, Source.Sound;
    assert 3 * (was.off / 3) == was.off;
    CloseAtEnd(was, j.src, j.before + d.edges, d.la);
  }

  lemma DraftBeyond(was: Cursor, c: Cursor, d: Draft, j: Job)
    requires Drafted(was, d, j) && !was.done && d.pos <= j.limit && j.src.k > 0
    requires c.done && c.pendI == was.pendI && c.pendW == was.pendW
    requires was.off % 3 == 0 && was.off + 3 <= |j.src.stream| && !IsEnd(j.src.stream, was.off / 3)
    requires FirstSample(Tick(j.src.stream, was.off / 3), j.src.base, j.src.k) >= |j.src.laSrc|
    ensures Drafted(c, d, j)
  {
    hide Decoded, Encodes, Source.Sound;
    EventMeaning(was, j.src, j.before + d.edges, d.la);
    CloseBeyond(was, j.src, j.before + d.edges, d.la);
  }

  lemma DraftMeaning(was: Cursor, d: Draft, j: Job)
    requires Drafted(was, d, j) && !was.done && was.off % 3 == 0 && was.off + 3 <= |j.src.stream|
    ensures var m := was.off / 3; var e := Raw(j.src.stream, m);
            && j.src.k > 0 && Word(j.src.stream, m) == e % 16384
            && IsEnd(j.src.stream, m) == (!was.first && e / 16384 == 0)
            && Tick(j.src.stream, m) == (if was.first then was.t else was.t + e / 16384)
            && (was.pendI >= 0 ==> was.pendI == d.la)
  {
    hide Closing, Encodes;
    EventMeaning(was, j.src, j.before + d.edges, d.la);
  }

  // CHG_EMIT under its guard: an edge goes on the wire when it changes the word.
  function Emit(d: Draft, i: nat, w: nat): Draft {
    if d.last == w then d
    else Draft(d.la, w, d.edges + [Edge(i, w)], d.pos + EdgeChars(d.edges == [], i, w))
  }

  lemma EmitExtends(d: Draft, before: seq<Edge>, i: nat, w: nat)
    requires d.last == LastWord(before + d.edges) && i < 0x1_0000_0000 && w < 65536
    ensures var d' := Emit(d, i, w);
            && before + d'.edges == Extended(before + d.edges, i, w) && d'.last == LastWord(before + d'.edges)
            && d'.la == d.la && d.pos <= d'.pos <= d.pos + 19 && (d'.edges == [] ==> d'.pos == d.pos)
            && (d'.edges == d.edges || d'.edges == d.edges + [Edge(i, w)])
            && d'.pos - EdgesChars(d'.edges) == d.pos - EdgesChars(d.edges)
  {
    OneMoreEdge(d.edges, Edge(i, w));
    EdgeCharsFit(d.edges == [], i, w);
    assert before + (d.edges + [Edge(i, w)]) == before + d.edges + [Edge(i, w)];
  }

  lemma DraftStep(was: Cursor, c: Cursor, d: Draft, d': Draft, j: Job)
    requires Drafted(was, d, j) && !was.done && !c.done && d.pos + EDGE_RESERVE <= j.limit && j.src.k > 0
    requires was.off % 3 == 0 && was.off + 3 <= |j.src.stream| && !IsEnd(j.src.stream, was.off / 3)
    requires c.off == was.off + 3 && !c.first && c.t == Tick(j.src.stream, was.off / 3)
    requires c.pendI == FirstSample(c.t, j.src.base, j.src.k) < |j.src.laSrc|
    requires c.pendW == Word(j.src.stream, was.off / 3)
    requires d' == if was.pendI >= 0 && was.pendI != c.pendI then Emit(d, was.pendI, was.pendW).(la := c.pendI) else d
    ensures Drafted(c, d', j)
  {
    hide Decoded, Closing, Extended, Emit, Live, LiveFrom, EdgesChars, EdgeChars, Tick, FirstSample, Raw, Word;
    EventMeaning(was, j.src, j.before + d.edges, d.la);
    EventStep(was, c, j.src, j.before + d.edges, d.la);
    if was.pendI >= 0 && was.pendI != c.pendI {
      EmitExtends(d, j.before, was.pendI, was.pendW);
    }
  }

  // The body of the decoding loop: what one event does to the cursor and the frame. `c0` has moved past it already.
  method UseEvent(ghost was: Cursor, c0: Cursor, d0: Draft, e: nat, p: ChangeConfig, total: nat, ghost j: Job)
    returns (c: Cursor, d: Draft)
    requires Drafted(was, d0, j) && !was.done && d0.pos + EDGE_RESERVE <= j.limit
    requires p.k == j.src.k && p.base == j.src.base && total == |j.src.laSrc|
    requires was.off % 3 == 0 && was.off + 3 <= |j.src.stream| && e == Raw(j.src.stream, was.off / 3)
    requires c0 == was.(n := c0.n, i := c0.i, off := was.off + 3)
    ensures Drafted(c, d, j)
    ensures c.n == c0.n && c.i == c0.i && c.off == c0.off && c.hdr == c0.hdr
  {
    hide Decoded, Closing, Emit, Drafted, LastWord, Live, LiveFrom;
    var delta, w := e / 16384, e % 16384;
    c, d := c0, d0;
    DraftMeaning(was, d, j);
    if !c.first && delta == 0 {
      DraftEnd(was, c.(done := true), d, j);
      c := c.(done := true);
      return;
    }
    c := if c.first then c.(first := false) else c.(t := c.t + delta);
    var idx := FirstSample(c.t, p.base, p.k);
    if idx >= total {
      DraftBeyond(was, c.(done := true), d, j);
      c := c.(done := true);
      return;
    }
    if c.pendI >= 0 && c.pendI != idx {
      d := Emit(d, c.pendI, c.pendW).(la := idx);
    }
    c := c.(pendI := idx, pendW := w);
    DraftStep(was, c, d0, d, j);
  }

  lemma FlushCloses(c: Cursor, d: Draft, j: Job)
    requires Drafted(c, d, j) && c.done && |j.src.laSrc| < 0x1_0000_0000
    ensures c.pendI >= 0
    ensures var d' := Emit(d, c.pendI, c.pendW);
            && Encodes(j.before + d'.edges, j.src.laSrc, 0, |j.src.laSrc|)
            && d'.last == LastWord(j.before + d'.edges) && d.pos <= d'.pos <= d.pos + 19
            && d'.pos == j.hdr + EdgesChars(d'.edges)
            && (forall i :: 0 <= i < |d'.edges| ==> j.la0 <= d'.edges[i].index < |j.src.laSrc|)
  {
    hide Emit, Encodes, Extended;
    ExtendEncodes(j.before + d.edges, j.src.laSrc, 0, c.pendI, |j.src.laSrc|, c.pendW);
    assert c.pendW < 65536 by {
      SamplesAre14Bit(j.src.stream, j.src.base, j.src.k, |j.src.laSrc|);
      assert j.src.laSrc[c.pendI] == c.pendW;
    }
    EmitExtends(d, j.before, c.pendI, c.pendW);
  }

  lemma HeaderIsOut(c: Cursor, src: Source, all: seq<Edge>, la: nat)
    requires Decoded(c, src, all, la)
    ensures Decoded(c.(hdr := true), src, all, la) && Encodes(all, src.laSrc, 0, la)
  {
    hide Encodes;
  }

  // The end of bulk_pump_changes: the final flush when the stream is done, then the footer.
  method FinishFrame(head: Head, c0: Cursor, d0: Draft, adcSamples: nat, laTotal: nat, trigPresent: bool,
                     trigChars: nat, ghost j: Job, ghost client: Client, ghost avail: nat)
    returns (c: Cursor, d: Draft, f: Frame)
    requires client.Received() && client.Framed() && client.start == 0
    requires j.before == client.edges && j.src.laSrc == client.laSrc && j.la0 == client.upto - adcSamples
    requires laTotal == |client.laSrc| &&
        |client.denseSrc| == adcSamples <= client.upto < client.Total() < 0x1_0000_0000
    requires trigPresent ==> trigChars <= TRIGGER_MAX
    requires head == client.NextHead() && trigPresent == client.terms.trigger
    requires Drafted(c0, d0, j) && avail >= 200 && j.hdr <= 96
    requires j.limit == Min(CHUNK_BUF, avail) - (56 + (if trigPresent then 48 else 0) + 24)
    ensures f == Frame(head, false, [], d.edges, adcSamples + d.la, c.done && trigPresent, !c.done, f.chars)
    ensures f.chars <= avail && f.chars < CHUNK_BUF
    ensures j.hdr == HeadChars(head) + EDGES_OPEN ==> f.chars == FrameChars(f, adcSamples, trigChars)
    ensures !c.done ==> d.edges == d0.edges && d0.pos == j.hdr + EdgesChars(f.edges)
    ensures Follows(client, f) && client.Take(f).Received() && client.Take(f).Framed()
    ensures c == if c0.done then c0.(pendI := -1, hdr := true) else c0.(hdr := true)
    ensures if c.done then d.la == |client.laSrc|
            else d.la < |client.laSrc| && Decoded(c, j.src, client.Take(f).edges, d.la)
    ensures d.last == LastWord(client.Take(f).edges)
  {
    hide Closing, Decoded, Encodes, Emit, LastWord, Client.Received, Client.Framed, EdgesChars;
    NoEdges();
    c, d := c0, d0;
    if c.done {
      FlushCloses(c, d, j);
      d := if c.pendI >= 0 then Emit(d, c.pendI, c.pendW) else d;
      c, d := c.(pendI := -1), d.(la := laTotal);
    } else {
      HeaderIsOut(c, j.src, j.before + d.edges, d.la);
    }
    c := c.(hdr := true);
    DigitsOf32Bits(d.la);
    var chars := d.pos + UPTO_FIELD + Digits(d.la) + (if c.done && trigPresent then trigChars else 0) +
        MoreChars(c.done);
    f := Frame(head, false, [], d.edges, adcSamples + d.la, c.done && trigPresent, !c.done, chars);
    TakeEdges(client, f);
    TakeKeepsFraming(client, f);
  }
}
