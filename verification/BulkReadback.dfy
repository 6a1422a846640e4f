/**
 The paced bulk read-back of command_handler_capture.c: one record, pumped on every poll, that turns a finished
 capture into reply frames no larger than the free send buffer.

 How much buffer is free, whether a PSRAM read works, whether a send works and whether a stalled client has used
 up its time are all chosen freely at every step, so each contract holds for every schedule.
 */
module BulkReadback {
  import opened Bits
  import opened RunLength
  import opened ChangeStream
  import opened ReadbackFrames
  import opened RawFrames
  import opened ChangeDecoder
  import opened HeavyHold
  import opened Options

  // What a reply is set up with (bulk_begin and its variants) and keeps.
  datatype Config = Config(
    total: nat,
    is16: bool,
    fromPsram: bool,
    adcSamples: nat,
    rates: Rates,
    trigPresent: bool,
    trigChars: nat,
    b64: bool,
    changes: Option<ChangeConfig>)
  {
    // What the reply says about itself. Pre-trigger and truncation ride on the first frame of the LA region, and only
    // if no ADC frame came before it.
    function Terms(): ReadbackFrames.Terms {
      var told := changes.Some? && adcSamples == 0;
      ReadbackFrames.Terms(Ok(is16, rates.adc, rates.la, if told then changes.value.pre else 0,
                              if told then changes.value.trunc else 0), b64 && is16, trigPresent)
    }
  }

  // The whole record in one value, with what the client holds.
  datatype Snap = Snap(
    adcMem: seq<byte>,
    laMem: seq<byte>,
    ram: seq<nat>,
    active: bool,
    sent: nat,
    laLast: int,
    cfg: Config,
    cur: Cursor,
    chunk: seq<byte>,
    client: Client,
    chgFrames: nat)
  {
    ghost predicate Sound() {
      client.Received() && client.Framed() && (active ==> Running())
    }

    ghost predicate Running() {
      && Geometry(cfg, client, adcMem, laMem, ram)
      && sent == client.upto && laLast == LastWord(client.edges)
      && (cfg.changes == None || sent < cfg.adcSamples ==> (client.frames != [] ==> client.upto > client.start))
      && (cfg.changes.Some? ==> Decoding())
    }

    ghost function Src(): Source
      requires cfg.changes.Some? && cfg.changes.value.end <= |laMem|
    {
      Source(cfg.changes.value.base, cfg.changes.value.k, laMem[..cfg.changes.value.end], client.laSrc)
    }

    ghost predicate Decoding()
      requires cfg.changes.Some?
    {
      && cfg.changes.value.end <= |laMem|
      && Buffered(cur, chunk, Src().stream)
      && cur.done == (sent == cfg.total)
      && (sent < cfg.adcSamples ==> cur.off == 0)
      && (cur.hdr <==> cfg.adcSamples > 0 || client.frames != [])
      && (!cur.done ==> Decoded(cur, Src(), client.edges, MonusTo(sent, cfg.adcSamples)))
      // a change frame that is not the first uses up at least one event
      && chgFrames <= cur.off / 3 + (if cur.done then 2 else if cur.hdr then 1 else 0)
    }
  }

  ghost predicate Geometry(cfg: Config, c: Client, adcMem: seq<byte>, laMem: seq<byte>, ram: seq<nat>) {
    && 0 < cfg.total == c.Total() < 0x1_0000_0000 && c.terms == cfg.Terms()
    && Is16Bit(c.denseSrc) && Is16Bit(c.laSrc)
    && cfg.rates.adc < 0x1_0000_0000 && cfg.rates.la < 0x1_0000_0000
    && (cfg.trigPresent ==> cfg.trigChars <= TRIGGER_MAX)
    && cfg.adcSamples <= cfg.total
    && if !cfg.fromPsram then
         cfg.changes == None && cfg.adcSamples == 0 && c.laSrc == [] && cfg.total <= |ram| &&
           c.denseSrc == ram[..cfg.total]
       else
         && cfg.is16 && (cfg.adcSamples == 0 ==> cfg.rates.adc == 0)
         && 2 * cfg.adcSamples <= |adcMem| && c.denseSrc == Words16(adcMem, cfg.adcSamples)
         && match cfg.changes
            case None => 2 * (cfg.total - cfg.adcSamples) <= |laMem| &&
              c.laSrc == Words16(laMem, cfg.total - cfg.adcSamples)
            case Some(p) =>
              && p.end <= |laMem| && Source(p.base, p.k, laMem[..p.end], c.laSrc).Sound() && c.start == 0
              && p.pre < 0x1_0000_0000 && (p.pre > 0 ==> p.trunc == 0)
  }

  // ---- starting ----

  lemma RawStart(s: Snap, start: nat)
    requires s.active && s.sent == start && s.laLast == -1 && s.cfg.fromPsram && s.cfg.is16 && s.cfg.changes == None
    requires start < s.cfg.total < 0x1_0000_0000 && s.cfg.adcSamples <= s.cfg.total
    requires 2 * s.cfg.adcSamples <= |s.adcMem| && 2 * (s.cfg.total - s.cfg.adcSamples) <= |s.laMem|
    requires s.cfg.rates.adc < 0x1_0000_0000 && s.cfg.rates.la < 0x1_0000_0000
    requires s.cfg.adcSamples == 0 ==> s.cfg.rates.adc == 0
    requires s.cfg.trigPresent ==> s.cfg.trigChars <= TRIGGER_MAX
    requires s.client == Fresh(Words16(s.adcMem, s.cfg.adcSamples),
        Words16(s.laMem, s.cfg.total - s.cfg.adcSamples), s.cfg.Terms(), start)
    ensures s.Sound()
  {
    hide Words16;
    FreshReceives(s.client.denseSrc, s.client.laSrc, s.cfg.Terms(), start);
    Words16Are16Bit(s.adcMem, s.cfg.adcSamples);
    Words16Are16Bit(s.laMem, s.cfg.total - s.cfg.adcSamples);
  }

  lemma RamStart(s: Snap)
    requires s.active && s.sent == 0 && s.laLast == -1
    requires s.cfg == Config(s.cfg.total, s.cfg.is16, false, 0, Rates(0, 0), s.cfg.trigPresent,
        s.cfg.trigChars, s.cfg.b64, None)
    requires 0 < s.cfg.total <= |s.ram| && s.cfg.total < 0x1_0000_0000 && Is16Bit(s.ram)
    requires s.cfg.trigPresent ==> s.cfg.trigChars <= TRIGGER_MAX
    requires s.client == Fresh(s.ram[..s.cfg.total], [], s.cfg.Terms(), 0)
    ensures s.Sound()
  {
    FreshReceives(s.ram[..s.cfg.total], [], s.cfg.Terms(), 0);
  }

  lemma ChangesStart(s: Snap, p: ChangeConfig)
    requires s.active && s.sent == 0 && s.laLast == -1 && s.cfg.fromPsram && s.cfg.is16 && s.cfg.changes == Some(p)
    requires s.cfg.adcSamples < s.cfg.total < 0x1_0000_0000 && 2 * s.cfg.adcSamples <= |s.adcMem|
    requires s.cfg.total - s.cfg.adcSamples < INDEX_LIMIT
    requires p.k > 0 && 3 <= p.end <= |s.laMem| && p.pre < 0x1_0000_0000 && (p.pre > 0 ==> p.trunc == 0)
    requires s.cfg.rates.adc < 0x1_0000_0000 && s.cfg.rates.la < 0x1_0000_0000
    requires s.cfg.adcSamples == 0 ==> s.cfg.rates.adc == 0
    requires s.cfg.trigPresent ==> s.cfg.trigChars <= TRIGGER_MAX
    requires s.client == Fresh(Words16(s.adcMem, s.cfg.adcSamples),
                               Samples(s.laMem[..p.end], p.base, p.k, s.cfg.total - s.cfg.adcSamples),
                               s.cfg.Terms(), 0)
    requires s.cur == START.(hdr := s.cfg.adcSamples > 0) && s.chgFrames == 0 && |s.chunk| == CHUNK_SAMPLES
    ensures s.Sound()
  {
    hide Words16;
    var n := s.cfg.total - s.cfg.adcSamples;
    FreshReceives(s.client.denseSrc, s.client.laSrc, s.cfg.Terms(), 0);
    Words16Are16Bit(s.adcMem, s.cfg.adcSamples);
    SamplesAre14Bit(s.laMem[..p.end], p.base, p.k, n);
    assert s.client.laSrc == Samples(s.laMem[..p.end], p.base, p.k, |s.client.laSrc|);
  }

  lemma NothingYet(c: Client)
    requires c.Received() && c.Framed()
    ensures c.start <= c.upto && (c.frames == [] ==> c.upto == c.start)
  {
  }

  // ---- opening and closing the invariant around one frame ----

  lemma OpenChanges(s: Snap)
    requires s.Sound() && s.active && s.cfg.changes.Some? && s.cfg.adcSamples <= s.sent < s.cfg.total
    ensures s.client.Received() && s.client.Framed() && s.client.start == 0 && s.sent == s.client.upto
    ensures |s.client.denseSrc| == s.cfg.adcSamples && |s.client.laSrc| == s.cfg.total - s.cfg.adcSamples
    ensures s.client.Total() == s.cfg.total < 0x1_0000_0000 && s.cfg.rates.la < 0x1_0000_0000
    ensures s.cfg.trigPresent ==> s.cfg.trigChars <= TRIGGER_MAX
    ensures var p := s.cfg.changes.value;
            p.end <= |s.laMem| && p.pre < 0x1_0000_0000 && (p.pre > 0 ==> p.trunc == 0) && s.Src().Sound()
    ensures Buffered(s.cur, s.chunk, s.Src().stream) && !s.cur.done
    ensures Decoded(s.cur, s.Src(), s.client.edges, s.sent - s.cfg.adcSamples) && s.laLast == LastWord(s.client.edges)
    ensures s.client.terms.trigger == s.cfg.trigPresent
    ensures s.client.NextHead() ==
            if s.cur.hdr then Chunk else Ok(true, 0, s.cfg.rates.la, s.cfg.changes.value.pre, s.cfg.changes.value.trunc)
  {
    NothingYet(s.client);
    hide Client.Received, Client.Framed, Buffered, Decoded, Source.Sound;
  }

  lemma CloseChanges(s: Snap, t: Snap, f: Frame)
    requires s.Sound() && s.active && s.cfg.changes.Some? && s.cfg.adcSamples <= s.sent < s.cfg.total
    requires t == s.(sent := t.sent, laLast := t.laLast, cur := t.cur, chunk := t.chunk, client := s.client.Take(f),
                     chgFrames := s.chgFrames + 1)
    requires t.client.Received() && t.client.Framed()
    requires s.cfg.adcSamples <= t.sent == f.upto <= s.cfg.total && t.laLast == LastWord(t.client.edges)
    requires s.cfg.changes.value.end <= |s.laMem| && Buffered(t.cur, t.chunk, s.Src().stream)
    requires t.cur.hdr && t.cur.off / 3 >= s.cur.off / 3 && (t.cur.done || !s.cur.hdr || t.cur.off / 3 > s.cur.off / 3)
    requires t.cur.done == (t.sent == s.cfg.total)
    requires !t.cur.done ==> Decoded(t.cur, s.Src(), t.client.edges, t.sent - s.cfg.adcSamples)
    ensures t.Sound()
  {
    hide Client.Received, Client.Framed, Buffered, Decoded, Source.Sound;
    assert t.Src() == s.Src();
  }

  lemma OpenLa(s: Snap)
    requires s.Sound() && s.active && s.cfg.changes == None && s.cfg.fromPsram &&
        s.cfg.adcSamples <= s.sent < s.cfg.total
    ensures s.client.Received() && s.client.Framed() && s.sent == s.client.upto && s.laLast == LastWord(s.client.edges)
    ensures |s.client.denseSrc| == s.cfg.adcSamples && s.client.Total() == s.cfg.total < 0x1_0000_0000
    ensures 2 * (s.cfg.total - s.cfg.adcSamples) <= |s.laMem|
    ensures s.client.laSrc == Words16(s.laMem, s.cfg.total - s.cfg.adcSamples) && Is16Bit(s.client.laSrc)
    ensures s.cfg.rates.la < 0x1_0000_0000 && (s.sent == 0 ==> s.cfg.rates.adc == 0)
    ensures s.cfg.trigPresent ==> s.cfg.trigChars <= TRIGGER_MAX
    ensures s.client.terms.trigger == s.cfg.trigPresent && s.client.NextHead() == RawHead(s.sent, true, s.cfg.rates)
  {
    NothingYet(s.client);
    hide Client.Received, Client.Framed, Words16, Is16Bit;
  }

  lemma OpenDense(s: Snap)
    requires s.Sound() && s.active && s.sent < s.cfg.total && (s.cfg.fromPsram ==> s.sent < s.cfg.adcSamples)
    ensures s.client.Received() && s.client.Framed() && s.sent == s.client.upto && s.laLast == LastWord(s.client.edges)
    ensures s.client.Total() == s.cfg.total < 0x1_0000_0000 && Is16Bit(s.client.denseSrc)
    ensures s.cfg.rates.adc < 0x1_0000_0000 && s.cfg.rates.la < 0x1_0000_0000
    ensures (s.cfg.trigPresent ==> s.cfg.trigChars <= TRIGGER_MAX) && (s.cfg.changes.Some? ==> s.cfg.fromPsram)
    ensures s.client.terms.trigger == s.cfg.trigPresent && s.client.terms.b64 == (s.cfg.b64 && s.cfg.is16)
    ensures s.client.NextHead() == RawHead(s.sent, s.cfg.is16, s.cfg.rates)
    ensures if s.cfg.fromPsram then
              |s.client.denseSrc| == s.cfg.adcSamples && s.cfg.is16 && 2 * s.cfg.adcSamples <= |s.adcMem|
              && s.client.denseSrc == Words16(s.adcMem, s.cfg.adcSamples)
            else
              |s.client.denseSrc| == s.cfg.total <= |s.ram| && s.client.denseSrc == s.ram[..s.cfg.total]
  {
    NothingYet(s.client);
    hide Client.Received, Client.Framed, Words16, Is16Bit;
  }

  lemma CloseRaw(s: Snap, t: Snap, f: Frame)
    requires s.Sound() && s.active && s.sent < s.cfg.total
    requires s.cfg.changes.Some? ==> s.sent < s.cfg.adcSamples && f.upto <= s.cfg.adcSamples && f.edges == []
    requires t == s.(sent := f.upto, laLast := t.laLast, client := s.client.Take(f)) && f.upto > s.sent
    requires t.client.Received() && t.client.Framed() && t.laLast == LastWord(t.client.edges)
    ensures t.Sound()
  {
    hide Client.Received, Client.Framed, Decoded, Buffered, Samples, Words16, Is16Bit, Config.Terms, LastWord,
        Snap.Decoding;
    NothingYet(s.client);
    NothingYet(t.client);
    assert f.edges == [] ==> t.client.edges == s.client.edges;
    if s.cfg.changes.Some? { StillDecoding(s, t, f); }
  }

  // Dense frames leave the decoder where it is.
  lemma StillDecoding(s: Snap, t: Snap, f: Frame)
    requires s.cfg.changes.Some? && s.Decoding() && s.cfg.adcSamples > 0
    requires s.sent < s.cfg.adcSamples && f.upto <= s.cfg.adcSamples < s.cfg.total && f.edges == []
    requires t == s.(sent := f.upto, laLast := t.laLast, client := s.client.Take(f))
    ensures t.Decoding()
  {
    hide Decoded, Buffered;
    assert t.client.edges == s.client.edges && t.Src() == s.Src();
  }

  lemma Dropped(s: Snap, t: Snap)
    requires s.Sound() && !t.active && t.client == s.client
    ensures t.Sound()
  {
  }

  lemma OpenRunning(s: Snap)
    requires s.Sound() && s.active
    ensures s.sent == s.client.upto <= s.cfg.total == s.client.Total()
    ensures s.cfg.changes.Some? ==> s.cfg.fromPsram && s.cur.off / 3 <= s.cfg.changes.value.end / 3
    ensures s.cfg.fromPsram ==> s.cfg.is16
    ensures s.cfg.changes.Some? ==> s.chgFrames <= s.cfg.changes.value.end / 3 + 2
  {
    hide Client.Framed, Decoded, Samples, Words16, Is16Bit, Encodes;
  }

  /** A change read-back needs no more frames than the stream has events, plus the header and the closing one. */
  lemma ChangeFramesBounded(s: Snap)
    requires s.Sound() && s.active && s.cfg.changes.Some?
    ensures s.chgFrames <= s.cfg.changes.value.end / 3 + 2
  {
    hide Client.Received, Client.Framed, Decoded, Samples, Words16, Is16Bit, Encodes;
  }

  // The same reply, further along.
  ghost predicate Continues(c: Client, c': Client) {
    && c'.denseSrc == c.denseSrc && c'.laSrc == c.laSrc && c'.start == c.start && c'.terms == c.terms
    && c.upto <= c'.upto && c.frames <= c'.frames && c.dense <= c'.dense && c.edges <= c'.edges
  }

  lemma TakeContinues(c: Client, f: Frame)
    requires Follows(c, f)
    ensures Continues(c, c.Take(f))
  {
  }

  /** What a complete reply means: the dense samples are all there, and run-length decoding gives every LA sample. */
  lemma CompleteIsWhole(c: Client)
    requires c.Received() && c.start == 0 && c.upto == c.Total()
    ensures c.dense == c.denseSrc
    ensures forall i :: 0 <= i < |c.laSrc| ==> ValueAt(c.edges, i) == c.laSrc[i]
  {
  }

  // What a complete reply says about itself: the head opens it, the trigger field closes it, and there is no other.
  ghost predicate SaysOnce(c: Client) {
    && c.frames != [] && c.frames[0].head == c.terms.head
    && (forall i :: 0 < i < |c.frames| ==> c.frames[i].head == Chunk)
    && (forall i :: 0 <= i < |c.frames| ==> (c.frames[i].trigger <==> c.terms.trigger && i == |c.frames| - 1))
    && (forall i :: 0 <= i < |c.frames| ==> (c.frames[i].more <==> i < |c.frames| - 1))
  }

  lemma CompleteIsTold(c: Client)
    requires c.Framed() && c.start == 0 && c.upto == c.Total() > 0
    ensures SaysOnce(c)
  {
  }

  /** The reason a capture was cut short for is told exactly when no ADC samples come first: a unified capture's ADC
      frames have no field for it, and its LA frames no head. */
  lemma CutIsToldWhen(cfg: Config)
    requires cfg.changes.Some?
    ensures cfg.Terms().head.trunc == cfg.changes.value.trunc <==> cfg.changes.value.trunc == 0 || cfg.adcSamples == 0
  {
  }

  /** The schedule leaves no trace: two read-backs of the same reply that got equally far delivered the same. */
  lemma ScheduleIndependent(a: Client, b: Client)
    requires a.Received() && b.Received()
    requires a.denseSrc == b.denseSrc && a.laSrc == b.laSrc && a.start == b.start && a.upto == b.upto
    ensures a.dense == b.dense && a.edges == b.edges
  {
    EncodingUnique(a.edges, b.edges, a.laSrc, MonusTo(a.start, |a.denseSrc|), MonusTo(a.upto, |a.denseSrc|));
  }

  /** A lost read-back resumed where it stopped: prefix and tail together are the whole capture. */
  lemma ResumeJoins(a: Client, b: Client)
    requires a.Received() && b.Received() && a.denseSrc == b.denseSrc && a.laSrc == b.laSrc
    requires a.start == 0 && b.start == a.upto && b.upto == b.Total()
    ensures a.dense + b.dense == a.denseSrc
    ensures forall i :: 0 <= i < |a.laSrc| ==> ValueAt(a.edges + b.edges, i) == a.laSrc[i]
  {
    JoinDecodes(a.edges, b.edges, a.laSrc, 0, MonusTo(a.upto, |a.denseSrc|), |a.laSrc|);
  }

  // Where no edge of a change frame may start any more: footer, trigger and the final flush come behind.
  function ChangeLimit(avail: nat, trigPresent: bool): int {
    Min(CHUNK_BUF, avail) - (56 + (if trigPresent then 48 else 0) + 24)
  }

  // Enough for one frame of any kind.
  const AMPLE := 217

  datatype Step = Sent | NoRoom | Lost

  datatype Outcome = Paused | Complete | Ended

  // What connection and memory grant: nothing in particular; that every read and send works, the first offer of a poll
  // is ample and a poll is shorter than the stall timeout; or that every offer is ample too.
  datatype Luck = Arbitrary | Steady | Smooth

  class Bulk {
    // the memories a reply can come from
    var adcMem: seq<byte>
    var laMem: seq<byte>
    var ram: seq<nat>

    var active: bool
    var sent: nat
    var laLast: int
    var cfg: Config
    var cur: Cursor
    const chunk: array<byte>      // psram_chunk: events read but not used yet survive from poll to poll

    var conn: int
    const grip: Grip              // the gate and the bus this reply holds
    const luck: Luck

    ghost var client: Client
    ghost var chgFrames: nat      // change frames sent
    ghost var fetched: nat          // LA buffers read

    constructor (grip: Grip, luck: Luck)
      ensures !active && fresh(chunk) && chunk.Length == CHUNK_SAMPLES && this.grip == grip && this.luck == luck
    {
      active, this.grip, this.luck := false, grip, luck;
      chunk := new byte[CHUNK_SAMPLES](_ => 0);
    }

    ghost function View(): Snap
      reads this, chunk
    {
      Snap(adcMem, laMem, ram, active, sent, laLast, cfg, cur, chunk[..], client, chgFrames)
    }

    ghost predicate Valid()
      reads this, chunk
    {
      chunk.Length == CHUNK_SAMPLES && View().Sound()
    }

    // ---- starting a reply ----

    // bulk_begin: a reply from the RAM pool.
    method Begin(total: nat, wide: bool, b64: bool, trigger: bool, triggerChars: nat)
      requires chunk.Length == CHUNK_SAMPLES
      requires 0 < total <= |ram| && total < 0x1_0000_0000 && Is16Bit(ram)
      requires trigger ==> triggerChars <= TRIGGER_MAX
      modifies `active, `sent, `laLast, `cfg, `client
      ensures Valid() && active && sent == 0
      ensures cfg == Config(total, wide, false, 0, Rates(0, 0), trigger, triggerChars, b64, None)
      ensures client == Fresh(ram[..total], [], cfg.Terms(), 0)
    {
      hide Snap.Sound, Is16Bit;
      active, sent, laLast := true, 0, -1;
      cfg := Config(total, wide, false, 0, Rates(0, 0), trigger, triggerChars, b64, None);
      client := Fresh(ram[..total], [], cfg.Terms(), 0);
      RamStart(View());
    }

    // bulk_begin_capture16: a fresh raw capture, ADC samples then LA words.
    method BeginCapture16(adcN: nat, laN: nat, rates: Rates, b64: bool, trigger: bool, triggerChars: nat)
      requires chunk.Length == CHUNK_SAMPLES
      requires 0 < adcN + laN < 0x1_0000_0000 && 2 * adcN <= |adcMem| && 2 * laN <= |laMem|
      requires rates.adc < 0x1_0000_0000 && rates.la < 0x1_0000_0000 && (adcN == 0 ==> rates.adc == 0)
      requires trigger ==> triggerChars <= TRIGGER_MAX
      modifies `active, `sent, `laLast, `cfg, `client
      ensures Valid() && active && sent == 0
      ensures cfg == Config(adcN + laN, true, true, adcN, rates, trigger, triggerChars, b64, None)
      ensures client == Fresh(Words16(adcMem, adcN), Words16(laMem, laN), cfg.Terms(), 0)
    {
      hide Snap.Sound, Words16, Words16At;
      active, sent, laLast := true, 0, -1;
      cfg := Config(adcN + laN, true, true, adcN, rates, trigger, triggerChars, b64, None);
      client := Fresh(Words16(adcMem, adcN), Words16(laMem, laN), cfg.Terms(), 0);
      RawStart(View(), 0);
    }

    // bulk_begin_capture16_resume: the same memory again, from any offset of the same capture.
    method BeginResume(adcN: nat, laN: nat, rates: Rates, offset: nat, b64: bool)
      requires chunk.Length == CHUNK_SAMPLES
      requires 0 < adcN + laN < 0x1_0000_0000 && 2 * adcN <= |adcMem| && 2 * laN <= |laMem|
      requires rates.adc < 0x1_0000_0000 && rates.la < 0x1_0000_0000 && (adcN == 0 ==> rates.adc == 0)
      requires offset < adcN + laN
      modifies `active, `sent, `laLast, `cfg, `client
      ensures Valid() && active && sent == offset
      ensures cfg == Config(adcN + laN, true, true, adcN, rates, false, 0, b64, None)
      ensures client == Fresh(Words16(adcMem, adcN), Words16(laMem, laN), cfg.Terms(), offset)
    {
      hide Snap.Sound, Words16, Words16At;
      active, sent, laLast := true, offset, -1;
      cfg := Config(adcN + laN, true, true, adcN, rates, false, 0, b64, None);
      client := Fresh(Words16(adcMem, adcN), Words16(laMem, laN), cfg.Terms(), offset);
      RawStart(View(), offset);
    }

    // bulk_begin_la_changes: `samples` point samples decoded from the first `p.end` bytes of the LA region.
    method BeginLaChanges(adcN: nat, samples: nat, p: ChangeConfig, rates: Rates, b64: bool,
                          trigger: bool, triggerChars: nat)
      requires chunk.Length == CHUNK_SAMPLES
      requires 0 < samples < INDEX_LIMIT && adcN + samples < 0x1_0000_0000 && 2 * adcN <= |adcMem|
      requires p.k > 0 && 3 <= p.end <= |laMem|
      requires rates.adc < 0x1_0000_0000 && rates.la < 0x1_0000_0000 && (adcN == 0 ==> rates.adc == 0)
      requires p.pre < 0x1_0000_0000 && (p.pre > 0 ==> p.trunc == 0)
      requires trigger ==> triggerChars <= TRIGGER_MAX
      modifies `active, `sent, `laLast, `cfg, `cur, `client, `chgFrames
      ensures Valid() && active && sent == 0 && chgFrames == 0
      ensures cfg == Config(adcN + samples, true, true, adcN, rates, trigger, triggerChars, b64, Some(p))
      ensures client == Fresh(Words16(adcMem, adcN), Samples(laMem[..p.end], p.base, p.k, samples), cfg.Terms(), 0)
    {
      hide Snap.Sound, Words16, Words16At, Samples;
      active, sent, laLast, chgFrames := true, 0, -1, 0;
      cfg := Config(adcN + samples, true, true, adcN, rates, trigger, triggerChars, b64, Some(p));
      cur := START.(hdr := adcN > 0);
      client := Fresh(Words16(adcMem, adcN), Samples(laMem[..p.end], p.base, p.k, samples), cfg.Terms(), 0);
      ChangesStart(View(), p);
    }

    // ---- one frame ----

    // A PSRAM read or a send.
    method Works() returns (ok: bool)
      ensures luck != Arbitrary ==> ok
    {
      ok := *;
      if luck != Arbitrary { ok := true; }
    }

    // at_send_avail; `first`: the first time in this poll
    method Offer(first: bool) returns (avail: nat)
      ensures luck == Smooth || (luck == Steady && first) ==> avail >= AMPLE
    {
      avail := *;
      if (luck == Smooth || (luck == Steady && first)) && avail < AMPLE { avail := AMPLE; }
    }

    // fpga_la_psram_read: fills the buffer, or fails.
    method LaPsramRead(off: nat, n: nat) returns (ok: bool)
      requires n <= chunk.Length && off + n <= |laMem|
      modifies `fetched, chunk
      ensures fetched == old(fetched) + 1
      ensures ok ==> chunk[..n] == laMem[off..off + n]
      ensures luck != Arbitrary ==> ok
    {
      fetched := fetched + 1;
      ok := Works();
      if ok {
        forall i | 0 <= i < n {
          chunk[i] := laMem[off + i];
        }
      }
    }

    // fpga_capture_psram_read16: n words from sample `index`, which must not straddle the two regions; or a failure.
    method PsramRead16(index: nat, n: nat) returns (ok: bool, words: seq<nat>)
      requires if index < cfg.adcSamples then index + n <= cfg.adcSamples && 2 * (index + n) <= |adcMem|
               else 2 * (index - cfg.adcSamples + n) <= |laMem|
      ensures ok ==> words == if index < cfg.adcSamples then Words16At(adcMem, index, n)
                              else Words16At(laMem, index - cfg.adcSamples, n)
      ensures luck != Arbitrary ==> ok
    {
      ok := Works();
      words := if index < cfg.adcSamples then Words16At(adcMem, index, n) else
        Words16At(laMem, index - cfg.adcSamples, n);
    }

    // at_send_data: the one place where a client gets a frame, and what a lost send does: the connection is dropped.
    method Send(ghost f: Frame) returns (ok: bool)
      modifies `client, grip
      ensures client == if ok then old(client).Take(f) else old(client)
      ensures luck != Arbitrary ==> ok
      ensures grip.hold == if ok then old(grip.hold) else Left(old(grip.hold), conn, cfg.fromPsram)
    {
      ok := Works();
      if ok {
        client := client.Take(f);
      } else {
        if cfg.fromPsram { grip.BusRelease(); }
        grip.HeavyRelease(conn);
      }
    }

    // The same in the two LA branches, which release without asking.
    method SendLa(ghost f: Frame) returns (ok: bool)
      modifies `client, `chgFrames, grip
      ensures client == if ok then old(client).Take(f) else old(client)
      ensures chgFrames == old(chgFrames) + if ok && cfg.changes.Some? then 1 else 0
      ensures luck != Arbitrary ==> ok
      ensures grip.hold == if ok then old(grip.hold) else Left(old(grip.hold), conn, true)
    {
      ok := Works();
      if ok {
        client := client.Take(f);
        if cfg.changes.Some? { chgFrames := chgFrames + 1; }
      } else {
        grip.BusRelease();
        grip.HeavyRelease(conn);
      }
    }

    // A failed PSRAM read: the client gets an error and keeps its connection.
    method ReadFailed()
      modifies grip
      ensures grip.hold == Left(old(grip.hold), conn, true)
    {
      grip.BusRelease();
      grip.HeavyRelease(conn);
    }

    // The record is idle again.
    method Drop(ghost s: Snap)
      requires s.Sound() && s.client == client && chunk.Length == CHUNK_SAMPLES
      modifies `active
      ensures Valid() && !active
    {
      hide Snap.Sound;
      active := false;
      Dropped(s, View());
    }

    // The next event of the stream: from the buffer, or from PSRAM when the buffer is used up (at most 8 reads a
    // frame, 85 events each).
    method FetchEvent(c: Cursor, refills: nat, stream: seq<byte>) returns (r: Fetch, c': Cursor, refills': nat)
      requires chunk.Length == CHUNK_SAMPLES && Buffered(c, chunk[..], stream) && stream <= laMem
      modifies `fetched, chunk
      ensures !r.Failed? ==> fetched == old(fetched) + refills' - refills
      ensures r.Pause? ==> refills == refills' == 8
      ensures Buffered(c', chunk[..], stream)
      ensures refills <= refills'
      ensures r.Event? ==> c'.off == c.off + 3 <= |stream| && c.off % 3 == 0 && r.e == Raw(stream, c.off / 3)
                           && c' == c.(n := c'.n, i := c'.i, off := c'.off)
      ensures r.Exhausted? ==> c' == c && c.off + 3 > |stream| && c.off % 3 == 0
      ensures r.Pause? ==> c' == c && refills > 0
      ensures luck != Arbitrary ==> !r.Failed?
    {
      hide Raw;
      c', refills' := c, refills;
      if c'.i >= c'.n {
        if refills == 8 { return Pause, c', refills'; }
        if |stream| - c'.off < 3 { return Exhausted, c', refills'; }
        var ok;
        ok, c' := Refill(c', stream);
        if !ok { return Failed, c', refills'; }
        refills' := refills + 1;
      }
      hide Buffered;
      BufferAdvance(c', chunk[..], stream);
      r := Event(ChunkWord(chunk[..], c'.i));
      c' := c'.(i := c'.i + 3, off := c'.off + 3);
    }

    // The next up to 85 events into the buffer.
    method Refill(c: Cursor, stream: seq<byte>) returns (ok: bool, c': Cursor)
      requires chunk.Length == CHUNK_SAMPLES && Buffered(c, chunk[..], stream) && stream <= laMem
      requires c.i >= c.n && |stream| - c.off >= 3
      modifies `fetched, chunk
      ensures fetched == old(fetched) + 1 && Buffered(c', chunk[..], stream) && (luck != Arbitrary ==> ok)
      ensures c' == c.(n := c'.n, i := 0) && (ok ==> c'.n > 0)
    {
      var n := Min(|stream| - c.off, 255);
      n := n - n % 3;
      ok := LaPsramRead(c.off, n);
      c' := c.(n := if ok then n else 0, i := 0);
      BufferFilled(c', chunk[..], stream);
    }

    // The decoding loop of bulk_pump_changes: events until the frame is full, the work bound is reached, or the
    // stream ends.
    method DecodeEvents(p: ChangeConfig, total: nat, ghost j: Job, limit: nat, hdr: nat)
      returns (ok: bool, c: Cursor, d: Draft)
      requires chunk.Length == CHUNK_SAMPLES && p.end <= |laMem|
      requires j.src == Source(p.base, p.k, laMem[..p.end], j.src.laSrc) && j.src.Sound() && total == |j.src.laSrc|
      requires Buffered(cur, chunk[..], j.src.stream)
      requires Decoded(cur, j.src, j.before, j.la0) && !cur.done && laLast == LastWord(j.before) && j.la0 < total
      requires j.la0 + cfg.adcSamples == sent && limit == j.limit && hdr == j.hdr
      modifies `fetched, chunk, grip
      ensures ok ==> c.done || d.pos + EDGE_RESERVE > limit || fetched == old(fetched) + 8
      ensures ok ==> grip.hold == old(grip.hold)
      ensures !ok ==> luck == Arbitrary && grip.hold == Left(old(grip.hold), conn, true)
      ensures ok ==> Buffered(c, chunk[..], j.src.stream) && Drafted(c, d, j)
      ensures ok && hdr + EDGE_RESERVE <= limit ==> c.done || c.off / 3 > cur.off / 3
      ensures ok ==> c.off / 3 >= cur.off / 3 && c.hdr == cur.hdr
    {
      hide Decoded, Drafted, Source.Sound, Buffered, Left;
      var stream, refills := laMem[..p.end], 0;
      ok, c, d := true, cur, Draft(sent - cfg.adcSamples, laLast, [], hdr);
      DraftStart(c, j);
      while !c.done && d.pos + EDGE_RESERVE <= limit
        invariant Buffered(c, chunk[..], stream) && Drafted(c, d, j)
        invariant c.off / 3 >= cur.off / 3 && c.hdr == cur.hdr && ok && grip.hold == old(grip.hold)
        invariant fetched == old(fetched) + refills
        invariant c.done || c.off / 3 > cur.off / 3 || (refills == 0 && d.pos == hdr)
        decreases |stream| - c.off, if c.done then 0 else 1
      {
        ghost var was := c;
        var r;
        r, c, refills := FetchEvent(c, refills, stream);
        match r {
          case Failed =>
            ok := false;
            ReadFailed();
            return;
          case Pause =>
            break;
          case Exhausted =>
            DraftEnd(was, c.(done := true), d, j);
            BufferIgnoresDone(c, chunk[..], stream);
            c := c.(done := true);
            break;
          case Event(e) =>
            ghost var moved := c;
            c, d := UseEvent(was, c, d, e, p, total, j);
            BufferOfPlace(moved, c, chunk[..], stream);
        }
      }
    }

    function ChangeHead(p: ChangeConfig): Head
      reads this
    {
      if cur.hdr then Chunk else Ok(true, 0, cfg.rates.la, p.pre, p.trunc)
    }

    lemma ChangeHeadFits(p: ChangeConfig)
      requires cfg.rates.la < 0x1_0000_0000 && p.pre < 0x1_0000_0000 && (p.pre > 0 ==> p.trunc == 0)
      ensures HeadChars(ChangeHead(p)) + EDGES_OPEN <= if cur.hdr then 40 else 96
    {
      RateCharsBound(14, cfg.rates.la);
      RateCharsBound(15, p.pre);
    }

    /** bulk_pump_changes: one la_edges frame. It fits the buffer, starts at what was already reported, uses up
        at least one event unless it only carries the header, and says more:false exactly when it ends. */
    method PumpChanges(avail: nat) returns (ok: bool, ghost f: Frame)
      requires Valid() && active && cfg.changes.Some? && cfg.adcSamples <= sent < cfg.total && avail >= 200
      modifies `active, `sent, `laLast, `cur, `client, `chgFrames, `fetched, chunk, grip
      ensures Valid() && active == ok && (luck != Arbitrary ==> ok)
      ensures grip.hold == if ok then old(grip.hold) else Left(old(grip.hold), conn, true)
      ensures !ok ==> client == old(client) && chgFrames == old(chgFrames)
      ensures ok ==> client == old(client).Take(f) && Follows(old(client), f) && sent == f.upto
                     && f.dense == [] && f.chars <= avail && f.chars < CHUNK_BUF
                     && f.chars == FrameChars(f, cfg.adcSamples, cfg.trigChars)
                     && cur.hdr && chgFrames == old(chgFrames) + 1
                     && cur.off / 3 >= old(cur.off) / 3
                     && (old(cur.hdr) ==> cur.done || cur.off / 3 > old(cur.off) / 3)
                     && cur.done == (sent == cfg.total)
      ensures ok && f.more ==> Full(f, ChangeLimit(avail, cfg.trigPresent)) || fetched == old(fetched) + 8
    {
      hide Snap.Sound, Client.Received, Client.Framed, Decoded, Source.Sound, Follows, Buffered, Left, FrameChars,
          LastWord, Full;
      ghost var s := View();
      OpenChanges(s);
      var c, d;
      ok, c, d, f := BuildChanges(avail);
      if ok { ok := SendLa(f); }
      if ok {
        cur, sent, laLast := c, cfg.adcSamples + d.la, d.last;
        CloseChanges(s, View(), f);
      } else {
        Drop(s);
      }
    }

    // The frame, in the format buffer.
    method BuildChanges(avail: nat) returns (ok: bool, c: Cursor, d: Draft, ghost f: Frame)
      requires Valid() && active && cfg.changes.Some? && cfg.adcSamples <= sent < cfg.total && avail >= 200
      modifies `fetched, chunk, grip
      ensures ok && f.more ==> Full(f, ChangeLimit(avail, cfg.trigPresent)) || fetched == old(fetched) + 8
      ensures luck != Arbitrary ==> ok
      ensures grip.hold == if ok then old(grip.hold) else Left(old(grip.hold), conn, true)
      ensures cfg.changes.value.end <= |laMem|
      ensures ok ==> Follows(client, f) && client.Take(f).Received() && client.Take(f).Framed()
                     && f.upto == cfg.adcSamples + d.la <= cfg.total && d.last == LastWord(client.Take(f).edges)
                     && f.dense == [] && f.chars <= avail && f.chars < CHUNK_BUF
                     && f.chars == FrameChars(f, cfg.adcSamples, cfg.trigChars)
      ensures ok ==> Buffered(c, chunk[..], View().Src().stream) && c.hdr
                     && c.off / 3 >= cur.off / 3 && (c.done || !cur.hdr || c.off / 3 > cur.off / 3)
                     && c.done == (f.upto == cfg.total)
                     && (!c.done ==> Decoded(c, View().Src(), client.Take(f).edges, d.la))
    {
      hide Snap.Sound, Client.Received, Client.Framed, Decoded, Encodes, Source.Sound, Drafted, Follows, Buffered, Left,
          FrameChars, HeadChars, Config.Terms, Client.NextHead, LastWord;
      ghost var s := View();
      OpenChanges(s);
      var p := cfg.changes.value;
      var head := ChangeHead(p);
      var hdr := HeadChars(head) + EDGES_OPEN;
      ChangeHeadFits(p);
      var limit := ChangeLimit(avail, cfg.trigPresent);
      ghost var j := Job(s.Src(), client.edges, sent - cfg.adcSamples, hdr, limit);
      var frame;
      f := NO_FRAME;
      ok, c, d := DecodeEvents(p, cfg.total - cfg.adcSamples, j, limit, hdr);
      if ok {
        ghost var had := c;
        c, d, frame := FinishFrame(head, c, d, cfg.adcSamples, cfg.total - cfg.adcSamples, cfg.trigPresent,
                                   cfg.trigChars, j, client, avail);
        BufferOfPlace(had, c, chunk[..], j.src.stream);
        f := frame;
      }
    }

    // The LA branch of bulk_pump: one la_edges frame over raw words. It covers at least one sample.
    method PumpLa(avail: nat) returns (ok: bool, ghost f: Frame)
      requires Valid() && active && cfg.changes == None && cfg.fromPsram &&
          cfg.adcSamples <= sent < cfg.total && avail >= 200
      modifies `active, `sent, `laLast, `client, `chgFrames, grip
      ensures Valid() && active == ok && (luck != Arbitrary ==> ok)
      ensures grip.hold == if ok then old(grip.hold) else Left(old(grip.hold), conn, true)
      ensures (!ok ==> client == old(client)) && chgFrames == old(chgFrames)
      ensures ok ==> client == old(client).Take(f) && Follows(old(client), f) && sent == f.upto > old(sent)
                     && f.dense == [] && f.chars <= avail && f.chars < CHUNK_BUF
                     && f.chars == FrameChars(f, cfg.adcSamples, cfg.trigChars)
      ensures ok ==>
        f.upto in {cfg.total, old(sent) + CHUNK_SAMPLES} || Full(f, LaLimit(avail, cfg.trigPresent))
    {
      hide Snap.Sound, Client.Received, Client.Framed, Words16, Words16At, Follows, LastWord, Is16Bit, Left, FrameChars,
          HeadChars, Config.Terms, Client.NextHead;
      ghost var s := View();
      OpenLa(s);
      var base := sent - cfg.adcSamples;
      var n := Min(cfg.total - sent, CHUNK_SAMPLES);
      var words, covered, last, frame;
      f := NO_FRAME;
      ok, words := PsramRead16(sent, n);
      if ok {
        Words16Slice(laMem, cfg.total - cfg.adcSamples, base, n);
        SliceIs16Bit(client.laSrc, base, n);
        covered, last, frame := LaFrame(words, base, sent, cfg.total, laLast, cfg.rates, cfg.trigPresent, cfg.trigChars,
                                        avail, client);
        f := frame;
        ok := SendLa(f);
      } else {
        ReadFailed();
      }
      if ok {
        sent, laLast := sent + covered, last;
        CloseRaw(s, View(), f);
      } else {
        Drop(s);
      }
    }

    // The next n dense samples: out of PSRAM, which may fail, or from the RAM pool.
    method ReadDense(n: nat) returns (ok: bool, values: seq<nat>)
      requires Valid() && active && sent < cfg.total && (cfg.fromPsram ==> sent < cfg.adcSamples)
      requires sent + n <= |client.denseSrc|
      ensures ok ==> values == client.denseSrc[sent..sent + n]
      ensures luck != Arbitrary || !cfg.fromPsram ==> ok
    {
      hide Snap.Sound, Client.Received, Client.Framed, Client.NextHead, Words16, Words16At, Is16Bit, RawHead;
      OpenDense(View());
      if cfg.fromPsram {
        ok, values := PsramRead16(sent, n);
        Words16Slice(adcMem, cfg.adcSamples, sent, n);
      } else {
        ok, values := true, ram[sent..sent + n];
        SliceOfPrefix(ram, cfg.total, sent, n);
      }
    }

    // The dense branch of bulk_pump: as many samples as the free buffer takes, never across the region boundary.
    method PumpDense(avail: nat) returns (step: Step, ghost f: Frame)
      requires Valid() && active && sent < cfg.total && (cfg.fromPsram ==> sent < cfg.adcSamples)
      modifies `active, `sent, `client, grip
      ensures Valid() && active == (step != Lost) && (luck != Arbitrary ==> step != Lost)
      ensures step == NoRoom ==> avail < AMPLE
      ensures grip.hold == if step != Lost then old(grip.hold) else Left(old(grip.hold), conn, cfg.fromPsram)
      ensures step != Sent ==> client == old(client) && sent == old(sent)
      ensures step == Sent ==> client == old(client).Take(f) && Follows(old(client), f) && sent == f.upto > old(sent)
                               && f.edges == [] && |f.dense| <= Room(avail, cfg.b64 && cfg.is16, cfg.trigPresent)
                               && ((cfg.b64 && cfg.is16) || old(sent) > 0 ==> f.chars <= avail) && f.chars < CHUNK_BUF
                               && f.chars == FrameChars(f, |old(client).denseSrc|, cfg.trigChars)
      ensures step == Sent ==>
        (|f.dense| in {CHUNK_SAMPLES, Room(avail, cfg.b64 && cfg.is16, cfg.trigPresent)}
                             || f.upto == cfg.total || f.upto == cfg.adcSamples)
    {
      hide Snap.Sound, Client.Received, Client.Framed, Is16Bit, Room, Follows, Left, FrameChars, LastWord;
      ghost var s := View();
      OpenDense(s);
      var built;
      step, built := BuildDense(avail);
      f := built;
      if step == NoRoom { return; }
      if step == Sent {
        var ok := Send(f);
        if !ok { step := Lost; }
      }
      if step == Sent {
        sent := built.upto;
        CloseRaw(s, View(), f);
      } else {
        Drop(s);
      }
    }

    // The frame, in the format buffer.
    method BuildDense(avail: nat) returns (step: Step, f: Frame)
      requires Valid() && active && sent < cfg.total && (cfg.fromPsram ==> sent < cfg.adcSamples)
      modifies grip
      ensures luck != Arbitrary ==> step != Lost
      ensures step == NoRoom ==> avail < AMPLE
      ensures grip.hold == if step != Lost then old(grip.hold) else Left(old(grip.hold), conn, cfg.fromPsram)
      ensures step == Sent ==>
        && Follows(client, f) && client.Take(f).Received() && client.Take(f).Framed() && sent < f.upto
        && f.upto <= |client.denseSrc| && f.edges == [] && client.Take(f).edges == client.edges
        && |f.dense| <= Room(avail, cfg.b64 && cfg.is16, cfg.trigPresent)
        && ((cfg.b64 && cfg.is16) || sent > 0 ==> f.chars <= avail) && f.chars < CHUNK_BUF
        && f.chars == FrameChars(f, |client.denseSrc|, cfg.trigChars)
        && (|f.dense| in {CHUNK_SAMPLES, Room(avail, cfg.b64 && cfg.is16, cfg.trigPresent)}
            || f.upto == cfg.total || f.upto == cfg.adcSamples)
    {
      hide Snap.Sound, Client.Received, Client.Framed, Words16, Words16At, Is16Bit, Room, Follows, Left, FrameChars,
          HeadChars, Config.Terms, Client.NextHead, LastWord;
      OpenDense(View());
      f := NO_FRAME;
      var room := Room(avail, cfg.b64 && cfg.is16, cfg.trigPresent);
      if room == 0 {
        AmpleIsRoom(avail, cfg.b64 && cfg.is16, cfg.trigPresent);
        return NoRoom, f;
      }
      var n := Min(Min(cfg.total - sent, CHUNK_SAMPLES), room);
      if cfg.fromPsram && sent + n > cfg.adcSamples {
        n := cfg.adcSamples - sent;
      }
      var ok, values := ReadDense(n);
      if !ok {
        ReadFailed();
        return Lost, f;
      }
      step := Sent;
      f := DenseFrame(values, sent, cfg.total, cfg.is16, cfg.rates, cfg.b64 && cfg.is16, cfg.trigPresent,
                      cfg.trigChars, avail, client);
    }

    // ---- the poll ----

    // Samples and events still to come, and the header.
    ghost function ToDo(): int
      reads this
    {
      cfg.total - sent +
      if cfg.changes.Some? then cfg.changes.value.end / 3 - cur.off / 3 + (if cur.hdr then 0 else 1) else 0
    }

    /** bulk_pump: frames go out while the connection takes them. It always comes back, whatever the buffer offers;
        the client's holding only grows; it completes exactly with everything out; with steady luck it completes or gets
        on, and with smooth luck it completes; and whichever way it leaves the reply, gate and bus are given back
        once. */
    method Pump() returns (r: Outcome)
      requires Valid() && active
      modifies `active, `sent, `laLast, `cur, `client, `chgFrames, `fetched, chunk, grip
      ensures Valid() && active == r.Paused?
      ensures Continues(old(client), client)
      ensures r.Complete? <==> client.upto == client.Total()
      ensures luck == Smooth ==> r.Complete?
      ensures luck == Steady ==> r.Complete? || (r.Paused? && 0 < ToDo() < old(ToDo()))
      ensures grip.hold == if r.Paused? then old(grip.hold) else Left(old(grip.hold), conn, cfg.fromPsram)
      ensures cfg.changes.Some? ==> chgFrames <= cfg.changes.value.end / 3 + 2
    {
      hide Snap.Sound, Client.Received, Client.Framed, Follows, Left, Given, Freed;
      OpenRunning(View());
      var first := true;
      while sent < cfg.total
        invariant Valid() && active && Continues(old(client), client) && grip.hold == old(grip.hold)
        invariant sent == client.upto <= cfg.total == client.Total()
        invariant cfg.changes.Some? ==> chgFrames <= cfg.changes.value.end / 3 + 2
        invariant 0 <= ToDo() && (!first ==> ToDo() < old(ToDo()))
        decreases ToDo()
      {
        ghost var before := client;
        ghost var f;
        OpenRunning(View());
        var avail := Offer(first);
        if avail < 96 {
          var stalled := *;
          stalled := stalled && luck == Arbitrary;
          if stalled { Stall(); }
          return if stalled then Ended else Paused;
        }
        var ok, paced;
        ok, paced, f := OneFrame(avail);
        if paced { return Paused; }
        if !ok { return Ended; }
        TakeContinues(before, f);
        OpenRunning(View());
        first := false;
      }
      Finish();
      r := Complete;
    }

    // The frame the reply is up to, or `paced`: not enough room for it now.
    method OneFrame(avail: nat) returns (ok: bool, paced: bool, ghost f: Frame)
      requires Valid() && active && sent < cfg.total && avail >= 96
      modifies `active, `sent, `laLast, `cur, `client, `chgFrames, `fetched, chunk, grip
      ensures Valid() && active == (paced || ok) && (paced ==> avail < AMPLE) && (luck != Arbitrary ==> ok || paced)
      ensures paced ==> !ok && ToDo() == old(ToDo()) && sent == old(sent)
      ensures !ok ==> client == old(client) && chgFrames == old(chgFrames)
      ensures ok ==> client == old(client).Take(f) && Follows(old(client), f) && sent == f.upto
      ensures ok ==> ToDo() < old(ToDo())
      ensures grip.hold == if ok || paced then old(grip.hold) else Left(old(grip.hold), conn, cfg.fromPsram)
    {
      hide Snap.Sound, Client.Received, Client.Framed, Follows, Left, Given, Freed;
      OpenRunning(View());
      ok, paced, f := false, false, NO_FRAME;
      if cfg.changes.Some? && sent >= cfg.adcSamples {
        if avail < 200 { paced := true; return; }
        ghost var before := client;
        ok, f := PumpChanges(avail);
        if ok { TakeContinues(before, f); }
      } else if cfg.is16 && cfg.fromPsram && sent >= cfg.adcSamples {
        if avail < 200 { paced := true; return; }
        ok, f := PumpLa(avail);
      } else {
        var step;
        step, f := PumpDense(avail);
        ok, paced := step == Sent, step == NoRoom;
      }
    }

    // The client took nothing for too long: the reply is given up.
    method Stall()
      requires Valid() && active
      modifies `active, grip
      ensures Valid() && !active && grip.hold == Left(old(grip.hold), conn, cfg.fromPsram)
    {
      hide Snap.Sound;
      Drop(View());
      if cfg.fromPsram { grip.BusRelease(); }
      grip.HeavyRelease(conn);
    }

    // Everything is out.
    method Finish()
      requires Valid() && active
      modifies `active, grip
      ensures Valid() && !active && grip.hold == Left(old(grip.hold), conn, cfg.fromPsram)
    {
      hide Snap.Sound;
      Drop(View());
      if cfg.fromPsram { grip.BusRelease(); }
      grip.HeavyRelease(conn);
    }

    // Any number of polls.
    method ReadBack(polls: nat) returns (r: Outcome)
      requires Valid() && active
      modifies `active, `sent, `laLast, `cur, `client, `chgFrames, `fetched, chunk, grip
      ensures Valid() && active == r.Paused?
      ensures Continues(old(client), client)
      ensures r.Complete? ==> client.upto == client.Total()
      ensures luck == Smooth && polls > 0 ==> r.Complete?
      ensures luck == Steady && polls > 0 && polls >= old(ToDo()) ==> r.Complete?
      ensures grip.hold == if r.Paused? then old(grip.hold) else Left(old(grip.hold), conn, cfg.fromPsram)
      ensures polls > 0 && cfg.changes.Some? ==> chgFrames <= cfg.changes.value.end / 3 + 2
    {
      hide Snap.Sound, Left;
      r := Paused;
      for i := 0 to polls
        invariant Valid() && active && Continues(old(client), client) && r.Paused? && grip.hold == old(grip.hold)
        invariant luck == Steady ==> i + ToDo() <= old(ToDo()) && (i > 0 ==> ToDo() > 0)
        invariant i > 0 ==> luck != Smooth && (cfg.changes.Some? ==> chgFrames <= cfg.changes.value.end / 3 + 2)
      {
        r := Pump();
        if !r.Paused? { break; }
      }
    }
  }

  lemma AmpleIsRoom(avail: nat, b64: bool, trigPresent: bool)
    ensures Room(avail, b64, trigPresent) == 0 ==> avail < AMPLE
  {
  }

  datatype Fetch = Event(e: nat) | Exhausted | Pause | Failed

  lemma BufferIgnoresDone(c: Cursor, chunk: seq<byte>, stream: seq<byte>)
    requires Buffered(c, chunk, stream)
    ensures Buffered(c.(done := true), chunk, stream)
  {
  }

  lemma SliceOfPrefix(s: seq<nat>, total: nat, at: nat, n: nat)
    requires at + n <= total <= |s|
    ensures s[at..at + n] == s[..total][at..at + n]
  {
  }

  lemma SliceIs16Bit(s: seq<nat>, at: nat, n: nat)
    requires Is16Bit(s) && at + n <= |s|
    ensures Is16Bit(s[at..at + n])
  {
  }

  // The buffer depends on the place in the stream alone.
  lemma BufferOfPlace(c: Cursor, c': Cursor, chunk: seq<byte>, stream: seq<byte>)
    requires Buffered(c, chunk, stream) && c'.n == c.n && c'.i == c.i && c'.off == c.off
    ensures Buffered(c', chunk, stream)
  {
  }
}
