/**
 The two frame builders of bulk_pump for captures that are stored as plain words: run-length edges for the LA
 region, dense samples for everything else.
 */
module RawFrames {
  import opened Bits
  import opened RunLength
  import opened ReadbackFrames

  // The rates a first frame reports; an LA-only reply never has an ADC rate.
  datatype Rates = Rates(adc: nat, la: nat)

  // The first chunk carries the metadata.
  function RawHead(sent: nat, is16: bool, rates: Rates): Head {
    if sent == 0 then Ok(is16, rates.adc, rates.la, 0, 0) else Chunk
  }

  // Where no edge of an la_edges frame may start any more, give or take its own length.
  function LaLimit(avail: nat, trigPresent: bool): int {
    Min(CHUNK_BUF, avail) - (56 + (if trigPresent then 48 else 0))
  }

  function LaFooter(upto: nat, isLast: bool, trigPresent: bool, trigChars: nat): nat {
    UPTO_FIELD + Digits(upto) + (if isLast && trigPresent then trigChars else 0) + MoreChars(isLast)
  }

  // One la_edges frame over `words`, which start at LA sample `base`. It stops only before an edge that would not fit.
  method LaFrame(words: seq<nat>, base: nat, sent: nat, total: nat, laLast: int, rates: Rates,
                 trigPresent: bool, trigChars: nat, avail: nat, ghost client: Client)
    returns (covered: nat, last: int, f: Frame)
    requires client.Received() && client.Framed() && total == client.Total() < 0x1_0000_0000
    requires sent == client.upto == |client.denseSrc| + base < total && laLast == LastWord(client.edges)
    requires 0 < |words| && base + |words| <= |client.laSrc| && words == client.laSrc[base..base + |words|]
    requires Is16Bit(words) && rates.la < 0x1_0000_0000 && (sent == 0 ==> rates.adc == 0)
    requires client.NextHead() == RawHead(sent, true, rates) && client.terms.trigger == trigPresent
    requires (trigPresent ==> trigChars <= TRIGGER_MAX) && avail >= 200
    ensures 0 < covered <= |words| && f.upto == sent + covered
    ensures f.dense == [] && f.chars <= avail && f.chars < CHUNK_BUF
    ensures Follows(client, f) && client.Take(f).Received() && client.Take(f).Framed()
    ensures f.chars == FrameChars(f, |client.denseSrc|, trigChars)
    ensures last == LastWord(client.Take(f).edges)
    ensures covered < |words| ==> words[covered] != last
    ensures covered < |words| ==> Full(f, LaLimit(avail, trigPresent))
    ensures covered < |words| ==>
      f.chars - LaFooter(base + covered, sent + covered >= total, trigPresent, trigChars) +
        EDGE_RESERVE > LaLimit(avail, trigPresent)
  {
    hide Encodes, LastWord, Client.Received, Client.Framed, EdgeChars, EdgesChars, RateChars, MoreChars, Digits;
    NoEdges();
    RateCharsBound(14, rates.la);
    RateIsOmitted(15, rates.adc);
    var head := RawHead(sent, true, rates);
    var hdr := HeadChars(head) + EDGES_OPEN;
    var limit := LaLimit(avail, trigPresent);
    ghost var lo := MonusTo(client.start, |client.denseSrc|);
    var pos: nat, edges: seq<Edge> := hdr, [];
    last, covered := laLast, 0;
    ReceivedEncodes(client);
    assert client.edges + [] == client.edges;
    while covered < |words|
      invariant 0 <= covered <= |words|
      invariant Encodes(client.edges + edges, client.laSrc, lo, base + covered)
      invariant last == LastWord(client.edges + edges)
      invariant forall e :: 0 <= e < |edges| ==> base <= edges[e].index < base + covered
      invariant pos == hdr + EdgesChars(edges) && (edges != [] ==> pos <= limit)
      invariant covered == 0 ==> edges == []
    {
      var w := words[covered];
      if last != w {
        if pos + EDGE_RESERVE > limit { break; }
        EdgeCharsFit(edges == [], base + covered, w);
      }
      OneMore(client.edges + edges, client.laSrc, lo, base + covered, w);
      if last != w {
        assert client.edges + (edges + [Edge(base + covered, w)]) == client.edges + edges + [Edge(base + covered, w)];
        OneMoreEdge(edges, Edge(base + covered, w));
        pos := pos + EdgeChars(edges == [], base + covered, w);
        edges, last := edges + [Edge(base + covered, w)], w;
      }
      covered := covered + 1;
    }
    DigitsOf32Bits(base + covered);
    var isLast := sent + covered >= total;
    var chars: nat := pos + LaFooter(base + covered, isLast, trigPresent, trigChars);
    f := Frame(head, false, [], edges, sent + covered, isLast && trigPresent, !isLast, chars);
    TakeEdges(client, f);
    TakeKeepsFraming(client, f);
  }

  lemma RateIsOmitted(name: nat, value: nat)
    ensures value == 0 ==> RateChars(name, value) == 0
  {
  }

  lemma ReceivedEncodes(c: Client)
    requires c.Received()
    ensures Encodes(c.edges, c.laSrc, MonusTo(c.start, |c.denseSrc|), MonusTo(c.upto, |c.denseSrc|))
  {
  }

  lemma OneMore(edges: seq<Edge>, s: seq<nat>, lo: nat, p: nat, w: nat)
    requires Encodes(edges, s, lo, p) && p < |s| && s[p] == w
    ensures Encodes(if LastWord(edges) != w then edges + [Edge(p, w)] else edges, s, lo, p + 1)
    ensures LastWord(if LastWord(edges) != w then edges + [Edge(p, w)] else edges) == w
  {
    ExtendEncodes(edges, s, lo, p, p + 1, w);
  }

  // ---- dense samples ----

  function FooterReserve(trigPresent: bool): nat { if trigPresent then 112 else 64 }

  // How many samples the free buffer takes (0: wait).
  function Room(avail: nat, b64: bool, trigPresent: bool): nat {
    var reserve := FooterReserve(trigPresent);
    if b64 then
      if avail <= reserve + B64_HEADER_MAX + 8 then 0 else (avail - reserve - B64_HEADER_MAX) * 3 / 8
    else
      if avail <= reserve + 7 then 0 else (avail - reserve) / 7
  }

  /** The most samples at seven characters each, or at eight for three bytes behind the longest header, that leave the
      footer its place. */
  lemma RoomIs(avail: nat, b64: bool, trigPresent: bool)
    ensures var n, left := Room(avail, b64, trigPresent), avail - FooterReserve(trigPresent);
            if b64 then if left <= 104 then n == 0 else 8 * n <= 3 * (left - 96) < 8 * (n + 1)
            else if left <= 7 then n == 0 else 7 * n <= left < 7 * (n + 1)
  {
  }

  function DenseHeader(sent: nat, is16: bool, rates: Rates, b64: bool): nat {
    HeadChars(RawHead(sent, is16, rates)) + (if b64 then B64_OPEN else DATA_OPEN)
  }

  /** A base64 frame, and every decimal frame but the first of a reply, fits the free buffer. */
  lemma DenseFits(values: seq<nat>, sent: nat, is16: bool, rates: Rates, b64: bool, trigPresent: bool,
                  trigger: nat, more: nat, avail: nat)
    requires Is16Bit(values) && 0 < |values| <= CHUNK_SAMPLES && |values| <= Room(avail, b64, trigPresent)
    requires rates.adc < 0x1_0000_0000 && rates.la < 0x1_0000_0000
    requires more <= 15 && trigger <= (if trigPresent then TRIGGER_MAX else 0)
    ensures var chars := DenseHeader(sent, is16, rates, b64) + DenseBody(values, b64) + trigger + more;
            (b64 || sent > 0 ==> chars <= avail) && chars < CHUNK_BUF
  {
    RateCharsBound(15, rates.adc);
    RateCharsBound(14, rates.la);
    DecimalCharsBound(values);
  }

  // One dense frame.
  method DenseFrame(values: seq<nat>, sent: nat, total: nat, is16: bool, rates: Rates, b64: bool,
                    trigPresent: bool, trigChars: nat, avail: nat, ghost client: Client)
    returns (f: Frame)
    requires client.Received() && client.Framed() && total == client.Total() && sent == client.upto
    requires 0 < |values| <= CHUNK_SAMPLES && |values| <= Room(avail, b64, trigPresent)
    requires sent + |values| <= |client.denseSrc| && values == client.denseSrc[sent..sent + |values|]
    requires Is16Bit(client.denseSrc) && rates.adc < 0x1_0000_0000 && rates.la < 0x1_0000_0000
    requires trigPresent ==> trigChars <= TRIGGER_MAX
    requires client.NextHead() == RawHead(sent, is16, rates)
    requires client.terms.b64 == b64 && client.terms.trigger == trigPresent
    ensures f.dense == values && f.edges == [] && f.upto == sent + |values|
    ensures (b64 || sent > 0 ==> f.chars <= avail) && f.chars < CHUNK_BUF
    ensures f.chars == FrameChars(f, |client.denseSrc|, trigChars)
    ensures Follows(client, f) && client.Take(f).Received() && client.Take(f).Framed()
    ensures client.Take(f).edges == client.edges
  {
    hide Client.Received, Client.Framed, HeadChars, DenseBody, Room;
    var isLast := sent + |values| >= total;
    var trigger := if isLast && trigPresent then trigChars else 0;
    DenseFits(values, sent, is16, rates, b64, trigPresent, trigger, MoreChars(isLast), avail);
    var chars := DenseHeader(sent, is16, rates, b64) + DenseBody(values, b64) + trigger + MoreChars(isLast);
    f := Frame(RawHead(sent, is16, rates), b64, values, [], sent + |values|, isLast && trigPresent, !isLast, chars);
    TakeDense(client, f);
    TakeKeepsFraming(client, f);
  }

  lemma {:induction false} WidestDecimals(values: seq<nat>)
    requires values != [] && forall i :: 0 <= i < |values| ==> values[i] == 65535
    ensures DecimalChars(values) == 6 * |values| - 1
  {
    assert Digits(65535) == 5;
    if |values| > 1 { WidestDecimals(values[1..]); }
  }

  // A decimal frame of these samples is within the free buffer.
  predicate DecimalFits(values: seq<nat>, sent: nat, is16: bool, rates: Rates, trigger: nat, more: nat, avail: nat) {
    DenseHeader(sent, is16, rates, false) + DenseBody(values, false) + trigger + more <= avail
  }

  /** Exactly when a decimal frame of n samples, the first one included, is sure to fit: six characters a sample and
      its header and footer. The room the code computes leaves out the header. */
  lemma AllDecimalsFit(n: nat, sent: nat, is16: bool, rates: Rates, trigger: nat, more: nat, avail: nat)
    requires n > 0
    ensures (forall values :: |values| == n && Is16Bit(values) ==>
        DecimalFits(values, sent, is16, rates, trigger, more, avail))
       <==> DenseHeader(sent, is16, rates, false) + 6 * n + trigger + more <= avail
  {
    hide DenseHeader;
    var widest := seq(n, _ => 65535);
    WidestDecimals(widest);
    assert Is16Bit(widest);
    forall values | |values| == n && Is16Bit(values)
      ensures DenseBody(values, false) <= 6 * n
    {
      DecimalCharsBound(values);
    }
  }

  /** A capture's first frame that does not: 96 free characters, four ADC samples of five digits, 1 MS/s and an LA
      region at 12 MS/s to follow make 115 characters. */
  lemma FirstDecimalFrameCanOverrun(values: seq<nat>)
    requires values == [65535, 65535, 65535, 65535]
    ensures Room(96, false, false) == |values|
    ensures !DecimalFits(values, 0, true, Rates(1000000, 12000000), 0, MoreChars(false), 96)
    ensures DenseHeader(0, true, Rates(1000000, 12000000), false) + DenseBody(values, false) + MoreChars(false) == 115
  {
    WidestDecimals(values);
    assert Digits(1000000) == 7 by { assert Digits(10000) == 5; }
    assert Digits(12000000) == 8 by { assert Digits(120000) == 6; }
  }
}
