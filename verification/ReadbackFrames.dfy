/**
 What leaves the paced bulk read-back of command_handler_capture.c: reply frames, what each costs in characters,
 and what the client holds after any number of them.
 */
module ReadbackFrames {
  import opened Bits
  import opened RunLength

  const CHUNK_SAMPLES := 256
  const CHUNK_BUF := CHUNK_SAMPLES * 7 + 48

  // ---- the characters a frame costs ----

  const STATUS_OK := 15        // {"status":"ok",
  const BITS_16 := 10          // "bits":16,
  const STATUS_CHUNK := 18     // {"status":"chunk",
  const EDGES_OPEN := 22       // "la":true,"la_edges":[
  const DATA_OPEN := 8         // "data":[
  const B64_OPEN := 7          // "b64":"
  const UPTO_FIELD := 12       // ],"la_upto":
  const TRIGGER_MAX := 51      // ,"trigger":{"la":12,"edge":"falling","fired":false}
  const B64_HEADER_MAX := 96
  const EDGE_RESERVE := 24

  function RateChars(name: nat, value: nat): nat { if value == 0 then 0 else name + Digits(value) }

  function AdcRateChars(v: nat): nat { RateChars(15, v) }      // "adc_rate_hz":v,

  function LaRateChars(v: nat): nat { RateChars(14, v) }       // "la_rate_hz":v,

  function PreChars(v: nat): nat { RateChars(15, v) }          // "pre_samples":v,

  // "truncated":"busy", or "truncated":"memory",
  function TruncChars(v: nat): nat { if v == 0 then 0 else if v == 1 then 19 else 21 }

  // What a frame opens with: the status alone, or what a reply is about, a field with value 0 left out.
  datatype Head = Chunk | Ok(bits16: bool, adcRate: nat, laRate: nat, pre: nat, trunc: nat)

  function HeadChars(h: Head): nat {
    match h
    case Chunk => STATUS_CHUNK
    case Ok(bits16, adc, la, pre, trunc) =>
      STATUS_OK + (if bits16 then BITS_16 else 0) + AdcRateChars(adc) + LaRateChars(la) + PreChars(pre)
      + TruncChars(trunc)
  }

  function MoreChars(last: bool): nat { if last then 15 else 14 }   // ,"more":false}\n

  function EdgeChars(first: bool, i: nat, w: nat): nat {
    (if first then 0 else 1) + 3 + Digits(i) + Digits(w)
  }

  // Decimal values with their commas.
  function DecimalChars(values: seq<nat>): nat {
    if values == [] then 0
    else Digits(values[0]) + (if |values| > 1 then 1 else 0) + DecimalChars(values[1..])
  }

  // A list of edges, with its commas.
  function EdgesChars(edges: seq<Edge>): nat {
    if edges == [] then 0
    else
      var n := |edges| - 1;
      EdgesChars(edges[..n]) + EdgeChars(n == 0, edges[n].index, edges[n].word)
  }

  lemma OneMoreEdge(edges: seq<Edge>, e: Edge)
    ensures EdgesChars(edges + [e]) == EdgesChars(edges) + EdgeChars(edges == [], e.index, e.word)
  {
    assert (edges + [e])[..|edges|] == edges;
  }

  lemma NoEdges()
    ensures EdgesChars([]) == 0 && MoreChars(false) <= MoreChars(true) == 15
  {
  }

  // "b64":"..." of n words, or "data":[...], with the closing quote or bracket
  function DenseBody(values: seq<nat>, b64: bool): nat {
    (if b64 then (8 * |values| + 2) / 3 else DecimalChars(values)) + 1
  }

  function MonusTo(a: nat, b: nat): nat { if a < b then 0 else a - b }

  lemma RateCharsBound(name: nat, value: nat)
    requires value < 0x1_0000_0000
    ensures RateChars(name, value) <= name + 10
  {
    DigitsOf32Bits(value);
  }

  lemma EdgeCharsFit(first: bool, i: nat, w: nat)
    requires i < 0x1_0000_0000 && w < 65536
    ensures EdgeChars(first, i, w) <= 19
  {
    DigitsOf32Bits(i);
    DigitsOf16Bits(w);
  }

  lemma {:induction false} DecimalCharsBound(values: seq<nat>)
    requires Is16Bit(values)
    ensures values != [] ==> DecimalChars(values) <= 6 * |values| - 1
  {
    if values != [] {
      DigitsOf16Bits(values[0]);
      DecimalCharsBound(values[1..]);
    }
  }

  // ---- what goes out ----

  // `upto`: the samples that are final once this frame is in (what la_upto and the dense count report). `b64`: the
  // dense samples are in base64. `trigger`: with the trigger field.
  datatype Frame = Frame(head: Head, b64: bool, dense: seq<nat>, edges: seq<Edge>, upto: nat, trigger: bool, more: bool,
                         chars: nat)

  // The characters of a frame, in a reply with `adc` dense samples and a trigger field of `trigChars`.
  function FrameChars(f: Frame, adc: nat, trigChars: nat): nat {
    HeadChars(f.head)
    + (if f.dense == [] then EDGES_OPEN + EdgesChars(f.edges) + UPTO_FIELD + Digits(MonusTo(f.upto, adc))
       else (if f.b64 then B64_OPEN else DATA_OPEN) + DenseBody(f.dense, f.b64))
    + (if f.trigger then trigChars else 0) + MoreChars(!f.more)
  }

  // No further edge is sure to fit behind the frame's own.
  predicate Full(f: Frame, limit: int) {
    HeadChars(f.head) + EDGES_OPEN + EdgesChars(f.edges) + EDGE_RESERVE > limit
  }

  const NO_FRAME := Frame(Chunk, false, [], [], 0, false, false, 0)

  // What a reply says about itself, beside its samples.
  datatype Terms = Terms(head: Head, b64: bool, trigger: bool)

  // The head opens the first frame of a reply from the start, the trigger closes the last frame.
  ghost predicate Told(t: Terms, start: nat, frames: seq<Frame>) {
    forall i :: 0 <= i < |frames| ==>
      && frames[i].head == (if i == 0 && start == 0 then t.head else Chunk)
      && frames[i].trigger == (t.trigger && !frames[i].more)
      && frames[i].b64 == (t.b64 && frames[i].dense != [])
  }

  // All but the last frame promise more.
  ghost predicate MoreUntilLast(frames: seq<Frame>, finished: bool) {
    && (forall i :: 0 <= i < |frames| - 1 ==> frames[i].more)
    && (frames != [] ==> frames[|frames| - 1].more == !finished)
  }

  // A reported count is never taken back: no later frame holds an edge below it, and regions do not mix.
  ghost predicate Final(frames: seq<Frame>, denseLen: nat) {
    && (forall i, j :: 0 <= i < j < |frames| ==> frames[i].upto <= frames[j].upto)
    && (forall i, j, e :: 0 <= i < j < |frames| && e in frames[j].edges ==> frames[i].upto <= denseLen + e.index)
    && (forall j, e :: 0 <= j < |frames| && e in frames[j].edges ==> denseLen + e.index < frames[j].upto)
    && (forall j :: 0 <= j < |frames| && frames[j].dense != [] ==> frames[j].edges == [] && frames[j].upto <= denseLen)
  }

  ghost predicate Is16Bit(s: seq<nat>) { forall i :: 0 <= i < |s| ==> s[i] < 65536 }

  // n little-endian words from word index `at` of a region.
  function Words16At(mem: seq<byte>, at: nat, n: nat): (s: seq<nat>)
    requires 2 * (at + n) <= |mem|
    ensures |s| == n
  {
    seq<nat>(n, (i: nat) requires i < n => Word16(mem[2 * (at + i)], mem[2 * (at + i) + 1]))
  }

  function Words16(mem: seq<byte>, n: nat): (s: seq<nat>)
    requires 2 * n <= |mem|
    ensures |s| == n
  {
    Words16At(mem, 0, n)
  }

  lemma Words16Slice(mem: seq<byte>, total: nat, at: nat, n: nat)
    requires at + n <= total && 2 * total <= |mem|
    ensures Words16At(mem, at, n) == Words16(mem, total)[at..at + n]
  {
  }

  lemma Words16Are16Bit(mem: seq<byte>, n: nat)
    requires 2 * n <= |mem|
    ensures Is16Bit(Words16(mem, n))
  {
    forall i | 0 <= i < n
      ensures Words16(mem, n)[i] < 65536
    {
      assert Words16(mem, n)[i] == Word16(mem[2 * i], mem[2 * i + 1]);
    }
  }

  /** What a reply stands for, and what the client holds of it so far. */
  datatype Client = Client(
    denseSrc: seq<nat>,    // the dense samples of the reply
    laSrc: seq<nat>,       // the LA samples of the reply, after the dense ones
    terms: Terms,
    start: nat,            // where this read-back began
    upto: nat,             // how far the client has it
    dense: seq<nat>,
    edges: seq<Edge>,
    frames: seq<Frame>)
  {
    ghost function Total(): nat { |denseSrc| + |laSrc| }

    // A prefix of the dense samples from `start`, and the run-length form of the LA samples from `start`,
    // both ending at `upto`.
    ghost predicate Received() {
      && start <= upto <= Total()
      && dense == denseSrc[Min(start, |denseSrc|)..Min(upto, |denseSrc|)]
      && Encodes(edges, laSrc, MonusTo(start, |denseSrc|), MonusTo(upto, |denseSrc|))
    }

    ghost predicate Framed() {
      && (forall i :: 0 <= i < |frames| ==> frames[i].upto <= upto)
      && Final(frames, |denseSrc|)
      && MoreUntilLast(frames, upto == Total())
      && Told(terms, start, frames) && (frames == [] ==> upto == start)
    }

    // The head of the next frame.
    ghost function NextHead(): Head { if frames == [] && start == 0 then terms.head else Chunk }

    ghost function Take(f: Frame): Client {
      this.(upto := f.upto, dense := dense + f.dense, edges := edges + f.edges, frames := frames + [f])
    }
  }

  ghost function Fresh(denseSrc: seq<nat>, laSrc: seq<nat>, terms: Terms, start: nat): Client {
    Client(denseSrc, laSrc, terms, start, start, [], [], [])
  }

  lemma FreshReceives(denseSrc: seq<nat>, laSrc: seq<nat>, terms: Terms, start: nat)
    requires start <= |denseSrc| + |laSrc|
    ensures Fresh(denseSrc, laSrc, terms, start).Received() && Fresh(denseSrc, laSrc, terms, start).Framed()
  {
  }

  // A frame that may follow: it starts where the client stands and stays inside one region.
  ghost predicate Follows(c: Client, f: Frame) {
    && c.upto <= f.upto <= c.Total()
    && f.more == (f.upto < c.Total())
    && (f.dense != [] ==> f.edges == [] && f.upto <= |c.denseSrc|)
    && (forall e :: e in f.edges ==> c.upto <= |c.denseSrc| + e.index < f.upto)
    && f.head == c.NextHead() && f.trigger == (c.terms.trigger && !f.more)
    && f.b64 == (c.terms.b64 && f.dense != [])
  }

  lemma TakeKeepsFinal(frames: seq<Frame>, c: Client, f: Frame)
    requires Final(frames, |c.denseSrc|) && Follows(c, f)
    requires forall i :: 0 <= i < |frames| ==> frames[i].upto <= c.upto
    ensures Final(frames + [f], |c.denseSrc|)
  {
    var all, d, n := frames + [f], |c.denseSrc|, |frames|;
    forall i, j | 0 <= i < j <= n
      ensures all[i].upto <= all[j].upto
    {
    }
    forall i, j, e | 0 <= i < j <= n && e in all[j].edges
      ensures all[i].upto <= d + e.index
    {
      assert j < n ==> all[j] == frames[j];
    }
    forall j, e | 0 <= j <= n && e in all[j].edges
      ensures d + e.index < all[j].upto
    {
      assert j < n ==> all[j] == frames[j];
    }
    assert forall j :: 0 <= j < n ==> all[j] == frames[j];
  }

  lemma TakeKeepsFraming(c: Client, f: Frame)
    requires c.Framed() && c.upto < c.Total() && Follows(c, f)
    ensures c.Take(f).Framed()
  {
    hide Final;
    TakeKeepsFinal(c.frames, c, f);
  }

  lemma TakeEdges(c: Client, f: Frame)
    requires c.Received() && f.dense == [] && |c.denseSrc| <= c.upto <= f.upto <= c.Total()
    requires Encodes(c.edges + f.edges, c.laSrc, MonusTo(c.start, |c.denseSrc|), f.upto - |c.denseSrc|)
    ensures c.Take(f).Received()
  {
    hide Encodes;
  }

  lemma TakeDense(c: Client, f: Frame)
    requires c.Received() && f.edges == [] && c.upto <= f.upto <= |c.denseSrc|
    requires f.dense == c.denseSrc[c.upto..f.upto]
    ensures c.Take(f).Received()
  {
    hide Encodes;
    assert c.edges + [] == c.edges;
    assert c.denseSrc[c.start..c.upto] + c.denseSrc[c.upto..f.upto] == c.denseSrc[c.start..f.upto];
  }
}
