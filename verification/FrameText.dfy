/**
 The characters of a read-back frame, as command_handler_capture.c prints them: as many as the frame is charged for.
 */
module FrameText {
  import opened Bits
  import opened RunLength
  import opened ReadbackFrames
  import opened DenseText
  import B = Base64Url

  // "<name>":<value>, or nothing for 0
  function Field(name: string, value: nat): string {
    if value == 0 then "" else "\"" + name + "\":" + Decimal(value) + ","
  }

  function HeadText(h: Head): string {
    match h
    case Chunk => "{\"status\":\"chunk\","
    case Ok(bits16, adc, la, pre, trunc) =>
      "{\"status\":\"ok\"," + (if bits16 then "\"bits\":16," else "") + Field("adc_rate_hz", adc)
      + Field("la_rate_hz", la) + Field("pre_samples", pre) + TruncText(trunc)
  }

  function TruncText(trunc: nat): string {
    if trunc == 0 then "" else if trunc == 1 then "\"truncated\":\"busy\"," else "\"truncated\":\"memory\","
  }

  function EdgeText(first: bool, e: Edge): string {
    (if first then "" else ",") + "[" + Decimal(e.index) + "," + Decimal(e.word) + "]"
  }

  function EdgesText(edges: seq<Edge>): string {
    if edges == [] then "" else EdgesText(edges[..|edges| - 1]) + EdgeText(|edges| == 1, edges[|edges| - 1])
  }

  function ValuesText(values: seq<nat>): string {
    if values == [] then ""
    else Decimal(values[0]) + (if |values| > 1 then "," else "") + ValuesText(values[1..])
  }

  function Chars(s: seq<byte>): (t: string)
    ensures |t| == |s|
  {
    seq(|s|, i requires 0 <= i < |s| => s[i] as char)
  }

  function DenseForm(values: seq<nat>, b64: bool): string
    requires Is16Bit(values)
  {
    if b64 then "\"b64\":\"" + Chars(B.Encode(LeBytes(values))) + "\""
    else "\"data\":[" + ValuesText(values) + "]"
  }

  // bulk_emit_trigger
  function TriggerText(la: nat, edge: string, fired: bool): string {
    ",\"trigger\":{\"la\":" + Decimal(la) + ",\"edge\":\"" + edge
    + "\",\"fired\":" + (if fired then "true" else "false") + "}"
  }

  function MoreText(more: bool): string {
    ",\"more\":" + (if more then "true" else "false") + "}\n"
  }

  // A whole frame; LA counts are relative to the LA region, which starts after `adc` samples.
  ghost function Text(f: Frame, adc: nat, trigger: string): string
    requires Is16Bit(f.dense)
  {
    HeadText(f.head)
    + (if f.dense == [] then
         "\"la\":true,\"la_edges\":[" + EdgesText(f.edges) + "],\"la_upto\":" + Decimal(MonusTo(f.upto, adc))
       else DenseForm(f.dense, f.b64))
    + (if f.trigger then trigger else "") + MoreText(f.more)
  }

  lemma FieldLength(name: string, value: nat)
    ensures |Field(name, value)| == RateChars(|name| + 4, value)
  {
  }

  lemma HeadLength(h: Head)
    ensures |HeadText(h)| == HeadChars(h)
  {
    if h.Ok? {
      FieldLength("adc_rate_hz", h.adcRate);
      FieldLength("la_rate_hz", h.laRate);
      FieldLength("pre_samples", h.pre);
      hide Field, RateChars;
    }
  }

  lemma {:induction false} EdgesLength(edges: seq<Edge>)
    ensures |EdgesText(edges)| == EdgesChars(edges)
  {
    if edges != [] { EdgesLength(edges[..|edges| - 1]); }
  }

  lemma {:induction false} ValuesLength(values: seq<nat>)
    ensures |ValuesText(values)| == DecimalChars(values)
  {
    if values != [] { ValuesLength(values[1..]); }
  }

  lemma DenseLength(values: seq<nat>, b64: bool)
    requires Is16Bit(values)
    ensures |DenseForm(values, b64)| == (if b64 then B64_OPEN else DATA_OPEN) + DenseBody(values, b64)
  {
    if b64 {
      FrameDecodes(values, 2 * |values|);
      hide B.Encode, LeBytes;
    } else {
      ValuesLength(values);
    }
  }

  /** A frame is charged exactly for its text. */
  lemma TextLength(f: Frame, adc: nat, trigger: string)
    requires Is16Bit(f.dense)
    ensures |Text(f, adc, trigger)| == FrameChars(f, adc, |trigger|)
  {
    HeadLength(f.head);
    EdgesLength(f.edges);
    DenseLength(f.dense, f.b64);
    hide HeadText, EdgesText, DenseForm, HeadChars, EdgesChars, DenseBody, Is16Bit, Decimal, Digits;
  }

  /** No trigger field is longer than what is reserved for it, and there is one that long. */
  lemma TriggerLength(la: nat, edge: string, fired: bool)
    requires 1 <= la <= 14 && edge in {"rising", "falling", "high", "low"}
    ensures |TriggerText(la, edge, fired)| <= TRIGGER_MAX == |TriggerText(14, "falling", false)|
  {
    assert |edge| <= 7;
    assert Digits(la) <= 2 && Digits(14) == 2;
    hide Decimal, Digits;
  }
}
