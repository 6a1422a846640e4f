/**
 What a base64 read-back frame of dense samples decodes to.
 */
module DenseText {
  import opened Bits
  import opened ReadbackFrames
  import opened RawFrames
  import B = Base64Url

  // The words as they lie in memory.
  function LeBytes(values: seq<nat>): (s: seq<byte>)
    requires Is16Bit(values)
    ensures |s| == 2 * |values|
  {
    seq(2 * |values|, j requires 0 <= j < 2 * |values| => if j % 2 == 0 then values[j / 2] % 256 else
      values[j / 2] / 256)
  }

  lemma WordsBack(values: seq<nat>)
    requires Is16Bit(values)
    ensures Words16(LeBytes(values), |values|) == values
  {
    var s := LeBytes(values);
    forall i | 0 <= i < |values|
      ensures Words16(s, |values|)[i] == values[i]
    {
      var lo, hi := 2 * (0 + i), 2 * (0 + i) + 1;
      assert lo / 2 == i && hi / 2 == i && lo % 2 == 0 && hi % 2 == 1;
      assert s[lo] == values[i] % 256 && s[hi] == values[i] / 256;
      assert Words16(s, |values|)[i] == Word16(s[lo], s[hi]);
    }
  }

  /** The text of a base64 frame decodes to exactly its samples, and is as long as the frame reserves for it. */
  lemma FrameDecodes(values: seq<nat>, cap: nat)
    requires Is16Bit(values) && 2 * |values| <= cap
    ensures var text := B.Encode(LeBytes(values));
            var r := B.Decode(text, cap);
            && r.Decoded? && |r.data| == 2 * |values| && Words16(r.data, |values|) == values
            && |text| + 1 == DenseBody(values, true)
  {
    var text := B.Encode(LeBytes(values));
    B.RoundTrip(LeBytes(values), 0, cap);
    assert text + seq(0, _ => B.PAD) == text;
    WordsBack(values);
    hide LeBytes, B.Encode, B.Decode, Words16;
  }
}
