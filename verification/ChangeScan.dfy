/**
 The scan that comes before a change read-back (chgscan_step): a few KB of the event stream per poll, until END
 says why the capture stopped; then the trigger is placed by counting back from the last tick.
 */
module ChangeScan {
  import opened Bits
  import opened ChangeStream
  import opened ReadbackFrames
  import opened ChangeDecoder

  datatype Why = ReadFailed | NoEnd | BusTaken | Incomplete | TooBusy | MemoryFull

  // Start: read back `total` samples under `p`.
  datatype Verdict = More | Fail(why: Why) | Start(p: ChangeConfig, total: nat)

  const READS_PER_POLL := 16

  // chg_trunc
  const BUSY := 1
  const MEMORY := 2

  // m events are behind the scan; when it ended, the last of them is END.
  ghost predicate Scanned(mem: seq<byte>, off: nat, t: nat, first: bool, ended: bool, cause: nat) {
    var m := off / 3;
    && 3 * m == off && off <= |mem|
    && first == (m == 0)
    && if ended then
         m == Live(mem) + 1 && Live(mem) > 0 && IsEnd(mem, Live(mem))
         && t == Tick(mem, Live(mem) - 1) && cause == Word(mem, Live(mem))
       else
         m <= Live(mem) && t == if m == 0 then 0 else Tick(mem, m - 1)
  }

  lemma ScanStep(mem: seq<byte>, off: nat, t: nat, first: bool)
    requires Scanned(mem, off, t, first, false, 0) && off + 3 <= |mem|
    ensures var e := Raw(mem, off / 3);
            if first then Scanned(mem, off + 3, t, false, false, 0)
            else if e / 16384 == 0 then Scanned(mem, off + 3, t, false, true, e % 16384)
            else Scanned(mem, off + 3, t + e / 16384, false, false, 0)
  {
    var m := off / 3;
    assert 3 * Live(mem) + 3 > |mem| || IsEnd(mem, Live(mem));
    assert IsEnd(mem, m) == (m > 0 && Raw(mem, m) / 16384 == 0);
    if IsEnd(mem, m) {
      assert m == Live(mem);
    }
  }

  lemma ScanExhausted(mem: seq<byte>, off: nat, t: nat, first: bool)
    requires Scanned(mem, off, t, first, false, 0) && off + 3 > |mem|
    ensures off / 3 == Live(mem) && 3 * Live(mem) + 3 > |mem|
  {
  }

  // The samples a whole capture returns: the trigger sits `post` ticks before the end, and as much of the
  // pre-trigger as was asked for and fits in front of it.
  ghost predicate TriggerPlaced(p: ChangeConfig, total: nat, last: nat, k: nat, samples: nat, pre: nat, post: nat) {
    && p.base + p.pre * k + post == last + 1
    && p.pre <= pre && (p.pre == pre || p.base < k)
    && total == samples + p.pre && p.trunc == 0
  }

  // The samples a capture that stopped early returns: every one it holds in full, none after its last event, with the
  // reason END gives: 1 for too many changes, anything else for a full memory.
  ghost predicate CutShort(p: ChangeConfig, total: nat, last: nat, k: nat, samples: nat, cause: nat) {
    && p.base == 0 && p.pre == 0 && cause > 0 && (p.trunc == BUSY <==> cause == 1) && (p.trunc == MEMORY <==> cause > 1)
    && 0 < total <= samples && (total - 1) * k <= last && (total < samples ==> last < total * k)
  }

  // The read-back gets exactly the bytes up to END, and its samples are placed by the reason END gives.
  ghost predicate Located(p: ChangeConfig, total: nat, mem: seq<byte>, k: nat, samples: nat, pre: nat, post: nat) {
    && 3 * Live(mem) + 3 == p.end <= |mem| && Live(mem) > 0 && IsEnd(mem, Live(mem))
    && p.k == k && total > 0 && p.pre < 0x1_0000_0000 && (p.pre > 0 ==> p.trunc == 0)
    && (var last := Tick(mem, Live(mem) - 1);
        if Word(mem, Live(mem)) == 0 then TriggerPlaced(p, total, last, k, samples, pre, post)
        else CutShort(p, total, last, k, samples, Word(mem, Live(mem))) && pre == 0)
  }

  // The verdict on a stream whose reads all worked.
  ghost predicate Judged(v: Verdict, mem: seq<byte>, k: nat, samples: nat, pre: nat, post: nat, overflowed: bool) {
    if 3 * Live(mem) + 3 > |mem| || Live(mem) == 0 then v == Fail(NoEnd)
    else
      var last, cause := Tick(mem, Live(mem) - 1), Word(mem, Live(mem));
      if cause == 0 && overflowed then v == Fail(BusTaken)
      else if cause == 0 && (last + 1 < post || (pre == 0 && last + 1 != post)) then v == Fail(Incomplete)
      else if cause == 1 && pre > 0 then v == Fail(TooBusy)
      else if cause > 1 && pre > 0 then v == Fail(MemoryFull)
      else v.Start? && Located(v.p, v.total, mem, k, samples, pre, post)
  }

  // The stream is whole, or its capture stopped for a reason that still leaves samples to return.
  ghost predicate Startable(mem: seq<byte>, pre: nat, post: nat, overflowed: bool) {
    && 3 * Live(mem) + 3 <= |mem| && Live(mem) > 0
    && (var last := Tick(mem, Live(mem) - 1);
        if Word(mem, Live(mem)) == 0 then !overflowed && post <= last + 1 && (pre == 0 ==> post == last + 1)
        else pre == 0)
  }

  lemma EndStarts(mem: seq<byte>, off: nat, t: nat, first: bool, cause: nat, pre: nat, post: nat, overflowed: bool)
    requires Scanned(mem, off, t, first, true, cause)
    ensures Startable(mem, pre, post, overflowed) <==>
            if cause == 0 then !overflowed && post <= t + 1 && (pre == 0 ==> post == t + 1) else pre == 0
  {
    hide Live, LiveFrom, Tick, Word;
  }

  class Scan {
    const smooth: bool    // a world where every read works
    const laMem: seq<byte>
    const samples: nat
    const k: nat
    const pre: nat
    const region: nat
    var active: bool
    var off: nat
    var t: nat
    var first: bool
    var ended: bool
    var cause: nat

    constructor (laMem: seq<byte>, samples: nat, k: nat, pre: nat, region: nat, smooth: bool)
      requires 0 < samples && 0 < k && pre < 0x1_0000_0000 && region <= |laMem|
      ensures Valid() && active && off == 0
      ensures this.laMem == laMem && this.samples == samples && this.k == k && this.pre == pre && this.region == region
      ensures this.smooth == smooth
    {
      this.smooth := smooth;
      this.laMem, this.samples, this.k, this.pre, this.region := laMem, samples, k, pre, region;
      active, off, t, first, ended, cause := true, 0, 0, true, false, 0;
    }

    ghost predicate Valid()
      reads this
    {
      && 0 < samples && 0 < k && pre < 0x1_0000_0000 && region <= |laMem|
      && (!ended ==> cause == 0)
      && Scanned(laMem[..region], off, t, first, ended, cause)
    }

    // The events of one read.
    method ScanChunk(chunk: seq<byte>)
      requires Valid() && !ended && off + |chunk| <= region && |chunk| % 3 == 0 && |chunk| > 0
      requires chunk == laMem[off..off + |chunk|]
      modifies `off, `t, `first, `ended, `cause
      ensures Valid() && old(off) < off <= region
    {
      hide Scanned, Raw;
      ghost var mem, off0 := laMem[..region], off;
      var i := 0;
      while i + 3 <= |chunk| && !ended
        invariant 0 <= i <= |chunk| && i % 3 == 0 && off == off0 + i
        invariant Valid() && (i == 0 ==> !ended)
      {
        ScanStep(mem, off, t, first);
        ScanPlace(mem, off, t, first);
        var e := ChunkWord(chunk, i);
        ChunkIsStream(mem, chunk, off0, i);
        if first {
          off, first := off + 3, false;
        } else if e / 16384 == 0 {
          off, ended, cause := off + 3, true, e % 16384;
        } else {
          off, t := off + 3, t + e / 16384;
        }
        i := i + 3;
      }
    }

    // Polls until the scan decides.
    method Run(post: nat, overflowed: bool) returns (v: Verdict)
      requires Valid() && active
      modifies `active, `off, `t, `first, `ended, `cause
      ensures !v.More? && (v.Start? ==> Located(v.p, v.total, laMem[..region], k, samples, pre, post))
      ensures v.Start? <==> v != Fail(ReadFailed) && Startable(laMem[..region], pre, post, overflowed)
      ensures smooth ==> v != Fail(ReadFailed)
      ensures v == Fail(ReadFailed) || Judged(v, laMem[..region], k, samples, pre, post, overflowed)
    {
      hide Scanned, Located, Startable, Judged;
      v := More;
      while v.More?
        invariant Valid() && active == v.More?
        invariant v.Start? ==> Located(v.p, v.total, laMem[..region], k, samples, pre, post)
        invariant !v.More? && v != Fail(ReadFailed) ==>
            (v.Start? <==> Startable(laMem[..region], pre, post, overflowed))
        invariant v.More? || v == Fail(ReadFailed) || Judged(v, laMem[..region], k, samples, pre, post, overflowed)
        invariant smooth ==> v != Fail(ReadFailed)
        decreases if v.More? then 1 else 0, region - off
      {
        ScanBounds(laMem[..region], off, t, first, ended, cause);
        v := Step(post, overflowed);
        ScanBounds(laMem[..region], off, t, first, ended, cause);
      }
    }

    // The reads of one poll.
    method Advance() returns (ok: bool)
      requires Valid() && off <= region
      modifies `off, `t, `first, `ended, `cause
      ensures Valid() && old(off) <= off <= region
      ensures ok && !ended && old(off) + 3 <= region ==> off > old(off)
      ensures smooth ==> ok
    {
      hide Scanned;
      var refills := 0;
      while refills < READS_PER_POLL && !ended
        invariant Valid() && old(off) <= off <= region && (refills > 0 ==> off > old(off))
      {
        var left := region - off;
        if left < 3 { break; }
        var n := Min(left, 255);
        n := n - n % 3;
        ok := *;
        ok := ok || smooth;
        if !ok { return; }
        ScanChunk(laMem[off..off + n]);
        refills := refills + 1;
      }
      ok := true;
    }

    /** chgscan_step: scan on; at the end of the stream decide. A verdict to start hands the read-back exactly the
        bytes up to END and places its samples. */
    method Step(post: nat, overflowed: bool) returns (v: Verdict)
      requires Valid() && active
      modifies `active, `off, `t, `first, `ended, `cause
      ensures Valid() && active == v.More?
      ensures v.More? ==> off > old(off)
      ensures v == Fail(BusTaken) ==> overflowed
      ensures v.Start? ==> off == v.p.end && Located(v.p, v.total, laMem[..region], k, samples, pre, post)
      ensures v == Fail(NoEnd) ==> 3 * Live(laMem[..region]) + 3 > region
      ensures v == Fail(Incomplete) ==>
        var mem := laMem[..region];
        Live(mem) > 0 && (var last := Tick(mem, Live(mem) - 1); last + 1 < post || (pre == 0 && last + 1 != post))
      ensures v == Fail(TooBusy) || v == Fail(MemoryFull) ==> pre > 0
      ensures smooth ==> v != Fail(ReadFailed)
      ensures !v.More? && v != Fail(ReadFailed) ==> (v.Start? <==> Startable(laMem[..region], pre, post, overflowed))
      ensures v.More? || v == Fail(ReadFailed) || Judged(v, laMem[..region], k, samples, pre, post, overflowed)
    {
      hide Scanned, Startable, Live, LiveFrom, Tick, Word, TriggerPlaced, CutShort, IsEnd;
      ScanBounds(laMem[..region], off, t, first, ended, cause);
      var ok := Advance();
      if !ok {
        active := false;
        return Fail(ReadFailed);
      }
      if !ended && region - off >= 3 { return More; }
      active := false;
      if !ended {
        ScanExhausted(laMem[..region], off, t, first);
        NoEndNoStart(laMem[..region], pre, post, overflowed);
        return Fail(NoEnd);
      }
      ScanEnded(laMem[..region], off, t, first, cause);
      EndStarts(laMem[..region], off, t, first, cause, pre, post, overflowed);
      v := Decide(off, t, cause, samples, k, pre, post, overflowed);
    }
  }

  lemma NoEndNoStart(mem: seq<byte>, pre: nat, post: nat, overflowed: bool)
    requires 3 * Live(mem) + 3 > |mem|
    ensures !Startable(mem, pre, post, overflowed)
  {
  }

  lemma ScanBounds(mem: seq<byte>, off: nat, t: nat, first: bool, ended: bool, cause: nat)
    requires Scanned(mem, off, t, first, ended, cause)
    ensures off <= |mem|
  {
  }

  lemma ScanEnded(mem: seq<byte>, off: nat, t: nat, first: bool, cause: nat)
    requires Scanned(mem, off, t, first, true, cause)
    ensures off == 3 * Live(mem) + 3 <= |mem| && Live(mem) > 0 && IsEnd(mem, Live(mem))
    ensures t == Tick(mem, Live(mem) - 1) && cause == Word(mem, Live(mem))
  {
  }

  // The stream ended at tick `last`: check it, place the trigger, or return what a short capture holds.
  method Decide(end: nat, last: nat, cause: nat, samples: nat, k: nat, pre: nat, post: nat, overflowed: bool)
    returns (v: Verdict)
    requires 0 < samples && 0 < k && pre < 0x1_0000_0000
    ensures !v.More? && v != Fail(NoEnd) && v != Fail(ReadFailed)
    ensures v == Fail(BusTaken) <==> cause == 0 && overflowed
    ensures v == Fail(Incomplete) <==> cause == 0 && !overflowed && (last + 1 < post || (pre == 0 && last + 1 != post))
    ensures v == Fail(TooBusy) <==> cause == 1 && pre > 0
    ensures v == Fail(MemoryFull) <==> cause > 1 && pre > 0
    ensures v.Start? <==> if cause == 0 then !overflowed && post <= last + 1 &&
        (pre == 0 ==> post == last + 1) else pre == 0
    ensures v.Start? ==>
      && v.p.end == end && v.p.k == k && v.total > 0 && v.p.pre < 0x1_0000_0000 && (v.p.pre > 0 ==> v.p.trunc == 0)
      && (if cause == 0 then TriggerPlaced(v.p, v.total, last, k, samples, pre, post)
          else CutShort(v.p, v.total, last, k, samples, cause) && pre == 0)
  {
    hide TriggerPlaced, CutShort;
    if cause == 0 {
      if overflowed { return Fail(BusTaken); }
      if last + 1 < post || (pre == 0 && last + 1 != post) { return Fail(Incomplete); }
      var p, total := PlaceTrigger(end, last, k, samples, pre, post);
      return Start(p, total);
    } else {
      if pre > 0 { return Fail(if cause == 1 then TooBusy else MemoryFull); }
      var have := last / k + 1;
      var total := if have < samples then have else samples;
      var p := ChangeConfig(k, end, 0, 0, if cause == 1 then BUSY else MEMORY);
      WasCut(p, total, last, k, samples, cause);
      return Start(p, total);
    }
  }

  method PlaceTrigger(end: nat, last: nat, k: nat, samples: nat, pre: nat, post: nat)
    returns (p: ChangeConfig, total: nat)
    requires 0 < samples && 0 < k && post <= last + 1 && (pre == 0 ==> last + 1 == post)
    ensures TriggerPlaced(p, total, last, k, samples, pre, post)
    ensures p.end == end && p.k == k && p.pre <= pre && p.trunc == 0 && total > 0
  {
    hide TriggerPlaced;
    var trig := last + 1 - post;
    var n := 0;
    if pre > 0 {
      var avail := trig / k;
      n := if avail < pre then avail else pre;
    }
    Placed(end, last, k, samples, pre, post, n);
    return ChangeConfig(k, end, trig - n * k, n, 0), samples + n;
  }

  lemma Placed(end: nat, last: nat, k: nat, samples: nat, pre: nat, post: nat, n: nat)
    requires 0 < k && post <= last + 1 && (pre == 0 ==> last + 1 == post)
    requires n == if (last + 1 - post) / k < pre then (last + 1 - post) / k else pre
    ensures n * k <= last + 1 - post
    ensures TriggerPlaced(ChangeConfig(k, end, last + 1 - post - n * k, n, 0), samples + n, last, k, samples, pre, post)
  {
    DivFits(last + 1 - post, k, n);
  }

  lemma WasCut(p: ChangeConfig, total: nat, last: nat, k: nat, samples: nat, cause: nat)
    requires 0 < k && 0 < samples && p.base == 0 && p.pre == 0 && cause > 0
    requires p.trunc == if cause == 1 then BUSY else MEMORY
    requires total == if last / k + 1 < samples then last / k + 1 else samples
    ensures CutShort(p, total, last, k, samples, cause)
  {
    DivFits(last, k, last / k);
    MulMonotone(total - 1, last / k, k);
  }

  lemma ChunkIsStream(mem: seq<byte>, chunk: seq<byte>, at: nat, i: nat)
    requires at % 3 == 0 && i % 3 == 0 && i + 3 <= |chunk| && at + |chunk| <= |mem|
    requires chunk == mem[at..at + |chunk|]
    ensures ChunkWord(chunk, i) == Raw(mem, (at + i) / 3) && 3 * ((at + i) / 3) == at + i
  {
    assert forall x :: 0 <= x < |chunk| ==> chunk[x] == mem[at + x];
  }

  lemma ScanPlace(mem: seq<byte>, off: nat, t: nat, first: bool)
    requires Scanned(mem, off, t, first, false, 0)
    ensures 3 * (off / 3) == off
  {
  }

  lemma DivFits(a: nat, k: nat, n: nat)
    requires k > 0 && n <= a / k
    ensures n * k <= a && (n == a / k ==> a - n * k < k && a < (n + 1) * k)
  {
    assert a == (a / k) * k + a % k;
    MulMonotone(n, a / k, k);
    assert (n + 1) * k == n * k + k;
  }

  /** The cut at END changes nothing: the read-back decodes from the bytes it is handed the very samples the whole
      region stands for, whatever the sampling. */
  lemma {:induction false} CutKeepsSamples(mem: seq<byte>, cut: seq<byte>, base: nat, k: nat, total: nat)
    requires 3 * Live(mem) + 3 <= |mem| && Live(mem) > 0 && cut == mem[..3 * Live(mem) + 3]
    ensures Samples(cut, base, k, total) == Samples(mem, base, k, total)
  {
    CutAfterEnd(mem, cut);
    forall i | 0 <= i < total
      ensures Sample(cut, base, k, i) == Sample(mem, base, k, i)
    {
      SameLastAt(mem, cut, Live(mem), base + i * k);
    }
  }

  /** Sample `pre` of a whole capture is the state at the trigger, and all its samples lie inside the captured time
      exactly when the capture was armed for long enough: less than one sample short of `samples * k` ticks. */
  lemma SamplesInside(p: ChangeConfig, total: nat, last: nat, k: nat, samples: nat, pre: nat, post: nat)
    requires TriggerPlaced(p, total, last, k, samples, pre, post) && 0 < k && 0 < samples
    ensures p.base + p.pre * k == last + 1 - post
    ensures (forall i: nat | i < total :: SampleTick(p, k, i) <= last) <==> samples * k < post + k
  {
    LastSampleTick(p.base, p.pre, k, samples);
    assert SampleTick(p, k, total - 1) == p.base + p.pre * k + samples * k - k;
    forall i: nat | i < total
      ensures SampleTick(p, k, i) <= SampleTick(p, k, total - 1)
    {
      MulMonotone(i, total - 1, k);
    }
  }

  function SampleTick(p: ChangeConfig, k: nat, i: nat): nat { p.base + i * k }

  lemma LastSampleTick(base: nat, pre: nat, k: nat, samples: nat)
    requires 0 < samples
    ensures base + (samples + pre - 1) * k == base + pre * k + samples * k - k
  {
  }
}
