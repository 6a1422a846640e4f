/**
 A change capture from the last event in PSRAM to the client: the scan, then the read-back (capture_poll's
 chgscan_step and bulk_pump passes).
 */
module ChangeCapture {
  import opened Bits
  import opened RunLength
  import opened ChangeStream
  import opened ReadbackFrames
  import opened RawFrames
  import opened ChangeDecoder
  import opened ChangeScan
  import opened BulkReadback
  import opened Options

  /** The whole way: whatever the polls, reads and sends do, a complete reply decodes to the point samples of the
      event stream in the region; `Located` says which samples, and where the trigger is. When every read and send
      works, one poll completes it exactly when the stream has something to return, or, if only the first offer of a
      poll is ample, as many polls as there may be samples and events, and one. */
  method Deliver(bulk: Bulk, scan: Scan, adcN: nat, rates: Rates, post: nat, overflowed: bool, b64: bool,
                 trigger: bool, triggerChars: nat, polls: nat)
    returns (done: bool, p: ChangeConfig, total: nat)
    requires scan.Valid() && scan.active && scan.laMem == bulk.laMem
    requires bulk.chunk.Length == CHUNK_SAMPLES && 2 * adcN <= |bulk.adcMem|
    requires adcN + scan.samples + scan.pre < 0x1_0000_0000 && scan.samples + scan.pre < INDEX_LIMIT
    requires rates.adc < 0x1_0000_0000 && rates.la < 0x1_0000_0000 && (adcN == 0 ==> rates.adc == 0)
    requires trigger ==> triggerChars <= TRIGGER_MAX
    modifies bulk, bulk.chunk, bulk.grip, scan
    ensures done ==>
      var mem := scan.laMem[..scan.region];
      && Located(p, total, mem, scan.k, scan.samples, scan.pre, post)
      && bulk.client.dense == Words16(old(bulk.adcMem), adcN)
      && (forall i :: 0 <= i < total ==> ValueAt(bulk.client.edges, i) == Sample(mem, p.base, p.k, i))
    ensures done ==>
      && bulk.cfg == Config(adcN + total, true, true, adcN, rates, trigger, triggerChars, b64, Some(p))
      && SaysOnce(bulk.client)
      && bulk.client.terms == Terms(Ok(true, rates.adc, rates.la, if adcN == 0 then p.pre else 0,
                                       if adcN == 0 then p.trunc else 0), b64, trigger)
    ensures scan.smooth && bulk.luck != Arbitrary && polls > 0 &&
            (bulk.luck == Steady ==> polls >= adcN + scan.samples + scan.pre + scan.region / 3 + 1) ==>
      (done <==> Startable(scan.laMem[..scan.region], scan.pre, post, overflowed))
  {
    done, p, total := false, ChangeConfig(0, 0, 0, 0, 0), 0;
    hide Startable, Located, Snap.Sound, Samples, Words16, Words16At, Sample, ValueAt, SaysOnce;
    var v := scan.Run(post, overflowed);
    if !v.Start? { return; }
    p, total := v.p, v.total;
    ghost var mem := scan.laMem[..scan.region];
    LocatedTotal(p, total, mem, scan.k, scan.samples, scan.pre, post);
    done := ReadOut(bulk, p, total, adcN, rates, b64, trigger, triggerChars, polls);
    if done {
      WholeStream(bulk.View(), mem, p, total, scan.k, scan.samples, scan.pre, post);
    }
  }

  // The reply of a change capture over any number of polls: one is enough when every offer is ample, and as many as
  // there are samples, events and a header when the first offer of each is.
  method ReadOut(bulk: Bulk, p: ChangeConfig, total: nat, adcN: nat, rates: Rates, b64: bool, trigger: bool,
                 triggerChars: nat, polls: nat) returns (done: bool)
    requires bulk.chunk.Length == CHUNK_SAMPLES && 2 * adcN <= |bulk.adcMem|
    requires 0 < total < INDEX_LIMIT && adcN + total < 0x1_0000_0000
    requires p.k > 0 && 3 <= p.end <= |bulk.laMem| && p.pre < 0x1_0000_0000 && (p.pre > 0 ==> p.trunc == 0)
    requires rates.adc < 0x1_0000_0000 && rates.la < 0x1_0000_0000 && (adcN == 0 ==> rates.adc == 0)
    requires trigger ==> triggerChars <= TRIGGER_MAX
    modifies bulk, bulk.chunk, bulk.grip
    ensures bulk.laMem == old(bulk.laMem)
    ensures done ==>
      && bulk.View().Sound() && bulk.client.start == 0 && bulk.client.upto == bulk.client.Total()
      && bulk.client.denseSrc == Words16(old(bulk.adcMem), adcN)
      && bulk.client.laSrc == Samples(bulk.laMem[..p.end], p.base, p.k, total)
      && bulk.cfg == Config(adcN + total, true, true, adcN, rates, trigger, triggerChars, b64, Some(p))
      && bulk.client.terms == bulk.cfg.Terms() && SaysOnce(bulk.client)
    ensures bulk.luck == Smooth && polls > 0 ==> done
    ensures bulk.luck == Steady && polls >= adcN + total + p.end / 3 + 1 ==> done
  {
    hide Snap.Sound, Client.Framed, Samples, Words16, Words16At, SaysOnce;
    bulk.BeginLaChanges(adcN, total, p, rates, b64, trigger, triggerChars);
    var r := bulk.ReadBack(polls);
    done := r.Complete?;
    if done {
      SoundIsFramed(bulk.View());
      CompleteIsTold(bulk.client);
    }
  }

  lemma SoundIsFramed(s: Snap)
    requires s.Sound()
    ensures s.client.Framed()
  {
    hide Client.Framed;
  }

  lemma WholeStream(s: Snap, mem: seq<byte>, p: ChangeConfig, total: nat, k: nat, samples: nat, pre: nat, post: nat)
    requires s.Sound() && s.client.start == 0 && s.client.upto == s.client.Total()
    requires Located(p, total, mem, k, samples, pre, post) && mem <= s.laMem && p.end <= |s.laMem|
    requires s.client.laSrc == Samples(s.laMem[..p.end], p.base, p.k, total)
    ensures s.client.dense == s.client.denseSrc
    ensures forall i :: 0 <= i < total ==> ValueAt(s.client.edges, i) == Sample(mem, p.base, p.k, i)
  {
    hide Snap.Sound, Located, Sample;
    WholeReply(s);
    CutSample(mem, s.laMem, p, total, k, samples, pre, post);
  }

  lemma LocatedTotal(p: ChangeConfig, total: nat, mem: seq<byte>, k: nat, samples: nat, pre: nat, post: nat)
    requires Located(p, total, mem, k, samples, pre, post)
    ensures 3 <= p.end <= |mem| && p.k == k && 0 < total <= samples + pre
    ensures p.pre < 0x1_0000_0000 && (p.pre > 0 ==> p.trunc == 0)
  {
  }

  lemma CutSample(mem: seq<byte>, laMem: seq<byte>, p: ChangeConfig, total: nat, k: nat, samples: nat,
                  pre: nat, post: nat)
    requires Located(p, total, mem, k, samples, pre, post) && mem <= laMem
    ensures |mem| >= 3 && p.end <= |laMem|
    ensures |laMem[..p.end]| >= 3
    ensures forall i :: 0 <= i < total ==> Samples(laMem[..p.end], p.base, p.k, total)[i] == Sample(mem, p.base, p.k, i)
  {
    assert laMem[..p.end] == mem[..p.end];
    CutKeepsSamples(mem, mem[..p.end], p.base, p.k, total);
    assert forall i :: 0 <= i < total ==> Samples(mem, p.base, p.k, total)[i] == Sample(mem, p.base, p.k, i);
  }

  lemma WholeReply(s: Snap)
    requires s.Sound() && s.client.start == 0 && s.client.upto == s.client.Total()
    ensures s.client.dense == s.client.denseSrc
    ensures forall i :: 0 <= i < |s.client.laSrc| ==> ValueAt(s.client.edges, i) == s.client.laSrc[i]
  {
    hide Client.Framed, Snap.Running;
    CompleteIsWhole(s.client);
  }
}
