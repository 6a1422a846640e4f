/**
 The change stream the gateware leaves in PSRAM, and what it means: 3-byte events, each a 10-bit tick delta
 above a 14-bit word. The first event is t0 (its delta is not read); a later event with delta 0 is END.
 The meaning is point sampling: sample i is the word of the last event at or before tick base + i * k.
 */
module ChangeStream {
  import opened Bits

  function Raw(mem: seq<byte>, j: nat): nat
    requires 3 * j + 3 <= |mem|
  {
    mem[3 * j] as int + 256 * (mem[3 * j + 1] as int) + 65536 * (mem[3 * j + 2] as int)
  }

  function Delta(mem: seq<byte>, j: nat): nat
    requires 3 * j + 3 <= |mem|
  {
    Raw(mem, j) / 16384
  }

  function Word(mem: seq<byte>, j: nat): nat
    requires 3 * j + 3 <= |mem|
  {
    Raw(mem, j) % 16384
  }

  predicate IsEnd(mem: seq<byte>, j: nat)
    requires 3 * j + 3 <= |mem|
  {
    j > 0 && Delta(mem, j) == 0
  }

  // Live events from j on: up to END, or to the last whole event of the region.
  function LiveFrom(mem: seq<byte>, j: nat): (n: nat)
    requires 3 * j <= |mem|
    ensures j <= n && 3 * n <= |mem|
    ensures forall i {:trigger IsEnd(mem, i)} :: j <= i < n ==> !IsEnd(mem, i)
    ensures 3 * n + 3 > |mem| || IsEnd(mem, n)
    decreases |mem| - 3 * j
  {
    if 3 * j + 3 > |mem| || IsEnd(mem, j) then j else LiveFrom(mem, j + 1)
  }

  function Live(mem: seq<byte>): nat { LiveFrom(mem, 0) }

  // The tick of event j, counted from the first one.
  function Tick(mem: seq<byte>, j: nat): nat
    requires 3 * j + 3 <= |mem|
  {
    if j == 0 then 0 else Tick(mem, j - 1) + Delta(mem, j)
  }

  // The word of the last of the first n events at or before tick x.
  function LastAt(mem: seq<byte>, n: nat, x: nat): nat
    requires 0 < n && 3 * n <= |mem|
  {
    if n == 1 || Tick(mem, n - 1) <= x then Word(mem, n - 1) else LastAt(mem, n - 1, x)
  }

  // ---- streams as the gateware packs them ----

  // 10 bits of delta over 14 bits of word, least significant byte first.
  datatype Change = Change(delta: nat, word: nat)

  predicate Fits(e: Change) { e.delta < 1024 && e.word < 16384 }

  function PackOne(e: Change): (s: seq<byte>)
    requires Fits(e)
    ensures |s| == 3
  {
    [e.word % 256, e.word / 256 + e.delta % 4 * 64, e.delta / 4]
  }

  function Packed(es: seq<Change>): (s: seq<byte>)
    requires forall e :: e in es ==> Fits(e)
    ensures |s| == 3 * |es|
  {
    if es == [] then [] else Packed(es[..|es| - 1]) + PackOne(es[|es| - 1])
  }

  function TickOf(es: seq<Change>, j: nat): nat
    requires j < |es|
  {
    if j == 0 then 0 else TickOf(es, j - 1) + es[j].delta
  }

  lemma {:induction false} PackedReads(es: seq<Change>, j: nat)
    requires (forall e :: e in es ==> Fits(e)) && j < |es|
    ensures Delta(Packed(es), j) == es[j].delta && Word(Packed(es), j) == es[j].word
    decreases |es|
  {
    var n := |es| - 1;
    if j < n {
      PackedReads(es[..n], j);
      assert forall x :: 0 <= x < 3 * n ==> Packed(es)[x] == Packed(es[..n])[x];
      assert Raw(Packed(es), j) == Raw(Packed(es[..n]), j);
    } else {
      var p := PackOne(es[n]);
      assert Packed(es)[3 * n] == p[0] && Packed(es)[3 * n + 1] == p[1] && Packed(es)[3 * n + 2] == p[2];
      Unpacked(es[n]);
      assert Raw(Packed(es), j) == 16384 * es[n].delta + es[n].word;
    }
  }

  lemma Unpacked(e: Change)
    requires Fits(e)
    ensures var p := PackOne(e);
            p[0] as int + 256 * (p[1] as int) + 65536 * (p[2] as int) == 16384 * e.delta + e.word
  {
    assert e.word == e.word / 256 * 256 + e.word % 256 && e.delta == e.delta / 4 * 4 + e.delta % 4;
  }

  /** The decoder reads back what was packed: every event's tick and word, and END behind the last one with its
      cause. */
  lemma {:induction false} PackedStream(es: seq<Change>, cause: nat)
    requires es != [] && (forall e :: e in es ==> Fits(e)) && cause < 16384
    requires forall j :: 0 < j < |es| ==> es[j].delta > 0
    ensures var all := es + [Change(0, cause)]; var mem := Packed(all);
            && Live(mem) == |es| && IsEnd(mem, |es|) && Word(mem, |es|) == cause
            && forall j :: 0 <= j < |es| ==> Tick(mem, j) == TickOf(es, j) && Word(mem, j) == es[j].word
  {
    var all := es + [Change(0, cause)];
    var mem := Packed(all);
    forall j | 0 <= j < |all|
      ensures Delta(mem, j) == all[j].delta && Word(mem, j) == all[j].word
    {
      PackedReads(all, j);
    }
    LiveFromIs(mem, 0, |es|);
    forall j | 0 <= j < |es|
      ensures Tick(mem, j) == TickOf(es, j)
    {
      PackedTick(es, all, j);
    }
  }

  lemma {:induction false} PackedTick(es: seq<Change>, all: seq<Change>, j: nat)
    requires es <= all && j < |es| && forall e :: e in all ==> Fits(e)
    ensures Tick(Packed(all), j) == TickOf(es, j)
  {
    PackedReads(all, j);
    if j > 0 { PackedTick(es, all, j - 1); }
  }

  // ---- point samples ----

  // The point samples a change capture stands for.
  function Sample(mem: seq<byte>, base: nat, k: nat, i: nat): nat
    requires |mem| >= 3
  {
    LastAt(mem, Live(mem), base + i * k)
  }

  function Samples(mem: seq<byte>, base: nat, k: nat, total: nat): (s: seq<nat>)
    requires |mem| >= 3
    ensures |s| == total
  {
    seq(total, (i: nat) => Sample(mem, base, k, i))
  }

  // The sample an event at tick t first shows in, as the read-back computes it.
  function FirstSample(t: nat, base: nat, k: nat): nat
    requires k > 0
  {
    if t <= base then 0 else (t - base + k - 1) / k
  }

  lemma MulMonotone(a: nat, b: nat, k: nat)
    requires a <= b
    ensures a * k <= b * k
  {
  }

  lemma CeilExact(a: nat, k: nat, i: nat)
    requires k > 0 && a > 0
    ensures (a + k - 1) / k <= i <==> a <= i * k
  {
    var q := (a + k - 1) / k;
    assert a + k - 1 == q * k + (a + k - 1) % k;
    if q <= i {
      MulMonotone(q, i, k);
    } else {
      MulMonotone(i + 1, q, k);
      assert (i + 1) * k == i * k + k;
    }
  }

  /** The rounding is exact: an event shows in sample i if and only if it is at or before the sample's tick. */
  lemma FirstSampleExact(t: nat, base: nat, k: nat, i: nat)
    requires k > 0
    ensures FirstSample(t, base, k) <= i <==> t <= base + i * k
  {
    MulMonotone(0, i, k);
    if t > base {
      CeilExact(t - base, k, i);
    }
  }

  lemma {:induction false} TickMonotone(mem: seq<byte>, i: nat, j: nat)
    requires i <= j && 3 * j + 3 <= |mem|
    ensures Tick(mem, i) <= Tick(mem, j)
    decreases j - i
  {
    if i < j {
      TickMonotone(mem, i, j - 1);
    }
  }

  lemma FirstSampleMonotone(mem: seq<byte>, base: nat, k: nat, i: nat, j: nat)
    requires k > 0 && i <= j && 3 * j + 3 <= |mem|
    ensures FirstSample(Tick(mem, i), base, k) <= FirstSample(Tick(mem, j), base, k)
  {
    TickMonotone(mem, i, j);
    FirstSampleExact(Tick(mem, j), base, k, FirstSample(Tick(mem, j), base, k));
    FirstSampleExact(Tick(mem, i), base, k, FirstSample(Tick(mem, j), base, k));
  }

  lemma {:induction false} LastAtIs(mem: seq<byte>, n: nat, m: nat, x: nat)
    requires 0 < m <= n && 3 * n <= |mem|
    requires Tick(mem, m - 1) <= x
    requires m < n ==> x < Tick(mem, m)
    ensures LastAt(mem, n, x) == Word(mem, m - 1)
    decreases n
  {
    if m < n {
      TickMonotone(mem, m, n - 1);
      LastAtIs(mem, n - 1, m, x);
    }
  }

  /** Between two events the samples hold the earlier event's word: from the sample event m-1 first shows in,
      up to the one event m shows in (or to the end, when m is the last live event). */
  lemma HeldBetween(mem: seq<byte>, base: nat, k: nat, m: nat, i: nat)
    requires k > 0 && |mem| >= 3 && 0 < m <= Live(mem)
    requires FirstSample(Tick(mem, m - 1), base, k) <= i
    requires m < Live(mem) ==> i < FirstSample(Tick(mem, m), base, k)
    ensures Sample(mem, base, k, i) == Word(mem, m - 1)
  {
    FirstSampleExact(Tick(mem, m - 1), base, k, i);
    if m < Live(mem) {
      FirstSampleExact(Tick(mem, m), base, k, i);
    }
    assert i * k >= 0;
    LastAtIs(mem, Live(mem), m, base + i * k);
  }

  lemma {:induction false} LiveFromIs(mem: seq<byte>, j: nat, n: nat)
    requires j <= n && 3 * n <= |mem|
    requires forall i {:trigger IsEnd(mem, i)} :: j <= i < n ==> !IsEnd(mem, i)
    requires 3 * n + 3 > |mem| || IsEnd(mem, n)
    ensures LiveFrom(mem, j) == n
    decreases n - j
  {
    if j < n {
      assert !IsEnd(mem, j);
      LiveFromIs(mem, j + 1, n);
    }
  }

  /** Cutting the region right after END keeps every live event, its tick and its word. */
  lemma CutAfterEnd(mem: seq<byte>, cut: seq<byte>)
    requires 3 * Live(mem) + 3 <= |mem| && cut == mem[..3 * Live(mem) + 3]
    ensures Live(cut) == Live(mem)
    ensures forall j :: 0 <= j <= Live(mem) ==> Raw(cut, j) == Raw(mem, j) && Tick(cut, j) == Tick(mem, j)
  {
    var n := Live(mem);
    forall j | 0 <= j <= n
      ensures Raw(cut, j) == Raw(mem, j)
    {
    }
    assert forall i {:trigger IsEnd(cut, i)} :: 0 <= i <= n ==> IsEnd(cut, i) == IsEnd(mem, i);
    LiveFromIs(cut, 0, n);
    forall j | 0 <= j <= n
      ensures Tick(cut, j) == Tick(mem, j)
    {
      SameTicks(mem, cut, j);
    }
  }

  lemma {:induction false} SameTicks(mem: seq<byte>, cut: seq<byte>, j: nat)
    requires 3 * j + 3 <= |cut| <= |mem|
    requires forall i :: 0 <= i <= j ==> Raw(cut, i) == Raw(mem, i)
    ensures Tick(cut, j) == Tick(mem, j)
  {
    if j > 0 {
      SameTicks(mem, cut, j - 1);
    }
  }

  lemma {:induction false} SameLastAt(mem: seq<byte>, cut: seq<byte>, n: nat, x: nat)
    requires 0 < n && 3 * n <= |cut| <= |mem|
    requires forall j :: 0 <= j < n ==> Raw(cut, j) == Raw(mem, j) && Tick(cut, j) == Tick(mem, j)
    ensures LastAt(cut, n, x) == LastAt(mem, n, x)
  {
    if n > 1 {
      SameLastAt(mem, cut, n - 1, x);
    }
  }
}
