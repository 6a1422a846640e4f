/**
 can_solve_timing (can_bus.c): the bit timing search, with the wrap-around of its 32-bit product.
 */
module CanTiming {
  import opened Bits

  const KERNEL_CLK := 25_000_000

  datatype Timing = NoTiming | Timing(presc: nat, seg1: nat, seg2: nat, sjw: nat)

  // uint32_t denom = bitrate * total
  function Denom(bitrate: nat, total: nat): nat {
    bitrate * total % U32
  }

  // This many quanta per bit have an integer prescaler the core takes.
  predicate Works(fclk: nat, bitrate: nat, total: nat) {
    var d := Denom(bitrate, total);
    d != 0 && fclk % d == 0 && 1 <= fclk / d <= 512
  }

  // The ranges of the FDCAN's nominal bit timing register.
  predicate Legal(t: Timing) {
    t.Timing? && 1 <= t.presc <= 512 && 2 <= t.seg1 <= 256 && 2 <= t.seg2 <= 128 && 1 <= t.sjw <= t.seg2 && t.sjw <= 4
  }

  function Quanta(t: Timing): nat
    requires t.Timing?
  {
    1 + t.seg1 + t.seg2
  }

  // The sample point: the last one not behind 7/8 of the bit that leaves two quanta after it; the widest jump.
  predicate SampledLate(t: Timing)
    requires t.Timing?
  {
    && 8 * (1 + t.seg1) <= 7 * Quanta(t) && (7 * Quanta(t) < 8 * (2 + t.seg1) || t.seg2 == 2)
    && t.sjw == Min(t.seg2, 4)
  }

  // The bit rate the core really runs at is the one asked for.
  predicate Exact(fclk: nat, bitrate: nat, t: Timing)
    requires t.Timing?
  {
    bitrate * t.presc * Quanta(t) == fclk
  }

  /** The search: on success a legal timing at the largest count of quanta that works, on failure none works. For rates
      up to the kernel clock that is success exactly when some count and prescaler in range hit the rate. */
  method Solve(fclk: nat, bitrate: nat) returns (t: Timing)
    requires fclk < U32 && bitrate < U32
    ensures t.Timing? ==> Legal(t) && 8 <= Quanta(t) <= 25 && Works(fclk, bitrate, Quanta(t))
    ensures t.Timing? ==> t.presc == fclk / Denom(bitrate, Quanta(t)) && SampledLate(t)
    ensures t.Timing? ==> forall q :: Quanta(t) < q <= 25 ==> !Works(fclk, bitrate, q)
    ensures t.NoTiming? <==> forall q :: 8 <= q <= 25 ==> !Works(fclk, bitrate, q)
    ensures 0 < fclk && fclk * 25 < U32 ==> (Reachable(fclk, bitrate) <==> t.Timing? && bitrate <= fclk)
    ensures t.Timing? && 0 < fclk && fclk * 25 < U32 && bitrate <= fclk ==> Exact(fclk, bitrate, t)
  {
    hide Denom, Works, Exact, Reachable;
    t := Search(fclk, bitrate);
    if 0 < fclk && fclk * 25 < U32 {
      ReachableWhen(fclk, bitrate);
      if t.Timing? { ExactUpToTheClock(fclk, bitrate, t); }
    }
  }

  // The loop of the search.
  method Search(fclk: nat, bitrate: nat) returns (t: Timing)
    requires fclk < U32 && bitrate < U32
    ensures t.Timing? ==> Legal(t) && 8 <= Quanta(t) <= 25 && Works(fclk, bitrate, Quanta(t))
    ensures t.Timing? ==> t.presc == fclk / Denom(bitrate, Quanta(t)) && SampledLate(t)
    ensures t.Timing? ==> forall q :: Quanta(t) < q <= 25 ==> !Works(fclk, bitrate, q)
    ensures t.NoTiming? <==> forall q :: 8 <= q <= 25 ==> !Works(fclk, bitrate, q)
  {
    hide Denom;
    if bitrate == 0 {
      ZeroNeverWorks(fclk);
      return NoTiming;
    }
    var total := 25;
    while total >= 8
      invariant 7 <= total <= 25
      invariant forall q :: total < q <= 25 ==> !Works(fclk, bitrate, q)
    {
      var denom := Denom(bitrate, total);
      if denom != 0 && fclk % denom == 0 {
        var p := fclk / denom;
        if 1 <= p <= 512 {
          var t1 := total * 7 / 8;
          if t1 < 2 { t1 := 2; }
          if t1 > total - 2 { t1 := total - 2; }
          var s1 := t1 - 1;
          var s2 := total - 1 - s1;
          // the code's check of the segments never rejects a count
          assert 2 <= s1 <= 256 && 2 <= s2 <= 128;
          return Timing(p, s1, s2, if s2 < 4 then s2 else 4);
        }
      }
      total := total - 1;
    }
    return NoTiming;
  }

  lemma ZeroNeverWorks(fclk: nat)
    ensures forall q :: 8 <= q <= 25 ==> !Works(fclk, 0, q)
  {
  }

  // What the solver promises, without the wrap-around.
  predicate Divides(fclk: nat, bitrate: nat, q: nat, p: nat) {
    bitrate * p * q == fclk && 1 <= p <= 512
  }

  /** Up to the kernel clock itself no product wraps: a count works exactly when an integer prescaler in 1..512 hits
      the rate, so success is exact and failure complete. */
  lemma WorksIsExact(fclk: nat, bitrate: nat, q: nat)
    requires 0 < fclk && bitrate <= fclk && fclk * 25 < U32 && 8 <= q <= 25
    ensures Works(fclk, bitrate, q) <==> exists p :: Divides(fclk, bitrate, q, p)
    ensures Works(fclk, bitrate, q) ==> Divides(fclk, bitrate, q, fclk / Denom(bitrate, q))
  {
    var d := bitrate * q;
    NoWrap(fclk, bitrate, q);
    if Works(fclk, bitrate, q) {
      Quotient(fclk, d, fclk / d, bitrate, q);
      assert Divides(fclk, bitrate, q, fclk / d);
    }
    forall p | Divides(fclk, bitrate, q, p)
      ensures Works(fclk, bitrate, q)
    {
      Product(bitrate, p, q);
      DividesBack(fclk, d, p);
    }
  }

  // Some count of quanta and some prescaler, both in range, hit the rate.
  ghost predicate Reachable(fclk: nat, bitrate: nat) {
    exists q: nat, p: nat | 8 <= q <= 25 :: Divides(fclk, bitrate, q, p)
  }

  /** Exactly the reachable rates are those up to the clock for which some count works. */
  lemma ReachableWhen(fclk: nat, bitrate: nat)
    requires 0 < fclk && fclk * 25 < U32
    ensures Reachable(fclk, bitrate) <==> bitrate <= fclk && exists q :: 8 <= q <= 25 && Works(fclk, bitrate, q)
  {
    hide Works, Divides;
    forall q: nat, p: nat | 8 <= q <= 25 && Divides(fclk, bitrate, q, p)
      ensures bitrate <= fclk && Works(fclk, bitrate, q)
    {
      NotAbove(fclk, bitrate, q, p);
      WorksIsExact(fclk, bitrate, q);
    }
    if q :| bitrate <= fclk && 8 <= q <= 25 && Works(fclk, bitrate, q) {
      WorksIsExact(fclk, bitrate, q);
      var p: nat :| Divides(fclk, bitrate, q, p);
    }
  }

  lemma NotAbove(fclk: nat, bitrate: nat, q: nat, p: nat)
    requires Divides(fclk, bitrate, q, p) && q > 0
    ensures bitrate <= fclk
  {
    Grows(bitrate, p, q);
  }

  lemma NoWrap(fclk: nat, bitrate: nat, q: nat)
    requires bitrate <= fclk && fclk * 25 < U32 && 8 <= q <= 25
    ensures Denom(bitrate, q) == bitrate * q
  {
    assert bitrate * q <= fclk * 25 by {
      assert bitrate * q <= fclk * q;
      assert fclk * q <= fclk * 25;
    }
    SmallMod(bitrate * q);
  }

  lemma SmallMod(x: nat)
    requires x < U32
    ensures x % U32 == x
  {
  }

  lemma Product(a: nat, p: nat, q: nat)
    ensures a * p * q == a * q * p
  {
  }

  lemma Quotient(fclk: nat, d: nat, p: nat, bitrate: nat, q: nat)
    requires d == bitrate * q && d > 0 && fclk % d == 0 && p == fclk / d
    ensures bitrate * p * q == fclk
  {
    assert fclk == d * p;
    Product(bitrate, p, q);
  }

  lemma DividesBack(fclk: nat, d: nat, p: nat)
    requires d * p == fclk && 1 <= p <= 512 && fclk > 0
    ensures d > 0 && fclk % d == 0 && fclk / d == p
  {
    OneQuotient(d, fclk / d, fclk % d, p);
  }

  lemma OneQuotient(d: nat, k: nat, r: nat, p: nat)
    requires d * k + r == d * p && r < d
    ensures k == p && r == 0
  {
    if p > k {
      Factor(d, p, k);
      Grows(d, p - k, 1);
    } else if p < k {
      Factor(d, k, p);
      Grows(d, k - p, 1);
    }
  }

  lemma Factor(d: nat, a: nat, b: nat)
    requires a >= b
    ensures d * (a - b) == d * a - d * b
  {
  }

  /** Exactly the bit rates up to the kernel clock get the timing they ask for; beyond it every success is an artefact
      of the wrapped product. */
  lemma ExactUpToTheClock(fclk: nat, bitrate: nat, t: Timing)
    requires 0 < fclk && fclk * 25 < U32 && bitrate < U32
    requires t.Timing? && 8 <= Quanta(t) <= 25 && Works(fclk, bitrate, Quanta(t)) &&
        t.presc == fclk / Denom(bitrate, Quanta(t))
    ensures Exact(fclk, bitrate, t) <==> bitrate <= fclk
  {
    hide Works, Denom;
    if bitrate <= fclk {
      WorksIsExact(fclk, bitrate, Quanta(t));
    } else if t.presc > 0 {
      Grows(bitrate, t.presc, Quanta(t));
    }
  }

  lemma Grows(a: nat, p: nat, q: nat)
    requires p > 0 && q > 0
    ensures a * p * q >= a
  {
    assert a * p >= a;
    assert a * p * q >= a * p;
  }

  /** There are such rates: 537 495 912 bit/s is accepted from the 25 MHz clock. */
  lemma WrappedRateIsAccepted()
    ensures Works(KERNEL_CLK, 537_495_912, 8) && 537_495_912 > KERNEL_CLK
  {
    assert Denom(537_495_912, 8) == 5_000_000;
  }
}
