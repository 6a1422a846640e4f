/**
 One reading from a burst of ADC counts (adc_scale.c): the mean on the 16-bit circle. Where the code has float, real
 numbers stand: rounding is not part of this model.
 */
module AdcScale {

  const WRAP := 65536        // WRAP_SPAN
  const HALF := 32768        // WRAP_THRESHOLD
  const MAX_SPAN := 1024     // ADC_BURST_MAX_SPAN
  const NARROW := 32767      // the widest arc below half a turn
  const SAMPLES_MAX := 65535 // more could overflow the 32-bit sum of deltas

  type count16 = c: int | 0 <= c < 65536

  datatype Reading = Reading(valid: bool, count: real, countUw: real, volts: real, span: nat)

  // The shortest way from ref to x on the circle.
  function Delta(x: int, ref: int): (d: int)
    ensures -HALF < d <= HALF
  {
    var d := (x - ref) % WRAP;
    if d > HALF then d - WRAP else d
  }

  function SumOf(raw: seq<count16>, ref: int): (s: int)
    ensures -HALF * |raw| <= s <= HALF * |raw|
  {
    if raw == [] then 0 else SumOf(raw[..|raw| - 1], ref) + Delta(raw[|raw| - 1], ref)
  }

  // The least and greatest delta, 0 among them.
  function MinOf(raw: seq<count16>, ref: int): (m: int)
    ensures m <= 0 && -HALF < m
    ensures forall i :: 0 <= i < |raw| ==> m <= Delta(raw[i], ref)
    ensures m == 0 || exists i :: 0 <= i < |raw| && m == Delta(raw[i], ref)
  {
    if raw == [] then 0
    else
      var last := |raw| - 1;
      var m := MinOf(raw[..last], ref);
      assert m == 0 || exists i :: 0 <= i < last && m == Delta(raw[i], ref);
      if Delta(raw[last], ref) < m then Delta(raw[last], ref) else m
  }

  function MaxOf(raw: seq<count16>, ref: int): (m: int)
    ensures 0 <= m <= HALF
    ensures forall i :: 0 <= i < |raw| ==> Delta(raw[i], ref) <= m
    ensures m == 0 || exists i :: 0 <= i < |raw| && m == Delta(raw[i], ref)
  {
    if raw == [] then 0
    else
      var last := |raw| - 1;
      var m := MaxOf(raw[..last], ref);
      assert m == 0 || exists i :: 0 <= i < last && m == Delta(raw[i], ref);
      if Delta(raw[last], ref) > m then Delta(raw[last], ref) else m
  }

  function Ratio(s: int, n: nat): real
    requires n > 0
  {
    s as real / n as real
  }

  function Mean(raw: seq<count16>): (m: real)
    requires raw != []
    ensures -32768.0 <= m < 98304.0
  {
    var s, n := SumOf(raw, raw[0]), |raw|;
    MeanBounds(s, n);
    raw[0] as real + Ratio(s, n)
  }

  lemma MeanBounds(s: int, n: nat)
    requires n > 0 && -HALF * n <= s <= HALF * n
    ensures -32768.0 <= s as real / n as real <= 32768.0
  {
    var q := s as real / n as real;
    assert q * n as real == s as real;
    if q > 32768.0 {
      Scaled(q, 32768.0, n as real);
    } else if q < -32768.0 {
      Scaled(-32768.0, q, n as real);
    }
  }

  lemma Scaled(x: real, y: real, n: real)
    requires x > y && n > 0.0
    ensures x * n > y * n
  {
    assert (x - y) * n > 0.0;
  }

  lemma OneMore(raw: seq<count16>, ref: int)
    requires raw != []
    ensures var init, d := raw[..|raw| - 1], Delta(raw[|raw| - 1], ref);
            && SumOf(raw, ref) == SumOf(init, ref) + d
            && MinOf(raw, ref) == (if d < MinOf(init, ref) then d else MinOf(init, ref))
            && MaxOf(raw, ref) == (if d > MaxOf(init, ref) then d else MaxOf(init, ref))
  {
  }

  // Back into 0..65536.
  function Fold(c: real): (r: real)
    requires -65536.0 <= c < 131072.0
    ensures 0.0 <= r < 65536.0
  {
    if c < 0.0 then c + 65536.0 else if c >= 65536.0 then c - 65536.0 else c
  }

  function Volts(a: real, b: real, uw: real): real {
    a + b * uw
  }

  function Burst(raw: seq<count16>, a: real, b: real): Reading {
    if raw == [] then Reading(false, 0.0, 0.0, 0.0, 0)
    else
      var c := Fold(Mean(raw));
      var uw := if c < 32768.0 then c + 65536.0 else c;
      var span := MaxOf(raw, raw[0]) - MinOf(raw, raw[0]);
      Reading(span <= MAX_SPAN, c, uw, Volts(a, b, uw), span)
  }

  /** The loop, with deltas taken in 16 bits, and the two folding loops. */
  method Scale(raw: seq<count16>, a: real, b: real) returns (r: Reading)
    requires |raw| <= SAMPLES_MAX
    ensures r == Burst(raw, a, b)
    ensures raw != [] ==> 0.0 <= r.count < 65536.0 && 32768.0 <= r.countUw < 98304.0
  {
    r := Reading(false, 0.0, 0.0, 0.0, 0);
    if |raw| == 0 { return; }
    var ref, n := raw[0], |raw|;
    var sum, dmin, dmax := Deltas(raw, ref);
    hide SumOf, MinOf, MaxOf, Mean, Volts;
    MeanIs(raw);
    var c := FoldDown(ref as real + Ratio(sum, n));
    var uw := if c < 32768.0 then c + 65536.0 else c;
    r := Reading(dmax - dmin <= MAX_SPAN, c, uw, Volts(a, b, uw), dmax - dmin);
  }

  /** What a reading says: the unwrapped count is the count, one turn on below half scale, and the volts are its
      line. */
  lemma ReadingIs(raw: seq<count16>, a: real, b: real)
    ensures var r := Burst(raw, a, b);
            if raw == [] then !r.valid && r.count == r.countUw == r.volts == 0.0 && r.span == 0
            else r.countUw == r.count + (if r.count < 32768.0 then 65536.0 else 0.0) && r.volts == a + b * r.countUw
                 && (r.valid <==> r.span <= MAX_SPAN)
  {
    hide SumOf, MinOf, MaxOf, Mean, Fold;
  }

  lemma MeanIs(raw: seq<count16>)
    requires raw != []
    ensures Mean(raw) == raw[0] as real + Ratio(SumOf(raw, raw[0]), |raw|)
  {
  }

  method Deltas(raw: seq<count16>, ref: count16) returns (sum: int, dmin: int, dmax: int)
    requires |raw| <= SAMPLES_MAX
    ensures sum == SumOf(raw, ref) && dmin == MinOf(raw, ref) && dmax == MaxOf(raw, ref)
  {
    hide SumOf, MinOf, MaxOf, Delta;
    sum, dmin, dmax := 0, 0, 0;
    NoDeltas(ref);
    assert raw[..0] == [];
    var i := 0;
    while i < |raw|
      invariant 0 <= i <= |raw|
      invariant sum == SumOf(raw[..i], ref) && dmin == MinOf(raw[..i], ref) && dmax == MaxOf(raw[..i], ref)
    {
      OneMore(raw[..i + 1], ref);
      assert raw[..i + 1][..i] == raw[..i];
      var d := Shortest(raw[i], ref);
      sum := sum + d;
      assert -0x8000_0000 <= sum < 0x8000_0000;   // int32_t
      if d < dmin { dmin := d; }
      if d > dmax { dmax := d; }
      i := i + 1;
    }
    assert raw[..i] == raw;
  }

  // (uint16_t)(x - ref), brought to the shorter side
  method Shortest(x: count16, ref: count16) returns (d: int)
    ensures d == Delta(x, ref)
  {
    d := (x - ref) % WRAP;
    if d > HALF { d := d - WRAP; }
  }

  lemma NoDeltas(ref: int)
    ensures SumOf([], ref) == MinOf([], ref) == MaxOf([], ref) == 0
  {
  }

  // The two loops run at most once.
  method FoldDown(mean: real) returns (c: real)
    requires -65536.0 <= mean < 131072.0
    ensures c == Fold(mean)
  {
    c := mean;
    while c < 0.0
      invariant c == mean || (mean < 0.0 && c == mean + 65536.0)
      decreases if c == mean then 1 else 0
    {
      c := c + 65536.0;
    }
    ghost var low := c;
    while c >= 65536.0
      invariant c == low || (low >= 65536.0 && c == low - 65536.0)
      decreases if c == low then 1 else 0
    {
      c := c - 65536.0;
    }
  }

  // Counting on from 65535 to 0.
  function OnCircle(x: int): count16 {
    x % WRAP
  }

  // ---- samples as points of a line wound on the circle ----

  // `line` lifts raw: the same counts, without the wrap, spread over less than half a turn.
  ghost predicate Lifts(line: seq<int>, raw: seq<count16>) {
    && |line| == |raw|
    && (forall i :: 0 <= i < |raw| ==> raw[i] == line[i] % WRAP)
    && (forall i, j :: 0 <= i < |line| && 0 <= j < |line| ==> line[i] - line[j] < HALF)
  }

  function Total(line: seq<int>): int {
    if line == [] then 0 else Total(line[..|line| - 1]) + line[|line| - 1]
  }

  // The same point of the circle.
  function Turned(y: real, turns: int): real { y + 65536.0 * turns as real }

  ghost predicate SamePoint(x: real, y: real) {
    exists turns: int :: x == Turned(y, turns)
  }

  lemma DeltaOfLift(x: int, y: int)
    requires -HALF < x - y < HALF
    ensures Delta(x % WRAP, y % WRAP) == x - y
  {
    var k, m := x / WRAP, y / WRAP;
    assert (x % WRAP - y % WRAP) == (x - y) - WRAP * (k - m);
    ModTurns(x - y, m - k);
  }

  lemma ModTurns(x: int, k: int)
    ensures (x + WRAP * k) % WRAP == x % WRAP
  {
  }

  // Every point lies within half a turn of the base.
  ghost predicate Near(line: seq<int>, raw: seq<count16>, base: int) {
    |line| == |raw| && forall i :: 0 <= i < |raw| ==> raw[i] == line[i] % WRAP && -HALF < line[i] - base < HALF
  }

  lemma NearLast(line: seq<int>, raw: seq<count16>, base: int)
    requires Near(line, raw, base) && raw != []
    ensures |line| == |raw| && Near(line[..|raw| - 1], raw[..|raw| - 1], base)
    ensures Delta(raw[|raw| - 1], OnCircle(base)) == line[|raw| - 1] - base
  {
    DeltaOfLift(line[|raw| - 1], base);
  }

  lemma {:induction false} SumOfLift(line: seq<int>, raw: seq<count16>, base: int)
    requires Near(line, raw, base)
    ensures SumOf(raw, OnCircle(base)) == Total(line) - base * |line|
  {
    if raw != [] {
      var n := |raw| - 1;
      NearLast(line, raw, base);
      hide Delta, OnCircle, SumOf, Near;
      OneMore(raw, OnCircle(base));
      SumOfLift(line[..n], raw[..n], base);
      OneLess(base, n);
    }
  }

  lemma OneLess(base: int, n: nat)
    ensures base * (n + 1) == base * n + base
  {
  }

  // The points are spread over exactly this much.
  ghost predicate Spread(line: seq<int>, span: int) {
    && (forall i, j :: 0 <= i < |line| && 0 <= j < |line| ==> line[i] - line[j] <= span)
    && exists i, j :: 0 <= i < |line| && 0 <= j < |line| && line[i] - line[j] == span
  }

  function MeanOfLine(line: seq<int>): real
    requires line != []
  {
    Ratio(Total(line), |line|)
  }

  /** Wherever the burst sits, also across the 65535 to 0 cut: the span is the spread of the points on the line, and
      the count their mean, brought into 0..65536. */
  lemma MeanOfLift(line: seq<int>, raw: seq<count16>, a: real, b: real)
    requires raw != [] && Lifts(line, raw)
    ensures var r := Burst(raw, a, b);
            SamePoint(r.count, MeanOfLine(line)) && SamePoint(r.countUw, r.count) && Spread(line, r.span)
  {
    SpanOfLift(line, raw);
    CountOfLift(line, raw);
    var c := Fold(Mean(raw));
    assert Turned(c, 0) == c && Turned(c, 1) == c + 65536.0;
    hide MinOf, MaxOf, Mean, MeanOfLine, Lifts, Spread, Volts;
  }

  lemma CountOfLift(line: seq<int>, raw: seq<count16>)
    requires raw != [] && Lifts(line, raw)
    ensures SamePoint(Fold(Mean(raw)), MeanOfLine(line))
  {
    var n, base := |line|, line[0];
    SumOfLift(line, raw, base);
    MeanIs(raw);
    var t := MeanOfLine(line);
    ShiftedMean(Total(line), base, n);
    hide SumOf, Total, Mean, MeanOfLine;
    assert raw[0] == OnCircle(base);
    var k := CircleTurns(base);
    RealTurns(raw[0], base, 0, k);
    assert Mean(raw) == Turned(t, k);
    FoldTurns(t, k);
  }

  lemma ShiftedMean(total: int, base: int, n: nat)
    requires n > 0
    ensures Ratio(total - base * n, n) == Ratio(total, n) - base as real
  {
    assert (base * n) as real == base as real * n as real;
  }

  lemma FoldTurns(t: real, k: int)
    requires -65536.0 <= Turned(t, k) < 131072.0
    ensures SamePoint(Fold(Turned(t, k)), t)
  {
    assert Fold(Turned(t, k)) in {Turned(t, k), Turned(t, k + 1), Turned(t, k - 1)};
  }

  lemma SpanOfLift(line: seq<int>, raw: seq<count16>)
    requires raw != [] && Lifts(line, raw)
    ensures Spread(line, MaxOf(raw, raw[0]) - MinOf(raw, raw[0]))
  {
    hide MaxOf, MinOf, Delta;
    var ref := raw[0];
    forall i | 0 <= i < |line|
      ensures Delta(raw[i], ref) == line[i] - line[0]
    {
      DeltaOfLift(line[i], line[0]);
    }
    var hi, lo := MaxOf(raw, ref), MinOf(raw, ref);
    assert Delta(raw[0], ref) == 0;
    var i :| 0 <= i < |raw| && hi == Delta(raw[i], ref);
    var j :| 0 <= j < |raw| && lo == Delta(raw[j], ref);
    assert line[i] - line[j] == hi - lo;
  }

  // ---- which sample comes first does not matter ----

  // The lift of x that is less than a turn above lo.
  function Above(x: int, lo: int): int {
    lo + (x - lo) % WRAP
  }

  function TotalAbove(raw: seq<count16>, lo: int): int {
    if raw == [] then 0 else Above(raw[0], lo) + TotalAbove(raw[1..], lo)
  }

  lemma {:induction false} TotalAboveJoins(x: seq<count16>, y: seq<count16>, lo: int)
    ensures TotalAbove(x + y, lo) == TotalAbove(x, lo) + TotalAbove(y, lo)
  {
    if x == [] {
      assert x + y == y;
    } else {
      TotalAboveJoins(x[1..], y, lo);
      assert (x + y)[1..] == x[1..] + y;
    }
  }

  lemma {:induction false} TotalAboveOfOrder(x: seq<count16>, y: seq<count16>, lo: int)
    requires multiset(x) == multiset(y)
    ensures TotalAbove(x, lo) == TotalAbove(y, lo) && |x| == |y|
    decreases |x|
  {
    hide Above;
    assert |x| == |multiset(x)| == |multiset(y)| == |y|;
    if x != [] {
      assert x[0] in multiset(x);
      var k := Withdraw(x, y);
      TotalAboveOfOrder(x[1..], y[..k] + y[k + 1..], lo);
      TotalWithout(y, k, lo);
    }
  }

  lemma Withdraw(x: seq<count16>, y: seq<count16>) returns (k: nat)
    requires multiset(x) == multiset(y) && x != []
    ensures k < |y| && y[k] == x[0] && multiset(x[1..]) == multiset(y[..k] + y[k + 1..])
  {
    assert x[0] in multiset(y);
    k :| 0 <= k < |y| && y[k] == x[0];
    assert x == [x[0]] + x[1..] && y == y[..k] + [y[k]] + y[k + 1..];
    assert multiset(x) == multiset{x[0]} + multiset(x[1..]);
    assert multiset(y) == multiset(y[..k]) + multiset{y[k]} + multiset(y[k + 1..]);
    assert multiset(y[..k] + y[k + 1..]) == multiset(y[..k]) + multiset(y[k + 1..]) == multiset(y) - multiset{x[0]};
    assert multiset(x[1..]) == multiset(x) - multiset{x[0]};
  }

  lemma TotalWithout(y: seq<count16>, k: nat, lo: int)
    requires k < |y|
    ensures TotalAbove(y, lo) == Above(y[k], lo) + TotalAbove(y[..k] + y[k + 1..], lo)
  {
    hide Above;
    TotalAboveJoins(y[..k], y[k + 1..], lo);
    TotalAboveJoins(y[..k], y[k..], lo);
    assert y == y[..k] + y[k..];
    assert y[k..][1..] == y[k + 1..];
  }

  function LineAbove(raw: seq<count16>, lo: int): (line: seq<int>)
    ensures |line| == |raw|
  {
    seq(|raw|, i requires 0 <= i < |raw| => Above(raw[i], lo))
  }

  lemma {:induction false} TotalOfLine(raw: seq<count16>, lo: int)
    ensures Total(LineAbove(raw, lo)) == TotalAbove(raw, lo)
  {
    if raw != [] {
      var n := |raw| - 1;
      TotalOfLine(raw[..n], lo);
      assert LineAbove(raw, lo)[..n] == LineAbove(raw[..n], lo);
      assert raw == raw[..n] + [raw[n]];
      TotalAboveJoins(raw[..n], [raw[n]], lo);
    }
  }

  // All samples on an arc of this width.
  ghost predicate OnArc(raw: seq<count16>, lo: int, width: int) {
    forall i :: 0 <= i < |raw| ==> (raw[i] - lo) % WRAP <= width
  }

  lemma LineLifts(raw: seq<count16>, lo: int, width: int)
    requires OnArc(raw, lo, width) && width < HALF
    ensures Lifts(LineAbove(raw, lo), raw)
  {
    forall i | 0 <= i < |raw|
      ensures raw[i] == LineAbove(raw, lo)[i] % WRAP && lo <= LineAbove(raw, lo)[i] <= lo + width
    {
      var x := raw[i];
      AboveIs(x, lo);
    }
  }

  lemma AboveIs(x: count16, lo: int)
    ensures Above(x, lo) % WRAP == x
  {
    var k := (x - lo) / WRAP;
    assert Above(x, lo) == x + WRAP * (-k);
    ModTurns(x, -k);
  }

  lemma ArcOfOrder(x: seq<count16>, y: seq<count16>, lo: int, width: int)
    requires multiset(x) == multiset(y) && OnArc(x, lo, width)
    ensures OnArc(y, lo, width)
  {
    forall i | 0 <= i < |y|
      ensures (y[i] - lo) % WRAP <= width
    {
      assert y[i] in multiset(x);
    }
  }

  /** The reading does not depend on the order of the samples, so not on which is the reference, as long as they lie
      on an arc of less than half the circle. */
  lemma OrderDoesNotMatter(x: seq<count16>, y: seq<count16>, lo: int, width: int, a: real, b: real)
    requires multiset(x) == multiset(y) && OnArc(x, lo, width) && width < HALF
    ensures Burst(x, a, b) == Burst(y, a, b)
  {
    TotalAboveOfOrder(x, y, lo);
    if x != [] {
      ArcOfOrder(x, y, lo, width);
      LineLifts(x, lo, width);
      LineLifts(y, lo, width);
      var lx, ly := LineAbove(x, lo), LineAbove(y, lo);
      MeanOfLift(lx, x, a, b);
      MeanOfLift(ly, y, a, b);
      TotalOfLine(x, lo);
      TotalOfLine(y, lo);
      assert MeanOfLine(lx) == MeanOfLine(ly);
      hide Spread, LineAbove, MeanOfLine, MinOf, MaxOf, Mean, SamePoint, OnArc, Lifts, Volts, Total, Fold;
      SpanOfOrder(x, y, lo, Burst(x, a, b).span, Burst(y, a, b).span);
      SpanOfOrder(y, x, lo, Burst(y, a, b).span, Burst(x, a, b).span);
      OnePoint(Burst(x, a, b).count, Burst(y, a, b).count, MeanOfLine(lx));
    }
  }

  lemma SpanOfOrder(x: seq<count16>, y: seq<count16>, lo: int, sx: int, sy: int)
    requires multiset(x) == multiset(y) && Spread(LineAbove(x, lo), sx) && Spread(LineAbove(y, lo), sy)
    ensures sx <= sy
  {
    var i, j :| 0 <= i < |x| && 0 <= j < |x| && LineAbove(x, lo)[i] - LineAbove(x, lo)[j] == sx;
    assert x[i] in multiset(y) && x[j] in multiset(y);
    var k :| 0 <= k < |y| && y[k] == x[i];
    var l :| 0 <= l < |y| && y[l] == x[j];
    assert LineAbove(y, lo)[k] - LineAbove(y, lo)[l] == sx;
  }

  // Two counts in 0..65536 at the same point are the same.
  lemma OnePoint(c: real, d: real, m: real)
    requires 0.0 <= c < 65536.0 && 0.0 <= d < 65536.0 && SamePoint(c, m) && SamePoint(d, m)
    ensures c == d
  {
    var k: int :| c == Turned(m, k);
    var l: int :| d == Turned(m, l);
    assert c - d == 65536.0 * (k - l) as real;
    if k > l {
      AtLeastOne(k - l);
    } else if k < l {
      AtLeastOne(l - k);
    }
  }

  lemma AtLeastOne(n: int)
    requires n > 0
    ensures n as real >= 1.0
  {
  }

  // ---- settled or not ----

  /** A reading is valid exactly when all samples lie on one arc of at most 1024 counts. */
  lemma ValidIffOnArc(raw: seq<count16>, a: real, b: real)
    requires raw != []
    ensures Burst(raw, a, b).valid <==> exists lo: int :: OnArc(raw, lo, MAX_SPAN)
  {
    hide Spread, MinOf, MaxOf, Mean, Delta, Volts;
    var ref := raw[0];
    if Burst(raw, a, b).valid { SpanIsArc(raw, MAX_SPAN); }
    forall lo: int | OnArc(raw, lo, MAX_SPAN)
      ensures Burst(raw, a, b).valid
    {
      LineLifts(raw, lo, MAX_SPAN);
      SpanOfLift(LineAbove(raw, lo), raw);
      SpreadOnArc(raw, lo, MaxOf(raw, ref) - MinOf(raw, ref));
    }
  }

  lemma SpreadOnArc(raw: seq<count16>, lo: int, span: int)
    requires OnArc(raw, lo, MAX_SPAN) && Spread(LineAbove(raw, lo), span)
    ensures span <= MAX_SPAN
  {
    var line := LineAbove(raw, lo);
    var i, j :| 0 <= i < |line| && 0 <= j < |line| && line[i] - line[j] == span;
    assert line[i] == Above(raw[i], lo) && line[j] == Above(raw[j], lo);
  }

  lemma FromLowest(x: count16, ref: count16, lo: int, hi: int, width: int)
    requires lo <= Delta(x, ref) <= hi && hi - lo <= width < WRAP
    ensures (x - (ref + lo)) % WRAP <= width
  {
    var d := Delta(x, ref);
    var k := (x - ref - d) / WRAP;
    assert x - ref - d == WRAP * k;
    ModTurns(d - lo, k);
  }

  // The samples lie on the arc between the least and the greatest delta.
  lemma SpanIsArc(raw: seq<count16>, width: int)
    requires raw != [] && MaxOf(raw, raw[0]) - MinOf(raw, raw[0]) <= width < WRAP
    ensures OnArc(raw, raw[0] + MinOf(raw, raw[0]), width)
  {
    hide MinOf, MaxOf, Delta;
    forall i | 0 <= i < |raw|
      ensures (raw[i] - (raw[0] + MinOf(raw, raw[0]))) % WRAP <= width
    {
      FromLowest(raw[i], raw[0], MinOf(raw, raw[0]), MaxOf(raw, raw[0]), width);
    }
  }

  // ---- turning the whole burst ----

  function Rotated(raw: seq<count16>, k: int): (s: seq<count16>)
    ensures |s| == |raw|
  {
    seq(|raw|, i requires 0 <= i < |raw| => OnCircle(raw[i] + k))
  }

  lemma DeltaTurns(x: int, ref: int, k: int)
    ensures Delta(OnCircle(x + k), OnCircle(ref + k)) == Delta(x, ref)
  {
    var m, n := (x + k) / WRAP, (ref + k) / WRAP;
    ModTurns(x - ref, n - m);
    assert OnCircle(x + k) - OnCircle(ref + k) == x - ref + WRAP * (n - m);
  }

  lemma {:induction false} SumTurns(raw: seq<count16>, ref: int, k: int)
    ensures var s, q := Rotated(raw, k), OnCircle(ref + k);
            SumOf(s, q) == SumOf(raw, ref) && MinOf(s, q) == MinOf(raw, ref) && MaxOf(s, q) == MaxOf(raw, ref)
  {
    hide SumOf, MinOf, MaxOf, Delta, OnCircle;
    var s, q := Rotated(raw, k), OnCircle(ref + k);
    if raw == [] {
      NoDeltas(ref);
      NoDeltas(q);
      assert s == [];
    } else {
      var n := |raw| - 1;
      SumTurns(raw[..n], ref, k);
      DeltaTurns(raw[n], ref, k);
      assert s[..n] == Rotated(raw[..n], k);
      OneMore(raw, ref);
      OneMore(s, q);
    }
  }

  /** Turning all samples by k turns the count by k and changes neither span nor validity, for every burst. */
  lemma Equivariant(raw: seq<count16>, k: int, a: real, b: real)
    requires raw != []
    ensures var r, s := Burst(raw, a, b), Burst(Rotated(raw, k), a, b);
            s.span == r.span && s.valid == r.valid && SamePoint(s.count, r.count + k as real)
  {
    hide SumOf, MinOf, MaxOf, Mean, SamePoint, Volts, OnCircle, Fold, Turned, Burst, Delta;
    var t := Rotated(raw, k);
    assert t[0] == OnCircle(raw[0] + k);
    SumTurns(raw, raw[0], k);
    var turns := MeanTurns(raw, k);
    BurstIs(raw, a, b);
    BurstIs(t, a, b);
    FoldTurns(Mean(raw) + k as real, turns);
    NoTurn(Mean(raw));
    FoldTurns(Mean(raw), 0);
    PointsChain(Fold(Mean(t)), Mean(raw), Fold(Mean(raw)), k);
  }

  lemma BurstIs(raw: seq<count16>, a: real, b: real)
    requires raw != []
    ensures var r := Burst(raw, a, b);
            r.span == MaxOf(raw, raw[0]) - MinOf(raw, raw[0]) && r.valid == (r.span <= MAX_SPAN) &&
              r.count == Fold(Mean(raw))
  {
  }

  lemma NoTurn(m: real)
    ensures Turned(m, 0) == m
  {
  }

  // The reference's turns are the mean's.
  lemma MeanTurns(raw: seq<count16>, k: int) returns (turns: int)
    requires raw != []
    ensures Mean(Rotated(raw, k)) == Turned(Mean(raw) + k as real, turns)
  {
    hide SumOf, MinOf, MaxOf, Mean, Ratio, Delta, OnCircle;
    var t := Rotated(raw, k);
    assert t[0] == OnCircle(raw[0] + k);
    SumTurns(raw, raw[0], k);
    MeanIs(raw);
    MeanIs(t);
    turns := CircleTurns(raw[0] + k);
    RealTurns(t[0], raw[0], k, turns);
  }

  lemma CircleTurns(x: int) returns (turns: int)
    ensures OnCircle(x) == x + WRAP * turns
  {
    turns := -(x / WRAP);
  }

  lemma RealTurns(t: int, r: int, k: int, turns: int)
    requires t == r + k + WRAP * turns
    ensures t as real == r as real + k as real + 65536.0 * turns as real
  {
  }

  lemma PointsChain(s: real, m: real, c: real, k: int)
    requires SamePoint(s, m + k as real) && SamePoint(c, m)
    ensures SamePoint(s, c + k as real)
  {
    var i: int :| s == Turned(m + k as real, i);
    var j: int :| c == Turned(m, j);
    assert s == Turned(c + k as real, i - j);
  }

  // ---- and on a wider arc it does ----

  // Taking another sample as the reference turns every delta back by its distance, some of them once around.
  lemma DeltaMoves(x: int, ref: int, other: int)
    ensures var g, d := Delta(other, ref), Delta(x, ref);
            g > 0 ==> Delta(x, other) == d - g + (if d - g <= -HALF then WRAP else 0)
  {
    var g, d := Delta(other, ref), Delta(x, ref);
    DeltaTurn(x, ref);
    DeltaTurn(other, ref);
    DeltaIs(x, other, d - g + (if d - g <= -HALF then WRAP else 0));
  }

  lemma DeltaTurn(x: int, ref: int)
    ensures (x - ref - Delta(x, ref)) % WRAP == 0
  {
  }

  // The delta is the one representative in its half-open range.
  lemma DeltaIs(x: int, ref: int, d: int)
    requires -HALF < d <= HALF ==> (x - ref - d) % WRAP == 0
    ensures -HALF < d <= HALF ==> Delta(x, ref) == d
  {
  }

  // How many samples lie opposite the way from ref to a reference g further on.
  function Across(raw: seq<count16>, ref: int, g: int): (n: nat)
    ensures n <= |raw|
  {
    if raw == [] then 0
    else Across(raw[..|raw| - 1], ref, g) + (if Delta(raw[|raw| - 1], ref) - g <= -HALF then 1 else 0)
  }

  lemma {:induction false} AcrossBetween(raw: seq<count16>, ref: int, g: int, i: nat)
    requires i < |raw|
    ensures Delta(raw[i], ref) - g <= -HALF ==> Across(raw, ref, g) > 0
    ensures Delta(raw[i], ref) - g > -HALF ==> Across(raw, ref, g) < |raw|
  {
    hide Delta;
    if i < |raw| - 1 { AcrossBetween(raw[..|raw| - 1], ref, g, i); }
  }

  lemma {:induction false} SumMoves(raw: seq<count16>, ref: int, other: int)
    requires Delta(other, ref) > 0
    ensures SumOf(raw, other) == SumOf(raw, ref) - Delta(other, ref) * |raw| +
        WRAP * Across(raw, ref, Delta(other, ref))
  {
    hide Delta;
    if raw != [] {
      var n := |raw| - 1;
      SumMoves(raw[..n], ref, other);
      DeltaMoves(raw[n], ref, other);
      OneLess(Delta(other, ref), n);
      hide MinOf, MaxOf;
    }
  }

  lemma {:induction false} SumJoins(x: seq<count16>, y: seq<count16>, ref: int)
    ensures SumOf(x + y, ref) == SumOf(x, ref) + SumOf(y, ref)
    decreases |y|
  {
    hide Delta;
    if y == [] {
      assert x + y == x;
    } else {
      var n := |y| - 1;
      SumJoins(x, y[..n], ref);
      assert (x + y)[..|x| + n] == x + y[..n];
    }
  }

  // The same samples with sample k first.
  function Leading(x: seq<count16>, k: nat): (y: seq<count16>)
    requires k < |x|
    ensures |y| == |x| && y[0] == x[k]
  {
    [x[k]] + (x[..k] + x[k + 1..])
  }

  lemma LeadingIsOrder(x: seq<count16>, k: nat, ref: int)
    requires k < |x|
    ensures multiset(Leading(x, k)) == multiset(x) && SumOf(Leading(x, k), ref) == SumOf(x, ref)
  {
    var a, b := x[..k], x[k + 1..];
    assert x == a + ([x[k]] + b);
    SumJoins([x[k]], a + b, ref);
    SumJoins(a, b, ref);
    SumJoins(a, [x[k]] + b, ref);
    SumJoins([x[k]], b, ref);
  }

  lemma MovedRatio(s: int, g: int, n: nat, w: int)
    requires n > 0
    ensures Ratio(s - g * n + WRAP * w, n) == Ratio(s, n) - g as real + Ratio(WRAP * w, n)
  {
    assert (g * n) as real == g as real * n as real;
  }

  // A part of the samples turned around once is never a whole number of turns of the mean.
  lemma PartOfATurn(w: nat, n: nat, turns: int)
    requires 0 < w < n
    ensures Ratio(WRAP * w, n) != 65536.0 * turns as real
  {
    if Ratio(WRAP * w, n) == 65536.0 * turns as real {
      RatioTimes(WRAP * w, n);
      WholeTurns(w, n, turns);
    }
  }

  lemma RatioTimes(s: int, n: nat)
    requires n > 0
    ensures Ratio(s, n) * n as real == s as real
  {
  }

  lemma WholeTurns(w: nat, n: nat, turns: int)
    requires (65536.0 * turns as real) * n as real == (WRAP * w) as real
    ensures w == turns * n && (w < n ==> turns <= 0) && (w > 0 ==> turns > 0)
  {
    assert (65536.0 * turns as real) * n as real == (WRAP * (turns * n)) as real by {
      assert (turns * n) as real == turns as real * n as real;
    }
    assert w == turns * n;
    if turns > 0 {
      assert turns * n >= n;
    } else {
      assert turns * n <= 0;
    }
  }

  // Two means that fold to the same count are whole turns apart.
  lemma FoldedTurns(m: real, m': real) returns (turns: int)
    requires -65536.0 <= m < 131072.0 && -65536.0 <= m' < 131072.0 && Fold(m) == Fold(m')
    ensures m' - m == 65536.0 * turns as real
  {
    turns := (if m < 0.0 then 1 else if m >= 65536.0 then -1 else 0) - (if m' < 0.0 then 1 else
      if m' >= 65536.0 then -1 else 0);
  }

  // How far the mean moves when sample k comes first.
  lemma MeanMoves(x: seq<count16>, k: nat) returns (t: int)
    requires k < |x| && Delta(x[k], x[0]) > 0
    ensures Mean(Leading(x, k)) - Mean(x)
         == 65536.0 * t as real + Ratio(WRAP * Across(x, x[0], Delta(x[k], x[0])), |x|)
  {
    var y, g := Leading(x, k), Delta(x[k], x[0]);
    SumMoves(x, x[0], x[k]);
    LeadingIsOrder(x, k, x[k]);
    MovedRatio(SumOf(x, x[0]), g, |x|, Across(x, x[0], g));
    MeanIs(x);
    MeanIs(y);
    hide SumOf, Mean, Ratio, Delta, Across, MinOf, MaxOf, Leading;
    t := ReferenceTurns(x[k], x[0]);
  }

  // A wide burst reads differently with its furthest sample first.
  lemma WideReadsDifferently(x: seq<count16>, k: nat, j: nat, a: real, b: real)
    requires k < |x| && j < |x| && Delta(x[k], x[0]) > 0 && Delta(x[j], x[0]) - Delta(x[k], x[0]) <= -HALF
    ensures Burst(Leading(x, k), a, b).count != Burst(x, a, b).count
  {
    hide SumOf, Mean, Ratio, Delta, Across, Fold, Burst, MinOf, MaxOf, Leading;
    var y, g := Leading(x, k), Delta(x[k], x[0]);
    var w := Across(x, x[0], g);
    AcrossBetween(x, x[0], g, j);
    NotAllAcross(x, k);
    var t := MeanMoves(x, k);
    BurstIs(x, a, b);
    BurstIs(y, a, b);
    if Fold(Mean(y)) == Fold(Mean(x)) {
      var turns := FoldedTurns(Mean(x), Mean(y));
      PartOfATurn(w, |x|, turns - t);
    }
  }

  lemma ReferenceTurns(other: count16, ref: count16) returns (t: int)
    ensures other - ref - Delta(other, ref) == WRAP * t
    ensures other as real - ref as real - Delta(other, ref) as real == 65536.0 * t as real
  {
    t := (other - ref - Delta(other, ref)) / WRAP;
  }

  lemma NotAllAcross(x: seq<count16>, k: nat)
    requires k < |x| && Delta(x[k], x[0]) > 0
    ensures Across(x, x[0], Delta(x[k], x[0])) < |x|
  {
    var g := Delta(x[k], x[0]);
    AcrossBetween(x, x[0], g, k);
  }

  ghost predicate OrderFree(x: seq<count16>, a: real, b: real) {
    forall y: seq<count16> | multiset(y) == multiset(x) :: Burst(y, a, b).count == Burst(x, a, b).count
  }

  /** All orders of the samples read the same exactly when they lie on an arc of less than half the circle. */
  lemma OrderFreeIffNarrow(x: seq<count16>, a: real, b: real)
    requires x != []
    ensures OrderFree(x, a, b) <==> exists lo: int :: OnArc(x, lo, NARROW)
  {
    hide Burst, Delta;
    forall lo: int | OnArc(x, lo, NARROW)
      ensures OrderFree(x, a, b)
    {
      forall y: seq<count16> | multiset(y) == multiset(x)
        ensures Burst(y, a, b).count == Burst(x, a, b).count
      {
        OrderDoesNotMatter(x, y, lo, NARROW, a, b);
      }
    }
    if OrderFree(x, a, b) {
      if MaxOf(x, x[0]) - MinOf(x, x[0]) > NARROW {
        var k, j := Extremes(x);
        WideReadsDifferently(x, k, j, a, b);
        LeadingIsOrder(x, k, x[0]);
        assert false;
      }
      SpanIsArc(x, NARROW);
    }
  }

  lemma Extremes(x: seq<count16>) returns (k: nat, j: nat)
    requires x != [] && MaxOf(x, x[0]) - MinOf(x, x[0]) >= HALF
    ensures k < |x| && j < |x| && Delta(x[k], x[0]) > 0 && Delta(x[j], x[0]) - Delta(x[k], x[0]) <= -HALF
  {
    var hi, lo := MaxOf(x, x[0]), MinOf(x, x[0]);
    assert Delta(x[0], x[0]) == 0;
    hide Delta;
    k :| 0 <= k < |x| && hi == Delta(x[k], x[0]);
    j :| 0 <= j < |x| && lo == Delta(x[j], x[0]);
  }

  /** At half a turn it does: two opposite samples read differently in the other order. */
  lemma HalfTheCircleIsTooWide(a: real, b: real)
    ensures Burst([0, 32768], a, b).count != Burst([32768, 0], a, b).count
  {
    var x: seq<count16>, y: seq<count16> := [0, 32768], [32768, 0];
    assert x[..1] == [0] && y[..1] == [32768] && x[..1][..0] == [] && y[..1][..0] == [];
    assert SumOf(x, 0) == 32768 && SumOf(y, 32768) == 32768;
    assert Mean(x) == 16384.0 && Mean(y) == 49152.0;
  }
}
