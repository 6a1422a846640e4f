/**
 Who holds the shared quad bus and how deep (bus_owner.c). Takes nest; only the outermost give hands the pins back.
 */
module BusOwner {

  const MAX_DEPTH := 65535    // depth is a uint16 that stops counting at its top
  const NOBODY := 0

  // One token stands for one task; NOBODY is the NULL owner.
  datatype Bus = Bus(owner: nat, depth: nat, violations: nat, unpaired: nat)

  datatype Op = Take(who: nat) | Give(who: nat) | Handover

  // The bus after one operation, and whether the caller switches the pins (for a handover it always does).
  function Apply(b: Bus, op: Op): (Bus, bool) {
    match op
    case Take(who) =>
      if b.depth == 0 then (b.(owner := who, depth := 1), true)
      else
        (b.(violations := b.violations + (if b.owner != who then 1 else 0),
            depth := if b.depth < MAX_DEPTH then b.depth + 1 else b.depth), false)
    case Give(who) =>
      if b.depth == 0 then (b.(unpaired := b.unpaired + 1), true)
      else
        var v := b.violations + (if b.owner != who then 1 else 0);
        if b.depth == 1 then (Bus(NOBODY, 0, v, b.unpaired), true)
        else (b.(violations := v, depth := b.depth - 1), false)
    case Handover =>
      (Bus(NOBODY, 0, b.violations + (if b.depth > 0 then 1 else 0), b.unpaired), true)
  }

  class Owner {
    var owner: nat
    var depth: nat
    var violations: nat
    var unpaired: nat

    function View(): Bus
      reads this
    {
      Bus(owner, depth, violations, unpaired)
    }

    method DoTake(who: nat) returns (outermost: bool)
      modifies this
      ensures (View(), outermost) == Apply(old(View()), Take(who))
    {
      if depth == 0 {
        owner, depth := who, 1;
        return true;
      }
      if owner != who { violations := violations + 1; }
      if depth < MAX_DEPTH { depth := depth + 1; }
      return false;
    }

    method DoGive(who: nat) returns (outermost: bool)
      modifies this
      ensures (View(), outermost) == Apply(old(View()), Give(who))
    {
      if depth == 0 {
        unpaired := unpaired + 1;
        return true;
      }
      if owner != who { violations := violations + 1; }
      depth := depth - 1;
      if depth == 0 {
        owner := NOBODY;
        return true;
      }
      return false;
    }

    method DoHandover() returns (dropped: nat)
      modifies this
      ensures View() == Apply(old(View()), Handover).0 && dropped == old(depth)
    {
      dropped := depth;
      if dropped != 0 { violations := violations + 1; }
      depth, owner := 0, NOBODY;
    }
  }

  // Who holds the bus, if anyone does.
  predicate HeldBy(b: Bus, who: nat) { b.depth > 0 && b.owner == who }

  /** A take or give by anyone but the holder is counted, once, and does what the holder's own would to the depth alone;
      a give that nothing was taken for is counted too, and so is a handover over open takes. */
  lemma MisuseIsCounted(b: Bus, op: Op)
    ensures var t := Apply(b, op).0;
            && t.violations == b.violations + (match op
                                               case Take(w) => if b.depth > 0 && !HeldBy(b, w) then 1 else 0
                                               case Give(w) => if b.depth > 0 && !HeldBy(b, w) then 1 else 0
                                               case Handover => if b.depth > 0 then 1 else 0)
            && t.unpaired == b.unpaired + (if op.Give? && b.depth == 0 then 1 else 0)
            && (b.depth > 0 && t.depth > 0 ==> t.owner == b.owner)
            && (op.Take? && b.depth == 0 ==> HeldBy(t, op.who))
            && (t.depth == 0 && b.depth > 0 ==> t.owner == NOBODY)
  {
  }

  // ---- runs ----

  function Run(b: Bus, ops: seq<Op>): Bus
    decreases |ops|
  {
    if ops == [] then b else Run(Apply(b, ops[0]).0, ops[1..])
  }

  // Who drives the pins after a run: an operation that reports 1 switches them to the side it is for.
  function Pins(b: Bus, stm32: bool, ops: seq<Op>): bool
    decreases |ops|
  {
    if ops == [] then stm32
    else
      var (b', switch) := Apply(b, ops[0]);
      Pins(b', if switch then ops[0].Take? else stm32, ops[1..])
  }

  /** The pins follow the depth through every run of takes, gives and handovers by anyone: the STM32 drives the bus
      exactly while something holds it, so no inner give ever hands it away under an outer holder. */
  lemma {:induction false} PinsFollowDepth(b: Bus, stm32: bool, ops: seq<Op>)
    requires stm32 == (b.depth > 0)
    ensures Pins(b, stm32, ops) == (Run(b, ops).depth > 0)
    decreases |ops|
  {
    if ops != [] {
      var (b', switch) := Apply(b, ops[0]);
      PinsFollowDepth(b', if switch then ops[0].Take? else stm32, ops[1..]);
    }
  }

  // Takes minus gives.
  function Net(ops: seq<Op>): int {
    if ops == [] then 0
    else (match ops[0] case Take(_) => 1 case Give(_) => -1 case Handover => 0) + Net(ops[1..])
  }

  // A holder's own use: only its takes and gives, never more gives than takes, never deeper than the counter counts.
  predicate Nested(depth: nat, who: nat, ops: seq<Op>)
    decreases |ops|
  {
    ops == [] ||
    match ops[0]
    case Take(w) => w == who && depth < MAX_DEPTH && Nested(depth + 1, who, ops[1..])
    case Give(w) => w == who && depth > 0 && Nested(depth - 1, who, ops[1..])
    case Handover => false
  }

  /** Nested use adds up: the depth is the takes still open, nothing is counted against anyone, and when every take
      is given back the bus is as free as before. */
  lemma {:induction false} NestedBalances(b: Bus, who: nat, ops: seq<Op>)
    requires Nested(b.depth, who, ops) && (b.depth > 0 ==> b.owner == who) && (b.depth == 0 ==> b.owner == NOBODY)
    ensures var b' := Run(b, ops);
            && b'.depth == b.depth + Net(ops) && b'.violations == b.violations && b'.unpaired == b.unpaired
            && b'.owner == if b'.depth > 0 then who else NOBODY
    decreases |ops|
  {
    if ops != [] {
      NestedBalances(Apply(b, ops[0]).0, who, ops[1..]);
    }
  }

  function Repeat(op: Op, n: nat): seq<Op> { seq(n, _ => op) }

  /** Past the counter's top the balance is lost: n nested takes followed by n gives are clean exactly when
      n <= 65535; beyond that the bus is handed back while takes are still open. */
  lemma DeepNesting(who: nat, n: nat)
    ensures var b := Run(Run(Bus(NOBODY, 0, 0, 0), Repeat(Take(who), n)), Repeat(Give(who), n));
            b == Bus(NOBODY, 0, 0, if n <= MAX_DEPTH then 0 else n - MAX_DEPTH)
  {
    Takes(Bus(NOBODY, 0, 0, 0), who, n);
    Gives(Run(Bus(NOBODY, 0, 0, 0), Repeat(Take(who), n)), who, n);
  }

  lemma {:induction false} Takes(b: Bus, who: nat, n: nat)
    requires b.depth <= MAX_DEPTH && (if b.depth > 0 then b.owner == who else b.owner == NOBODY)
    ensures var d := if b.depth + n <= MAX_DEPTH then b.depth + n else MAX_DEPTH;
            Run(b, Repeat(Take(who), n)) == Bus(if d > 0 then who else NOBODY, d, b.violations, b.unpaired)
    decreases n
  {
    if n > 0 {
      assert Repeat(Take(who), n)[1..] == Repeat(Take(who), n - 1);
      Takes(Apply(b, Take(who)).0, who, n - 1);
    }
  }

  lemma {:induction false} Gives(b: Bus, who: nat, n: nat)
    requires if b.depth > 0 then b.owner == who else b.owner == NOBODY
    ensures var d := if n <= b.depth then b.depth - n else 0;
            var late := if n <= b.depth then 0 else n - b.depth;
            Run(b, Repeat(Give(who), n)) == Bus(if d > 0 then who else NOBODY, d, b.violations, b.unpaired + late)
    decreases n
  {
    if n > 0 {
      assert Repeat(Give(who), n)[1..] == Repeat(Give(who), n - 1);
      Gives(Apply(b, Give(who)).0, who, n - 1);
    }
  }
}
