/**
 Safe mode (boot_guard.c, boot_policy.c): a failed-boot counter in RAM that survives watchdog and software resets, over
 whole runs of boots.
 */
module BootGuard {

  const SAFE_AFTER := 2   // BOOT_GUARD_SAFE_AFTER
  const STAGES := 8       // BOOT_STAGE_COUNT
  const NONE := 0         // BOOT_STAGE_NONE
  const RUNNING := 7      // BOOT_STAGE_RUNNING

  datatype Sub = Net | Hw
  const ALL: set<Sub> := {Net, Hw}

  datatype Task = NoTask | NetTask | HwTask | OtherTask   // whose crash the fault record names

  // .noinit RAM: whatever it was before, across a reset that is not a power-on.
  datatype Record = Record(magic: bool, failed: nat, stage: nat, lastStage: nat, started: set<Sub>,
                           done: set<Sub>, off: set<Sub>)

  // The record and what a boot keeps beside it.
  datatype State = State(rec: Record, safe: bool, off: set<Sub>, prior: nat)

  // boot_policy_culprit
  function Culprit(started: set<Sub>, done: set<Sub>, crashed: Task): set<Sub> {
    match crashed
    case NetTask => {Net}
    case HwTask => {Hw}
    case _ => (started - done) * ALL
  }

  // boot_policy_off
  function Off(prevOff: set<Sub>, culprit: set<Sub>): set<Sub> {
    if culprit != {} then prevOff * ALL + culprit else if prevOff * ALL != {} then prevOff * ALL else ALL
  }

  // ---- a boot ----

  datatype Event = Stage(stage: nat) | SubStart(sub: Sub) | SubDone(sub: Sub) | Healthy | Planned(planned: bool)

  // Fresh is a power-on or the reset button; the crashed task is what the fault record says at the start.
  datatype Boot = Boot(isFresh: bool, crashed: Task, events: seq<Event>)

  function Begin(r: Record, isFresh: bool, crashed: Task): State {
    var kept := !isFresh && r.magic;
    var failed := if kept then r.failed else 0;
    var last := if kept && r.stage < STAGES then r.stage else NONE;
    var culprit := Culprit(if kept then r.started else {}, if kept then r.done else {}, crashed);
    var safe := failed >= SAFE_AFTER;
    var off := if safe then Off(if kept then r.off else {}, culprit) else {};
    State(Record(true, failed + 1, NONE, last, {}, {}, off), safe, off, failed)
  }

  function Do(s: State, e: Event): State {
    match e
    case Stage(n) => s.(rec := s.rec.(stage := n))
    case SubStart(b) => s.(rec := s.rec.(started := s.rec.started + {b}))
    case SubDone(b) => s.(rec := s.rec.(done := s.rec.done + {b}))
    case Healthy => if s.safe then s else s.(rec := s.rec.(failed := 0, stage := RUNNING))
    case Planned(p) => if s.safe then s else s.(rec := s.rec.(failed := if p then s.prior else s.prior + 1))
  }

  function DoAll(s: State, events: seq<Event>): State {
    if events == [] then s else Do(DoAll(s, events[..|events| - 1]), events[|events| - 1])
  }

  function RunBoot(r: Record, b: Boot): State {
    DoAll(Begin(r, b.isFresh, b.crashed), b.events)
  }

  // The state at the end of the last boot of a run; `r` is what the RAM held before the first.
  function Run(r: Record, boots: seq<Boot>): State
    requires boots != []
  {
    var last := boots[|boots| - 1];
    if |boots| == 1 then RunBoot(r, last) else RunBoot(Run(r, boots[..|boots| - 1]).rec, last)
  }

  // Nothing in a boot changes what it was begun as.
  lemma {:induction false} BootKeeps(s: State, events: seq<Event>)
    ensures var t := DoAll(s, events);
            && t.safe == s.safe && t.off == s.off && t.prior == s.prior
            && t.rec.magic == s.rec.magic && t.rec.off == s.rec.off
  {
    if events != [] { BootKeeps(s, events[..|events| - 1]); }
  }

  // ---- how a boot counts ----

  datatype Verdict = Failed | Good | Excused

  // The last thing said about a boot decides.
  function Ending(events: seq<Event>): Verdict {
    if events == [] then Failed
    else
      match events[|events| - 1]
      case Healthy => Good
      case Planned(p) => if p then Excused else Failed
      case _ => Ending(events[..|events| - 1])
  }

  function Counted(prior: nat, v: Verdict): nat {
    match v
    case Failed => prior + 1
    case Good => 0
    case Excused => prior
  }

  lemma {:induction false} EndingDecides(s: State, events: seq<Event>)
    requires s.rec.failed == s.prior + 1
    ensures DoAll(s, events).rec.failed == if s.safe then s.prior + 1 else Counted(s.prior, Ending(events))
  {
    if events != [] {
      var init := events[..|events| - 1];
      EndingDecides(s, init);
      BootKeeps(s, init);
    }
  }

  // The failed-boot count before the next boot, from the boots' endings alone.
  function Count(boots: seq<Boot>): nat
    decreases |boots|, 1
  {
    if boots == [] then 0
    else
      var last := boots[|boots| - 1];
      var before := Before(boots);
      if before >= SAFE_AFTER then before + 1 else Counted(before, Ending(last.events))
  }

  // The count the last boot of a run starts with.
  function Before(boots: seq<Boot>): nat
    requires boots != []
    decreases |boots|, 0
  {
    if boots[|boots| - 1].isFresh then 0 else Count(boots[..|boots| - 1])
  }

  /** The record in RAM keeps that count over any run from a fresh start, and the boot is a safe one exactly when it
      starts with two. */
  lemma {:induction false} CountIsKept(r: Record, boots: seq<Boot>)
    requires boots != [] && boots[0].isFresh
    ensures var s := Run(r, boots);
            && s.rec.magic && s.rec.failed == Count(boots) && s.prior == Before(boots)
            && (s.safe <==> Before(boots) >= SAFE_AFTER) && s.rec.off == s.off && (!s.safe ==> s.off == {})
    decreases |boots|
  {
    hide Off, Culprit;
    var last := boots[|boots| - 1];
    if |boots| > 1 { CountIsKept(r, boots[..|boots| - 1]); }
    var r' := if |boots| == 1 then r else Run(r, boots[..|boots| - 1]).rec;
    var s := Begin(r', last.isFresh, last.crashed);
    BootKeeps(s, last.events);
    EndingDecides(s, last.events);
  }

  // ---- safe mode over a run ----

  // The second boot follows the first in one run without a fresh start in between.
  predicate Follows(boots: seq<Boot>, i: nat, j: nat) {
    0 < i <= j <= |boots| && forall k :: i <= k < j ==> !boots[k].isFresh
  }

  lemma OffKeepsAndAdds(prev: set<Sub>, culprit: set<Sub>)
    ensures Off(prev, culprit) != {} && prev <= Off(prev, culprit) <= ALL
  {
    forall b | b in prev + culprit
      ensures b in ALL
    {
      assert b == Net || b == Hw;
    }
  }

  /** Once a boot is safe, every boot until the next fresh start is; each turns something off, and the set never
      shrinks. */
  lemma {:induction false} SafeModeIsSticky(r: Record, boots: seq<Boot>, i: nat, j: nat)
    requires boots != [] && boots[0].isFresh && Follows(boots, i, j) && Run(r, boots[..i]).safe
    ensures Run(r, boots[..j]).safe && {} != Run(r, boots[..i]).off <= Run(r, boots[..j]).off <= ALL
    decreases j
  {
    hide Begin, Culprit;
    if i == j {
      CountIsKept(r, boots[..i]);
      SafeOff(r, boots[..i]);
    } else {
      SafeModeIsSticky(r, boots, i, j - 1);
      var init, now := boots[..j - 1], boots[..j];
      assert now[..j - 1] == init;
      CountIsKept(r, init);
      CountIsKept(r, now);
      assert Before(now) == Count(init) >= SAFE_AFTER;
      SafeOff(r, now);
    }
  }

  /** The first safe boot of a run turns off what the boot before it died of: the subsystem whose task crashed, or those
      whose bring-up had begun and was not done, or both when neither says anything. */
  lemma FirstSafeOff(r: Record, boots: seq<Boot>)
    requires |boots| > 1 && boots[0].isFresh && Run(r, boots).safe && !Run(r, boots[..|boots| - 1]).safe
    ensures var last, before := boots[|boots| - 1], boots[|boots| - 2];
            && (last.crashed == NetTask ==> Run(r, boots).off == {Net})
            && (last.crashed == HwTask ==> Run(r, boots).off == {Hw})
            && (last.crashed in {NoTask, OtherTask} ==>
                  var stuck := set b | b in ALL && SubStart(b) in before.events && SubDone(b) !in before.events;
                  Run(r, boots).off == if stuck != {} then stuck else ALL)
  {
    var n := |boots|;
    var init, last, before := boots[..n - 1], boots[n - 1], boots[n - 2];
    CountIsKept(r, init);
    CountIsKept(r, boots);
    var r' := if n == 2 then r else Run(r, init[..n - 2]).rec;
    var s := Begin(r', before.isFresh, before.crashed);
    MarksAre(s, before.events);
    BootKeeps(s, before.events);
    BootKeeps(Begin(Run(r, init).rec, last.isFresh, last.crashed), last.events);
    assert Run(r, init) == RunBoot(r', before);
    assert Before(boots) >= SAFE_AFTER;
    assert !last.isFresh;
    var rec := Run(r, init).rec;
    assert rec.off == {} && rec.magic;
    assert Culprit(rec.started, rec.done, NoTask) == Culprit(rec.started, rec.done, OtherTask)
        == set b | b in ALL && SubStart(b) in before.events && SubDone(b) !in before.events;
  }

  // A boot's record of its subsystems.
  lemma {:induction false} MarksAre(s: State, events: seq<Event>)
    ensures var rec := DoAll(s, events).rec;
            forall b :: (b in rec.started <==> b in s.rec.started || SubStart(b) in events)
                        && (b in rec.done <==> b in s.rec.done || SubDone(b) in events)
  {
    if events != [] {
      var init, e := events[..|events| - 1], events[|events| - 1];
      MarksAre(s, init);
      assert events == init + [e];
    }
  }

  /** Later ones add theirs to it. */
  lemma SafeOffAdds(prev: set<Sub>, culprit: set<Sub>)
    requires prev <= ALL && prev != {}
    ensures Off(prev, culprit) == prev + culprit
  {
    AllSubs(prev);
  }

  lemma AllSubs(x: set<Sub>)
    ensures x * ALL == x
  {
    forall b | b in x
      ensures b in ALL
    {
      assert b == Net || b == Hw;
    }
  }

  // How far a boot came, as the record has it.
  function StageOf(safe: bool, events: seq<Event>): nat {
    if events == [] then NONE
    else
      match events[|events| - 1]
      case Stage(n) => n
      case Healthy => if safe then StageOf(safe, events[..|events| - 1]) else RUNNING
      case _ => StageOf(safe, events[..|events| - 1])
  }

  lemma {:induction false} StageIs(s: State, events: seq<Event>)
    requires s.rec.stage == NONE
    ensures DoAll(s, events).rec.stage == StageOf(s.safe, events)
  {
    if events != [] {
      StageIs(s, events[..|events| - 1]);
      BootKeeps(s, events[..|events| - 1]);
    }
  }

  /** The next boot knows how far the one before it came, if that was a stage at all. */
  lemma LastStageIsKept(r: Record, boots: seq<Boot>)
    requires |boots| > 1 && boots[0].isFresh && !boots[|boots| - 1].isFresh && boots[|boots| - 1].events == []
    ensures var n := StageOf(Run(r, boots[..|boots| - 1]).safe, boots[|boots| - 2].events);
            Run(r, boots).rec.lastStage == if n < STAGES then n else NONE
  {
    var n := |boots|;
    var init, before := boots[..n - 1], boots[n - 2];
    CountIsKept(r, init);
    var r' := if n == 2 then r else Run(r, init[..n - 2]).rec;
    var s := Begin(r', before.isFresh, before.crashed);
    StageIs(s, before.events);
    BootKeeps(s, before.events);
    assert Run(r, init) == RunBoot(r', before);
  }

  // What a safe boot turns off: what the boot before it did, and its culprit.
  lemma SafeOff(r: Record, boots: seq<Boot>)
    requires boots != [] && Run(r, boots).safe
    ensures {} != Run(r, boots).off <= ALL
    ensures |boots| > 1 && !boots[|boots| - 1].isFresh && Run(r, boots[..|boots| - 1]).rec.magic
        ==> Run(r, boots[..|boots| - 1]).rec.off <= Run(r, boots).off
  {
    var last := boots[|boots| - 1];
    var r' := if |boots| == 1 then r else Run(r, boots[..|boots| - 1]).rec;
    BootKeeps(Begin(r', last.isFresh, last.crashed), last.events);
    var kept := !last.isFresh && r'.magic;
    OffKeepsAndAdds(if kept then r'.off else
      {}, Culprit(if kept then r'.started else {}, if kept then r'.done else {}, last.crashed));
    hide Off, Culprit;
  }

  /** So it changes at most once in a stretch of safe boots. */
  lemma ChangesAtMostOnce(r: Record, boots: seq<Boot>, i: nat, j: nat, k: nat)
    requires boots != [] && boots[0].isFresh && Follows(boots, i, j) && Follows(boots, j, k) && Run(r, boots[..i]).safe
    ensures Run(r, boots[..i]).off == Run(r, boots[..j]).off || Run(r, boots[..j]).off == Run(r, boots[..k]).off
  {
    hide Run;
    SafeModeIsSticky(r, boots, i, j);
    SafeModeIsSticky(r, boots, j, k);
    TwoSteps(Run(r, boots[..i]).off, Run(r, boots[..j]).off, Run(r, boots[..k]).off);
  }

  lemma TwoSteps(a: set<Sub>, b: set<Sub>, c: set<Sub>)
    requires {} != a <= b <= c <= ALL
    ensures a == b || b == c
  {
    if a != b {
      var x :| x in a;
      var y :| y in b && y !in a;
      assert x != y;
      forall z | z in c
        ensures z in b
      {
        assert z == x || z == y;
      }
    }
  }

  /** Two boots in a row from a fresh start that end neither healthy nor planned make the third a safe one. */
  lemma ThirdIsSafe(r: Record, b1: Boot, b2: Boot, b3: Boot)
    requires b1.isFresh && !b2.isFresh && !b3.isFresh && Ending(b1.events) == Failed == Ending(b2.events)
    ensures Run(r, [b1, b2, b3]).safe && !Run(r, [b1]).safe && !Run(r, [b1, b2]).safe
  {
    hide Run;
    CountIsKept(r, [b1]);
    CountIsKept(r, [b1, b2]);
    CountIsKept(r, [b1, b2, b3]);
    assert [b1][..0] == [] && [b1, b2][..1] == [b1] && [b1, b2, b3][..2] == [b1, b2];
    assert Count([b1]) == 1;
    assert Count([b1, b2]) == 2;
  }

  /** More generally, two failed boots in a row always do, whatever came before. */
  lemma TwoInARow(r: Record, boots: seq<Boot>)
    requires |boots| >= 3 && boots[0].isFresh && Follows(boots, |boots| - 2, |boots|)
    requires Ending(boots[|boots| - 3].events) == Failed == Ending(boots[|boots| - 2].events)
    ensures Run(r, boots).safe
  {
    hide Run;
    var n := |boots|;
    CountIsKept(r, boots);
    var two, one := boots[..n - 1], boots[..n - 2];
    assert two[..n - 2] == one;
    assert Count(one) >= 1;
    assert Before(two) == Count(one);
    assert Count(two) >= 2;
  }

  /** A run in which every boot ends healthy or in a planned reset never gets there. */
  lemma {:induction false} NeverWithoutFailure(r: Record, boots: seq<Boot>)
    requires boots != [] && boots[0].isFresh
    requires forall k :: 0 <= k < |boots| - 1 ==> Ending(boots[k].events) != Failed
    ensures !Run(r, boots).safe && Before(boots) == 0
  {
    hide Run;
    CountIsKept(r, boots);
    if |boots| > 1 {
      var init := boots[..|boots| - 1];
      NeverWithoutFailure(r, init);
      assert init[|init| - 1] == boots[|boots| - 2];
    }
  }

  // ---- "boots in a row that never reached healthy" ----

  // What the record's comment says the counter is: a boot marked healthy at any point starts it over.
  function InARow(prior: nat, events: seq<Event>): nat {
    if Healthy in events then 0 else Counted(prior, Ending(events))
  }

  /** What the record holds at the end of a boot is that count exactly when: in a safe boot, it was neither marked
      healthy nor ended by a planned reset; in a normal one, it was not marked healthy and then reset as planned with
      failures before it, nor with the plan taken back. */
  lemma CountAfterHealthy(s: State, events: seq<Event>)
    requires s.rec.failed == s.prior + 1
    ensures DoAll(s, events).rec.failed == InARow(s.prior, events) <==>
        if s.safe then Healthy !in events && Ending(events) == Failed
        else !(Healthy in events && (Ending(events) == Failed || (Ending(events) == Excused && s.prior > 0)))
  {
    EndingDecides(s, events);
    if Healthy !in events { NotGood(events); }
  }

  lemma {:induction false} NotGood(events: seq<Event>)
    requires Healthy !in events
    ensures Ending(events) != Good
  {
    if events != [] { NotGood(events[..|events| - 1]); }
  }

  /** So a pod that failed once, came up healthy, was rebooted on request and failed once more starts in safe mode. */
  lemma HealthyBootForgotten(r: Record)
    ensures var failed := Boot(false, NoTask, []);
            var good := Boot(false, NoTask, [Healthy, Planned(true)]);
            Run(r, [failed.(isFresh := true), good, failed, failed]).safe
  {
    hide Run;
    var b1, b2, b3 := Boot(true, NoTask, []), Boot(false, NoTask, [Healthy, Planned(true)]), Boot(false, NoTask, []);
    CountIsKept(r, [b1, b2, b3, b3]);
    assert [b1][..0] == [] && [b1, b2][..1] == [b1] && [b1, b2, b3][..2] == [b1, b2] &&
        [b1, b2, b3, b3][..3] == [b1, b2, b3];
    assert Count([b1]) == 1;
    assert Count([b1, b2]) == 1;
    assert Count([b1, b2, b3]) == 2;
  }

  // ---- the module's variables ----

  class Guard {
    var rec: Record
    var safe: bool
    var off: set<Sub>
    var prior: nat

    ghost function View(): State
      reads this
    {
      State(rec, safe, off, prior)
    }

    // Power: the RAM holds anything.
    constructor (noise: Record)
      ensures rec == noise
    {
      rec, safe, off, prior := noise, false, {}, 0;
    }

    // Startup code clears everything but .noinit, then boot_guard_begin.
    method Start(isFresh: bool, crashed: Task)
      modifies this
      ensures View() == Begin(old(rec), isFresh, crashed)
    {
      safe, off, prior := false, {}, 0;
      var failed, last, started, done, prevOff := 0, NONE, {}, {}, {};
      if !isFresh && rec.magic {
        failed := rec.failed;
        last := if rec.stage < STAGES then rec.stage else NONE;
        started, done, prevOff := rec.started, rec.done, rec.off;
      }
      var culprit := Culprit(started, done, crashed);
      if failed >= SAFE_AFTER {
        safe := true;
        off := Off(prevOff, culprit);
      }
      prior := failed;
      rec := Record(true, failed + 1, NONE, last, {}, {}, off);
    }

    method MarkStage(n: nat)
      modifies this`rec
      ensures View() == Do(old(View()), Stage(n))
    {
      rec := rec.(stage := n);
    }

    method MarkStart(b: Sub)
      modifies this`rec
      ensures View() == Do(old(View()), SubStart(b))
    {
      rec := rec.(started := rec.started + {b});
    }

    method MarkDone(b: Sub)
      modifies this`rec
      ensures View() == Do(old(View()), SubDone(b))
    {
      rec := rec.(done := rec.done + {b});
    }

    method MarkHealthy()
      modifies this`rec
      ensures View() == Do(old(View()), Healthy)
    {
      if safe { return; }
      rec := rec.(failed := 0, stage := RUNNING);
    }

    method PlannedReset(planned: bool)
      modifies this`rec
      ensures View() == Do(old(View()), Planned(planned))
    {
      if safe { return; }
      rec := rec.(failed := if planned then prior else prior + 1);
    }

    /** A whole run through these calls, each boot ended by a reset wherever it stands. */
    method RunAll(boots: seq<Boot>)
      requires boots != []
      modifies this
      ensures View() == Run(old(rec), boots)
    {
      hide Begin, Do;
      var i := 0;
      while i < |boots|
        invariant 0 <= i <= |boots|
        invariant i == 0 ==> rec == old(rec)
        invariant i > 0 ==> View() == Run(old(rec), boots[..i])
      {
        ghost var r := rec;
        Start(boots[i].isFresh, boots[i].crashed);
        Live(boots[i].events);
        assert boots[..i + 1][..i] == boots[..i];
        i := i + 1;
      }
      assert boots[..i] == boots;
    }

    method Live(events: seq<Event>)
      modifies this`rec
      ensures View() == DoAll(old(View()), events)
    {
      hide Do;
      var i := 0;
      while i < |events|
        invariant 0 <= i <= |events| && View() == DoAll(old(View()), events[..i])
      {
        match events[i] {
          case Stage(n) => MarkStage(n);
          case SubStart(b) => MarkStart(b);
          case SubDone(b) => MarkDone(b);
          case Healthy => MarkHealthy();
          case Planned(p) => PlannedReset(p);
        }
        assert events[..i + 1][..i] == events[..i];
        i := i + 1;
      }
      assert events[..i] == events;
    }
  }
}
