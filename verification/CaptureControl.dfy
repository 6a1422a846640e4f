/**
 The multi-client capture machine: one heavy-operation gate, five mutually exclusive activities, a trigger wait and
 the shared PSRAM bus (command_handler_capture.c, command_handler.c, bus_owner.c).

 `Next` says what every request, poll pass, close and reconfiguration does; the methods of `Machine` do it the way
 the code does, statement by statement. What the hardware, the clock and the client do arrives as parameters. The
 fabric's trigger registers are part of the state: they are written before the gate is asked, and read live.
 */
module CaptureControl {
  import opened BusOwner
  import opened HeavyHold
  import opened Options

  datatype Kind = V2 | La | Dual

  datatype Cap = Cap(active: bool, conn: int, changes: bool)
  datatype Scan = Scan(active: bool, conn: int)
  // trig: the trigger outcome this reply carries, if any
  datatype Send = Send(active: bool, conn: int, fromPsram: bool, trig: Option<Outcome>)
  datatype Wait = Wait(active: bool, conn: int, cond: Cond, fired: bool)

  // A trigger condition: la_trigger_t, without its timeout.
  datatype Edge = Rising | Falling | High | Low
  datatype Cond = Cond(la: nat, edge: Edge, pre: bool)

  // The SET_TRIGGER registers. `Off` (channel 0, mode 0) means an arm does not wait; a capture that already waits goes
  // on to wait, for a low level on channel 0.
  datatype Trigger = Off | On(cond: Cond)

  // parked: trig_wait, the producers are loaded and wait; hit: trig_fired, and what the registers said then
  datatype Fabric = Fabric(trig: Trigger, parked: bool, hit: Option<Trigger>)

  // What a reply says about the trigger of connection conn's capture, and what its fabric in truth fired on.
  datatype Outcome = Outcome(conn: int, cond: Cond, fired: bool, hit: Option<Trigger>)
  {
    predicate Truthful() { fired ==> hit == Some(On(cond)) }
  }

  datatype State = State(
    v2: Cap, la: Cap, dual: Cap,
    chg: Scan,
    bulk: Send,
    wait: Wait,
    reply: Option<Outcome>,    // trig_reply, staged for the next reply
    owner: int,
    bus: Bus,
    fabric: Fabric)
  {
    // capture_busy
    predicate Busy() { v2.active || la.active || chg.active || dual.active || bulk.active }

    // Bus takes the capture path must be holding.
    function Holds(): nat { if chg.active || (bulk.active && bulk.fromPsram) then 1 else 0 }

    function Activities(): nat {
      (if v2.active then 1 else 0) + (if la.active then 1 else 0) + (if dual.active then 1 else 0)
      + (if chg.active then 1 else 0) + (if bulk.active then 1 else 0)
    }

    predicate ActiveFor(c: int) {
      || (v2.active && v2.conn == c) || (la.active && la.conn == c) || (dual.active && dual.conn == c)
      || (chg.active && chg.conn == c) || (bulk.active && bulk.conn == c)
    }

    predicate Capturing(c: int) {
      (v2.active && v2.conn == c) || (la.active && la.conn == c) || (dual.active && dual.conn == c)
    }

    // The invariant of gate, activities and trigger wait,
    predicate GateInv() {
      && Activities() <= 1
      && (Busy() ==> owner >= 0 && ActiveFor(owner))
      && (wait.active ==> Capturing(wait.conn))
      && (reply.Some? ==> reply.value.conn >= 0)
    }

    // and with the bus.
    predicate Inv() {
      GateInv() && bus == Bus(if Holds() > 0 then WORKER else NOBODY, Holds(), 0, 0)
    }

    // No outcome is waiting for a reply that is not coming, and every outcome going out is the sender's own.
    predicate OutcomesOwn() {
      && (reply.Some? ==> chg.active && chg.conn == reply.value.conn)
      && (bulk.active && bulk.trig.Some? ==> bulk.trig.value.conn == bulk.conn)
    }

    // The fabric waits for what the waiting capture asked for, or fired on it; with nothing waiting its trigger is off
    // and no capture is parked.
    predicate TriggerOwn() {
      if !wait.active then fabric.trig == Off && !fabric.parked
      else if fabric.parked then fabric.trig == On(wait.cond) && fabric.hit == None && !wait.fired
      else fabric.hit == Some(On(wait.cond))
    }

    // Every outcome that says "fired" is of a capture whose own condition was seen.
    predicate OutcomesTrue() {
      (reply.Some? ==> reply.value.Truthful()) && (bulk.active && bulk.trig.Some? ==> bulk.trig.value.Truthful())
    }
  }

  const IDLE_CAP := Cap(false, 0, false)

  const NO_COND := Cond(0, Rising, false)

  const IDLE_FABRIC := Fabric(Off, false, None)

  const INITIAL := State(IDLE_CAP, IDLE_CAP, IDLE_CAP, Scan(false, 0), Send(false, 0, false, None),
                         Wait(false, 0, NO_COND, false), None, NONE, Bus(NOBODY, 0, 0, 0), IDLE_FABRIC)

  // The trigger field of a request: none; malformed or too new for the gateware; a SET_TRIGGER whose transfer failed,
  // after it reached the fabric or before; or set.
  datatype Setting = NoTrigger | BadTrigger | NotSet(cond: Cond, reached: bool) | SetTo(cond: Cond)

  // What became of the arm: it failed before anything was sent, it failed and was aborted, or it is armed.
  datatype Arm = NotArmed | Aborted | Armed

  datatype Action =
    // capture, la_capture, capture_dual
    | Capture(conn: nat, kind: Kind, trigger: Setting, changes: bool, otherHeavy: bool, arm: Arm)
    // stream, measure
    | Stream(conn: nat, otherHeavy: bool, arm: Arm)
    // test, sensor_regs, sensor_la: a reply straight from RAM
    | RamReply(conn: nat, otherHeavy: bool, filled: bool)
    // capture_read, with the data still there and the offset in range
    | CaptureRead(conn: nat, otherHeavy: bool, atEnd: bool)
    // an upload or a routing command takes the gate without an activity, and gives it back
    | Claim(conn: nat, otherHeavy: bool)
    | Release(conn: nat)
    // the pins do what the trigger registers say
    | Fires
    // the passes of capture_poll; `read`: the trigger status could be read
    | PollTrigger(read: bool, expired: bool)
    | PollV2(result: int, read: bool)
    | PollLa(result: int, read: bool)
    | PollScan(scan: ScanResult)
    | PollDual(result: int, read: bool, sentinel: bool)
    | PollBulk(send: SendResult)
    | Closed(conn: nat)
    | Reconfigured

  datatype ScanResult = Scanning | ScanFailed | ScanReady
  datatype SendResult = Pacing | SendDone | SendReadFailed | SendLost

  // ---- what each action does ----

  function FreedBy(s: State, c: int): State { s.(owner := if s.owner == c then NONE else s.owner) }

  function BusGiven(s: State): State { s.(bus := Apply(s.bus, Give(WORKER)).0) }

  function Taken(s: State): State { s.(bus := Apply(s.bus, Take(WORKER)).0) }

  // heavy_begin
  predicate MayBegin(s: State, c: nat, otherHeavy: bool) {
    !s.Busy() && !otherHeavy && (s.owner == NONE || s.owner == c)
  }

  function Triggered(s: State, t: Trigger): State { s.(fabric := s.fabric.(trig := t)) }

  // fpga_capture_abort: nothing captures, waits or is set to wait.
  function AbortedCapture(s: State): State { s.(fabric := IDLE_FABRIC) }

  // CAPTURE: with a trigger set the producers wait.
  function ArmedFabric(f: Fabric): Fabric { Fabric(f.trig, f.trig.On?, None) }

  // capture_trigger_done: the outcome is staged, the wait is over, the trigger is off.
  function TriggerDone(s: State, read: bool): State {
    if !s.wait.active then s
    else
      var fired := s.wait.fired || (read && s.fabric.hit.Some?);
      Triggered(s.(reply := Some(Outcome(s.wait.conn, s.wait.cond, fired, s.fabric.hit)),
                  wait := s.wait.(active := false, fired := fired)), Off)
  }

  // What a completion poll reads: a capture whose producers are parked is not done.
  function Polled(s: State, r: int): int { if r > 0 && s.fabric.parked then 0 else r }

  // bulk_begin and bulk_begin_capture16, with bulk_take_trigger
  function Sending(s: State, c: int, psram: bool): State {
    s.(bulk := Send(true, c, psram, s.reply), reply := None)
  }

  // No outcome, the error, the gate back.
  function Failed(s: State, c: int): State { FreedBy(s.(reply := None), c) }

  function WithCap(s: State, k: Kind, c: Cap): State {
    match k
    case V2 => s.(v2 := c)
    case La => s.(la := c)
    case Dual => s.(dual := c)
  }

  function HandedOver(s: State): State { s.(bus := Apply(s.bus, Handover).0) }

  function Next(s: State, a: Action): State {
    match a
    case Capture(c, kind, trigger, changes, other, arm) =>
      Requested(s.(reply := None), c, kind, trigger, changes, other, arm)
    case Stream(c, other, arm) =>
      if !MayBegin(s, c, other) then s
      else if !arm.Armed? then NotBegun(FreedBy(s.(owner := c), c), arm)
      else HandedOver(s.(owner := c, v2 := Cap(true, c, false), fabric := ArmedFabric(s.fabric)))
    case RamReply(c, other, filled) =>
      if !MayBegin(s, c, other) then s
      else if !filled then FreedBy(s.(owner := c), c)
      else Sending(s.(owner := c), c, false)
    case CaptureRead(c, other, atEnd) =>
      if !MayBegin(s, c, other) then s
      else if atEnd then FreedBy(s.(owner := c), c)
      else Taken(s.(owner := c, bulk := Send(true, c, true, None)))
    case Claim(c, other) => if MayBegin(s, c, other) then s.(owner := c) else s
    case Release(c) => if s.Busy() then s else FreedBy(s, c)
    case Fires =>
      if s.fabric.parked then s.(fabric := Fabric(s.fabric.trig, false, Some(s.fabric.trig))) else s
    case PollTrigger(read, expired) =>
      if !s.wait.active then s
      else
        var s1 := s.(wait := s.wait.(fired := s.wait.fired || (read && s.fabric.hit.Some?)));
        if s1.wait.fired || !expired then s1
        else
          var c := s.wait.conn;
          FreedBy(AbortedCapture(s1.(wait := s1.wait.(active := false), v2 := Stopped(s.v2, c), la := Stopped(s.la, c),
                                   dual := Stopped(s.dual, c))), c)
    case PollV2(result, read) =>
      var r := Polled(s, result);
      if !s.v2.active || r == 0 then s
      else
        var s1 := TriggerDone(s, read).(v2 := s.v2.(active := false));
        if r > 0 then Sending(s1, s.v2.conn, false) else Failed(AbortedCapture(s1), s.v2.conn)
    case PollLa(result, read) =>
      var r := Polled(s, result);
      if !s.la.active || r == 0 then s
      else
        var s1 := TriggerDone(s, read).(la := s.la.(active := false));
        if r < 0 then Failed(AbortedCapture(s1), s.la.conn)
        else if s.la.changes then Taken(s1).(chg := Scan(true, s.la.conn))
        else Sending(Taken(s1), s.la.conn, true)
    case PollScan(r) =>
      if !s.chg.active || r.Scanning? then s
      else
        var s1 := s.(chg := s.chg.(active := false));
        if r.ScanFailed? then Failed(BusGiven(s1), s.chg.conn) else Sending(s1, s.chg.conn, true)
    case PollDual(result, read, sentinel) =>
      var r := Polled(s, result);
      if !s.dual.active || r == 0 then s
      else
        var s1 := TriggerDone(s, read).(dual := s.dual.(active := false));
        if r < 0 then Failed(AbortedCapture(s1), s.dual.conn)
        else if sentinel then Failed(BusGiven(Taken(s1)), s.dual.conn)
        else if s.dual.changes then Taken(s1).(chg := Scan(true, s.dual.conn))
        else Sending(Taken(s1), s.dual.conn, true)
    case PollBulk(r) =>
      if !s.bulk.active || r.Pacing? then s
      else
        var s1 := s.(bulk := s.bulk.(active := false));
        FreedBy(if s.bulk.fromPsram then BusGiven(s1) else s1, s.bulk.conn)
    case Closed(c) =>
      var held := (s.chg.active && s.chg.conn == c) || (s.bulk.active && s.bulk.conn == c && s.bulk.fromPsram);
      var s1 := s.(v2 := Stopped(s.v2, c), la := Stopped(s.la, c), dual := Stopped(s.dual, c),
                   chg := if s.chg.conn == c then s.chg.(active := false) else s.chg,
                   bulk := if s.bulk.conn == c then s.bulk.(active := false) else s.bulk,
                   wait := if s.wait.conn == c then s.wait.(active := false) else s.wait,
                   fabric := if s.Capturing(c) || (s.wait.active && s.wait.conn == c) then IDLE_FABRIC else s.fabric);
      FreedBy(if held then BusGiven(s1) else s1, c)
    case Reconfigured =>
      HandedOver(s).(wait := s.wait.(active := false), reply := None, fabric := IDLE_FABRIC)
  }

  // A capture request, from capture_trigger_begin on: SET_TRIGGER comes before the gate.
  function Requested(s: State, c: nat, kind: Kind, trigger: Setting, changes: bool, other: bool, arm: Arm): State {
    match trigger
    case BadTrigger => s
    case NotSet(cond, reached) => if reached then Triggered(s, On(cond)) else s
    case NoTrigger => Gated(s, c, kind, trigger, changes, other, arm)
    case SetTo(cond) => Gated(Triggered(s, On(cond)), c, kind, trigger, changes, other, arm)
  }

  // From heavy_begin on: a refusal and a failed arm turn the trigger off again.
  function Gated(s: State, c: nat, kind: Kind, trigger: Setting, changes: bool, other: bool, arm: Arm): State {
    if !MayBegin(s, c, other) then Cancelled(s, trigger)
    else if !arm.Armed? then Cancelled(NotBegun(FreedBy(s.(owner := c), c), arm), trigger)
    else
      var t := WithCap(Begun(s, c), kind, Cap(true, c, changes));
      if trigger.SetTo? then t.(wait := Wait(true, c, trigger.cond, false)) else t
  }

  // capture_trigger_cancel
  function Cancelled(s: State, trigger: Setting): State { if trigger.SetTo? then Triggered(s, Off) else s }

  function Begun(s: State, c: nat): State { HandedOver(s.(owner := c, fabric := ArmedFabric(s.fabric))) }

  function NotBegun(s: State, arm: Arm): State { HandedOver(if arm.Aborted? then AbortedCapture(s) else s) }

  function Stopped(k: Cap, c: int): Cap { if k.conn == c then k.(active := false) else k }

  // ---- what it promises ----

  predicate IsRequest(a: Action) { a.Capture? || a.Stream? || a.RamReply? || a.CaptureRead? || a.Claim? || a.Release? }

  lemma RequestKeepsInv(s: State, a: Action)
    requires s.Inv() && IsRequest(a)
    ensures Next(s, a).Inv()
  {
    if a.Capture? {
      hide Requested;
      CaptureKeepsInv(s.(reply := None), a.conn, a.kind, a.trigger, a.changes, a.otherHeavy, a.arm);
    }
  }

  lemma CaptureKeepsInv(s: State, c: nat, kind: Kind, trigger: Setting, changes: bool, other: bool, arm: Arm)
    requires s.GateInv()
    ensures var t := Requested(s, c, kind, trigger, changes, other, arm);
            t.GateInv() && (s.Inv() ==> t.Inv())
  {
    hide Gated;
    match trigger
    case NoTrigger => GateKeepsInv(s, c, kind, trigger, changes, other, arm);
    case SetTo(cond) => GateKeepsInv(Triggered(s, On(cond)), c, kind, trigger, changes, other, arm);
    case _ =>
  }

  lemma GateKeepsInv(s: State, c: nat, kind: Kind, trigger: Setting, changes: bool, other: bool, arm: Arm)
    requires s.GateInv()
    ensures var t := Gated(s, c, kind, trigger, changes, other, arm);
            t.GateInv() && (s.Inv() ==> t.Inv())
  {
    if MayBegin(s, c, other) && arm.Armed? {
      var t := Gated(s, c, kind, trigger, changes, other, arm);
      assert t.owner == c && t.bus == Apply(s.bus, Handover).0;
    }
  }

  lemma CompletionKeepsInv(s: State, a: Action)
    requires s.Inv() && (a.PollV2? || a.PollLa? || a.PollDual?)
    ensures Next(s, a).Inv()
  {
  }

  // The reload of the gateware forces the bus over to the iCE40, whoever holds it.
  predicate ReloadsUnderHold(s: State, a: Action) {
    a.Reconfigured? && s.Holds() > 0
  }

  /** A step keeps the invariant - at most one activity, its connection owns the gate, a waiting trigger belongs to a
      capture of its own connection, and the bus is held exactly once, exactly while PSRAM is being read, with no
      unpaired give and no violation - exactly when it does not reload the gateware under a scan or a PSRAM reply. */
  lemma StepKeepsInv(s: State, a: Action)
    requires s.Inv()
    ensures Next(s, a).Inv() <==> !ReloadsUnderHold(s, a)
  {
    if IsRequest(a) {
      RequestKeepsInv(s, a);
    } else if a.PollV2? || a.PollLa? || a.PollDual? {
      CompletionKeepsInv(s, a);
    }
  }

  /** Gate, activities and trigger wait stay right through every step. */
  lemma StepKeepsGate(s: State, a: Action)
    requires s.GateInv()
    ensures Next(s, a).GateInv()
  {
    if IsRequest(a) {
      RequestKeepsGate(s, a);
    } else if a.PollV2? || a.PollLa? || a.PollDual? {
      CompletionKeepsGate(s, a);
    }
  }

  lemma RequestKeepsGate(s: State, a: Action)
    requires s.GateInv() && IsRequest(a)
    ensures Next(s, a).GateInv()
  {
    if a.Capture? {
      hide Requested;
      CaptureKeepsInv(s.(reply := None), a.conn, a.kind, a.trigger, a.changes, a.otherHeavy, a.arm);
    }
  }

  lemma CompletionKeepsGate(s: State, a: Action)
    requires s.GateInv() && (a.PollV2? || a.PollLa? || a.PollDual?)
    ensures Next(s, a).GateInv()
  {
  }

  function Reached(s: State, run: seq<Action>): State
    decreases |run|
  {
    if run == [] then s else Reached(Next(s, run[0]), run[1..])
  }

  predicate NeverReloadsUnderHold(s: State, run: seq<Action>)
    decreases |run|
  {
    run == [] || (!ReloadsUnderHold(s, run[0]) && NeverReloadsUnderHold(Next(s, run[0]), run[1..]))
  }

  /** Over every run of requests, polls, timeouts, failures, stalls and closes; the gate through reloads as well. */
  lemma {:induction false} RunKeepsInv(s: State, run: seq<Action>)
    requires s.Inv()
    ensures Reached(s, run).GateInv()
    ensures NeverReloadsUnderHold(s, run) ==> Reached(s, run).Inv()
    decreases |run|
  {
    RunKeepsGate(s, run);
    if run != [] && NeverReloadsUnderHold(s, run) {
      StepKeepsInv(s, run[0]);
      RunKeepsInv(Next(s, run[0]), run[1..]);
    }
  }

  lemma {:induction false} RunKeepsGate(s: State, run: seq<Action>)
    requires s.GateInv()
    ensures Reached(s, run).GateInv()
    decreases |run|
  {
    if run != [] {
      StepKeepsGate(s, run[0]);
      RunKeepsGate(Next(s, run[0]), run[1..]);
    }
  }

  /** What a reload under a PSRAM reply costs: the read goes on without the bus, and the release at its end has no
      take to match. */
  lemma ReloadUnpairs(s: State, r: SendResult)
    requires s.Inv() && s.bulk.active && s.bulk.fromPsram && !r.Pacing?
    ensures var t := Next(s, Reconfigured);
            && t.bulk.active && t.bus.depth == 0 && t.bus.violations == 1
            && Next(t, PollBulk(r)).bus == Bus(NOBODY, 0, 1, 1)
  {
  }

  /** The pump's own exits do to gate and bus what this machine's step does. */
  lemma PumpExitIsStep(s: State, r: SendResult)
    requires s.bulk.active && !r.Pacing?
    ensures var h := Left(Hold(s.owner, s.bus), s.bulk.conn, s.bulk.fromPsram);
            Next(s, PollBulk(r)) == s.(bulk := s.bulk.(active := false), owner := h.owner, bus := h.bus)
  {
  }

  /** No exit leaks: whichever way an activity ends, in that same step the gate is free and the bus is back with the
      iCE40, unless the capture went on to its scan or its reply. */
  lemma EndFreesAll(s: State, a: Action)
    requires s.Inv() && s.Busy() && !Next(s, a).Busy()
    ensures Next(s, a).owner == NONE && Next(s, a).bus.depth == 0 && !Next(s, a).wait.active
  {
  }

  /** A closed connection leaves nothing behind: no activity, no trigger wait, no gate. */
  lemma CloseLeavesNothing(s: State, c: nat)
    requires s.Inv()
    ensures var t := Next(s, Closed(c));
            && !t.ActiveFor(c) && t.owner != c && !(t.wait.active && t.wait.conn == c)
            && (s.ActiveFor(c) ==> !t.Busy() && t.bus.depth == 0)
            && (!s.ActiveFor(c) ==>
                  && t.v2.active == s.v2.active && t.la.active == s.la.active && t.dual.active == s.dual.active
                  && t.chg.active == s.chg.active && t.bulk == s.bulk && t.bus == s.bus)
  {
  }

  /** While anything runs, a refused request leaves activities, gate and bus alone; but a capture request has dropped a
      staged trigger outcome by then, and a triggered one has rewritten and cleared the fabric's trigger. */
  lemma BusyIsUndisturbed(s: State, a: Action)
    requires s.GateInv() && s.Busy() && IsRequest(a)
    ensures Next(s, a) == s.(reply := Next(s, a).reply, fabric := s.fabric.(trig := Next(s, a).fabric.trig))
    ensures Next(s, a).reply == if a.Capture? then None else s.reply
    ensures Next(s, a).fabric.trig ==
            if a.Capture? && a.trigger.SetTo? then Off
            else if a.Capture? && a.trigger.NotSet? && a.trigger.reached then On(a.trigger.cond)
            else s.fabric.trig
  {
  }

  // ---- who gets the gate, and how long ----

  predicate NeedsGate(a: Action) { a.Capture? || a.Stream? || a.RamReply? || a.CaptureRead? || a.Claim? }

  // Something runs, another heavy operation does, or another connection holds the gate.
  predicate GateTaken(s: State, a: Action)
    requires NeedsGate(a)
  {
    || s.v2.active || s.la.active || s.dual.active || s.chg.active || s.bulk.active
    || a.otherHeavy || (s.owner != NONE && s.owner != a.conn)
  }

  // A capture request whose trigger field is in order.
  predicate WellAsked(a: Action) { a.Capture? ==> a.trigger.NoTrigger? || a.trigger.SetTo? }

  /** A request that finds the gate taken touches no activity, no wait, no owner and no bus. */
  lemma TakenIsRefused(s: State, a: Action)
    requires s.GateInv() && NeedsGate(a) && GateTaken(s, a)
    ensures var t := Next(s, a);
            && t == s.(reply := t.reply, fabric := s.fabric.(trig := t.fabric.trig))
            && (!a.Capture? ==> t == s)
            && (a.Capture? ==> t.reply == None)
  {
  }

  /** One that finds it free begins what it asks for, or, when that fails, leaves the gate free. */
  lemma FreeIsGranted(s: State, a: Action)
    requires s.GateInv() && NeedsGate(a) && WellAsked(a) && !GateTaken(s, a)
    ensures var t := Next(s, a);
            match a
            case Claim(c, _) => t == s.(owner := c)
            case Capture(c, kind, trigger, changes, _, arm) =>
              if !arm.Armed? then NothingHeld(t)
              else t.owner == c && CapOf(t, kind) == Cap(true, c, changes) && t.Activities() == 1 && t.reply == None
                   && (if trigger.SetTo? then t.wait == Wait(true, c, trigger.cond, false)
                         && t.fabric == Fabric(On(trigger.cond), true, None) else t.wait == s.wait)
            case Stream(c, _, arm) =>
              if !arm.Armed? then NothingHeld(t) else t.owner == c && t.v2 == Cap(true, c, false) && t.Activities() == 1
            case RamReply(c, _, filled) =>
              if !filled then NothingHeld(t)
              else t.owner == c && t.bulk == Send(true, c, false, s.reply) && t.reply == None && t.Activities() == 1
            case CaptureRead(c, _, atEnd) =>
              if atEnd then NothingHeld(t) && t.bus == s.bus
              else t.owner == c && t.bulk == Send(true, c, true, None) && t.Activities() == 1
                   && t.bus == Apply(s.bus, Take(WORKER)).0
  {
  }

  predicate NothingHeld(t: State) { t.owner == NONE && t.Activities() == 0 }

  function CapOf(s: State, k: Kind): Cap {
    match k
    case V2 => s.v2
    case La => s.la
    case Dual => s.dual
  }

  // The owner's close, its release, its request that fails, or the end of what it runs.
  predicate LetsGo(s: State, a: Action) {
    || (a.Closed? && a.conn == s.owner)
    || (a.Release? && a.conn == s.owner && s.Activities() == 0)
    || (NeedsGate(a) && !a.Claim? && WellAsked(a) && a.conn == s.owner && !GateTaken(s, a)
        && Next(s, a).Activities() == 0)
    || (s.Activities() > 0 && Next(s, a).Activities() == 0)
  }

  /** Who holds the gate keeps it until one of these, and nothing but these takes it away. */
  lemma OwnerStays(s: State, a: Action)
    requires s.GateInv() && s.owner != NONE
    ensures Next(s, a).owner == if LetsGo(s, a) then NONE else s.owner
  {
    if NeedsGate(a) {
      OwnerWhenAsked(s, a);
    } else if a.PollV2? || a.PollLa? || a.PollDual? {
      OwnerWhenDone(s, a);
    }
  }

  lemma OwnerWhenAsked(s: State, a: Action)
    requires s.GateInv() && s.owner != NONE && NeedsGate(a)
    ensures Next(s, a).owner == if LetsGo(s, a) then NONE else s.owner
  {
    if GateTaken(s, a) {
      TakenIsRefused(s, a);
      hide Next;
    } else if WellAsked(a) {
      FreeIsGranted(s, a);
      hide Next;
    }
  }

  lemma OwnerWhenDone(s: State, a: Action)
    requires s.GateInv() && s.owner != NONE && (a.PollV2? || a.PollLa? || a.PollDual?)
    ensures Next(s, a).owner == if LetsGo(s, a) then NONE else s.owner
  {
  }

  predicate NeverLetsGo(s: State, run: seq<Action>)
    decreases |run|
  {
    run == [] || (!LetsGo(s, run[0]) && NeverLetsGo(Next(s, run[0]), run[1..]))
  }

  lemma {:induction false} OwnerStaysOverRun(s: State, run: seq<Action>)
    requires s.GateInv() && s.owner != NONE && NeverLetsGo(s, run)
    ensures Reached(s, run).owner == s.owner
    decreases |run|
  {
    if run != [] {
      StepKeepsGate(s, run[0]);
      OwnerStays(s, run[0]);
      OwnerStaysOverRun(Next(s, run[0]), run[1..]);
    }
  }

  // ---- what an activity ends in ----

  function PollOf(k: Kind, result: int, read: bool): Action {
    match k
    case V2 => PollV2(result, read)
    case La => PollLa(result, read)
    case Dual => PollDual(result, read, false)
  }

  // The outcome that a capture's reply will carry.
  function OutcomeOf(s: State, read: bool): Option<Outcome> {
    if s.wait.active then
      Some(Outcome(s.wait.conn, s.wait.cond, s.wait.fired || (read && s.fabric.hit.Some?), s.fabric.hit))
    else s.reply
  }

  /** A capture that is done goes on to its own connection's reply, or first to the scan of its stream, with its outcome
      and, out of PSRAM, with the bus; the gate stays with it. */
  lemma FinishedGoesOn(s: State, k: Kind, r: int, read: bool)
    requires s.GateInv() && CapOf(s, k).active && !s.fabric.parked && r > 0
    ensures var t, c := Next(s, PollOf(k, r, read)), CapOf(s, k).conn;
            && t.owner == s.owner == c && !CapOf(t, k).active && t.Activities() == 1 && !t.wait.active
            && t.bus == (if k == V2 then s.bus else Apply(s.bus, Take(WORKER)).0)
            && if k != V2 && CapOf(s, k).changes then t.chg == Scan(true, c) && t.reply == OutcomeOf(s, read)
               else t.bulk == Send(true, c, k != V2, OutcomeOf(s, read)) && t.reply == None
  {
  }

  /** One that failed leaves nothing: no activity, gate, wait or outcome, the fabric idle, the bus as it was. */
  lemma FailedLeavesNothing(s: State, k: Kind, r: int, read: bool)
    requires s.GateInv() && CapOf(s, k).active && r < 0
    ensures var t := Next(s, PollOf(k, r, read));
            NothingHeld(t) && !t.wait.active && t.reply == None && t.fabric == IDLE_FABRIC && t.bus == s.bus
  {
  }

  /** One that is neither goes on, and so does one that waits for its trigger. */
  lemma UnfinishedStays(s: State, k: Kind, r: int, read: bool)
    requires r == 0 || (r > 0 && s.fabric.parked)
    ensures Next(s, PollOf(k, r, read)) == s
  {
  }

  /** A wait that runs out without its trigger takes its capture with it; one that has seen it, or has time left, takes
      nothing. */
  lemma TimeoutEnds(s: State, read: bool, expired: bool)
    requires s.GateInv() && s.wait.active
    ensures var t, seen := Next(s, PollTrigger(read, expired)), s.wait.fired || (read && s.fabric.hit.Some?);
            if expired && !seen then
              NothingHeld(t) && !t.wait.active && t.fabric == IDLE_FABRIC && t.bus == s.bus && t.reply == s.reply
            else t == s.(wait := s.wait.(fired := seen))
  {
  }

  /** A reply or a scan that pauses changes nothing. */
  lemma PausesStay(s: State)
    ensures Next(s, PollBulk(Pacing)) == s && Next(s, PollScan(Scanning)) == s
  {
  }

  /** A gateware reload ends the wait, drops the staged outcome, resets the fabric and frees the bus; gate and
      activities stay. */
  lemma ReloadResets(s: State)
    ensures var t := Next(s, Reconfigured);
            && !t.wait.active && t.reply == None && t.fabric == IDLE_FABRIC && t.bus.depth == 0 && t.owner == s.owner
            && t.v2 == s.v2 && t.la == s.la && t.dual == s.dual && t.chg == s.chg && t.bulk == s.bulk
  {
  }

  /** A scan passes bus, gate and outcome to its reply, or gives all back. */
  lemma ScanGoesOnOrEnds(s: State, r: ScanResult)
    requires s.Inv() && s.chg.active && !r.Scanning?
    ensures var t := Next(s, PollScan(r));
            if r.ScanReady? then
              t.bulk == Send(true, s.chg.conn, true, s.reply) && t.Activities() == 1 && t.reply == None
              && t.owner == s.owner && t.bus == s.bus
            else NothingHeld(t) && t.bus.depth == 0 && t.reply == None
  {
  }

  /** A region that was never written costs the capture its reply, and gives the bus back. */
  lemma UnwrittenIsRefused(s: State, r: int, read: bool)
    requires s.Inv() && s.dual.active && !s.fabric.parked && r > 0
    ensures var t := Next(s, PollDual(r, read, true));
            NothingHeld(t) && t.bus == s.bus && t.reply == None && !t.wait.active
  {
  }

  // ---- whose condition the fabric waits for ----

  // A capture request that rewrites the trigger another capture is parked on, or sets one that no wait stands for.
  predicate DisturbsTrigger(s: State, a: Action) {
    a.Capture? &&
    match a.trigger
    case SetTo(cond) => s.wait.active && s.fabric.parked
    case NotSet(cond, reached) =>
      reached && (!s.wait.active || (s.fabric.parked && cond != s.wait.cond))
    case _ => false
  }

  /** The fabric waits for the waiting capture's own condition, and for none when nothing waits: a step keeps that
      exactly when it is not a triggered capture request that comes while a capture is parked, refused as it may be,
      or one whose SET_TRIGGER is reported as failed and took effect. */
  lemma TriggerStaysOwn(s: State, a: Action)
    requires s.GateInv() && s.TriggerOwn()
    ensures Next(s, a).TriggerOwn() <==> !DisturbsTrigger(s, a)
  {
  }

  // What a client is told: "fired" only of a capture whose own condition was seen.
  lemma OutcomesStayTrue(s: State, a: Action)
    requires s.GateInv() && s.TriggerOwn() && s.OutcomesTrue()
    ensures Next(s, a).OutcomesTrue()
  {
  }

  predicate NeverDisturbs(s: State, run: seq<Action>)
    decreases |run|
  {
    run == [] || (!DisturbsTrigger(s, run[0]) && NeverDisturbs(Next(s, run[0]), run[1..]))
  }

  predicate AlwaysOwn(s: State, run: seq<Action>)
    decreases |run|
  {
    s.TriggerOwn() && (run == [] || AlwaysOwn(Next(s, run[0]), run[1..]))
  }

  /** Over a run the fabric's trigger is the waiting capture's own all along exactly when no step disturbs it, and then
      every outcome that a reply carries is true. */
  lemma {:induction false} RunKeepsTriggerOwn(s: State, run: seq<Action>)
    requires s.GateInv() && s.TriggerOwn() && s.OutcomesTrue()
    ensures AlwaysOwn(s, run) <==> NeverDisturbs(s, run)
    ensures NeverDisturbs(s, run) ==> Reached(s, run).OutcomesTrue()
    decreases |run|
  {
    if run != [] {
      StepKeepsGate(s, run[0]);
      TriggerStaysOwn(s, run[0]);
      OutcomesStayTrue(s, run[0]);
      if Next(s, run[0]).TriggerOwn() { RunKeepsTriggerOwn(Next(s, run[0]), run[1..]); }
    }
  }

  /** A run where it goes wrong: connection 1's capture is parked on a rising edge, connection 2's triggered request is
      refused as busy, and connection 1's reply says its trigger fired though the fabric took the first low level on
      channel 0. */
  lemma RefusedRequestFires(c1: Cond, c2: Cond)
    ensures var run := [Capture(1, V2, SetTo(c1), false, false, Armed), Capture(2, La, SetTo(c2), false, false, Armed),
                        Fires, PollV2(1, true)];
            Reached(INITIAL, run).bulk == Send(true, 1, false, Some(Outcome(1, c1, true, Some(Off))))
  {
    var run := [Capture(1, V2, SetTo(c1), false, false, Armed), Capture(2, La, SetTo(c2), false, false, Armed),
                Fires, PollV2(1, true)];
    FourSteps(INITIAL, run);
  }

  lemma FourSteps(s: State, run: seq<Action>)
    requires |run| == 4
    ensures Reached(s, run) == Next(Next(Next(Next(s, run[0]), run[1]), run[2]), run[3])
  {
    hide Next;
    var s1 := Next(s, run[0]);
    var s2 := Next(s1, run[1]);
    assert run[1..][0] == run[1] && run[1..][1..][0] == run[2] && run[1..][1..][1..][0] == run[3];
    assert Reached(s, run) == Reached(s1, run[1..]) == Reached(s2, run[1..][1..]);
    assert Reached(s2, run[1..][1..]) == Reached(Next(s2, run[2]), run[1..][1..][1..]);
    var s3 := Next(s2, run[2]);
    assert Reached(s3, run[1..][1..][1..]) == Reached(Next(s3, run[3]), run[1..][1..][1..][1..]);
    assert run[1..][1..][1..][1..] == [];
  }

  // ---- trigger outcomes ----

  // The one step that strands an outcome: the client of a triggered change capture goes while its stream is scanned.
  predicate StrandsOutcome(s: State, a: Action) {
    a.Closed? && s.reply.Some? && s.chg.active && s.chg.conn == a.conn
  }

  /** "A previous capture's outcome must never ride this reply": a step keeps that exactly when it does not close the
      connection of a triggered change capture between its completion and its reply. */
  lemma OutcomesStayOwn(s: State, a: Action)
    requires s.GateInv() && s.OutcomesOwn()
    ensures Next(s, a).OutcomesOwn() <==> !StrandsOutcome(s, a)
  {
  }

  predicate NeverStrands(s: State, run: seq<Action>)
    decreases |run|
  {
    run == [] || (!StrandsOutcome(s, run[0]) && NeverStrands(Next(s, run[0]), run[1..]))
  }

  lemma {:induction false} RunKeepsOutcomesOwn(s: State, run: seq<Action>)
    requires s.GateInv() && s.OutcomesOwn() && NeverStrands(s, run)
    ensures Reached(s, run).OutcomesOwn()
    decreases |run|
  {
    if run != [] {
      StepKeepsGate(s, run[0]);
      OutcomesStayOwn(s, run[0]);
      RunKeepsOutcomesOwn(Next(s, run[0]), run[1..]);
    }
  }

  /** A run where it goes wrong: connection 1's triggered change capture completes, the client leaves during the
      scan, and connection 2's `test` reply goes out with connection 1's trigger outcome. */
  lemma StrandedOutcomeRidesAlong(cond: Cond)
    ensures var run := [Capture(1, La, SetTo(cond), true, false, Armed), Fires, PollLa(1, true), Closed(1),
                        RamReply(2, false, true)];
            Reached(INITIAL, run).bulk == Send(true, 2, false, Some(Outcome(1, cond, true, Some(On(cond)))))
  {
    var first := [Capture(1, La, SetTo(cond), true, false, Armed), Fires, PollLa(1, true), Closed(1)];
    var last := RamReply(2, false, true);
    FourSteps(INITIAL, first);
    ReachedThen(INITIAL, first, last);
    assert first + [last] == [first[0], first[1], first[2], first[3], last];
  }

  lemma {:induction false} ReachedThen(s: State, run: seq<Action>, a: Action)
    ensures Reached(s, run + [a]) == Next(Reached(s, run), a)
    decreases |run|
  {
    hide Next;
    if run == [] {
      assert (run + [a])[1..] == [];
    } else {
      assert (run + [a])[0] == run[0] && (run + [a])[1..] == run[1..] + [a];
      ReachedThen(Next(s, run[0]), run[1..], a);
    }
  }

  /** The other loss: the reply of a triggered change capture carries its outcome exactly when no capture request,
      of any connection, arrived while its stream was scanned - not even one that is refused as busy - and the
      gateware was not reloaded. */
  lemma {:induction false} OutcomeSurvivesScan(s: State, run: seq<Action>)
    requires s.GateInv() && s.chg.active && s.reply.Some? && s.reply.value.conn == s.chg.conn
    requires forall a :: a in run ==> !(a.PollScan? && !a.scan.Scanning?) && a != Closed(s.chg.conn)
    ensures var t := Next(Reached(s, run), PollScan(ScanReady));
            && t.bulk.active && t.bulk.conn == s.chg.conn
            && (t.bulk.trig == s.reply <==> forall a :: a in run ==> !a.Capture? && !a.Reconfigured?)
            && (t.bulk.trig == s.reply || t.bulk.trig == None)
  {
    ScanGoesOn(s, run);
  }

  lemma {:induction false} ScanGoesOn(s: State, run: seq<Action>)
    requires s.GateInv() && s.chg.active
    requires forall a :: a in run ==> !(a.PollScan? && !a.scan.Scanning?) && a != Closed(s.chg.conn)
    ensures var t := Reached(s, run);
            && t.GateInv() && t.chg == s.chg
            && t.reply == if forall a :: a in run ==> !a.Capture? && !a.Reconfigured? then s.reply else None
    decreases |run|
  {
    if run != [] {
      var a, rest := run[0], run[1..];
      var s1 := Next(s, a);
      StepKeepsGate(s, a);
      ScanStepKeeps(s, a);
      assert forall x :: x in run <==> x == a || x in rest;
      ScanGoesOn(s1, rest);
    }
  }

  lemma ScanStepKeeps(s: State, a: Action)
    requires s.GateInv() && s.chg.active && !(a.PollScan? && !a.scan.Scanning?) && a != Closed(s.chg.conn)
    ensures Next(s, a).chg == s.chg
    ensures Next(s, a).reply == if a.Capture? || a.Reconfigured? then None else s.reply
  {
  }

  // ---- the code ----

  class Machine {
    var v2: Cap
    var la: Cap
    var dual: Cap
    var chg: Scan
    var bulk: Send
    var wait: Wait
    var reply: Option<Outcome>
    var owner: int
    var bus: Bus
    var fabric: Fabric

    constructor ()
      ensures View() == INITIAL
    {
      v2, la, dual, chg, bulk := IDLE_CAP, IDLE_CAP, IDLE_CAP, Scan(false, 0), Send(false, 0, false, None);
      wait, reply, owner, bus := Wait(false, 0, NO_COND, false), None, NONE, Bus(NOBODY, 0, 0, 0);
      fabric := IDLE_FABRIC;
    }

    function View(): State
      reads this
    {
      State(v2, la, dual, chg, bulk, wait, reply, owner, bus, fabric)
    }

    // heavy_begin: reject while anything runs or another connection holds the gate, otherwise claim it.
    method HeavyBegin(c: nat, otherHeavy: bool) returns (ok: bool)
      modifies `owner
      ensures ok == MayBegin(old(View()), c, otherHeavy)
      ensures owner == if ok then c else old(owner)
    {
      var inFlight := v2.active || la.active || chg.active || dual.active || bulk.active || otherHeavy;
      if inFlight || (owner != NONE && owner != c) { return false; }
      owner := c;
      return true;
    }

    method HeavyRelease(c: int)
      modifies `owner
      ensures owner == if old(owner) == c then NONE else old(owner)
    {
      if owner == c { owner := NONE; }
    }

    method BusRelease()
      modifies `bus
      ensures bus == Apply(old(bus), Give(WORKER)).0
    {
      bus := Apply(bus, Give(WORKER)).0;
    }

    // bulk_begin*, with bulk_take_trigger
    method BulkBegin(c: int, psram: bool)
      modifies `bulk, `reply
      ensures View() == Sending(old(View()), c, psram)
    {
      bulk := Send(true, c, psram, reply);
      reply := None;
    }

    // fpga_set_trigger
    method SetTrigger(t: Trigger)
      modifies `fabric
      ensures fabric == old(fabric).(trig := t)
    {
      fabric := fabric.(trig := t);
    }

    // CAPTURE, with a count or, to abort, without
    method StartCapture()
      modifies `fabric
      ensures fabric == ArmedFabric(old(fabric))
    {
      fabric := Fabric(fabric.trig, fabric.trig.On?, None);
    }

    // fpga_capture_abort
    method CaptureAbort()
      modifies `fabric
      ensures fabric == IDLE_FABRIC
    {
      fabric := Fabric(fabric.trig, false, None);
      SetTrigger(Off);
    }

    // capture_trigger_begin
    method TriggerBegin(trigger: Setting) returns (ok: bool)
      modifies `reply, `fabric
      ensures reply == None && ok == (trigger.NoTrigger? || trigger.SetTo?)
      ensures fabric == if trigger.SetTo? || (trigger.NotSet? && trigger.reached)
                        then old(fabric).(trig := On(trigger.cond)) else old(fabric)
    {
      reply := None;
      match trigger {
        case NoTrigger => ok := true;
        case BadTrigger => ok := false;
        case NotSet(cond, reached) =>
          if reached { SetTrigger(On(cond)); }
          ok := false;
        case SetTo(cond) =>
          SetTrigger(On(cond));
          ok := true;
      }
    }

    // capture_trigger_cancel
    method TriggerCancel(trigger: Setting)
      modifies `fabric
      ensures fabric == if trigger.SetTo? then old(fabric).(trig := Off) else old(fabric)
    {
      if trigger.SetTo? { SetTrigger(Off); }
    }

    // capture_trigger_done
    method TriggerIsDone(read: bool)
      modifies `reply, `wait, `fabric
      ensures View() == TriggerDone(old(View()), read)
    {
      if !wait.active { return; }
      if !wait.fired && read && fabric.hit.Some? { wait := wait.(fired := true); }
      reply := Some(Outcome(wait.conn, wait.cond, wait.fired, fabric.hit));
      wait := wait.(active := false);
      SetTrigger(Off);
    }

    // the completion polls
    method Completion(result: int) returns (r: int)
      ensures r == Polled(View(), result)
    {
      return if fabric.parked && result > 0 then 0 else result;
    }

    // The arm of the fabric: with the bus handed over, a capture that starts, fails, or fails and is aborted.
    method ArmFabric(arm: Arm)
      modifies `bus, `fabric
      ensures bus == Apply(old(bus), Handover).0
      ensures fabric ==
              match arm case NotArmed => old(fabric) case Aborted => IDLE_FABRIC case Armed => ArmedFabric(old(fabric))
    {
      bus := Apply(bus, Handover).0;
      match arm {
        case NotArmed =>
        case Aborted => CaptureAbort();
        case Armed => StartCapture();
      }
    }

    // handle_capture, handle_la_capture, handle_capture_dual
    method HandleCapture(c: nat, kind: Kind, trigger: Setting, changes: bool, otherHeavy: bool, arm: Arm)
      requires View().GateInv()
      modifies this
      ensures View() == Next(old(View()), Capture(c, kind, trigger, changes, otherHeavy, arm))
    {
      hide Gated;
      var ok := TriggerBegin(trigger);
      if !ok { return; }
      PassGate(c, kind, trigger, changes, otherHeavy, arm);
    }

    // The rest of the three handlers.
    method PassGate(c: nat, kind: Kind, trigger: Setting, changes: bool, otherHeavy: bool, arm: Arm)
      modifies this
      ensures View() == Gated(old(View()), c, kind, trigger, changes, otherHeavy, arm)
    {
      var ok := HeavyBegin(c, otherHeavy);
      if !ok {
        TriggerCancel(trigger);
        return;
      }
      ArmFabric(arm);
      if !arm.Armed? {
        HeavyRelease(c);
        TriggerCancel(trigger);
        return;
      }
      if trigger.SetTo? { wait := Wait(true, c, trigger.cond, false); }
      match kind {
        case V2 => v2 := Cap(true, c, changes);
        case La => la := Cap(true, c, changes);
        case Dual => dual := Cap(true, c, changes);
      }
    }

    // handle_stream, handle_measure
    method HandleStream(c: nat, otherHeavy: bool, arm: Arm)
      requires View().GateInv()
      modifies this
      ensures View() == Next(old(View()), Stream(c, otherHeavy, arm))
    {
      var ok := HeavyBegin(c, otherHeavy);
      if !ok { return; }
      ArmFabric(arm);
      if !arm.Armed? {
        HeavyRelease(c);
        return;
      }
      v2 := Cap(true, c, false);
    }

    // handle_test, handle_sensor_regs, handle_sensor_la: filled and sent at once
    method HandleRamReply(c: nat, otherHeavy: bool, filled: bool)
      requires View().GateInv()
      modifies this
      ensures View() == Next(old(View()), RamReply(c, otherHeavy, filled))
    {
      var ok := HeavyBegin(c, otherHeavy);
      if !ok { return; }
      if !filled {
        HeavyRelease(c);
        return;
      }
      BulkBegin(c, false);
    }

    // ice40_reload, ice40_reflash_image: a fresh fabric, psram_bus_handover, then capture_on_gateware_reconfigured
    method GatewareReconfigured()
      modifies `wait, `reply, `bus, `fabric
      ensures View() == Next(old(View()), Reconfigured)
    {
      fabric := IDLE_FABRIC;
      bus := Apply(bus, Handover).0;
      wait, reply := wait.(active := false), None;
    }

    // handle_capture_read
    method HandleCaptureRead(c: nat, otherHeavy: bool, atEnd: bool)
      requires View().GateInv()
      modifies this
      ensures View() == Next(old(View()), CaptureRead(c, otherHeavy, atEnd))
    {
      var ok := HeavyBegin(c, otherHeavy);
      if !ok { return; }
      if atEnd {
        HeavyRelease(c);
        return;
      }
      bus := Apply(bus, Take(WORKER)).0;
      bulk := Send(true, c, true, None);
    }

    // capture_poll: the trigger timeout
    method TriggerPass(read: bool, expired: bool)
      requires View().GateInv()
      modifies this
      ensures View() == Next(old(View()), PollTrigger(read, expired))
    {
      if !wait.active { return; }
      if read && fabric.hit.Some? { wait := wait.(fired := true); }
      if !wait.fired && expired {
        var c := wait.conn;
        CaptureAbort();
        wait := wait.(active := false);
        if v2.conn == c { v2 := v2.(active := false); }
        if la.conn == c { la := la.(active := false); }
        if dual.conn == c { dual := dual.(active := false); }
        HeavyRelease(c);
      }
    }

    // capture_poll: an ADC capture completed or failed; its samples are in RAM by then
    method V2Pass(result: int, read: bool)
      requires View().GateInv()
      modifies this
      ensures View() == Next(old(View()), PollV2(result, read))
    {
      if !v2.active { return; }
      var r := Completion(result);
      if r == 0 { return; }
      var c := v2.conn;
      TriggerIsDone(read);
      v2 := v2.(active := false);
      if r > 0 {
        BulkBegin(c, false);
      } else {
        CaptureAbort();
        reply := None;
        HeavyRelease(c);
      }
    }

    // capture_poll: a deep LA capture completed or failed; a success has taken the bus
    method LaPass(result: int, read: bool)
      requires View().GateInv()
      modifies this
      ensures View() == Next(old(View()), PollLa(result, read))
    {
      if !la.active { return; }
      var r := Completion(result);
      if r == 0 { return; }
      var c := la.conn;
      TriggerIsDone(read);
      la := la.(active := false);
      if r > 0 {
        bus := Apply(bus, Take(WORKER)).0;
        if la.changes {
          chg := Scan(true, c);
        } else {
          BulkBegin(c, true);
        }
      } else {
        CaptureAbort();
        reply := None;
        HeavyRelease(c);
      }
    }

    // capture_poll: a unified capture; the ADC sentinel shows a capture that never wrote its region
    method DualPass(result: int, read: bool, sentinel: bool)
      requires View().GateInv()
      modifies this
      ensures View() == Next(old(View()), PollDual(result, read, sentinel))
    {
      if !dual.active { return; }
      var r := Completion(result);
      if r == 0 { return; }
      var c := dual.conn;
      TriggerIsDone(read);
      dual := dual.(active := false);
      if r > 0 { bus := Apply(bus, Take(WORKER)).0; }
      if r > 0 && sentinel {
        BusRelease();
        reply := None;
        HeavyRelease(c);
      } else if r > 0 && dual.changes {
        chg := Scan(true, c);
      } else if r > 0 {
        BulkBegin(c, true);
      } else {
        CaptureAbort();
        reply := None;
        HeavyRelease(c);
      }
    }

    // chgscan_step, chgscan_fail
    method ScanPass(r: ScanResult)
      requires View().GateInv()
      modifies this
      ensures View() == Next(old(View()), PollScan(r))
    {
      if !chg.active || r.Scanning? { return; }
      var c := chg.conn;
      chg := chg.(active := false);
      if r.ScanFailed? {
        BusRelease();
        reply := None;
        HeavyRelease(c);
      } else {
        BulkBegin(c, true);
      }
    }

    // the four ways bulk_pump leaves: still pacing, everything queued, a read that failed, a send lost or stalled
    method BulkPass(r: SendResult)
      requires View().GateInv()
      modifies this
      ensures View() == Next(old(View()), PollBulk(r))
    {
      if !bulk.active || r.Pacing? { return; }
      bulk := bulk.(active := false);
      if bulk.fromPsram { BusRelease(); }
      HeavyRelease(bulk.conn);
    }

    // The captures of a closed connection.
    method StopCaptures(c: nat) returns (owned: bool)
      modifies `v2, `la, `dual
      ensures owned == old(View()).Capturing(c)
      ensures v2 == Stopped(old(v2), c) && la == Stopped(old(la), c) && dual == Stopped(old(dual), c)
    {
      owned := false;
      if v2.active && v2.conn == c { owned, v2 := true, v2.(active := false); }
      if la.active && la.conn == c { owned, la := true, la.(active := false); }
      if dual.active && dual.conn == c { owned, dual := true, dual.(active := false); }
    }

    // command_handler_conn_closed, with capture_conn_closed
    method ConnClosed(c: nat)
      requires View().Activities() <= 1
      modifies this
      ensures View() == Next(old(View()), Closed(c))
    {
      hide Apply;
      var owned := StopCaptures(c);
      if chg.active && chg.conn == c {
        chg := chg.(active := false);
        BusRelease();
      }
      if owned {
        CaptureAbort();
        if wait.active && wait.conn == c { wait := wait.(active := false); }
      }
      if bulk.active && bulk.conn == c {
        if bulk.fromPsram { BusRelease(); }
        bulk := bulk.(active := false);
      }
      if wait.active && wait.conn == c {
        CaptureAbort();
        wait := wait.(active := false);
      }
      HeavyRelease(c);
    }
  }
}
