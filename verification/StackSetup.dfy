/** Setting up the readout of an MVLC controller: uploading one command stack for each event,
    enabling the stack triggers, and connecting timers to the stacks of periodic events. */
module StackSetup {
  import opened Wrappers
  import opened Bits


  const U16 := 0x1_0000
  const U8 := 0x100

  /** The fixed layout and register values of the controller. Addresses are in bytes, `reserved` is
      the size in words of the stack for immediate execution. */
  datatype Layout = Layout(
    immediateId: nat,
    stackCount: nat,
    memoryBegin: nat,
    memoryEnd: nat,
    reserved: nat,
    timerCount: nat,
    irqWithIack: nat,
    irqNoIack: nat,
    external: nat,
    triggerTypeShift: nat,
    triggerBitsMask: nat,
    offsetMask: nat)

  ghost predicate Valid(c: Layout) {
    && c.immediateId < c.stackCount < U8
    && 4 <= c.memoryBegin && c.memoryBegin + 4 * (c.reserved + 1) < c.memoryEnd <= U16 - 4
  }

  datatype Trigger = Interrupt | Periodic | TriggerIO | Foreign   // the last one: of other controllers

  datatype Event = Event(
    name: string,
    stack: seq<bv32>,             // the event's readout script, built into stack words
    trigger: Trigger,
    irqLevel: nat,
    useIack: bool,
    timerPeriod: nat,
    timerBase: nat)

  datatype Error = StackCountExceeded | StackMemoryExceeded | TimerCountExceeded | Io

  // ---------------------------------------------------------------------
  // The controller

  datatype Access =
    | Upload(address: nat, words: seq<bv32>)
    | StackOffset(stackId: nat, offset: nat)
    | StackTrigger(stackId: nat, value: nat)

  /** The controller as seen from the computer: what has been written to it. The transaction number
      `failing` is answered with an error. */
  class Mvlc {
    var log: seq<Access>
    const failing: Option<nat>

    constructor (failing: Option<nat>)
      ensures log == [] && this.failing == failing
    {
      log := [];
      this.failing := failing;
    }

    method Transaction(a: Access) returns (error: Option<Error>)
      modifies this
      ensures failing == Some(|old(log)|) ==> error == Some(Io) && log == old(log)
      ensures failing != Some(|old(log)|) ==> error == None && log == old(log) + [a]
    {
      if failing == Some(|log|) {
        error := Some(Io);
      } else {
        log := log + [a];
        error := None;
      }
    }
  }

  /** The first `n` accesses of a plan took place; `n` is less than all of them only if the next one
      failed. */
  ghost predicate Carried(plan: seq<Access>, planned: Option<Error>, before: seq<Access>, failing: Option<nat>,
                          after: seq<Access>, error: Option<Error>) {
    if failing.Some? && |before| <= failing.value < |before| + |plan| then
      error == Some(Io) && after == before + plan[..failing.value - |before|]
    else
      error == planned && after == before + plan
  }

  // ---------------------------------------------------------------------
  // Stacks

  function FirstOffset(c: Layout): nat { (c.reserved + 1) % U16 }

  function UploadAddress(c: Layout, offset: nat): nat { (c.memoryBegin + offset * 4) % U16 }

  function EndAddress(c: Layout, offset: nat, size: nat): nat { (UploadAddress(c, offset) + size * 4) % U16 }

  function NextOffset(offset: nat, size: nat): nat { (offset + size + 1) % U16 }

  function StackAccesses(c: Layout, id: nat, offset: nat, stack: seq<bv32>): seq<Access> {
    var address := UploadAddress(c, offset);
    [Upload(address, stack), StackOffset(id, BitAnd(address, c.offsetMask))]
  }

  function StackCheck(c: Layout, id: nat, offset: nat, size: nat): Option<Error> {
    if id >= c.stackCount then Some(StackCountExceeded)
    else if EndAddress(c, offset, size) >= c.memoryEnd then Some(StackMemoryExceeded)
    else None
  }

  /** The accesses of the whole setup and its outcome, unless the controller fails. */
  function StackPlan(c: Layout, events: seq<Event>, id: nat, offset: nat): (seq<Access>, Option<Error>) {
    if events == [] then ([], None)
    else
      var size := |events[0].stack|;
      var bad := StackCheck(c, id, offset, size);
      if bad.Some? then ([], bad)
      else
        var rest := StackPlan(c, events[1..], id + 1, NextOffset(offset, size));
        (StackAccesses(c, id, offset, events[0].stack) + rest.0, rest.1)
  }

  /** The accesses `done` have all succeeded. */
  ghost predicate Succeeded(done: seq<Access>, before: seq<Access>, failing: Option<nat>, now: seq<Access>) {
    && now == before + done
    && (failing.Some? ==> !(|before| <= failing.value < |before| + |done|))
  }

  lemma CarriedOn(done: seq<Access>, part: seq<Access>, rest: seq<Access>, planned: Option<Error>,
                  before: seq<Access>, failing: Option<nat>, mid: seq<Access>, now: seq<Access>,
                  error: Option<Error>)
    requires Succeeded(done, before, failing, mid) && Carried(part, None, mid, failing, now, error)
    ensures error == None ==> Succeeded(done + part, before, failing, now)
    ensures error.Some? ==> Carried(done + (part + rest), planned, before, failing, now, error)
  {
    if error == None {
      assert now == before + (done + part);
    } else {
      var n := failing.value - |mid|;
      assert (done + (part + rest))[..|done| + n] == done + part[..n];
      assert before + (done + part[..n]) == (before + done) + part[..n];
    }
  }

  /** What setting up one stack amounts to. */
  function OneStack(c: Layout, id: nat, offset: nat, stack: seq<bv32>): (seq<Access>, Option<Error>) {
    var bad := StackCheck(c, id, offset, |stack|);
    if bad.Some? then ([], bad) else (StackAccesses(c, id, offset, stack), None)
  }

  method SetupStack(mvlc: Mvlc, c: Layout, stackId: nat, uploadOffset: nat, stack: seq<bv32>)
    returns (error: Option<Error>)
    modifies mvlc
    ensures var one := OneStack(c, stackId, uploadOffset, stack);
            Carried(one.0, one.1, old(mvlc.log), mvlc.failing, mvlc.log, error)
  {
    if stackId >= c.stackCount {
      return Some(StackCountExceeded);
    }
    var uploadAddress := (c.memoryBegin + uploadOffset * 4) % U16;
    var endAddress := (uploadAddress + |stack| * 4) % U16;
    if endAddress >= c.memoryEnd {
      return Some(StackMemoryExceeded);
    }
    error := mvlc.Transaction(Upload(uploadAddress, stack));
    if error.None? {
      error := mvlc.Transaction(StackOffset(stackId, BitAnd(uploadAddress, c.offsetMask)));
    }
  }

  /** The plan for the events from the i-th on begins with that for the i-th. */
  lemma PlanOfFirst(c: Layout, events: seq<Event>, i: nat, id: nat, offset: nat)
    requires i < |events|
    ensures var one := OneStack(c, id, offset, events[i].stack);
            var plan := StackPlan(c, events[i..], id, offset);
            var rest := StackPlan(c, events[i + 1..], id + 1, NextOffset(offset, |events[i].stack|));
            if one.1.Some? then plan == one else plan == (one.0 + rest.0, rest.1)
  {
    assert events[i..][1..] == events[i + 1..];
  }

  /** After the first `i` events: their accesses have succeeded and the plan goes on with the rest. */
  ghost predicate SetupProgress(c: Layout, events: seq<Event>, i: nat, id: nat, offset: nat, done: seq<Access>,
                                before: seq<Access>, failing: Option<nat>, now: seq<Access>)
    requires i <= |events|
  {
    var plan := StackPlan(c, events, c.immediateId + 1, FirstOffset(c));
    var rest := StackPlan(c, events[i..], id, offset);
    && plan.0 == done + rest.0 && plan.1 == rest.1
    && Succeeded(done, before, failing, now)
  }

  ghost predicate SetupEnds(c: Layout, events: seq<Event>, before: seq<Access>, failing: Option<nat>,
                            now: seq<Access>, error: Option<Error>) {
    var plan := StackPlan(c, events, c.immediateId + 1, FirstOffset(c));
    Carried(plan.0, plan.1, before, failing, now, error)
  }

  lemma OneMoreStack(c: Layout, events: seq<Event>, i: nat, id: nat, offset: nat, done: seq<Access>,
                     before: seq<Access>, failing: Option<nat>,
                     mid: seq<Access>, now: seq<Access>, error: Option<Error>)
    requires i < |events| && SetupProgress(c, events, i, id, offset, done, before, failing, mid)
    requires var one := OneStack(c, id, offset, events[i].stack); Carried(one.0, one.1, mid, failing, now, error)
    ensures error.Some? ==> SetupEnds(c, events, before, failing, now, error)
    ensures error == None ==>
              && id < c.stackCount
              && SetupProgress(c, events, i + 1, id + 1, NextOffset(offset, |events[i].stack|),
                               done + StackAccesses(c, id, offset, events[i].stack), before, failing, now)
  {
    var one := OneStack(c, id, offset, events[i].stack);
    var plan := StackPlan(c, events, c.immediateId + 1, FirstOffset(c));
    var rest := StackPlan(c, events[i + 1..], id + 1, NextOffset(offset, |events[i].stack|));
    PlanOfFirst(c, events, i, id, offset);
    if one.1.None? {
      CarriedOn(done, one.0, rest.0, plan.1, before, failing, mid, now, error);
      Regroup(done, one.0, rest.0);
    } else {
      assert done + one.0 == done;
    }
  }

  lemma SetupBegins(c: Layout, events: seq<Event>, failing: Option<nat>, now: seq<Access>)
    ensures SetupProgress(c, events, 0, c.immediateId + 1, FirstOffset(c), [], now, failing, now)
  {
    assert events[0..] == events;
  }

  lemma SetupFinished(c: Layout, events: seq<Event>, id: nat, offset: nat, done: seq<Access>,
                      before: seq<Access>, failing: Option<nat>, now: seq<Access>)
    requires SetupProgress(c, events, |events|, id, offset, done, before, failing, now)
    ensures SetupEnds(c, events, before, failing, now, None)
  {
    assert events[|events|..] == [];
    assert done + [] == done;
  }

  lemma Regroup<T>(x: seq<T>, y: seq<T>, z: seq<T>)
    ensures (x + y) + z == x + (y + z)
  {
  }

  method SetupReadoutStacks(mvlc: Mvlc, c: Layout, events: seq<Event>) returns (error: Option<Error>)
    requires Valid(c)
    modifies mvlc
    ensures SetupEnds(c, events, old(mvlc.log), mvlc.failing, mvlc.log, error)
  {
    var stackId: nat := c.immediateId + 1;
    var uploadOffset := FirstOffset(c);
    ghost var done: seq<Access> := [];
    SetupBegins(c, events, mvlc.failing, mvlc.log);
    for i := 0 to |events|
      invariant 0 < stackId < U8 && 0 <= uploadOffset < U16
      invariant SetupProgress(c, events, i, stackId, uploadOffset, done, old(mvlc.log), mvlc.failing, mvlc.log)
    {
      var stack := events[i].stack;
      ghost var mid := mvlc.log;
      error := SetupStack(mvlc, c, stackId, uploadOffset, stack);
      OneMoreStack(c, events, i, stackId, uploadOffset, done, old(mvlc.log), mvlc.failing, mid, mvlc.log, error);
      if error.Some? {
        return;
      }
      done := done + StackAccesses(c, stackId, uploadOffset, stack);
      stackId := stackId + 1;
      uploadOffset := NextOffset(uploadOffset, |stack|);
    }
    SetupFinished(c, events, stackId, uploadOffset, done, old(mvlc.log), mvlc.failing, mvlc.log);
    error := None;
  }

  // ---------------------------------------------------------------------
  // Triggers

  function NextId(id: nat): nat { (id + 1) % U8 }

  const ALL_SET := 0xffff_ffff

  /** A trigger type in its place in the register. */
  function TypeBits(c: Layout, triggerType: nat): nat { triggerType * Pow2(c.triggerTypeShift) }

  /** The masked bits of the level minus one, which has all bits set for level 0. */
  function IrqBits(c: Layout, level: nat): nat {
    BitAnd(if level == 0 then ALL_SET else level - 1, c.triggerBitsMask)
  }

  /** The value of the trigger register for an event that has one. */
  function TriggerValue(c: Layout, e: Event): nat {
    if e.trigger == Interrupt then
      BitOr(TypeBits(c, if e.useIack then c.irqWithIack else c.irqNoIack), IrqBits(c, e.irqLevel))
    else TypeBits(c, c.external)
  }

  /** The register writes for one event: none for the trigger conditions of other controllers. */
  function OneTrigger(c: Layout, e: Event, id: nat, timers: nat): (seq<Access>, Option<Error>) {
    match e.trigger
    case Foreign => ([], None)
    case Periodic =>
      if timers >= c.timerCount then ([], Some(TimerCountExceeded)) else ([StackTrigger(id, TriggerValue(c, e))], None)
    case _ => ([StackTrigger(id, TriggerValue(c, e))], None)
  }

  function Timers(e: Event): nat { if e.trigger == Periodic then 1 else 0 }

  function TriggerPlan(c: Layout, events: seq<Event>, id: nat, timers: nat): (seq<Access>, Option<Error>) {
    if events == [] then ([], None)
    else
      var one := OneTrigger(c, events[0], id, timers);
      if one.1.Some? then one
      else
        var rest := TriggerPlan(c, events[1..], NextId(id), timers + Timers(events[0]));
        (one.0 + rest.0, rest.1)
  }

  /** The accesses are trigger writes of these values, in order. */
  ghost predicate WriteValues(writes: seq<Access>, values: seq<nat>) {
    |values| == |writes| && forall k :: 0 <= k < |writes| ==> writes[k].StackTrigger? && writes[k].value == values[k]
  }

  lemma OneMoreValue(writes: seq<Access>, values: seq<nat>, one: seq<Access>, value: seq<nat>)
    requires WriteValues(writes, values) && WriteValues(one, value)
    ensures WriteValues(writes + one, values + value)
  {
  }

  /** What one event adds to the list of values. */
  function OneValue(c: Layout, e: Event): seq<nat> {
    if e.trigger == Foreign then [] else [TriggerValue(c, e)]
  }

  /** After the first `i` events. */
  ghost predicate TriggerProgress(c: Layout, events: seq<Event>, i: nat, id: nat, timers: nat, done: seq<Access>,
                                  before: seq<Access>, failing: Option<nat>, now: seq<Access>)
    requires i <= |events|
  {
    && TriggersDone(c, events, i, id, timers, done)
    && Succeeded(done, before, failing, now)
  }

  ghost predicate TriggersDone(c: Layout, events: seq<Event>, i: nat, id: nat, timers: nat, done: seq<Access>)
    requires i <= |events|
  {
    var plan := TriggerPlan(c, events, c.immediateId + 1, 0);
    var rest := TriggerPlan(c, events[i..], id, timers);
    plan.0 == done + rest.0 && plan.1 == rest.1
  }

  ghost predicate TriggersEnd(c: Layout, events: seq<Event>, before: seq<Access>, failing: Option<nat>,
                              now: seq<Access>, error: Option<Error>) {
    var plan := TriggerPlan(c, events, c.immediateId + 1, 0);
    Carried(plan.0, plan.1, before, failing, now, error)
  }

  lemma TriggersBegin(c: Layout, events: seq<Event>)
    ensures TriggersDone(c, events, 0, c.immediateId + 1, 0, [])
  {
    assert events[0..] == events;
  }

  lemma TriggersFinished(c: Layout, events: seq<Event>, id: nat, timers: nat, done: seq<Access>)
    requires TriggersDone(c, events, |events|, id, timers, done)
    ensures TriggerPlan(c, events, c.immediateId + 1, 0) == (done, None)
  {
    assert events[|events|..] == [];
    assert done + [] == done;
  }

  lemma OneMoreTrigger(c: Layout, events: seq<Event>, i: nat, id: nat, timers: nat,
                       done: seq<Access>)
    requires i < |events| && TriggersDone(c, events, i, id, timers, done)
    ensures var one := OneTrigger(c, events[i], id, timers);
            var rest := TriggerPlan(c, events[i + 1..], NextId(id), timers + Timers(events[i]));
            var plan := TriggerPlan(c, events, c.immediateId + 1, 0);
            && (one.1.Some? ==> plan == (done, one.1))
            && (one.1.None? ==> plan == (done + (one.0 + rest.0), rest.1)
                                && TriggersDone(c, events, i + 1, NextId(id), timers + Timers(events[i]), done + one.0))
  {
    var one := OneTrigger(c, events[i], id, timers);
    var rest := TriggerPlan(c, events[i + 1..], NextId(id), timers + Timers(events[i]));
    assert events[i..][1..] == events[i + 1..];
    Regroup(done, one.0, rest.0);
    assert done + [] == done;
  }

  method InterruptValue(c: Layout, e: Event) returns (triggerVal: nat)
    requires e.trigger == Interrupt
    ensures triggerVal == TriggerValue(c, e)
  {
    triggerVal := TypeBits(c, if e.useIack then c.irqWithIack else c.irqNoIack);
    triggerVal := BitOr(triggerVal, IrqBits(c, e.irqLevel));
  }

  method EnableTrigger(mvlc: Mvlc, c: Layout, e: Event, stackId: nat, timersInUse: nat) returns (error: Option<Error>)
    modifies mvlc
    ensures var one := OneTrigger(c, e, stackId, timersInUse);
            Carried(one.0, one.1, old(mvlc.log), mvlc.failing, mvlc.log, error)
  {
    error := None;
    match e.trigger
    case Interrupt =>
      var triggerVal := InterruptValue(c, e);
      error := mvlc.Transaction(StackTrigger(stackId, triggerVal));
    case Periodic =>
      if timersInUse >= c.timerCount {
        error := Some(TimerCountExceeded);
      } else {
        error := mvlc.Transaction(StackTrigger(stackId, TypeBits(c, c.external)));
      }
    case TriggerIO => error := mvlc.Transaction(StackTrigger(stackId, TypeBits(c, c.external)));
    case Foreign =>
  }

  lemma TriggerStep(c: Layout, events: seq<Event>, i: nat, id: nat, timers: nat, done: seq<Access>,
                    before: seq<Access>, failing: Option<nat>,
                    mid: seq<Access>, now: seq<Access>, error: Option<Error>)
    requires i < |events| && TriggerProgress(c, events, i, id, timers, done, before, failing, mid)
    requires var one := OneTrigger(c, events[i], id, timers); Carried(one.0, one.1, mid, failing, now, error)
    ensures error.Some? ==> TriggersEnd(c, events, before, failing, now, error)
    ensures error == None ==>
              TriggerProgress(c, events, i + 1, NextId(id), timers + Timers(events[i]),
                              done + OneTrigger(c, events[i], id, timers).0, before, failing, now)
  {
    var one := OneTrigger(c, events[i], id, timers);
    OneMoreTrigger(c, events, i, id, timers, done);
    if one.1.None? {
      var rest := TriggerPlan(c, events[i + 1..], NextId(id), timers + Timers(events[i]));
      CarriedOn(done, one.0, rest.0, rest.1, before, failing, mid, now, error);
    }
  }

  method EnableTriggers(mvlc: Mvlc, c: Layout, events: seq<Event>) returns (error: Option<Error>)
    modifies mvlc
    ensures TriggersEnd(c, events, old(mvlc.log), mvlc.failing, mvlc.log, error)
  {
    var stackId: nat := c.immediateId + 1;
    var timersInUse: nat := 0;
    ghost var done: seq<Access> := [];
    TriggersBegin(c, events);
    for i := 0 to |events|
      invariant TriggerProgress(c, events, i, stackId, timersInUse, done, old(mvlc.log), mvlc.failing, mvlc.log)
    {
      ghost var mid := mvlc.log;
      error := EnableTrigger(mvlc, c, events[i], stackId, timersInUse);
      TriggerStep(c, events, i, stackId, timersInUse, done, old(mvlc.log), mvlc.failing, mid, mvlc.log, error);
      if error.Some? {
        return;
      }
      done := done + OneTrigger(c, events[i], stackId, timersInUse).0;
      if events[i].trigger == Periodic {
        timersInUse := timersInUse + 1;
      }
      stackId := NextId(stackId);
    }
    TriggersFinished(c, events, stackId, timersInUse, done);
    error := None;
  }

  /** The values only, for a crate configuration: no access to the controller. */
  method GetTriggerValues(c: Layout, events: seq<Event>) returns (triggers: seq<nat>, error: Option<Error>)
    ensures var plan := TriggerPlan(c, events, c.immediateId + 1, 0);
            WriteValues(plan.0, triggers) && error == plan.1
  {
    triggers := [];
    var stackId: nat := c.immediateId + 1;
    var timersInUse: nat := 0;
    ghost var done: seq<Access> := [];
    TriggersBegin(c, events);
    for i := 0 to |events|
      invariant TriggersDone(c, events, i, stackId, timersInUse, done)
      invariant WriteValues(done, triggers)
    {
      ghost var one := OneTrigger(c, events[i], stackId, timersInUse);
      OneMoreTrigger(c, events, i, stackId, timersInUse, done);
      if events[i].trigger == Periodic && timersInUse >= c.timerCount {
        return triggers, Some(TimerCountExceeded);
      }
      OneMoreValue(done, triggers, one.0, OneValue(c, events[i]));
      match events[i].trigger {
        case Interrupt =>
          var triggerVal := InterruptValue(c, events[i]);
          triggers := triggers + [triggerVal];
        case Periodic =>
          triggers := triggers + [TypeBits(c, c.external)];
          timersInUse := timersInUse + 1;
        case TriggerIO => triggers := triggers + [TypeBits(c, c.external)];
        case Foreign => assert triggers + [] == triggers;
      }
      done := done + one.0;
      stackId := NextId(stackId);
    }
    TriggersFinished(c, events, stackId, timersInUse, done);
    error := None;
  }
}
