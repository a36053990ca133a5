/** Invariants of the worker protocol over all interleavings. */
module StreamWorkerInvariants {
  import opened Wrappers
  import opened StreamWorker

  // ---------------------------------------------------------------------
  // The mutex

  predicate WorkerHoldsLock(pc: Pc) {
    pc.GateTest? || pc.GateWait? || pc.GatePass?
  }

  ghost predicate LockInv(s: State) {
    && (s.lock == Worker <==> WorkerHoldsLock(s.pc))
    && (forall t :: t in s.controllers ==> (s.lock == Controller(t) <==> HoldsLock(s.controllers[t])))
    && (s.lock.Controller? ==> s.lock.id in s.controllers)
  }

  // ---------------------------------------------------------------------
  // The gate

  ghost predicate GateInv(s: State) {
    match s.pc
    case GateEnter(left) => left > 0
    case GateTest(left) =>
      && left > 0 && (s.desired == Paused ==> s.state == Paused)
      && (s.state == SingleStepping ==> s.desired == Idle || s.desired == SingleStepping)
    case GateWait(left) => left > 0 && s.desired == Paused && s.state == Paused
    case Sleeping(left) => left > 0 && s.state == Paused
    case Woken(left) => left > 0 && s.state == Paused
    case GatePass(left) =>
      && left > 0 && s.desired != Paused
      && (s.state == SingleStepping ==> s.desired == Idle || s.desired == SingleStepping)
    case InEvent(left, because) =>
      && left > 0 && because != Paused
      && (because == SingleStepping ==> s.state == SingleStepping)
      && (s.state == SingleStepping ==> because == SingleStepping || because == Idle)
    case _ => true
  }

  /** The worker never sleeps through a change of the desired state: while it sleeps although it may
      pass, some call that changed the desired state still has its notification to come. */
  ghost predicate WakeInv(s: State) {
    s.pc.Sleeping? && MayPass(s.desired) ==>
      exists t :: t in s.controllers && NotifyPending(s.controllers[t])
  }

  // ---------------------------------------------------------------------
  // Buffers

  predicate Handling(pc: Pc) {
    InGate(pc) || pc.Parsing? || pc.Returning? || pc.DrainReturn?
  }

  function Ids(bs: seq<Buffer>): multiset<nat> {
    if bs == [] then multiset{} else Ids(bs[..|bs| - 1]) + multiset{bs[|bs| - 1].id}
  }

  function HandSeq(b: Option<Buffer>): seq<Buffer> {
    if b.Some? then [b.value] else []
  }

  /** All buffers in the system, by identity. */
  function Pool(s: State): multiset<nat> {
    Ids(s.filled) + Ids(s.empty) + Ids(HandSeq(s.hand)) + Ids(HandSeq(s.producerHand)) + Ids(s.kept)
  }

  ghost predicate HandInv(s: State) {
    s.hand.Some? <==> Handling(s.pc)
  }

  /** Every buffer taken is returned exactly once, in hand, or kept. */
  ghost predicate ReturnInv(s: State) {
    multiset(s.log.taken) == multiset(s.log.returned) + multiset(HandSeq(s.hand)) + multiset(s.kept)
  }

  predicate MayStillKeep(pc: Pc) {
    !pc.Off? && (pc.Leaving? ==> pc.exit != BySentinel)
  }

  /** Only sentinels are kept, at most one per run. */
  ghost predicate KeptInv(s: State) {
    && (forall b :: b in s.kept ==> b.sentinel)
    && |s.kept| + (if MayStillKeep(s.pc) then 1 else 0) <= s.log.runs
  }

  ghost predicate OrderInv(s: State) {
    && s.log.arrivals == s.log.taken + s.filled
    && RunOrder(s)
  }

  ghost predicate EndsWith(bs: seq<Buffer>, tail: seq<Buffer>) {
    |tail| <= |bs| && bs[|bs| - |tail|..] == tail
  }

  /** What has been taken in the current run was processed in the same order, up to the buffer in
      hand, the drained ones and the sentinel. */
  ghost predicate RunOrder(s: State) {
    var l := s.log;
    match s.pc
    case Off => true
    case Crashed => true
    case Draining => l.runTaken == l.runProcessed + l.runDrained && EndsWith(l.returned, l.runDrained)
    case DrainReturn =>
      l.runTaken == l.runProcessed + l.runDrained + HandSeq(s.hand) && EndsWith(l.returned, l.runDrained)
    case Leaving(e) =>
      (match e
       case BySentinel => l.runDrained == [] && s.kept != [] && l.runTaken == l.runProcessed + [s.kept[|s.kept| - 1]]
       case ByQueueEmpty => l.runDrained == [] && l.runTaken == l.runProcessed
       case ByImmediateStop =>
         l.runTaken == l.runProcessed + l.runDrained && EndsWith(l.returned, l.runDrained))
    case Returning(throwing) =>
      l.runDrained == [] && l.runTaken == l.runProcessed + if throwing then HandSeq(s.hand) else []
    case _ => l.runDrained == [] && l.runTaken == l.runProcessed + HandSeq(s.hand)
  }

  // ---------------------------------------------------------------------
  // Single steps

  predicate SteppingNow(s: State) { s.pc.InEvent? && s.pc.because == SingleStepping }

  /** Every consumed step is published, aborted or in progress, once. */
  ghost predicate StepInv(s: State) {
    && s.log.publishedStray <= s.log.published
    && s.log.consumed == s.log.published - s.log.publishedStray + s.log.abortedSteps
                         + (if SteppingNow(s) then 1 else 0)
    && s.log.consumed <= s.log.passes
  }

  // ---------------------------------------------------------------------
  // Preservation

  ghost predicate Inv(s: State) {
    LockInv(s) && GateInv(s) && WakeInv(s) && HandInv(s) && ReturnInv(s) && KeptInv(s) && OrderInv(s) && StepInv(s)
  }

  lemma InitInv(s: State)
    requires Init(s)
    ensures Inv(s)
  {
  }

  predicate Takes(pc: Pc) {
    pc.Branch? || pc.TakeLast? || pc.Draining?
  }

  /** Calls do not touch the buffers. */
  lemma CallFrame(s: State, id: nat, t: State)
    requires ControllerStep(s, id) == Some(t)
    ensures SameBuffers(s, t)
    ensures t.pc == s.pc || (s.pc.Sleeping? && t.pc == Woken(s.pc.left))
  {
  }

  ghost predicate SameBuffers(s: State, t: State) {
    && t.filled == s.filled && t.empty == s.empty && t.hand == s.hand
    && t.producerHand == s.producerHand && t.kept == s.kept
    && t.log.arrivals == s.log.arrivals && t.log.taken == s.log.taken && t.log.returned == s.log.returned
    && t.log.runs == s.log.runs && t.log.runTaken == s.log.runTaken
    && t.log.runProcessed == s.log.runProcessed && t.log.runDrained == s.log.runDrained
  }

  lemma LockInGate(s: State, t: State)
    requires LockInv(s) && InGate(s.pc) && GateStep(s) == Some(t)
    ensures LockInv(t)
  {
  }

  lemma LockInStart(s: State, t: State)
    requires LockInv(s) && InStartOrEnd(s.pc) && StartStep(s) == Some(t)
    ensures LockInv(t)
  {
  }

  lemma LockInLoop(s: State, t: State)
    requires LockInv(s) && !InGate(s.pc) && !InStartOrEnd(s.pc) && LoopStep(s) == Some(t)
    ensures LockInv(t)
  {
  }

  lemma LockInCall(s: State, id: nat, t: State)
    requires LockInv(s) && ControllerStep(s, id) == Some(t)
    ensures LockInv(t)
  {
  }

  lemma LockKept(s: State, a: Act, t: State)
    requires LockInv(s) && Step(s, a) == Some(t)
    ensures LockInv(t)
  {
    if a.Advance? {
      if InGate(s.pc) { LockInGate(s, t); }
      else if InStartOrEnd(s.pc) { LockInStart(s, t); }
      else { LockInLoop(s, t); }
    } else if a.CallStep? {
      LockInCall(s, a.id, t);
    }
  }

  lemma GateInGate(s: State, t: State)
    requires LockInv(s) && GateInv(s) && InGate(s.pc) && GateStep(s) == Some(t)
    ensures GateInv(t)
  {
  }

  lemma GateInStart(s: State, t: State)
    requires LockInv(s) && GateInv(s) && InStartOrEnd(s.pc) && StartStep(s) == Some(t)
    ensures GateInv(t)
  {
  }

  lemma GateInLoop(s: State, t: State)
    requires LockInv(s) && GateInv(s) && !InGate(s.pc) && !InStartOrEnd(s.pc) && LoopStep(s) == Some(t)
    ensures GateInv(t)
  {
  }

  lemma GateInCall(s: State, id: nat, t: State)
    requires LockInv(s) && GateInv(s) && ControllerStep(s, id) == Some(t)
    ensures GateInv(t)
  {
  }

  lemma GateKept(s: State, a: Act, t: State)
    requires LockInv(s) && GateInv(s) && Step(s, a) == Some(t)
    ensures GateInv(t)
  {
    if a.Advance? {
      if InGate(s.pc) { GateInGate(s, t); }
      else if InStartOrEnd(s.pc) { GateInStart(s, t); }
      else { GateInLoop(s, t); }
    } else if a.CallStep? {
      GateInCall(s, a.id, t);
    }
  }

  lemma WakeInGate(s: State, t: State)
    requires LockInv(s) && GateInv(s) && WakeInv(s) && InGate(s.pc) && GateStep(s) == Some(t)
    ensures WakeInv(t)
  {
  }

  lemma WakeInStart(s: State, t: State)
    requires LockInv(s) && GateInv(s) && WakeInv(s) && InStartOrEnd(s.pc) && StartStep(s) == Some(t)
    ensures WakeInv(t)
  {
  }

  lemma WakeInLoop(s: State, t: State)
    requires LockInv(s) && GateInv(s) && WakeInv(s) && !InGate(s.pc) && !InStartOrEnd(s.pc) && LoopStep(s) == Some(t)
    ensures WakeInv(t)
  {
  }

  lemma WakeInCall(s: State, id: nat, t: State)
    requires LockInv(s) && GateInv(s) && WakeInv(s) && ControllerStep(s, id) == Some(t)
    ensures WakeInv(t)
  {
    if t.pc.Sleeping? && MayPass(t.desired) {
      if !NotifyPending(t.controllers[id]) {
        var w :| w in s.controllers && NotifyPending(s.controllers[w]);
        assert w in t.controllers;
      }
    }
  }

  lemma WakeKept(s: State, a: Act, t: State)
    requires LockInv(s) && GateInv(s) && WakeInv(s) && Step(s, a) == Some(t)
    ensures WakeInv(t)
  {
    if a.Advance? {
      if InGate(s.pc) { WakeInGate(s, t); }
      else if InStartOrEnd(s.pc) { WakeInStart(s, t); }
      else { WakeInLoop(s, t); }
    } else if a.CallStep? {
      WakeInCall(s, a.id, t);
    } else if a.BeginCall? && t.pc.Sleeping? && MayPass(t.desired) {
      var w :| w in s.controllers && NotifyPending(s.controllers[w]);
      assert w in t.controllers;
    }
  }

  lemma HandInGate(s: State, t: State)
    requires HandInv(s) && InGate(s.pc) && GateStep(s) == Some(t)
    ensures HandInv(t)
  {
  }

  lemma HandInStart(s: State, t: State)
    requires HandInv(s) && InStartOrEnd(s.pc) && StartStep(s) == Some(t)
    ensures HandInv(t)
  {
  }

  lemma HandInLoop(s: State, t: State)
    requires HandInv(s) && !InGate(s.pc) && !InStartOrEnd(s.pc) && LoopStep(s) == Some(t)
    ensures HandInv(t)
  {
  }

  lemma HandInCall(s: State, id: nat, t: State)
    requires HandInv(s) && ControllerStep(s, id) == Some(t)
    ensures HandInv(t)
  {
    CallFrame(s, id, t);
  }

  lemma HandKept(s: State, a: Act, t: State)
    requires HandInv(s) && Step(s, a) == Some(t)
    ensures HandInv(t)
  {
    if a.Advance? {
      if InGate(s.pc) { HandInGate(s, t); }
      else if InStartOrEnd(s.pc) { HandInStart(s, t); }
      else { HandInLoop(s, t); }
    } else if a.CallStep? {
      HandInCall(s, a.id, t);
    }
  }

  lemma ReturnInGate(s: State, t: State)
    requires HandInv(s) && ReturnInv(s) && InGate(s.pc) && GateStep(s) == Some(t)
    ensures ReturnInv(t)
  {
  }

  lemma ReturnInStart(s: State, t: State)
    requires HandInv(s) && ReturnInv(s) && InStartOrEnd(s.pc) && StartStep(s) == Some(t)
    ensures ReturnInv(t)
  {
  }

  /** Taking moves the first filled buffer into the hand or, as a sentinel, out of the way. */
  ghost predicate TookFirst(s: State, t: State) {
    && s.filled != [] && t.filled == s.filled[1..]
    && t.log.taken == s.log.taken + [s.filled[0]]
    && t.log.returned == s.log.returned && t.log.arrivals == s.log.arrivals
    && t.empty == s.empty && t.producerHand == s.producerHand
    && s.hand == None
    && ((t.hand == Some(s.filled[0]) && t.kept == s.kept) || (t.hand == None && t.kept == s.kept + [s.filled[0]]))
  }

  lemma TakeCases(s: State, t: State)
    requires HandInv(s) && Takes(s.pc) && LoopStep(s) == Some(t)
    ensures TookFirst(s, t) || (SameBuffers(s, t) && s.hand == t.hand == None)
  {
  }

  lemma ReturnInTake(s: State, t: State)
    requires HandInv(s) && ReturnInv(s) && Takes(s.pc) && LoopStep(s) == Some(t)
    ensures ReturnInv(t)
  {
    TakeCases(s, t);
    if TookFirst(s, t) {
      TookFirstReturns(s, t);
    }
  }

  lemma TookFirstReturns(s: State, t: State)
    requires ReturnInv(s) && TookFirst(s, t)
    ensures ReturnInv(t)
  {
  }

  lemma ReturnInReturn(s: State, t: State)
    requires HandInv(s) && ReturnInv(s) && (s.pc.DrainReturn? || s.pc.Returning?) && LoopStep(s) == Some(t)
    ensures ReturnInv(t)
  {
  }

  lemma ReturnInLoop(s: State, t: State)
    requires HandInv(s) && ReturnInv(s) && !InGate(s.pc) && !InStartOrEnd(s.pc) && LoopStep(s) == Some(t)
    ensures ReturnInv(t)
  {
    if Takes(s.pc) { ReturnInTake(s, t); }
    else if s.pc.DrainReturn? || s.pc.Returning? { ReturnInReturn(s, t); }
  }

  lemma ReturnInCall(s: State, id: nat, t: State)
    requires HandInv(s) && ReturnInv(s) && ControllerStep(s, id) == Some(t)
    ensures ReturnInv(t)
  {
    CallFrame(s, id, t);
  }

  lemma ReturnKept(s: State, a: Act, t: State)
    requires HandInv(s) && ReturnInv(s) && Step(s, a) == Some(t)
    ensures ReturnInv(t)
  {
    if a.Advance? {
      if InGate(s.pc) { ReturnInGate(s, t); }
      else if InStartOrEnd(s.pc) { ReturnInStart(s, t); }
      else { ReturnInLoop(s, t); }
    } else if a.CallStep? {
      ReturnInCall(s, a.id, t);
    } else {
      ReturnInOthers(s, a, t);
    }
  }

  lemma ReturnInOthers(s: State, a: Act, t: State)
    requires ReturnInv(s) && !a.Advance? && !a.CallStep? && Step(s, a) == Some(t)
    ensures ReturnInv(t)
  {
    OthersKeepHand(s, a, t);
  }

  /** What has been taken and returned, and where it is. */
  ghost predicate SameHand(s: State, t: State) {
    t.log.taken == s.log.taken && t.log.returned == s.log.returned && t.hand == s.hand && t.kept == s.kept
  }

  lemma OthersKeepHand(s: State, a: Act, t: State)
    requires !a.Advance? && !a.CallStep? && Step(s, a) == Some(t)
    ensures SameHand(s, t)
  {
  }

  lemma KeptInGate(s: State, t: State)
    requires KeptInv(s) && InGate(s.pc) && GateStep(s) == Some(t)
    ensures KeptInv(t)
  {
  }

  lemma KeptInStart(s: State, t: State)
    requires KeptInv(s) && InStartOrEnd(s.pc) && StartStep(s) == Some(t)
    ensures KeptInv(t)
  {
  }

  lemma KeptInLoop(s: State, t: State)
    requires KeptInv(s) && !InGate(s.pc) && !InStartOrEnd(s.pc) && LoopStep(s) == Some(t)
    ensures KeptInv(t)
  {
  }

  lemma KeptInCall(s: State, id: nat, t: State)
    requires KeptInv(s) && ControllerStep(s, id) == Some(t)
    ensures KeptInv(t)
  {
    CallFrame(s, id, t);
  }

  lemma KeptKept(s: State, a: Act, t: State)
    requires KeptInv(s) && Step(s, a) == Some(t)
    ensures KeptInv(t)
  {
    if a.Advance? {
      if InGate(s.pc) { KeptInGate(s, t); }
      else if InStartOrEnd(s.pc) { KeptInStart(s, t); }
      else { KeptInLoop(s, t); }
    } else if a.CallStep? {
      KeptInCall(s, a.id, t);
    }
  }

  lemma OrderInGate(s: State, t: State)
    requires HandInv(s) && OrderInv(s) && InGate(s.pc) && GateStep(s) == Some(t)
    ensures OrderInv(t)
  {
  }

  lemma OrderInStart(s: State, t: State)
    requires HandInv(s) && OrderInv(s) && InStartOrEnd(s.pc) && StartStep(s) == Some(t)
    ensures OrderInv(t)
  {
  }

  lemma OrderInTake(s: State, t: State)
    requires HandInv(s) && OrderInv(s) && Takes(s.pc) && LoopStep(s) == Some(t)
    ensures OrderInv(t)
  {
    TakeCases(s, t);
    if s.pc.Branch? { RunOrderInBranch(s, t); }
    else { RunOrderInLastTakes(s, t); }
  }

  lemma RunOrderInBranch(s: State, t: State)
    requires HandInv(s) && RunOrder(s) && s.pc.Branch? && LoopStep(s) == Some(t)
    ensures RunOrder(t)
  {
    if t.log == s.log { RunOrderWithoutTaking(s, t); }
    else { RunOrderTaking(s, t); }
  }

  lemma RunOrderWithoutTaking(s: State, t: State)
    requires HandInv(s) && RunOrder(s) && s.pc.Branch? && LoopStep(s) == Some(t) && t.log == s.log
    ensures RunOrder(t)
  {
    assert t.pc.LoopTop? || t.pc.Draining? || t.pc.TakeLast? || s.filled != [];
  }

  lemma RunOrderTaking(s: State, t: State)
    requires HandInv(s) && RunOrder(s) && s.pc.Branch? && LoopStep(s) == Some(t) && t.log != s.log
    ensures RunOrder(t)
  {
    var b := s.filled[0];
    assert s.hand == None && s.log.runTaken == s.log.runProcessed + [];
    assert t.log.runTaken == s.log.runProcessed + [b];
  }

  lemma RunOrderInLastTakes(s: State, t: State)
    requires HandInv(s) && RunOrder(s) && (s.pc.TakeLast? || s.pc.Draining?) && LoopStep(s) == Some(t)
    ensures RunOrder(t)
  {
  }

  lemma OrderInReturn(s: State, t: State)
    requires HandInv(s) && OrderInv(s) && (s.pc.DrainReturn? || s.pc.Returning?) && LoopStep(s) == Some(t)
    ensures OrderInv(t)
  {
  }

  lemma OrderInLoop(s: State, t: State)
    requires HandInv(s) && OrderInv(s) && !InGate(s.pc) && !InStartOrEnd(s.pc) && LoopStep(s) == Some(t)
    ensures OrderInv(t)
  {
    if Takes(s.pc) { OrderInTake(s, t); }
    else if s.pc.DrainReturn? || s.pc.Returning? { OrderInReturn(s, t); }
  }

  lemma OrderInCall(s: State, id: nat, t: State)
    requires HandInv(s) && OrderInv(s) && ControllerStep(s, id) == Some(t)
    ensures OrderInv(t)
  {
    CallFrame(s, id, t);
  }

  lemma OrderKept(s: State, a: Act, t: State)
    requires HandInv(s) && OrderInv(s) && Step(s, a) == Some(t)
    ensures OrderInv(t)
  {
    if a.Advance? {
      if InGate(s.pc) { OrderInGate(s, t); }
      else if InStartOrEnd(s.pc) { OrderInStart(s, t); }
      else { OrderInLoop(s, t); }
    } else if a.CallStep? {
      OrderInCall(s, a.id, t);
    }
  }

  lemma CountInGate(s: State, t: State)
    requires GateInv(s) && StepInv(s) && InGate(s.pc) && GateStep(s) == Some(t)
    ensures StepInv(t)
  {
  }

  lemma CountInStart(s: State, t: State)
    requires GateInv(s) && StepInv(s) && InStartOrEnd(s.pc) && StartStep(s) == Some(t)
    ensures StepInv(t)
  {
  }

  lemma CountInLoop(s: State, t: State)
    requires GateInv(s) && StepInv(s) && !InGate(s.pc) && !InStartOrEnd(s.pc) && LoopStep(s) == Some(t)
    ensures StepInv(t)
  {
  }

  lemma CountInCall(s: State, id: nat, t: State)
    requires GateInv(s) && StepInv(s) && ControllerStep(s, id) == Some(t)
    ensures StepInv(t)
  {
  }

  lemma CountKept(s: State, a: Act, t: State)
    requires GateInv(s) && StepInv(s) && Step(s, a) == Some(t)
    ensures StepInv(t)
  {
    if a.Advance? {
      if InGate(s.pc) { CountInGate(s, t); }
      else if InStartOrEnd(s.pc) { CountInStart(s, t); }
      else { CountInLoop(s, t); }
    } else if a.CallStep? {
      CountInCall(s, a.id, t);
    }
  }
}
