/** Single stepping and the end of a run. */
module StreamWorkerRuns {
  import opened Wrappers
  import opened StreamWorker
  import opened StreamWorkerInvariants
  import opened StreamWorkerTheorems

  // ---------------------------------------------------------------------
  // Single stepping

  /** Counters of a segment that began in `s0` with the desired state Paused. */
  ghost predicate Stepping(s0: State, s: State) {
    s0.log.goWrites <= s.log.goWrites &&
    (s.log.goWrites == s0.log.goWrites ==>
       && s.desired != Running && (s.desired == Idle ==> s.pc.Off? || s.pc.Starting?)
       && (s.pc.InEvent? ==> s.pc.because == SingleStepping)
       && s.log.publishedStray == s0.log.publishedStray
       && s.log.passes - s0.log.passes == s.log.consumed - s0.log.consumed
       && s.log.consumed - s0.log.consumed + (if s.desired == SingleStepping then 1 else 0)
          <= s.log.stepWrites - s0.log.stepWrites)
  }

  lemma SteppingInGate(s0: State, s: State, t: State)
    requires GateInv(s) && Stepping(s0, s) && InGate(s.pc) && GateStep(s) == Some(t)
    ensures Stepping(s0, t)
  {
  }

  lemma SteppingInStart(s0: State, s: State, t: State)
    requires Stepping(s0, s) && InStartOrEnd(s.pc) && StartStep(s) == Some(t)
    ensures Stepping(s0, t)
  {
  }

  lemma SteppingInLoop(s0: State, s: State, t: State)
    requires Stepping(s0, s) && !InGate(s.pc) && LoopStep(s) == Some(t)
    ensures Stepping(s0, t)
  {
    LoopKeepsCounters(s, t);
  }

  lemma LoopKeepsCounters(s: State, t: State)
    requires LoopStep(s) == Some(t)
    ensures SameCounters(s, t)
  {
    if Takes(s.pc) { TakesKeepCounters(s, t); }
    else if s.pc.DrainReturn? || s.pc.Returning? { ReturnsKeepCounters(s, t); }
  }

  ghost predicate SameCounters(s: State, t: State) {
    && t.desired == s.desired && t.state == s.state && t.log.goWrites == s.log.goWrites
    && t.log.passes == s.log.passes && t.log.consumed == s.log.consumed
    && t.log.publishedStray == s.log.publishedStray && t.log.stepWrites == s.log.stepWrites
    && t.log.runs == s.log.runs && !t.pc.InEvent? && InRun(t.pc)
  }

  lemma TakesKeepCounters(s: State, t: State)
    requires Takes(s.pc) && LoopStep(s) == Some(t)
    ensures SameCounters(s, t)
  {
  }

  lemma ReturnsKeepCounters(s: State, t: State)
    requires (s.pc.DrainReturn? || s.pc.Returning?) && LoopStep(s) == Some(t)
    ensures SameCounters(s, t)
  {
  }

  lemma SteppingInCall(s0: State, s: State, id: nat, t: State)
    requires Stepping(s0, s) && ControllerStep(s, id) == Some(t)
    ensures Stepping(s0, t)
  {
  }

  lemma SteppingStep(s0: State, s: State, a: Act, t: State)
    requires GateInv(s) && Stepping(s0, s) && Step(s, a) == Some(t)
    ensures Stepping(s0, t)
  {
    if a.Advance? {
      if InGate(s.pc) { SteppingInGate(s0, s, t); }
      else if InStartOrEnd(s.pc) { SteppingInStart(s0, s, t); }
      else { SteppingInLoop(s0, s, t); }
    } else if a.CallStep? {
      SteppingInCall(s0, s, a.id, t);
    }
  }

  lemma {:induction false} SteppingRun(s: State, acts: seq<Act>, t: State)
    requires Inv(s) && Stepping(s, s) && Run(s, acts) == Some(t)
    ensures Stepping(s, t)
  {
    if acts != [] {
      var m := Run(s, acts[..|acts| - 1]).value;
      RunKeepsInv(s, acts[..|acts| - 1], m);
      SteppingRun(s, acts[..|acts| - 1], m);
      SteppingStep(s, m, acts[|acts| - 1], t);
    }
  }

  /** Single stepping is exact. Over any run segment that begins with the desired state Paused and
      no event let through otherwise in progress, and in which nobody resumes or stops and no start
      announces Running, the events passing the gate are the single steps consumed, at most as many
      as requested; and the results published are the steps consumed, up to events cut off by a
      parser exception and events still in progress at either end. */
  lemma SingleSteppingIsExact(s: State, acts: seq<Act>, t: State)
    requires Reachable(s) && s.desired == Paused && (s.pc.InEvent? ==> s.pc.because == SingleStepping)
    requires Run(s, acts) == Some(t) && t.log.goWrites == s.log.goWrites
    ensures t.log.passes - s.log.passes == t.log.consumed - s.log.consumed <= t.log.stepWrites - s.log.stepWrites
    ensures t.log.published - s.log.published + (t.log.abortedSteps - s.log.abortedSteps)
              == t.log.consumed - s.log.consumed
                 + (if SteppingNow(s) then 1 else 0) - (if SteppingNow(t) then 1 else 0)
  {
    ReachableInv(s);
    SteppingRun(s, acts, t);
    RunKeepsInv(s, acts, t);
  }

  /** A result is published for an event that was not single stepped iff a stop let the event
      through while the worker state was still SingleStepping. */
  lemma StrayResultIff(s: State, t: State)
    requires Reachable(s) && s.pc.InEvent? && Step(s, Advance) == Some(t)
    ensures t.log.published == s.log.published + 1 <==> s.state == SingleStepping
    ensures t.log.publishedStray == s.log.publishedStray + 1 <==>
              s.state == SingleStepping && s.pc.because == Idle
    ensures t.log.publishedStray == s.log.publishedStray <==>
              !(s.state == SingleStepping && s.pc.because == Idle)
  {
    ReachableInv(s);
  }

  // Complete calls and event passes, for concrete runs

  lemma ReachStep(s: State, a: Act) returns (t: State)
    requires Reachable(s) && Step(s, a).Some?
    ensures Step(s, a) == Some(t) && Reachable(t)
  {
    t := Step(s, a).value;
    var s0, acts :| Init(s0) && Run(s0, acts) == Some(s);
    assert (acts + [a])[..|acts + [a]| - 1] == acts;
    assert Run(s0, acts + [a]) == Some(t);
  }

  ghost predicate Undisturbed(s: State) {
    s.lock == Free && s.controllers == map[]
  }

  /** The last two statements of a call: unlocking and notifying. */
  lemma FinishCall(s: State, call: Call) returns (t: State)
    requires Reachable(s) && !s.pc.Sleeping? && s.controllers == map[0 := ActiveCall(call, Written)]
    ensures Reachable(t) && t == s.(lock := Free, controllers := map[])
  {
    t := ReachStep(s, CallStep(0));
    assert t.controllers == map[0 := ActiveCall(call, Notifying)];
    t := ReachStep(t, CallStep(0));
    assert t.controllers == map[];
  }

  /** The first two statements of a call: entering it and locking. */
  lemma EnterCall(s: State, call: Call) returns (t: State)
    requires Reachable(s) && Undisturbed(s)
    ensures Reachable(t) && t == s.(lock := Controller(0), controllers := map[0 := ActiveCall(call, Locked)])
  {
    t := ReachStep(s, BeginCall(0, call));
    assert t.controllers == map[0 := ActiveCall(call, Entered)];
    t := ReachStep(t, CallStep(0));
    assert t.controllers == map[0 := ActiveCall(call, Locked)];
  }

  lemma WholeStopCall(s: State, whenQueueEmpty: bool) returns (t: State)
    requires Reachable(s) && Undisturbed(s) && !s.pc.Sleeping?
    ensures Reachable(t) && Undisturbed(t) && t.pc == s.pc && t.state == s.state && t.desired == Idle
    ensures t.log.publishedStray == s.log.publishedStray
  {
    var call := Stop(whenQueueEmpty);
    t := EnterCall(s, call);
    t := ReachStep(t, CallStep(0));
    assert t.controllers == map[0 := ActiveCall(call, Halfway)];
    t := ReachStep(t, CallStep(0));
    assert t.controllers == map[0 := ActiveCall(call, Written)];
    t := FinishCall(t, call);
  }

  lemma WholeSingleStepCall(s: State) returns (t: State)
    requires Reachable(s) && Undisturbed(s) && !s.pc.Sleeping?
    ensures Reachable(t) && Undisturbed(t) && t.pc == s.pc && t.state == s.state && t.desired == SingleStepping
    ensures t.log.publishedStray == s.log.publishedStray
  {
    t := EnterCall(s, SingleStep);
    t := ReachStep(t, CallStep(0));
    assert t.controllers == map[0 := ActiveCall(SingleStep, Written)];
    t := FinishCall(t, SingleStep);
  }

  /** One event from the parser through the open gate, up to its publication. */
  lemma WholeEvent(s: State) returns (t: State)
    requires Reachable(s) && Undisturbed(s) && s.pc.Parsing? && s.pc.left > 0
    requires s.desired == SingleStepping || (s.desired == Idle && s.state == SingleStepping)
    ensures Reachable(t) && Undisturbed(t) && t.pc == Parsing(s.pc.left - 1) && t.state == SingleStepping
    ensures t.log.publishedStray == s.log.publishedStray + (if s.desired == Idle then 1 else 0)
  {
    t := WaitlessPass(s);
    t := Publication(t);
  }

  lemma Publication(s: State) returns (t: State)
    requires Reachable(s) && Undisturbed(s) && s.pc.InEvent? && s.pc.left > 0 && s.state == SingleStepping
    ensures Reachable(t) && Undisturbed(t) && t.pc == Parsing(s.pc.left - 1) && t.state == SingleStepping
    ensures t.log.publishedStray == s.log.publishedStray + (if s.pc.because == SingleStepping then 0 else 1)
  {
    t := ReachStep(s, Advance);
  }

  lemma AtTheGate(s: State) returns (t: State)
    requires Reachable(s) && Undisturbed(s) && s.pc.Parsing? && s.pc.left > 0
    requires s.desired == SingleStepping || (s.desired == Idle && s.state == SingleStepping)
    ensures Reachable(t) && t == s.(pc := GateTest(s.pc.left), lock := Worker)
  {
    t := ReachStep(s, Advance);
    assert t == s.(pc := GateEnter(s.pc.left));
    t := ReachStep(t, Advance);
  }

  lemma WaitlessPass(s: State) returns (t: State)
    requires Reachable(s) && Undisturbed(s) && s.pc.Parsing? && s.pc.left > 0
    requires s.desired == SingleStepping || (s.desired == Idle && s.state == SingleStepping)
    ensures Reachable(t) && Undisturbed(t) && t.pc == InEvent(s.pc.left, s.desired) && t.state == SingleStepping
    ensures t.log.publishedStray == s.log.publishedStray
  {
    t := AtTheGate(s);
    t := ReachStep(t, Advance);
    assert t == s.(pc := GatePass(s.pc.left), lock := Worker);
    t := ReachStep(t, Advance);
  }

  /** A started worker at the point where it reads m_startPaused. */
  lemma Started(filled: seq<Buffer>, startPaused: bool) returns (s: State)
    ensures Reachable(s) && Undisturbed(s) && s.filled == filled && s.log.publishedStray == 0
    ensures s.pc == CheckStartPaused && s.startPaused == startPaused && s.desired == Running
  {
    s := State(Off, Free, Idle, Idle, StopWhenQueueEmpty, false, map[], filled, [], None, None, [],
               Log(0, filled, [], [], [], [], [], 0, 0, 0, 0, 0, 0, 0));
    assert Init(s) && Run(s, []) == Some(s);
    s := ReachStep(s, SetStartPaused(startPaused));
    s := ReachStep(s, Advance);
    assert s.pc == Starting;
    s := ReachStep(s, Advance);
  }

  lemma FirstIteration() returns (s: State)
    ensures Reachable(s) && Undisturbed(s) && s.pc == Branch(Running) && s.log.publishedStray == 0
    ensures s.filled == [Buffer(0, 2, false)]
  {
    s := Started([Buffer(0, 2, false)], false);
    s := ReachStep(s, Advance);
    assert s.pc == LoopTop;
    s := ReachStep(s, Advance);
  }

  lemma FirstBuffer() returns (s: State)
    ensures Reachable(s) && Undisturbed(s) && s.pc == Parsing(2) && s.log.publishedStray == 0
  {
    s := FirstIteration();
    s := ReachStep(s, Advance);
  }

  /** It happens: a single step, then a stop before the next event reaches the gate. */
  lemma StrayResultReachable()
    ensures exists s :: Reachable(s) && s.log.publishedStray > 0
  {
    var s := FirstBuffer();
    s := WholeSingleStepCall(s);
    s := WholeEvent(s);
    s := WholeStopCall(s, true);
    s := WholeEvent(s);
  }

  // ---------------------------------------------------------------------
  // A pending stop

  /** The worker replaces a pending stop in its start-up only: before it announces Running, and
      when it goes straight into the paused state. */
  lemma WorkerOverwritesStopIff(s: State, t: State)
    requires s.desired == Idle && WorkerStep(s) == Some(t)
    ensures t.desired != Idle <==> s.pc == Starting || s.pc == StartPausing
  {
  }

  /** The latter loses a stop call that has completed. */
  lemma StopLostInStartup()
    ensures exists s :: Reachable(s) && s.pc == StartPausing && Undisturbed(s) && s.desired == Idle
                        && WorkerStep(s).Some? && WorkerStep(s).value.desired == Paused
  {
    var s := Started([], true);
    s := ReachStep(s, Advance);
    s := WholeStopCall(s, true);
  }

  /** Inside the run loop, up to and including the end of the run. */
  predicate InRun(pc: Pc) {
    !(pc.Off? || pc.Starting? || pc.CheckStartPaused? || pc.StartPausing?)
  }

  /** The statement of a call that replaces the desired state by something else than Idle. */
  predicate Withdraws(s: State, a: Act) {
    && a.CallStep? && a.id in s.controllers
    && s.controllers[a.id].pc.Locked? && !s.controllers[a.id].call.Stop?
  }

  /** No action of the run is such a statement. */
  ghost predicate NoneWithdraws(s: State, acts: seq<Act>) {
    forall k {:trigger acts[..k]} :: 0 <= k < |acts| && Run(s, acts[..k]).Some? ==>
      !Withdraws(Run(s, acts[..k]).value, acts[k])
  }

  /** Exactly these and the two announcements replace a pending stop. */
  lemma StopReplacedIff(s: State, a: Act, t: State)
    requires s.desired == Idle && Step(s, a) == Some(t)
    ensures t.desired != Idle <==>
            Withdraws(s, a) || (a.Advance? && (s.pc == Starting || s.pc == StartPausing))
  {
    match a
    case Advance => WorkerOverwritesStopIff(s, t);
    case CallStep(id) => StopReplacedByCall(s, id, t);
    case _ =>
  }

  lemma StopReplacedByCall(s: State, id: nat, t: State)
    requires s.desired == Idle && ControllerStep(s, id) == Some(t)
    ensures t.desired != Idle <==> Withdraws(s, CallStep(id))
  {
  }

  /** Once the run loop is reached a stop stays in force until the next start, whatever happens in
      between: any statement of any call but those that write another desired state. */
  lemma {:induction false} PendingStopSurvives(s: State, acts: seq<Act>, t: State)
    requires InRun(s.pc) && s.desired == Idle
    requires Run(s, acts) == Some(t) && t.log.runs == s.log.runs && NoneWithdraws(s, acts)
    ensures t.desired == Idle && (InRun(t.pc) || t.pc == Off) && s.log.runs <= t.log.runs
  {
    if acts != [] {
      var n := |acts| - 1;
      var m := Run(s, acts[..n]).value;
      RunsGrow(s, acts[..n], m);
      RunsGrowStep(m, acts[n], t);
      NoneWithdrawsBefore(s, acts);
      PendingStopSurvives(s, acts[..n], m);
      StopSurvivesStep(m, acts[n], t);
    }
  }

  lemma StopSurvivesStep(s: State, a: Act, t: State)
    requires s.desired == Idle && (InRun(s.pc) || s.pc == Off)
    requires Step(s, a) == Some(t) && !Withdraws(s, a) && t.log.runs == s.log.runs
    ensures t.desired == Idle && (InRun(t.pc) || t.pc == Off)
  {
    StopReplacedIff(s, a, t);
    match a
    case Advance => StaysInRun(s, t);
    case CallStep(id) => CallFrame(s, id, t);
    case _ =>
  }

  lemma NoneWithdrawsBefore(s: State, acts: seq<Act>)
    requires acts != [] && NoneWithdraws(s, acts)
    ensures NoneWithdraws(s, acts[..|acts| - 1])
  {
    var before := acts[..|acts| - 1];
    forall k {:trigger before[..k]} | 0 <= k < |before| && Run(s, before[..k]).Some?
      ensures !Withdraws(Run(s, before[..k]).value, before[k])
    {
      assert before[..k] == acts[..k];
    }
  }

  lemma StaysInRun(s: State, t: State)
    requires (InRun(s.pc) || s.pc == Off) && WorkerStep(s) == Some(t) && t.log.runs == s.log.runs
    ensures InRun(t.pc) || t.pc == Off
  {
    if !InGate(s.pc) && !InStartOrEnd(s.pc) { LoopKeepsCounters(s, t); }
  }

  lemma RunsGrowStep(s: State, a: Act, t: State)
    requires Step(s, a) == Some(t)
    ensures s.log.runs <= t.log.runs
  {
    if a.CallStep? {
      CallFrame(s, a.id, t);
    } else if a.Advance? && !InGate(s.pc) && !InStartOrEnd(s.pc) {
      LoopKeepsCounters(s, t);
    }
  }

  lemma {:induction false} RunsGrow(s: State, acts: seq<Act>, t: State)
    requires Run(s, acts) == Some(t)
    ensures s.log.runs <= t.log.runs
  {
    if acts != [] {
      var m := Run(s, acts[..|acts| - 1]).value;
      RunsGrow(s, acts[..|acts| - 1], m);
      RunsGrowStep(m, acts[|acts| - 1], t);
    }
  }
}
