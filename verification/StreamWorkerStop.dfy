/** What the calls of the controllers achieve: every completed call leaves what it asks for, the kind
    of stop decides about the buffers still queued, and a resumed worker lets all events pass. */
module StreamWorkerStop {
  import opened Wrappers
  import opened StreamWorker
  import opened StreamWorkerInvariants
  import opened StreamWorkerTheorems
  import opened StreamWorkerRuns
  import opened StreamWorkerEnd

  // ---------------------------------------------------------------------
  // Completed calls

  /** The state a call asks for. */
  function Wanted(c: Call): WorkerState {
    match c
    case Stop(_) => Idle
    case Pause => Paused
    case Resume => Running
    case SingleStep => SingleStepping
  }

  function FlagOf(whenQueueEmpty: bool): StopFlag {
    if whenQueueEmpty then StopWhenQueueEmpty else StopImmediately
  }

  /** A call past its writes, and still inside the mutex, finds them in place. */
  ghost predicate InPlace(s: State, c: ActiveCall) {
    && (c.pc.Written? ==> s.desired == Wanted(c.call))
    && (c.pc.Halfway? ==> c.call.Stop? || (c.call.Resume? && s.desired == Running))
    && (c.call.Stop? && (c.pc.Halfway? || c.pc.Written?) ==> s.stopFlag == FlagOf(c.call.whenQueueEmpty))
  }

  ghost predicate CallInv(s: State) { forall id :: id in s.controllers ==> InPlace(s, s.controllers[id]) }

  lemma CallInvInCall(s: State, id: nat, t: State)
    requires LockInv(s) && CallInv(s) && ControllerStep(s, id) == Some(t)
    ensures CallInv(t)
  {
    forall k | k in t.controllers ensures InPlace(t, t.controllers[k]) {
      if k != id {
        assert k in s.controllers && InPlace(s, s.controllers[k]);
        assert s.lock == Controller(k) <==> HoldsLock(s.controllers[k]);
      } else {
        assert InPlace(s, s.controllers[id]);
      }
    }
  }

  lemma OnlyTheOwnerWrites(s: State, t: State)
    requires LockInv(s) && WorkerStep(s) == Some(t)
    ensures t.controllers == s.controllers && t.stopFlag == s.stopFlag
    ensures t.desired != s.desired ==> !s.lock.Controller?
  {
    if !InGate(s.pc) && !InStartOrEnd(s.pc) { LoopWritesNothing(s, t); }
  }

  lemma LoopWritesNothing(s: State, t: State)
    requires LoopStep(s) == Some(t)
    ensures t.controllers == s.controllers && t.stopFlag == s.stopFlag && t.desired == s.desired
  {
  }

  lemma CallInvStep(s: State, a: Act, t: State)
    requires LockInv(s) && CallInv(s) && Step(s, a) == Some(t)
    ensures CallInv(t)
  {
    if a.CallStep? {
      CallInvInCall(s, a.id, t);
    } else if a.Advance? {
      OnlyTheOwnerWrites(s, t);
      forall k | k in t.controllers ensures InPlace(t, t.controllers[k]) {
        assert InPlace(s, s.controllers[k]);
        assert s.lock == Controller(k) <==> HoldsLock(s.controllers[k]);
      }
    } else {
      forall k | k in t.controllers ensures InPlace(t, t.controllers[k]) {
        assert k in s.controllers ==> InPlace(s, s.controllers[k]);
      }
    }
  }

  lemma {:induction false} CallInvRun(s: State, acts: seq<Act>, t: State)
    requires Inv(s) && CallInv(s) && Run(s, acts) == Some(t)
    ensures CallInv(t)
  {
    if acts != [] {
      var n := |acts| - 1;
      var m := Run(s, acts[..n]).value;
      RunKeepsInv(s, acts[..n], m);
      CallInvRun(s, acts[..n], m);
      CallInvStep(m, acts[n], t);
    }
  }

  /** Whatever the other threads do, a call that has done its writes and is about to unlock leaves the
      desired state it stands for, and a stop leaves its kind. */
  lemma CallTakesEffect(s: State, id: nat)
    requires Reachable(s) && id in s.controllers && s.controllers[id].pc.Written?
    ensures var call := s.controllers[id].call;
            s.desired == Wanted(call) && (call.Stop? ==> s.stopFlag == FlagOf(call.whenQueueEmpty))
  {
    var s0, acts :| Init(s0) && Run(s0, acts) == Some(s);
    InitInv(s0);
    CallInvRun(s0, acts, s);
    assert InPlace(s, s.controllers[id]);
  }

  // ---------------------------------------------------------------------
  // The kind of a stop stays

  /** The statement of a stop call that writes the kind of the stop. */
  predicate WritesKind(s: State, a: Act) {
    a.CallStep? && a.id in s.controllers && s.controllers[a.id].pc.Locked? && s.controllers[a.id].call.Stop?
  }

  ghost predicate NoneWritesKind(s: State, acts: seq<Act>) {
    forall k {:trigger acts[..k]} :: 0 <= k < |acts| && Run(s, acts[..k]).Some? ==>
      !WritesKind(Run(s, acts[..k]).value, acts[k])
  }

  lemma KindStaysInStep(s: State, a: Act, t: State)
    requires Step(s, a) == Some(t) && !WritesKind(s, a)
    ensures t.stopFlag == s.stopFlag
  {
    if a.Advance? && !InGate(s.pc) && !InStartOrEnd(s.pc) { LoopWritesNothing(s, t); }
  }

  lemma NoneWritesKindBefore(s: State, acts: seq<Act>)
    requires acts != [] && NoneWritesKind(s, acts)
    ensures NoneWritesKind(s, acts[..|acts| - 1])
  {
    var before := acts[..|acts| - 1];
    forall k {:trigger before[..k]} | 0 <= k < |before| && Run(s, before[..k]).Some?
      ensures !WritesKind(Run(s, before[..k]).value, before[k])
    {
      assert before[..k] == acts[..k];
    }
  }

  lemma {:induction false} KindStays(s: State, acts: seq<Act>, t: State)
    requires Run(s, acts) == Some(t) && NoneWritesKind(s, acts)
    ensures t.stopFlag == s.stopFlag
  {
    if acts != [] {
      var m := Run(s, acts[..|acts| - 1]).value;
      NoneWritesKindBefore(s, acts);
      KindStays(s, acts[..|acts| - 1], m);
      KindStaysInStep(m, acts[|acts| - 1], t);
    }
  }

  /** A stop that has done its writes leaves its kind until another stop call writes one. */
  lemma StopLeavesItsKind(s: State, id: nat, acts: seq<Act>, t: State)
    requires Reachable(s) && id in s.controllers && s.controllers[id].pc.Written? && s.controllers[id].call.Stop?
    requires Run(s, acts) == Some(t) && NoneWritesKind(s, acts)
    ensures t.stopFlag == if s.controllers[id].call.whenQueueEmpty then StopWhenQueueEmpty else StopImmediately
  {
    CallTakesEffect(s, id);
    KindStays(s, acts, t);
  }

  // ---------------------------------------------------------------------
  // Stopping when the queue is empty

  /** The worker has not yet seen the stop and is about to end the run by a sentinel. */
  predicate SentinelNext(s: State) {
    s.pc.Branch? && s.pc.wanted != Idle && s.filled != [] && s.filled[0].sentinel
  }

  predicate DrainsNow(pc: Pc) { pc.Draining? || pc.DrainReturn? }

  /** A run on its way to the end of the queue: nothing is drained, and it can only end with an empty
      queue and everything processed. */
  ghost predicate Finishing(s: State) {
    && s.stopFlag == StopWhenQueueEmpty && s.log.runDrained == [] && !DrainsNow(s.pc) && !SentinelNext(s)
    && (s.pc.Leaving? ==> s.pc.exit == ByQueueEmpty && s.filled == [])
    && (s.pc == Off ==> s.filled == [] && s.log.runProcessed == s.log.runTaken)
  }

  lemma FinishingInGate(s: State, t: State)
    requires Finishing(s) && InGate(s.pc) && GateStep(s) == Some(t)
    ensures Finishing(t)
  {
  }

  lemma FinishingAtEnd(s: State, t: State)
    requires Stopping(s) && Inv(s) && Finishing(s) && InStartOrEnd(s.pc)
    requires StartStep(s) == Some(t) && t.log.runs == s.log.runs
    ensures Finishing(t)
  {
  }

  lemma FinishingInLoop(s: State, t: State)
    requires Stopping(s) && Finishing(s) && LoopStep(s) == Some(t)
    ensures Finishing(t)
  {
  }

  lemma FinishingStep(s: State, a: Act, t: State)
    requires Stopping(s) && Inv(s) && Finishing(s) && ByWorker(a) && Step(s, a) == Some(t) && t.log.runs == s.log.runs
    ensures Finishing(t)
  {
    if a.Advance? {
      if InGate(s.pc) { FinishingInGate(s, t); }
      else if InStartOrEnd(s.pc) { FinishingAtEnd(s, t); }
      else { FinishingInLoop(s, t); }
    }
  }

  lemma {:induction false} FinishingRun(s: State, acts: seq<Act>, t: State)
    requires Stopping(s) && Inv(s) && Finishing(s)
    requires Run(s, acts) == Some(t) && t.log.runs == s.log.runs && forall a :: a in acts ==> ByWorker(a)
    ensures Finishing(t)
  {
    if acts != [] {
      var n := |acts| - 1;
      var m := Run(s, acts[..n]).value;
      RunsGrow(s, acts[..n], m);
      RunsGrowStep(m, acts[n], t);
      StopEndsRun(s, acts[..n], m);
      FinishingRun(s, acts[..n], m);
      FinishingStep(m, acts[n], t);
    }
  }

  /** Inside the run loop, before its end. */
  predicate InLoop(pc: Pc) { InRun(pc) && !pc.Leaving? && !pc.Crashed? }

  /** A stop of this kind lets the worker process what is queued. Nothing is drained, the run ends by
      the empty queue or an exception, and when the worker is off again every buffer of the run and of
      the queue has been processed, in order. */
  lemma QueueIsProcessed(s: State, acts: seq<Act>, t: State)
    requires Inv(s) && Stopping(s) && s.stopFlag == StopWhenQueueEmpty
    requires InLoop(s.pc) && !DrainsNow(s.pc) && !SentinelNext(s)
    requires Run(s, acts) == Some(t) && t.log.runs == s.log.runs && forall a :: a in acts ==> ByWorker(a)
    ensures t.log.runDrained == [] && (t.pc.Leaving? ==> t.pc.exit == ByQueueEmpty)
    ensures t.pc == Off ==> t.filled == [] && t.log.runProcessed == s.log.runTaken + s.filled
  {
    FinishingRun(s, acts, t);
    StopEndsRun(s, acts, t);
  }

  // ---------------------------------------------------------------------
  // Stopping immediately

  /** The worker will take a buffer before it sees the stop, or sees that it is an immediate one. */
  predicate AboutToTake(pc: Pc) { pc.TakeLast? || (pc.Branch? && pc.wanted != Idle) }

  /** Buffers that may still be processed. */
  function ToCome(pc: Pc): nat { if InGate(pc) || pc.Parsing? || AboutToTake(pc) then 1 else 0 }

  /** A run on its way to an immediate end, `n` buffers of which may be processed. */
  ghost predicate Flushing(s: State, n: nat) {
    && s.stopFlag == StopImmediately && |s.log.runProcessed| + ToCome(s.pc) <= n
  }

  /** The end such a run has if no buffer was about to be taken. */
  ghost predicate Flushed(s: State) {
    && !AboutToTake(s.pc) && (s.pc.Leaving? ==> s.pc.exit == ByImmediateStop && s.filled == [])
    && (s.pc == Off ==> s.filled == [] && s.log.runTaken == s.log.runProcessed + s.log.runDrained)
  }

  lemma FlushInGate(s: State, t: State, n: nat)
    requires Flushing(s, n) && InGate(s.pc) && GateStep(s) == Some(t)
    ensures Flushing(t, n) && (Flushed(s) ==> Flushed(t))
  {
  }

  lemma FlushAtEnd(s: State, t: State, n: nat)
    requires Stopping(s) && Inv(s) && Flushing(s, n) && InStartOrEnd(s.pc)
    requires StartStep(s) == Some(t) && t.log.runs == s.log.runs
    ensures Flushing(t, n) && (Flushed(s) ==> Flushed(t))
  {
  }

  lemma FlushByTaking(s: State, t: State, n: nat)
    requires Stopping(s) && Flushing(s, n) && Takes(s.pc) && LoopStep(s) == Some(t)
    ensures Flushing(t, n) && (Flushed(s) ==> Flushed(t))
  {
  }

  lemma FlushWithoutTaking(s: State, t: State, n: nat)
    requires Stopping(s) && Flushing(s, n) && !Takes(s.pc) && LoopStep(s) == Some(t)
    ensures Flushing(t, n) && (Flushed(s) ==> Flushed(t))
  {
  }

  lemma FlushInLoop(s: State, t: State, n: nat)
    requires Stopping(s) && Flushing(s, n) && LoopStep(s) == Some(t)
    ensures Flushing(t, n) && (Flushed(s) ==> Flushed(t))
  {
    if Takes(s.pc) { FlushByTaking(s, t, n); } else { FlushWithoutTaking(s, t, n); }
  }

  lemma FlushByFault(s: State, a: Act, t: State, n: nat)
    requires Stopping(s) && Flushing(s, n) && FaultStep(s, a) == Some(t)
    ensures Flushing(t, n) && (Flushed(s) ==> Flushed(t))
  {
  }

  lemma FlushStep(s: State, a: Act, t: State, n: nat)
    requires Stopping(s) && Inv(s) && Flushing(s, n) && ByWorker(a)
    requires Step(s, a) == Some(t) && t.log.runs == s.log.runs
    ensures Flushing(t, n) && (Flushed(s) ==> Flushed(t))
  {
    if a.Advance? {
      if InGate(s.pc) { FlushInGate(s, t, n); }
      else if InStartOrEnd(s.pc) { FlushAtEnd(s, t, n); }
      else { FlushInLoop(s, t, n); }
    } else {
      FlushByFault(s, a, t, n);
    }
  }

  lemma {:induction false} FlushRun(s: State, acts: seq<Act>, t: State, n: nat)
    requires Stopping(s) && Inv(s) && Flushing(s, n)
    requires Run(s, acts) == Some(t) && t.log.runs == s.log.runs && forall a :: a in acts ==> ByWorker(a)
    ensures Flushing(t, n) && (Flushed(s) ==> Flushed(t))
  {
    if acts != [] {
      var k := |acts| - 1;
      var m := Run(s, acts[..k]).value;
      RunsGrow(s, acts[..k], m);
      RunsGrowStep(m, acts[k], t);
      StopEndsRun(s, acts[..k], m);
      FlushRun(s, acts[..k], m, n);
      FlushStep(m, acts[k], t, n);
    }
  }

  /** An immediate stop lets at most the buffer be processed that the worker has in hand or is about
      to take. If it is not about to take one, the run ends by the immediate stop or an exception, and
      when the worker is off again every other buffer of the queue has been drained, in order. */
  lemma QueueIsDrained(s: State, acts: seq<Act>, t: State)
    requires Inv(s) && Stopping(s) && s.stopFlag == StopImmediately && InLoop(s.pc)
    requires Run(s, acts) == Some(t) && t.log.runs == s.log.runs && forall a :: a in acts ==> ByWorker(a)
    ensures |t.log.runProcessed| <= |s.log.runProcessed| + ToCome(s.pc)
    ensures !AboutToTake(s.pc) ==>
              && (t.pc.Leaving? ==> t.pc.exit == ByImmediateStop)
              && (t.pc == Off ==> t.filled == [] && t.log.runProcessed + t.log.runDrained == s.log.runTaken + s.filled)
  {
    FlushRun(s, acts, t, |s.log.runProcessed| + ToCome(s.pc));
    StopEndsRun(s, acts, t);
  }

  /** The two kinds differ: from the same state one processes what the other drains. */
  lemma KindsDiffer(s: State, acts: seq<Act>, t: State)
    requires Inv(s) && Stopping(s) && s.pc.LoopTop? && s.filled != []
    requires Run(s, acts) == Some(t) && t.log.runs == s.log.runs && t.pc == Off
    requires forall a :: a in acts ==> ByWorker(a)
    ensures s.stopFlag == StopWhenQueueEmpty ==> t.log.runProcessed == s.log.runProcessed + s.filled
    ensures s.stopFlag == StopImmediately ==> t.log.runProcessed == s.log.runProcessed && t.log.runDrained == s.filled
  {
    NothingInHand(s);
    if s.stopFlag == StopWhenQueueEmpty {
      QueueIsProcessed(s, acts, t);
    } else {
      OnlyDrained(s, acts, t);
    }
  }

  lemma NothingInHand(s: State)
    requires Inv(s) && s.pc.LoopTop?
    ensures s.log.runTaken == s.log.runProcessed
  {
  }

  lemma OnlyDrained(s: State, acts: seq<Act>, t: State)
    requires Inv(s) && Stopping(s) && s.pc.LoopTop? && s.stopFlag == StopImmediately
    requires Run(s, acts) == Some(t) && t.log.runs == s.log.runs && t.pc == Off
    requires forall a :: a in acts ==> ByWorker(a)
    ensures t.log.runProcessed == s.log.runProcessed && t.log.runDrained == s.filled
  {
    NothingInHand(s);
    QueueIsDrained(s, acts, t);
    StillProcessed(s, acts, t);
    SameFront(s.log.runProcessed, s.filled, t.log.runProcessed, t.log.runDrained);
  }

  lemma SameFront<T>(a: seq<T>, b: seq<T>, c: seq<T>, d: seq<T>)
    requires a + b == c + d && a <= c && |c| <= |a|
    ensures a == c && b == d
  {
    assert (a + b)[|a|..] == b && (c + d)[|a|..] == d;
  }

  lemma ProcessedGrowsStep(s: State, a: Act, t: State)
    requires Step(s, a) == Some(t) && t.log.runs == s.log.runs
    ensures s.log.runProcessed <= t.log.runProcessed
  {
    if a.CallStep? {
      CallFrame(s, a.id, t);
    } else if a.Advance? && !InGate(s.pc) && !InStartOrEnd(s.pc) {
      LoopProcesses(s, t);
    }
  }

  lemma LoopProcesses(s: State, t: State)
    requires LoopStep(s) == Some(t)
    ensures s.log.runProcessed <= t.log.runProcessed
  {
  }

  lemma {:induction false} StillProcessed(s: State, acts: seq<Act>, t: State)
    requires Run(s, acts) == Some(t) && t.log.runs == s.log.runs
    ensures s.log.runProcessed <= t.log.runProcessed
  {
    if acts != [] {
      var n := |acts| - 1;
      var m := Run(s, acts[..n]).value;
      RunsGrow(s, acts[..n], m);
      RunsGrowStep(m, acts[n], t);
      StillProcessed(s, acts[..n], m);
      ProcessedGrowsStep(m, acts[n], t);
    }
  }

  // ---------------------------------------------------------------------
  // Resuming

  function Advances(n: nat): seq<Act> { seq(n, _ => Advance) }

  lemma AdvancesAdd(s: State, m: nat, n: nat)
    ensures Run(s, Advances(m + n)) == if Run(s, Advances(m)).None? then None
                                       else Run(Run(s, Advances(m)).value, Advances(n))
  {
    RunConcat(s, Advances(m), Advances(n));
    assert Advances(m + n) == Advances(m) + Advances(n);
  }

  lemma AdvanceOne(s: State)
    ensures Run(s, Advances(1)) == WorkerStep(s)
  {
    RunOne(s, Advance);
    assert Advances(1) == [Advance];
  }

  lemma AdvanceFirst(s: State, m: State, n: nat)
    requires WorkerStep(s) == Some(m)
    ensures Run(s, Advances(1 + n)) == Run(m, Advances(n))
  {
    AdvancesAdd(s, 1, n);
    AdvanceOne(s);
  }

  /** Nothing holds an event up: the mutex is free and all events may pass. */
  predicate Open(s: State) { s.lock == Free && (s.desired == Running || s.desired == Idle) }

  /** From `s` to `t` events have passed, nothing else has been asked for. */
  ghost predicate Passed(s: State, t: State, n: nat) {
    t.desired == s.desired && t.log.passes == s.log.passes + n && t.log.consumed == s.log.consumed
  }

  predicate Wants(s: State) { s.desired == Running || s.desired == Idle }

  lemma WakeUp(s: State) returns (t: State)
    requires s.pc.Woken? && s.lock == Free
    ensures WorkerStep(s) == Some(t) && Passed(s, t, 0) && t.pc == GateTest(s.pc.left) && t.lock == Worker
  {
    t := s.(lock := Worker, pc := GateTest(s.pc.left));
  }

  lemma Approach(s: State) returns (t: State)
    requires s.pc.Parsing? && s.pc.left > 0
    ensures WorkerStep(s) == Some(t) && Passed(s, t, 0) && t.pc == GateEnter(s.pc.left) && t.lock == s.lock
  {
    t := s.(pc := GateEnter(s.pc.left));
  }

  lemma EnterGate(s: State) returns (t: State)
    requires s.pc.GateEnter? && s.lock == Free
    ensures WorkerStep(s) == Some(t) && Passed(s, t, 0) && t.pc == GateTest(s.pc.left) && t.lock == Worker
  {
    t := GateStep(s).value;
  }

  lemma TestGate(s: State) returns (t: State)
    requires s.pc.GateTest? && Wants(s)
    ensures WorkerStep(s) == Some(t) && Passed(s, t, 0) && t.pc == GatePass(s.pc.left) && t.lock == s.lock
  {
    t := s.(pc := GatePass(s.pc.left));
  }

  lemma PassGate(s: State) returns (t: State)
    requires s.pc.GatePass? && Wants(s)
    ensures WorkerStep(s) == Some(t) && Passed(s, t, 1) && t.pc == InEvent(s.pc.left, s.desired) && t.lock == Free
  {
    t := GateStep(s).value;
  }

  lemma FinishEvent(s: State) returns (t: State)
    requires s.pc.InEvent? && s.pc.left > 0 && s.lock == Free
    ensures WorkerStep(s) == Some(t) && Passed(s, t, 0) && t.pc == Parsing(s.pc.left - 1) && t.lock == Free
  {
    t := GateStep(s).value;
  }

  /** From the predicate to the next event. */
  lemma ThroughTheGate(s: State) returns (t: State)
    requires s.pc.GateTest? && s.pc.left > 0 && Wants(s)
    ensures Run(s, Advances(3)) == Some(t) && Passed(s, t, 1) && t.pc == Parsing(s.pc.left - 1) && t.lock == Free
  {
    var s1 := TestGate(s);
    var s2 := PassGate(s1);
    t := FinishEvent(s2);
    AdvanceFirst(s, s1, 2);
    AdvanceFirst(s1, s2, 1);
    AdvanceOne(s2);
  }

  lemma OneEventFlows(s: State) returns (t: State)
    requires Open(s) && s.pc.Parsing? && s.pc.left > 0
    ensures Run(s, Advances(5)) == Some(t) && Passed(s, t, 1) && Open(t) && t.pc == Parsing(s.pc.left - 1)
  {
    var s1 := Approach(s);
    var s2 := EnterGate(s1);
    t := ThroughTheGate(s2);
    AdvanceFirst(s, s1, 4);
    AdvanceFirst(s1, s2, 3);
  }

  lemma WokenEventFlows(s: State) returns (t: State)
    requires Open(s) && s.pc.Woken? && s.pc.left > 0
    ensures Run(s, Advances(4)) == Some(t) && Passed(s, t, 1) && Open(t) && t.pc == Parsing(s.pc.left - 1)
  {
    var s1 := WakeUp(s);
    t := ThroughTheGate(s1);
    AdvanceFirst(s, s1, 3);
  }

  /** All events of the buffer in hand pass, one after the other. */
  lemma {:induction false} EventsFlow(s: State) returns (t: State)
    requires Open(s) && s.pc.Parsing?
    ensures Run(s, Advances(5 * s.pc.left)) == Some(t) && Passed(s, t, s.pc.left) && t.pc == Parsing(0)
    decreases s.pc.left
  {
    if s.pc.left == 0 {
      t := s;
      assert Advances(0) == [];
    } else {
      var m := OneEventFlows(s);
      t := EventsFlow(m);
      FiveMore(s, m, 5 * m.pc.left);
      assert 5 * s.pc.left == 5 + 5 * m.pc.left;
    }
  }

  lemma FiveMore(s: State, m: State, n: nat)
    requires Run(s, Advances(5)) == Some(m)
    ensures Run(s, Advances(5 + n)) == Run(m, Advances(n))
  {
    AdvancesAdd(s, 5, n);
  }

  /** A completed resume leaves Running desired and wakes the worker, which then lets this event and all
      further ones of its buffer pass by its own statements. */
  lemma ResumeLetsEventsPass(s: State, id: nat) returns (t: State)
    requires Reachable(s) && id in s.controllers && s.controllers[id] == ActiveCall(Resume, Written)
    requires s.pc.Sleeping?
    ensures s.pc.left > 0 && Run(s, Statements(id, 2) + Advances(4 + 5 * (s.pc.left - 1))) == Some(t)
    ensures t.desired == Running && t.pc == Parsing(0) && t.log.passes == s.log.passes + s.pc.left
  {
    ReachableInv(s);
    CallTakesEffect(s, id);
    var s1 := s.(lock := Free, controllers := s.controllers[id := ActiveCall(Resume, Notifying)]);
    var s2 := s1.(controllers := s1.controllers - {id}, pc := Woken(s.pc.left));
    assert Step(s, CallStep(id)) == Some(s1) && Step(s1, CallStep(id)) == Some(s2);
    RunTwo(s, CallStep(id), CallStep(id), s1);
    assert Statements(id, 2) == [CallStep(id), CallStep(id)];
    var m := WokenEventFlows(s2);
    t := EventsFlow(m);
    var n := 5 * (s.pc.left - 1);
    AdvancesAdd(s2, 4, n);
    RunConcat(s, Statements(id, 2), Advances(4 + n));
  }

  // ---------------------------------------------------------------------
  // Starting

  /** The other statements of a resume, once it has the mutex. */
  lemma ResumeRuns(s: State, id: nat) returns (t: State)
    requires id in s.controllers && s.controllers[id] == ActiveCall(Resume, Locked)
    ensures Run(s, Statements(id, 2)) == Some(t)
    ensures t == s.(desired := Running, startPaused := false, log := t.log,
                    controllers := s.controllers[id := ActiveCall(Resume, Written)])
  {
    var s1 := Step(s, CallStep(id)).value;
    t := Step(s1, CallStep(id)).value;
    RunTwo(s, CallStep(id), CallStep(id), s1);
    assert Statements(id, 2) == [CallStep(id), CallStep(id)];
    assert t.controllers == s.controllers[id := ActiveCall(Resume, Written)];
  }

  /** Only a controller asking for it makes the next start a paused one. */
  lemma StartPausedOnlyIfAsked(s: State, a: Act, t: State)
    requires Step(s, a) == Some(t) && t.startPaused && !s.startPaused
    ensures a == SetStartPaused(true)
  {
    if a.Advance? && !InGate(s.pc) && !InStartOrEnd(s.pc) { LoopKeepsStartPaused(s, t); }
  }

  lemma LoopKeepsStartPaused(s: State, t: State)
    requires LoopStep(s) == Some(t)
    ensures t.startPaused == s.startPaused
  {
  }

  /** A start runs into the loop, paused if that was asked for, running if not. */
  lemma StartObeys(s: State) returns (t: State)
    requires s.pc == Starting && s.lock == Free
    ensures Run(s, Advances(if s.startPaused then 3 else 2)) == Some(t)
    ensures t.pc == LoopTop && t.state == t.desired == (if s.startPaused then Paused else Running)
  {
    var s1 := WorkerStep(s).value;
    var s2 := WorkerStep(s1).value;
    if s.startPaused {
      t := WorkerStep(s2).value;
      AdvanceFirst(s, s1, 2);
      AdvanceFirst(s1, s2, 1);
      AdvanceOne(s2);
    } else {
      t := s2;
      AdvanceFirst(s, s1, 1);
      AdvanceOne(s1);
    }
  }

  /** A run begins exactly if the worker is off, announced as idle, and the mutex is free. */
  lemma RunBeginsIff(s: State, a: Act)
    ensures (Step(s, a).Some? && Step(s, a).value.log.runs != s.log.runs) <==>
            a.Advance? && s.pc == Off && s.state == Idle && s.lock == Free
  {
    if Step(s, a).Some? {
      var t := Step(s, a).value;
      if a.CallStep? {
        CallFrame(s, a.id, t);
      } else if a.Advance? && !InGate(s.pc) && !InStartOrEnd(s.pc) {
        LoopKeepsCounters(s, t);
      }
    }
  }

  // ---------------------------------------------------------------------
  // Buffers at the front of the queue

  /** Without a stop the worker keeps a sentinel and ends the run, and processes anything else. */
  lemma FirstBufferDecides(s: State) returns (t: State)
    requires s.pc == LoopTop && s.lock == Free && s.desired != Idle && s.filled != []
    ensures Run(s, Advances(if s.filled[0].sentinel then 3 else 2)) == Some(t) && t.filled == s.filled[1..]
    ensures s.filled[0].sentinel ==>
              t.pc == Off && t.state == t.desired == Idle && t.hand == None && t.kept == s.kept + [s.filled[0]]
    ensures !s.filled[0].sentinel ==>
              t.pc == Parsing(s.filled[0].events) && t.hand == Some(s.filled[0]) && t.kept == s.kept
  {
    var s1 := s.(pc := Branch(s.desired));
    assert WorkerStep(s) == Some(s1);
    var s2 := WorkerStep(s1).value;
    if s.filled[0].sentinel {
      t := WorkerStep(s2).value;
      AdvanceFirst(s, s1, 2);
      AdvanceFirst(s1, s2, 1);
      AdvanceOne(s2);
    } else {
      t := s2;
      AdvanceFirst(s, s1, 1);
      AdvanceOne(s1);
    }
  }

  /** An exception of the parser skips the other events of the buffer, which counts as processed and
      goes back to the empty queue. */
  lemma ExceptionSkipsTheRest(s: State) returns (t: State)
    requires Inv(s) && Step(s, ParserThrows).Some?
    ensures Run(s, [ParserThrows] + Advances(2)) == Some(t)
    ensures s.hand.Some? && t.pc == LoopTop && t.hand == None && t.empty == s.empty + [s.hand.value]
    ensures t.log.passes == s.log.passes && t.log.runProcessed == s.log.runProcessed + [s.hand.value]
  {
    var m := Step(s, ParserThrows).value;
    SameInHand(s, m);
    t := BufferDone(m);
    RunOne(s, ParserThrows);
    RunConcat(s, [ParserThrows], Advances(2));
  }

  lemma SameInHand(s: State, m: State)
    requires Inv(s) && Step(s, ParserThrows) == Some(m)
    ensures s.hand.Some? && m.hand == s.hand && m.pc == Parsing(0) && m.empty == s.empty
    ensures m.log.passes == s.log.passes && m.log.runProcessed == s.log.runProcessed
  {
  }

  lemma BufferDone(s: State) returns (t: State)
    requires s.pc == Parsing(0) && s.hand.Some?
    ensures Run(s, Advances(2)) == Some(t) && t.log.passes == s.log.passes
    ensures t.pc == LoopTop && t.hand == None && t.empty == s.empty + [s.hand.value]
    ensures t.log.runProcessed == s.log.runProcessed + [s.hand.value]
  {
    var m := WorkerStep(s).value;
    t := WorkerStep(m).value;
    AdvanceFirst(s, m, 1);
    AdvanceOne(m);
  }
}
