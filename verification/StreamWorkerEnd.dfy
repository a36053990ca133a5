/** The end of a run: a stop is obeyed within a bounded number of steps, and what has happened to
    the buffers by then. */
module StreamWorkerEnd {
  import opened Wrappers
  import opened StreamWorker
  import opened StreamWorkerInvariants
  import opened StreamWorkerTheorems
  import opened StreamWorkerRuns

  /** What the worker thread does by itself; the producer is quiet and nobody calls. */
  predicate ByWorker(a: Act) {
    a.Advance? || a.ParserThrows? || a.ProcessingThrows? || a.SetupFails? || a.SpuriousWake?
  }

  /** A stop has been requested and no call is in progress. */
  predicate Stopping(s: State) {
    s.desired == Idle && s.controllers == map[] && (InRun(s.pc) || (s.pc == Off && s.state == Idle))
  }

  /** Steps it takes to process the queued buffers. */
  function Work(bs: seq<Buffer>): nat {
    if bs == [] then 0 else 5 + 5 * bs[0].events + Work(bs[1..])
  }

  function EventsLeft(pc: Pc): nat {
    match pc
    case Parsing(left) => left
    case GateEnter(left) => left
    case GateTest(left) => left
    case GateWait(left) => left
    case Sleeping(left) => left
    case Woken(left) => left
    case GatePass(left) => left
    case InEvent(left, _) => left
    case _ => 0
  }

  /** Steps to the end of the iteration, not counting the events of the buffer in hand. */
  function Distance(pc: Pc): nat {
    match pc
    case Parsing(_) => 6
    case GateEnter(_) => 5
    case Woken(_) => 5
    case GateTest(_) => 4
    case GatePass(_) => 3
    case InEvent(_, _) => 2
    case Returning(_) => 5
    case Branch(wanted) => if wanted == Idle then 3 else 5
    case LoopTop => 4
    case DrainReturn => 3
    case _ => 2
  }

  /** An upper bound for the steps left in a stopping run. */
  function StepsLeft(s: State): nat {
    match s.pc
    case Off => 0
    case Crashed => 0
    case Leaving(_) => 1
    case Returning(throwing) => if throwing then 1 else Work(s.filled) + 5
    case _ => Work(s.filled) + 5 * EventsLeft(s.pc) + Distance(s.pc)
  }

  // ---------------------------------------------------------------------
  // One step

  predicate Closer(s: State, t: State) {
    t.desired == Idle && t.controllers == map[] && InRun(t.pc) && StepsLeft(t) < StepsLeft(s)
  }

  lemma CloserInGate(s: State, t: State)
    requires Stopping(s) && GateInv(s) && InGate(s.pc) && GateStep(s) == Some(t)
    ensures Closer(s, t)
  {
  }

  lemma CloserByTaking(s: State, t: State)
    requires Stopping(s) && Takes(s.pc) && LoopStep(s) == Some(t)
    ensures Closer(s, t)
  {
  }

  lemma CloserInLoop(s: State, t: State)
    requires Stopping(s) && HandInv(s) && !InGate(s.pc) && !Takes(s.pc) && LoopStep(s) == Some(t)
    ensures Closer(s, t)
  {
  }

  lemma CloserByFault(s: State, a: Act, t: State)
    requires Stopping(s) && Inv(s) && FaultStep(s, a) == Some(t)
    ensures Closer(s, t)
  {
  }

  /** The lemma above and the last step: the worker announces Idle. */
  lemma EveryStepCounts(s: State, a: Act, t: State)
    requires Stopping(s) && Inv(s) && ByWorker(a) && Step(s, a) == Some(t) && t.log.runs == s.log.runs
    ensures Stopping(t) && StepsLeft(t) < StepsLeft(s)
  {
    if a.Advance? {
      if InGate(s.pc) { CloserInGate(s, t); }
      else if InStartOrEnd(s.pc) { LeavingIsLast(s, t); }
      else if Takes(s.pc) { CloserByTaking(s, t); }
      else { CloserInLoop(s, t); }
    } else {
      CloserByFault(s, a, t);
    }
  }

  lemma LeavingIsLast(s: State, t: State)
    requires Stopping(s) && InStartOrEnd(s.pc) && StartStep(s) == Some(t) && t.log.runs == s.log.runs
    ensures Stopping(t) && StepsLeft(t) < StepsLeft(s)
  {
  }

  /** The worker is never blocked: neither by the mutex nor in the gate. */
  lemma NeverBlocked(s: State)
    requires Stopping(s) && Inv(s)
    ensures s.pc == Off || s.pc == Crashed || WorkerStep(s).Some?
  {
    assert !s.lock.Controller?;
    assert !s.pc.Sleeping?;
  }

  // ---------------------------------------------------------------------
  // What becomes of the buffers

  /** The buffers of the run and of the queue stay together, in order; a run that ends without a
      sentinel leaves an empty queue. */
  predicate SameTotal(s: State, t: State) {
    && t.log.runTaken + t.filled == s.log.runTaken + s.filled
    && t.log.arrivals == s.log.arrivals
    && (t.pc == Leaving(ByQueueEmpty) || t.pc == Leaving(ByImmediateStop) ==> s.pc == t.pc || t.filled == [])
  }

  lemma TakingKeepsTotal(s: State, t: State)
    requires HandInv(s) && Takes(s.pc) && LoopStep(s) == Some(t)
    ensures SameTotal(s, t)
  {
    TakeCases(s, t);
    if TookFirst(s, t) {
      assert s.filled == [s.filled[0]] + s.filled[1..];
    }
  }

  lemma GateKeepsTotal(s: State, t: State)
    requires InGate(s.pc) && GateStep(s) == Some(t)
    ensures SameTotal(s, t)
  {
  }

  lemma StartKeepsTotal(s: State, t: State)
    requires InStartOrEnd(s.pc) && StartStep(s) == Some(t) && t.log.runs == s.log.runs
    ensures SameTotal(s, t)
  {
  }

  lemma LoopKeepsTotal(s: State, t: State)
    requires !InGate(s.pc) && !Takes(s.pc) && LoopStep(s) == Some(t)
    ensures SameTotal(s, t)
  {
  }

  lemma StepKeepsTotal(s: State, a: Act, t: State)
    requires HandInv(s) && ByWorker(a) && Step(s, a) == Some(t) && t.log.runs == s.log.runs
    ensures SameTotal(s, t)
  {
    if a.Advance? {
      if InGate(s.pc) { GateKeepsTotal(s, t); }
      else if InStartOrEnd(s.pc) { StartKeepsTotal(s, t); }
      else if Takes(s.pc) { TakingKeepsTotal(s, t); }
      else { LoopKeepsTotal(s, t); }
    }
  }

  // ---------------------------------------------------------------------
  // Whole runs

  /** The worker obeys a stop. While the producer is quiet and nobody calls, every sequence of steps
      the worker can make before its next start is bounded by the work in the queue and in hand; it
      is never blocked before the end, and it takes buffers from the queue as they are. */
  lemma {:induction false} StopEndsRun(s: State, acts: seq<Act>, t: State)
    requires Inv(s) && Stopping(s)
    requires Run(s, acts) == Some(t) && t.log.runs == s.log.runs && forall a :: a in acts ==> ByWorker(a)
    ensures |acts| + StepsLeft(t) <= StepsLeft(s) <= Work(s.filled) + 5 * EventsLeft(s.pc) + 6
    ensures t.pc == Off || t.pc == Crashed || WorkerStep(t).Some?
    ensures Inv(t) && Stopping(t) && SameTotal(s, t)
  {
    RunKeepsInv(s, acts, t);
    if acts != [] {
      var n := |acts| - 1;
      var m := Run(s, acts[..n]).value;
      RunsGrow(s, acts[..n], m);
      RunsGrowStep(m, acts[n], t);
      StopEndsRun(s, acts[..n], m);
      EveryStepCounts(m, acts[n], t);
      StepKeepsTotal(m, acts[n], t);
    }
    NeverBlocked(t);
  }

  /** If such a run ends because the queue is empty, every buffer of the run, including all that
      were queued when the stop came, was processed, in order, and none is left. If it ends by an
      immediate stop, every buffer not processed is back in the empty queue, in order. */
  lemma StoppedRunIsComplete(s: State, acts: seq<Act>, t: State)
    requires Inv(s) && Stopping(s) && !s.pc.Leaving?
    requires Run(s, acts) == Some(t) && t.log.runs == s.log.runs && forall a :: a in acts ==> ByWorker(a)
    ensures t.pc == Leaving(ByQueueEmpty) ==> t.filled == [] && t.log.runProcessed == s.log.runTaken + s.filled
    ensures t.pc == Leaving(ByImmediateStop) ==>
              && t.filled == [] && t.log.runProcessed + t.log.runDrained == s.log.runTaken + s.filled
              && EndsWith(t.log.returned, t.log.runDrained)
  {
    StopEndsRun(s, acts, t);
  }

  /** Left alone, the worker gets there by executing its own statements. */
  lemma {:induction false} StoppedRunEnds(s: State) returns (acts: seq<Act>, t: State)
    requires Inv(s) && Stopping(s)
    ensures Run(s, acts) == Some(t) && (t.pc == Off || t.pc == Crashed)
    ensures |acts| <= StepsLeft(s) && forall a :: a in acts ==> a == Advance
    decreases StepsLeft(s)
  {
    NeverBlocked(s);
    if s.pc == Off || s.pc == Crashed {
      acts, t := [], s;
    } else {
      var m := WorkerStep(s).value;
      StepKeepsInv(s, Advance, m);
      OnlyOffStarts(s, m);
      EveryStepCounts(s, Advance, m);
      var rest;
      rest, t := StoppedRunEnds(m);
      acts := [Advance] + rest;
      RunOne(s, Advance);
      RunConcat(s, [Advance], rest);
    }
  }

  lemma OnlyOffStarts(s: State, t: State)
    requires s.pc != Off && WorkerStep(s) == Some(t)
    ensures t.log.runs == s.log.runs
  {
  }

  // ---------------------------------------------------------------------
  // Sentinels

  /** Sentinels kept so far, and the one that the run in progress may still keep. */
  function Keepable(s: State): nat {
    |s.kept| + if MayStillKeep(s.pc) then 1 else 0
  }

  lemma StartKeepsOne(s: State, t: State)
    requires InStartOrEnd(s.pc) && StartStep(s) == Some(t) && t.log.runs == s.log.runs
    ensures Keepable(t) <= Keepable(s)
  {
  }

  lemma LoopKeepsOne(s: State, t: State)
    requires !InGate(s.pc) && !InStartOrEnd(s.pc) && LoopStep(s) == Some(t)
    ensures Keepable(t) <= Keepable(s)
  {
  }

  lemma GateKeepsOne(s: State, t: State)
    requires InGate(s.pc) && GateStep(s) == Some(t)
    ensures Keepable(t) <= Keepable(s)
  {
  }

  lemma OthersKeepOne(s: State, a: Act, t: State)
    requires !a.Advance? && !a.CallStep? && Step(s, a) == Some(t)
    ensures Keepable(t) <= Keepable(s)
  {
  }

  lemma StepKeepsOne(s: State, a: Act, t: State)
    requires Step(s, a) == Some(t) && t.log.runs == s.log.runs
    ensures Keepable(t) <= Keepable(s)
  {
    if a.Advance? {
      if InGate(s.pc) { GateKeepsOne(s, t); }
      else if InStartOrEnd(s.pc) { StartKeepsOne(s, t); }
      else { LoopKeepsOne(s, t); }
    } else if a.CallStep? {
      CallFrame(s, a.id, t);
    } else {
      OthersKeepOne(s, a, t);
    }
  }

  /** Within one run at most one sentinel is kept. */
  lemma {:induction false} OneSentinelPerRun(s: State, acts: seq<Act>, t: State)
    requires Run(s, acts) == Some(t) && t.log.runs == s.log.runs
    ensures Keepable(t) <= Keepable(s) && |t.kept| <= |s.kept| + 1
  {
    if acts != [] {
      var n := |acts| - 1;
      var m := Run(s, acts[..n]).value;
      RunsGrow(s, acts[..n], m);
      RunsGrowStep(m, acts[n], t);
      OneSentinelPerRun(s, acts[..n], m);
      StepKeepsOne(m, acts[n], t);
    }
  }
}
