/** Properties of the worker protocol over all runs. */
module StreamWorkerTheorems {
  import opened Wrappers
  import opened StreamWorker
  import opened StreamWorkerInvariants

  lemma StepKeepsInv(s: State, a: Act, t: State)
    requires Inv(s) && Step(s, a) == Some(t)
    ensures Inv(t)
  {
    LockKept(s, a, t);
    GateKept(s, a, t);
    WakeKept(s, a, t);
    HandKept(s, a, t);
    ReturnKept(s, a, t);
    KeptKept(s, a, t);
    OrderKept(s, a, t);
    CountKept(s, a, t);
  }

  lemma {:induction false} RunKeepsInv(s: State, acts: seq<Act>, t: State)
    requires Inv(s) && Run(s, acts) == Some(t)
    ensures Inv(t)
  {
    if acts != [] {
      var m := Run(s, acts[..|acts| - 1]).value;
      RunKeepsInv(s, acts[..|acts| - 1], m);
      StepKeepsInv(m, acts[|acts| - 1], t);
    }
  }

  lemma ReachableInv(s: State)
    requires Reachable(s)
    ensures Inv(s)
  {
    var s0, acts :| Init(s0) && Run(s0, acts) == Some(s);
    InitInv(s0);
    RunKeepsInv(s0, acts, s);
  }

  // ---------------------------------------------------------------------
  // The gate

  /** No lost wake-up: while the worker sleeps although it may pass, a call that changed the
      desired state is still to notify, and its own next statements wake the worker. */
  lemma NoLostWakeup(s: State)
    requires Reachable(s) && s.pc.Sleeping? && MayPass(s.desired)
    ensures exists id, acts :: WakesBy(s, id, acts)
  {
    ReachableInv(s);
    var id :| id in s.controllers && NotifyPending(s.controllers[id]);
    var acts := PendingCallWakes(s, id);
    assert WakesBy(s, id, acts);
  }

  /** At most three statements of the pending call `id` wake the worker. */
  ghost predicate WakesBy(s: State, id: nat, acts: seq<Act>) {
    && id in s.controllers && NotifyPending(s.controllers[id])
    && |acts| <= 3 && (forall a :: a in acts ==> a == CallStep(id))
    && Run(s, acts).Some? && Run(s, acts).value.pc.Woken?
  }

  lemma PendingCallWakes(s: State, id: nat) returns (acts: seq<Act>)
    requires s.pc.Sleeping? && id in s.controllers && NotifyPending(s.controllers[id])
    ensures WakesBy(s, id, acts)
  {
    var c, notify := s.controllers[id], CallStep(id);
    if c.pc.Notifying? {
      acts := [notify];
      RunOne(s, notify);
    } else if c.pc.Written? {
      acts := [notify, notify];
      var s1 := Step(s, notify).value;
      RunTwo(s, notify, notify, s1);
    } else {
      acts := [notify, notify, notify];
      var s1 := Step(s, notify).value;
      var s2 := Step(s1, notify).value;
      RunTwo(s, notify, notify, s1);
      assert acts[..2] == [notify, notify];
    }
  }

  lemma RunOne(s: State, a: Act)
    ensures Run(s, [a]) == Step(s, a)
  {
    assert [a][..0] == [];
    assert Run(s, []) == Some(s);
  }

  lemma RunTwo(s: State, a: Act, b: Act, m: State)
    requires Step(s, a) == Some(m)
    ensures Run(s, [a, b]) == Step(m, b)
  {
    RunOne(s, a);
    assert [a, b][..1] == [a];
  }

  lemma {:induction false} RunConcat(s: State, xs: seq<Act>, ys: seq<Act>)
    ensures Run(s, xs + ys) == (if Run(s, xs).None? then None else Run(Run(s, xs).value, ys))
  {
    if ys == [] {
      assert xs + ys == xs;
    } else {
      RunConcat(s, xs, ys[..|ys| - 1]);
      assert (xs + ys)[..|xs + ys| - 1] == xs + ys[..|ys| - 1];
    }
  }

  /** No event passes the gate at an instant at which the desired state is Paused; a pass for a
      single step uses the request up. */
  lemma PassesOnlyWhenWanted(s: State, a: Act, t: State)
    requires Reachable(s) && Step(s, a) == Some(t) && t.log.passes != s.log.passes
    ensures s.desired != Paused
    ensures t.log.passes == s.log.passes + 1
    ensures s.desired == SingleStepping ==> t.desired == Paused && t.log.consumed == s.log.consumed + 1
    ensures s.desired != SingleStepping ==> t.desired == s.desired && t.log.consumed == s.log.consumed
  {
    ReachableInv(s);
    OnlyGatePassCounts(s, a, t);
  }

  lemma OnlyGatePassCounts(s: State, a: Act, t: State)
    requires Step(s, a) == Some(t) && t.log.passes != s.log.passes
    ensures a.Advance? && s.pc.GatePass?
  {
    match a
    case CallStep(id) => CallCounters(s, id, t);
    case Advance => WorkerCounters(s, t);
    case _ =>
  }

  lemma WorkerCounters(s: State, t: State)
    requires WorkerStep(s) == Some(t) && t.log.passes != s.log.passes
    ensures s.pc.GatePass?
  {
    if InGate(s.pc) {
    } else if InStartOrEnd(s.pc) {
      StartPassesNothing(s, t);
    } else {
      LoopPassesNothing(s, t);
    }
  }

  lemma StartPassesNothing(s: State, t: State)
    requires StartStep(s) == Some(t)
    ensures t.log.passes == s.log.passes
  {
  }

  lemma LoopPassesNothing(s: State, t: State)
    requires LoopStep(s) == Some(t)
    ensures t.log.passes == s.log.passes
  {
  }

  lemma CallCounters(s: State, id: nat, t: State)
    requires ControllerStep(s, id) == Some(t)
    ensures t.log.passes == s.log.passes && t.log.consumed == s.log.consumed
    ensures t.log.published == s.log.published && t.log.publishedStray == s.log.publishedStray
    ensures t.log.abortedSteps == s.log.abortedSteps
  {
  }

  // ---------------------------------------------------------------------
  // From the wake-up to the pass

  /** An event in front of the gate whose worker is not asleep, and the statements to its pass. */
  predicate Awake(pc: Pc) {
    pc.GateEnter? || pc.Woken? || pc.GateTest? || pc.GatePass?
  }

  function ToPass(pc: Pc): nat {
    match pc
    case GateEnter(_) => 3
    case Woken(_) => 3
    case GateTest(_) => 2
    case GatePass(_) => 1
    case _ => 0
  }

  function OwnSteps(acts: seq<Act>): nat {
    if acts == [] then 0
    else OwnSteps(acts[..|acts| - 1]) + if acts[|acts| - 1] == Advance then 1 else 0
  }

  /** The statement of a call that makes the desired state Paused. */
  predicate Pauses(s: State, a: Act) {
    && a.CallStep? && a.id in s.controllers
    && s.controllers[a.id].pc.Locked? && s.controllers[a.id].call.Pause?
  }

  ghost predicate NonePauses(s: State, acts: seq<Act>) {
    forall k {:trigger acts[..k]} :: 0 <= k < |acts| && Run(s, acts[..k]).Some? ==>
      !Pauses(Run(s, acts[..k]).value, acts[k])
  }

  ghost predicate OnTheWay(s: State) { Awake(s.pc) && MayPass(s.desired) }

  lemma AwakeStep(s: State, a: Act, t: State)
    requires OnTheWay(s) && Step(s, a) == Some(t) && !Pauses(s, a)
    ensures t.log.passes == s.log.passes + (if a.Advance? && s.pc.GatePass? then 1 else 0)
    ensures !(a.Advance? && s.pc.GatePass?) ==>
              OnTheWay(t) && ToPass(t.pc) + (if a.Advance? then 1 else 0) == ToPass(s.pc)
  {
    if a.CallStep? { CallFrame(s, a.id, t); CallCounters(s, a.id, t); AwakeInCall(s, a.id, t); }
  }

  lemma AwakeInCall(s: State, id: nat, t: State)
    requires MayPass(s.desired) && ControllerStep(s, id) == Some(t) && !Pauses(s, CallStep(id))
    ensures MayPass(t.desired)
  {
  }

  lemma PassesGrow(s: State, a: Act, t: State)
    requires Step(s, a) == Some(t)
    ensures t.log.passes >= s.log.passes
  {
    if t.log.passes != s.log.passes { OnlyGatePassCounts(s, a, t); }
  }

  lemma NonePausesBefore(s: State, acts: seq<Act>)
    requires acts != [] && NonePauses(s, acts)
    ensures NonePauses(s, acts[..|acts| - 1])
  {
    var before := acts[..|acts| - 1];
    forall k {:trigger before[..k]} | 0 <= k < |before| && Run(s, before[..k]).Some?
      ensures !Pauses(Run(s, before[..k]).value, before[k])
    {
      assert before[..k] == acts[..k];
    }
  }

  /** An event that may pass and is not asleep does pass, in every run in which nobody pauses: every
      statement of the worker brings it nearer, so at the latest its third one lets it through. */
  lemma {:induction false} AwakeEventPasses(s: State, acts: seq<Act>, t: State)
    requires OnTheWay(s) && Run(s, acts) == Some(t) && NonePauses(s, acts)
    ensures t.log.passes > s.log.passes
            || (OnTheWay(t) && t.log.passes == s.log.passes && OwnSteps(acts) + ToPass(t.pc) == ToPass(s.pc))
    ensures OwnSteps(acts) >= 3 ==> t.log.passes > s.log.passes
  {
    if acts != [] {
      var n := |acts| - 1;
      var m := Run(s, acts[..n]).value;
      NonePausesBefore(s, acts);
      AwakeEventPasses(s, acts[..n], m);
      PassesGrow(m, acts[n], t);
      if m.log.passes == s.log.passes {
        AwakeStep(m, acts[n], t);
      }
    }
  }

  /** The mutex is held by a call that is about to pause the worker. */
  predicate PauseComing(s: State) {
    s.lock.Controller? && Pauses(s, CallStep(s.lock.id))
  }

  /** `n` statements of call `id` and three of the worker let the event pass. */
  ghost predicate PassesBy(s: State, id: nat, n: nat) {
    var r := Run(s, Statements(id, n) + [Advance, Advance, Advance]);
    && r.Some? && r.value.pc.InEvent? && r.value.pc.left == EventOf(s.pc)
    && r.value.log.passes == s.log.passes + 1
  }

  function EventOf(pc: Pc): nat { if pc.Sleeping? || pc.Woken? then pc.left else 0 }

  function Statements(id: nat, n: nat): seq<Act> { seq(n, _ => CallStep(id)) }

  /** Whenever the worker sleeps although it may pass, the event it holds gets through by statements
      of one call already in progress and its own, unless a pause is about to be written. */
  lemma SleeperPasses(s: State)
    requires Reachable(s) && s.pc.Sleeping? && MayPass(s.desired) && !PauseComing(s)
    ensures exists id, n :: id in s.controllers && n <= 4 && PassesBy(s, id, n)
  {
    ReachableInv(s);
    var id: nat;
    if s.lock.Controller? {
      id := s.lock.id;
    } else {
      id :| id in s.controllers && NotifyPending(s.controllers[id]);
    }
    var n, m := CallCompletes(s, id);
    WokenPasses(m);
    RunConcat(s, Statements(id, n), [Advance, Advance, Advance]);
    assert PassesBy(s, id, n);
  }

  function StatementsLeft(c: ActiveCall): nat {
    match c.pc
    case Entered => 5
    case Locked => 4
    case Halfway => 3
    case Written => 2
    case Notifying => 1
  }

  /** A call that holds the mutex, or has only to notify, completes and wakes the worker. */
  lemma {:induction false} CallCompletes(s: State, id: nat) returns (n: nat, t: State)
    requires s.pc.Sleeping? && MayPass(s.desired) && id in s.controllers && !Pauses(s, CallStep(id))
    requires if s.controllers[id].pc.Notifying? then s.lock == Free
             else s.lock == Controller(id) && HoldsLock(s.controllers[id])
    ensures n <= StatementsLeft(s.controllers[id]) && n <= 4 && Run(s, Statements(id, n)) == Some(t)
    ensures t.pc == Woken(s.pc.left) && t.lock == Free && MayPass(t.desired) && t.log.passes == s.log.passes
    decreases StatementsLeft(s.controllers[id])
  {
    var a := CallStep(id);
    var m := Step(s, a).value;
    CallCounters(s, id, m);
    RunOne(s, a);
    if s.controllers[id].pc.Notifying? {
      n, t := 1, m;
      assert Statements(id, 1) == [a];
    } else {
      var rest;
      rest, t := CallCompletes(m, id);
      n := 1 + rest;
      RunConcat(s, [a], Statements(id, rest));
      assert Statements(id, n) == [a] + Statements(id, rest);
    }
  }

  lemma WokenPasses(s: State)
    requires s.pc.Woken? && s.lock == Free && MayPass(s.desired)
    ensures var r := Run(s, [Advance, Advance, Advance]);
            r.Some? && r.value.pc == InEvent(s.pc.left, s.desired) && r.value.log.passes == s.log.passes + 1
  {
    var s1 := s.(lock := Worker, pc := GateTest(s.pc.left));
    var s2 := s1.(pc := GatePass(s.pc.left));
    assert Step(s, Advance) == Some(s1) && Step(s1, Advance) == Some(s2);
    RunTwo(s, Advance, Advance, s1);
    assert [Advance, Advance, Advance][..2] == [Advance, Advance];
  }

  // ---------------------------------------------------------------------
  // Buffers

  lemma {:induction false} IdsPrepend(b: Buffer, bs: seq<Buffer>)
    ensures Ids([b] + bs) == multiset{b.id} + Ids(bs)
  {
    if bs == [] {
      assert [b] + bs == [b];
      assert [b][..0] == [];
    } else {
      IdsPrepend(b, bs[..|bs| - 1]);
      assert ([b] + bs)[..|bs|] == [b] + bs[..|bs| - 1];
    }
  }

  lemma IdsAppend(bs: seq<Buffer>, b: Buffer)
    ensures Ids(bs + [b]) == Ids(bs) + multiset{b.id}
  {
    assert (bs + [b])[..|bs|] == bs;
  }

  lemma IdsOne(b: Buffer)
    ensures Ids([b]) == multiset{b.id}
  {
    assert [b][..0] == [];
  }

  lemma PoolTookFirst(s: State, t: State)
    requires TookFirst(s, t)
    ensures Pool(t) == Pool(s)
  {
    IdsPrepend(s.filled[0], s.filled[1..]);
    assert s.filled == [s.filled[0]] + s.filled[1..];
    IdsAppend(s.kept, s.filled[0]);
    IdsOne(s.filled[0]);
  }

  /** The worker puts the buffer in hand into the empty queue. */
  ghost predicate PutBack(s: State, t: State) {
    && s.hand.Some? && t.hand == None && t.empty == s.empty + [s.hand.value]
    && t.filled == s.filled && t.producerHand == s.producerHand && t.kept == s.kept
  }

  lemma PoolPutBack(s: State, t: State)
    requires PutBack(s, t)
    ensures Pool(t) == Pool(s)
  {
    IdsAppend(s.empty, s.hand.value);
    IdsOne(s.hand.value);
  }

  ghost predicate SameQueues(s: State, t: State) {
    && t.filled == s.filled && t.empty == s.empty && t.hand == s.hand
    && t.producerHand == s.producerHand && t.kept == s.kept
  }

  lemma WorkerMoves(s: State, t: State)
    requires HandInv(s) && WorkerStep(s) == Some(t)
    ensures TookFirst(s, t) || PutBack(s, t) || SameQueues(s, t)
  {
    if Takes(s.pc) {
      TakeCases(s, t);
    }
  }

  lemma PoolProducerTake(s: State, t: State)
    requires ProducerStep(s, ProducerTake) == Some(t)
    ensures Pool(t) == Pool(s)
  {
    IdsPrepend(s.empty[0], s.empty[1..]);
    assert s.empty == [s.empty[0]] + s.empty[1..];
    IdsOne(s.empty[0]);
  }

  lemma PoolProducerPut(s: State, a: Act, t: State)
    requires a.ProducerPut? && ProducerStep(s, a) == Some(t)
    ensures Pool(t) == Pool(s)
  {
    var b := Buffer(s.producerHand.value.id, a.events, a.sentinel);
    IdsAppend(s.filled, b);
    IdsOne(s.producerHand.value);
  }

  lemma PoolSame(s: State, t: State)
    requires SameQueues(s, t)
    ensures Pool(t) == Pool(s)
  {
  }

  lemma FaultsMoveNothing(s: State, a: Act, t: State)
    requires FaultStep(s, a) == Some(t)
    ensures SameQueues(s, t)
  {
  }

  lemma WorkerKeepsPool(s: State, t: State)
    requires HandInv(s) && WorkerStep(s) == Some(t)
    ensures Pool(t) == Pool(s)
  {
    WorkerMoves(s, t);
    if TookFirst(s, t) { PoolTookFirst(s, t); }
    else if PutBack(s, t) { PoolPutBack(s, t); }
    else { PoolSame(s, t); }
  }

  lemma StepKeepsPool(s: State, a: Act, t: State)
    requires HandInv(s) && Step(s, a) == Some(t)
    ensures Pool(t) == Pool(s)
  {
    match a
    case Advance => WorkerKeepsPool(s, t);
    case CallStep(id) => CallFrame(s, id, t); PoolSame(s, t);
    case ProducerTake => PoolProducerTake(s, t);
    case ProducerPut(_, _) => PoolProducerPut(s, a, t);
    case BeginCall(_, _) => PoolSame(s, t);
    case SetStartPaused(_) => PoolSame(s, t);
    case _ => FaultsMoveNothing(s, a, t); PoolSame(s, t);
  }

  /** Conservation: over any run the buffers in the two queues, in the two hands and kept are the
      same ones, whatever stops, exceptions and producers do. */
  lemma {:induction false} BuffersConserved(s: State, acts: seq<Act>, t: State)
    requires Inv(s) && Run(s, acts) == Some(t)
    ensures Pool(t) == Pool(s)
  {
    if acts != [] {
      var m := Run(s, acts[..|acts| - 1]).value;
      RunKeepsInv(s, acts[..|acts| - 1], m);
      BuffersConserved(s, acts[..|acts| - 1], m);
      StepKeepsPool(m, acts[|acts| - 1], t);
    }
  }

  /** At every reachable state every buffer taken was returned exactly once, is in hand, or is a
      kept sentinel, of which there is at most one per run; and buffers are taken in the order of
      their arrival. */
  lemma BuffersAccountedFor(s: State)
    requires Reachable(s)
    ensures multiset(s.log.taken) == multiset(s.log.returned) + multiset(HandSeq(s.hand)) + multiset(s.kept)
    ensures (forall b :: b in s.kept ==> b.sentinel) && |s.kept| <= s.log.runs
    ensures s.log.arrivals == s.log.taken + s.filled
  {
    ReachableInv(s);
  }
}
