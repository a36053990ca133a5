/** The stream worker and the threads around it as a transition system. The worker thread runs
    start(), its queue loop and the gate in front of every event; any number of controller threads
    call stop(), pause(), resume() and singleStep(); a producer recycles the buffers. Every
    statement that touches shared state is a step of its own, and the state mutex is explicit. */
module StreamWorker {
  import opened Wrappers

  datatype WorkerState = Idle | Running | Paused | SingleStepping

  datatype StopFlag = StopImmediately | StopWhenQueueEmpty

  /** `events` is the number of event callbacks the parser makes for the content of the buffer. An
      empty buffer is a sentinel for the running worker. */
  datatype Buffer = Buffer(id: nat, events: nat, sentinel: bool)

  datatype LockOwner = Free | Worker | Controller(id: nat)

  // ---------------------------------------------------------------------
  // Controllers

  datatype Call = Stop(whenQueueEmpty: bool) | Pause | Resume | SingleStep

  /** Statements of a call: before the lock, inside it, between its two writes, after the last
      write, and between unlocking and notifying. */
  datatype CallPc = Entered | Locked | Halfway | Written | Notifying

  datatype ActiveCall = ActiveCall(call: Call, pc: CallPc)

  predicate HoldsLock(c: ActiveCall) {
    c.pc.Locked? || c.pc.Halfway? || c.pc.Written?
  }

  /** The call has changed the desired state and its notification is still to come. */
  predicate NotifyPending(c: ActiveCall) {
    c.pc.Written? || c.pc.Notifying? || (c.call.Resume? && c.pc.Halfway?)
  }

  // ---------------------------------------------------------------------
  // The worker

  datatype Exit = BySentinel | ByQueueEmpty | ByImmediateStop

  /** Where the worker thread is. `left` counts the events still to come from the buffer in hand. */
  datatype Pc =
    | Off
    | Crashed                                     // start() was left by an exception
    | Starting                                    // found the worker idle
    | CheckStartPaused                            // has announced Running
    | StartPausing                                // has read m_startPaused as true
    | LoopTop
    | Branch(wanted: WorkerState)                 // has copied the desired state
    | TakeLast                                    // stopping when the queue is empty
    | Draining
    | DrainReturn
    | Parsing(left: nat)
    | GateEnter(left: nat)                        // wants the mutex
    | GateTest(left: nat)                         // evaluates the predicate under the mutex
    | GateWait(left: nat)                         // predicate was false, about to wait
    | Sleeping(left: nat)
    | Woken(left: nat)                            // wants the mutex again
    | GatePass(left: nat)                         // predicate was true
    | InEvent(left: nat, because: WorkerState)    // passed while this state was desired
    | Returning(throwing: bool)
    | Leaving(exit: Exit)

  datatype State = State(
    pc: Pc,
    lock: LockOwner,
    state: WorkerState,
    desired: WorkerState,
    stopFlag: StopFlag,
    startPaused: bool,
    controllers: map<nat, ActiveCall>,
    // buffers
    filled: seq<Buffer>,
    empty: seq<Buffer>,
    hand: Option<Buffer>,
    producerHand: Option<Buffer>,
    kept: seq<Buffer>,           // sentinels, never returned
    // what has happened so far
    log: Log)

  datatype Log = Log(
    runs: nat,                   // runs begun
    arrivals: seq<Buffer>,       // put into the filled queue
    taken: seq<Buffer>,          // taken out of it by the worker
    returned: seq<Buffer>,       // put into the empty queue by the worker
    runTaken: seq<Buffer>,       // taken, processed and drained in the current run
    runProcessed: seq<Buffer>,
    runDrained: seq<Buffer>,
    passes: nat,                 // events that passed the gate
    consumed: nat,               // passes that used up a single step
    stepWrites: nat,             // desired state set to SingleStepping
    goWrites: nat,               // desired state set to Running by anyone, or to Idle by a stop
    published: nat,              // single step results
    publishedStray: nat,         // of these, for events that were not single stepped
    abortedSteps: nat)           // single stepped events cut off by a parser exception

  datatype Act =
    | Advance                                     // the worker executes its next statement
    | ParserThrows                                // an exception that processBuffer catches
    | ProcessingThrows                            // one that it does not catch
    | SetupFails
    | SpuriousWake
    | BeginCall(id: nat, call: Call)
    | CallStep(id: nat)
    | SetStartPaused(value: bool)
    | ProducerTake
    | ProducerPut(events: nat, sentinel: bool)

  /** The wait predicate of the gate. */
  predicate MayPass(desired: WorkerState) {
    desired == Running || desired == Idle || desired == SingleStepping
  }

  /** setState(): both states under the mutex. */
  function SetState(s: State, w: WorkerState, pc: Pc): Option<State> {
    if s.lock != Free then None
    else
      var log := if w != Running then s.log else s.log.(goWrites := s.log.goWrites + 1);
      Some(s.(state := w, desired := w, pc := pc, log := log))
  }

  function StartStep(s: State): Option<State> {
    match s.pc
    case Off =>
      if s.lock != Free then None
      else if s.state != Idle then Some(s)   // the request is ignored
      else Some(s.(pc := Starting,
                   log := s.log.(runs := s.log.runs + 1, runTaken := [], runProcessed := [], runDrained := [])))
    case Starting => SetState(s, Running, CheckStartPaused)
    case CheckStartPaused => Some(s.(pc := if s.startPaused then StartPausing else LoopTop))
    case StartPausing => SetState(s, Paused, LoopTop)
    case Leaving(_) => SetState(s, Idle, Off)
    case _ => None
  }

  /** Dequeues the first filled buffer into the hand. */
  function Take(s: State, pc: Pc): State
    requires s.filled != []
  {
    var b := s.filled[0];
    s.(filled := s.filled[1..], hand := Some(b), pc := pc,
       log := s.log.(taken := s.log.taken + [b], runTaken := s.log.runTaken + [b]))
  }

  /** Enqueues the buffer in hand into the empty queue. */
  function Return(s: State, pc: Pc): State {
    if s.hand.None? then s
    else s.(empty := s.empty + [s.hand.value], hand := None, pc := pc,
            log := s.log.(returned := s.log.returned + [s.hand.value]))
  }

  function LoopStep(s: State): Option<State> {
    match s.pc
    case LoopTop => if s.lock != Free then None else Some(s.(pc := Branch(s.desired)))
    case Branch(wanted) =>
      if wanted == Idle then
        Some(s.(pc := if s.stopFlag == StopImmediately then Draining else TakeLast))
      else if s.filled == [] then Some(s.(pc := LoopTop))
      else if s.filled[0].sentinel then
        Some(Take(s, Leaving(BySentinel)).(hand := None, kept := s.kept + [s.filled[0]]))
      else Some(Take(s, Parsing(s.filled[0].events)))
    case TakeLast =>
      Some(if s.filled == [] then s.(pc := Leaving(ByQueueEmpty)) else Take(s, Parsing(s.filled[0].events)))
    case Draining =>
      Some(if s.filled == [] then s.(pc := Leaving(ByImmediateStop)) else Take(s, DrainReturn))
    case DrainReturn =>
      var r := Return(s, Draining);
      Some(if s.hand.Some? then r.(log := r.log.(runDrained := r.log.runDrained + [s.hand.value])) else r)
    case Parsing(left) =>
      if left > 0 then Some(s.(pc := GateEnter(left)))
      else
        var log := if s.hand.Some? then s.log.(runProcessed := s.log.runProcessed + [s.hand.value]) else s.log;
        Some(s.(pc := Returning(false), log := log))
    case Returning(throwing) => Some(Return(s, if throwing then Crashed else LoopTop))
    case _ => None
  }

  function GateStep(s: State): Option<State> {
    match s.pc
    case GateEnter(left) =>
      if s.lock != Free then None
      else
        var state := if s.desired == Paused then Paused else if s.desired == Running then Running else s.state;
        Some(s.(lock := Worker, state := state, pc := GateTest(left)))
    case GateTest(left) => Some(s.(pc := if MayPass(s.desired) then GatePass(left) else GateWait(left)))
    case GateWait(left) => Some(s.(lock := Free, pc := Sleeping(left)))   // releases and sleeps at once
    case Woken(left) => if s.lock != Free then None else Some(s.(lock := Worker, pc := GateTest(left)))
    case GatePass(left) =>
      var log := s.log.(passes := s.log.passes + 1);
      if s.desired == SingleStepping then
        Some(s.(lock := Free, state := SingleStepping, desired := Paused, pc := InEvent(left, SingleStepping),
                log := log.(consumed := log.consumed + 1)))
      else Some(s.(lock := Free, pc := InEvent(left, s.desired), log := log))
    case InEvent(left, because) =>
      if s.lock != Free then None
      else
        var log := if s.state != SingleStepping then s.log
                   else s.log.(published := s.log.published + 1,
                               publishedStray := s.log.publishedStray + (if because == SingleStepping then 0 else 1));
        Some(s.(pc := Parsing(if left > 0 then left - 1 else 0), log := log))
    case _ => None
  }

  predicate InGate(pc: Pc) {
    pc.GateEnter? || pc.GateTest? || pc.GateWait? || pc.Sleeping? || pc.Woken? || pc.GatePass? || pc.InEvent?
  }

  predicate InStartOrEnd(pc: Pc) {
    pc.Off? || pc.Starting? || pc.CheckStartPaused? || pc.StartPausing? || pc.Leaving?
  }

  function WorkerStep(s: State): Option<State> {
    if InGate(s.pc) then GateStep(s)
    else if InStartOrEnd(s.pc) then StartStep(s)
    else LoopStep(s)
  }

  function ControllerStep(s: State, id: nat): Option<State> {
    if id !in s.controllers then None
    else
      var c := s.controllers[id];
      match c.pc
      case Entered =>
        if s.lock != Free then None
        else Some(s.(lock := Controller(id), controllers := s.controllers[id := c.(pc := Locked)]))
      case Locked =>
        (match c.call
         case Stop(whenQueueEmpty) =>
           Some(s.(stopFlag := if whenQueueEmpty then StopWhenQueueEmpty else StopImmediately,
                   controllers := s.controllers[id := c.(pc := Halfway)]))
         case Pause => Some(s.(desired := Paused, controllers := s.controllers[id := c.(pc := Written)]))
         case SingleStep =>
           Some(s.(desired := SingleStepping, controllers := s.controllers[id := c.(pc := Written)],
                   log := s.log.(stepWrites := s.log.stepWrites + 1)))
         case Resume =>
           Some(s.(desired := Running, controllers := s.controllers[id := c.(pc := Halfway)],
                   log := s.log.(goWrites := s.log.goWrites + 1))))
      case Halfway =>
        if c.call.Stop? then
          Some(s.(desired := Idle, controllers := s.controllers[id := c.(pc := Written)],
                  log := s.log.(goWrites := s.log.goWrites + 1)))
        else Some(s.(startPaused := false, controllers := s.controllers[id := c.(pc := Written)]))
      case Written => Some(s.(lock := Free, controllers := s.controllers[id := c.(pc := Notifying)]))
      case Notifying =>
        Some(s.(controllers := s.controllers - {id},
                pc := if s.pc.Sleeping? then Woken(s.pc.left) else s.pc))
  }

  function ProducerStep(s: State, a: Act): Option<State> {
    match a
    case ProducerTake =>
      if s.producerHand.Some? || s.empty == [] then None
      else Some(s.(producerHand := Some(s.empty[0]), empty := s.empty[1..]))
    case ProducerPut(events, sentinel) =>
      if s.producerHand.None? then None
      else
        var b := Buffer(s.producerHand.value.id, events, sentinel);
        Some(s.(producerHand := None, filled := s.filled + [b], log := s.log.(arrivals := s.log.arrivals + [b])))
    case _ => None
  }

  function FaultStep(s: State, a: Act): Option<State> {
    match a
    case ParserThrows =>
      if s.pc.InEvent? then
        var log := if s.pc.because == SingleStepping then s.log.(abortedSteps := s.log.abortedSteps + 1) else s.log;
        Some(s.(pc := Parsing(0), log := log))
      else if s.pc.Parsing? && s.pc.left > 0 then Some(s.(pc := Parsing(0)))
      else None
    case ProcessingThrows => if s.pc == Parsing(0) then Some(s.(pc := Returning(true))) else None
    case SetupFails => if s.pc == Starting then Some(s.(pc := Off)) else None
    case SpuriousWake => if s.pc.Sleeping? then Some(s.(pc := Woken(s.pc.left))) else None
    case _ => None
  }

  /** The effect of an action; None if it is not possible in `s`. */
  function Step(s: State, a: Act): Option<State> {
    match a
    case Advance => WorkerStep(s)
    case ParserThrows => FaultStep(s, a)
    case ProcessingThrows => FaultStep(s, a)
    case SetupFails => FaultStep(s, a)
    case SpuriousWake => FaultStep(s, a)
    case BeginCall(id, call) =>
      if id in s.controllers then None
      else Some(s.(controllers := s.controllers[id := ActiveCall(call, Entered)]))
    case CallStep(id) => ControllerStep(s, id)
    case SetStartPaused(value) => Some(s.(startPaused := value))
    case ProducerTake => ProducerStep(s, a)
    case ProducerPut(_, _) => ProducerStep(s, a)
  }

  /** The state after a sequence of actions; None if one of them is not possible. */
  function Run(s: State, acts: seq<Act>): Option<State> {
    if acts == [] then Some(s)
    else
      var r := Run(s, acts[..|acts| - 1]);
      if r.None? then None else Step(r.value, acts[|acts| - 1])
  }

  ghost predicate Init(s: State) {
    && s.pc == Off && s.lock == Free && s.state == Idle && s.desired == Idle
    && s.stopFlag == StopWhenQueueEmpty && !s.startPaused
    && s.controllers == map[] && s.hand == None && s.kept == []
    && s.log == Log(0, s.filled, [], [], [], [], [], 0, 0, 0, 0, 0, 0, 0)
  }

  /** Some interleaving of all threads leads from an initial state to `s`. */
  ghost predicate Reachable(s: State) {
    exists s0, acts :: Init(s0) && Run(s0, acts) == Some(s)
  }
}
