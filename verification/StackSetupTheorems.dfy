/** Where the uploaded stacks end up, and how the separate loops over the events agree. */
module StackSetupTheorems {
  import opened Wrappers
  import opened Bits
  import opened StackSetup
  import opened TriggerIo

  // ---------------------------------------------------------------------
  // Stack memory without the 16 bit arithmetic

  /** The offset in words at which the k-th stack belongs: after the reserved stack and all earlier
      ones, each followed by one unused word. */
  function TrueOffset(first: nat, events: seq<Event>, k: nat): nat
    requires k <= |events|
  {
    if k == 0 then first else TrueOffset(first, events, k - 1) + |events[k - 1].stack| + 1
  }

  function TrueBegin(c: Layout, events: seq<Event>, k: nat): nat
    requires k <= |events|
  {
    c.memoryBegin + 4 * TrueOffset(c.reserved + 1, events, k)
  }

  function TrueEnd(c: Layout, events: seq<Event>, k: nat): nat
    requires k < |events|
  {
    TrueBegin(c, events, k) + 4 * |events[k].stack|
  }

  lemma {:induction false} OffsetOfRest(first: nat, events: seq<Event>, k: nat)
    requires events != [] && k <= |events| - 1
    ensures TrueOffset(first + |events[0].stack| + 1, events[1..], k) == TrueOffset(first, events, k + 1)
  {
    if k > 0 {
      OffsetOfRest(first, events, k - 1);
      assert events[1..][k - 1] == events[k];
    } else {
      assert TrueOffset(first, events, 1) == TrueOffset(first, events, 0) + |events[0].stack| + 1;
    }
  }

  // ---------------------------------------------------------------------
  // The plan, entry by entry

  /** The 16 bit address of the k-th stack is that of the true one, cut off. */
  ghost predicate StackAt(c: Layout, events: seq<Event>, id: nat, first: nat, plan: seq<Access>, k: nat)
    requires k < |events|
  {
    var address := (c.memoryBegin + 4 * TrueOffset(first, events, k)) % U16;
    && 2 * k + 1 < |plan|
    && plan[2 * k] == Upload(address, events[k].stack)
    && plan[2 * k + 1] == StackOffset(id + k, BitAnd(address, c.offsetMask))
    && id + k < c.stackCount
    && (address + 4 * |events[k].stack|) % U16 < c.memoryEnd
  }

  /** Why the setup stops at the n-th event, if it does. */
  ghost predicate StopsAt(c: Layout, events: seq<Event>, id: nat, first: nat, n: nat, error: Option<Error>)
    requires n <= |events|
  {
    if n == |events| then error == None
    else if id + n >= c.stackCount then error == Some(StackCountExceeded)
    else
      && error == Some(StackMemoryExceeded)
      && (c.memoryBegin + 4 * TrueOffset(first, events, n) + 4 * |events[n].stack|) % U16 >= c.memoryEnd
  }

  ghost predicate PlanIs(c: Layout, events: seq<Event>, id: nat, first: nat, n: nat, plan: (seq<Access>,
                           Option<Error>)) {
    && n <= |events| && |plan.0| == 2 * n
    && (forall k {:trigger StackAt(c, events, id, first, plan.0, k)} :: 0 <= k < n ==>
            StackAt(c, events, id, first, plan.0, k))
    && StopsAt(c, events, id, first, n, plan.1)
  }

  lemma CutOff(b: nat, t: nat, s: nat)
    ensures (b + (t % U16) * 4) % U16 == (b + 4 * t) % U16
    ensures ((b + 4 * t) % U16 + s * 4) % U16 == (b + 4 * t + 4 * s) % U16
    ensures (t % U16 + s + 1) % U16 == (t + s + 1) % U16
  {
    var q := t / U16;
    WholeTurns(b + (t % U16) * 4, 4 * q);
    WholeTurns((b + 4 * t) % U16 + s * 4, (b + 4 * t) / U16);
    WholeTurns(t % U16 + s + 1, q);
  }

  lemma WholeTurns(x: int, n: int)
    ensures (x + U16 * n) % U16 == x % U16
  {
  }

  lemma FirstStack(c: Layout, events: seq<Event>, id: nat, first: nat)
    requires events != []
    ensures var plan := StackPlan(c, events, id, first % U16);
            if StackCheck(c, id, first % U16, |events[0].stack|).Some? then PlanIs(c, events, id, first, 0, plan)
            else StackAt(c, events, id, first, plan.0, 0)
  {
    CutOff(c.memoryBegin, first, |events[0].stack|);
    assert TrueOffset(first, events, 0) == first;
  }

  lemma LaterStack(c: Layout, events: seq<Event>, id: nat, first: nat,
                   rest: seq<Access>, plan: seq<Access>, k: nat)
    requires k < |events| - 1 && |plan| == |rest| + 2 && plan[2..] == rest
    requires StackAt(c, events[1..], id + 1, first + |events[0].stack| + 1, rest, k)
    ensures StackAt(c, events, id, first, plan, k + 1)
  {
    OffsetOfRest(first, events, k);
    assert events[1..][k] == events[k + 1];
    assert plan[2 * (k + 1)] == rest[2 * k] && plan[2 * (k + 1) + 1] == rest[2 * k + 1];
  }

  lemma LaterStop(c: Layout, events: seq<Event>, id: nat, first: nat, n: nat, error: Option<Error>)
    requires n + 1 <= |events| && StopsAt(c, events[1..], id + 1, first + |events[0].stack| + 1, n, error)
    ensures StopsAt(c, events, id, first, n + 1, error)
  {
    if n + 1 < |events| {
      OffsetOfRest(first, events, n);
      assert events[1..][n] == events[n + 1];
    }
  }

  lemma PlanOfRest(c: Layout, events: seq<Event>, id: nat, first: nat)
    requires events != [] && StackCheck(c, id, first % U16, |events[0].stack|).None?
    ensures var plan := StackPlan(c, events, id, first % U16);
            var rest := StackPlan(c, events[1..], id + 1, (first + |events[0].stack| + 1) % U16);
            |plan.0| == |rest.0| + 2 && plan.0[2..] == rest.0 && plan.1 == rest.1
  {
    CutOff(0, first, |events[0].stack|);
    var accesses := StackAccesses(c, id, first % U16, events[0].stack);
    var rest := StackPlan(c, events[1..], id + 1, NextOffset(first % U16, |events[0].stack|));
    assert (accesses + rest.0)[2..] == rest.0;
  }

  /** The setup handles the first `n` events, each at its true address cut off to 16 bits, under
      consecutive stack ids, and stops at the next one for the first reason that applies. */
  lemma {:induction false} SetupGoes(c: Layout, events: seq<Event>, id: nat, first: nat) returns (n: nat)
    ensures PlanIs(c, events, id, first, n, StackPlan(c, events, id, first % U16))
  {
    n := 0;
    if events != [] {
      FirstStack(c, events, id, first);
      if StackCheck(c, id, first % U16, |events[0].stack|).None? {
        var plan := StackPlan(c, events, id, first % U16);
        var later := first + |events[0].stack| + 1;
        var rest := StackPlan(c, events[1..], id + 1, later % U16);
        var m := SetupGoes(c, events[1..], id + 1, later);
        PlanOfRest(c, events, id, first);
        n := m + 1;
        forall k {:trigger StackAt(c, events, id, first, plan.0, k)} | 0 <= k < n
          ensures StackAt(c, events, id, first, plan.0, k)
        {
          if k > 0 {
            assert StackAt(c, events[1..], id + 1, later, rest.0, k - 1);
            LaterStack(c, events, id, first, rest.0, plan.0, k - 1);
          }
        }
        LaterStop(c, events, id, first, m, plan.1);
      }
    }
  }

  // ---------------------------------------------------------------------
  // Safety of the uploads

  /** The k-th upload lies in stack memory behind the reserved stack and its gap. */
  ghost predicate Inside(c: Layout, plan: seq<Access>, k: nat)
    requires 2 * k < |plan|
  {
    var a := plan[2 * k];
    && a.Upload?
    && c.memoryBegin + 4 * (c.reserved + 1) <= a.address
    && a.address + 4 * |a.words| < c.memoryEnd
  }

  /** The k-th upload ends at least one word before the m-th one begins. */
  ghost predicate Apart(plan: seq<Access>, k: nat, m: nat)
    requires 2 * k < |plan| && 2 * m < |plan|
  {
    plan[2 * k].Upload? && plan[2 * m].Upload?
    && plan[2 * k].address + 4 * |plan[2 * k].words| + 4 <= plan[2 * m].address
  }

  ghost predicate Safe(c: Layout, plan: seq<Access>) {
    && (forall k {:trigger Inside(c, plan, k)} :: 0 <= k && 2 * k < |plan| ==> Inside(c, plan, k))
    && (forall k, m {:trigger Apart(plan, k, m)} :: 0 <= k < m && 2 * m < |plan| ==> Apart(plan, k, m))
  }

  lemma {:induction false} OffsetsGrow(first: nat, events: seq<Event>, k: nat, m: nat)
    requires k < m <= |events|
    ensures TrueOffset(first, events, k) + |events[k].stack| + 1 <= TrueOffset(first, events, m)
    ensures first <= TrueOffset(first, events, k)
    decreases m
  {
    if k + 1 < m {
      OffsetsGrow(first, events, k, m - 1);
    } else if k > 0 {
      OffsetsGrow(first, events, 0, k);
    }
  }

  function WholePlan(c: Layout, events: seq<Event>): (seq<Access>, Option<Error>) {
    StackPlan(c, events, c.immediateId + 1, FirstOffset(c))
  }

  lemma WithoutWrap(c: Layout, events: seq<Event>, n: nat)
    requires Valid(c) && PlanIs(c, events, c.immediateId + 1, c.reserved + 1, n, WholePlan(c, events))
    requires n > 0 ==> TrueEnd(c, events, n - 1) < U16
    ensures Safe(c, WholePlan(c, events).0)
  {
    var plan := WholePlan(c, events).0;
    forall k {:trigger Inside(c, plan, k)} | 0 <= k < n
      ensures Inside(c, plan, k) && plan[2 * k].address == TrueBegin(c, events, k)
    {
      NotCutOff(c, events, n, k);
    }
    forall k, m {:trigger Apart(plan, k, m)} | 0 <= k < m < n ensures Apart(plan, k, m) {
      assert Inside(c, plan, k) && Inside(c, plan, m);
      NotCutOff(c, events, n, k);
      OffsetsGrow(c.reserved + 1, events, k, m);
      NotCutOff(c, events, n, m);
    }
  }

  lemma NotCutOff(c: Layout, events: seq<Event>, n: nat, k: nat)
    requires Valid(c) && PlanIs(c, events, c.immediateId + 1, c.reserved + 1, n, WholePlan(c, events))
    requires k < n && TrueEnd(c, events, n - 1) < U16
    ensures var plan := WholePlan(c, events).0;
            Inside(c, plan, k) && plan[2 * k] == Upload(TrueBegin(c, events, k), events[k].stack)
  {
    EndsGrow(c, events, k, n - 1);
    assert StackAt(c, events, c.immediateId + 1, c.reserved + 1, WholePlan(c, events).0, k);
    StaysAsIs(TrueBegin(c, events, k), |events[k].stack|);
  }

  lemma EndsGrow(c: Layout, events: seq<Event>, k: nat, m: nat)
    requires k <= m < |events|
    ensures TrueEnd(c, events, k) <= TrueEnd(c, events, m)
    ensures c.memoryBegin + 4 * (c.reserved + 1) <= TrueBegin(c, events, k)
  {
    OffsetsGrow(c.reserved + 1, events, k, k + 1);
    if k < m {
      OffsetsGrow(c.reserved + 1, events, k, m);
    }
  }

  lemma StaysAsIs(begin: nat, size: nat)
    requires begin + 4 * size < U16
    ensures begin % U16 == begin && (begin % U16 + 4 * size) % U16 == begin + 4 * size
  {
  }

  lemma {:induction false} SafeMeansNoWrap(c: Layout, events: seq<Event>, n: nat, k: nat)
    requires Valid(c) && PlanIs(c, events, c.immediateId + 1, c.reserved + 1, n, WholePlan(c, events))
    requires k < n && Safe(c, WholePlan(c, events).0)
    ensures TrueEnd(c, events, k) < U16
  {
    if k > 0 {
      SafeMeansNoWrap(c, events, n, k - 1);
      AcceptedEnd(c, events, n, k - 1);
      StaysAsIs(TrueEnd(c, events, k - 1), 0);
    }
    assert TrueBegin(c, events, k) < U16;
    EndsInside(c, events, n, k);
  }

  lemma EndsInside(c: Layout, events: seq<Event>, n: nat, k: nat)
    requires Valid(c) && PlanIs(c, events, c.immediateId + 1, c.reserved + 1, n, WholePlan(c, events))
    requires k < n && Safe(c, WholePlan(c, events).0) && TrueBegin(c, events, k) < U16
    ensures TrueEnd(c, events, k) < c.memoryEnd
  {
    var plan := WholePlan(c, events).0;
    assert StackAt(c, events, c.immediateId + 1, c.reserved + 1, plan, k);
    assert Inside(c, plan, k);
    StaysAsIs(TrueBegin(c, events, k), 0);
  }

  lemma SafeForUploads(c: Layout, events: seq<Event>) returns (n: nat)
    requires Valid(c)
    ensures PlanIs(c, events, c.immediateId + 1, c.reserved + 1, n, WholePlan(c, events))
    ensures Safe(c, WholePlan(c, events).0) <==> n == 0 || TrueEnd(c, events, n - 1) < U16
  {
    n := SetupGoes(c, events, c.immediateId + 1, c.reserved + 1);
    if n == 0 || TrueEnd(c, events, n - 1) < U16 {
      WithoutWrap(c, events, n);
    } else if Safe(c, WholePlan(c, events).0) {
      SafeMeansNoWrap(c, events, n, n - 1);
    }
  }

  /** The k-th stack is the first that ends beyond the 16 bit address space, there is a stack id for
      it, and its end, cut off, looks as if it fitted. */
  ghost predicate WrapsAt(c: Layout, events: seq<Event>, k: nat)
    requires k < |events|
  {
    && c.immediateId + 1 + k < c.stackCount
    && (forall j {:trigger TrueEnd(c, events, j)} :: 0 <= j < k ==> TrueEnd(c, events, j) < c.memoryEnd)
    && TrueEnd(c, events, k) >= U16
    && TrueEnd(c, events, k) % U16 < c.memoryEnd
  }

  lemma WrappingStackIsUploaded(c: Layout, events: seq<Event>, n: nat, k: nat)
    requires Valid(c) && PlanIs(c, events, c.immediateId + 1, c.reserved + 1, n, WholePlan(c, events))
    requires k < |events| && WrapsAt(c, events, k)
    ensures k < n && TrueEnd(c, events, n - 1) >= U16
  {
    if n < |events| {
      RefusedEnd(c, events, n);
    }
    if n > k {
      EndsGrow(c, events, k, n - 1);
    }
  }

  lemma {:induction false} SomeStackWraps(c: Layout, events: seq<Event>, n: nat, m: nat) returns (k: nat)
    requires Valid(c) && PlanIs(c, events, c.immediateId + 1, c.reserved + 1, n, WholePlan(c, events))
    requires m < n && TrueEnd(c, events, m) >= U16
    ensures k <= m && WrapsAt(c, events, k)
  {
    var plan := WholePlan(c, events).0;
    if m > 0 && TrueEnd(c, events, m - 1) >= U16 {
      k := SomeStackWraps(c, events, n, m - 1);
    } else {
      k := m;
      forall j {:trigger TrueEnd(c, events, j)} | 0 <= j < m ensures TrueEnd(c, events, j) < c.memoryEnd {
        EndsGrow(c, events, j, m - 1);
        AcceptedEnd(c, events, n, j);
      }
      AcceptedEnd(c, events, n, m);
    }
  }

  lemma AcceptedEnd(c: Layout, events: seq<Event>, n: nat, k: nat)
    requires PlanIs(c, events, c.immediateId + 1, c.reserved + 1, n, WholePlan(c, events)) && k < n
    ensures TrueEnd(c, events, k) % U16 < c.memoryEnd && c.immediateId + 1 + k < c.stackCount
  {
    assert StackAt(c, events, c.immediateId + 1, c.reserved + 1, WholePlan(c, events).0, k);
    CutOff(c.memoryBegin, TrueOffset(c.reserved + 1, events, k), |events[k].stack|);
  }

  /** The uploaded stacks lie in stack memory, clear of the stack for immediate execution and apart
      from each other by an unused word, exactly if no stack wraps around like that. */
  lemma SafeIff(c: Layout, events: seq<Event>)
    requires Valid(c)
    ensures Safe(c, WholePlan(c, events).0) <==>
            !exists k :: 0 <= k < |events| && WrapsAt(c, events, k)
  {
    var n := SafeForUploads(c, events);
    if k :| 0 <= k < |events| && WrapsAt(c, events, k) {
      WrappingStackIsUploaded(c, events, n, k);
    } else if n > 0 && TrueEnd(c, events, n - 1) >= U16 {
      var k := SomeStackWraps(c, events, n, n - 1);
    }
  }

  /** The setup succeeds exactly if there are enough stacks and every end, cut off to 16 bits, lies
      in stack memory; it then uploads every stack. */
  lemma SetupSucceedsIff(c: Layout, events: seq<Event>)
    ensures WholePlan(c, events).1 == None <==>
            && (events == [] || c.immediateId + |events| < c.stackCount)
            && forall k {:trigger TrueEnd(c, events, k)} :: 0 <= k < |events| ==>
                 TrueEnd(c, events, k) % U16 < c.memoryEnd
    ensures WholePlan(c, events).1 == None ==> |WholePlan(c, events).0| == 2 * |events|
  {
    var n := SetupGoes(c, events, c.immediateId + 1, c.reserved + 1);
    forall k {:trigger TrueEnd(c, events, k)} | 0 <= k < n
      ensures TrueEnd(c, events, k) % U16 < c.memoryEnd && c.immediateId + 1 + k < c.stackCount
    {
      AcceptedEnd(c, events, n, k);
    }
    if n < |events| {
      RefusedEnd(c, events, n);
    } else if n > 0 {
      AcceptedEnd(c, events, n, n - 1);
    }
  }

  lemma RefusedEnd(c: Layout, events: seq<Event>, n: nat)
    requires PlanIs(c, events, c.immediateId + 1, c.reserved + 1, n, WholePlan(c, events)) && n < |events|
    ensures WholePlan(c, events).1.Some?
    ensures c.immediateId + 1 + n >= c.stackCount || TrueEnd(c, events, n) % U16 >= c.memoryEnd
  {
  }

  /** For stacks that fit into the 16 bit address space this is that the last one ends within stack
      memory, and the uploads are safe. */
  lemma SmallStacksFit(c: Layout, events: seq<Event>)
    requires Valid(c) && events != [] && TrueEnd(c, events, |events| - 1) < U16
    ensures WholePlan(c, events).1 == None <==>
            c.immediateId + |events| < c.stackCount && TrueEnd(c, events, |events| - 1) < c.memoryEnd
    ensures Safe(c, WholePlan(c, events).0)
  {
    SafeIff(c, events);
    SetupSucceedsIff(c, events);
    forall k {:trigger TrueEnd(c, events, k)} | 0 <= k < |events|
      ensures TrueEnd(c, events, k) <= TrueEnd(c, events, |events| - 1)
    {
      EndsGrow(c, events, k, |events| - 1);
    }
  }

  /** A stack that fills the whole 16 bit address space passes the memory check and is uploaded. */
  lemma OversizedStackAccepted(c: Layout, e: Event)
    requires Valid(c) && c.immediateId + 1 < c.stackCount && |e.stack| == 0x4000
    ensures WholePlan(c, [e]).1 == None && !Safe(c, WholePlan(c, [e]).0)
  {
    var n := SafeForUploads(c, [e]);
    assert TrueOffset(c.reserved + 1, [e], 0) == c.reserved + 1;
    assert [e][1..] == [];
    StaysAsIs(TrueBegin(c, [e], 0), 0);
    CutOff(c.memoryBegin, c.reserved + 1, 0x4000);
    assert EndAddress(c, FirstOffset(c), 0x4000) == TrueBegin(c, [e], 0);
    assert StackCheck(c, c.immediateId + 1, FirstOffset(c), |[e][0].stack|).None?;
    assert StackPlan(c, [e][1..], c.immediateId + 2, NextOffset(FirstOffset(c), |e.stack|)) == ([], None);
  }

  // ---------------------------------------------------------------------
  // Triggers and timers

  /** Periodic events among the first `k`. */
  function Periodics(events: seq<Event>, k: nat): nat
    requires k <= |events|
  {
    if k == 0 then 0 else Periodics(events, k - 1) + Timers(events[k - 1])
  }

  lemma {:induction false} PeriodicsOfRest(events: seq<Event>, k: nat)
    requires events != [] && k <= |events| - 1
    ensures Timers(events[0]) + Periodics(events[1..], k) == Periodics(events, k + 1)
  {
    if k > 0 {
      PeriodicsOfRest(events, k - 1);
      assert events[1..][k - 1] == events[k];
    } else {
      assert Periodics(events, 1) == Periodics(events, 0) + Timers(events[0]);
    }
  }

  lemma {:induction false} PeriodicsGrow(events: seq<Event>, k: nat, m: nat)
    requires k <= m <= |events|
    ensures Periodics(events, k) <= Periodics(events, m)
    decreases m
  {
    if k < m {
      PeriodicsGrow(events, k, m - 1);
    }
  }

  /** The stack id is a byte. */
  function IdAfter(id: nat, k: nat): nat { if k == 0 then id else (id + k) % U8 }

  lemma IdOfRest(id: nat, k: nat)
    ensures IdAfter(NextId(id), k) == IdAfter(id, k + 1)
  {
  }

  ghost predicate OfThisController(events: seq<Event>) { forall e :: e in events ==> e.trigger != Foreign }

  ghost predicate TriggerAt(c: Layout, events: seq<Event>, id: nat, writes: seq<Access>, k: nat)
    requires k < |events|
  {
    k < |writes| && writes[k] == StackTrigger(IdAfter(id, k), TriggerValue(c, events[k]))
  }

  /** Enabling the triggers fails exactly if there are more periodic events than timers left. */
  lemma {:induction false} TriggersSucceedIff(c: Layout, events: seq<Event>, id: nat, timers: nat)
    requires timers <= c.timerCount
    ensures TriggerPlan(c, events, id, timers).1 == None <==> timers + Periodics(events, |events|) <= c.timerCount
    ensures TriggerPlan(c, events, id, timers).1 in {None, Some(TimerCountExceeded)}
  {
    if events != [] {
      var one := OneTrigger(c, events[0], id, timers);
      PeriodicsOfRest(events, |events| - 1);
      if one.1.None? {
        TriggersSucceedIff(c, events[1..], NextId(id), timers + Timers(events[0]));
      }
    }
  }

  /** One register write for each event, in order, for consecutive stacks; on failure, those for the
      events before the periodic one that finds no timer. */
  lemma {:induction false} TriggersInOrder(c: Layout, events: seq<Event>, id: nat, timers: nat) returns (n: nat)
    requires OfThisController(events) && timers <= c.timerCount
    ensures var plan := TriggerPlan(c, events, id, timers);
            && |plan.0| == n <= |events| && (plan.1 == None <==> n == |events|)
            && (n < |events| ==> events[n].trigger == Periodic && timers + Periodics(events, n) == c.timerCount)
            && forall k {:trigger TriggerAt(c, events, id, plan.0, k)} :: 0 <= k < n ==>
                  TriggerAt(c, events, id, plan.0, k)
  {
    n := 0;
    if events != [] && OneTrigger(c, events[0], id, timers).1.None? {
      var plan := TriggerPlan(c, events, id, timers).0;
      var rest := TriggerPlan(c, events[1..], NextId(id), timers + Timers(events[0])).0;
      var m := TriggersInOrder(c, events[1..], NextId(id), timers + Timers(events[0]));
      n := m + 1;
      assert plan[0] == StackTrigger(id, TriggerValue(c, events[0])) && plan[1..] == rest;
      forall k {:trigger TriggerAt(c, events, id, plan, k)} | 0 <= k < n ensures TriggerAt(c, events, id, plan, k) {
        if k > 0 {
          assert TriggerAt(c, events[1..], NextId(id), rest, k - 1);
          IdOfRest(id, k - 1);
          assert plan[k] == rest[k - 1];
        }
      }
      if n < |events| {
        PeriodicsOfRest(events, m);
      }
    }
  }

  /** Unit `k` of `r` is set up for event `e`, and what it does not concern is as in `u`. */
  ghost predicate UnitFor(u: Units, r: Units, choices: seq<seq<UnitAddress>>, k: nat, e: Event, id: nat)
    requires Sized(u, |choices|) && Sized(r, |choices|)
  {
    && k < |choices|
    && r.timers[k] == Timer(e.timerBase, u.timers[k].delay, e.timerPeriod % U16, true)
    && r.starts[k] == StackStart(true, id, u.starts[k].delay)
    && r.timerNames[k] == "t_" + e.name && r.startNames[k] == "ss_" + e.name
    && (UnitAddress(0, k) in choices[k] ==>
          r.connections[k] < |choices[k]| && choices[k][r.connections[k]] == UnitAddress(0, k))
  }

  ghost predicate Untouched(u: Units, r: Units, k: nat)
    requires Sized(u, |u.timers|) && Sized(r, |u.timers|)
  {
    k < |u.timers| ==>
      && r.timers[k] == u.timers[k] && r.timerNames[k] == u.timerNames[k] && r.starts[k] == u.starts[k]
      && r.startNames[k] == u.startNames[k] && r.connections[k] == u.connections[k]
  }

  ghost predicate Assigned(u: Units, r: Units, choices: seq<seq<UnitAddress>>, events: seq<Event>, id: nat,
                           timers: nat, i: nat)
    requires Sized(u, |choices|) && Sized(r, |choices|) && i < |events|
  {
    events[i].trigger == Periodic ==>
      UnitFor(u, r, choices, timers + Periodics(events, i), events[i], IdAfter(id, i))
  }

  /** Every periodic event has got the timer of its rank, and no other unit has changed. */
  ghost predicate TimersAssigned(u: Units, r: Units, choices: seq<seq<UnitAddress>>, events: seq<Event>, id: nat,
                                 timers: nat)
    requires Sized(u, |choices|)
  {
    && Sized(r, |choices|)
    && (forall i {:trigger Assigned(u, r, choices, events, id, timers, i)} :: 0 <= i < |events| ==>
          Assigned(u, r, choices, events, id, timers, i))
    && (forall k {:trigger Untouched(u, r, k)} :: 0 <= k < timers || timers + Periodics(events, |events|) <= k ==>
          Untouched(u, r, k))
  }

  /** The units after the first event. */
  function AfterFirst(u: Units, choices: seq<seq<UnitAddress>>, events: seq<Event>, id: nat, timers: nat): Units
    requires Sized(u, |choices|) && events != [] && (events[0].trigger == Periodic ==> timers < |choices|)
  {
    if events[0].trigger == Periodic then Connected(u, choices, timers, events[0], id) else u
  }

  lemma FirstChangesOne(u: Units, choices: seq<seq<UnitAddress>>, events: seq<Event>, id: nat,
                        timers: nat, k: nat)
    requires Sized(u, |choices|) && events != [] && (events[0].trigger == Periodic ==> timers < |choices|)
    requires events[0].trigger == Periodic ==> k != timers
    ensures Untouched(u, AfterFirst(u, choices, events, id, timers), k)
  {
  }

  lemma FirstAssigned(u: Units, r: Units, choices: seq<seq<UnitAddress>>, events: seq<Event>,
                      id: nat, timers: nat)
    requires Sized(u, |choices|) && Sized(r, |choices|) && events != []
    requires events[0].trigger == Periodic ==>
               timers < |choices| && Untouched(AfterFirst(u, choices, events, id, timers), r, timers)
    ensures Assigned(u, r, choices, events, id, timers, 0)
  {
    if events[0].trigger == Periodic {
      var at := Find(choices[timers], UnitAddress(0, timers));
      assert UnitAddress(0, timers) in choices[timers] ==> at < |choices[timers]|;
    }
  }

  lemma LaterAssigned(u: Units, r: Units, choices: seq<seq<UnitAddress>>, events: seq<Event>,
                      id: nat, timers: nat, i: nat)
    requires Sized(u, |choices|) && Sized(r, |choices|) && events != [] && i < |events| - 1
    requires events[0].trigger == Periodic ==> timers < |choices|
    requires Assigned(AfterFirst(u, choices, events, id, timers), r, choices, events[1..], NextId(id),
          timers + Timers(events[0]), i)
    ensures Assigned(u, r, choices, events, id, timers, i + 1)
  {
    PeriodicsOfRest(events, i);
    IdOfRest(id, i);
    FirstChangesOne(u, choices, events, id, timers, timers + Periodics(events, i + 1));
    assert events[1..][i] == events[i + 1];
  }

  lemma OthersUntouched(u: Units, m: Units, r: Units, k: nat)
    requires Sized(u, |u.timers|) && Sized(m, |u.timers|) && Sized(r, |u.timers|) && Untouched(u, m, k)
          && Untouched(m, r, k)
    ensures Untouched(u, r, k)
  {
  }

  lemma AssignedFromRest(u: Units, r: Units, choices: seq<seq<UnitAddress>>, events: seq<Event>,
                         id: nat, timers: nat)
    requires Sized(u, |choices|) && events != [] && (events[0].trigger == Periodic ==> timers < |choices|)
    requires TimersAssigned(AfterFirst(u, choices, events, id, timers), r, choices, events[1..], NextId(id),
          timers + Timers(events[0]))
    ensures TimersAssigned(u, r, choices, events, id, timers)
  {
    var m, later := AfterFirst(u, choices, events, id, timers), timers + Timers(events[0]);
    PeriodicsOfRest(events, |events| - 1);
    forall i {:trigger Assigned(u, r, choices, events, id, timers, i)} | 0 <= i < |events|
      ensures Assigned(u, r, choices, events, id, timers, i)
    {
      if i == 0 {
        assert events[0].trigger == Periodic ==> Untouched(m, r, timers);
        FirstAssigned(u, r, choices, events, id, timers);
      } else {
        assert Assigned(m, r, choices, events[1..], NextId(id), later, i - 1);
        LaterAssigned(u, r, choices, events, id, timers, i - 1);
      }
    }
    forall k {:trigger Untouched(u, r, k)} | 0 <= k < timers || timers + Periodics(events, |events|) <= k
      ensures Untouched(u, r, k)
    {
      FirstChangesOne(u, choices, events, id, timers, k);
      assert Untouched(m, r, k);
      OthersUntouched(u, m, r, k);
    }
  }

  /** The update succeeds iff there are enough timers; then every periodic event has got the timer
      and the stack start unit of its rank, with its own stack id. */
  lemma {:induction false} TimersInOrder(u: Units, c: Layout, choices: seq<seq<UnitAddress>>, events: seq<Event>,
                                         id: nat, timers: nat)
    requires Sized(u, |choices|) && timers <= c.timerCount <= |choices|
    ensures var r := Updated(u, c, choices, events, id, timers);
            && (r.Some? <==> timers + Periodics(events, |events|) <= c.timerCount)
            && (r.Some? ==> TimersAssigned(u, r.value, choices, events, id, timers))
    decreases |events|
  {
    if events != [] {
      PeriodicsOfRest(events, |events| - 1);
      if events[0].trigger != Periodic || timers < c.timerCount {
        var m := AfterFirst(u, choices, events, id, timers);
        TimersInOrder(m, c, choices, events[1..], NextId(id), timers + Timers(events[0]));
        var r := Updated(u, c, choices, events, id, timers);
        assert r == Updated(m, c, choices, events[1..], NextId(id), timers + Timers(events[0]));
        if r.Some? {
          AssignedFromRest(u, r.value, choices, events, id, timers);
        }
      }
    }
  }

  /** The stack of the i-th event has been uploaded for this stack id. */
  ghost predicate UploadedAs(c: Layout, stacks: seq<Access>, events: seq<Event>, i: nat, id: nat)
    requires i < |events|
  {
    && |stacks| == 2 * |events| && stacks[2 * i].Upload? && stacks[2 * i].words == events[i].stack
    && stacks[2 * i + 1] == StackOffset(id, BitAnd(stacks[2 * i].address, c.offsetMask))
  }

  lemma UploadIds(c: Layout, events: seq<Event>, i: nat)
    requires i < |events| && WholePlan(c, events).1 == None
    ensures UploadedAs(c, WholePlan(c, events).0, events, i, c.immediateId + 1 + i)
    ensures c.immediateId + 1 + i < c.stackCount
  {
    var first := c.immediateId + 1;
    var n := SetupGoes(c, events, first, c.reserved + 1);
    assert StackAt(c, events, first, c.reserved + 1, WholePlan(c, events).0, i);
  }

  lemma SmallId(id: nat, i: nat)
    requires id + i < U8
    ensures IdAfter(id, i) == id + i
  {
  }

  lemma TriggerIds(c: Layout, events: seq<Event>, i: nat, triggers: seq<Access>)
    requires OfThisController(events) && i < |events| && c.immediateId + 1 + i < U8
    requires TriggerPlan(c, events, c.immediateId + 1, 0) == (triggers, None)
    ensures |triggers| == |events| && triggers[i] == StackTrigger(c.immediateId + 1 + i, TriggerValue(c, events[i]))
  {
    var first := c.immediateId + 1;
    var m := TriggersInOrder(c, events, first, 0);
    assert TriggerAt(c, events, first, triggers, i);
    SmallId(first, i);
  }

  lemma {:induction false} TimerIds(c: Layout, u: Units, choices: seq<seq<UnitAddress>>, events: seq<Event>, i: nat)
    requires Sized(u, |choices|) && c.timerCount <= |choices|
    requires i < |events| && events[i].trigger == Periodic && c.immediateId + 1 + i < U8
    requires TriggerPlan(c, events, c.immediateId + 1, 0).1 == None
    ensures var r := Updated(u, c, choices, events, c.immediateId + 1, 0);
            r.Some? && UnitFor(u, r.value, choices, Periodics(events, i), events[i], c.immediateId + 1 + i)
  {
    var first := c.immediateId + 1;
    TriggersSucceedIff(c, events, first, 0);
    TimersInOrder(u, c, choices, events, first, 0);
    var r := Updated(u, c, choices, events, first, 0).value;
    assert Assigned(u, r, choices, events, first, 0, i);
  }

  /** The three setups number the stacks alike. If stack upload and triggers succeed, then so does
      the timer setup, and the i-th event's stack has been uploaded for the same stack id that its
      trigger is enabled for and, if it is periodic, that the stack start unit of its timer names. */
  lemma NumberingAgrees(c: Layout, u: Units, choices: seq<seq<UnitAddress>>, events: seq<Event>,
                        i: nat) returns (id: nat)
    requires Valid(c) && OfThisController(events) && i < |events|
    requires Sized(u, |choices|) && c.timerCount <= |choices|
    requires WholePlan(c, events).1 == None
    requires TriggerPlan(c, events, c.immediateId + 1, 0).1 == None
    ensures UploadedAs(c, WholePlan(c, events).0, events, i, id)
    ensures var triggers := TriggerPlan(c, events, c.immediateId + 1, 0).0;
            |triggers| == |events| && triggers[i] == StackTrigger(id, TriggerValue(c, events[i]))
    ensures events[i].trigger == Periodic ==>
              var r := Updated(u, c, choices, events, c.immediateId + 1, 0);
              r.Some? && UnitFor(u, r.value, choices, Periodics(events, i), events[i], id)
  {
    id := c.immediateId + 1 + i;
    UploadIds(c, events, i);
    TriggerIds(c, events, i, TriggerPlan(c, events, c.immediateId + 1, 0).0);
    if events[i].trigger == Periodic {
      TimerIds(c, u, choices, events, i);
    }
  }
}
