/** The trigger I/O configuration of an MVLC controller: one timer and one stack start unit for each
    periodic event. */
module TriggerIo {
  import opened Wrappers
  import opened StackSetup

  datatype UnitAddress = UnitAddress(level: nat, unit: nat)

  datatype Timer = Timer(range: nat, delay: nat, period: nat, softActivate: bool)

  datatype StackStart = StackStart(activate: bool, stackIndex: nat, delay: nat)

  /** The value of a configuration. `connections` are the first inputs of the stack start units. */
  datatype Units = Units(
    timers: seq<Timer>,
    timerNames: seq<string>,
    starts: seq<StackStart>,
    startNames: seq<string>,
    connections: seq<nat>)

  ghost predicate Sized(u: Units, n: nat) {
    && |u.timers| == n && |u.timerNames| == n && |u.starts| == n && |u.startNames| == n && |u.connections| == n
  }

  /** std::find: the length of the list if there is no such element. */
  function Find(choices: seq<UnitAddress>, a: UnitAddress): (i: nat)
    ensures i <= |choices| && a !in choices[..i]
    ensures i < |choices| ==> choices[i] == a
  {
    if choices == [] || choices[0] == a then 0 else 1 + Find(choices[1..], a)
  }

  class Configuration {
    const timers: array<Timer>
    const timerNames: array<string>
    const starts: array<StackStart>
    const startNames: array<string>
    const connections: array<nat>
    const choices: seq<seq<UnitAddress>>       // what the inputs can be connected to

    constructor (u: Units, choices: seq<seq<UnitAddress>>)
      requires Sized(u, |choices|)
      ensures Valid() && this.choices == choices && Contents() == u
      ensures fresh(timers) && fresh(timerNames) && fresh(starts) && fresh(startNames) && fresh(connections)
    {
      timers := new Timer[|choices|](i requires 0 <= i < |u.timers| => u.timers[i]);
      timerNames := new string[|choices|](i requires 0 <= i < |u.timerNames| => u.timerNames[i]);
      starts := new StackStart[|choices|](i requires 0 <= i < |u.starts| => u.starts[i]);
      startNames := new string[|choices|](i requires 0 <= i < |u.startNames| => u.startNames[i]);
      connections := new nat[|choices|](i requires 0 <= i < |u.connections| => u.connections[i]);
      this.choices := choices;
    }

    ghost predicate Valid() {
      && timerNames != startNames
      && timers.Length == timerNames.Length == starts.Length == startNames.Length == connections.Length == |choices|
    }

    function Contents(): Units
      reads timers, timerNames, starts, startNames, connections
    {
      Units(timers[..], timerNames[..], starts[..], startNames[..], connections[..])
    }

    /** Sets up timer and stack start unit `k` for an event. */
    method Connect(k: nat, e: Event, stackId: nat)
      requires Valid() && k < |choices|
      modifies timers, timerNames, starts, startNames, connections
      ensures Contents() == Connected(old(Contents()), choices, k, e, stackId)
    {
      timers[k] := timers[k].(period := e.timerPeriod % U16, range := e.timerBase, softActivate := true);
      timerNames[k] := "t_" + e.name;
      starts[k] := starts[k].(activate := true, stackIndex := stackId);
      startNames[k] := "ss_" + e.name;
      connections[k] := Find(choices[k], UnitAddress(0, k));
    }

    /** Connects the periodic events to timers in their order; false if there are not enough, which
        makes the contents worthless, see UpdateTriggerIo. */
    method Update(c: Layout, events: seq<Event>) returns (ok: bool)
      requires Valid() && c.timerCount <= |choices|
      modifies timers, timerNames, starts, startNames, connections
      ensures var r := Updated(old(Contents()), c, choices, events, c.immediateId + 1, 0);
              ok == r.Some? && (ok ==> Contents() == r.value)
    {
      var stackId: nat := c.immediateId + 1;
      var timersInUse: nat := 0;
      ghost var r := Updated(Contents(), c, choices, events, stackId, timersInUse);
      assert events[0..] == events;
      for i := 0 to |events|
        invariant r == Updated(Contents(), c, choices, events[i..], stackId, timersInUse)
      {
        FirstEvent(Contents(), c, choices, events, i, stackId, timersInUse);
        if events[i].trigger == Periodic {
          if timersInUse >= c.timerCount {
            return false;
          }
          Connect(timersInUse, events[i], stackId);
          timersInUse := timersInUse + 1;
        }
        stackId := NextId(stackId);
      }
      ok := true;
    }
  }

  /** update_trigger_io(): from the configuration that the script describes to the updated one; an
      empty one if there are not enough timers. */
  method UpdateTriggerIo(c: Layout, events: seq<Event>, parsed: Units, choices: seq<seq<UnitAddress>>, empty: Units)
    returns (ioCfg: Units)
    requires Sized(parsed, |choices|) && c.timerCount <= |choices|
    ensures var r := Updated(parsed, c, choices, events, c.immediateId + 1, 0);
            ioCfg == if r.Some? then r.value else empty
  {
    var cfg := new Configuration(parsed, choices);
    var ok := cfg.Update(c, events);
    ioCfg := if ok then cfg.Contents() else empty;
  }

  function Connected(u: Units, choices: seq<seq<UnitAddress>>, k: nat, e: Event, stackId: nat): Units
    requires Sized(u, |choices|) && k < |choices|
  {
    Units(u.timers[k := u.timers[k].(period := e.timerPeriod % U16, range := e.timerBase, softActivate := true)],
          u.timerNames[k := "t_" + e.name],
          u.starts[k := u.starts[k].(activate := true, stackIndex := stackId)],
          u.startNames[k := "ss_" + e.name],
          u.connections[k := Find(choices[k], UnitAddress(0, k))])
  }

  function Updated(u: Units, c: Layout, choices: seq<seq<UnitAddress>>, events: seq<Event>, id: nat,
                   timers: nat): (r: Option<Units>)
    requires Sized(u, |choices|) && c.timerCount <= |choices|
    ensures r.Some? ==> Sized(r.value, |choices|)
    decreases |events|
  {
    if events == [] then Some(u)
    else if events[0].trigger != Periodic then Updated(u, c, choices, events[1..], NextId(id), timers)
    else if timers >= c.timerCount then None
    else Updated(Connected(u, choices, timers, events[0], id), c, choices, events[1..], NextId(id), timers + 1)
  }

  lemma FirstEvent(u: Units, c: Layout, choices: seq<seq<UnitAddress>>, events: seq<Event>, i: nat,
                   id: nat, timers: nat)
    requires Sized(u, |choices|) && c.timerCount <= |choices| && i < |events|
    ensures Updated(u, c, choices, events[i..], id, timers) ==
            if events[i].trigger != Periodic then Updated(u, c, choices, events[i + 1..], NextId(id), timers)
            else if timers >= c.timerCount then None
            else Updated(Connected(u, choices, timers, events[i], id), c, choices, events[i + 1..], NextId(id),
                  timers + 1)
  {
    assert events[i..][1..] == events[i + 1..];
  }
}
