/** Starting and stopping an application: hooks, modules, starters and transports come up in this order,
    any of them may fail, and what came up goes down in reverse. */
module Lifecycle {
  import opened Options

  datatype Hook = Hook(name: string, hasOnStart: bool, hasOnStop: bool)

  datatype Component =
    | HookUnit(hook: Hook)
    | ModuleUnit(id: nat)
    | StarterUnit(id: nat)
    | TransportUnit(id: nat)

  /** One start or stop of a component and whether it succeeded. A hook without a start
      (or stop) function counts as starting (or stopping) successfully. */
  datatype Event = Began(unit: Component, ok: bool) | Ended(unit: Component, ok: bool)

  // ---------- What a well-bracketed trace is ----------

  /** The components that are up after `trace`, in the order they came up; `None` once something
      is stopped that is not the last one up. */
  function Replay(trace: seq<Event>): Option<seq<Component>> {
    if trace == [] then Some([])
    else
      var before := Replay(trace[..|trace| - 1]);
      if before.None? then None
      else
        var live := before.value;
        match trace[|trace| - 1]
        case Began(u, ok) => Some(if ok then live + [u] else live)
        case Ended(u, _) => if live != [] && live[|live| - 1] == u then Some(live[..|live| - 1]) else None
  }

  /** A start that succeeds adds to the top. */
  lemma ReplayBegan(trace: seq<Event>, u: Component)
    ensures Replay([]) == Some([])
    ensures Replay(trace + [Began(u, false)]) == Replay(trace)
    ensures Replay(trace + [Began(u, true)])
            == if Replay(trace).None? then None else Some(Replay(trace).value + [u])
  {
    assert (trace + [Began(u, true)])[..|trace|] == trace && (trace + [Began(u, false)])[..|trace|] == trace;
  }

  /** Only what is at the top is ever stopped. */
  lemma ReplayEnded(trace: seq<Event>, u: Component, ok: bool, rest: seq<Component>)
    ensures Replay(trace + [Ended(u, ok)]) == Some(rest) <==> Replay(trace) == Some(rest + [u])
  {
    assert (trace + [Ended(u, ok)])[..|trace|] == trace && (rest + [u])[..|rest|] == rest;
    if Replay(trace).Some? && Replay(trace).value != [] {
      var live := Replay(trace).value;
      assert live == live[..|live| - 1] + [live[|live| - 1]];
    }
  }

  /** In a well-bracketed trace every stop undoes a successful start of the same component, and what is
      not stopped is up: with nothing up, each successful start has been stopped exactly once. */
  lemma {:induction false} StartsAreStops(trace: seq<Event>, u: Component)
    requires Replay(trace).Some?
    ensures var events := multiset(trace);
            events[Began(u, true)]
            == events[Ended(u, true)] + events[Ended(u, false)] + multiset(Replay(trace).value)[u]
  {
    if trace == [] {
    } else {
      var init, last := trace[..|trace| - 1], trace[|trace| - 1];
      StartsAreStops(init, u);
      assert multiset(trace) == multiset(init) + multiset{last} by { assert trace == init + [last]; }
      LiveNext(trace, u);
    }
  }

  /** How often `u` is up changes with its successful starts and its stops. */
  lemma LiveNext(trace: seq<Event>, u: Component)
    requires trace != [] && Replay(trace).Some?
    ensures var init, last := trace[..|trace| - 1], trace[|trace| - 1];
            && Replay(init).Some?
            && multiset(Replay(trace).value)[u] + (if last.Ended? && last.unit == u then 1 else 0)
               == multiset(Replay(init).value)[u] + if last == Began(u, true) then 1 else 0
  {
    var live := Replay(trace[..|trace| - 1]).value;
    match trace[|trace| - 1]
    case Began(v, ok) =>
    case Ended(v, ok) =>
      assert live == live[..|live| - 1] + [v];
  }

  lemma {:induction false} PrefixesReplay(trace: seq<Event>, k: nat)
    requires Replay(trace).Some? && k <= |trace|
    ensures Replay(trace[..k]).Some?
  {
    if k < |trace| {
      var init := trace[..|trace| - 1];
      PrefixesReplay(init, k);
      assert init[..k] == trace[..k];
    } else {
      assert trace[..k] == trace;
    }
  }

  /** Whatever of `plan` is up, everything before it in `plan` is up too. */
  ghost predicate Downward(live: seq<Component>, plan: seq<Component>) {
    forall i, j :: 0 <= i < j < |plan| && plan[j] in live ==> plan[i] in live
  }

  /** At every moment the trace is well bracketed, `plan` is up from its front, and a transport is
      started, successfully or not, only when it is not up and everything before it in `plan` is. */
  ghost predicate Ordered(trace: seq<Event>, plan: seq<Component>) {
    && Replay(trace).Some? && Downward(Replay(trace).value, plan)
    && (trace != [] ==>
          var init, last := trace[..|trace| - 1], trace[|trace| - 1];
          && Ordered(init, plan)
          && (last.unit.TransportUnit? ==> last.unit in plan)
          && (last.Began? && last.unit.TransportUnit? ==> last.unit !in Replay(init).value)
          && (last.Began? ==> Downward(Replay(init).value + [last.unit], plan)))
  }

  lemma {:induction false} OrderedPrefix(trace: seq<Event>, plan: seq<Component>, k: nat)
    requires Ordered(trace, plan) && k <= |trace|
    ensures Ordered(trace[..k], plan)
  {
    if k < |trace| {
      var init := trace[..|trace| - 1];
      OrderedPrefix(init, plan, k);
      assert init[..k] == trace[..k];
    } else {
      assert trace[..k] == trace;
    }
  }

  /** A new transport may join the end of the plan at any time. */
  lemma {:induction false} OrderedExtends(trace: seq<Event>, plan: seq<Component>, t: Component)
    requires Ordered(trace, plan) && t.TransportUnit? && t !in plan
    ensures Ordered(trace, plan + [t]) && t !in Replay(trace).value
  {
    if trace == [] {
    } else {
      OrderedExtends(trace[..|trace| - 1], plan, t);
    }
  }

  /** No transport is up twice. */
  lemma {:induction false} TransportsAreUpOnce(trace: seq<Event>, plan: seq<Component>, t: Component)
    requires Ordered(trace, plan) && t.TransportUnit?
    ensures multiset(Replay(trace).value)[t] <= 1
  {
    if trace == [] {
    } else {
      TransportsAreUpOnce(trace[..|trace| - 1], plan, t);
      var live := Replay(trace[..|trace| - 1]).value;
      match trace[|trace| - 1]
      case Began(v, ok) =>
      case Ended(v, ok) => assert live == live[..|live| - 1] + [v];
    }
  }

  /** With the registry transport last in the plan, at every moment of a run: the instance is registered only
      while all other transports are up; registration is only attempted then; and while it is registered
      no other transport is stopped. */
  lemma RegisteredOnlyWhileServing(trace: seq<Event>, others: seq<Component>, registry: Component, k: nat)
    requires Ordered(trace, others + [registry]) && k < |trace|
    requires registry !in others && forall o | o in others :: o.TransportUnit?
    ensures Replay(trace[..k]).Some?
    ensures registry in Replay(trace[..k]).value ==> forall o | o in others :: o in Replay(trace[..k]).value
    ensures trace[k].Began? && trace[k].unit == registry ==> forall o | o in others :: o in Replay(trace[..k]).value
    ensures trace[k].Ended? && trace[k].unit in others ==> registry !in Replay(trace[..k]).value
  {
    var plan := others + [registry];
    OrderedPrefix(trace, plan, k);
    OrderedPrefix(trace, plan, k + 1);
    assert trace[..k + 1][..k] == trace[..k] && trace[..k + 1] == trace[..k] + [trace[k]];
    var live := Replay(trace[..k]).value;
    if registry in live {
      OthersAreUp(live, others, registry);
    } else if trace[k].Began? && trace[k].unit == registry {
      OthersAreUp(live + [registry], others, registry);
    }
    if trace[k].Ended? && trace[k].unit in others {
      NotStoppedWhileRegistered(trace[..k], trace[k], others, registry, live);
    }
  }

  lemma OthersAreUp(live: seq<Component>, others: seq<Component>, registry: Component)
    requires Downward(live, others + [registry]) && registry in live
    ensures forall o | o in others :: o in live
  {
    var plan := others + [registry];
    forall o | o in others ensures o in live {
      var i :| 0 <= i < |others| && others[i] == o;
      assert plan[i] == o && plan[|others|] == registry;
    }
  }

  lemma NotStoppedWhileRegistered(
    before: seq<Event>, stop: Event, others: seq<Component>, registry: Component, live: seq<Component>)
    requires Ordered(before + [stop], others + [registry]) && Replay(before) == Some(live)
    requires stop.Ended? && stop.unit in others && stop.unit.TransportUnit? && registry !in others
    ensures registry !in live
  {
    var plan, o := others + [registry], stop.unit;
    assert (before + [stop])[..|before|] == before;
    var after := live[..|live| - 1];
    assert live == after + [o];
    TransportsAreUpOnce(before, plan, o);
    assert o !in after;
    var i :| 0 <= i < |others| && others[i] == o;
    assert plan[i] == o && plan[|others|] == registry;
    assert registry !in after;
  }

  lemma BeganKeepsOrder(trace: seq<Event>, plan: seq<Component>, live: seq<Component>, unit: Component, ok: bool)
    requires Ordered(trace, plan) && Replay(trace) == Some(live) && Downward(live + [unit], plan)
    requires unit.TransportUnit? ==> unit in plan && unit !in live
    ensures Ordered(trace + [Began(unit, ok)], plan)
    ensures Replay(trace + [Began(unit, ok)]) == Some(if ok then live + [unit] else live)
  {
    assert (trace + [Began(unit, ok)])[..|trace|] == trace;
  }

  lemma EndedKeepsOrder(trace: seq<Event>, plan: seq<Component>, live: seq<Component>, unit: Component, ok: bool)
    requires Ordered(trace, plan) && Replay(trace) == Some(live + [unit]) && Downward(live, plan)
    requires unit.TransportUnit? ==> unit in plan
    ensures Ordered(trace + [Ended(unit, ok)], plan)
    ensures Replay(trace + [Ended(unit, ok)]) == Some(live)
  {
    assert (trace + [Ended(unit, ok)])[..|trace|] == trace;
    assert (live + [unit])[..|live|] == live;
  }

  // ---------- The components ----------

  /** Whether a starter's condition failed, its initialization did, or it is active. */
  datatype Verdict = Skipped(id: nat) | InitFailed(id: nat) | Active(id: nat)

  /** What became of the starters that were considered. */
  class Outcomes {
    var verdicts: seq<Verdict>

    constructor ()
      ensures verdicts == []
    {
      verdicts := [];
    }

    /** Evaluates a starter's condition and, when it holds, initializes the starter. */
    method Consider(id: nat) returns (verdict: Verdict)
      modifies this
      ensures verdict.id == id && verdicts == old(verdicts) + [verdict]
    {
      verdict := Active(id);
      if * {
        verdict := Skipped(id);
      } else if * {
        verdict := InitFailed(id);
      }
      verdicts := verdicts + [verdict];
    }
  }

  /** Everything that is started and stopped, with its outcomes left open, and the trace of it.
      Starting the registry transport registers the instance, stopping it deregisters. */
  class World {
    const registry: Option<Component>
    var trace: seq<Event>
    var registered: bool
    var registrations: nat
    var deregistrations: nat

    constructor (registry: Option<Component>)
      ensures Holds([], []) && trace == [] && this.registry == registry
    {
      this.registry := registry;
      trace, registered, registrations, deregistrations := [], false, 0, 0;
    }

    /** `live` is up, and the instance is registered exactly while the registry transport is up. */
    ghost predicate Holds(plan: seq<Component>, live: seq<Component>)
      reads this
    {
      && Ordered(trace, plan) && Replay(trace) == Some(live)
      && (registered <==> registry.Some? && registry.value in live)
      && registrations == deregistrations + if registered then 1 else 0
    }

    method Begin(unit: Component, ghost plan: seq<Component>, ghost live: seq<Component>) returns (ok: bool)
      requires Holds(plan, live) && Downward(live + [unit], plan)
      requires unit.TransportUnit? ==> unit in plan && unit !in live
      requires registry == Some(unit) ==> unit !in live
      modifies this
      ensures unit.HookUnit? && !unit.hook.hasOnStart ==> ok
      ensures trace == old(trace) + [Began(unit, ok)]
      ensures registrations == old(registrations) + if registry == Some(unit) && ok then 1 else 0
      ensures deregistrations == old(deregistrations)
      ensures Holds(plan, if ok then live + [unit] else live)
    {
      ok := *;
      if unit.HookUnit? && !unit.hook.hasOnStart {
        ok := true;
      }
      if registry == Some(unit) && ok {
        registered, registrations := true, registrations + 1;
      }
      BeganKeepsOrder(trace, plan, live, unit, ok);
      trace := trace + [Began(unit, ok)];
    }

    method End(unit: Component, ghost plan: seq<Component>, ghost live: seq<Component>) returns (ok: bool)
      requires Holds(plan, live + [unit]) && Downward(live, plan)
      requires unit.TransportUnit? ==> unit in plan
      requires registry == Some(unit) ==> unit !in live
      modifies this
      ensures unit.HookUnit? && !unit.hook.hasOnStop ==> ok
      ensures trace == old(trace) + [Ended(unit, ok)]
      ensures deregistrations == old(deregistrations) + if registry == Some(unit) then 1 else 0
      ensures registrations == old(registrations)
      ensures Holds(plan, live)
    {
      ok := *;
      if unit.HookUnit? && !unit.hook.hasOnStop {
        ok := true;
      }
      if registry == Some(unit) && registered {
        registered, deregistrations := false, deregistrations + 1;
      }
      EndedKeepsOrder(trace, plan, live, unit, ok);
      trace := trace + [Ended(unit, ok)];
    }
  }

  /** The stops that failed, in the order they were made. */
  function Failures(events: seq<Event>): seq<Component> {
    if events == [] then []
    else
      var e := events[|events| - 1];
      Failures(events[..|events| - 1]) + if e.Ended? && !e.ok then [e.unit] else []
  }

  lemma FailuresMean(u: Component, ok: bool)
    ensures Failures([]) == Failures([Began(u, ok)]) == []
    ensures Failures([Ended(u, ok)]) == if ok then [] else [u]
  {
    var began, ended := [Began(u, ok)], [Ended(u, ok)];
    assert began[..0] == ended[..0] == [];
  }

  function Units(hooks: seq<Hook>): seq<Component> {
    seq(|hooks|, i requires 0 <= i < |hooks| => HookUnit(hooks[i]))
  }

  lemma {:induction false} FailuresConcat(a: seq<Event>, b: seq<Event>)
    ensures Failures(a + b) == Failures(a) + Failures(b)
    decreases |b|
  {
    if b == [] {
      assert a + b == a;
    } else {
      assert (a + b)[..|a + b| - 1] == a + b[..|b| - 1];
      FailuresConcat(a, b[..|b| - 1]);
    }
  }

  /** `units`, on top of `base`, can be started from the bottom and stopped from the top
      with the plan up from its front all along. */
  ghost predicate Stackable(
    base: seq<Component>, units: seq<Component>, plan: seq<Component>, registry: Option<Component>) {
    && (forall u | u in units && u.TransportUnit? :: u in plan)
    && (forall k :: 0 <= k <= |units| ==> Downward(base + units[..k], plan))
    && (forall k :: 0 <= k < |units| && registry == Some(units[k]) ==> units[k] !in base + units[..k])
  }

  /** The trace of stopping `units` from the top, with these outcomes. */
  ghost predicate StopsInReverse(events: seq<Event>, units: seq<Component>) {
    && |events| == |units|
    && forall i :: 0 <= i < |events| ==> events[i].Ended? && events[i].unit == units[|units| - 1 - i]
  }

  lemma StopsNext(events: seq<Event>, units: seq<Component>, i: nat, ok: bool)
    requires i < |units| && StopsInReverse(events, units[i + 1..])
    ensures StopsInReverse(events + [Ended(units[i], ok)], units[i..])
    ensures Failures(events + [Ended(units[i], ok)]) == Failures(events) + if ok then [] else [units[i]]
  {
    assert (events + [Ended(units[i], ok)])[..|events|] == events;
  }

  lemma StackedAt(
    base: seq<Component>, units: seq<Component>, plan: seq<Component>, registry: Option<Component>, i: nat)
    requires Stackable(base, units, plan, registry) && i < |units|
    ensures base + units[..i + 1] == base + units[..i] + [units[i]] && Downward(base + units[..i], plan)
    ensures units[i].TransportUnit? ==> units[i] in plan
    ensures registry == Some(units[i]) ==> units[i] !in base + units[..i]
  {
  }

  /** The reverse loop of every stop: each unit is stopped, whatever became of the others. */
  method StopAll(world: World, units: seq<Component>, ghost plan: seq<Component>, ghost base: seq<Component>)
    returns (errors: seq<Component>, ghost events: seq<Event>)
    requires world.Holds(plan, base + units) && Stackable(base, units, plan, world.registry)
    modifies world
    ensures world.Holds(plan, base)
    ensures world.trace == old(world.trace) + events && StopsInReverse(events, units)
    ensures errors == Failures(events)
  {
    errors, events := [], [];
    assert units[..|units|] == units;
    var i := |units|;
    while i > 0
      invariant 0 <= i <= |units| && world.Holds(plan, base + units[..i])
      invariant world.trace == old(world.trace) + events && StopsInReverse(events, units[i..])
      invariant errors == Failures(events)
    {
      i := i - 1;
      var unit := units[i];
      StackedAt(base, units, plan, world.registry, i);
      var ok := world.End(unit, plan, base + units[..i]);
      StopsNext(events, units, i, ok);
      events := events + [Ended(unit, ok)];
      if !ok {
        errors := errors + [units[i]];
      }
    }
    assert base + units[..0] == base && units[0..] == units;
  }

  /** Stopping what is on top, then what is below, is stopping both in reverse. */
  lemma StopsJoin(e: seq<Event>, top: seq<Component>, d: seq<Event>, below: seq<Component>)
    requires StopsInReverse(e, top) && StopsInReverse(d, below)
    ensures StopsInReverse(e + d, below + top)
    ensures Failures(e + d) == Failures(e) + Failures(d)
  {
    FailuresConcat(e, d);
  }

  /** Goes on stopping: `above` has been stopped since `trace` with the given `events`, now `units` are. */
  method StopMore(world: World, units: seq<Component>, failed: seq<Component>, ghost plan: seq<Component>,
                  ghost base: seq<Component>, ghost trace: seq<Event>, ghost events: seq<Event>,
                  ghost above: seq<Component>)
    returns (errors: seq<Component>, ghost all: seq<Event>)
    requires world.Holds(plan, base + units) && Stackable(base, units, plan, world.registry)
    requires world.trace == trace + events && StopsInReverse(events, above) && failed == Failures(events)
    modifies world
    ensures world.Holds(plan, base)
    ensures world.trace == trace + all && StopsInReverse(all, units + above) && errors == Failures(all)
  {
    ghost var more;
    errors, more := StopAll(world, units, plan, base);
    StopsJoin(events, above, more, units);
    assert trace + events + more == trace + (events + more);
    errors, all := failed + errors, events + more;
  }

  ghost predicate AllTransports(plan: seq<Component>) {
    && (forall u | u in plan :: u.TransportUnit?)
    && forall i, j :: 0 <= i < j < |plan| ==> plan[i] != plan[j]
  }

  ghost predicate NoTransports(units: seq<Component>) {
    forall u | u in units :: !u.TransportUnit?
  }

  /** Below the transports any order will do. */
  lemma NoTransportsStack(
    base: seq<Component>, units: seq<Component>, plan: seq<Component>, registry: Option<Component>)
    requires AllTransports(plan) && NoTransports(base) && NoTransports(units)
    requires registry.Some? ==> registry.value.TransportUnit?
    ensures Downward(base + units, plan) && Stackable(base, units, plan, registry)
  {
  }

  /** The transports are up from the front of the plan. */
  lemma TransportsStack(base: seq<Component>, plan: seq<Component>, n: nat, registry: Option<Component>)
    requires AllTransports(plan) && NoTransports(base) && n <= |plan|
    ensures Downward(base + plan[..n], plan) && Stackable(base, plan[..n], plan, registry)
  {
    forall k | 0 <= k <= n ensures Downward(base + plan[..n][..k], plan) {
      assert plan[..n][..k] == plan[..k];
      forall i, j | 0 <= i < j < |plan| && plan[j] in base + plan[..k] ensures plan[i] in base + plan[..k] {
        assert plan[j] in plan;
        var m :| 0 <= m < k && plan[m] == plan[j];
        assert plan[..k][i] == plan[i];
      }
    }
    forall k | 0 <= k < n ensures plan[..n][k] !in base + plan[..n][..k] {
      assert plan[..n][k] == plan[k] && plan[k] in plan;
      assert plan[..n][..k] == plan[..k];
    }
    assert plan[..n][..n] == plan[..n];
  }

  lemma NextTransportStack(lower: seq<Component>, plan: seq<Component>, k: nat, registry: Option<Component>)
    requires AllTransports(plan) && NoTransports(lower) && k < |plan|
    ensures plan[..k + 1] == plan[..k] + [plan[k]]
    ensures lower + plan[..k] + [plan[k]] == lower + (plan[..k] + [plan[k]])
    ensures Downward(lower + plan[..k] + [plan[k]], plan) && plan[k] in plan && plan[k] !in lower + plan[..k]
  {
    TransportsStack(lower, plan, k + 1, registry);
    assert lower + plan[..k + 1] == lower + plan[..k] + [plan[k]];
  }

  lemma NextOf(units: seq<Component>, k: nat)
    requires k < |units|
    ensures units[..k + 1] == units[..k] + [units[k]] <= units
  {
  }

  lemma AllOf(units: seq<Component>)
    ensures units[..|units|] == units
  {
  }

  // ---------- Traces of a start ----------

  function Begins(units: seq<Component>): seq<Event> {
    seq(|units|, i requires 0 <= i < |units| => Began(units[i], true))
  }

  /** The event of the component that failed to start, if one did. */
  function Fall(failed: Option<Component>): seq<Event> {
    if failed.Some? then [Began(failed.value, false)] else []
  }

  function Tried(failed: Option<Component>): seq<Component> {
    if failed.Some? then [failed.value] else []
  }

  /** `came` came up first, then `failed` did not, if anything failed; otherwise all of `planned` is up. */
  ghost predicate Climbed(came: seq<Component>, failed: Option<Component>, planned: seq<Component>) {
    came + Tried(failed) <= planned && (failed.None? ==> came == planned)
  }

  lemma BeginsNext(trace: seq<Event>, live: seq<Component>, unit: Component)
    ensures trace + Begins(live) + [Began(unit, true)] == trace + Begins(live + [unit])
    ensures Fall(None) == [] && trace + Begins(live) + Fall(None) == trace + Begins(live)
  {
    assert Begins(live + [unit]) == Begins(live) + [Began(unit, true)];
  }

  lemma NothingBegan(trace: seq<Event>)
    ensures trace + Begins([]) == trace && Units([]) == []
  {
  }

  lemma UnitsNext(hooks: seq<Hook>, k: nat)
    requires k < |hooks|
    ensures hooks[..k + 1] == hooks[..k] + [hooks[k]]
    ensures Units(hooks[..k] + [hooks[k]]) == Units(hooks[..k]) + [HookUnit(hooks[k])] <= Units(hooks)
  {
  }

  /** All of `base` came up, then as much of `planned` as `came`. */
  lemma ClimbedOn(trace: seq<Event>, base: seq<Component>, came: seq<Component>, failed: Option<Component>,
                  planned: seq<Component>)
    requires Climbed(came, failed, planned)
    ensures trace + Begins(base) + Fall(None) + Begins(came) + Fall(failed)
            == trace + Begins(base + came) + Fall(failed)
    ensures Climbed(base + came, failed, base + planned)
  {
    assert Begins(base + came) == Begins(base) + Begins(came);
    assert base + came + Tried(failed) == base + (came + Tried(failed));
  }

  /** What failed below keeps the rest down. */
  lemma ClimbedBelow(came: seq<Component>, failed: Option<Component>, planned: seq<Component>, more: seq<Component>)
    requires Climbed(came, failed, planned) && failed.Some?
    ensures Climbed(came, failed, planned + more)
  {
  }

  // ---------- Hooks ----------

  class Manager {
    var hooks: seq<Hook>
    var started: seq<Hook>

    constructor ()
      ensures hooks == [] && started == []
    {
      hooks, started := [], [];
    }

    method Append(more: seq<Hook>)
      modifies this`hooks
      ensures hooks == old(hooks) + more
    {
      hooks := hooks + more;
    }

    /** Starts the hooks in order, up to the first that fails. */
    method Start(world: World, ghost plan: seq<Component>) returns (ok: bool, ghost failed: Option<Component>)
      requires AllTransports(plan) && started == [] && world.Holds(plan, Units(started))
      requires world.registry.Some? ==> world.registry.value.TransportUnit?
      modifies this`started, world
      ensures world.Holds(plan, Units(started))
      ensures world.trace == old(world.trace) + Begins(Units(started)) + Fall(failed)
      ensures Climbed(Units(started), failed, Units(hooks)) && (ok <==> failed.None?)
      ensures ok ==> started == hooks
    {
      failed := None;
      ghost var trace := world.trace;
      NothingBegan(trace);
      for k := 0 to |hooks|
        invariant world.Holds(plan, Units(started)) && started == hooks[..k]
        invariant world.trace == trace + Begins(Units(started))
      {
        var hook := hooks[k];
        UnitsNext(hooks, k);
        NoTransportsStack(Units(started), [HookUnit(hook)], plan, world.registry);
        BeginsNext(trace, Units(started), HookUnit(hook));
        ok := world.Begin(HookUnit(hook), plan, Units(started));
        if !ok {
          failed := Some(HookUnit(hook));
          return false, failed;
        }
        started := started + [hook];
      }
      assert hooks[..|hooks|] == hooks;
      BeginsNext(trace, Units(started), HookUnit(Hook("", false, false)));
      ok := true;
    }

    method Stop(world: World, ghost plan: seq<Component>) returns (errors: seq<Component>, ghost events: seq<Event>)
      requires AllTransports(plan) && world.Holds(plan, Units(started))
      requires world.registry.Some? ==> world.registry.value.TransportUnit?
      modifies this`started, world
      ensures started == [] && world.Holds(plan, [])
      ensures world.trace == old(world.trace) + events && StopsInReverse(events, Units(old(started)))
      ensures errors == Failures(events)
    {
      NoTransportsStack([], Units(started), plan, world.registry);
      assert [] + Units(started) == Units(started);
      errors, events := StopAll(world, Units(started), plan, []);
      started := [];
    }
  }

  // ---------- The application ----------

  /** The modules that are not nil. */
  function Present(modules: seq<Option<nat>>): seq<Component> {
    if modules == [] then []
    else
      var m := modules[|modules| - 1];
      Present(modules[..|modules| - 1]) + if m.Some? then [ModuleUnit(m.value)] else []
  }

  /** Each module that is not nil, in its place. */
  lemma {:induction false} PresentMeans(a: seq<Option<nat>>, b: seq<Option<nat>>, id: nat)
    ensures Present(a + b) == Present(a) + Present(b)
    ensures Present([None]) == [] && Present([Some(id)]) == [ModuleUnit(id)]
    decreases |b|
  {
    var none: seq<Option<nat>>, some: seq<Option<nat>> := [None], [Some(id)];
    assert none[..0] == some[..0] == [];
    if b == [] {
      assert a + b == a;
    } else {
      assert (a + b)[..|a + b| - 1] == a + b[..|b| - 1];
      PresentMeans(a, b[..|b| - 1], id);
    }
  }

  lemma PresentNext(modules: seq<Option<nat>>, k: nat)
    requires k < |modules|
    ensures Present(modules[..k + 1])
            == Present(modules[..k]) + if modules[k].Some? then [ModuleUnit(modules[k].value)] else []
  {
    assert modules[..k + 1][..k] == modules[..k];
  }

  lemma {:induction false} PresentPrefix(modules: seq<Option<nat>>, k: nat)
    requires k <= |modules|
    ensures Present(modules[..k]) <= Present(modules)
    decreases |modules| - k
  {
    if k == |modules| {
      assert modules[..k] == modules;
    } else {
      PresentNext(modules, k);
      PresentPrefix(modules, k + 1);
    }
  }

  /** The starters that are not nil. */
  function Given(starters: seq<Option<nat>>): seq<nat> {
    if starters == [] then []
    else
      var s := starters[|starters| - 1];
      Given(starters[..|starters| - 1]) + if s.Some? then [s.value] else []
  }

  /** Each starter that is not nil, in its place. */
  lemma {:induction false} GivenMeans(a: seq<Option<nat>>, b: seq<Option<nat>>, id: nat)
    ensures Given(a + b) == Given(a) + Given(b)
    ensures Given([None]) == [] && Given([Some(id)]) == [id]
    decreases |b|
  {
    var none: seq<Option<nat>>, some: seq<Option<nat>> := [None], [Some(id)];
    assert none[..0] == some[..0] == [];
    if b == [] {
      assert a + b == a;
    } else {
      assert (a + b)[..|a + b| - 1] == a + b[..|b| - 1];
      GivenMeans(a, b[..|b| - 1], id);
    }
  }

  lemma GivenNext(starters: seq<Option<nat>>, k: nat)
    requires k < |starters|
    ensures Given(starters[..k + 1]) == Given(starters[..k]) + if starters[k].Some? then [starters[k].value] else []
  {
    assert starters[..k + 1][..k] == starters[..k];
  }

  lemma {:induction false} GivenPrefix(starters: seq<Option<nat>>, k: nat)
    requires k <= |starters|
    ensures Given(starters[..k]) <= Given(starters)
    decreases |starters| - k
  {
    if k == |starters| {
      assert starters[..k] == starters;
    } else {
      GivenNext(starters, k);
      GivenPrefix(starters, k + 1);
    }
  }

  function Ids(verdicts: seq<Verdict>): seq<nat> {
    seq(|verdicts|, i requires 0 <= i < |verdicts| => verdicts[i].id)
  }

  function ActiveOf(verdicts: seq<Verdict>): seq<Component> {
    if verdicts == [] then []
    else
      var v := verdicts[|verdicts| - 1];
      ActiveOf(verdicts[..|verdicts| - 1]) + if v.Active? then [StarterUnit(v.id)] else []
  }

  /** Each starter whose condition held and which was initialized, in its place. */
  lemma {:induction false} ActiveMeans(a: seq<Verdict>, b: seq<Verdict>, id: nat)
    ensures ActiveOf(a + b) == ActiveOf(a) + ActiveOf(b)
    ensures ActiveOf([Skipped(id)]) == ActiveOf([InitFailed(id)]) == [] && ActiveOf([Active(id)]) == [StarterUnit(id)]
    decreases |b|
  {
    var skipped, unfit, active := [Skipped(id)], [InitFailed(id)], [Active(id)];
    assert skipped[..0] == unfit[..0] == active[..0] == [];
    if b == [] {
      assert a + b == a;
    } else {
      assert (a + b)[..|a + b| - 1] == a + b[..|b| - 1];
      ActiveMeans(a, b[..|b| - 1], id);
    }
  }

  /** One element each, in order. */
  lemma ListsMean(hooks: seq<Hook>, units: seq<Component>, verdicts: seq<Verdict>, u: Component)
    ensures |Units(hooks)| == |hooks| && |Begins(units)| == |units| && |Ids(verdicts)| == |verdicts|
    ensures forall i :: 0 <= i < |hooks| ==> Units(hooks)[i] == HookUnit(hooks[i])
    ensures forall i :: 0 <= i < |units| ==> Begins(units)[i] == Began(units[i], true)
    ensures forall i :: 0 <= i < |verdicts| ==> Ids(verdicts)[i] == verdicts[i].id
    ensures Fall(None) == [] && Fall(Some(u)) == [Began(u, false)] && Tried(None) == [] && Tried(Some(u)) == [u]
  {
  }

  lemma VerdictsNext(before: seq<Verdict>, verdicts: seq<Verdict>, v: Verdict)
    ensures before + verdicts + [v] == before + (verdicts + [v])
    ensures Ids(verdicts + [v]) == Ids(verdicts) + [v.id]
    ensures ActiveOf(verdicts + [v]) == ActiveOf(verdicts) + if v.Active? then [StarterUnit(v.id)] else []
  {
    assert (verdicts + [v])[..|verdicts|] == verdicts;
  }

  lemma NothingToAdd(trace: seq<Event>, came: seq<Component>, failed: Option<Component>)
    ensures trace + Begins([]) + Fall(None) == trace && [] + Tried(None) == []
    ensures trace + Begins(came) + Fall(failed) + [] == trace + Begins(came) + Fall(failed)
  {
  }

  lemma {:induction false} ActiveAreStarters(verdicts: seq<Verdict>)
    ensures NoTransports(ActiveOf(verdicts))
  {
    if verdicts == [] {
    } else {
      ActiveAreStarters(verdicts[..|verdicts| - 1]);
    }
  }

  lemma StopsFollow(trace: seq<Event>, events: seq<Event>, more: seq<Event>, a: seq<Component>, b: seq<Component>,
                    c: seq<Component>, d: seq<Component>)
    ensures trace + events + more == trace + (events + more) && a + (b + c + d) == (a + b) + (c + d)
  {
  }

  class App {
    const world: World
    const manager: Manager
    const outcomes: Outcomes
    const disabled: bool
    /** Whether the configuration passes validation. */
    const validConfig: bool
    var modules: seq<Option<nat>>
    var starters: seq<Option<nat>>
    var transports: seq<Component>
    var activeStarters: seq<Component>
    var startedModules: seq<Component>
    var startedStarters: seq<Component>
    var startedTransports: seq<Component>
    var started: bool

    ghost function Lower(): seq<Component>
      reads this, manager
    {
      Units(manager.started) + startedModules + startedStarters
    }

    /** What is up, according to the lists of the application. */
    ghost function Live(): seq<Component>
      reads this, manager
    {
      Lower() + startedTransports
    }

    ghost predicate WellFormed()
      reads this
    {
      AllTransports(transports) && (world.registry.Some? ==> world.registry.value.TransportUnit?)
    }

    /** The lists tell what is up. */
    ghost predicate Up()
      reads this, manager, world
    {
      && WellFormed()
      && NoTransports(startedModules) && NoTransports(startedStarters) && NoTransports(activeStarters)
      && startedTransports <= transports
      && world.Holds(transports, Live())
    }

    /** An application that is not started has nothing up, whatever its lists still hold. */
    ghost predicate Valid()
      reads this, manager, world
    {
      WellFormed() && if started then Up() else manager.started == [] && world.Holds(transports, [])
    }

    constructor (registry: Option<Component>, disabled: bool, validConfig: bool)
      requires registry.Some? ==> registry.value.TransportUnit?
      ensures Valid() && !started && fresh(world) && fresh(manager) && fresh(outcomes)
      ensures world.trace == [] && world.registry == registry && transports == []
      ensures this.disabled == disabled && this.validConfig == validConfig
    {
      world := new World(registry);
      manager := new Manager();
      outcomes := new Outcomes();
      this.disabled, this.validConfig := disabled, validConfig;
      modules, starters, transports := [], [], [];
      activeStarters, startedModules, startedStarters, startedTransports := [], [], [], [];
      started := false;
    }

    method RegisterModule(m: Option<nat>)
      requires Valid()
      modifies this`modules
      ensures Valid() && modules == old(modules) + [m]
    {
      modules := modules + [m];
    }

    method RegisterStarter(s: Option<nat>)
      requires Valid()
      modifies this`starters
      ensures Valid() && starters == old(starters) + [s]
    {
      starters := starters + [s];
    }

    method RegisterHooks(hooks: seq<Hook>)
      requires Valid()
      modifies manager`hooks
      ensures Valid() && manager.hooks == old(manager.hooks) + hooks
    {
      manager.Append(hooks);
    }

    /** A transport that is already there is not added again. */
    method AddTransport(id: nat)
      requires Valid()
      modifies this`transports
      ensures Valid()
      ensures transports == if TransportUnit(id) in old(transports) then old(transports)
              else old(transports) + [TransportUnit(id)]
    {
      var t := TransportUnit(id);
      if t in transports {
        return;
      }
      OrderedExtends(world.trace, transports, t);
      transports := transports + [t];
    }

    method ResetStarted()
      modifies this`activeStarters, this`startedModules, this`startedStarters, this`startedTransports
      ensures activeStarters == [] && startedModules == [] && startedStarters == [] && startedTransports == []
    {
      activeStarters, startedModules, startedStarters, startedTransports := [], [], [], [];
    }

    /** Stops everything that is up, top to bottom. */
    method StopStarted() returns (errors: seq<Component>, ghost events: seq<Event>)
      requires Up()
      modifies manager`started, world
      ensures manager.started == [] && world.Holds(transports, [])
      ensures world.trace == old(world.trace) + events && StopsInReverse(events, old(Live()))
      ensures errors == Failures(events)
    {
      errors, events := StopUpper();
      ghost var upper := startedModules + startedStarters + startedTransports;
      var failed;
      ghost var more;
      failed, more := manager.Stop(world, transports);
      StopsJoin(events, upper, more, Units(old(manager.started)));
      LiveSplits();
      StopsFollow(old(world.trace), events, more, Units(old(manager.started)), startedModules, startedStarters,
        startedTransports);
      errors, events := errors + failed, events + more;
    }

    /** The transports, then the starters, then the modules. */
    method StopUpper() returns (errors: seq<Component>, ghost events: seq<Event>)
      requires Up()
      modifies world
      ensures world.Holds(transports, Units(manager.started))
      ensures world.trace == old(world.trace) + events
      ensures StopsInReverse(events, startedModules + startedStarters + startedTransports)
      ensures errors == Failures(events)
    {
      ghost var hooks, trace, plan := Units(manager.started), world.trace, transports;
      var modules', starters', transports' := startedModules, startedStarters, startedTransports;
      ghost var base := hooks + modules' + starters';
      TransportsStack(base, plan, |transports'|, world.registry);
      assert plan[..|transports'|] == transports';
      NoTransportsStack(hooks + modules', starters', plan, world.registry);
      NoTransportsStack(hooks, modules', plan, world.registry);
      errors, events := StopAll(world, transports', plan, base);
      errors, events := StopMore(world, starters', errors, plan, hooks + modules', trace, events, transports');
      errors, events := StopMore(world, modules', errors, plan, hooks, trace, events, starters' + transports');
      assert modules' + (starters' + transports') == modules' + starters' + transports';
    }

    /** Considers the starters that are not nil, in order, until an initialization fails. The ones whose condition holds
        become active. An initialization may register hooks. */
    method InitStarters() returns (ok: bool, ghost verdicts: seq<Verdict>)
      requires Valid() && !started && activeStarters == []
      modifies this`activeStarters, manager`hooks, outcomes
      ensures Valid() && NoTransports(activeStarters) && old(manager.hooks) <= manager.hooks
      ensures outcomes.verdicts == old(outcomes.verdicts) + verdicts && Ids(verdicts) <= Given(starters)
      ensures activeStarters == ActiveOf(verdicts)
      ensures ok ==> Ids(verdicts) == Given(starters) && forall v | v in verdicts :: !v.InitFailed?
      ensures !ok ==> verdicts != [] && verdicts[|verdicts| - 1].InitFailed?
    {
      ghost var before, hooks0 := outcomes.verdicts, manager.hooks;
      verdicts := [];
      ok := true;
      for k := 0 to |starters|
        invariant ok && hooks0 <= manager.hooks && activeStarters == ActiveOf(verdicts)
        invariant outcomes.verdicts == before + verdicts && Ids(verdicts) == Given(starters[..k])
        invariant forall v | v in verdicts :: !v.InitFailed?
      {
        GivenNext(starters, k);
        if starters[k].None? { continue; }
        var verdict := outcomes.Consider(starters[k].value);
        VerdictsNext(before, verdicts, verdict);
        verdicts := verdicts + [verdict];
        if verdict.Skipped? { continue; }
        var hooks: seq<Hook> := *;
        manager.Append(hooks);
        if verdict.InitFailed? {
          GivenPrefix(starters, k + 1);
          ok := false;
          break;
        }
        activeStarters := activeStarters + [StarterUnit(verdict.id)];
      }
      assert starters[..|starters|] == starters;
      ActiveAreStarters(verdicts);
    }

    /** A component may register hooks while it starts. */
    method MayRegisterHooks()
      requires Up()
      modifies manager`hooks
      ensures Up() && old(manager.hooks) <= manager.hooks
    {
      var hooks: seq<Hook> := *;
      manager.Append(hooks);
    }

    /** Begins one component on top of everything that is up. */
    method BeginOnTop(unit: Component) returns (ok: bool)
      requires Up() && startedTransports == [] && !unit.TransportUnit?
      modifies world
      ensures world.Holds(transports, if ok then Live() + [unit] else Live())
      ensures world.trace == old(world.trace) + [Began(unit, ok)]
    {
      NoTransportsStack(Live(), [unit], transports, world.registry);
      ok := world.Begin(unit, transports, Live());
    }

    method BeginModule(unit: Component, ghost trace: seq<Event>) returns (ok: bool)
      requires Up() && startedStarters == startedTransports == [] && unit.ModuleUnit?
      requires world.trace == trace + Begins(startedModules)
      modifies this`startedModules, manager`hooks, world
      ensures Up() && startedModules == old(startedModules) + if ok then [unit] else []
      ensures ok ==> world.trace == trace + Begins(startedModules)
      ensures !ok ==> world.trace == trace + Begins(startedModules) + Fall(Some(unit))
      ensures old(manager.hooks) <= manager.hooks
    {
      BeginsNext(trace, startedModules, unit);
      ok := BeginOnTop(unit);
      if ok {
        assert Live() + [unit] == Units(manager.started) + (startedModules + [unit]) + [] + [];
        startedModules := startedModules + [unit];
      }
      MayRegisterHooks();
    }

    /** Starts the modules that are not nil, up to the first that fails. */
    method StartModules() returns (ok: bool, ghost failed: Option<Component>)
      requires Up() && startedModules == startedStarters == startedTransports == []
      modifies this`startedModules, manager`hooks, world
      ensures Up() && world.trace == old(world.trace) + Begins(startedModules) + Fall(failed)
      ensures Climbed(startedModules, failed, Present(modules)) && (ok <==> failed.None?)
      ensures old(manager.hooks) <= manager.hooks
    {
      failed, ok := None, true;
      ghost var trace, hooks := world.trace, manager.hooks;
      NothingBegan(trace);
      for k := 0 to |modules|
        invariant ok && failed.None? && Up() && hooks <= manager.hooks
        invariant startedModules == Present(modules[..k]) && world.trace == trace + Begins(startedModules)
      {
        PresentNext(modules, k);
        if modules[k].None? { continue; }
        var unit := ModuleUnit(modules[k].value);
        ok := BeginModule(unit, trace);
        if !ok {
          failed := Some(unit);
          PresentPrefix(modules, k + 1);
          return;
        }
      }
      assert modules[..|modules|] == modules;
      BeginsNext(trace, startedModules, ModuleUnit(0));
    }

    /** Begins a starter on top of everything that is up. */
    method BeginNextStarter(unit: Component) returns (ok: bool)
      requires Up() && startedTransports == [] && !unit.TransportUnit?
      modifies this`startedStarters, world
      ensures Up() && startedStarters == old(startedStarters) + if ok then [unit] else []
      ensures world.trace == old(world.trace) + [Began(unit, ok)]
    {
      ok := BeginOnTop(unit);
      if ok {
        assert Live() + [unit] == Units(manager.started) + startedModules + (startedStarters + [unit]) + [];
        startedStarters := startedStarters + [unit];
      }
    }

    /** The first `k` active starters are up, and nothing else happened since `trace`. */
    ghost predicate AtStarter(k: nat, trace: seq<Event>, hooks: seq<Hook>)
      reads this, manager, world
      requires k <= |activeStarters|
    {
      && Up() && startedTransports == [] && startedStarters == activeStarters[..k] && hooks <= manager.hooks
      && world.trace == trace + Begins(startedStarters)
    }

    method BeginStarter(k: nat, ghost trace: seq<Event>, ghost hooks: seq<Hook>) returns (ok: bool)
      requires k < |activeStarters| && AtStarter(k, trace, hooks)
      modifies this`startedStarters, manager`hooks, world
      ensures Up() && startedTransports == [] && hooks <= manager.hooks
      ensures ok ==> AtStarter(k + 1, trace, hooks)
      ensures !ok ==> startedStarters == activeStarters[..k]
      ensures !ok ==> world.trace == trace + Begins(startedStarters) + Fall(Some(activeStarters[k]))
    {
      var unit := activeStarters[k];
      BeginsNext(trace, startedStarters, unit);
      NextOf(activeStarters, k);
      ok := BeginNextStarter(unit);
      MayRegisterHooks();
    }

    /** Starts the active starters, up to the first that fails. */
    method StartStarters() returns (ok: bool, ghost failed: Option<Component>)
      requires Up() && startedStarters == startedTransports == []
      modifies this`startedStarters, manager`hooks, world
      ensures Up() && startedTransports == []
      ensures world.trace == old(world.trace) + Begins(startedStarters) + Fall(failed)
      ensures Climbed(startedStarters, failed, activeStarters) && (ok <==> failed.None?)
      ensures old(manager.hooks) <= manager.hooks
    {
      failed, ok := None, true;
      ghost var trace, hooks := world.trace, manager.hooks;
      NothingBegan(trace);
      for k := 0 to |activeStarters|
        invariant ok && failed.None? && AtStarter(k, trace, hooks)
      {
        ok := BeginStarter(k, trace, hooks);
        if !ok {
          failed := Some(activeStarters[k]);
          NextOf(activeStarters, k);
          return;
        }
      }
      AllOf(activeStarters);
      BeginsNext(trace, startedStarters, StarterUnit(0));
    }

    /** Begins the next transport of the list on top of everything that is up. */
    method BeginNextTransport(ghost k: nat, unit: Component) returns (ok: bool)
      requires k < |transports| && unit == transports[k]
      requires Up() && startedTransports == transports[..k]
      modifies this`startedTransports, world
      ensures Up() && startedTransports == old(startedTransports) + if ok then [unit] else []
      ensures world.trace == old(world.trace) + [Began(unit, ok)]
    {
      NextTransportStack(Lower(), transports, k, world.registry);
      ok := world.Begin(unit, transports, Live());
      if ok {
        startedTransports := startedTransports + [unit];
      }
    }

    /** The first `k` transports are up, and nothing else happened since `trace`. */
    ghost predicate AtTransport(k: nat, trace: seq<Event>, hooks: seq<Hook>)
      reads this, manager, world
      requires k <= |transports|
    {
      && Up() && startedTransports == transports[..k] && hooks <= manager.hooks
      && world.trace == trace + Begins(startedTransports)
    }

    method BeginTransport(k: nat, ghost trace: seq<Event>, ghost hooks: seq<Hook>) returns (ok: bool)
      requires k < |transports| && AtTransport(k, trace, hooks)
      modifies this`startedTransports, manager`hooks, world
      ensures Up() && hooks <= manager.hooks
      ensures ok ==> AtTransport(k + 1, trace, hooks)
      ensures !ok ==> startedTransports == transports[..k]
      ensures !ok ==> world.trace == trace + Begins(startedTransports) + Fall(Some(transports[k]))
    {
      var unit := transports[k];
      BeginsNext(trace, startedTransports, unit);
      NextOf(transports, k);
      ok := BeginNextTransport(k, unit);
      MayRegisterHooks();
    }

    /** Starts the transports, up to the first that fails. */
    method StartTransports() returns (ok: bool, ghost failed: Option<Component>)
      requires Up() && startedTransports == []
      modifies this`startedTransports, manager`hooks, world
      ensures Up() && world.trace == old(world.trace) + Begins(startedTransports) + Fall(failed)
      ensures Climbed(startedTransports, failed, transports) && (ok <==> failed.None?)
      ensures old(manager.hooks) <= manager.hooks
    {
      failed, ok := None, true;
      ghost var trace, hooks := world.trace, manager.hooks;
      NothingBegan(trace);
      for k := 0 to |transports|
        invariant ok && failed.None? && AtTransport(k, trace, hooks)
      {
        ok := BeginTransport(k, trace, hooks);
        if !ok {
          failed := Some(transports[k]);
          NextOf(transports, k);
          return;
        }
      }
      AllOf(transports);
      BeginsNext(trace, startedTransports, TransportUnit(0));
    }

    /** What a start brings up, from the hooks registered when the hooks are started. */
    ghost function Planned(hooks: seq<Hook>): seq<Component>
      reads this
    {
      Units(hooks) + Present(modules) + activeStarters + transports
    }

    lemma LiveSplits()
      ensures Live() == (Units(manager.started) + startedModules) + (startedStarters + startedTransports)
      ensures forall hooks :: Planned(hooks) == (Units(hooks) + Present(modules)) + (activeStarters + transports)
    {
    }

    /** The hooks and the modules, up to the first failure. */
    method ClimbLower() returns (ok: bool, ghost failed: Option<Component>)
      requires Up() && manager.started == [] && startedModules == startedStarters == startedTransports == []
      modifies this`startedModules, manager, world
      ensures Up() && world.trace == old(world.trace) + Begins(Units(manager.started) + startedModules) + Fall(failed)
      ensures Climbed(Units(manager.started) + startedModules, failed, Units(old(manager.hooks)) + Present(modules))
      ensures (ok <==> failed.None?) && old(manager.hooks) <= manager.hooks
    {
      ghost var trace, hooks, middle := world.trace, Units(manager.hooks), Present(modules);
      LiveSplits();
      assert Live() == Units(manager.started);
      ok, failed := manager.Start(world, transports);
      ghost var base := Units(manager.started);
      assert Live() == base + startedModules == base;
      if ok {
        ok, failed := StartModules();
        ClimbedOn(trace, base, startedModules, failed, middle);
      } else {
        ClimbedBelow(base, failed, hooks, middle);
      }
    }

    /** The starters and the transports, up to the first failure. */
    method ClimbUpper() returns (ok: bool, ghost failed: Option<Component>)
      requires Up() && startedStarters == startedTransports == []
      modifies this`startedStarters, this`startedTransports, manager`hooks, world
      ensures Up() && world.trace == old(world.trace) + Begins(startedStarters + startedTransports) + Fall(failed)
      ensures Climbed(startedStarters + startedTransports, failed, activeStarters + transports)
      ensures (ok <==> failed.None?) && old(manager.hooks) <= manager.hooks
    {
      ghost var trace := world.trace;
      ok, failed := StartStarters();
      assert startedStarters + startedTransports == startedStarters;
      if ok {
        ok, failed := StartTransports();
        ClimbedOn(trace, startedStarters, startedTransports, failed, transports);
      } else {
        ClimbedBelow(startedStarters, failed, activeStarters, transports);
      }
    }

    /** The hooks, the modules, the active starters and the transports, up to the first failure. */
    method Climb() returns (ok: bool, ghost failed: Option<Component>)
      requires Up() && manager.started == [] && startedModules == startedStarters == startedTransports == []
      modifies this`startedModules, this`startedStarters, this`startedTransports, manager, world
      ensures Up() && world.trace == old(world.trace) + Begins(Live()) + Fall(failed)
      ensures Climbed(Live(), failed, Planned(old(manager.hooks)))
      ensures (ok <==> failed.None?) && old(manager.hooks) <= manager.hooks
    {
      ghost var trace, lower, upper := world.trace, Units(manager.hooks) + Present(modules),
        activeStarters + transports;
      ok, failed := ClimbLower();
      ghost var base := Units(manager.started) + startedModules;
      assert base + (startedStarters + startedTransports) == base;
      if ok {
        ok, failed := ClimbUpper();
        ClimbedOn(trace, base, startedStarters + startedTransports, failed, upper);
      } else {
        ClimbedBelow(base, failed, lower, upper);
      }
      LiveSplits();
    }

    /** Initializes the starters and brings everything up, or takes down again what came up. */
    method StartAll() returns (ok: bool, ghost hooks: seq<Hook>, ghost came: seq<Component>,
                               ghost failed: Option<Component>, ghost stops: seq<Event>, ghost verdicts: seq<Verdict>)
      requires Valid() && !started && Live() == [] && activeStarters == []
      modifies this`activeStarters, this`startedModules, this`startedStarters, this`startedTransports,
               manager, world, outcomes
      ensures WellFormed() && if ok then Up() else manager.started == [] && world.Holds(transports, [])
      ensures old(manager.hooks) <= hooks <= manager.hooks
      ensures world.trace == old(world.trace) + Begins(came) + Fall(failed) + stops
      ensures came + Tried(failed) <= Planned(hooks)
      ensures ok ==> came == Live() == Planned(hooks) && failed.None? && stops == []
      ensures !ok ==> StopsInReverse(stops, came)
      ensures outcomes.verdicts == old(outcomes.verdicts) + verdicts && activeStarters == ActiveOf(verdicts)
      ensures Ids(verdicts) <= Given(starters)
      ensures ok || failed.Some? ==> Ids(verdicts) == Given(starters) && forall v | v in verdicts :: !v.InitFailed?
      ensures !ok && failed.None? ==> came == [] && verdicts != [] && verdicts[|verdicts| - 1].InitFailed?
    {
      came, failed, stops := [], None, [];
      ghost var trace := world.trace;
      ok, verdicts := InitStarters();
      assert Live() == [];
      hooks := manager.hooks;
      if ok {
        ok, failed := Climb();
        came := Live();
      }
      NothingToAdd(trace, came, failed);
      if !ok {
        var errors;
        errors, stops := StopStarted();
      }
    }

    /** Brings everything up, or takes down again what came up. `came` came up, `failed` did not, and `stops` undo it;
        when nothing was tried, the initialization of a starter failed. `verdicts` are those of this start. */
    method Start() returns (ok: bool, ghost hooks: seq<Hook>, ghost came: seq<Component>,
                            ghost failed: Option<Component>, ghost stops: seq<Event>, ghost verdicts: seq<Verdict>)
      requires Valid()
      modifies this, manager, world, outcomes
      ensures Valid()
      ensures ok ==> validConfig && started
      ensures !ok ==> started == old(started)
      ensures modules == old(modules) && starters == old(starters) && transports == old(transports)
      ensures old(manager.hooks) <= hooks <= manager.hooks
      ensures old(started) || !validConfig || disabled ==>
                world.trace == old(world.trace) && verdicts == [] && (ok <==> validConfig)
      ensures outcomes.verdicts == old(outcomes.verdicts) + verdicts && Ids(verdicts) <= Given(starters)
      ensures !old(started) && validConfig && !disabled ==>
                && world.trace == old(world.trace) + Begins(came) + Fall(failed) + stops
                && came + Tried(failed) <= Units(hooks) + Present(modules) + ActiveOf(verdicts) + transports
                && (ok ==> came == Units(hooks) + Present(modules) + ActiveOf(verdicts) + transports && failed.None?)
                && (ok ==> Replay(world.trace) == Some(came) && stops == [])
                && (!ok ==> Replay(world.trace) == Some([]) && StopsInReverse(stops, came))
                && (ok || failed.Some? ==>
                      Ids(verdicts) == Given(starters) && forall v | v in verdicts :: !v.InitFailed?)
                && (!ok && failed.None? ==> came == [] && verdicts != [] && verdicts[|verdicts| - 1].InitFailed?)
    {
      hooks, came, failed, stops, verdicts := manager.hooks, [], None, [], [];
      if !validConfig {
        ok := false;
      } else if started {
        ok := true;
      } else {
        ResetStarted();
        assert Live() == [];
        if disabled {
          ok := true;
        } else {
          ok, hooks, came, failed, stops, verdicts := StartAll();
        }
        started := ok;
      }
    }

    /** Stops everything that is up, in the exact reverse of the order it came up, whatever fails. */
    method Stop() returns (errors: seq<Component>, ghost events: seq<Event>)
      requires Valid()
      modifies this, manager, world
      ensures Valid() && !started
      ensures world.trace == old(world.trace) + events && errors == Failures(events)
      ensures Replay(old(world.trace)).Some? && Replay(world.trace) == Some([])
      ensures var live := Replay(old(world.trace)).value;
              && (old(started) ==> live == old(Live()))
              && |events| == |live|
              && forall i :: 0 <= i < |live| ==> events[i].Ended? && events[i].unit == live[|live| - 1 - i]
      ensures modules == old(modules) && starters == old(starters) && transports == old(transports)
    {
      if !started {
        return [], [];
      }
      errors, events := StopStarted();
      started := false;
      ResetStarted();
    }
  }

  // ---------- Every run ----------

  datatype Call =
    | CallStart | CallStop
    | AddModule(m: Option<nat>) | AddStarter(s: Option<nat>) | AddTransportCall(t: nat) | AddHooks(hooks: seq<Hook>)

  /** Any sequence of calls, with every component free to fail at any time. With nothing started at the end,
      each component has been stopped exactly as often as it came up. */
  method Run(app: App, calls: seq<Call>)
    requires app.Valid()
    modifies app, app.manager, app.world, app.outcomes
    ensures app.Valid()
    ensures var events := multiset(app.world.trace);
            forall u :: var stops := events[Ended(u, true)] + events[Ended(u, false)];
                        if app.started then events[Began(u, true)] >= stops else events[Began(u, true)] == stops
    ensures Replay(app.world.trace).Some? && (app.started || Replay(app.world.trace) == Some([]))
    ensures app.world.registered <==>
              app.world.registry.Some? && app.world.registry.value in Replay(app.world.trace).value
    ensures !app.started ==> !app.world.registered && app.world.registrations == app.world.deregistrations
    ensures (forall c | c in calls :: !c.AddTransportCall?) ==> app.transports == old(app.transports)
  {
    for k := 0 to |calls|
      invariant app.Valid()
      invariant (forall c | c in calls :: !c.AddTransportCall?) ==> app.transports == old(app.transports)
    {
      assert calls[k] in calls;
      match calls[k]
      case CallStart => var ok, hooks, came, failed, stops, verdicts := app.Start();
      case CallStop => var errors, events := app.Stop();
      case AddModule(m) => app.RegisterModule(m);
      case AddStarter(s) => app.RegisterStarter(s);
      case AddTransportCall(t) => app.AddTransport(t);
      case AddHooks(hooks) => app.RegisterHooks(hooks);
    }
    forall u
      ensures var events := multiset(app.world.trace);
              events[Began(u, true)]
              == events[Ended(u, true)] + events[Ended(u, false)] + multiset(Replay(app.world.trace).value)[u]
    {
      StartsAreStops(app.world.trace, u);
    }
  }

  /** The transports added by these calls: each once, at its first call. */
  function Added(ids: seq<nat>): seq<Component> {
    if ids == [] then []
    else
      var before, id := Added(ids[..|ids| - 1]), ids[|ids| - 1];
      if TransportUnit(id) in before then before else before + [TransportUnit(id)]
  }

  lemma {:induction false} AddedOnce(ids: seq<nat>, u: Component)
    ensures u in Added(ids) <==> u.TransportUnit? && u.id in ids
    ensures multiset(Added(ids))[u] <= 1
  {
    if ids == [] {
    } else {
      AddedOnce(ids[..|ids| - 1], u);
      assert ids == ids[..|ids| - 1] + [ids[|ids| - 1]];
    }
  }

  lemma AddedNext(ids: seq<nat>, id: nat)
    ensures Added(ids + [id])
            == if TransportUnit(id) in Added(ids) then Added(ids) else Added(ids) + [TransportUnit(id)]
  {
    assert (ids + [id])[..|ids|] == ids;
  }

  lemma {:induction false} AddedAll(ids: seq<nat>)
    requires forall i, j :: 0 <= i < j < |ids| ==> ids[i] != ids[j]
    ensures |Added(ids)| == |ids| && forall i :: 0 <= i < |ids| ==> Added(ids)[i] == TransportUnit(ids[i])
  {
    if ids == [] {
    } else {
      AddedAll(ids[..|ids| - 1]);
    }
  }

  function Listed(id: Option<nat>): seq<nat> {
    if id.Some? then [id.value] else []
  }

  /** The transports of a configured application: those of its options, then HTTP, then gRPC, then the registry,
      whose transport is a new object. */
  method Configure(options: seq<nat>, http: Option<nat>, grpc: Option<nat>, registry: Option<nat>,
                   disabled: bool, validConfig: bool)
    returns (app: App)
    requires registry.Some? ==> registry.value !in options && http != registry && grpc != registry
    ensures fresh(app) && fresh(app.world) && fresh(app.manager) && fresh(app.outcomes) && app.Valid() && !app.started
            && app.world.trace == [] && app.disabled == disabled && app.validConfig == validConfig
    ensures app.transports == Added(options + Listed(http) + Listed(grpc) + Listed(registry))
    ensures registry.Some? ==>
              var others, t := Added(options + Listed(http) + Listed(grpc)), TransportUnit(registry.value);
              app.world.registry == Some(t) && t !in others && app.transports == others + [t]
  {
    app := new App(if registry.Some? then Some(TransportUnit(registry.value)) else None, disabled, validConfig);
    AddGiven(app, options);
    AddOptional(app, options, http);
    AddOptional(app, options + Listed(http), grpc);
    RegistryIsLast(options, http, grpc, registry);
    AddOptional(app, options + Listed(http) + Listed(grpc), registry);
  }

  method AddGiven(app: App, options: seq<nat>)
    requires app.Valid() && app.transports == []
    modifies app`transports
    ensures app.Valid() && app.transports == Added(options)
  {
    for k := 0 to |options|
      invariant app.Valid() && app.transports == Added(options[..k])
    {
      assert options[..k + 1] == options[..k] + [options[k]];
      AddedNext(options[..k], options[k]);
      app.AddTransport(options[k]);
    }
    assert options[..|options|] == options;
  }

  method AddOptional(app: App, ghost ids: seq<nat>, id: Option<nat>)
    requires app.Valid() && app.transports == Added(ids)
    modifies app`transports
    ensures app.Valid() && app.transports == Added(ids + Listed(id))
  {
    assert id.None? ==> ids + Listed(id) == ids;
    if id.Some? {
      AddedNext(ids, id.value);
      app.AddTransport(id.value);
    }
  }

  lemma RegistryIsLast(options: seq<nat>, http: Option<nat>, grpc: Option<nat>, registry: Option<nat>)
    requires registry.Some? ==> registry.value !in options && http != registry && grpc != registry
    ensures registry.Some? ==>
              var before, t := Added(options + Listed(http) + Listed(grpc)), TransportUnit(registry.value);
              t !in before && Added(options + Listed(http) + Listed(grpc) + Listed(registry)) == before + [t]
  {
    var ids := options + Listed(http) + Listed(grpc);
    if registry.Some? {
      AddedOnce(ids, TransportUnit(registry.value));
      AddedNext(ids, registry.value);
    }
  }

  /** Every run of a configured application with a registry and no transport added later. At every event of the trace:
      the instance is registered, or registration is attempted, only while all other transports are up, and none of
      them is stopped while it is registered. */
  method RunConfigured(options: seq<nat>, http: Option<nat>, grpc: Option<nat>, registry: nat,
                       disabled: bool, validConfig: bool, calls: seq<Call>)
    returns (app: App, ghost others: seq<Component>)
    requires registry !in options && http != Some(registry) && grpc != Some(registry)
    requires forall c | c in calls :: !c.AddTransportCall?
    ensures app.Valid() && app.transports == others + [TransportUnit(registry)]
    ensures others == Added(options + Listed(http) + Listed(grpc))
    ensures forall k :: 0 <= k < |app.world.trace| ==>
                          && Replay(app.world.trace[..k]).Some?
                          && var live, event := Replay(app.world.trace[..k]).value, app.world.trace[k];
                          && (TransportUnit(registry) in live
                              || (event.Began? && event.unit == TransportUnit(registry)) ==>
                                forall o | o in others :: o in live)
                          && (event.Ended? && event.unit in others ==> TransportUnit(registry) !in live)
    ensures app.world.deregistrations <= app.world.registrations <= app.world.deregistrations + 1
  {
    app := Configure(options, http, grpc, Some(registry), disabled, validConfig);
    others := Added(options + Listed(http) + Listed(grpc));
    Run(app, calls);
    ServesThroughout(app.world.trace, others, TransportUnit(registry));
  }

  lemma ServesThroughout(trace: seq<Event>, others: seq<Component>, registry: Component)
    requires AllTransports(others + [registry]) && Ordered(trace, others + [registry])
    ensures forall k :: 0 <= k < |trace| ==>
                          && Replay(trace[..k]).Some?
                          && var live, event := Replay(trace[..k]).value, trace[k];
                          && (registry in live || (event.Began? && event.unit == registry) ==>
                                forall o | o in others :: o in live)
                          && (event.Ended? && event.unit in others ==> registry !in live)
  {
    var plan := others + [registry];
    assert plan[|others|] == registry && forall i | 0 <= i < |others| :: plan[i] == others[i];
    forall k | 0 <= k < |trace|
      ensures Replay(trace[..k]).Some?
      ensures var live, event := Replay(trace[..k]).value, trace[k];
              && (registry in live || (event.Began? && event.unit == registry) ==> forall o | o in others :: o in live)
              && (event.Ended? && event.unit in others ==> registry !in live)
    {
      RegisteredOnlyWhileServing(trace, others, registry, k);
    }
  }
}
