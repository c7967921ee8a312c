/** Hot reload: the file watcher stores new configurations in a slot, a polling
    task compares the slot's address with the last one it saw and rebuilds the
    router (src/config/watcher.rs, src/main.rs, src/routing/router.rs). */
module HotReload {
  import opened Wrappers
  import opened Errors
  import opened ConfigModel
  import opened Matcher
  import opened Router

  type Config = seq<RoutingRule>

  /** A configuration in memory, at its address. */
  datatype Slot = Slot(addr: nat, config: Config)

  datatype Step =
    /** A file event: whether it is a write to the watched file, what loading the
        file yields, and where the new configuration would be allocated. */
    | FileEvent(relevant: bool, loaded: Result<Config, ConfigError>, addr: nat)
    /** One turn of the polling task. */
    | Poll

  datatype State = State(slot: Slot, lastPtr: nat, router: RouterSnapshot)

  predicate Stores(step: Step) {
    step.FileEvent? && step.relevant && step.loaded.Ok?
  }

  function Next(e: Engine, s: State, step: Step): State {
    match step
    case FileEvent(_, _, addr) => if Stores(step) then s.(slot := Slot(addr, step.loaded.value)) else s
    case Poll =>
      if s.slot.addr == s.lastPtr then s
      else
        var seen := s.(lastPtr := s.slot.addr);
        match FromRoutes(e, s.slot.config)
        case Ok(snapshot) => seen.(router := snapshot)
        case Err(_) => seen
  }

  function Run(e: Engine, s: State, steps: seq<Step>): State {
    if steps == [] then s else Next(e, Run(e, s, steps[..|steps| - 1]), steps[|steps| - 1])
  }

  /** The server starts once its first configuration compiles, and the polling task
      starts from that configuration. */
  ghost predicate Started(e: Engine, s: State) {
    s.lastPtr == s.slot.addr && FromRoutes(e, s.slot.config) == Ok(s.router)
  }

  // ----- The code -----

  class Reloader {
    const engine: Engine
    var slot: Slot
    var lastPtr: nat
    var router: RouterSnapshot

    function Current(): State
      reads this
    {
      State(slot, lastPtr, router)
    }

    constructor (engine: Engine, first: Slot, snapshot: RouterSnapshot)
      requires FromRoutes(engine, first.config) == Ok(snapshot)
      ensures this.engine == engine && Current() == State(first, first.addr, snapshot) && Started(engine, Current())
    {
      this.engine, slot, lastPtr, router := engine, first, first.addr, snapshot;
    }

    method HandleEvent(relevant: bool, loaded: Result<Config, ConfigError>, addr: nat)
      modifies this
      ensures Current() == Next(engine, old(Current()), FileEvent(relevant, loaded, addr))
      ensures lastPtr == old(lastPtr) && router == old(router)
      ensures slot == if relevant && loaded.Ok? then Slot(addr, loaded.value) else old(slot)
    {
      if !relevant {
        return;
      }
      match loaded {
        case Ok(config) => slot := Slot(addr, config);
        case Err(_) =>
      }
    }

    method RebuildRouter(config: Config) returns (r: Result<(), ConfigError>)
      modifies this`router
      ensures match FromRoutes(engine, config)
              case Ok(snapshot) => router == snapshot && r.Ok?
              case Err(x) => router == old(router) && r == Err(x)
    {
      match FromRoutes(engine, config) {
        case Ok(snapshot) =>
          router := snapshot;
          return Ok(());
        case Err(x) => return Err(x);
      }
    }

    method PollOnce()
      modifies this
      ensures Current() == Next(engine, old(Current()), Poll)
    {
      var current := slot;
      if current.addr != lastPtr {
        lastPtr := current.addr;
        var r := RebuildRouter(current.config);
      }
    }
  }

  // ----- What was stored and what was polled -----

  /** All configurations that were in the slot, oldest first. */
  function Stored(first: Slot, steps: seq<Step>): (r: seq<Slot>)
    ensures |r| >= 1
  {
    if steps == [] then [first]
    else
      var before, last := Stored(first, steps[..|steps| - 1]), steps[|steps| - 1];
      if Stores(last) then before + [Slot(last.addr, last.loaded.value)] else before
  }

  /** Position of the configuration that was in the slot at the latest poll. */
  function LastPolled(first: Slot, steps: seq<Step>): (k: nat)
    ensures k < |Stored(first, steps)|
  {
    if steps == [] then 0
    else
      var init := steps[..|steps| - 1];
      if steps[|steps| - 1].Poll? then |Stored(first, init)| - 1 else LastPolled(first, init)
  }

  predicate Compiles(e: Engine, config: Config) {
    FromRoutes(e, config).Ok?
  }

  /** Position of the latest configuration that a poll found and that compiles. */
  function RouterSource(e: Engine, first: Slot, steps: seq<Step>): (k: nat)
    ensures k < |Stored(first, steps)|
  {
    if steps == [] then 0
    else
      var init := steps[..|steps| - 1];
      var current := |Stored(first, init)| - 1;
      if steps[|steps| - 1].Poll? && Compiles(e, Stored(first, init)[current].config) then current
      else RouterSource(e, first, init)
  }

  /** At every poll, an unchanged address means an unchanged configuration. */
  predicate Distinguishable(first: Slot, steps: seq<Step>) {
    steps == [] ||
    var init := steps[..|steps| - 1];
    var stored := Stored(first, init);
    && Distinguishable(first, init)
    && (steps[|steps| - 1].Poll? && stored[|stored| - 1].addr == stored[LastPolled(first, init)].addr
        ==> |stored| - 1 == LastPolled(first, init))
  }

  /** The configurations that were polled never get older. */
  lemma {:induction false} SourceBounds(e: Engine, s: State, steps: seq<Step>)
    requires Started(e, s)
    ensures RouterSource(e, s.slot, steps) <= LastPolled(s.slot, steps)
    ensures Compiles(e, Stored(s.slot, steps)[RouterSource(e, s.slot, steps)].config)
    ensures Compiles(e, Stored(s.slot, steps)[LastPolled(s.slot, steps)].config)
            ==> RouterSource(e, s.slot, steps) == LastPolled(s.slot, steps)
  {
    hide FromRoutes;
    if steps != [] {
      SourceBounds(e, s, steps[..|steps| - 1]);
    }
  }

  /** Whatever the order of reloads, failed loads and polls, the slot holds the
      newest stored configuration, and the router is the compilation of the latest
      one that a poll found and that compiles. */
  lemma {:induction false} RouterFollowsConfig(e: Engine, s: State, steps: seq<Step>)
    requires Started(e, s) && Distinguishable(s.slot, steps)
    ensures var (now, stored) := (Run(e, s, steps), Stored(s.slot, steps));
            && now.slot == stored[|stored| - 1]
            && now.lastPtr == stored[LastPolled(s.slot, steps)].addr
            && FromRoutes(e, stored[RouterSource(e, s.slot, steps)].config) == Ok(now.router)
  {
    hide FromRoutes;
    if steps != [] {
      var init := steps[..|steps| - 1];
      RouterFollowsConfig(e, s, init);
      SourceBounds(e, s, init);
    }
  }

  /** The router never goes back to an older configuration. */
  lemma {:induction false} SourceMonotone(e: Engine, s: State, steps: seq<Step>, n: nat)
    requires Started(e, s) && n <= |steps|
    ensures RouterSource(e, s.slot, steps[..n]) <= RouterSource(e, s.slot, steps)
    ensures Stored(s.slot, steps[..n]) <= Stored(s.slot, steps)
  {
    hide FromRoutes, Compiles;
    if n == |steps| {
      assert steps[..n] == steps;
    } else {
      var init := steps[..|steps| - 1];
      SourceMonotone(e, s, init, n);
      SourceBounds(e, s, init);
      assert init[..n] == steps[..n];
    }
  }

  /** No step of `steps` stores a configuration. */
  predicate NothingStored(steps: seq<Step>) {
    forall k :: 0 <= k < |steps| ==> !Stores(steps[k])
  }

  lemma {:induction false} StoredStays(first: Slot, before: seq<Step>, after: seq<Step>)
    requires NothingStored(after)
    ensures Stored(first, before + after) == Stored(first, before)
  {
    if after == [] {
      assert before + after == before;
    } else {
      assert (before + after)[..|before + after| - 1] == before + after[..|after| - 1];
      StoredStays(first, before, after[..|after| - 1]);
    }
  }

  lemma {:induction false} SourceStays(e: Engine, s: State, before: seq<Step>, after: seq<Step>)
    requires Started(e, s) && NothingStored(after)
    requires LastPolled(s.slot, before) == |Stored(s.slot, before)| - 1
    ensures RouterSource(e, s.slot, before + after) == RouterSource(e, s.slot, before)
  {
    hide FromRoutes, Compiles;
    if after == [] {
      assert before + after == before;
    } else {
      var init := after[..|after| - 1];
      assert (before + after)[..|before + after| - 1] == before + init;
      SourceStays(e, s, before, init);
      StoredStays(s.slot, before, init);
      SourceBounds(e, s, before);
    }
  }

  lemma {:induction false} PrefixDistinguishable(first: Slot, steps: seq<Step>, n: nat)
    requires Distinguishable(first, steps) && n <= |steps|
    ensures Distinguishable(first, steps[..n])
  {
    if n == |steps| {
      assert steps[..n] == steps;
    } else {
      PrefixDistinguishable(first, steps[..|steps| - 1], n);
      assert steps[..|steps| - 1][..n] == steps[..n];
    }
  }

  /** `k` is the position of a compiling configuration that some poll found. */
  ghost predicate PolledGood(e: Engine, first: Slot, steps: seq<Step>, k: nat) {
    exists p :: 0 <= p < |steps| && steps[p].Poll? && k == |Stored(first, steps[..p])| - 1
                && Compiles(e, Stored(first, steps[..p])[k].config)
  }

  lemma PolledGoodStep(e: Engine, first: Slot, steps: seq<Step>, k: nat)
    requires steps != []
    ensures var init := steps[..|steps| - 1];
            PolledGood(e, first, steps, k)
            <==> PolledGood(e, first, init, k)
                 || (steps[|steps| - 1].Poll? && k == |Stored(first, init)| - 1
                     && Compiles(e, Stored(first, init)[k].config))
  {
    hide Compiles, Stored;
    var n := |steps| - 1;
    var init := steps[..n];
    assert forall p :: 0 <= p <= n ==> steps[..p] == init[..p];
    assert init[..n] == init;
    if PolledGood(e, first, steps, k) {
      var p :| 0 <= p < |steps| && steps[p].Poll? && k == |Stored(first, steps[..p])| - 1
               && Compiles(e, Stored(first, steps[..p])[k].config);
      assert p < n ==> init[p].Poll? && steps[..p] == init[..p];
    }
    if PolledGood(e, first, init, k) {
      var p :| 0 <= p < |init| && init[p].Poll? && k == |Stored(first, init[..p])| - 1
               && Compiles(e, Stored(first, init[..p])[k].config);
      assert steps[p].Poll? && steps[..p] == init[..p];
    }
  }

  /** `RouterSource` is the newest compiling configuration that a poll found; if
      there is none, the one the server started with. */
  lemma {:induction false} SourceIsLatestGood(e: Engine, first: Slot, steps: seq<Step>, k: nat)
    ensures PolledGood(e, first, steps, k) ==> k <= RouterSource(e, first, steps)
    ensures RouterSource(e, first, steps) > 0 ==> PolledGood(e, first, steps, RouterSource(e, first, steps))
  {
    hide PolledGood, Compiles, Stored;
    if steps == [] {
      NoPollYet(e, first, k);
    } else {
      SourceIsLatestGood(e, first, steps[..|steps| - 1], k);
      PolledGoodStep(e, first, steps, k);
      PolledGoodStep(e, first, steps, RouterSource(e, first, steps));
    }
  }

  lemma NoPollYet(e: Engine, first: Slot, k: nat)
    ensures !PolledGood(e, first, [], k)
  {
  }

  lemma PollFacts(e: Engine, first: Slot, before: seq<Step>)
    ensures var polled := before + [Poll];
            && Stored(first, polled) == Stored(first, before)
            && LastPolled(first, polled) == |Stored(first, before)| - 1
            && RouterSource(e, first, polled) == var current := |Stored(first, before)| - 1;
                 if Compiles(e, Stored(first, before)[current].config) then current
                 else RouterSource(e, first, before)
  {
    hide FromRoutes;
    assert (before + [Poll])[..|before|] == before;
  }

  /** Once a poll has run and no reload succeeds after it, the router is the
      current configuration if that compiles, and otherwise unchanged by the poll. */
  lemma SettledAfterPoll(e: Engine, s: State, before: seq<Step>, after: seq<Step>)
    requires Started(e, s) && NothingStored(after) && Distinguishable(s.slot, before + [Poll] + after)
    ensures var now := Run(e, s, before + [Poll] + after);
            match FromRoutes(e, now.slot.config)
            case Ok(snapshot) => now.router == snapshot
            case Err(_) => now.router == Run(e, s, before).router
  {
    hide FromRoutes, Run, Distinguishable, Stored, LastPolled, RouterSource, NothingStored;
    var polled := before + [Poll];
    PollFacts(e, s.slot, before);
    PrefixDistinguishable(s.slot, polled + after, |before|);
    assert (polled + after)[..|before|] == before;
    RouterFollowsConfig(e, s, polled + after);
    RouterFollowsConfig(e, s, before);
    StoredStays(s.slot, polled, after);
    SourceStays(e, s, polled, after);
  }

  // ----- When addresses can be trusted -----

  /** No address is used twice. */
  ghost predicate FreshAddresses(first: Slot, steps: seq<Step>) {
    var stored := Stored(first, steps);
    forall i, j :: 0 <= i < j < |stored| ==> stored[i].addr != stored[j].addr
  }

  lemma {:induction false} FreshIsDistinguishable(first: Slot, steps: seq<Step>)
    requires FreshAddresses(first, steps)
    ensures Distinguishable(first, steps)
  {
    if steps != [] {
      var init := steps[..|steps| - 1];
      var stored, before := Stored(first, steps), Stored(first, init);
      forall i, j | 0 <= i < j < |before|
        ensures before[i].addr != before[j].addr
      {
        assert stored[i] == before[i] && stored[j] == before[j];
      }
      FreshIsDistinguishable(first, init);
    }
  }

  /** An allocator may reuse the address of a configuration that is gone.  After
      two reloads between polls the third configuration can sit where the first
      one sat, and the poll keeps the router of the first. */
  lemma ReusedAddressIsMissed(e: Engine, s: State, second: Slot, third: Config)
    requires Started(e, s) && second.addr != s.slot.addr
    ensures var (a, b) := (FileEvent(true, Ok(second.config), second.addr), FileEvent(true, Ok(third), s.slot.addr));
            var steps := [a, b, Poll];
            var now := Run(e, s, steps);
            && !Distinguishable(s.slot, steps)
            && now.slot.config == third && now.router == s.router
  {
    hide FromRoutes;
    var a, b := FileEvent(true, Ok(second.config), second.addr), FileEvent(true, Ok(third), s.slot.addr);
    var steps := [a, b, Poll];
    assert steps[..2] == [a, b] && [a, b][..1] == [a] && [a][..0] == [];
    assert Stored(s.slot, [a]) == [s.slot, second];
    assert Stored(s.slot, [a, b]) == [s.slot, second, Slot(s.slot.addr, third)];
    assert LastPolled(s.slot, [a]) == 0 && LastPolled(s.slot, [a, b]) == 0;
    assert Run(e, s, [a]) == s.(slot := second);
    assert Run(e, s, [a, b]) == s.(slot := Slot(s.slot.addr, third));
  }

  /** Exactly which polls do their job: if all polls so far did, the next one leaves
      the router at the newest compiling configuration found if and only if the
      slot's address changed since the last poll, or its configuration does not
      compile, or it compiles to the router already in place. */
  lemma PollSeesReloadExactly(e: Engine, s: State, steps: seq<Step>)
    requires Started(e, s) && Distinguishable(s.slot, steps)
    ensures var (now, next) := (Run(e, s, steps), Run(e, s, steps + [Poll]));
            var source := Stored(s.slot, steps + [Poll])[RouterSource(e, s.slot, steps + [Poll])];
            FromRoutes(e, source.config) == Ok(next.router)
            <==> || now.slot.addr != now.lastPtr
                 || !Compiles(e, now.slot.config)
                 || FromRoutes(e, now.slot.config) == Ok(now.router)
  {
    hide FromRoutes;
    RouterFollowsConfig(e, s, steps);
    PollFacts(e, s.slot, steps);
    assert (steps + [Poll])[..|steps|] == steps;
  }

  // ----- Local overrides do not survive a reload -----

  /** Every configuration but the first came from a load. */
  lemma {:induction false} StoredIsLoaded(first: Slot, steps: seq<Step>, k: nat) returns (p: nat)
    requires 0 < k < |Stored(first, steps)|
    ensures p < |steps| && Stores(steps[p]) && Stored(first, steps)[k].config == steps[p].loaded.value
    ensures steps[p].FileEvent? && steps[p].relevant && steps[p].loaded.Ok?
  {
    var n := |steps| - 1;
    if k < |Stored(first, steps[..n])| {
      p := StoredIsLoaded(first, steps[..n], k);
    } else {
      p := n;
    }
  }

  /** The server starts with overridden routes.  Once a reload has taken effect the
      router is the compilation of what some load returned, without overrides. */
  lemma ReloadedRouterIsLoaded(e: Engine, s: State, steps: seq<Step>) returns (p: nat)
    requires Started(e, s) && Distinguishable(s.slot, steps) && RouterSource(e, s.slot, steps) > 0
    ensures p < |steps| && Stores(steps[p]) && FromRoutes(e, steps[p].loaded.value) == Ok(Run(e, s, steps).router)
  {
    hide FromRoutes;
    RouterFollowsConfig(e, s, steps);
    p := StoredIsLoaded(s.slot, steps, RouterSource(e, s.slot, steps));
  }

  /** So if the file still holds the routes that the overrides were applied to, each
      request goes to the rule at the same declared position as before the reload,
      but back to that rule's own target. */
  lemma ReloadDropsOverrides(e: Engine, s: State, routes: Config, entries: seq<LocalOverrideEntry>, steps: seq<Step>,
                             req: Request)
    requires Started(e, s) && s.slot.config == ApplyOverrides(routes, entries)
    requires Distinguishable(s.slot, steps) && RouterSource(e, s.slot, steps) > 0
    requires forall k :: 0 <= k < |steps| && Stores(steps[k]) ==> steps[k].loaded.value == routes
    ensures var now := Run(e, s, steps).router;
            && FromRoutes(e, routes) == Ok(now)
            && (Resolved(e, now, req).None? <==> Resolved(e, s.router, req).None?)
            && (Resolved(e, now, req).Some? ==>
                  exists i :: 0 <= i < |routes| && IsWinner(e, routes, req, Some(i))
                              && Compile(e, Overridden(routes, entries, i)) == Ok(Resolved(e, s.router, req).value)
                              && Compile(e, routes[i]) == Ok(Resolved(e, now, req).value))
  {
    hide FromRoutes, Run, Distinguishable, RouterSource, Compile, IsWinner, ApplyOverrides, Resolved;
    var p := ReloadedRouterIsLoaded(e, s, steps);
    var after := OverriddenResolution(e, routes, entries, Run(e, s, steps).router, req);
  }
}
