/** Routing rules, the application configuration and local overrides
    (src/config/model.rs). */
module ConfigModel {
  import opened Wrappers
  import opened Json

  datatype PathMatcher =
    | Exact(value: string)
    | Prefix(value: string)
    | Glob(value: string)
    | Regex(value: string)

  datatype RoutingRule = RoutingRule(
    id: string,
    path: PathMatcher,
    methods: Option<seq<string>>,
    headers: Option<map<string, string>>,
    serviceId: Option<string>,
    upstreamUrl: Option<string>,
    stripPrefix: Option<string>,
    responseHeaders: Option<map<string, string>>,
    priority: nat
  )

  datatype LocalOverrideEntry = LocalOverrideEntry(routeId: string, upstreamUrl: string)

  function Priorities(routes: seq<RoutingRule>): (keys: seq<nat>)
    ensures |keys| == |routes| && forall i :: 0 <= i < |routes| ==> keys[i] == routes[i].priority
  {
    seq(|routes|, i requires 0 <= i < |routes| => routes[i].priority)
  }

  /** Position of the first route with the given id, or the number of routes. */
  function FindById(routes: seq<RoutingRule>, id: string): (k: nat)
    ensures k <= |routes| && (k < |routes| ==> routes[k].id == id)
    ensures forall j :: 0 <= j < k ==> routes[j].id != id
  {
    if routes == [] || routes[0].id == id then 0 else 1 + FindById(routes[1..], id)
  }

  function Retarget(rule: RoutingRule, url: string): RoutingRule {
    rule.(upstreamUrl := Some(url), serviceId := None)
  }

  function ApplyOverride(routes: seq<RoutingRule>, entry: LocalOverrideEntry): seq<RoutingRule> {
    var k := FindById(routes, entry.routeId);
    if k < |routes| then routes[k := Retarget(routes[k], entry.upstreamUrl)] else routes
  }

  /** The routes after all entries, applied in order. */
  function ApplyOverrides(routes: seq<RoutingRule>, entries: seq<LocalOverrideEntry>): seq<RoutingRule> {
    if entries == [] then routes
    else ApplyOverride(ApplyOverrides(routes, entries[..|entries| - 1]), entries[|entries| - 1])
  }

  /** The URL of the last entry for `id`. */
  function LastOverride(entries: seq<LocalOverrideEntry>, id: string): Option<string> {
    if entries == [] then None
    else if entries[|entries| - 1].routeId == id then Some(entries[|entries| - 1].upstreamUrl)
    else LastOverride(entries[..|entries| - 1], id)
  }

  /** What the entries should make of one route: only the first route of an id is
      retargeted, to the last entry for that id. */
  function Overridden(routes: seq<RoutingRule>, entries: seq<LocalOverrideEntry>, k: nat): RoutingRule
    requires k < |routes|
  {
    var url := LastOverride(entries, routes[k].id);
    if url.Some? && FindById(routes, routes[k].id) == k then Retarget(routes[k], url.value) else routes[k]
  }

  lemma {:induction false} FindSameIds(a: seq<RoutingRule>, b: seq<RoutingRule>, id: string)
    requires |a| == |b| && forall k :: 0 <= k < |a| ==> a[k].id == b[k].id
    ensures FindById(a, id) == FindById(b, id)
  {
  }

  lemma {:induction false} OverridesAreLastWins(routes: seq<RoutingRule>, entries: seq<LocalOverrideEntry>)
    ensures |ApplyOverrides(routes, entries)| == |routes|
    ensures forall k :: 0 <= k < |routes| ==> ApplyOverrides(routes, entries)[k] == Overridden(routes, entries, k)
    ensures forall k :: 0 <= k < |routes| ==>
              var (was, now) := (routes[k], ApplyOverrides(routes, entries)[k]);
              var url := LastOverride(entries, was.id);
              if url.Some? && FindById(routes, was.id) == k then
                && now.upstreamUrl == url && now.serviceId == None
                && now.id == was.id && now.path == was.path && now.methods == was.methods
                && now.headers == was.headers && now.stripPrefix == was.stripPrefix
                && now.responseHeaders == was.responseHeaders && now.priority == was.priority
              else now == was
  {
    if entries != [] {
      var n := |entries| - 1;
      var before := ApplyOverrides(routes, entries[..n]);
      OverridesAreLastWins(routes, entries[..n]);
      FindSameIds(before, routes, entries[n].routeId);
      var f := FindById(routes, entries[n].routeId);
      forall k | 0 <= k < |routes|
        ensures ApplyOverrides(routes, entries)[k] == Overridden(routes, entries, k)
      {
        assert before[k] == Overridden(routes, entries[..n], k);
      }
    }
  }

  class AppConfig {
    var configVersion: string
    var server: Json
    var registries: Json
    var routes: seq<RoutingRule>
    var logLevel: string

    constructor (configVersion: string, server: Json, registries: Json, routes: seq<RoutingRule>, logLevel: string)
      ensures this.configVersion == configVersion && this.server == server && this.registries == registries
      ensures this.routes == routes && this.logLevel == logLevel
    {
      this.configVersion, this.server, this.registries := configVersion, server, registries;
      this.routes, this.logLevel := routes, logLevel;
    }

    method ApplyLocalOverrides(overrides: seq<LocalOverrideEntry>)
      modifies this`routes
      ensures routes == ApplyOverrides(old(routes), overrides)
    {
      for i := 0 to |overrides|
        invariant routes == ApplyOverrides(old(routes), overrides[..i])
      {
        assert overrides[..i + 1][..i] == overrides[..i];
        var k := FindById(routes, overrides[i].routeId);
        if k < |routes| {
          routes := routes[k := Retarget(routes[k], overrides[i].upstreamUrl)];
        }
      }
      assert overrides[..|overrides|] == overrides;
    }
  }
}
