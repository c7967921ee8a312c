/** `proxy_handler` as a step over the shared state (src/server/handlers.rs): what
    it counts, whom it contacts, and the conservation of requests over all runs.
    Plugins, the registries and the forwarding itself are outcomes given as inputs. */
module ProxyHandler {
  import opened Wrappers
  import opened Errors
  import opened Machine
  import opened Text
  import opened Matcher
  import opened Router
  import opened Instances
  import HealthChecker
  import InstanceSelection
  import CircuitBreaker
  import ProxyRetry
  import opened Metrics

  type Response = ProxyRetry.Response
  type Reply = Result<Response, ProxyError>

  /** A plugin passes a request on, of which only the headers are read afterwards. */
  datatype PluginVerdict =
    | Continue(headers: map<string, HeaderValue>)
    | Respond(response: Response)
    | Fail(message: string)

  /** One request and everything outside the handler that it meets.  Path and method
      are read before the plugins run. */
  datatype Outside = Outside(
    path: string,
    method': string,
    onRequest: PluginVerdict,
    snapshot: RouterSnapshot,
    instances: Result<seq<ServiceInstance>, RegistryError>,
    strategy: InstanceSelection.Strategy,
    word: nat,
    askedAt: nat,
    upgrade: bool,
    webSocket: Result<Response, string>,
    body: Result<(), string>,
    attempts: seq<ProxyRetry.Attempt>,
    onResponse: Result<Response, string>
  )

  /** The proxies fail with connection and body errors only. */
  predicate ForwardingErrors(attempts: seq<ProxyRetry.Attempt>) {
    forall i :: 0 <= i < |attempts| && attempts[i].answer.Err?
      ==> attempts[i].answer.error.UpstreamConnection? || attempts[i].answer.error.BodyRead?
  }

  /** What one request did: the rule that was hit and the failure that was counted. */
  datatype Entry = Entry(passed: bool, hit: Option<string>, code: Option<string>, reply: Reply)

  // ----- Where a matched request goes -----

  function BaseUrl(i: ServiceInstance): string {
    "http://" + HostPort(i.host, i.port)
  }

  /** The upstream of a matched rule, or the counted code and the error.  A direct
      URL wins over a service. */
  function Destination(rule: CompiledRoutingRule, path: string, instances: Result<seq<ServiceInstance>, RegistryError>,
                       chosen: ServiceInstance): Result<string, (string, ProxyError)>
  {
    if rule.upstreamUrl.Some? then Ok(rule.upstreamUrl.value)
    else if rule.serviceId.None? then Err(("no_instances", NoInstances(path)))
    else match instances
      case Err(e) => Err((FailureCodeForRegistry(e), Registry(e)))
      case Ok(xs) => if xs == [] then Err(("no_instances", NoInstances(rule.serviceId.value))) else Ok(BaseUrl(chosen))
  }

  /** The service whose rotation counter a matched request steps. */
  function Rotates(rule: CompiledRoutingRule, o: Outside): Option<string> {
    if Chooses(rule, o) && InstanceSelection.Counts(o.strategy) then rule.serviceId else None
  }

  /** An instance has to be chosen for the matched rule. */
  predicate Chooses(rule: CompiledRoutingRule, o: Outside) {
    rule.upstreamUrl.None? && rule.serviceId.Some? && o.instances.Ok? && o.instances.value != []
  }

  function NextCounters(counters: map<string, nat>, service: Option<string>): map<string, nat> {
    match service
    case None => counters
    case Some(s) => counters[s := ((if s in counters then counters[s] else 0) + 1) % USIZE]
  }

  const BREAKER_OPEN := "circuit_breaker_open"

  /** The reply of the upstream proxy. */
  function Forwarded(o: Outside): Reply
    requires o.attempts != []
  {
    if o.upgrade then
      match o.webSocket
      case Ok(r) => Ok(r)
      case Err(m) => Err(WsUpgrade(m))
    else ProxyRetry.Returned(o.body, o.attempts)
  }

  // ----- Counting over a log -----

  function HitCounts(log: seq<Entry>): map<string, nat> {
    if log == [] then map[]
    else
      var before, last := HitCounts(log[..|log| - 1]), log[|log| - 1];
      if last.hit.Some? then Bump(before, last.hit.value) else before
  }

  function CodeCounts(log: seq<Entry>): map<string, nat> {
    if log == [] then map[]
    else
      var before, last := CodeCounts(log[..|log| - 1]), log[|log| - 1];
      if last.code.Some? then Bump(before, last.code.value) else before
  }

  /** Requests that passed the request plugins. */
  function Passed(log: seq<Entry>): nat {
    if log == [] then 0 else Passed(log[..|log| - 1]) + (if log[|log| - 1].passed then 1 else 0)
  }

  /** Replies that are errors other than plugin errors. */
  function Failed(log: seq<Entry>): nat {
    if log == [] then 0
    else
      var reply := log[|log| - 1].reply;
      Failed(log[..|log| - 1]) + (if reply.Err? && !reply.error.PluginError? then 1 else 0)
  }

  /** What holds of every request: only a request that passed the plugins is
      counted, it either hits one rule or is counted as unmatched, and a failure is
      counted exactly when the reply is an error that no plugin caused. */
  predicate Consistent(e: Entry) {
    && (!e.passed ==> e.hit.None? && e.code.None?)
    && (e.passed ==> (e.hit.None? <==> e.code == Some(NO_MATCHING_ROUTE)))
    && (e.code.Some? <==> e.reply.Err? && !e.reply.error.PluginError?)
  }

  predicate AllConsistent(log: seq<Entry>) {
    log == [] || (Consistent(log[|log| - 1]) && AllConsistent(log[..|log| - 1]))
  }

  /** Requests are conserved: those that passed the plugins are the route hits plus
      the unmatched ones, and the failure counters add up to the error replies. */
  lemma {:induction false} CountersConserve(log: seq<Entry>)
    requires AllConsistent(log)
    ensures Passed(log) == Sum(HitCounts(log)) + Get(CodeCounts(log), "no_matching_route")
    ensures Failed(log) == Sum(CodeCounts(log))
  {
    hide Sum;
    if log == [] {
      EmptySum();
    } else {
      var init, last := log[..|log| - 1], log[|log| - 1];
      CountersConserve(init);
      if last.hit.Some? {
        SumBump(HitCounts(init), last.hit.value);
      }
      if last.code.Some? {
        SumBump(CodeCounts(init), last.code.value);
      }
    }
  }

  lemma EmptySum()
    ensures Sum(map[]) == 0
  {
  }

  // ----- The handler -----

  class Gateway {
    const engine: Engine
    const metrics: ProxyMetrics
    const breaker: CircuitBreaker.CircuitBreakerMap
    const selector: InstanceSelection.Selector
    const health: HealthChecker.HealthStatus
    ghost var log: seq<Entry>

    ghost predicate Valid()
      reads this, metrics, breaker
    {
      && breaker.Valid()
      && AllConsistent(log)
      && metrics.routeHits == HitCounts(log)
      && metrics.failureReasons == CodeCounts(log)
    }

    constructor (engine: Engine, breaker: CircuitBreaker.CircuitBreakerMap, health: HealthChecker.HealthStatus)
      requires breaker.Valid()
      ensures Valid() && log == [] && this.breaker == breaker && this.health == health && this.engine == engine
      ensures fresh(metrics) && fresh(selector)
    {
      this.engine, this.breaker, this.health, log := engine, breaker, health, [];
      metrics := new ProxyMetrics();
      selector := new InstanceSelection.Selector();
    }

    /** Closes the request: its entry joins the log. */
    ghost method Finish(entry: Entry)
      requires breaker.Valid() && AllConsistent(log) && Consistent(entry)
      requires metrics.routeHits == if entry.hit.Some? then Bump(HitCounts(log), entry.hit.value) else HitCounts(log)
      requires metrics.failureReasons
               == if entry.code.Some? then Bump(CodeCounts(log), entry.code.value) else CodeCounts(log)
      modifies this`log
      ensures Valid() && log == old(log) + [entry]
    {
      assert (log + [entry])[..|log + [entry]| - 1] == log;
      log := log + [entry];
    }

    /** The rule the router resolves for a request that the plugins let through. */
    function Route(o: Outside): Option<CompiledRoutingRule> {
      match o.onRequest
      case Continue(headers) => Resolved(engine, o.snapshot, Request(o.path, o.method', headers))
      case _ => None
    }

    /** The instance the selector would choose now. */
    function Chosen(o: Outside, service: string): ServiceInstance
      reads selector, health
    {
      var pool := if o.instances.Ok? then InstanceSelection.Pool(o.instances.value, health.unhealthy) else [];
      if InstanceSelection.Selectable(pool, o.strategy) then
        InstanceSelection.Pick(pool, o.strategy, selector.Counter(service), o.word)
      else ServiceInstance("", 0, map[])
    }

    function DestinationOf(o: Outside, rule: CompiledRoutingRule): Result<string, (string, ProxyError)>
      reads selector, health
    {
      var service := if rule.serviceId.Some? then rule.serviceId.value else "";
      Destination(rule, o.path, o.instances, Chosen(o, service))
    }

    /** The upstream a matched request asks the breaker about. */
    function Asks(o: Outside): Option<string>
      reads selector, health
    {
      match Route(o)
      case None => None
      case Some(rule) =>
        match DestinationOf(o, rule)
        case Ok(base) => Some(base)
        case Err(_) => None
    }

    /** What the breaker says to that upstream. */
    ghost predicate Admitted(o: Outside, base: string)
      reads breaker
    {
      var history := CircuitBreaker.Of(breaker.history, base);
      CircuitBreaker.Admits(history, breaker.threshold, breaker.recoverySecs, o.askedAt)
    }

    /** If an instance has to be chosen, its choice does not panic. */
    ghost predicate NoPanic(o: Outside, rule: CompiledRoutingRule)
      reads health
    {
      Chooses(rule, o) ==>
        InstanceSelection.Selectable(InstanceSelection.Pool(o.instances.value, health.unhealthy), o.strategy)
    }

    /** Determines the base URL of the upstream; counts the failure if there is none. */
    method FindUpstream(o: Outside, rule: CompiledRoutingRule) returns (base: Result<string, (string, ProxyError)>)
      requires NoPanic(o, rule)
      modifies metrics`failureReasons, selector
      ensures base == old(DestinationOf(o, rule))
      ensures match (rule.upstreamUrl, rule.serviceId)
              case (Some(url), _) => base == Ok(url)
              case (None, None) => base == Err(("no_instances", NoInstances(o.path)))
              case (None, Some(service)) =>
                match o.instances
                case Err(e) => base == Err((FailureCodeForRegistry(e), Registry(e)))
                case Ok(instances) =>
                  if instances == [] then base == Err(("no_instances", NoInstances(service)))
                  else var i := old(Chosen(o, service)); base == Ok("http://" + HostPort(i.host, i.port))
      ensures metrics.failureReasons == if base.Err? then Bump(old(metrics.failureReasons), base.error.0)
                                        else old(metrics.failureReasons)
      ensures selector.counters == NextCounters(old(selector.counters), Rotates(rule, o))
    {
      hide InstanceSelection.Pool, InstanceSelection.Healthy, InstanceSelection.Weights, HostPort;
      if rule.upstreamUrl.Some? {
        return Ok(rule.upstreamUrl.value);
      } else if rule.serviceId.Some? {
        var service := rule.serviceId.value;
        match o.instances {
          case Err(e) =>
            metrics.RecordFailure(FailureCodeForRegistry(e));
            return Err((FailureCodeForRegistry(e), Registry(e)));
          case Ok(instances) =>
            if instances == [] {
              metrics.RecordFailure("no_instances");
              return Err(("no_instances", NoInstances(service)));
            }
            var instance := selector.SelectServiceInstance(instances, service, o.strategy, health, o.word);
            return Ok(BaseUrl(instance));
        }
      } else {
        metrics.RecordFailure("no_instances");
        return Err(("no_instances", NoInstances(o.path)));
      }
    }

    /** What the breaker is told about a request to `base`: the question, and the
        outcome if it lets the request through. */
    ghost function Told(o: Outside, base: string): seq<CircuitBreaker.Event>
      requires o.attempts != []
      reads breaker
    {
      [CircuitBreaker.Event(base, CircuitBreaker.Operation.Allow, o.askedAt)]
      + (if Admitted(o, base) && !o.upgrade then ProxyRetry.Reported(base, o.body, o.attempts) else [])
    }

    /** Asks the breaker and forwards; counts the failure.  `code` is what was counted. */
    method Contact(o: Outside, base: string) returns (res: Reply, code: string)
      requires breaker.Valid() && o.attempts != [] && ForwardingErrors(o.attempts)
      modifies metrics`failureReasons, breaker
      ensures breaker.Valid() && breaker.history == old(breaker.history) + old(Told(o, base))
      ensures breaker.history == old(breaker.history) + [CircuitBreaker.Event(base, CircuitBreaker.Allow, o.askedAt)]
                + (if old(Admitted(o, base)) && !o.upgrade then ProxyRetry.Reported(base, o.body, o.attempts) else [])
      ensures res == if old(Admitted(o, base)) then Forwarded(o)
                     else Err(UpstreamConnection("circuit breaker open for " + base))
      ensures old(Admitted(o, base)) ==>
                res == if !o.upgrade then ProxyRetry.Returned(o.body, o.attempts)
                       else if o.webSocket.Ok? then Ok(o.webSocket.value) else Err(WsUpgrade(o.webSocket.error))
      ensures res.Err? ==> !res.error.PluginError? && code != NO_MATCHING_ROUTE
      ensures res.Err? ==> code == if old(Admitted(o, base)) then FailureCodeForProxy(res.error) else BREAKER_OPEN
      ensures metrics.failureReasons == if res.Err? then Bump(old(metrics.failureReasons), code)
                                        else old(metrics.failureReasons)
    {
      hide CircuitBreaker.Admits, CircuitBreaker.Of, ProxyRetry.Reported, ProxyRetry.Returned, CircuitBreaker.Reflects;
      var allowed := breaker.Allow(base, o.askedAt);
      if !allowed {
        code := BREAKER_OPEN;
        metrics.RecordFailure(code);
        return Err(UpstreamConnection("circuit breaker open for " + base)), code;
      }
      if o.upgrade {
        res := match o.webSocket case Ok(r) => Ok(r) case Err(m) => Err(WsUpgrade(m));
      } else {
        res := ProxyRetry.ProxyWithRetry(breaker, base, |o.attempts| - 1, o.body, o.attempts);
      }
      code := "";
      if res.Err? {
        ForwardedIsNoPluginError(o);
        code := FailureCodeForProxy(res.error);
        metrics.RecordFailure(code);
      }
    }

    method Handle(o: Outside) returns (reply: Reply)
      requires Valid() && o.attempts != [] && ForwardingErrors(o.attempts)
      requires Route(o).Some? ==> NoPanic(o, Route(o).value)
      modifies this, metrics, breaker, selector
      ensures o.onRequest.Continue? ==>
                Route(o) == Resolved(engine, o.snapshot, Request(o.path, o.method', o.onRequest.headers))
      // One entry joins the log, and the counters stay the counts of the log.
      ensures Valid() && |log| == |old(log)| + 1 && log[..|old(log)|] == old(log)
      ensures var entry := log[|old(log)|];
              && entry.reply == reply && (entry.passed <==> o.onRequest.Continue?)
              && entry.hit == match Route(o) case None => None case Some(rule) => Some(rule.id)
      // The breaker is asked once about the destination, and the upstream is only
      // contacted and reported on if it admits the request.
      ensures breaker.history == old(breaker.history)
                + match old(Asks(o)) case None => [] case Some(base) => old(Told(o, base))
      // Only the service that an instance was chosen for moves on in its rotation.
      ensures selector.counters
              == NextCounters(old(selector.counters),
                              match Route(o) case None => None case Some(rule) => Rotates(rule, o))
      // The reply and the counted failure: a plugin's reply, a failure before the
      // upstream, or the upstream's reply if the request was admitted.
      ensures var code := log[|old(log)|].code;
              match o.onRequest
              case Respond(response) => reply == Ok(response) && code == None
              case Fail(message) => reply == Err(PluginError(message)) && code == None
              case Continue(_) =>
                match Route(o)
                case None => reply == Err(NoInstances(o.path)) && code == Some("no_matching_route")
                case Some(rule) =>
                  match old(DestinationOf(o, rule))
                  case Err(failure) => reply == Err(failure.1) && code == Some(failure.0)
                  case Ok(base) =>
                    if !old(Admitted(o, base)) then
                      && reply == Err(UpstreamConnection("circuit breaker open for " + base))
                      && code == Some("circuit_breaker_open")
                    else if Forwarded(o).Err? then
                      reply == Forwarded(o) && code == Some(FailureCodeForProxy(reply.error))
                    else match o.onResponse
                      case Err(message) => reply == Err(PluginError(message)) && code == None
                      case Ok(response) => reply == Ok(response) && code == None
    {
      hide AllConsistent, HitCounts, CodeCounts, CircuitBreaker.Reflects, CircuitBreaker.Admits, CircuitBreaker.Of,
        FirstMatch, Chosen, Forwarded, Told, Admitted, HostPort, Destination;
      var req;
      match o.onRequest {
        case Continue(headers) => req := Request(o.path, o.method', headers);
        case Respond(response) =>
          Finish(Entry(false, None, None, Ok(response)));
          return Ok(response);
        case Fail(message) =>
          reply := Err(PluginError(message));
          Finish(Entry(false, None, None, reply));
          return;
      }
      var route := Resolve(engine, o.snapshot, req);
      if route.None? {
        metrics.RecordFailure(NO_MATCHING_ROUTE);
        reply := Err(NoInstances(o.path));
        Finish(Entry(true, None, Some(NO_MATCHING_ROUTE), reply));
        return;
      }
      var rule := route.value;
      metrics.RecordRouteHit(rule.id);
      var found := FindUpstream(o, rule);
      if found.Err? {
        DestinationFailure(rule, o, old(Chosen(o, if rule.serviceId.Some? then rule.serviceId.value else "")), o.path);
        reply := Err(found.error.1);
        Finish(Entry(true, Some(rule.id), Some(found.error.0), reply));
        return;
      }
      var res, code := Contact(o, found.value);
      if res.Err? {
        reply := res;
        Finish(Entry(true, Some(rule.id), Some(code), reply));
        return;
      }
      match o.onResponse {
        case Err(message) => reply := Err(PluginError(message));
        case Ok(response) => reply := Ok(response);
      }
      Finish(Entry(true, Some(rule.id), None, reply));
    }
  }

  lemma DestinationFailure(rule: CompiledRoutingRule, o: Outside, chosen: ServiceInstance, path: string)
    ensures var d := Destination(rule, path, o.instances, chosen);
            d.Err? ==> d.error.0 != NO_MATCHING_ROUTE && !d.error.1.PluginError?
  {
  }

  lemma ForwardedIsNoPluginError(o: Outside)
    requires o.attempts != [] && ForwardingErrors(o.attempts) && Forwarded(o).Err?
    ensures !Forwarded(o).error.PluginError?
  {
  }

  /** The conservation laws hold of the counters after any run of the gateway. */
  lemma GatewayConserves(g: Gateway)
    requires g.Valid()
    ensures Passed(g.log) == Sum(g.metrics.routeHits) + Get(g.metrics.failureReasons, "no_matching_route")
    ensures Failed(g.log) == Sum(g.metrics.failureReasons)
  {
    CountersConserve(g.log);
  }
}
