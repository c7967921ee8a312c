/** In-memory proxy counters and failure codes (src/server/metrics.rs). */
module Metrics {
  import opened Errors

  function Get(m: map<string, nat>, key: string): nat {
    if key in m then m[key] else 0
  }

  /** `entry(key).and_modify(|c| *c += 1).or_insert(1)`. */
  function Bump(m: map<string, nat>, key: string): map<string, nat> {
    m[key := Get(m, key) + 1]
  }

  class ProxyMetrics {
    var routeHits: map<string, nat>
    var failureReasons: map<string, nat>

    constructor ()
      ensures routeHits == map[] && failureReasons == map[]
    {
      routeHits, failureReasons := map[], map[];
    }

    method RecordRouteHit(ruleId: string)
      modifies this`routeHits
      ensures routeHits == Bump(old(routeHits), ruleId)
    {
      if ruleId in routeHits {
        routeHits := routeHits[ruleId := routeHits[ruleId] + 1];
      } else {
        routeHits := routeHits[ruleId := 1];
      }
    }

    method RecordFailure(reasonCode: string)
      modifies this`failureReasons
      ensures failureReasons == Bump(old(failureReasons), reasonCode)
    {
      if reasonCode in failureReasons {
        failureReasons := failureReasons[reasonCode := failureReasons[reasonCode] + 1];
      } else {
        failureReasons := failureReasons[reasonCode := 1];
      }
    }
  }

  const NO_MATCHING_ROUTE := "no_matching_route"

  function FailureCodeForRegistry(e: RegistryError): (code: string)
    ensures code != NO_MATCHING_ROUTE
  {
    match e
    case Http(_) => "registry_http"
    case UnexpectedResponse(_) => "registry_unexpected"
    case ServiceNotFound(_) => "registry_not_found"
    case AuthFailed => "registry_auth_failed"
    case AllFailed(_) => "registry_all_failed"
  }

  function FailureCodeForProxy(e: ProxyError): (code: string)
    ensures code != NO_MATCHING_ROUTE
  {
    match e
    case NoInstances(_) => "no_instances"
    case Registry(cause) => FailureCodeForRegistry(cause)
    case UpstreamConnection(_) => "upstream_connection"
    case WsUpgrade(_) => "ws_upgrade"
    case BodyRead(_) => "body_read"
    case PluginError(_) => "plugin_error"
  }

  /** The same kind of error, down to the registry's own. */
  predicate SameKind(a: ProxyError, b: ProxyError) {
    match (a, b)
    case (NoInstances(_), NoInstances(_)) => true
    case (Registry(x), Registry(y)) =>
      && x.Http? == y.Http? && x.UnexpectedResponse? == y.UnexpectedResponse?
      && x.ServiceNotFound? == y.ServiceNotFound? && x.AuthFailed? == y.AuthFailed?
    case (UpstreamConnection(_), UpstreamConnection(_)) => true
    case (WsUpgrade(_), WsUpgrade(_)) => true
    case (BodyRead(_), BodyRead(_)) => true
    case (PluginError(_), PluginError(_)) => true
    case _ => false
  }

  /** A code is stable and tells the kind of error: two errors share a code if and
      only if they are of one kind. */
  lemma CodesTellKinds(a: ProxyError, b: ProxyError)
    ensures FailureCodeForProxy(a) == FailureCodeForProxy(b) <==> SameKind(a, b)
    ensures match a
            case NoInstances(_) => FailureCodeForProxy(a) == "no_instances"
            case UpstreamConnection(_) => FailureCodeForProxy(a) == "upstream_connection"
            case WsUpgrade(_) => FailureCodeForProxy(a) == "ws_upgrade"
            case BodyRead(_) => FailureCodeForProxy(a) == "body_read"
            case PluginError(_) => FailureCodeForProxy(a) == "plugin_error"
            case Registry(Http(_)) => FailureCodeForProxy(a) == "registry_http"
            case Registry(UnexpectedResponse(_)) => FailureCodeForProxy(a) == "registry_unexpected"
            case Registry(ServiceNotFound(_)) => FailureCodeForProxy(a) == "registry_not_found"
            case Registry(AuthFailed) => FailureCodeForProxy(a) == "registry_auth_failed"
            case Registry(AllFailed(_)) => FailureCodeForProxy(a) == "registry_all_failed"
  {
    var x, y := FailureCodeForProxy(a), FailureCodeForProxy(b);
    assert |x| == |y| && |x| > 9 && !SameKind(a, b) ==> x[9] != y[9] || x[0] != y[0];
  }

  // ----- Sums over counter maps -----

  ghost function Sum(m: map<string, nat>): nat
    decreases |m|
  {
    if m == map[] then 0
    else
      var k :| k in m;
      RemoveSmaller(m, k);
      m[k] + Sum(m - {k})
  }

  lemma RemoveSmaller(m: map<string, nat>, k: string)
    requires k in m
    ensures |m - {k}| < |m|
  {
    assert (m - {k}).Keys == m.Keys - {k};
    assert |m.Keys - {k}| < |m.Keys|;
  }

  /** The sum does not depend on the order of summation. */
  lemma {:induction false} SumRemove(m: map<string, nat>, k: string)
    requires k in m
    ensures Sum(m) == m[k] + Sum(m - {k})
    decreases |m|
  {
    var j :| j in m && Sum(m) == m[j] + Sum(m - {j});
    if j != k {
      RemoveSmaller(m, j);
      RemoveSmaller(m, k);
      SumRemove(m - {j}, k);
      SumRemove(m - {k}, j);
      assert (m - {j}) - {k} == (m - {k}) - {j};
    }
  }

  lemma SumBump(m: map<string, nat>, k: string)
    ensures Sum(Bump(m, k)) == Sum(m) + 1
  {
    var n := Bump(m, k);
    SumRemove(n, k);
    if k in m {
      SumRemove(m, k);
      assert n - {k} == m - {k};
    } else {
      assert n - {k} == m;
    }
  }
}
