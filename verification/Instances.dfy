/** Service instances and their deduplication by (host, port). */
module Instances {
  import opened Text

  datatype ServiceInstance = ServiceInstance(host: string, port: nat, metadata: map<string, string>)

  /** The endpoint an instance stands for. */
  function Endpoint(i: ServiceInstance): (string, nat) {
    (i.host, i.port)
  }

  function EndpointSet(xs: seq<ServiceInstance>): set<(string, nat)> {
    if xs == [] then {} else EndpointSet(xs[..|xs| - 1]) + {Endpoint(xs[|xs| - 1])}
  }

  lemma {:induction false} EndpointSetExact(xs: seq<ServiceInstance>, e: (string, nat))
    ensures e in EndpointSet(xs) <==> exists k :: 0 <= k < |xs| && Endpoint(xs[k]) == e
  {
    if xs != [] {
      var n := |xs| - 1;
      EndpointSetExact(xs[..n], e);
      if k :| 0 <= k < |xs| && Endpoint(xs[k]) == e {
        assert k < n ==> Endpoint(xs[..n][k]) == e;
      }
    }
  }

  lemma {:induction false} EndpointSetAppend(xs: seq<ServiceInstance>, ys: seq<ServiceInstance>)
    ensures EndpointSet(xs + ys) == EndpointSet(xs) + EndpointSet(ys)
  {
    if ys == [] {
      assert xs + ys == xs;
    } else {
      var n := |ys| - 1;
      EndpointSetAppend(xs, ys[..n]);
      assert (xs + ys)[..|xs + ys| - 1] == xs + ys[..n];
    }
  }

  /** Keeps the first instance of every endpoint, in order. */
  function Dedup(xs: seq<ServiceInstance>): seq<ServiceInstance> {
    if xs == [] then []
    else
      var n := |xs| - 1;
      var kept := Dedup(xs[..n]);
      if Endpoint(xs[n]) in EndpointSet(kept) then kept else kept + [xs[n]]
  }

  /** One more instance is kept unless its endpoint has been seen. */
  lemma DedupStep(xs: seq<ServiceInstance>, x: ServiceInstance)
    ensures var (kept, seen) := (Dedup(xs), EndpointSet(Dedup(xs)));
            && Dedup(xs + [x]) == (if Endpoint(x) in seen then kept else kept + [x])
            && EndpointSet(Dedup(xs + [x])) == seen + {Endpoint(x)}
  {
    var kept := Dedup(xs);
    assert (xs + [x])[..|xs + [x]| - 1] == xs;
    assert (kept + [x])[..|kept + [x]| - 1] == kept;
  }

  lemma EndpointSetPush(xs: seq<ServiceInstance>, x: ServiceInstance)
    ensures EndpointSet(xs + [x]) == EndpointSet(xs) + {Endpoint(x)}
  {
    assert (xs + [x])[..|xs + [x]| - 1] == xs;
  }

  /** Appends the instances whose endpoint is new, one by one. */
  function Absorb(kept: seq<ServiceInstance>, xs: seq<ServiceInstance>): seq<ServiceInstance>
    decreases |xs|
  {
    if xs == [] then kept
    else Absorb(if Endpoint(xs[0]) in EndpointSet(kept) then kept else kept + [xs[0]], xs[1..])
  }

  lemma {:induction false} AbsorbAppend(kept: seq<ServiceInstance>, xs: seq<ServiceInstance>, ys: seq<ServiceInstance>)
    ensures Absorb(kept, xs + ys) == Absorb(Absorb(kept, xs), ys)
    decreases |xs|
  {
    hide EndpointSet;
    if xs == [] {
      assert xs + ys == ys;
    } else {
      assert (xs + ys)[1..] == xs[1..] + ys;
      AbsorbAppend(if Endpoint(xs[0]) in EndpointSet(kept) then kept else kept + [xs[0]], xs[1..], ys);
    }
  }

  lemma {:induction false} AbsorbIsDedup(xs: seq<ServiceInstance>, ys: seq<ServiceInstance>)
    ensures Absorb(Dedup(xs), ys) == Dedup(xs + ys)
    decreases |ys|
  {
    hide Dedup, EndpointSet;
    if ys == [] {
      assert xs + ys == xs;
    } else {
      DedupStep(xs, ys[0]);
      AbsorbIsDedup(xs + [ys[0]], ys[1..]);
      assert xs + ys == (xs + [ys[0]]) + ys[1..];
    }
  }

  lemma {:induction false} DedupKeepsEndpoints(xs: seq<ServiceInstance>)
    ensures EndpointSet(Dedup(xs)) == EndpointSet(xs)
  {
    if xs != [] {
      var n := |xs| - 1;
      DedupKeepsEndpoints(xs[..n]);
      assert xs == xs[..n] + [xs[n]];
      DedupStep(xs[..n], xs[n]);
    }
  }

  /** The positions of `xs` whose endpoint does not occur before. */
  function FirstPositions(xs: seq<ServiceInstance>): seq<nat> {
    if xs == [] then []
    else
      var n := |xs| - 1;
      FirstPositions(xs[..n]) + (if Endpoint(xs[n]) in EndpointSet(xs[..n]) then [] else [n])
  }

  /** `Dedup` is the subsequence of `xs` at the first positions: it keeps an
      instance exactly when no earlier one has its endpoint, in the given order. */
  lemma {:induction false} DedupKeepsFirst(xs: seq<ServiceInstance>)
    ensures var ps := FirstPositions(xs);
            && |Dedup(xs)| == |ps|
            && (forall k :: 0 <= k < |ps| ==> ps[k] < |xs| && Dedup(xs)[k] == xs[ps[k]])
            && (forall a, b :: 0 <= a < b < |ps| ==> ps[a] < ps[b])
  {
    hide EndpointSet, Endpoint;
    if xs != [] {
      var n := |xs| - 1;
      assert xs == xs[..n] + [xs[n]];
      DedupKeepsFirst(xs[..n]);
      DedupKeepsEndpoints(xs[..n]);
      DedupStep(xs[..n], xs[n]);
    }
  }

  /** A position is a first one exactly when no earlier one has its endpoint. */
  lemma {:induction false} FirstPositionsExact(xs: seq<ServiceInstance>, p: nat)
    ensures p in FirstPositions(xs)
            <==> p < |xs| && forall q :: 0 <= q < p ==> Endpoint(xs[q]) != Endpoint(xs[p])
  {
    hide Endpoint, EndpointSet;
    if xs != [] {
      var n := |xs| - 1;
      FirstPositionsExact(xs[..n], p);
      assert forall q :: 0 <= q < n ==> xs[..n][q] == xs[q];
      EndpointSetExact(xs[..n], Endpoint(xs[n]));
    }
  }

  /** No endpoint is kept twice. */
  lemma {:induction false} DedupDistinct(xs: seq<ServiceInstance>)
    ensures forall a, b :: 0 <= a < b < |Dedup(xs)| ==> Endpoint(Dedup(xs)[a]) != Endpoint(Dedup(xs)[b])
  {
    if xs != [] {
      var n := |xs| - 1;
      var kept := Dedup(xs[..n]);
      DedupDistinct(xs[..n]);
      EndpointSetExact(kept, Endpoint(xs[n]));
    }
  }

  /** Deduplication can be done piecewise: a kept prefix is never revised. */
  lemma {:induction false} DedupExtends(xs: seq<ServiceInstance>, ys: seq<ServiceInstance>)
    ensures Dedup(xs) <= Dedup(xs + ys)
  {
    if ys == [] {
      assert xs + ys == xs;
    } else {
      var n := |ys| - 1;
      DedupExtends(xs, ys[..n]);
      assert xs + ys == (xs + ys[..n]) + [ys[n]];
      DedupStep(xs + ys[..n], ys[n]);
    }
  }

  /** The string key of an instance names its endpoint. */
  lemma KeyIsEndpoint(a: ServiceInstance, b: ServiceInstance)
    ensures HostPort(a.host, a.port) == HostPort(b.host, b.port) <==> Endpoint(a) == Endpoint(b)
  {
    if HostPort(a.host, a.port) == HostPort(b.host, b.port) {
      HostPortInjective(a.host, a.port, b.host, b.port);
    }
  }
}
