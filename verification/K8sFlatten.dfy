/** Turning Kubernetes `Endpoints` and `EndpointSlice` objects into service
    instances (src/registry/k8s.rs). */
module K8sFlatten {
  import opened Wrappers
  import opened Machine
  import opened Text
  import opened Instances

  // ----- The service's port filter -----

  datatype TargetPort = Int(number: nat) | Name(name: string)

  datatype ServicePort = ServicePort(targetPort: Option<TargetPort>, protocol: Option<string>)

  /** UDP and SCTP ports cannot be proxied. */
  predicate Excluded(protocol: Option<string>) {
    protocol.Some? && (EqIgnoreAsciiCase(protocol.value, "UDP") || EqIgnoreAsciiCase(protocol.value, "SCTP"))
  }

  lemma ExcludedExactly(protocol: Option<string>)
    ensures Excluded(protocol) <==> protocol.Some? && (Spells(protocol.value, "UDP") || Spells(protocol.value, "SCTP"))
  {
    if protocol.Some? {
      FoldIsLetterwise(protocol.value, "UDP");
      FoldIsLetterwise(protocol.value, "SCTP");
    }
  }

  /** The word in any mixture of ASCII cases. */
  predicate Spells(s: string, word: string) {
    |s| == |word| && forall i :: 0 <= i < |s| ==> SameLetter(s[i], word[i])
  }

  datatype ServiceTcpFilter = ServiceTcpFilter(numericTargets: set<nat>, namedTargets: set<string>) {
    predicate Allows(port: nat, name: Option<string>) {
      || (numericTargets == {} && namedTargets == {})
      || port in numericTargets
      || (name.Some? && name.value in namedTargets)
    }
  }

  /** A service port that restricts the backend ports: not excluded, and naming a
      16-bit number or a non-empty name. */
  predicate Restricts(p: ServicePort) {
    && !Excluded(p.protocol)
    && match p.targetPort
       case None => false
       case Some(Int(v)) => v < U16
       case Some(Name(n)) => n != ""
  }

  method FromServicePorts(ports: seq<ServicePort>) returns (f: ServiceTcpFilter)
    ensures forall v :: v in f.numericTargets <==>
              exists k :: 0 <= k < |ports| && Restricts(ports[k]) && ports[k].targetPort == Some(Int(v))
    ensures forall n :: n in f.namedTargets <==>
              exists k :: 0 <= k < |ports| && Restricts(ports[k]) && ports[k].targetPort == Some(Name(n))
    ensures forall port, name :: f.Allows(port, name) <==> MayPass(ports, port, name)
  {
    var numeric: set<nat> := {};
    var named: set<string> := {};
    for i := 0 to |ports|
      invariant forall v :: v in numeric <==>
                  exists k :: 0 <= k < i && Restricts(ports[k]) && ports[k].targetPort == Some(Int(v))
      invariant forall n :: n in named <==>
                  exists k :: 0 <= k < i && Restricts(ports[k]) && ports[k].targetPort == Some(Name(n))
    {
      if !Excluded(ports[i].protocol) {
        match ports[i].targetPort {
          case Some(Int(v)) =>
            if v < U16 {
              numeric := numeric + {v};
            }
          case Some(Name(n)) =>
            if n != "" {
              named := named + {n};
            }
          case None =>
        }
      }
    }
    f := ServiceTcpFilter(numeric, named);
    FilterAllowsExactly(ports, f);
  }

  /** A backend port passes if no service port restricts, or some restricting one has
      its number or its name. */
  ghost predicate MayPass(ports: seq<ServicePort>, port: nat, name: Option<string>) {
    || (forall k :: 0 <= k < |ports| ==> !Restricts(ports[k]))
    || exists k :: 0 <= k < |ports| && Restricts(ports[k]) && Targets(ports[k].targetPort, port, name)
  }

  predicate Targets(target: Option<TargetPort>, port: nat, name: Option<string>) {
    match target
    case None => false
    case Some(Int(v)) => v == port
    case Some(Name(n)) => name == Some(n)
  }

  lemma FilterAllowsExactly(ports: seq<ServicePort>, f: ServiceTcpFilter)
    requires forall v :: v in f.numericTargets <==>
               exists k :: 0 <= k < |ports| && Restricts(ports[k]) && ports[k].targetPort == Some(Int(v))
    requires forall n :: n in f.namedTargets <==>
               exists k :: 0 <= k < |ports| && Restricts(ports[k]) && ports[k].targetPort == Some(Name(n))
    ensures forall port, name :: f.Allows(port, name) <==> MayPass(ports, port, name)
  {
    forall k | 0 <= k < |ports| && Restricts(ports[k])
      ensures match ports[k].targetPort
              case Some(Int(v)) => v in f.numericTargets
              case Some(Name(n)) => n in f.namedTargets
              case None => false
    {
    }
    forall port, name
      ensures f.Allows(port, name) <==> MayPass(ports, port, name)
    {
    }
  }

  lemma RestrictsExactly(p: ServicePort)
    ensures Restricts(p) <==>
              && !(p.protocol.Some? && (Spells(p.protocol.value, "UDP") || Spells(p.protocol.value, "SCTP")))
              && p.targetPort.Some?
              && (p.targetPort.value.Int? ==> p.targetPort.value.number < 0x1_0000)
              && (p.targetPort.value.Name? ==> p.targetPort.value.name != "")
  {
    ExcludedExactly(p.protocol);
  }

  // ----- The two kinds of objects -----

  datatype EndpointPort = EndpointPort(port: nat, name: Option<string>, protocol: Option<string>)
  datatype Subset = Subset(addresses: Option<seq<string>>, ports: Option<seq<EndpointPort>>)

  datatype SliceEndpoint = SliceEndpoint(addresses: seq<string>, ready: Option<bool>, serving: Option<bool>)
  datatype SlicePort = SlicePort(port: Option<nat>, name: Option<string>, protocol: Option<string>)
  datatype EndpointSlice = EndpointSlice(endpoints: seq<SliceEndpoint>, ports: seq<SlicePort>)

  function OrEmpty<T>(xs: Option<seq<T>>): seq<T> {
    match xs
    case Some(s) => s
    case None => []
  }

  function Bare(host: string, port: nat): ServiceInstance {
    ServiceInstance(host, port, map[])
  }

  /** A slice endpoint that takes new connections. */
  predicate Usable(ep: SliceEndpoint) {
    ep.ready != Some(false) && ep.serving != Some(false)
  }

  // ----- The addresses and ports that pass, in document order -----

  predicate PassesPort(f: ServiceTcpFilter, p: EndpointPort) {
    !Excluded(p.protocol) && f.Allows(p.port, p.name)
  }

  predicate PassesSlicePort(f: ServiceTcpFilter, p: SlicePort) {
    !Excluded(p.protocol) && p.port.Some? && f.Allows(p.port.value, p.name)
  }

  function OnPorts(f: ServiceTcpFilter, host: string, ports: seq<EndpointPort>): seq<ServiceInstance> {
    if ports == [] then []
    else (if PassesPort(f, ports[0]) then [Bare(host, ports[0].port)] else []) + OnPorts(f, host, ports[1..])
  }

  function OnAddresses(f: ServiceTcpFilter, hosts: seq<string>, ports: seq<EndpointPort>): seq<ServiceInstance> {
    if hosts == [] then [] else OnPorts(f, hosts[0], ports) + OnAddresses(f, hosts[1..], ports)
  }

  function OfSubsets(f: ServiceTcpFilter, subsets: seq<Subset>): seq<ServiceInstance> {
    if subsets == [] then []
    else OnAddresses(f, OrEmpty(subsets[0].addresses), OrEmpty(subsets[0].ports)) + OfSubsets(f, subsets[1..])
  }

  function OnSlicePorts(f: ServiceTcpFilter, host: string, ports: seq<SlicePort>): seq<ServiceInstance> {
    if ports == [] then []
    else (if PassesSlicePort(f, ports[0]) then [Bare(host, ports[0].port.value)] else [])
         + OnSlicePorts(f, host, ports[1..])
  }

  function OnSliceAddresses(f: ServiceTcpFilter, hosts: seq<string>, ports: seq<SlicePort>): seq<ServiceInstance> {
    if hosts == [] then [] else OnSlicePorts(f, hosts[0], ports) + OnSliceAddresses(f, hosts[1..], ports)
  }

  function OnSliceEndpoints(f: ServiceTcpFilter, eps: seq<SliceEndpoint>, ports: seq<SlicePort>): seq<ServiceInstance> {
    if eps == [] then []
    else (if Usable(eps[0]) then OnSliceAddresses(f, eps[0].addresses, ports) else [])
         + OnSliceEndpoints(f, eps[1..], ports)
  }

  function OfSlices(f: ServiceTcpFilter, slices: seq<EndpointSlice>): seq<ServiceInstance> {
    if slices == [] then [] else OnSliceEndpoints(f, slices[0].endpoints, slices[0].ports) + OfSlices(f, slices[1..])
  }

  // ----- The code -----

  /** The output list with the set of formatted keys pushed so far. */
  class Collector {
    var out: seq<ServiceInstance>
    var seen: set<string>

    ghost predicate Valid()
      reads this
    {
      && (forall k :: k in seen <==> exists i :: 0 <= i < |out| && HostPort(out[i].host, out[i].port) == k)
    }

    constructor ()
      ensures Valid() && out == []
    {
      out, seen := [], {};
    }

    /** `if seen.insert(key) { out.push(..) }`. */
    method Push(host: string, port: nat)
      requires Valid()
      modifies this
      ensures Valid() && out == Absorb(old(out), [Bare(host, port)])
    {
      var key := HostPort(host, port);
      SeenKey(out, Bare(host, port));
      assert [Bare(host, port)][1..] == [];
      if key !in seen {
        seen := seen + {key};
        out := out + [Bare(host, port)];
        assert forall i :: 0 <= i < |old(out)| ==> out[i] == old(out)[i];
        assert out[|out| - 1] == Bare(host, port);
      }
    }
  }

  /** A formatted key has been seen exactly when the endpoint has. */
  lemma SeenKey(out: seq<ServiceInstance>, x: ServiceInstance)
    ensures (exists i :: 0 <= i < |out| && HostPort(out[i].host, out[i].port) == HostPort(x.host, x.port))
            <==> Endpoint(x) in EndpointSet(out)
  {
    hide EndpointSet, HostPort;
    EndpointSetExact(out, Endpoint(x));
    forall i | 0 <= i < |out|
      ensures HostPort(out[i].host, out[i].port) == HostPort(x.host, x.port) <==> Endpoint(out[i]) == Endpoint(x)
    {
      KeyIsEndpoint(out[i], x);
    }
  }

  method EndpointsToInstances(subsets: Option<seq<Subset>>, f: ServiceTcpFilter) returns (out: seq<ServiceInstance>)
    ensures out == Dedup(OfSubsets(f, OrEmpty(subsets)))
  {
    hide Dedup, EndpointSet, HostPort, Excluded;
    var c := new Collector();
    var all := OrEmpty(subsets);
    StartEmpty(OfSubsets(f, all));
    for i := 0 to |all|
      invariant c.Valid() && fresh(c) && Absorb(c.out, OfSubsets(f, all[i..])) == Dedup(OfSubsets(f, all))
    {
      var addresses, ports := OrEmpty(all[i].addresses), OrEmpty(all[i].ports);
      ghost var later := OfSubsets(f, all[i + 1..]);
      assert all[i..][1..] == all[i + 1..];
      AbsorbAppend(c.out, OnAddresses(f, addresses, ports), later);
      for j := 0 to |addresses|
        invariant c.Valid() && fresh(c)
        invariant Absorb(Absorb(c.out, OnAddresses(f, addresses[j..], ports)), later) == Dedup(OfSubsets(f, all))
      {
        assert addresses[j..][1..] == addresses[j + 1..];
        AbsorbAppend(c.out, OnPorts(f, addresses[j], ports), OnAddresses(f, addresses[j + 1..], ports));
        PushPorts(c, addresses[j], ports, f);
      }
      assert addresses[|addresses|..] == [];
    }
    assert all[|all|..] == [];
    return c.out;
  }

  /** The innermost loop, over the ports of one address. */
  method PushPorts(c: Collector, host: string, ports: seq<EndpointPort>, f: ServiceTcpFilter)
    requires c.Valid()
    modifies c
    ensures c.Valid() && c.out == Absorb(old(c.out), OnPorts(f, host, ports))
  {
    hide EndpointSet, HostPort, Excluded;
    assert ports[0..] == ports;
    for k := 0 to |ports|
      invariant c.Valid() && Absorb(c.out, OnPorts(f, host, ports[k..])) == Absorb(old(c.out), OnPorts(f, host, ports))
    {
      assert ports[k..][1..] == ports[k + 1..];
      ghost var rest := OnPorts(f, host, ports[k + 1..]);
      if PassesPort(f, ports[k]) {
        AbsorbAppend(c.out, [Bare(host, ports[k].port)], rest);
        c.Push(host, ports[k].port);
      } else {
        assert [] + rest == rest;
      }
    }
    assert ports[|ports|..] == [];
  }

  method EndpointSlicesToInstances(slices: seq<EndpointSlice>, f: ServiceTcpFilter) returns (out: seq<ServiceInstance>)
    ensures out == Dedup(OfSlices(f, slices))
  {
    hide Dedup, EndpointSet, HostPort, Excluded;
    var c := new Collector();
    StartEmpty(OfSlices(f, slices));
    assert slices[0..] == slices;
    for i := 0 to |slices|
      invariant c.Valid() && fresh(c) && Absorb(c.out, OfSlices(f, slices[i..])) == Dedup(OfSlices(f, slices))
    {
      var slice := slices[i];
      assert slices[i..][1..] == slices[i + 1..];
      if slice.ports != [] || slice.endpoints != [] {
        AbsorbAppend(c.out, OnSliceEndpoints(f, slice.endpoints, slice.ports), OfSlices(f, slices[i + 1..]));
        PushEndpoints(c, slice.endpoints, slice.ports, f);
      } else {
        assert [] + OfSlices(f, slices[i + 1..]) == OfSlices(f, slices[i + 1..]);
      }
    }
    assert slices[|slices|..] == [];
    return c.out;
  }

  /** The loop over the endpoints of one slice. */
  method PushEndpoints(c: Collector, eps: seq<SliceEndpoint>, ports: seq<SlicePort>, f: ServiceTcpFilter)
    requires c.Valid()
    modifies c
    ensures c.Valid() && c.out == Absorb(old(c.out), OnSliceEndpoints(f, eps, ports))
  {
    hide EndpointSet, HostPort, Excluded;
    assert eps[0..] == eps;
    for i := 0 to |eps|
      invariant c.Valid()
      invariant Absorb(c.out, OnSliceEndpoints(f, eps[i..], ports))
                == Absorb(old(c.out), OnSliceEndpoints(f, eps, ports))
    {
      var ep := eps[i];
      ghost var later := OnSliceEndpoints(f, eps[i + 1..], ports);
      assert eps[i..][1..] == eps[i + 1..];
      if ep.ready == Some(false) || ep.serving == Some(false) {
        assert [] + later == later;
        continue;
      }
      AbsorbAppend(c.out, OnSliceAddresses(f, ep.addresses, ports), later);
      assert ep.addresses[0..] == ep.addresses;
      for j := 0 to |ep.addresses|
        invariant c.Valid()
        invariant Absorb(Absorb(c.out, OnSliceAddresses(f, ep.addresses[j..], ports)), later)
               == Absorb(old(c.out), OnSliceEndpoints(f, eps, ports))
      {
        assert ep.addresses[j..][1..] == ep.addresses[j + 1..];
        AbsorbAppend(c.out, OnSlicePorts(f, ep.addresses[j], ports), OnSliceAddresses(f, ep.addresses[j + 1..], ports));
        PushSlicePorts(c, ep.addresses[j], ports, f);
      }
      assert ep.addresses[|ep.addresses|..] == [];
    }
    assert eps[|eps|..] == [];
  }

  method PushSlicePorts(c: Collector, host: string, ports: seq<SlicePort>, f: ServiceTcpFilter)
    requires c.Valid()
    modifies c
    ensures c.Valid() && c.out == Absorb(old(c.out), OnSlicePorts(f, host, ports))
  {
    hide EndpointSet, HostPort, Excluded;
    assert ports[0..] == ports;
    for k := 0 to |ports|
      invariant c.Valid()
      invariant Absorb(c.out, OnSlicePorts(f, host, ports[k..])) == Absorb(old(c.out), OnSlicePorts(f, host, ports))
    {
      assert ports[k..][1..] == ports[k + 1..];
      ghost var rest := OnSlicePorts(f, host, ports[k + 1..]);
      assert [] + rest == rest;
      if Excluded(ports[k].protocol) {
        continue;
      }
      if ports[k].port.None? {
        continue;
      }
      var port := ports[k].port.value;
      if !f.Allows(port, ports[k].name) {
        continue;
      }
      AbsorbAppend(c.out, [Bare(host, port)], rest);
      c.Push(host, port);
    }
    assert ports[|ports|..] == [];
  }

  lemma StartEmpty(xs: seq<ServiceInstance>)
    ensures Absorb([], xs) == Dedup(xs)
  {
    AbsorbIsDedup([], xs);
    assert [] + xs == xs;
  }

  // ----- The two flatteners agree -----

  /** The subset as a slice in which every address is a ready endpoint. */
  function AsSlice(s: Subset): EndpointSlice {
    var hosts, ports := OrEmpty(s.addresses), OrEmpty(s.ports);
    EndpointSlice(ReadyEndpoints(hosts), SlicePorts(ports))
  }

  function ReadyEndpoints(hosts: seq<string>): seq<SliceEndpoint> {
    seq(|hosts|, k requires 0 <= k < |hosts| => SliceEndpoint([hosts[k]], Some(true), Some(true)))
  }

  function SlicePorts(ports: seq<EndpointPort>): seq<SlicePort> {
    seq(|ports|, k requires 0 <= k < |ports| => SlicePort(Some(ports[k].port), ports[k].name, ports[k].protocol))
  }

  function AsSlices(subsets: seq<Subset>): seq<EndpointSlice> {
    seq(|subsets|, k requires 0 <= k < |subsets| => AsSlice(subsets[k]))
  }

  lemma {:induction false} SamePorts(f: ServiceTcpFilter, host: string, ports: seq<EndpointPort>)
    ensures OnSlicePorts(f, host, SlicePorts(ports)) == OnPorts(f, host, ports)
  {
    if ports != [] {
      SamePorts(f, host, ports[1..]);
      assert SlicePorts(ports)[1..] == SlicePorts(ports[1..]);
    }
  }

  lemma {:induction false} SameAddresses(f: ServiceTcpFilter, hosts: seq<string>, ports: seq<EndpointPort>)
    ensures OnSliceEndpoints(f, ReadyEndpoints(hosts), SlicePorts(ports)) == OnAddresses(f, hosts, ports)
  {
    if hosts != [] {
      SameAddresses(f, hosts[1..], ports);
      SamePorts(f, hosts[0], ports);
      assert ReadyEndpoints(hosts)[1..] == ReadyEndpoints(hosts[1..]);
      var one := OnSlicePorts(f, hosts[0], SlicePorts(ports));
      assert [hosts[0]][1..] == [];
      assert OnSliceAddresses(f, [hosts[0]], SlicePorts(ports)) == one + [] == one;
    }
  }

  lemma {:induction false} SameCandidates(f: ServiceTcpFilter, subsets: seq<Subset>)
    ensures OfSlices(f, AsSlices(subsets)) == OfSubsets(f, subsets)
  {
    if subsets != [] {
      SameCandidates(f, subsets[1..]);
      SameAddresses(f, OrEmpty(subsets[0].addresses), OrEmpty(subsets[0].ports));
      assert AsSlices(subsets)[1..] == AsSlices(subsets[1..]);
    }
  }

  /** Both flatteners return the same sequence for the same endpoints. */
  lemma FlattenersAgree(f: ServiceTcpFilter, subsets: Option<seq<Subset>>)
    ensures Dedup(OfSlices(f, AsSlices(OrEmpty(subsets)))) == Dedup(OfSubsets(f, OrEmpty(subsets)))
  {
    SameCandidates(f, OrEmpty(subsets));
  }

  // ----- What the output holds -----

  /** Some endpoint that takes connections, of some slice, has the address, and the
      slice has the port with a protocol that can be proxied and lets it pass. */
  ghost predicate Offers(f: ServiceTcpFilter, slices: seq<EndpointSlice>, host: string, port: nat) {
    exists i: nat, j: nat, k: nat ::
      && i < |slices| && j < |slices[i].endpoints| && k < |slices[i].ports|
      && slices[i].endpoints[j].ready != Some(false) && slices[i].endpoints[j].serving != Some(false)
      && host in slices[i].endpoints[j].addresses
      && !Excluded(slices[i].ports[k].protocol)
      && slices[i].ports[k].port == Some(port) && f.Allows(port, slices[i].ports[k].name)
  }

  lemma {:induction false} PortsHold(f: ServiceTcpFilter, host: string, ports: seq<SlicePort>, x: ServiceInstance)
    ensures x in OnSlicePorts(f, host, ports)
            <==> exists k :: 0 <= k < |ports| && PassesSlicePort(f, ports[k]) && x == Bare(host, ports[k].port.value)
  {
    if ports != [] {
      PortsHold(f, host, ports[1..], x);
      assert forall k :: 0 <= k < |ports| - 1 ==> ports[1..][k] == ports[k + 1];
      if k :| 0 <= k < |ports| && PassesSlicePort(f, ports[k]) && x == Bare(host, ports[k].port.value) {
        assert k > 0 ==> ports[1..][k - 1] == ports[k];
      }
    }
  }

  lemma {:induction false} AddressesHold(f: ServiceTcpFilter, hosts: seq<string>, ports: seq<SlicePort>,
                                         x: ServiceInstance)
    ensures x in OnSliceAddresses(f, hosts, ports) <==> x.host in hosts && x in OnSlicePorts(f, x.host, ports)
  {
    if hosts != [] {
      AddressesHold(f, hosts[1..], ports, x);
      PortsHold(f, hosts[0], ports, x);
      assert x.host in hosts <==> x.host == hosts[0] || x.host in hosts[1..];
    }
  }

  lemma {:induction false} EndpointsHold(f: ServiceTcpFilter, eps: seq<SliceEndpoint>, ports: seq<SlicePort>,
                                         x: ServiceInstance)
    ensures x in OnSliceEndpoints(f, eps, ports)
            <==> exists j :: 0 <= j < |eps| && Usable(eps[j]) && x in OnSliceAddresses(f, eps[j].addresses, ports)
  {
    hide OnSliceAddresses, Usable;
    if eps != [] {
      EndpointsHold(f, eps[1..], ports, x);
      assert forall j :: 0 <= j < |eps| - 1 ==> eps[1..][j] == eps[j + 1];
      if j :| 0 <= j < |eps| && Usable(eps[j]) && x in OnSliceAddresses(f, eps[j].addresses, ports) {
        assert j > 0 ==> eps[1..][j - 1] == eps[j];
      }
    }
  }

  lemma {:induction false} SlicesHold(f: ServiceTcpFilter, slices: seq<EndpointSlice>, x: ServiceInstance)
    ensures x in OfSlices(f, slices)
            <==> exists i :: 0 <= i < |slices| && x in OnSliceEndpoints(f, slices[i].endpoints, slices[i].ports)
  {
    hide OnSliceEndpoints;
    if slices != [] {
      SlicesHold(f, slices[1..], x);
      assert forall i :: 0 <= i < |slices| - 1 ==> slices[1..][i] == slices[i + 1];
      if i :| 0 <= i < |slices| && x in OnSliceEndpoints(f, slices[i].endpoints, slices[i].ports) {
        assert i > 0 ==> slices[1..][i - 1] == slices[i];
      }
    }
  }

  lemma CandidatesExact(f: ServiceTcpFilter, slices: seq<EndpointSlice>, x: ServiceInstance)
    ensures x in OfSlices(f, slices) <==> x.metadata == map[] && Offers(f, slices, x.host, x.port)
  {
    hide OnSliceEndpoints, OnSliceAddresses, OnSlicePorts, OfSlices, Excluded;
    SlicesHold(f, slices, x);
    if x in OfSlices(f, slices) {
      var i :| 0 <= i < |slices| && x in OnSliceEndpoints(f, slices[i].endpoints, slices[i].ports);
      EndpointsHold(f, slices[i].endpoints, slices[i].ports, x);
      var j :| 0 <= j < |slices[i].endpoints| && Usable(slices[i].endpoints[j])
               && x in OnSliceAddresses(f, slices[i].endpoints[j].addresses, slices[i].ports);
      AddressesHold(f, slices[i].endpoints[j].addresses, slices[i].ports, x);
      PortsHold(f, x.host, slices[i].ports, x);
      var k :| 0 <= k < |slices[i].ports| && PassesSlicePort(f, slices[i].ports[k])
               && x == Bare(x.host, slices[i].ports[k].port.value);
    }
    if x.metadata == map[] && Offers(f, slices, x.host, x.port) {
      var i: nat, j: nat, k: nat :|
        && i < |slices| && j < |slices[i].endpoints| && k < |slices[i].ports|
        && slices[i].endpoints[j].ready != Some(false) && slices[i].endpoints[j].serving != Some(false)
        && x.host in slices[i].endpoints[j].addresses
        && !Excluded(slices[i].ports[k].protocol)
        && slices[i].ports[k].port == Some(x.port) && f.Allows(x.port, slices[i].ports[k].name);
      assert x == Bare(x.host, slices[i].ports[k].port.value);
      PortsHold(f, x.host, slices[i].ports, x);
      AddressesHold(f, slices[i].endpoints[j].addresses, slices[i].ports, x);
      EndpointsHold(f, slices[i].endpoints, slices[i].ports, x);
    }
  }

  /** The output has no repeated (host, port) and holds exactly the endpoints that
      the slices offer; by `FlattenersAgree` this holds for subsets as well.  That
      first occurrences are kept in order is `Instances.DedupKeepsFirst`. */
  lemma OutputExact(f: ServiceTcpFilter, slices: seq<EndpointSlice>, host: string, port: nat)
    ensures var out := Dedup(OfSlices(f, slices));
            && ((host, port) in EndpointSet(out) <==> Offers(f, slices, host, port))
            && forall a, b :: 0 <= a < b < |out| ==> Endpoint(out[a]) != Endpoint(out[b])
  {
    hide Dedup, EndpointSet, OfSlices, Offers;
    var all := OfSlices(f, slices);
    DedupDistinct(all);
    DedupKeepsEndpoints(all);
    EndpointSetExact(all, (host, port));
    CandidatesExact(f, slices, Bare(host, port));
    if k :| 0 <= k < |all| && Endpoint(all[k]) == (host, port) {
      assert all[k] in all;
      CandidatesExact(f, slices, all[k]);
    }
    if Bare(host, port) in all {
      var k :| 0 <= k < |all| && all[k] == Bare(host, port);
      assert Endpoint(all[k]) == (host, port);
    }
  }

  /** Some subset lists the address, and a port with a protocol that can be proxied and
      that passes. */
  ghost predicate SubsetOffers(f: ServiceTcpFilter, subsets: Option<seq<Subset>>, host: string, port: nat) {
    subsets.Some? && exists i: nat, k: nat ::
      i < |subsets.value| && subsets.value[i].addresses.Some? && subsets.value[i].ports.Some?
      && host in subsets.value[i].addresses.value && k < |subsets.value[i].ports.value|
      && !Excluded(subsets.value[i].ports.value[k].protocol) && subsets.value[i].ports.value[k].port == port
      && f.Allows(port, subsets.value[i].ports.value[k].name)
  }

  /** The slice of the `i`-th subset. */
  lemma SliceOf(subsets: seq<Subset>, i: nat)
    requires i < |subsets|
    ensures var (hosts, ports) := (OrEmpty(subsets[i].addresses), OrEmpty(subsets[i].ports));
            var slice := AsSlices(subsets)[i];
            && |slice.endpoints| == |hosts| && |slice.ports| == |ports|
            && (forall j :: 0 <= j < |hosts| ==>
                  slice.endpoints[j] == SliceEndpoint([hosts[j]], Some(true), Some(true)))
            && forall k :: 0 <= k < |ports| ==>
                 slice.ports[k] == SlicePort(Some(ports[k].port), ports[k].name, ports[k].protocol)
  {
  }

  lemma AsManySlices(subsets: seq<Subset>)
    ensures |AsSlices(subsets)| == |subsets|
  {
  }

  lemma SubsetsOfferLikeSlices(f: ServiceTcpFilter, subsets: Option<seq<Subset>>, host: string, port: nat)
    ensures Offers(f, AsSlices(OrEmpty(subsets)), host, port) <==> SubsetOffers(f, subsets, host, port)
  {
    hide AsSlices, Excluded;
    var slices := AsSlices(OrEmpty(subsets));
    AsManySlices(OrEmpty(subsets));
    if Offers(f, slices, host, port) {
      var i: nat, j: nat, k: nat :|
        && i < |slices| && j < |slices[i].endpoints| && k < |slices[i].ports|
        && slices[i].endpoints[j].ready != Some(false) && slices[i].endpoints[j].serving != Some(false)
        && host in slices[i].endpoints[j].addresses
        && !Excluded(slices[i].ports[k].protocol)
        && slices[i].ports[k].port == Some(port) && f.Allows(port, slices[i].ports[k].name);
      SliceOf(OrEmpty(subsets), i);
      assert host == subsets.value[i].addresses.value[j];
      assert slices[i].ports[k].name == subsets.value[i].ports.value[k].name;
    }
    if SubsetOffers(f, subsets, host, port) {
      var i: nat, k: nat :|
        i < |subsets.value| && subsets.value[i].addresses.Some? && subsets.value[i].ports.Some?
        && host in subsets.value[i].addresses.value && k < |subsets.value[i].ports.value|
        && !Excluded(subsets.value[i].ports.value[k].protocol) && subsets.value[i].ports.value[k].port == port
        && f.Allows(port, subsets.value[i].ports.value[k].name);
      var hosts := subsets.value[i].addresses.value;
      var j: nat :| j < |hosts| && hosts[j] == host;
      SliceOf(subsets.value, i);
      assert slices[i].endpoints[j].addresses == [host] && slices[i].ports[k].port == Some(port);
    }
  }

  /** What the first flattener returns, in the terms of its own input. */
  lemma SubsetOutputExact(f: ServiceTcpFilter, subsets: Option<seq<Subset>>, host: string, port: nat)
    ensures var out := Dedup(OfSubsets(f, OrEmpty(subsets)));
            && ((host, port) in EndpointSet(out) <==> SubsetOffers(f, subsets, host, port))
            && forall a, b :: 0 <= a < b < |out| ==> Endpoint(out[a]) != Endpoint(out[b])
  {
    hide Dedup, EndpointSet, OfSlices, OfSubsets, Offers, SubsetOffers, AsSlices, Endpoint;
    FlattenersAgree(f, subsets);
    OutputExact(f, AsSlices(OrEmpty(subsets)), host, port);
    SubsetsOfferLikeSlices(f, subsets, host, port);
  }
}
