// The watcher that keeps the indexes, and what a Service VIP resolves to
// (internal/aggregator/discovery/service.go, ResolveVIP, SetServices, SetSlices, applyServices,
// applySlices).
module ServiceWatch {
  import opened Prelude
  import opened Addresses
  import opened Indexes
  import opened Ordering
  import opened SliceFold
  import opened SliceGroups
  import opened ServiceIndexes
  import PodIndexes
  import JoinPlacement

  /** The index holds this Service and EndpointSlice state. */
  ghost predicate Indexed(idx: ServiceIndex, services: map<string, ServiceObject>, slices: map<string, Slice>) {
    Owned(idx.services, services, services.Keys) && Grouped(idx.slices, slices)
  }

  /** The pod index and the slices' visits: an IP's ports are exactly the nonzero ports of its ready
      pod-backed endpoints, the addresses are exactly those joined; an IP of such an endpoint is placed
      on a pod that claims it, any other IP where the pod watch puts it. */
  ghost predicate PodIndexOf(idx: PodIndex, visits: set<Visit>, identities: seq<PodIndexes.PodIdentity>) {
    && (forall ip, p :: p in PortsOf(idx, ip) <==> ServesPort(visits, ip, p))
    && (forall a :: a in idx.addrs <==> exists ip, p :: ServesPort(visits, ip, p) && a == JoinHostPort(ip, p))
    && (forall ip | Visited(visits, ip) :: exists v :: v in visits && v.ip == ip && PodForIP(idx, ip) == Some(v.pl))
    && (forall ip | !Visited(visits, ip) :: PodForIP(idx, ip) == PodIndexes.IdentifiedBy(identities, ip))
  }

  ghost predicate ServesPort(visits: set<Visit>, ip: string, p: string) {
    exists v, n :: v in visits && v.ip == ip && n in v.ports && p == Itoa(n)
  }

  lemma PodIndexHolds(index: PodIndexes.PodEndpointIndex, state: map<string, Slice>, order: seq<string>)
    requires index.Valid() && Walk(order, state.Keys) && EntriesOf(index.endpoints, VisitsIn(state, order))
    ensures PodIndexOf(index.Value(), AllVisits(state), index.identities)
  {
    hide Itoa, AllVisits, VisitsIn, Walk, EntriesOf, PodIndexes.Targets, PodIndexes.PlacedBy, PodIndexes.IdentifiedBy, PodIndexes.Distinct;
    var idx, visits := index.Value(), AllVisits(state);
    WalkVisitsAll(state, order);
    VisitsNamePods(state);
    EntriesServeVisits(index.endpoints, VisitsIn(state, order), visits);
    forall ip, p ensures p in PortsOf(idx, ip) <==> ServesPort(visits, ip, p) {
      assert p in PodIndexes.ListOf(index.ports, ip) <==> (ip, p) in PodIndexes.Targets(index.endpoints);
    }
    forall a ensures a in idx.addrs <==> exists ip, p :: ServesPort(visits, ip, p) && a == JoinHostPort(ip, p) {
      if a in idx.addrs {
        var t :| t in PodIndexes.Targets(index.endpoints) && a == JoinHostPort(t.0, t.1);
        assert ServesPort(visits, t.0, t.1);
      }
      if ip, p :| ServesPort(visits, ip, p) && a == JoinHostPort(ip, p) {
        assert (ip, p) in PodIndexes.Targets(index.endpoints);
      }
    }
    hide PodIndexes.Lists, PodIndexes.Joins, ServesPort;
    forall ip | Visited(visits, ip) ensures exists v :: v in visits && v.ip == ip && PodForIP(idx, ip) == Some(v.pl) {
      assert PodIndexes.PlacedBy(index.endpoints, ip).Some?;
    }
  }

  class ServiceWatcher {
    var services: map<string, ServiceEntry>
    var slices: map<string, SliceGroup>
    const podIndex: PodIndexes.PodEndpointIndex
    /** The state last applied to each half. */
    ghost var serviceState: map<string, ServiceObject>
    ghost var sliceState: map<string, Slice>
    /** The order in which the slices were walked for the pod index. */
    ghost var walked: seq<string>

    function Index(): ServiceIndex
      reads this
    {
      ServiceIndex(services, slices)
    }

    /** Both indexes hold the state last applied. */
    ghost predicate Valid()
      reads this, podIndex
    {
      && Indexed(Index(), serviceState, sliceState)
      && Walk(walked, sliceState.Keys)
      && podIndex.Valid() && EntriesOf(podIndex.endpoints, VisitsIn(sliceState, walked))
    }

    constructor (podIndex: PodIndexes.PodEndpointIndex)
      requires podIndex.Valid() && podIndex.endpoints == []
      ensures Valid() && serviceState == map[] && sliceState == map[] && this.podIndex == podIndex
    {
      this.podIndex := podIndex;
      services, slices, serviceState, sliceState, walked := map[], map[], map[], map[], [];
      new;
      EmptyIndexed();
    }

    method ApplyServices(state: map<string, ServiceObject>)
      requires Valid()
      modifies `services, `serviceState
      ensures Valid() && serviceState == state
    {
      hide Owned, Grouped, EntriesOf;
      ghost var order;
      services, order := BuildServices(state);
      serviceState := state;
    }

    /** The pod index then serves and places exactly what the slices say; identities from the pod
        watch stay, and decide where the slices are silent. */
    method ApplySlices(state: map<string, Slice>)
      requires Valid()
      modifies `slices, `sliceState, `walked, podIndex
      ensures Valid() && sliceState == state && podIndex.identities == old(podIndex.identities)
      ensures PodIndexOf(podIndex.Value(), AllVisits(state), podIndex.identities)
    {
      hide Owned, Grouped, EntriesOf, AllVisits, VisitsIn, Walk, PodIndexOf, PodIndexes.Targets, PodIndexes.Lists, PodIndexes.Joins, PodIndexes.Places;
      var entries;
      entries, walked := PodEntries(state);
      podIndex.Replace(entries);
      ghost var order;
      slices, order := BuildSlices(state);
      sliceState := state;
      PodIndexHolds(podIndex, state, walked);
    }

    method ResolveVIP(addr: string) returns (r: Option<Vip>)
      requires Valid()
      ensures r == Indexes.ResolveVIP(Index(), addr)
    {
      hide SplitHostPort, Atoi, Itoa;
      var split := SplitHostPort(addr);
      if split.None? { return None; }
      var port := Atoi(split.value.port);
      if port.None? { return None; }
      if split.value.host !in services { return None; }
      var svc := services[split.value.host];
      var name := FindPort(svc.ports, port.value);
      if name.None? { return None; }
      var key := svc.ref.namespace + "/" + svc.ref.name;
      if key !in slices { return None; }
      var grp := slices[key];
      if name.value !in grp.ports || grp.ports[name.value] == 0 || grp.podIPs == [] { return None; }
      var backends := Backends(grp.podIPs, Itoa(grp.ports[name.value]));
      return Some(Vip(backends, svc.ref));
    }
  }

  method FindPort(ports: seq<ServicePort>, port: int) returns (name: Option<string>)
    ensures name == PortNamed(ports, port)
  {
    assert ports[0..] == ports;
    for i := 0 to |ports|
      invariant PortNamed(ports, port) == PortNamed(ports[i..], port)
    {
      assert ports[i..][1..] == ports[i + 1..];
      if ports[i].port == port { return Some(ports[i].name); }
    }
    return None;
  }

  method Backends(ips: seq<string>, port: string) returns (out: seq<string>)
    ensures out == BackendAddrs(ips, port)
  {
    out := [];
    for i := 0 to |ips|
      invariant |out| == i && forall j | 0 <= j < i :: out[j] == JoinHostPort(ips[j], port)
    {
      out := out + [JoinHostPort(ips[i], port)];
    }
  }

  lemma EmptyIndexed()
    ensures Indexed(ServiceIndex(map[], map[]), map[], map[]) && EntriesOf([], VisitsIn(map[], []))
  {
  }

  // ----- what a VIP resolves to -----

  /** A Service that owns the host publishes the port first under a name for which one of its slices
      gives a target; the backends are its serving addresses in order, each once, at that target. */
  ghost predicate Backing(services: map<string, ServiceObject>, slices: map<string, Slice>, hp: HostPort, vip: Vip,
                          k: string, target: SlicePort, ips: seq<string>) {
    && k in services && Owns(services[k], hp.host) && vip.service == ServiceRef(services[k].namespace, services[k].name)
    && Atoi(hp.port).Some? && Atoi(hp.port).value != 0 && Publishes(services[k].ports, Atoi(hp.port).value, target.name)
    && TargetOf(slices, vip.service, target)
    && Sorted(ips) && (forall ip :: ip in ips <==> ServedBy(slices, vip.service, ip))
    && |vip.backends| == |ips| && forall i | 0 <= i < |ips| :: vip.backends[i] == JoinHostPort(ips[i], Itoa(target.port))
  }

  lemma VipIsBacked(idx: ServiceIndex, services: map<string, ServiceObject>, slices: map<string, Slice>, addr: string)
    requires Indexed(idx, services, slices) && ResolveVIP(idx, addr).Some?
    ensures SplitHostPort(addr).Some?
    ensures exists k, target, ips :: Backing(services, slices, SplitHostPort(addr).value, ResolveVIP(idx, addr).value, k, target, ips)
  {
    hide SplitHostPort, Atoi, Itoa, Claims, GroupPorts, GroupAddresses, Sorted, PortNamed, GroupKey, Populated, Publishes, Nonzero, TargetOf, ServedBy, Owns;
    var hp := SplitHostPort(addr).value;
    var entry := idx.services[hp.host];
    assert Claimed(services, services.Keys, hp.host, entry);
    var k :| k in services && Claims(services[k], hp.host) && entry == EntryOf(services[k]);
    ClaimsIffOwns(services[k], hp.host);
    var grp, port := idx.slices[GroupKey(entry.ref)], Atoi(hp.port).value;
    var name := PortNamed(entry.ports, port).value;
    PortNamedIff(entry.ports, port);
    NonzeroPublishes(services[k].ports, port, name);
    var target := SlicePort(name, grp.ports[name]);
    assert target in GroupPorts(slices, slices.Keys, GroupKey(entry.ref));
    GroupIsTargeted(slices, entry.ref, target);
    forall ip ensures ip in grp.podIPs <==> ServedBy(slices, entry.ref, ip) { GroupIsServed(slices, entry.ref, ip); }
    assert Backing(services, slices, hp, ResolveVIP(idx, addr).value, k, target, grp.podIPs);
  }

  /** With every ClusterIP owned by one Service at most, an address resolves exactly when a Service
      owns its host, publishes its port, has a slice that gives that port name a target, and has a
      serving address. */
  lemma VipResolvesIff(idx: ServiceIndex, services: map<string, ServiceObject>, slices: map<string, Slice>, addr: string, k: string)
    requires Indexed(idx, services, slices) && UniqueIPs(services)
    requires SplitHostPort(addr).Some? && Atoi(SplitHostPort(addr).value.port).Some?
    requires k in services && Owns(services[k], SplitHostPort(addr).value.host)
    ensures var so, port := services[k], Atoi(SplitHostPort(addr).value.port).value;
      var ref := ServiceRef(so.namespace, so.name);
      ResolveVIP(idx, addr).Some? <==>
        && port != 0
        && (exists target :: TargetOf(slices, ref, target) && Publishes(so.ports, port, target.name))
        && (exists ip :: ServedBy(slices, ref, ip))
  {
    hide SplitHostPort, Atoi, Itoa, Claims, Sorted, PortNamed, GroupKey, GroupPorts, GroupAddresses, Populated, Publishes, Nonzero, TargetOf, ServedBy, Owns;
    var host, port := SplitHostPort(addr).value.host, Atoi(SplitHostPort(addr).value.port).value;
    ClaimsIffOwns(services[k], host);
    assert Claimed(services, services.Keys, host, idx.services[host]);
    var entry := EntryOf(services[k]);
    assert idx.services[host] == entry;
    var key := GroupKey(entry.ref);
    GroupMembers(slices, key);
    PortNamedIff(entry.ports, port);
    forall n ensures PortNamed(entry.ports, port) == Some(n) <==> port != 0 && Publishes(services[k].ports, port, n) {
      NonzeroPublishes(services[k].ports, port, n);
    }
    forall p ensures p in GroupPorts(slices, slices.Keys, key) <==> TargetOf(slices, entry.ref, p) { GroupIsTargeted(slices, entry.ref, p); }
    forall ip ensures ip in GroupAddresses(slices, slices.Keys, key) <==> ServedBy(slices, entry.ref, ip) { GroupIsServed(slices, entry.ref, ip); }
    VipParts(idx, slices, entry, key);
    hide Grouped;
  }

  /** The group's half of the condition. */
  lemma VipParts(idx: ServiceIndex, slices: map<string, Slice>, entry: ServiceEntry, key: string)
    requires Grouped(idx.slices, slices) && key == GroupKey(entry.ref)
    ensures forall n :: key in idx.slices && n in idx.slices[key].ports && idx.slices[key].ports[n] != 0 <==>
      exists p :: p in GroupPorts(slices, slices.Keys, key) && p.name == n
    ensures key in idx.slices && idx.slices[key].podIPs != [] <==> exists ip :: ip in GroupAddresses(slices, slices.Keys, key)
  {
    hide GroupKey, GroupPorts, GroupAddresses, Populated, Sorted;
    GroupMembers(slices, key);
    assert key in idx.slices <==> Populated(slices, slices.Keys, key);
    if key in idx.slices {
      var grp := idx.slices[key];
      NoElements(grp.podIPs);
      forall n ensures n in grp.ports && grp.ports[n] != 0 <==> exists p :: p in GroupPorts(slices, slices.Keys, key) && p.name == n {
        if n in grp.ports { assert SlicePort(n, grp.ports[n]) in GroupPorts(slices, slices.Keys, key); }
      }
    }
  }

  /** Published targets are nonzero, and a group with either is populated. */
  lemma GroupMembers(slices: map<string, Slice>, key: string)
    ensures forall p | p in GroupPorts(slices, slices.Keys, key) :: p.port != 0
    ensures !Populated(slices, slices.Keys, key) ==> GroupAddresses(slices, slices.Keys, key) == {} && GroupPorts(slices, slices.Keys, key) == {}
  {
    hide Of, NamedPorts;
    forall p | p in GroupPorts(slices, slices.Keys, key) ensures p.port != 0 {
      var k :| k in slices && Of(slices[k], key) && p in Published(slices[k]);
      PublishedByPort(slices[k].ports);
    }
    if !Populated(slices, slices.Keys, key) { NoneYet(slices, slices.Keys, key); }
  }

  /** An address whose host no Service claims does not resolve. */
  lemma UnclaimedDoesNotResolve(idx: ServiceIndex, services: map<string, ServiceObject>, slices: map<string, Slice>, addr: string)
    requires Indexed(idx, services, slices) && SplitHostPort(addr).Some?
    requires forall k | k in services :: !Owns(services[k], SplitHostPort(addr).value.host)
    ensures ResolveVIP(idx, addr).None?
  {
    hide SplitHostPort, Atoi, Itoa, Claims, EntryOf, Grouped, PortNamed, Owns;
    var host := SplitHostPort(addr).value.host;
    forall k | k in services ensures !Claims(services[k], host) { ClaimsIffOwns(services[k], host); }
    assert host in idx.services ==> Claimed(services, services.Keys, host, idx.services[host]);
  }

  /** The order in which state is walked does not show in any resolution, when ClusterIPs are unique
      and slices of a Service agree on each port name. */
  lemma VipWalkOrderIrrelevant(a: ServiceIndex, b: ServiceIndex, services: map<string, ServiceObject>, slices: map<string, Slice>, addr: string)
    requires Indexed(a, services, slices) && Indexed(b, services, slices) && UniqueIPs(services) && AgreeOnPorts(slices)
    ensures ResolveVIP(a, addr) == ResolveVIP(b, addr)
  {
    hide Owned, Grouped, UniqueIPs, AgreeOnPorts, ResolveVIP;
    OwnedUnique(a.services, b.services, services);
    GroupedUnique(a.slices, b.slices, slices);
    assert a == b;
  }

  /** In slash-free namespaces a group's slices are those labelled with its Service. */
  lemma GroupIsOfService(slice: Slice, ref: ServiceRef)
    requires '/' !in slice.namespace && '/' !in ref.namespace && Of(slice, GroupKey(ref))
    ensures slice.namespace == ref.namespace && slice.service == ref.name
  {
    JoinPlacement.PodIdentInjective(slice.namespace, slice.service, ref.namespace, ref.name);
  }
}
