// The two indexes a join consults, as values with their lookups: pod endpoints
// (internal/aggregator/discovery/podindex.go) and Service VIPs (discovery/service.go).
module Indexes {
  import opened Prelude
  import opened Addresses

  /** The pod an IP belongs to. */
  datatype Placement = Placement(namespace: string, pod: string)

  /** `ports` lists an endpoint IP's target ports; `byIP` comes from EndpointSlices, `podIP` from
      the pod watch. */
  datatype PodIndex = PodIndex(
    addrs: set<string>, ports: map<string, seq<string>>,
    byIP: map<string, Placement>, podIP: map<string, Placement>)

  function PortsOf(idx: PodIndex, host: string): seq<string> {
    if host in idx.ports then idx.ports[host] else []
  }

  function ResolvePodAddr(idx: PodIndex, addr: string): Option<string> {
    match SplitHostPort(addr)
    case None => None
    case Some(hp) =>
      if addr in idx.addrs then Some(addr)
      else if hp.port in PortsOf(idx, hp.host) then Some(addr)
      else if |PortsOf(idx, hp.host)| == 1 then Some(JoinHostPort(hp.host, PortsOf(idx, hp.host)[0]))
      else None
  }

  function PodForIP(idx: PodIndex, ip: string): Option<Placement> {
    if ip in idx.byIP then Some(idx.byIP[ip])
    else if ip in idx.podIP then Some(idx.podIP[ip])
    else None
  }

  datatype ServiceRef = ServiceRef(namespace: string, name: string)

  datatype ServicePort = ServicePort(port: int, name: string)

  datatype ServiceEntry = ServiceEntry(ref: ServiceRef, ports: seq<ServicePort>)

  /** All EndpointSlices of one Service: numeric target port by name, and ready backend IPs. */
  datatype SliceGroup = SliceGroup(ports: map<string, int>, podIPs: seq<string>)

  /** `services` is keyed by ClusterIP, `slices` by "namespace/name". */
  datatype ServiceIndex = ServiceIndex(services: map<string, ServiceEntry>, slices: map<string, SliceGroup>)

  /** A resolved Service VIP: its backends' addresses and its identity. */
  datatype Vip = Vip(backends: seq<string>, service: ServiceRef)

  function GroupKey(ref: ServiceRef): string {
    ref.namespace + "/" + ref.name
  }

  /** The first published port with that number. */
  function PortNamed(ports: seq<ServicePort>, port: int): Option<string> {
    if ports == [] then None
    else if ports[0].port == port then Some(ports[0].name)
    else PortNamed(ports[1..], port)
  }

  /** The first port with that number has that name. */
  ghost predicate Publishes(ports: seq<ServicePort>, port: int, name: string) {
    exists i :: 0 <= i < |ports| && ports[i] == ServicePort(port, name) && forall j | 0 <= j < i :: ports[j].port != port
  }

  lemma {:induction false} PortNamedIff(ports: seq<ServicePort>, port: int)
    ensures forall n :: PortNamed(ports, port) == Some(n) <==> Publishes(ports, port, n)
    ensures PortNamed(ports, port).None? <==> forall i | 0 <= i < |ports| :: ports[i].port != port
  {
    if ports != [] && ports[0].port != port {
      var rest := ports[1..];
      PortNamedIff(rest, port);
      assert forall i | 0 < i < |ports| :: ports[i] == rest[i - 1];
      forall n ensures Publishes(ports, port, n) <==> Publishes(rest, port, n) {
        if i :| 0 <= i < |rest| && rest[i] == ServicePort(port, n) && forall j | 0 <= j < i :: rest[j].port != port {
          assert ports[i + 1] == ServicePort(port, n);
        }
        if i :| 0 <= i < |ports| && ports[i] == ServicePort(port, n) && forall j | 0 <= j < i :: ports[j].port != port {
          assert rest[i - 1] == ServicePort(port, n) && forall j | 0 <= j < i - 1 :: rest[j].port == ports[j + 1].port;
        }
      }
    } else if ports != [] {
      forall n ensures Publishes(ports, port, n) <==> n == ports[0].name {
        if n == ports[0].name { assert ports[0] == ServicePort(port, n); }
      }
    }
  }

  function BackendAddrs(ips: seq<string>, port: string): (r: seq<string>)
    ensures |r| == |ips| && forall i | 0 <= i < |ips| :: r[i] == JoinHostPort(ips[i], port)
  {
    seq(|ips|, i requires 0 <= i < |ips| => JoinHostPort(ips[i], port))
  }

  function ResolveVIP(idx: ServiceIndex, addr: string): Option<Vip> {
    match SplitHostPort(addr)
    case None => None
    case Some(hp) =>
      match Atoi(hp.port)
      case None => None
      case Some(port) =>
        if hp.host !in idx.services then None
        else
          var svc := idx.services[hp.host];
          match PortNamed(svc.ports, port)
          case None => None
          case Some(name) =>
            if GroupKey(svc.ref) !in idx.slices then None
            else
              var grp := idx.slices[GroupKey(svc.ref)];
              if name !in grp.ports || grp.ports[name] == 0 || grp.podIPs == [] then None
              else Some(Vip(BackendAddrs(grp.podIPs, Itoa(grp.ports[name])), svc.ref))
  }
}
