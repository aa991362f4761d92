// The cluster listener registry as a value: stored entries, the live view of them, and the
// four-path join (internal/aggregator/clusterpeers/registry.go).
module Peers {
  import opened Prelude
  import opened Addresses
  import opened Indexes

  const NoService := ServiceRef("", "")

  datatype Listener = Listener(
    addr: string, port: string, pid: string, process: string, wildcard: bool,
    nodeName: string, namespace: string, pod: string, container: string, containerId: string, image: string,
    service: ServiceRef, replicaAmbiguous: bool, replicaCount: nat, expires: int)

  datatype How = Direct | Endpointslice | Wildcard | ServiceVip

  datatype Answer = Answer(listener: Listener, how: How)

  /** The optional indexes a join consults; `locating` when the endpoint resolver is also the pod
      locator, as the pod index is. */
  datatype Resolvers = Resolvers(pods: Option<PodIndex>, locating: bool, services: Option<ServiceIndex>)

  predicate HasLocator(res: Resolvers) {
    res.pods.Some? && res.locating
  }

  /** The two key spaces: exact addresses, and wildcard ports per pod. */
  datatype Key = Exact(addr: string) | Wild(portKey: string, ident: string)

  datatype Reg = Reg(exact: map<string, Listener>, wild: map<string, map<string, Listener>>)

  function PodIdent(namespace: string, pod: string): string {
    namespace + "/" + pod
  }

  function PortOf(explicit: string, addr: string): string {
    if explicit != "" then explicit
    else
      match SplitHostPort(addr)
      case Some(hp) => hp.port
      case None => ""
  }

  /** The key an advertise writes and a withdraw removes; none for a listener that is ignored. */
  function KeyOf(l: Listener): Option<Key> {
    if l.addr == "" then None
    else if !l.wildcard then Some(Exact(l.addr))
    else if PortOf(l.port, l.addr) == "" then None
    else Some(Wild(":" + PortOf(l.port, l.addr), PodIdent(l.namespace, l.pod)))
  }

  predicate Unexpired(l: Listener, now: int) {
    l.expires > now
  }

  function Inner(r: Reg, portKey: string): map<string, Listener> {
    if portKey in r.wild then r.wild[portKey] else map[]
  }

  function Lookup(r: Reg, k: Key): Option<Listener> {
    match k
    case Exact(addr) => if addr in r.exact then Some(r.exact[addr]) else None
    case Wild(portKey, ident) => if ident in Inner(r, portKey) then Some(Inner(r, portKey)[ident]) else None
  }

  // ----- updates -----

  function Observe(r: Reg, l: Listener, now: int, ttl: int): Reg {
    var l' := l.(expires := now + ttl);
    match KeyOf(l)
    case None => r
    case Some(Exact(addr)) => r.(exact := r.exact[addr := l'])
    case Some(Wild(portKey, ident)) => r.(wild := r.wild[portKey := Inner(r, portKey)[ident := l']])
  }

  function Remove(r: Reg, l: Listener): Reg {
    match KeyOf(l)
    case None => r
    case Some(Exact(addr)) => r.(exact := r.exact - {addr})
    case Some(Wild(portKey, ident)) =>
      var inner := Inner(r, portKey) - {ident};
      r.(wild := if inner == map[] then r.wild - {portKey} else r.wild[portKey := inner])
  }

  function LiveOf(m: map<string, Listener>, now: int): map<string, Listener> {
    map k | k in m && Unexpired(m[k], now) :: m[k]
  }

  /** Expired entries dropped, and with them inner maps left empty. */
  function Sweep(r: Reg, now: int): Reg {
    Reg(LiveOf(r.exact, now), map p | p in r.wild && LiveOf(r.wild[p], now) != map[] :: LiveOf(r.wild[p], now))
  }

  ghost predicate NoEmptyInner(r: Reg) {
    forall p | p in r.wild :: r.wild[p] != map[]
  }

  // ----- the event history -----

  datatype Event = Observed(l: Listener, at: int) | Removed(l: Listener) | Swept(at: int)

  /** The latest event on a key, as the entry it left, if any. */
  function Latest(h: seq<Event>, ttl: int, k: Key): Option<Listener> {
    if h == [] then None
    else
      var init := h[..|h| - 1];
      match h[|h| - 1]
      case Observed(l, at) => if KeyOf(l) == Some(k) then Some(l.(expires := at + ttl)) else Latest(init, ttl, k)
      case Removed(l) => if KeyOf(l) == Some(k) then None else Latest(init, ttl, k)
      case Swept(_) => Latest(init, ttl, k)
  }

  // ----- the join, over whatever says which entries are live -----

  /** Where entries come from: the registry's maps, or its history of events. */
  datatype Source = Stored(r: Reg, now: int) | Recorded(h: seq<Event>, ttl: int, now: int)

  /** The live entry under a key. In a history: the key's latest event is an observation younger
      than the TTL. */
  function At(src: Source, k: Key): Option<Listener> {
    var entry :=
      match src
      case Stored(r, _) => Lookup(r, k)
      case Recorded(h, ttl, _) => Latest(h, ttl, k);
    if entry.Some? && Unexpired(entry.value, src.now) then entry else None
  }

  /** Only a positive disagreement of the pod index rejects an exact entry. */
  predicate StillOwns(res: Resolvers, l: Listener, addr: string) {
    !HasLocator(res) || l.pod == "" || SplitHostPort(addr).None? ||
    match PodForIP(res.pods.value, SplitHostPort(addr).value.host)
    case None => true
    case Some(pl) => pl == Placement(l.namespace, l.pod)
  }

  function LiveExact(src: Source, res: Resolvers, addr: string): Option<Listener> {
    match At(src, Exact(addr))
    case Some(l) => if StillOwns(res, l, addr) then Some(l) else None
    case None => None
  }

  /** Exactly one live wildcard listener holds the port. */
  ghost predicate IsSole(src: Source, portKey: string, ident: string) {
    At(src, Wild(portKey, ident)).Some? && forall other :: At(src, Wild(portKey, other)).Some? ==> other == ident
  }

  ghost function Sole(src: Source, portKey: string): Option<Listener> {
    if ident :| IsSole(src, portKey, ident) then At(src, Wild(portKey, ident)) else None
  }

  ghost function LiveWild(src: Source, res: Resolvers, addr: string): Option<Listener> {
    match SplitHostPort(addr)
    case None => None
    case Some(hp) =>
      if hp.port == "" then None
      else if !HasLocator(res) then Sole(src, ":" + hp.port)
      else
        match PodForIP(res.pods.value, hp.host)
        case None => None
        case Some(pl) =>
          var own := At(src, Wild(":" + hp.port, PodIdent(pl.namespace, pl.pod)));
          if own.Some? then own
          else
            var sole := Sole(src, ":" + hp.port);
            if sole.Some? && sole.value.pod == pl.pod then sole else None
  }

  ghost function LiveAt(src: Source, res: Resolvers, addr: string): Option<Listener> {
    if LiveExact(src, res, addr).Some? then LiveExact(src, res, addr) else LiveWild(src, res, addr)
  }

  /** The live listeners among the backends, in order. */
  ghost function LiveBackends(src: Source, res: Resolvers, backends: seq<string>): seq<Listener> {
    if backends == [] then []
    else
      var n := |backends| - 1;
      LiveBackends(src, res, backends[..n]) +
      match LiveAt(src, res, backends[n])
      case Some(l) => [l]
      case None => []
  }

  predicate SameWorkload(a: Listener, b: Listener) {
    a.process == b.process && a.image == b.image
  }

  /** One identity for a Service's live backends: none when there are none or they disagree. */
  function Representative(live: seq<Listener>, svc: ServiceRef): Option<Listener> {
    if live == [] then None
    else if |live| == 1 then Some(live[0].(service := svc))
    else if forall i | 0 < i < |live| :: SameWorkload(live[i], live[0]) then
      Some(live[0].(service := svc, replicaAmbiguous := true, replicaCount := |live|))
    else None
  }

  ghost function ResolveVip(src: Source, res: Resolvers, backends: seq<string>, svc: ServiceRef): Option<Listener> {
    Representative(LiveBackends(src, res, backends), svc)
  }

  /** The four resolution paths in order. */
  ghost function JoinBy(src: Source, res: Resolvers, addr: string): Option<Answer> {
    if LiveExact(src, res, addr).Some? then Some(Answer(LiveExact(src, res, addr).value, Direct))
    else if ViaEndpoint(src, res, addr).Some? then Some(Answer(ViaEndpoint(src, res, addr).value, Endpointslice))
    else if ViaVip(src, res, addr).Some? then Some(Answer(ViaVip(src, res, addr).value, ServiceVip))
    else if LiveWild(src, res, addr).Some? then Some(Answer(LiveWild(src, res, addr).value, Wildcard))
    else None
  }

  ghost function ViaEndpoint(src: Source, res: Resolvers, addr: string): Option<Listener> {
    if res.pods.None? || ResolvePodAddr(res.pods.value, addr).None? then None
    else LiveAt(src, res, ResolvePodAddr(res.pods.value, addr).value)
  }

  ghost function ViaVip(src: Source, res: Resolvers, addr: string): Option<Listener> {
    if res.services.None? || ResolveVIP(res.services.value, addr).None? then None
    else
      var vip := ResolveVIP(res.services.value, addr).value;
      ResolveVip(src, res, vip.backends, vip.service)
  }

  // ----- the join depends on the live entries only -----

  ghost predicate SameLive(a: Source, b: Source) {
    forall k :: At(a, k) == At(b, k)
  }

  lemma SoleUnique(src: Source, portKey: string, ident: string)
    requires IsSole(src, portKey, ident)
    ensures Sole(src, portKey) == At(src, Wild(portKey, ident))
  {
    hide At;
  }

  lemma SameSole(a: Source, b: Source, portKey: string)
    requires SameLive(a, b)
    ensures Sole(a, portKey) == Sole(b, portKey)
  {
    hide At;
    assert forall ident :: IsSole(a, portKey, ident) <==> IsSole(b, portKey, ident);
    if ident :| IsSole(a, portKey, ident) {
      SoleUnique(a, portKey, ident);
      SoleUnique(b, portKey, ident);
    }
  }

  lemma SameAt(a: Source, b: Source, res: Resolvers, addr: string)
    requires SameLive(a, b)
    ensures LiveExact(a, res, addr) == LiveExact(b, res, addr)
    ensures LiveWild(a, res, addr) == LiveWild(b, res, addr)
    ensures LiveAt(a, res, addr) == LiveAt(b, res, addr)
  {
    hide At, Sole, SplitHostPort, PodForIP, StillOwns;
    match SplitHostPort(addr)
    case Some(hp) => SameSole(a, b, ":" + hp.port);
    case None =>
  }

  lemma {:induction false} SameBackends(a: Source, b: Source, res: Resolvers, backends: seq<string>)
    requires SameLive(a, b)
    ensures LiveBackends(a, res, backends) == LiveBackends(b, res, backends)
  {
    hide At, LiveAt, SameLive;
    if backends != [] {
      SameBackends(a, b, res, backends[..|backends| - 1]);
      SameAt(a, b, res, backends[|backends| - 1]);
    }
  }

  /** Sources with the same live entries give the same answers. */
  lemma SameJoin(a: Source, b: Source, res: Resolvers, addr: string)
    requires SameLive(a, b)
    ensures JoinBy(a, res, addr) == JoinBy(b, res, addr)
  {
    hide At, LiveExact, LiveWild, LiveAt, LiveBackends, SameLive, ResolvePodAddr, ResolveVIP;
    SameAt(a, b, res, addr);
    if res.pods.Some? && ResolvePodAddr(res.pods.value, addr).Some? {
      SameAt(a, b, res, ResolvePodAddr(res.pods.value, addr).value);
    }
    if res.services.Some? && ResolveVIP(res.services.value, addr).Some? {
      SameBackends(a, b, res, ResolveVIP(res.services.value, addr).value.backends);
    }
  }
}
