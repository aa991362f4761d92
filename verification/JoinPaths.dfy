// Which path a join answers by, and when it misses (internal/aggregator/clusterpeers/registry.go,
// Join), said in terms of what is live under which key and of what the indexes say; and what an
// advertise is good for until its TTL.
module JoinPaths {
  import opened Prelude
  import opened Addresses
  import opened Indexes
  import opened Peers
  import PeersHistory
  import VipJoin

  // ----- listening at an address -----

  /** A pod index is wired and is also the locator. */
  ghost predicate Locates(res: Resolvers) {
    res.pods.Some? && res.locating
  }

  /** The pod index puts the address's IP on another pod than the listener's. */
  ghost predicate Refuted(res: Resolvers, l: Listener, addr: string) {
    && Locates(res) && l.pod != ""
    && exists hp, pl :: SplitHostPort(addr) == Some(hp) && PodForIP(res.pods.value, hp.host) == Some(pl) && pl != Placement(l.namespace, l.pod)
  }

  /** An unrefuted listener is live under the address itself. */
  ghost predicate ExactAt(src: Source, res: Resolvers, addr: string, l: Listener) {
    At(src, Exact(addr)) == Some(l) && !Refuted(res, l, addr)
  }

  /** The listener is the port's only live wildcard. */
  ghost predicate OnlyWild(src: Source, port: string, l: Listener) {
    exists ident :: At(src, Wild(":" + port, ident)) == Some(l) && forall other :: At(src, Wild(":" + port, other)).Some? ==> other == ident
  }

  /** The wildcard listener of the pod the IP is placed on; the port's only one, if of that pod name,
      when the pod has none under its own identity. Without a pod index, the port's only one. */
  ghost predicate WildAt(src: Source, res: Resolvers, addr: string, l: Listener) {
    exists hp :: SplitHostPort(addr) == Some(hp) && hp.port != "" &&
      if Locates(res) then
        exists pl :: PodForIP(res.pods.value, hp.host) == Some(pl) && PodsWild(src, hp.port, pl, l)
      else OnlyWild(src, hp.port, l)
  }

  ghost predicate PodsWild(src: Source, port: string, pl: Placement, l: Listener) {
    var own := At(src, Wild(":" + port, pl.namespace + "/" + pl.pod));
    own == Some(l) || (own == None && OnlyWild(src, port, l) && l.pod == pl.pod)
  }

  ghost predicate NoneExact(src: Source, res: Resolvers, addr: string) {
    forall l :: !ExactAt(src, res, addr, l)
  }

  ghost predicate ListensAt(src: Source, res: Resolvers, addr: string, l: Listener) {
    ExactAt(src, res, addr, l) || (NoneExact(src, res, addr) && WildAt(src, res, addr, l))
  }

  lemma ExactIff(src: Source, res: Resolvers, addr: string, l: Listener)
    ensures LiveExact(src, res, addr) == Some(l) <==> ExactAt(src, res, addr, l)
  {
    hide At, SplitHostPort, PodForIP;
  }

  lemma NoneExactIff(src: Source, res: Resolvers, addr: string)
    ensures LiveExact(src, res, addr).None? <==> NoneExact(src, res, addr)
  {
    hide LiveExact, ExactAt;
    if LiveExact(src, res, addr).Some? { ExactIff(src, res, addr, LiveExact(src, res, addr).value); }
    forall l ensures ExactAt(src, res, addr, l) <==> LiveExact(src, res, addr) == Some(l) { ExactIff(src, res, addr, l); }
  }

  lemma OnlyWildIff(src: Source, port: string, l: Listener)
    ensures Sole(src, ":" + port) == Some(l) <==> OnlyWild(src, port, l)
  {
    hide At;
    if OnlyWild(src, port, l) {
      var ident :| At(src, Wild(":" + port, ident)) == Some(l) && forall other :: At(src, Wild(":" + port, other)).Some? ==> other == ident;
      assert IsSole(src, ":" + port, ident);
      SoleUnique(src, ":" + port, ident);
    }
    if Sole(src, ":" + port) == Some(l) {
      var ident :| IsSole(src, ":" + port, ident);
      SoleUnique(src, ":" + port, ident);
    }
  }

  lemma WildIff(src: Source, res: Resolvers, addr: string, l: Listener)
    ensures LiveWild(src, res, addr) == Some(l) <==> WildAt(src, res, addr, l)
  {
    hide At, SplitHostPort, PodForIP, Sole, OnlyWild;
    match SplitHostPort(addr) {
      case None =>
      case Some(hp) =>
        forall x ensures Sole(src, ":" + hp.port) == Some(x) <==> OnlyWild(src, hp.port, x) { OnlyWildIff(src, hp.port, x); }
    }
  }

  lemma AtIff(src: Source, res: Resolvers, addr: string, l: Listener)
    ensures LiveAt(src, res, addr) == Some(l) <==> ListensAt(src, res, addr, l)
  {
    hide LiveExact, LiveWild, ExactAt, WildAt, NoneExact;
    ExactIff(src, res, addr, l);
    NoneExactIff(src, res, addr);
    WildIff(src, res, addr, l);
  }

  // ----- endpoints and VIPs -----

  ghost predicate EndpointAt(src: Source, res: Resolvers, addr: string, l: Listener) {
    res.pods.Some? && exists a :: ResolvePodAddr(res.pods.value, addr) == Some(a) && ListensAt(src, res, a, l)
  }

  lemma EndpointIff(src: Source, res: Resolvers, addr: string, l: Listener)
    ensures ViaEndpoint(src, res, addr) == Some(l) <==> EndpointAt(src, res, addr, l)
  {
    hide ResolvePodAddr, LiveAt, ListensAt;
    if res.pods.Some? && ResolvePodAddr(res.pods.value, addr).Some? {
      AtIff(src, res, ResolvePodAddr(res.pods.value, addr).value, l);
    }
  }

  ghost predicate Listened(src: Source, res: Resolvers, backend: string) {
    exists l :: ListensAt(src, res, backend, l)
  }

  /** One identity for the backends: the first live listener's, when all live ones run one process and
      image, under the Service's name; with several live, marked and counted. */
  ghost predicate Represents(src: Source, res: Resolvers, backends: seq<string>, svc: ServiceRef, l: Listener) {
    var count := |LiveIndexes(src, res, backends)|;
    exists i, m :: IsFirst(src, res, backends, i, m) && OneWorkload(src, res, backends, m)
      && l == if count == 1 then m.(service := svc) else m.(service := svc, replicaAmbiguous := true, replicaCount := count)
  }

  ghost predicate VipAt(src: Source, res: Resolvers, addr: string, l: Listener) {
    res.services.Some? && exists vip :: ResolveVIP(res.services.value, addr) == Some(vip) && Represents(src, res, vip.backends, vip.service, l)
  }

  lemma ListenedIff(src: Source, res: Resolvers, backend: string)
    ensures Listened(src, res, backend) <==> LiveAt(src, res, backend).Some?
  {
    hide LiveAt, ListensAt;
    if LiveAt(src, res, backend).Some? { AtIff(src, res, backend, LiveAt(src, res, backend).value); }
    forall l ensures ListensAt(src, res, backend, l) <==> LiveAt(src, res, backend) == Some(l) { AtIff(src, res, backend, l); }
  }

  /** The first of the live listeners is the first live backend's. */
  lemma {:induction false} FirstLive(src: Source, res: Resolvers, backends: seq<string>)
    requires LiveBackends(src, res, backends) != []
    ensures exists i :: FirstLiveIs(src, res, backends, i, LiveBackends(src, res, backends)[0])
  {
    hide LiveAt;
    var n := |backends| - 1;
    var init := backends[..n];
    if LiveBackends(src, res, init) != [] {
      FirstLive(src, res, init);
      var i :| FirstLiveIs(src, res, init, i, LiveBackends(src, res, init)[0]);
      assert backends[i] == init[i] && forall j | 0 <= j < i :: backends[j] == init[j];
      assert FirstLiveIs(src, res, backends, i, LiveBackends(src, res, backends)[0]);
    } else {
      NoneLive(src, res, init);
      assert forall j | 0 <= j < n :: backends[j] == init[j];
      assert FirstLiveIs(src, res, backends, n, LiveBackends(src, res, backends)[0]);
    }
  }

  ghost predicate FirstLiveIs(src: Source, res: Resolvers, backends: seq<string>, i: int, l: Listener) {
    && 0 <= i < |backends| && LiveAt(src, res, backends[i]) == Some(l)
    && forall j | 0 <= j < i :: LiveAt(src, res, backends[j]).None?
  }

  lemma NoneLive(src: Source, res: Resolvers, backends: seq<string>)
    requires LiveBackends(src, res, backends) == []
    ensures forall j | 0 <= j < |backends| :: LiveAt(src, res, backends[j]).None?
  {
    hide LiveAt, LiveBackends;
    forall l ensures !(exists b :: b in backends && LiveAt(src, res, b) == Some(l)) {
      VipJoin.LiveBackendsAre(src, res, backends, l);
    }
    assert forall j | 0 <= j < |backends| :: backends[j] in backends;
  }

  ghost function LiveIndexes(src: Source, res: Resolvers, backends: seq<string>): set<int> {
    set i | 0 <= i < |backends| && Listened(src, res, backends[i])
  }

  lemma LiveIndexesCounted(src: Source, res: Resolvers, backends: seq<string>)
    ensures |LiveIndexes(src, res, backends)| == |LiveBackends(src, res, backends)|
  {
    hide LiveAt, LiveBackends, Listened;
    VipJoin.LiveBackendsCounted(src, res, backends);
    var live := set i | 0 <= i < |backends| && VipJoin.LiveBackend(src, res, backends[i]);
    forall i | 0 <= i < |backends| ensures Listened(src, res, backends[i]) <==> VipJoin.LiveBackend(src, res, backends[i]) {
      ListenedIff(src, res, backends[i]);
    }
    assert LiveIndexes(src, res, backends) == live;
  }

  /** All live listeners run one process and image. */
  ghost predicate OneWorkload(src: Source, res: Resolvers, backends: seq<string>, m: Listener) {
    forall j, x | 0 <= j < |backends| && ListensAt(src, res, backends[j], x) :: x.process == m.process && x.image == m.image
  }

  lemma OneWorkloadIff(src: Source, res: Resolvers, backends: seq<string>)
    requires LiveBackends(src, res, backends) != []
    ensures var live := LiveBackends(src, res, backends);
      OneWorkload(src, res, backends, live[0]) <==> forall i | 0 < i < |live| :: SameWorkload(live[i], live[0])
  {
    hide LiveAt, LiveBackends, ListensAt;
    var live := LiveBackends(src, res, backends);
    forall l ensures l in live <==> exists b :: b in backends && LiveAt(src, res, b) == Some(l) {
      VipJoin.LiveBackendsAre(src, res, backends, l);
    }
    forall b, x ensures ListensAt(src, res, b, x) <==> LiveAt(src, res, b) == Some(x) { AtIff(src, res, b, x); }
    if OneWorkload(src, res, backends, live[0]) {
      forall i | 0 < i < |live| ensures SameWorkload(live[i], live[0]) {
        assert live[i] in live;
        var b :| b in backends && LiveAt(src, res, b) == Some(live[i]);
        var j :| 0 <= j < |backends| && backends[j] == b;
        assert ListensAt(src, res, backends[j], live[i]);
      }
    }
    if forall i | 0 < i < |live| :: SameWorkload(live[i], live[0]) {
      forall j, x | 0 <= j < |backends| && ListensAt(src, res, backends[j], x) ensures x.process == live[0].process && x.image == live[0].image {
        assert backends[j] in backends && LiveAt(src, res, backends[j]) == Some(x);
        assert x in live;
      }
    }
  }

  lemma FirstListens(src: Source, res: Resolvers, backends: seq<string>, i: int, m: Listener)
    requires LiveBackends(src, res, backends) != []
    ensures IsFirst(src, res, backends, i, m) ==> m == LiveBackends(src, res, backends)[0]
    ensures exists k :: IsFirst(src, res, backends, k, LiveBackends(src, res, backends)[0])
  {
    hide LiveAt, LiveBackends, ListensAt, Listened;
    FirstLive(src, res, backends);
    var live := LiveBackends(src, res, backends);
    var k :| FirstLiveIs(src, res, backends, k, live[0]);
    forall j | 0 <= j < |backends| ensures Listened(src, res, backends[j]) <==> LiveAt(src, res, backends[j]).Some? {
      ListenedIff(src, res, backends[j]);
    }
    AtIff(src, res, backends[k], live[0]);
    assert IsFirst(src, res, backends, k, live[0]);
    if IsFirst(src, res, backends, i, m) {
      AtIff(src, res, backends[i], m);
    }
  }

  /** The first backend with a listener, and that listener. */
  ghost predicate IsFirst(src: Source, res: Resolvers, backends: seq<string>, i: int, m: Listener) {
    && 0 <= i < |backends| && ListensAt(src, res, backends[i], m)
    && forall j | 0 <= j < i :: !Listened(src, res, backends[j])
  }

  lemma RepresentsIff(src: Source, res: Resolvers, backends: seq<string>, svc: ServiceRef, l: Listener)
    ensures ResolveVip(src, res, backends, svc) == Some(l) <==> Represents(src, res, backends, svc, l)
  {
    hide LiveAt, LiveBackends, ListensAt, Listened, LiveIndexes, OneWorkload, IsFirst;
    var live := LiveBackends(src, res, backends);
    LiveIndexesCounted(src, res, backends);
    if live == [] {
      NoFirst(src, res, backends);
    } else {
      OneWorkloadIff(src, res, backends);
      forall i, m ensures IsFirst(src, res, backends, i, m) ==> m == live[0] { FirstListens(src, res, backends, i, m); }
      FirstListens(src, res, backends, 0, live[0]);
    }
  }

  lemma NoFirst(src: Source, res: Resolvers, backends: seq<string>)
    requires LiveBackends(src, res, backends) == []
    ensures forall i, m :: !IsFirst(src, res, backends, i, m)
  {
    hide LiveAt, LiveBackends, ListensAt, Listened;
    NoneLive(src, res, backends);
    forall i, m | IsFirst(src, res, backends, i, m) ensures false { AtIff(src, res, backends[i], m); }
  }

  lemma VipIff(src: Source, res: Resolvers, addr: string, l: Listener)
    ensures ViaVip(src, res, addr) == Some(l) <==> VipAt(src, res, addr, l)
  {
    hide ResolveVIP, ResolveVip, Represents;
    if res.services.Some? && ResolveVIP(res.services.value, addr).Some? {
      var vip := ResolveVIP(res.services.value, addr).value;
      RepresentsIff(src, res, vip.backends, vip.service, l);
    }
  }

  // ----- the four paths -----

  ghost predicate NoneEndpoint(src: Source, res: Resolvers, addr: string) {
    forall l :: !EndpointAt(src, res, addr, l)
  }

  ghost predicate NoneVip(src: Source, res: Resolvers, addr: string) {
    forall l :: !VipAt(src, res, addr, l)
  }

  ghost predicate NoneWild(src: Source, res: Resolvers, addr: string) {
    forall l :: !WildAt(src, res, addr, l)
  }

  lemma PathsIff(src: Source, res: Resolvers, addr: string)
    ensures forall l :: LiveExact(src, res, addr) == Some(l) <==> ExactAt(src, res, addr, l)
    ensures forall l :: ViaEndpoint(src, res, addr) == Some(l) <==> EndpointAt(src, res, addr, l)
    ensures forall l :: ViaVip(src, res, addr) == Some(l) <==> VipAt(src, res, addr, l)
    ensures forall l :: LiveWild(src, res, addr) == Some(l) <==> WildAt(src, res, addr, l)
  {
    hide LiveExact, ViaEndpoint, ViaVip, LiveWild, ExactAt, EndpointAt, VipAt, WildAt;
    forall l ensures LiveExact(src, res, addr) == Some(l) <==> ExactAt(src, res, addr, l) { ExactIff(src, res, addr, l); }
    forall l ensures ViaEndpoint(src, res, addr) == Some(l) <==> EndpointAt(src, res, addr, l) { EndpointIff(src, res, addr, l); }
    forall l ensures ViaVip(src, res, addr) == Some(l) <==> VipAt(src, res, addr, l) { VipIff(src, res, addr, l); }
    forall l ensures LiveWild(src, res, addr) == Some(l) <==> WildAt(src, res, addr, l) { WildIff(src, res, addr, l); }
  }

  /** A join answers directly exactly with an unrefuted live exact entry; through an endpoint, a VIP or
      a wildcard exactly when the paths before have nothing and that one does; and misses exactly when
      none of the four has anything. */
  lemma JoinAnswersBy(src: Source, res: Resolvers, addr: string, l: Listener)
    ensures JoinBy(src, res, addr) == Some(Answer(l, Direct)) <==> ExactAt(src, res, addr, l)
    ensures JoinBy(src, res, addr) == Some(Answer(l, Endpointslice)) <==>
      NoneExact(src, res, addr) && EndpointAt(src, res, addr, l)
    ensures JoinBy(src, res, addr) == Some(Answer(l, ServiceVip)) <==>
      NoneExact(src, res, addr) && NoneEndpoint(src, res, addr) && VipAt(src, res, addr, l)
    ensures JoinBy(src, res, addr) == Some(Answer(l, Wildcard)) <==>
      NoneExact(src, res, addr) && NoneEndpoint(src, res, addr) && NoneVip(src, res, addr) && WildAt(src, res, addr, l)
    ensures JoinBy(src, res, addr) == None <==>
      NoneExact(src, res, addr) && NoneEndpoint(src, res, addr) && NoneVip(src, res, addr) && NoneWild(src, res, addr)
  {
    hide LiveExact, ViaEndpoint, ViaVip, LiveWild, ExactAt, EndpointAt, VipAt, WildAt;
    PathsIff(src, res, addr);
    assert NoneExact(src, res, addr) <==> LiveExact(src, res, addr).None?;
    assert NoneEndpoint(src, res, addr) <==> ViaEndpoint(src, res, addr).None?;
    assert NoneVip(src, res, addr) <==> ViaVip(src, res, addr).None?;
    assert NoneWild(src, res, addr) <==> LiveWild(src, res, addr).None?;
  }

  /** An IP placed on a pod with a live wildcard listener of its own on the port always gets an answer. */
  lemma PlacedWildcardAnswers(src: Source, res: Resolvers, addr: string, hp: HostPort, pl: Placement)
    requires SplitHostPort(addr) == Some(hp) && hp.port != ""
    requires Locates(res) && PodForIP(res.pods.value, hp.host) == Some(pl)
    requires At(src, Wild(":" + hp.port, PodIdent(pl.namespace, pl.pod))).Some?
    ensures JoinBy(src, res, addr).Some?
  {
    hide At, SplitHostPort, PodForIP, JoinBy, ExactAt, EndpointAt, VipAt;
    var l := At(src, Wild(":" + hp.port, PodIdent(pl.namespace, pl.pod))).value;
    assert WildAt(src, res, addr, l);
    JoinAnswersBy(src, res, addr, l);
  }

  // ----- what an advertise is good for -----

  /** An observation is live under its key from then on until the TTL has passed, to the moment. */
  lemma ObservedUntilTtl(h: seq<Event>, l: Listener, t: int, ttl: int, now: int, k: Key)
    requires KeyOf(l) == Some(k)
    ensures At(Recorded(h + [Observed(l, t)], ttl, now), k) == if now < t + ttl then Some(l.(expires := t + ttl)) else None
  {
    hide KeyOf, Latest;
    PeersHistory.LatestSnoc(h, Observed(l, t), ttl, k);
  }

  /** A removal leaves nothing under its key. */
  lemma RemovedIsGone(h: seq<Event>, l: Listener, ttl: int, now: int, k: Key)
    requires KeyOf(l) == Some(k)
    ensures At(Recorded(h + [Removed(l)], ttl, now), k) == None
  {
    hide KeyOf, Latest;
    PeersHistory.LatestSnoc(h, Removed(l), ttl, k);
  }

  /** A listener advertised at an address answers a connect to that address, directly, until its TTL,
      unless the pod index puts the IP on another pod. */
  lemma AdvertisedAnswersDirectly(h: seq<Event>, l: Listener, t: int, ttl: int, now: int, res: Resolvers)
    requires l.addr != "" && !l.wildcard && now < t + ttl && !Refuted(res, l, l.addr)
    ensures JoinBy(Recorded(h + [Observed(l, t)], ttl, now), res, l.addr) == Some(Answer(l.(expires := t + ttl), Direct))
  {
    hide At, JoinBy, SplitHostPort, PodForIP;
    var src := Recorded(h + [Observed(l, t)], ttl, now);
    ObservedUntilTtl(h, l, t, ttl, now, Exact(l.addr));
    JoinAnswersBy(src, res, l.addr, l.(expires := t + ttl));
  }

  /** After it, or after a withdraw, nothing answers directly there. */
  lemma NoDirectAnswerAfter(h: seq<Event>, l: Listener, t: int, ttl: int, now: int, res: Resolvers, m: Listener)
    requires l.addr != "" && !l.wildcard
    ensures now >= t + ttl ==> JoinBy(Recorded(h + [Observed(l, t)], ttl, now), res, l.addr) != Some(Answer(m, Direct))
    ensures JoinBy(Recorded(h + [Removed(l)], ttl, now), res, l.addr) != Some(Answer(m, Direct))
  {
    hide At, JoinBy, Refuted, SplitHostPort;
    ObservedUntilTtl(h, l, t, ttl, now, Exact(l.addr));
    RemovedIsGone(h, l, ttl, now, Exact(l.addr));
    JoinAnswersBy(Recorded(h + [Observed(l, t)], ttl, now), res, l.addr, m);
    JoinAnswersBy(Recorded(h + [Removed(l)], ttl, now), res, l.addr, m);
  }

  /** The port an advertise names, or else the one in its address. */
  ghost predicate ListensOn(l: Listener, port: string) {
    port != "" && (l.port == port || (l.port == "" && exists host :: SplitHostPort(l.addr) == Some(HostPort(host, port))))
  }

  /** A pod that advertised a wildcard on a port answers a connect to its own IP on that port, until
      its TTL, when no listener, endpoint or VIP of that very address does. */
  lemma AdvertisedWildcardAnswers(h: seq<Event>, l: Listener, t: int, ttl: int, now: int, res: Resolvers, addr: string, host: string, port: string)
    requires l.addr != "" && l.wildcard && ListensOn(l, port) && now < t + ttl
    requires SplitHostPort(addr) == Some(HostPort(host, port))
    requires Locates(res) && PodForIP(res.pods.value, host) == Some(Placement(l.namespace, l.pod))
    ensures var src := Recorded(h + [Observed(l, t)], ttl, now);
      && JoinBy(src, res, addr).Some?
      && (NoneExact(src, res, addr) && NoneEndpoint(src, res, addr) && NoneVip(src, res, addr) ==>
            JoinBy(src, res, addr) == Some(Answer(l.(expires := t + ttl), Wildcard)))
  {
    hide At, JoinBy, SplitHostPort, PodForIP, NoneExact, NoneEndpoint, NoneVip;
    var src, l' := Recorded(h + [Observed(l, t)], ttl, now), l.(expires := t + ttl);
    assert PortOf(l.port, l.addr) == port;
    ObservedUntilTtl(h, l, t, ttl, now, Wild(":" + port, PodIdent(l.namespace, l.pod)));
    PlacedWildcardAnswers(src, res, addr, HostPort(host, port), Placement(l.namespace, l.pod));
    assert WildAt(src, res, addr, l');
    JoinAnswersBy(src, res, addr, l');
  }
}
