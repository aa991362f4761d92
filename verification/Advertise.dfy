// The wire contract of cross-node attribution (internal/aggregator/clusterpeers/advertise.go):
// listeners read from intents, and the edge written for a resolved peer.
module Advertise {
  import opened Prelude
  import opened Envelopes
  import opened Addresses
  import opened Indexes
  import opened Peers
  import PeersHistory
  import JoinPlacement

  const KindListenerAdvertise := "ListenerAdvertise"
  const KindListenerWithdraw := "ListenerWithdraw"
  const KindNetworkExchange := "NetworkExchange"
  const KindClusterPeerEdge := "ClusterPeerEdge"

  /** A missing attribute reads as empty. */
  function Attr(ev: Intent, name: string): string {
    if name in ev.attributes then ev.attributes[name] else ""
  }

  function MetaOf(ev: Intent): Meta {
    if ev.meta.Some? then ev.meta.value else NoMeta
  }

  function ListenerFromAdvertise(ev: Intent): Option<Listener> {
    if ev.kind != KindListenerAdvertise || Attr(ev, "addr") == "" then None
    else
      var m := MetaOf(ev);
      Some(Listener(
        Attr(ev, "addr"), Attr(ev, "port"), Attr(ev, "pid"), Attr(ev, "process"), Attr(ev, "wildcard") == "true",
        m.nodeName, m.namespace, m.pod, m.container, m.containerId, m.image,
        NoService, false, 0, 0))
  }

  /** Only what a removal keys on. */
  function ListenerFromWithdraw(ev: Intent): Option<Listener> {
    if ev.kind != KindListenerWithdraw || Attr(ev, "addr") == "" then None
    else
      var m := MetaOf(ev);
      Some(Listener(
        Attr(ev, "addr"), Attr(ev, "port"), "", "", Attr(ev, "wildcard") == "true",
        "", m.namespace, m.pod, "", "", "",
        NoService, false, 0, 0))
  }

  /** The same listener, as far as a withdraw says. */
  ghost predicate SameListener(ad: Intent, wd: Intent) {
    && Attr(ad, "addr") == Attr(wd, "addr") && Attr(ad, "port") == Attr(wd, "port")
    && (Attr(ad, "wildcard") == "true" <==> Attr(wd, "wildcard") == "true")
    && MetaOf(ad).namespace == MetaOf(wd).namespace && MetaOf(ad).pod == MetaOf(wd).pod
  }

  /** A withdraw of the same listener removes the one key its advertise wrote and leaves no empty
      inner map: the registry is as it was, without that key. */
  lemma WithdrawUndoesAdvertise(r: Reg, ad: Intent, wd: Intent, now: int, ttl: int)
    requires NoEmptyInner(r) && SameListener(ad, wd)
    requires ListenerFromAdvertise(ad).Some? && ListenerFromWithdraw(wd).Some?
    ensures var l, w := ListenerFromAdvertise(ad).value, ListenerFromWithdraw(wd).value;
      var r' := Remove(Observe(r, l, now, ttl), w);
      && NoEmptyInner(r')
      && (forall k :: Lookup(r', k) == if KeyOf(l) == Some(k) then None else Lookup(r, k))
      && (KeyOf(l).None? || Lookup(r, KeyOf(l).value).None? ==> r' == r)
  {
    hide SplitHostPort, Observe, Remove, Lookup, PodIdent;
    var l, w := ListenerFromAdvertise(ad).value, ListenerFromWithdraw(wd).value;
    assert KeyOf(l) == KeyOf(w);
    PeersHistory.RemoveUndoesObserve(r, l, w, now, ttl);
    RemoveKeepsInner(r, w);
    forall k ensures Lookup(Remove(r, w), k) == if KeyOf(l) == Some(k) then None else Lookup(r, k) {
      PeersHistory.RemoveLookup(r, w, k);
    }
  }

  lemma RemoveKeepsInner(r: Reg, w: Listener)
    requires NoEmptyInner(r)
    ensures NoEmptyInner(Remove(r, w))
  {
    hide KeyOf;
  }

  // ----- the edge -----

  function Via(how: How): string {
    match how
    case Endpointslice => "endpointslice"
    case ServiceVip => "service-vip"
    case _ => "direct"
  }

  function ServiceName(s: ServiceRef): string {
    if s == NoService then "" else s.namespace + "/" + s.name
  }

  function PeerAttributes(dialled: string, l: Listener, how: How, connectorNode: string): map<string, string> {
    map[
      "addr" := dialled,
      "peer_pid" := l.pid,
      "peer_process" := l.process,
      "peer_pod" := l.pod,
      "peer_namespace" := l.namespace,
      "peer_container" := l.container,
      "peer_image" := l.image,
      "peer_node" := l.nodeName,
      "attribution" := if connectorNode != "" && l.nodeName == connectorNode then "same-node" else "cross-node",
      "via" := Via(how)]
  }

  /** A Service and a replica count only where there is one. */
  function ServiceAttributes(l: Listener): map<string, string> {
    var named := if ServiceName(l.service) != "" then map["peer_service" := ServiceName(l.service)] else map[];
    if l.replicaAmbiguous then
      named["peer_replica_ambiguous" := "true"]["peer_replica_count" := Itoa(l.replicaCount)]
    else named
  }

  function PeerEdge(src: Intent, l: Listener, how: How, connectorNode: string): Intent {
    Intent(
      KindClusterPeerEdge, PeerAttributes(Attr(src, "peer"), l, how, connectorNode) + ServiceAttributes(l),
      src.meta, src.contributing, src.severity)
  }

  // The source has no reader of edges. ReadService and ReadPeer are the inverse an edge's consumer
  // would write, there to say that an edge loses nothing.

  /** A Service name split at its first slash. */
  function ReadService(name: string): ServiceRef {
    var i := IndexOf(name, '/');
    if i == |name| then NoService else ServiceRef(name[..i], name[i + 1..])
  }

  /** The listener an edge names. */
  function ReadPeer(edge: Intent): Listener {
    var ambiguous := Attr(edge, "peer_replica_ambiguous") == "true";
    var count := Atoi(Attr(edge, "peer_replica_count"));
    Listener(
      "", "", Attr(edge, "peer_pid"), Attr(edge, "peer_process"), false,
      Attr(edge, "peer_node"), Attr(edge, "peer_namespace"), Attr(edge, "peer_pod"), Attr(edge, "peer_container"), "",
      Attr(edge, "peer_image"), ReadService(Attr(edge, "peer_service")),
      ambiguous, if ambiguous && count.Some? && count.value >= 0 then count.value else 0, 0)
  }

  /** The listener's identity, without what no edge carries: its own address, its container id
      and its expiry. */
  function Identity(l: Listener): Listener {
    l.(addr := "", port := "", wildcard := false, containerId := "", expires := 0,
      replicaCount := if l.replicaAmbiguous then l.replicaCount else 0)
  }

  lemma ServiceRoundTrip(s: ServiceRef)
    requires '/' !in s.namespace
    ensures ReadService(ServiceName(s)) == s
  {
    if s == NoService {
      assert IndexOf("", '/') == 0;
    } else {
      var name := ServiceName(s);
      JoinPlacement.FirstSlash(s.namespace, s.name);
      assert name == PodIdent(s.namespace, s.name);
      assert name[..|s.namespace|] == s.namespace && name[|s.namespace| + 1..] == s.name;
    }
  }

  lemma ServiceKeys(l: Listener)
    ensures ServiceAttributes(l).Keys <= {"peer_service", "peer_replica_ambiguous", "peer_replica_count"}
  {
    hide Itoa, ServiceName;
  }

  lemma PeerKeys(dialled: string, l: Listener, how: How, connectorNode: string)
    ensures PeerAttributes(dialled, l, how, connectorNode).Keys !!
      {"peer_service", "peer_replica_ambiguous", "peer_replica_count"}
  {
    hide Via;
  }

  lemma EdgeAttributes(edge: Intent, dialled: string, l: Listener, how: How, connectorNode: string)
    requires edge.attributes == PeerAttributes(dialled, l, how, connectorNode) + ServiceAttributes(l)
    ensures Attr(edge, "addr") == dialled && Attr(edge, "peer_pid") == l.pid && Attr(edge, "peer_process") == l.process
    ensures Attr(edge, "peer_pod") == l.pod && Attr(edge, "peer_namespace") == l.namespace
    ensures Attr(edge, "peer_container") == l.container && Attr(edge, "peer_image") == l.image
    ensures Attr(edge, "peer_node") == l.nodeName && Attr(edge, "via") == Via(how)
    ensures Attr(edge, "attribution") == if connectorNode != "" && l.nodeName == connectorNode then "same-node" else "cross-node"
  {
    hide Itoa, ServiceName, Via, ServiceAttributes;
    ServiceKeys(l);
  }

  lemma EdgeReplicas(edge: Intent, dialled: string, l: Listener, how: How, connectorNode: string)
    requires edge.attributes == PeerAttributes(dialled, l, how, connectorNode) + ServiceAttributes(l)
    ensures Attr(edge, "peer_service") == ServiceName(l.service)
    ensures Attr(edge, "peer_replica_ambiguous") == "true" <==> l.replicaAmbiguous
    ensures l.replicaAmbiguous ==> Attr(edge, "peer_replica_count") == Itoa(l.replicaCount)
  {
    hide Itoa, ServiceName, Via, PeerAttributes;
    PeerKeys(dialled, l, how, connectorNode);
  }

  /** An edge carries the peer's whole identity: reading it back gives the listener the join chose,
      beside the trigger's own address, metadata, contributing events and severity. */
  lemma EdgeReadsBack(src: Intent, l: Listener, how: How, connectorNode: string)
    requires '/' !in l.service.namespace
    ensures var edge := PeerEdge(src, l, how, connectorNode);
      && ReadPeer(edge) == Identity(l)
      && edge.kind == KindClusterPeerEdge && Attr(edge, "addr") == Attr(src, "peer")
      && edge.meta == src.meta && edge.contributing == src.contributing && edge.severity == src.severity
      && (Attr(edge, "attribution") == "same-node" <==> connectorNode != "" && l.nodeName == connectorNode)
      && (Attr(edge, "via") == "service-vip" <==> how.ServiceVip?)
      && (Attr(edge, "via") == "endpointslice" <==> how.Endpointslice?)
      && (Attr(edge, "via") == "direct" <==> how.Direct? || how.Wildcard?)
  {
    hide Itoa, Atoi, IndexOf, ReadService, Attr, PeerAttributes, ServiceAttributes, ServiceName;
    var edge := PeerEdge(src, l, how, connectorNode);
    EdgeAttributes(edge, Attr(src, "peer"), l, how, connectorNode);
    EdgeReplicas(edge, Attr(src, "peer"), l, how, connectorNode);
    ServiceRoundTrip(l.service);
    AtoiOfItoa(l.replicaCount);
    assert "same-node"[0] != "cross-node"[0];
    assert "service-vip"[0] != "endpointslice"[0] && "service-vip"[0] != "direct"[0] && "endpointslice"[0] != "direct"[0];
  }
}
