// Cross-node attribution end to end (internal/aggregator/aggregator.go, writeLoop, with
// clusterpeers/advertise.go and registry.go): from an advertise and a network exchange taken off the
// merge channel to the edge put out after the exchange.
module Attribution {
  import opened Prelude
  import opened Envelopes
  import opened Peers
  import opened Advertise
  import opened Writer
  import opened JoinPaths

  /** An advertise of a process listening at an address of its own. */
  ghost predicate Advertises(env: Envelope, addr: string) {
    && env.payload.IntentEvent? && env.payload.intent.kind == "ListenerAdvertise"
    && addr != "" && Attr(env.payload.intent, "addr") == addr && Attr(env.payload.intent, "wildcard") != "true"
  }

  /** An exchange with an address whose process the kernel has not named. */
  ghost predicate Exchanges(env: Envelope, addr: string) {
    && env.payload.IntentEvent? && env.payload.intent.kind == "NetworkExchange"
    && addr != "" && Attr(env.payload.intent, "peer") == addr && "peer_pid" !in env.payload.intent.attributes
  }

  /** The edge names the advertised process, pod, node, container and image beside the dialled address,
      says whether both ends share a node, and carries the exchange's metadata, events and severity. */
  ghost predicate Attributes(edge: Intent, exchange: Intent, advertise: Intent) {
    && edge.kind == "ClusterPeerEdge" && Attr(edge, "addr") == Attr(exchange, "peer")
    && Attr(edge, "peer_pid") == Attr(advertise, "pid") && Attr(edge, "peer_process") == Attr(advertise, "process")
    && Attr(edge, "peer_pod") == MetaOf(advertise).pod && Attr(edge, "peer_namespace") == MetaOf(advertise).namespace
    && Attr(edge, "peer_node") == MetaOf(advertise).nodeName && Attr(edge, "peer_container") == MetaOf(advertise).container
    && Attr(edge, "peer_image") == MetaOf(advertise).image && Attr(edge, "via") == "direct"
    && Attr(edge, "peer_service") == "" && Attr(edge, "peer_replica_ambiguous") != "true"
    && (Attr(edge, "attribution") == "same-node" <==>
          MetaOf(exchange).nodeName != "" && MetaOf(exchange).nodeName == MetaOf(advertise).nodeName)
    && edge.meta == exchange.meta && edge.contributing == exchange.contributing && edge.severity == exchange.severity
  }

  /** The pod index puts the dialled IP on another pod than the advertised one. */
  ghost predicate Disputed(res: Resolvers, advertise: Intent, addr: string) {
    exists l :: ListenerFromAdvertise(advertise) == Some(l) && Refuted(res, l, addr)
  }

  lemma ExchangeIsAnswered(ttl: int, before: seq<Taken>, ad: Taken, t: Taken, addr: string)
    requires Advertises(ad.env, addr) && Exchanges(t.env, addr) && t.at < ad.at + ttl && !Disputed(t.res, ad.env.payload.intent, addr)
    ensures ListenerFromAdvertise(ad.env.payload.intent).Some?
    ensures AnswerFor(ttl, before + [ad], t) ==
      Some(Answer(ListenerFromAdvertise(ad.env.payload.intent).value.(expires := ad.at + ttl), Direct))
    ensures ListenerFromAdvertise(ad.env.payload.intent).value.containerId == MetaOf(ad.env.payload.intent).containerId
  {
    hide JoinBy, Events, Attr, MetaOf;
    var l := ListenerFromAdvertise(ad.env.payload.intent).value;
    EventsSnoc(before, ad);
    AdvertisedAnswersDirectly(Events(before), l, ad.at, ttl, t.at, t.res);
  }

  lemma EdgeAttributesAdvertise(exchange: Intent, advertise: Intent, expires: int)
    requires ListenerFromAdvertise(advertise).Some?
    ensures Attributes(PeerEdge(exchange, ListenerFromAdvertise(advertise).value.(expires := expires), Direct, MetaOf(exchange).nodeName), exchange, advertise)
  {
    hide Attr, PeerAttributes, ServiceAttributes;
    var l := ListenerFromAdvertise(advertise).value.(expires := expires);
    var edge := PeerEdge(exchange, l, Direct, MetaOf(exchange).nodeName);
    EdgeAttributes(edge, Attr(exchange, "peer"), l, Direct, MetaOf(exchange).nodeName);
    EdgeReplicas(edge, Attr(exchange, "peer"), l, Direct, MetaOf(exchange).nodeName);
    assert "same-node"[0] != "cross-node"[0];
  }

  /** An exchange with an address, taken within the TTL of an advertise of that address and not disputed
      by the pod index, is put out followed by one edge, which attributes it to the advertised process;
      the advertise itself is not put out. */
  lemma ExchangeIsAttributed(ttl: int, before: seq<Taken>, ad: Taken, t: Taken, addr: string)
    requires Advertises(ad.env, addr) && Exchanges(t.env, addr) && t.at < ad.at + ttl && !Disputed(t.res, ad.env.payload.intent, addr)
    ensures exists edge: Intent ::
      && Attributes(edge, t.env.payload.intent, ad.env.payload.intent)
      && Outputs(ttl, before + [ad, t]) == Outputs(ttl, before) + [Output(t.agent, t.env), Output(t.agent, Envelope(None, IntentEvent(edge)))]
  {
    hide AnswerFor, Attr, PeerEdge, Attributes, Disputed, MetaOf;
    ExchangeIsAnswered(ttl, before, ad, t, addr);
    var l := ListenerFromAdvertise(ad.env.payload.intent).value.(expires := ad.at + ttl);
    var edge := PeerEdge(t.env.payload.intent, l, Direct, MetaOf(t.env.payload.intent).nodeName);
    EdgeAttributesAdvertise(t.env.payload.intent, ad.env.payload.intent, ad.at + ttl);
    assert (before + [ad, t])[..|before| + 1] == before + [ad] && (before + [ad])[..|before|] == before;
    assert "NetworkExchange"[0] != "ListenerAdvertise"[0] && "NetworkExchange"[0] != "ListenerWithdraw"[0];
    assert Outputs(ttl, before + [ad]) == Outputs(ttl, before);
    assert OutputsOf(ttl, before + [ad], t) == [Output(t.agent, t.env), Output(t.agent, Envelope(None, IntentEvent(edge)))];
  }

  /** Advertises and withdraws, well formed or not, put out nothing. */
  lemma ControlIsConsumed(ttl: int, before: seq<Taken>, t: Taken)
    requires t.env.payload.IntentEvent? && t.env.payload.intent.kind in {"ListenerAdvertise", "ListenerWithdraw"}
    ensures Outputs(ttl, before + [t]) == Outputs(ttl, before)
  {
    assert (before + [t])[..|before|] == before;
  }

  /** Anything else taken is put out as it is, alone: what is no intent or of another kind, and an
      exchange that names no peer or whose peer the kernel has already named. */
  lemma OthersPassThrough(ttl: int, before: seq<Taken>, t: Taken)
    requires t.env.payload.IntentEvent? ==>
      var intent := t.env.payload.intent;
      || intent.kind !in {"ListenerAdvertise", "ListenerWithdraw", "NetworkExchange"}
      || (intent.kind == "NetworkExchange" && (Attr(intent, "peer") == "" || "peer_pid" in intent.attributes))
    ensures Outputs(ttl, before + [t]) == Outputs(ttl, before) + [Output(t.agent, t.env)]
  {
    assert "NetworkExchange"[0] != "ListenerAdvertise"[0] && "NetworkExchange"[0] != "ListenerWithdraw"[0];
    assert (before + [t])[..|before|] == before;
  }

  /** Once the advertise is withdrawn, or its TTL has passed, no exchange is attributed directly there. */
  lemma WithdrawnIsNotAnswered(ttl: int, before: seq<Taken>, ad: Taken, wd: Taken, t: Taken, addr: string, l: Listener)
    requires Advertises(ad.env, addr) && Exchanges(t.env, addr)
    requires wd.env.payload.IntentEvent? && wd.env.payload.intent.kind == "ListenerWithdraw"
    requires Attr(wd.env.payload.intent, "addr") == addr && Attr(wd.env.payload.intent, "wildcard") != "true"
    ensures AnswerFor(ttl, before + [wd], t) != Some(Answer(l, Direct))
    ensures t.at >= ad.at + ttl ==> AnswerFor(ttl, before + [ad], t) != Some(Answer(l, Direct))
  {
    hide JoinBy, Events, Attr, MetaOf;
    assert "ListenerWithdraw" != "ListenerAdvertise" by { assert "ListenerWithdraw"[8] != "ListenerAdvertise"[8]; }
    var ad', wd' := ListenerFromAdvertise(ad.env.payload.intent).value, ListenerFromWithdraw(wd.env.payload.intent).value;
    EventsSnoc(before, ad);
    EventsSnoc(before, wd);
    NoDirectAnswerAfter(Events(before), ad', ad.at, ttl, t.at, t.res, l);
    NoDirectAnswerAfter(Events(before), wd', ad.at, ttl, t.at, t.res, l);
  }
}
