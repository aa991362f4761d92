// Event envelopes as values: the payload kinds and the metadata the aggregator looks at,
// and the per-subscriber selection and cursor rewrite of the re-export surface
// (internal/aggregator/reexport.go).
module Envelopes {
  import opened Prelude

  /** A resume point. `num` is the source's `Seq`. */
  datatype Cursor = Cursor(nodeId: string, stream: string, num: nat)

  datatype Meta = Meta(
    nodeName: string, namespace: string, pod: string,
    container: string, containerId: string, image: string)

  const NoMeta := Meta("", "", "", "", "", "")

  datatype Intent = Intent(
    kind: string, attributes: map<string, string>, meta: Option<Meta>,
    contributing: seq<string>, severity: int)

  datatype Payload =
    | IntentEvent(intent: Intent)
    | DeviationEvent(kind: string, meta: Option<Meta>)
    | GraphEdgeEvent
    | LifecycleEvent
    | AuditEvent
    | RawSyscallEvent(name: string, category: string, meta: Option<Meta>, severity: int)
    | NoPayload

  datatype Envelope = Envelope(cursor: Option<Cursor>, payload: Payload)

  datatype EventFilter = EventFilter(
    kinds: seq<string>, namespaces: seq<string>, pods: seq<string>, minSeverity: int)

  /** The parts of a SubscribeRequest the re-export server reads. */
  datatype Request = Request(
    cursor: Option<nat>, stream: string, filter: Option<EventFilter>, aggregatorId: string)

  predicate StreamMatches(want: string, env: Envelope) {
    want == "" ||
    match env.payload
    case IntentEvent(_) => want == "intent"
    case DeviationEvent(_, _) => want == "deviation"
    case GraphEdgeEvent => want == "graph_edge"
    case LifecycleEvent => want == "lifecycle"
    case AuditEvent => want == "audit"
    case RawSyscallEvent(_, _, _, _) => false
    case NoPayload => false
  }

  /** Namespace and pod selection; metadata that is absent is not filtered on. */
  predicate MetaPasses(m: Option<Meta>, f: EventFilter) {
    match m
    case None => true
    case Some(meta) =>
      && (f.namespaces == [] || meta.namespace in f.namespaces)
      && (f.pods == [] || meta.pod in f.pods)
  }

  predicate PassesFilter(env: Envelope, filter: Option<EventFilter>) {
    match filter
    case None => true
    case Some(f) =>
      match env.payload
      case IntentEvent(iv) =>
        && (f.kinds == [] || iv.kind in f.kinds)
        && MetaPasses(iv.meta, f)
        && (f.minSeverity == 0 || iv.severity >= f.minSeverity)
      case DeviationEvent(kind, meta) =>
        && (f.kinds == [] || kind in f.kinds)
        && MetaPasses(meta, f)
      case RawSyscallEvent(name, category, meta, severity) =>
        && (f.kinds == [] || name in f.kinds || category in f.kinds)
        && MetaPasses(meta, f)
        && (f.minSeverity == 0 || severity >= f.minSeverity)
      case _ => true
  }

  /** The test both the replay and the live tail apply before sending. */
  predicate Selected(req: Request, env: Envelope) {
    StreamMatches(req.stream, env) && PassesFilter(env, req.filter)
  }

  /** The outgoing copy: the same payload under the cluster cursor. */
  function StampCursor(req: Request, env: Envelope, num: nat): (out: Envelope)
    ensures out.payload == env.payload
    ensures Selected(req, out) == Selected(req, env)
  {
    env.(cursor := Some(Cursor(req.aggregatorId, req.stream, num)))
  }
}
