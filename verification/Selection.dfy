// What a subscriber's stream and filter select (internal/aggregator/reexport.go, streamMatches,
// envelopePassesFilter, stampCursor), stated of what is delivered and of what is sent in every run.
module Selection {
  import opened Prelude
  import opened Envelopes
  import opened WalLog
  import opened WalSpec
  import opened Resume

  // ----- streams -----

  /** What each stream name stands for. */
  ghost predicate Carries(stream: string, p: Payload) {
    && (stream == "intent" ==> p.IntentEvent?)
    && (stream == "deviation" ==> p.DeviationEvent?)
    && (stream == "graph_edge" ==> p.GraphEdgeEvent?)
    && (stream == "lifecycle" ==> p.LifecycleEvent?)
    && (stream == "audit" ==> p.AuditEvent?)
    && stream in {"", "intent", "deviation", "graph_edge", "lifecycle", "audit"}
  }

  lemma MatchesIffCarries(stream: string, env: Envelope)
    ensures StreamMatches(stream, env) <==> Carries(stream, env.payload)
  {
    assert "intent"[0] != "deviation"[0] && "intent"[0] != "graph_edge"[0] && "intent"[0] != "lifecycle"[0] && "intent"[0] != "audit"[0];
    assert "deviation"[0] != "graph_edge"[0] && "deviation"[0] != "lifecycle"[0] && "deviation"[0] != "audit"[0];
    assert "graph_edge"[0] != "lifecycle"[0] && "graph_edge"[0] != "audit"[0] && "lifecycle"[0] != "audit"[0];
  }

  /** A request for one of the five streams is delivered only that kind of envelope, and any other
      nonempty name nothing at all. */
  lemma DeliveredStream(req: Request, es: seq<Entry>, env: Envelope)
    requires env in Deliver(req, es)
    ensures req.stream == "intent" ==> env.payload.IntentEvent?
    ensures req.stream == "deviation" ==> env.payload.DeviationEvent?
    ensures req.stream == "graph_edge" ==> env.payload.GraphEdgeEvent?
    ensures req.stream == "lifecycle" ==> env.payload.LifecycleEvent?
    ensures req.stream == "audit" ==> env.payload.AuditEvent?
    ensures req.stream in {"", "intent", "deviation", "graph_edge", "lifecycle", "audit"}
  {
    hide Deliver, PassesFilter, StreamMatches;
    DeliverMembers(req, es, env);
    MatchesIffCarries(req.stream, env);
  }

  /** Without a filter every logged envelope of the stream is delivered; the empty name takes all. */
  lemma StreamIsDelivered(req: Request, es: seq<Entry>, e: Entry)
    requires e in es && req.filter.None?
    requires
      || req.stream == ""
      || (req.stream == "intent" && e.env.payload.IntentEvent?)
      || (req.stream == "deviation" && e.env.payload.DeviationEvent?)
      || (req.stream == "graph_edge" && e.env.payload.GraphEdgeEvent?)
      || (req.stream == "lifecycle" && e.env.payload.LifecycleEvent?)
      || (req.stream == "audit" && e.env.payload.AuditEvent?)
    ensures StampCursor(req, e.env, e.num) in Deliver(req, es)
  {
    hide Deliver;
    DeliverMembers(req, es, StampCursor(req, e.env, e.num));
  }

  // ----- filters -----

  /** A nonempty list admits its members only, an empty one anything. */
  ghost predicate Admits(list: seq<string>, x: string) {
    list != [] ==> x in list
  }

  ghost predicate AdmitsMeta(f: EventFilter, meta: Option<Meta>) {
    meta.Some? ==> Admits(f.namespaces, meta.value.namespace) && Admits(f.pods, meta.value.pod)
  }

  /** What is delivered through a filter: its kind is among the kinds, the namespace and pod it names
      are among those listed, and where it has a severity that is at least the least wanted, when one
      is set. A raw system call may match by its name or its category; graph edges, lifecycle and audit
      events are not filtered. */
  lemma DeliveredPasses(req: Request, es: seq<Entry>, env: Envelope, f: EventFilter)
    requires env in Deliver(req, es) && req.filter == Some(f)
    ensures env.payload.IntentEvent? ==>
      var iv := env.payload.intent;
      Admits(f.kinds, iv.kind) && AdmitsMeta(f, iv.meta) && (f.minSeverity != 0 ==> iv.severity >= f.minSeverity)
    ensures env.payload.DeviationEvent? ==> Admits(f.kinds, env.payload.kind) && AdmitsMeta(f, env.payload.meta)
    ensures env.payload.RawSyscallEvent? ==>
      && (Admits(f.kinds, env.payload.name) || Admits(f.kinds, env.payload.category)) && AdmitsMeta(f, env.payload.meta)
      && (f.minSeverity != 0 ==> env.payload.severity >= f.minSeverity)
  {
    hide Deliver, StreamMatches;
    DeliverMembers(req, es, env);
  }

  /** And everything of the stream that meets this is delivered. */
  lemma PassingIsDelivered(req: Request, es: seq<Entry>, e: Entry, f: EventFilter)
    requires e in es && req.filter == Some(f) && Carries(req.stream, e.env.payload)
    requires e.env.payload.IntentEvent? ==>
      var iv := e.env.payload.intent;
      Admits(f.kinds, iv.kind) && AdmitsMeta(f, iv.meta) && (f.minSeverity != 0 ==> iv.severity >= f.minSeverity)
    requires e.env.payload.DeviationEvent? ==> Admits(f.kinds, e.env.payload.kind) && AdmitsMeta(f, e.env.payload.meta)
    requires e.env.payload.RawSyscallEvent? ==>
      && (Admits(f.kinds, e.env.payload.name) || Admits(f.kinds, e.env.payload.category)) && AdmitsMeta(f, e.env.payload.meta)
      && (f.minSeverity != 0 ==> e.env.payload.severity >= f.minSeverity)
    ensures StampCursor(req, e.env, e.num) in Deliver(req, es)
  {
    hide Deliver, StreamMatches, Carries;
    MatchesIffCarries(req.stream, e.env);
    DeliverMembers(req, es, StampCursor(req, e.env, e.num));
  }

  /** Passing is upward closed in severity. */
  lemma MoreSeverePasses(req: Request, iv: Intent, severity: int, cursor: Option<Cursor>)
    requires Selected(req, Envelope(cursor, IntentEvent(iv))) && severity >= iv.severity
    ensures Selected(req, Envelope(cursor, IntentEvent(iv.(severity := severity))))
  {
  }

  // ----- in every run -----

  /** Everything sent was selected and carries the aggregator's id and the requested stream. */
  ghost predicate SentOk(c: Config, s: State) {
    forall i | 0 <= i < |s.sent| ::
      && Selected(c.req, s.sent[i]) && s.sent[i].cursor.Some?
      && s.sent[i].cursor.value.nodeId == c.req.aggregatorId && s.sent[i].cursor.value.stream == c.req.stream
  }

  lemma SentOkStep(c: Config, s: State, a: Action)
    requires SentOk(c, s)
    ensures SentOk(c, Step(c, s, a))
  {
    hide StreamMatches, PassesFilter, Append, Collect;
  }

  lemma {:induction false} SentOkRun(c: Config, s: State, acts: seq<Action>)
    requires SentOk(c, s)
    ensures SentOk(c, Run(c, s, acts))
  {
    hide Step, SentOk;
    if acts != [] {
      SentOkRun(c, s, acts[..|acts| - 1]);
      SentOkStep(c, Run(c, s, acts[..|acts| - 1]), acts[|acts| - 1]);
    }
  }

  /** In every run, whatever fails, a subscriber is sent envelopes of its stream only, each under the
      aggregator's id and the stream it asked for. */
  lemma SentIsOfStream(c: Config, s0: State, acts: seq<Action>, i: nat)
    requires Init(s0) && i < |Run(c, s0, acts).sent|
    ensures var env := Run(c, s0, acts).sent[i];
      && Carries(c.req.stream, env.payload) && env.cursor.Some?
      && env.cursor.value.nodeId == c.req.aggregatorId && env.cursor.value.stream == c.req.stream
  {
    hide Run, Carries, StreamMatches, PassesFilter;
    assert SentOk(c, s0);
    SentOkRun(c, s0, acts);
    MatchesIffCarries(c.req.stream, Run(c, s0, acts).sent[i]);
  }
}
