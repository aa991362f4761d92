// What the writer makes of the envelopes it takes off the merge channel
// (internal/aggregator/aggregator.go, writeLoop, foldAdvertise, foldWithdraw, joinPeer).
module Writer {
  import opened Prelude
  import opened Envelopes
  import opened Peers
  import opened PeersHistory
  import opened Advertise

  /** An envelope taken, with when and against which indexes it was joined. */
  datatype Taken = Taken(agent: string, env: Envelope, at: int, res: Resolvers)

  datatype Output = Output(agent: string, env: Envelope)

  predicate IsKind(env: Envelope, kind: string) {
    env.payload.IntentEvent? && env.payload.intent.kind == kind
  }

  /** Listener advertises and withdraws are consumed. */
  predicate Control(env: Envelope) {
    IsKind(env, KindListenerAdvertise) || IsKind(env, KindListenerWithdraw)
  }

  /** A network exchange with a peer that the kernel has not attributed. */
  predicate Eligible(env: Envelope) {
    && IsKind(env, KindNetworkExchange)
    && Attr(env.payload.intent, "peer") != "" && "peer_pid" !in env.payload.intent.attributes
  }

  /** The registry event a control envelope amounts to, if it is well formed. */
  function EventOf(t: Taken): Option<Event> {
    if IsKind(t.env, KindListenerAdvertise) then
      match ListenerFromAdvertise(t.env.payload.intent)
      case Some(l) => Some(Observed(l, t.at))
      case None => None
    else if IsKind(t.env, KindListenerWithdraw) then
      match ListenerFromWithdraw(t.env.payload.intent)
      case Some(l) => Some(Removed(l))
      case None => None
    else None
  }

  function Events(ts: seq<Taken>): seq<Event> {
    if ts == [] then []
    else
      var before := Events(ts[..|ts| - 1]);
      match EventOf(ts[|ts| - 1])
      case Some(e) => before + [e]
      case None => before
  }

  /** The join of an eligible envelope, from the advertises and withdraws taken before it. */
  ghost function AnswerFor(ttl: int, before: seq<Taken>, t: Taken): Option<Answer> {
    if !Eligible(t.env) then None
    else JoinBy(Recorded(Events(before), ttl, t.at), t.res, Attr(t.env.payload.intent, "peer"))
  }

  function EdgeEnvelope(trigger: Intent, ans: Answer): Envelope {
    Envelope(None, IntentEvent(PeerEdge(trigger, ans.listener, ans.how, MetaOf(trigger).nodeName)))
  }

  /** What one envelope puts downstream: nothing, itself, or itself and the edge it resolved to. */
  ghost function OutputsOf(ttl: int, before: seq<Taken>, t: Taken): seq<Output> {
    if Control(t.env) then []
    else
      match AnswerFor(ttl, before, t)
      case None => [Output(t.agent, t.env)]
      case Some(ans) => [Output(t.agent, t.env), Output(t.agent, EdgeEnvelope(t.env.payload.intent, ans))]
  }

  ghost function Outputs(ttl: int, ts: seq<Taken>): seq<Output> {
    if ts == [] then []
    else Outputs(ttl, ts[..|ts| - 1]) + OutputsOf(ttl, ts[..|ts| - 1], ts[|ts| - 1])
  }

  // ----- counting -----

  ghost function Controls(ts: seq<Taken>): nat {
    |set i | 0 <= i < |ts| && Control(ts[i].env)|
  }

  ghost function Eligibles(ts: seq<Taken>): nat {
    |set i | 0 <= i < |ts| && Eligible(ts[i].env)|
  }

  ghost predicate Hit(ttl: int, ts: seq<Taken>, i: nat)
    requires i < |ts|
  {
    AnswerFor(ttl, ts[..i], ts[i]).Some?
  }

  ghost predicate VipHit(ttl: int, ts: seq<Taken>, i: nat)
    requires i < |ts|
  {
    Hit(ttl, ts, i) && AnswerFor(ttl, ts[..i], ts[i]).value.how.ServiceVip?
  }

  ghost function Hits(ttl: int, ts: seq<Taken>): nat {
    |set i: nat | i < |ts| && Hit(ttl, ts, i)|
  }

  ghost function VipHits(ttl: int, ts: seq<Taken>): nat {
    |set i: nat | i < |ts| && VipHit(ttl, ts, i)|
  }

  // One envelope more in each count.

  lemma ControlStep(ts: seq<Taken>, t: Taken)
    ensures Controls(ts + [t]) == Controls(ts) + if Control(t.env) then 1 else 0
  {
    hide Control;
    var n, all := |ts|, ts + [t];
    var c, c' := set i | 0 <= i < |ts| && Control(ts[i].env), set i | 0 <= i < |all| && Control(all[i].env);
    if Control(t.env) { assert c' == c + {n}; } else { assert c' == c; }
  }

  lemma EligibleStep(ts: seq<Taken>, t: Taken)
    ensures Eligibles(ts + [t]) == Eligibles(ts) + if Eligible(t.env) then 1 else 0
  {
    hide Eligible;
    var n, all := |ts|, ts + [t];
    var c, c' := set i | 0 <= i < |ts| && Eligible(ts[i].env), set i | 0 <= i < |all| && Eligible(all[i].env);
    if Eligible(t.env) { assert c' == c + {n}; } else { assert c' == c; }
  }

  lemma HitStep(ttl: int, ts: seq<Taken>, t: Taken)
    ensures Hits(ttl, ts + [t]) == Hits(ttl, ts) + if AnswerFor(ttl, ts, t).Some? then 1 else 0
  {
    hide AnswerFor;
    var n: nat, all := |ts|, ts + [t];
    assert all[..n] == ts && forall i: nat | i < n :: all[..i] == ts[..i];
    var h, h' := set i: nat | i < |ts| && Hit(ttl, ts, i), set i: nat | i < |all| && Hit(ttl, all, i);
    if AnswerFor(ttl, ts, t).Some? { assert h' == h + {n}; } else { assert h' == h; }
  }

  lemma VipHitStep(ttl: int, ts: seq<Taken>, t: Taken)
    ensures VipHits(ttl, ts + [t]) == VipHits(ttl, ts) +
            if AnswerFor(ttl, ts, t).Some? && AnswerFor(ttl, ts, t).value.how.ServiceVip? then 1 else 0
  {
    hide AnswerFor;
    var n: nat, all := |ts|, ts + [t];
    assert all[..n] == ts && forall i: nat | i < n :: all[..i] == ts[..i];
    var v, v' := set i: nat | i < |ts| && VipHit(ttl, ts, i), set i: nat | i < |all| && VipHit(ttl, all, i);
    if VipHit(ttl, all, n) { assert v' == v + {n}; } else { assert v' == v; }
  }

  /** Outputs are the envelopes that are not control traffic plus one edge a hit; hits are among the
      eligible, VIP hits among the hits; and no control envelope is ever put out. */
  lemma {:induction false} OutputsAddUp(ttl: int, ts: seq<Taken>)
    ensures |Outputs(ttl, ts)| + Controls(ts) == |ts| + Hits(ttl, ts)
    ensures VipHits(ttl, ts) <= Hits(ttl, ts) <= Eligibles(ts)
    ensures forall o | o in Outputs(ttl, ts) :: !Control(o.env)
  {
    hide AnswerFor, Controls, Eligibles, Hits, VipHits;
    if ts == [] {
      NothingCounted(ttl);
    } else {
      var init, t := ts[..|ts| - 1], ts[|ts| - 1];
      OutputsAddUp(ttl, init);
      assert ts == init + [t];
      ControlStep(init, t);
      EligibleStep(init, t);
      HitStep(ttl, init, t);
      VipHitStep(ttl, init, t);
      OutputsOfOne(ttl, init, t);
    }
  }

  lemma NothingCounted(ttl: int)
    ensures Controls([]) == Eligibles([]) == Hits(ttl, []) == VipHits(ttl, []) == 0
  {
  }

  lemma OutputsOfOne(ttl: int, before: seq<Taken>, t: Taken)
    ensures |OutputsOf(ttl, before, t)| + (if Control(t.env) then 1 else 0)
            == 1 + if AnswerFor(ttl, before, t).Some? then 1 else 0
    ensures (AnswerFor(ttl, before, t).Some? ==> Eligible(t.env)) && !(Eligible(t.env) && Control(t.env))
    ensures forall o | o in OutputsOf(ttl, before, t) :: !Control(o.env)
  {
    assert KindNetworkExchange[0] != KindListenerAdvertise[0] && KindNetworkExchange[0] != KindListenerWithdraw[0];
    assert KindClusterPeerEdge[0] != KindListenerAdvertise[0] && KindClusterPeerEdge[0] != KindListenerWithdraw[0];
  }

  // ----- the registry behind the writer -----

  lemma WithoutSweepsSnoc(h: seq<Event>, e: Event)
    ensures WithoutSweeps(h + [e]) == if e.Swept? then WithoutSweeps(h) else WithoutSweeps(h) + [e]
  {
    assert (h + [e])[..|h|] == h;
  }

  lemma EventsSnoc(ts: seq<Taken>, t: Taken)
    ensures Events(ts + [t]) == match EventOf(t) case Some(e) => Events(ts) + [e] case None => Events(ts)
  {
    assert (ts + [t])[..|ts|] == ts;
  }

  /** Whatever sweeps ran in between, the registry answers as the envelopes taken say. */
  lemma AnswerIgnoresSweeps(h: seq<Event>, ttl: int, before: seq<Taken>, t: Taken)
    requires WithoutSweeps(h) == Events(before) && Eligible(t.env)
    ensures JoinBy(Recorded(h, ttl, t.at), t.res, Attr(t.env.payload.intent, "peer")) == AnswerFor(ttl, before, t)
  {
    hide JoinBy, Latest, WithoutSweeps, Events;
    forall k ensures At(Recorded(h, ttl, t.at), k) == At(Recorded(Events(before), ttl, t.at), k) {
      LatestIgnoresSweeps(h, ttl, k);
    }
    SameJoin(Recorded(h, ttl, t.at), Recorded(Events(before), ttl, t.at), t.res, Attr(t.env.payload.intent, "peer"));
  }
}
