// Fan-in and its counters (internal/aggregator/aggregator.go): stream loops hand envelopes to a
// bounded merge channel, one writer takes them off. Every method is one step of one goroutine, so
// what Valid says holds in every interleaving of them.
module FanIn {
  import opened Prelude
  import opened Envelopes
  import opened Peers
  import opened PeersHistory
  import opened Advertise
  import opened Writer
  import opened Numbering
  import Registry
  import Resume

  /** Outputs as broadcast, without their numbers. */
  ghost function Sent(emitted: seq<Resume.Live>): seq<Output> {
    seq(|emitted|, i requires 0 <= i < |emitted| => Output(emitted[i].agent, emitted[i].env))
  }

  lemma SentSnoc(emitted: seq<Resume.Live>, ev: Resume.Live)
    ensures Sent(emitted + [ev]) == Sent(emitted) + [Output(ev.agent, ev.env)]
  {
  }

  /** The registry has seen exactly the control envelopes taken, beside sweeps. */
  ghost predicate Follows(registry: Registry.Registry, taken: seq<Taken>)
    reads registry
  {
    registry.Valid() && WithoutSweeps(registry.history) == Events(taken)
  }

  lemma OneLess(m: map<nat, Output>, k: nat)
    requires k in m
    ensures |m - {k}| == |m| - 1
  {
    assert (m - {k}).Keys == m.Keys - {k};
  }

  lemma OneMore(m: map<nat, Output>, k: nat, v: Output)
    requires k !in m
    ensures |m[k := v]| == |m| + 1
  {
    assert m[k := v].Keys == m.Keys + {k};
  }

  /** Emitted numbers are those the outcomes assign. */
  ghost predicate Numbered(start: Counters, outcomes: seq<Outcome>, emitted: seq<Resume.Live>, counters: Counters) {
    && start.liveNum == 0 && counters == Final(start, outcomes)
    && |outcomes| == |emitted| && forall i | 0 <= i < |emitted| :: emitted[i].num == Numbers(start, outcomes)[i]
  }

  lemma NumberedSnoc(start: Counters, outcomes: seq<Outcome>, emitted: seq<Resume.Live>, counters: Counters, o: Outcome, ev: Resume.Live)
    requires Numbered(start, outcomes, emitted, counters) && ev.num == Next(counters, o).liveNum
    ensures Numbered(start, outcomes + [o], emitted + [ev], Next(counters, o))
  {
    hide Numbers, Final;
    NumbersSnoc(start, outcomes, o);
  }

  class Aggregator {
    const registry: Registry.Registry
    const depth: nat
    const hasWal: bool
    /** The merge channel, and what each stream loop has received and not yet handed over. */
    var queue: seq<Output>
    var inHand: map<nat, Output>
    var received: nat
    var dropped: nat
    var written: nat
    var errors: nat
    var walAppends: nat
    var walErrors: nat
    var xnodeJoins: nat
    var xnodeMisses: nat
    var vipJoins: nat
    var counters: Counters
    ghost var taken: seq<Taken>
    ghost var emitted: seq<Resume.Live>
    ghost var streamErrors: nat
    /** The counters at the start, and what every append since has come to. */
    ghost const start: Counters
    ghost var outcomes: seq<Outcome>

    /** What went downstream, and how many joins hit and missed, is a function of what was taken. */
    ghost predicate WriterFollows()
      reads this, registry
    {
      && Sent(emitted) == Outputs(registry.ttl, taken)
      && xnodeJoins == Hits(registry.ttl, taken) && vipJoins == VipHits(registry.ttl, taken)
      && xnodeJoins + xnodeMisses == Eligibles(taken)
    }

    /** Nothing received or emitted is unaccounted for. */
    ghost predicate Accounted()
      reads this
    {
      && |queue| <= depth
      && received == dropped + |queue| + |taken| + |inHand|
      && walAppends + walErrors == (if hasWal then |emitted| else 0)
      && written + errors == |emitted| + streamErrors
      && Numbered(start, outcomes, emitted, counters)
    }

    ghost predicate Valid()
      reads this, registry
    {
      Follows(registry, taken) && WriterFollows() && Accounted()
    }

    constructor (registry: Registry.Registry, depth: nat, walNum: Option<nat>)
      requires registry.Valid() && registry.history == []
      ensures Valid() && this.registry == registry && taken == [] && emitted == []
      ensures this.depth == if depth == 0 then 1024 else depth
    {
      this.registry := registry;
      this.depth := if depth == 0 then 1024 else depth;
      hasWal := walNum.Some?;
      counters := Counters(if walNum.Some? then walNum.value else 0, 0);
      start := Counters(if walNum.Some? then walNum.value else 0, 0);
      outcomes := [];
      queue, inHand, taken, emitted, streamErrors := [], map[], [], [], 0;
      received, dropped, written, errors, walAppends, walErrors := 0, 0, 0, 0, 0, 0;
      xnodeJoins, xnodeMisses, vipJoins := 0, 0, 0;
      new;
      NothingCounted(registry.ttl);
    }

    /** Conservation in every reachable state. */
    lemma Conserved()
      requires Valid()
      ensures received == dropped + |queue| + |taken| + |inHand|
      ensures |emitted| == |taken| - Controls(taken) + xnodeJoins
      ensures hasWal ==> walAppends + walErrors == |emitted|
      ensures vipJoins <= xnodeJoins && xnodeJoins + xnodeMisses == Eligibles(taken)
      ensures forall i | 0 <= i < |emitted| && emitted[i].env.payload.IntentEvent? ::
        emitted[i].env.payload.intent.kind != "ListenerAdvertise" && emitted[i].env.payload.intent.kind != "ListenerWithdraw"
    {
      hide Follows, Outputs, Hits, VipHits, Eligibles, Controls;
      OutputsAddUp(registry.ttl, taken);
      forall i | 0 <= i < |emitted| ensures !Control(emitted[i].env) {
        assert Sent(emitted)[i] in Outputs(registry.ttl, taken);
      }
    }

    /** Emitted numbers strictly increase exactly when what the appends came to is affordable for what
        the log held at the start; without a log they count up. */
    lemma NumbersIncreaseIff()
      requires Valid()
      ensures (forall i, j | 0 <= i < j < |emitted| :: emitted[i].num < emitted[j].num) <==> Affordable(start.walNum, outcomes)
    {
      hide Follows, Outputs, Hits, VipHits, Eligibles, Affordable, Numbers, Sent;
      var nums := Numbers(start, outcomes);
      IncreasingIffAffordable(start, outcomes);
      IncreasingPairs(0, nums);
      NumbersPositive(start, outcomes);
    }

    // ----- a stream loop -----

    /** Recv returned an envelope. */
    method Receive(loop: nat, ev: Output)
      requires Valid() && loop !in inHand
      modifies `received, `inHand
      ensures Valid() && inHand == old(inHand)[loop := ev] && received == old(received) + 1
    {
      hide Outputs, Hits, VipHits, Eligibles, Sent, Follows, Numbered;
      OneMore(inHand, loop, ev);
      received := received + 1;
      inHand := inHand[loop := ev];
    }

    /** The non-blocking send: dropped when the channel is full. */
    method Enqueue(loop: nat)
      requires Valid() && loop in inHand
      modifies `queue, `inHand, `dropped
      ensures Valid() && inHand == old(inHand) - {loop}
      ensures queue == if |old(queue)| < depth then old(queue) + [old(inHand)[loop]] else old(queue)
      ensures dropped == old(dropped) + if |old(queue)| < depth then 0 else 1
    {
      hide Outputs, Hits, VipHits, Eligibles, Sent, Follows, Numbered;
      OneLess(inHand, loop);
      var ev := inHand[loop];
      inHand := inHand - {loop};
      if |queue| < depth {
        queue := queue + [ev];
      } else {
        dropped := dropped + 1;
      }
    }

    method StreamError()
      requires Valid()
      modifies `errors, `streamErrors
      ensures Valid() && errors == old(errors) + 1
    {
      hide Outputs, Hits, VipHits, Eligibles, Sent, Follows, Numbered;
      errors := errors + 1;
      streamErrors := streamErrors + 1;
    }

    /** The background sweeper: nothing observable changes. */
    method Sweep(now: int)
      requires Valid() && registry.clock <= now
      modifies registry
      ensures Valid() && registry.clock == now
    {
      hide Outputs, Hits, VipHits, Eligibles, Events, WithoutSweeps;
      WithoutSweepsSnoc(registry.history, Swept(now));
      var exactCount, wildCount := registry.Stats(now);
    }

    // ----- the writer -----

    /** Numbers, broadcasts and writes one output. */
    method Emit(ev: Output, outcome: Outcome, sinkOk: bool)
      requires Accounted()
      modifies `counters, `walAppends, `walErrors, `written, `errors, `emitted, `outcomes
      ensures Accounted() && emitted == old(emitted) + [Resume.Live(counters.liveNum, ev.agent, ev.env)]
      ensures outcomes == old(outcomes) + [if hasWal then outcome else Refused]
      ensures counters == Next(old(counters), if hasWal then outcome else Refused)
      ensures walAppends == old(walAppends) + if hasWal && outcome.Stored? then 1 else 0
    {
      hide Numbered;
      if hasWal {
        counters := Next(counters, outcome);
        if outcome.Stored? {
          walAppends := walAppends + 1;
        } else {
          walErrors := walErrors + 1;
        }
      } else {
        counters := counters.(liveNum := counters.liveNum + 1);
      }
      NumberedSnoc(start, outcomes, emitted, old(counters), if hasWal then outcome else Refused, Resume.Live(counters.liveNum, ev.agent, ev.env));
      outcomes := outcomes + [if hasWal then outcome else Refused];
      emitted := emitted + [Resume.Live(counters.liveNum, ev.agent, ev.env)];
      if sinkOk {
        written := written + 1;
      } else {
        errors := errors + 1;
      }
    }

    /** Folds a control envelope into the registry; false when it is not one. */
    method Fold(t: Taken, ghost before: seq<Taken>) returns (consumed: bool)
      requires Follows(registry, before) && registry.clock <= t.at
      modifies registry
      ensures Follows(registry, before + [t]) && registry.clock <= t.at
      ensures consumed == Control(t.env)
      ensures !consumed ==> Follows(registry, before)
    {
      hide WithoutSweeps, Events, ListenerFromAdvertise, ListenerFromWithdraw;
      EventsSnoc(before, t);
      if !t.env.payload.IntentEvent? {
        return false;
      }
      var intent := t.env.payload.intent;
      if intent.kind == KindListenerAdvertise {
        var l := ListenerFromAdvertise(intent);
        if l.Some? {
          WithoutSweepsSnoc(registry.history, Observed(l.value, t.at));
          registry.Observe(l.value, t.at);
        }
        return true;
      }
      if intent.kind == KindListenerWithdraw {
        var l := ListenerFromWithdraw(intent);
        if l.Some? {
          WithoutSweepsSnoc(registry.history, Removed(l.value));
          registry.Remove(l.value);
        }
        return true;
      }
      return false;
    }

    /** Joins an eligible envelope and counts the outcome. */
    method JoinPeer(t: Taken, ghost before: seq<Taken>) returns (edge: Option<Envelope>)
      requires Follows(registry, before) && registry.clock <= t.at
      modifies `xnodeJoins, `xnodeMisses, `vipJoins
      ensures var ans := AnswerFor(registry.ttl, before, t);
        && edge == (if ans.Some? then Some(EdgeEnvelope(t.env.payload.intent, ans.value)) else None)
        && Joined(old(xnodeJoins), old(vipJoins), old(xnodeMisses), ans, Eligible(t.env))
    {
      hide JoinBy, PeerEdge, WithoutSweeps, Events;
      if !Eligible(t.env) {
        return None;
      }
      var intent := t.env.payload.intent;
      AnswerIgnoresSweeps(registry.history, registry.ttl, before, t);
      var ans := registry.Join(Attr(intent, "peer"), t.at, t.res);
      if ans.None? {
        xnodeMisses := xnodeMisses + 1;
        return None;
      }
      xnodeJoins := xnodeJoins + 1;
      if ans.value.how.ServiceVip? {
        vipJoins := vipJoins + 1;
      }
      return Some(EdgeEnvelope(intent, ans.value));
    }

    /** Emits what an envelope that is not control traffic puts downstream; an edge comes right after
        its trigger, with the next number when both are stored. */
    method Put(t: Taken, ghost before: seq<Taken>, first: Outcome, firstOk: bool, second: Outcome, secondOk: bool)
      requires Accounted() && Follows(registry, before) && registry.clock <= t.at && !Control(t.env)
      modifies `counters, `walAppends, `walErrors, `written, `errors, `emitted, `outcomes, `xnodeJoins, `xnodeMisses, `vipJoins
      ensures Accounted() && Sent(emitted) == old(Sent(emitted)) + OutputsOf(registry.ttl, before, t)
      ensures Joined(old(xnodeJoins), old(vipJoins), old(xnodeMisses), AnswerFor(registry.ttl, before, t), Eligible(t.env))
      ensures |emitted| == |old(emitted)| + 2 && (!hasWal || (first.Stored? && second.Stored?)) ==>
        emitted[|emitted| - 1].num == emitted[|emitted| - 2].num + 1
    {
      hide Follows, Sent, AnswerFor, Control, Eligible, EdgeEnvelope, Numbered;
      Emit(Output(t.agent, t.env), first, firstOk);
      SentSnoc(old(emitted), emitted[|emitted| - 1]);
      var edge := JoinPeer(t, before);
      if edge.Some? {
        ghost var sent := emitted;
        Emit(Output(t.agent, edge.value), second, secondOk);
        SentSnoc(sent, emitted[|emitted| - 1]);
      }
    }

    /** The join counters moved by one answer. */
    ghost predicate Joined(joins: nat, vips: nat, misses: nat, ans: Option<Answer>, eligible: bool)
      reads this
    {
      && xnodeJoins == joins + (if ans.Some? then 1 else 0)
      && vipJoins == vips + (if ans.Some? && ans.value.how.ServiceVip? then 1 else 0)
      && xnodeJoins + xnodeMisses == joins + misses + (if eligible then 1 else 0)
    }

    /** One iteration of the writer's loop, given the outcomes of the two appends and writes it may
        make. */
    method WriteOne(now: int, res: Resolvers, first: Outcome, firstOk: bool, second: Outcome, secondOk: bool)
      requires Valid() && queue != [] && registry.clock <= now
      modifies this, registry
      ensures Valid() && queue == old(queue)[1..] && inHand == old(inHand)
      ensures received == old(received) && dropped == old(dropped)
      ensures taken == old(taken) + [Taken(old(queue)[0].agent, old(queue)[0].env, now, res)]
      ensures |emitted| == |old(emitted)| + 2 && (!hasWal || (first.Stored? && second.Stored?)) ==>
        emitted[|emitted| - 1].num == emitted[|emitted| - 2].num + 1
    {
      hide Follows, Outputs, Hits, VipHits, Eligibles, Sent, AnswerFor, Control, Eligible, EdgeEnvelope, Numbered;
      var t := Taken(queue[0].agent, queue[0].env, now, res);
      ghost var before := taken;
      StepCounts(registry.ttl, before, t);
      OutputsOfOne(registry.ttl, before, t);
      queue := queue[1..];
      taken := taken + [t];
      var consumed := Fold(t, before);
      if !consumed {
        Put(t, before, first, firstOk, second, secondOk);
      }
    }
  }

  lemma StepCounts(ttl: int, ts: seq<Taken>, t: Taken)
    ensures Outputs(ttl, ts + [t]) == Outputs(ttl, ts) + OutputsOf(ttl, ts, t)
    ensures Eligibles(ts + [t]) == Eligibles(ts) + if Eligible(t.env) then 1 else 0
    ensures Hits(ttl, ts + [t]) == Hits(ttl, ts) + if AnswerFor(ttl, ts, t).Some? then 1 else 0
    ensures VipHits(ttl, ts + [t]) == VipHits(ttl, ts) +
            if AnswerFor(ttl, ts, t).Some? && AnswerFor(ttl, ts, t).value.how.ServiceVip? then 1 else 0
  {
    hide Eligibles, Hits, VipHits, AnswerFor, OutputsOf;
    assert (ts + [t])[..|ts|] == ts;
    EligibleStep(ts, t);
    HitStep(ttl, ts, t);
    VipHitStep(ttl, ts, t);
  }
}
