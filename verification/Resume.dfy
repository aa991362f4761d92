// The durable-log-to-live-stream protocol as a step machine: the single writer appends and
// broadcasts (internal/aggregator/aggregator.go), GC unlinks segments (envwal.go), and one
// re-export subscriber registers, replays the log from its cursor and tails the live channel
// (internal/aggregator/reexport.go). A run is any sequence of actions; an action whose guard does
// not hold does nothing, so every interleaving is a run.
module Resume {
  import opened Prelude
  import opened Envelopes
  import opened WalLog
  import opened WalSpec
  import opened WalRead

  /** A broadcast, as it sits in the subscriber's channel. */
  datatype Live = Live(num: nat, agent: string, env: Envelope)

  datatype Phase =
    | Idle
    | Registered
    | Replaying(views: seq<View>)
    | InFile(view: View, pos: nat, views: seq<View>)
    | Tailing
    | CursorExpired
    | Gone

  datatype Config = Config(opts: Options, req: Request, buffer: nat)

  datatype State = State(
    // the writer
    wal: Wal, now: int, liveNum: nat, walErrors: nat, inHand: Option<Live>,
    // the subscriber: channel, drop counter and the locals of Subscribe and ReadFrom
    phase: Phase, queue: seq<Live>, drops: nat, gap: bool, lastSent: nat, sent: seq<Envelope>,
    // history: all entries ever written; the last number broadcast, and its value at registration;
    // the counter at the snapshot; where delivery starts, how far it is complete, and the last
    // number taken off the channel
    log: seq<Entry>, lastBroadcast: nat, baseline: nat, snapNum: nat, start: int, covered: int, taken: nat)

  datatype Action =
    | Emit(agent: string, env: Envelope, size: nat, fault: Fault)
    | Broadcast
    | Tick(d: nat)
    | RunGC
    | Register
    | Snapshot
    | NextView
    | ReadEntry
    | CloseFile
    | EndReplay
    | Receive
    | Disconnect

  predicate InSubs(p: Phase) {
    p != Idle && p != CursorExpired && p != Gone
  }

  // ----- the writer -----

  /** emitEnvelope up to the broadcast: the log's number, or the next live one when it fails. */
  function EmitStep(c: Config, s: State, agent: string, env: Envelope, size: nat, fault: Fault): State {
    if s.inHand.Some? || s.wal.segments == [] then s
    else
      var r := Append(s.wal, c.opts, agent, env, size, s.now, fault);
      var num := if r.num.Ok? then r.num.value else s.liveNum + 1;
      s.(wal := r.wal, liveNum := num, walErrors := if r.num.Ok? then s.walErrors else s.walErrors + 1,
         inHand := Some(Live(num, agent, env)), log := s.log + r.stored)
  }

  function BroadcastStep(c: Config, s: State): State {
    if s.inHand.None? then s
    else
      var ev := s.inHand.value;
      var s' := s.(inHand := None, lastBroadcast := ev.num);
      if !InSubs(s.phase) then s'
      else if |s.queue| < c.buffer then s'.(queue := s.queue + [ev])
      else s'.(drops := s.drops + 1)
  }

  // ----- the subscriber -----

  function RegisterStep(s: State): State {
    if s.phase != Idle then s
    else s.(phase := Registered, queue := [], drops := 0, gap := false, lastSent := 0, sent := [],
            baseline := s.lastBroadcast, taken := s.lastBroadcast)
  }

  function SnapshotStep(c: Config, s: State): State {
    if s.phase != Registered || s.wal.segments == [] then s
    else
      match c.req.cursor
      case None =>
        s.(phase := Tailing, snapNum := s.baseline, start := s.baseline, covered := s.baseline)
      case Some(n) =>
        if TooOld(n, s.wal.segments[0].start) then s.(phase := CursorExpired)
        else
          var start := if n > 0 then n else s.wal.segments[0].path - 1;
          s.(phase := Replaying(ViewsOf(s.wal.segments)), snapNum := s.wal.lastNum, start := start, covered := start)
  }

  function CursorOf(req: Request): nat {
    if req.cursor.Some? then req.cursor.value else 0
  }

  function NextViewStep(c: Config, s: State): State {
    if !s.phase.Replaying? || s.phase.views == [] then s
    else
      var v, rest := s.phase.views[0], s.phase.views[1..];
      if v.end <= CursorOf(c.req) then s.(phase := Replaying(rest))
      else if v.path !in s.wal.dir.linked then s.(phase := Replaying(rest), gap := true)
      else s.(phase := InFile(v, 0, rest))
  }

  function Send(c: Config, s: State, env: Envelope, num: nat): State {
    s.(sent := s.sent + [StampCursor(c.req, env, num)], lastSent := num)
  }

  function ReadEntryStep(c: Config, s: State): State {
    if !s.phase.InFile? || s.phase.pos >= |ContentOf(s.wal.dir, s.phase.view.path)| then s
    else
      var e := ContentOf(s.wal.dir, s.phase.view.path)[s.phase.pos];
      var s' := s.(phase := s.phase.(pos := s.phase.pos + 1));
      if e.num <= CursorOf(c.req) then s'
      else if Selected(c.req, e.env) then Send(c, s'.(covered := e.num), e.env, e.num)
      else s'.(covered := e.num)
  }

  function CloseFileStep(s: State): State {
    if !s.phase.InFile? || s.phase.pos < |ContentOf(s.wal.dir, s.phase.view.path)| then s
    else s.(phase := Replaying(s.phase.views))
  }

  function EndReplayStep(s: State): State {
    if s.phase != Replaying([]) then s
    else s.(phase := if s.gap then CursorExpired else Tailing)
  }

  /** One turn of the live loop: skip what was already sent, then filter, then send. */
  function ReceiveStep(c: Config, s: State): State {
    if s.phase != Tailing || s.queue == [] then s
    else
      var ev := s.queue[0];
      var s' := s.(queue := s.queue[1..], taken := ev.num,
                   covered := if s.covered < ev.num then ev.num else s.covered);
      if ev.num <= s.lastSent || !Selected(c.req, ev.env) then s' else Send(c, s', ev.env, ev.num)
  }

  function Step(c: Config, s: State, a: Action): State {
    match a
    case Emit(agent, env, size, fault) => EmitStep(c, s, agent, env, size, fault)
    case Broadcast => BroadcastStep(c, s)
    case Tick(d) => s.(now := s.now + d)
    case RunGC => s.(wal := Collect(s.wal, c.opts, s.now))
    case Register => RegisterStep(s)
    case Snapshot => SnapshotStep(c, s)
    case NextView => NextViewStep(c, s)
    case ReadEntry => ReadEntryStep(c, s)
    case CloseFile => CloseFileStep(s)
    case EndReplay => EndReplayStep(s)
    case Receive => ReceiveStep(c, s)
    case Disconnect => if InSubs(s.phase) then s.(phase := Gone) else s
  }

  function Run(c: Config, s: State, acts: seq<Action>): State {
    if acts == [] then s else Step(c, Run(c, s, acts[..|acts| - 1]), acts[|acts| - 1])
  }

  /** An opened log, nothing yet broadcast by this process, nobody subscribed. */
  ghost predicate Init(s: State) {
    && Layout(s.wal, s.log) && Aged(s.wal.segments, s.now) && s.wal.writable
    && s.liveNum == 0 && s.walErrors == 0 && s.inHand.None? && s.phase == Idle
    && s.queue == [] && s.drops == 0 && !s.gap && s.lastSent == 0 && s.sent == []
    && s.lastBroadcast == s.baseline == s.snapNum == s.taken == s.wal.lastNum
    && s.start == s.covered == s.wal.lastNum
  }

  // ----- what is delivered -----

  /** The envelopes a subscriber should get for these entries. */
  function Deliver(req: Request, es: seq<Entry>): seq<Envelope> {
    if es == [] then []
    else
      var init, e := es[..|es| - 1], es[|es| - 1];
      Deliver(req, init) + if Selected(req, e.env) then [StampCursor(req, e.env, e.num)] else []
  }

  /** The number of the last selected entry, 0 when there is none. */
  function LastSelected(req: Request, es: seq<Entry>): nat {
    if es == [] then 0
    else if Selected(req, es[|es| - 1].env) then es[|es| - 1].num
    else LastSelected(req, es[..|es| - 1])
  }

  function ToLive(es: seq<Entry>): (ls: seq<Live>)
    ensures |ls| == |es|
    ensures forall i | 0 <= i < |es| :: ls[i] == Live(es[i].num, es[i].agent, es[i].env)
  {
    seq(|es|, i requires 0 <= i < |es| => Live(es[i].num, es[i].agent, es[i].env))
  }

  lemma DeliverSnoc(req: Request, es: seq<Entry>, e: Entry)
    ensures Deliver(req, es + [e])
         == Deliver(req, es) + if Selected(req, e.env) then [StampCursor(req, e.env, e.num)] else []
    ensures LastSelected(req, es + [e]) == if Selected(req, e.env) then e.num else LastSelected(req, es)
  {
    assert (es + [e])[..|es|] == es;
  }

  /** Exactly the selected entries are delivered, under the cluster cursor. */
  lemma {:induction false} DeliverMembers(req: Request, es: seq<Entry>, env: Envelope)
    ensures env in Deliver(req, es) <==> exists e :: e in es && Selected(req, e.env) && env == StampCursor(req, e.env, e.num)
  {
    hide Selected, StampCursor;
    if es != [] {
      var n := |es| - 1;
      DeliverMembers(req, es[..n], env);
      assert es == es[..n] + [es[n]];
    }
  }

  lemma {:induction false} DeliverConcat(req: Request, a: seq<Entry>, b: seq<Entry>)
    ensures Deliver(req, a + b) == Deliver(req, a) + Deliver(req, b)
  {
    if b == [] {
      assert a + b == a;
    } else {
      var n := |b| - 1;
      DeliverConcat(req, a, b[..n]);
      assert a + b == (a + b[..n]) + [b[n]];
      DeliverSnoc(req, a + b[..n], b[n]);
    }
  }

  lemma {:induction false} LastSelectedBounds(req: Request, es: seq<Entry>, e: Entry)
    requires Increasing(es)
    ensures e in es && Selected(req, e.env) ==> e.num <= LastSelected(req, es)
    ensures es != [] ==> LastSelected(req, es) <= es[|es| - 1].num
  {
    if es != [] {
      var init := es[..|es| - 1];
      LastSelectedBounds(req, init, e);
      assert forall i | 0 <= i < |init| :: init[i] == es[i];
    }
  }
}
