// When a re-export subscriber can be sent something it already acknowledged.
module ResumeCursor {
  import opened Prelude
  import opened Envelopes
  import opened WalLog
  import opened WalSpec
  import opened WalRead
  import opened Resume
  import opened ResumeInv
  import opened ResumeSteps
  import opened ResumeReplay
  import opened ResumeRuns
  import opened ResumeTheorems

  /** Entries past a start carry numbers past it. */
  lemma {:induction false} DeliverNumbers(req: Request, es: seq<Entry>, start: int)
    requires forall e | e in es :: e.num > start
    ensures forall env | env in Deliver(req, es) :: CursorNum(env) > start
  {
    if es != [] {
      assert es[|es| - 1] in es;
      DeliverNumbers(req, es[..|es| - 1], start);
    }
  }

  /** The subscriber can be sent something it already acknowledged. */
  ghost predicate Repeats(c: Config, s: State, more: seq<Action>, n: nat) {
    var s' := Run(c, s, [Register] + more);
    Clean(s') && !s'.gap && exists i :: 0 <= i < |s'.sent| && CursorNum(s'.sent[i]) <= n
  }

  lemma AfterRegister(c: Config, s: State, more: seq<Action>)
    requires s.phase == Idle
    ensures Run(c, s, [Register] + more).baseline == s.lastBroadcast
  {
    hide Run;
    RunConcat(c, s, [Register], more);
    assert [] + [Register] == [Register];
    RunSnoc(c, s, [], Register);
    RunNone(c, s);
    BaselineFixed(c, RegisterStep(s), more);
  }

  lemma OwedNumbers(c: Config, s: State, n: nat)
    requires c.req.cursor == Some(n) && n > 0
    ensures forall env | env in Owed(c, s) :: CursorNum(env) > n
  {
    WindowMembers(s.log, n + 1, s.wal.lastNum);
    DeliverNumbers(c.req, Window(s.log, n + 1, s.wal.lastNum), n);
  }

  lemma SentPositive(c: Config, s0: State, acts: seq<Action>)
    requires Init(s0)
    ensures var sent := Run(c, s0, acts).sent; forall i | 0 <= i < |sent| :: CursorNum(sent[i]) >= 1
  {
    hide Run, WalOk, ChainOk, StartOk, ReplayOk, TailOk, WriterOk, QueueOk, LiveOk, IdleOk, Init;
    RunKeeps(c, s0, acts);
  }

  lemma KnownCursorNeverRepeats(c: Config, s0: State, acts: seq<Action>, more: seq<Action>, n: nat)
    requires Init(s0) && Run(c, s0, acts).phase == Idle && c.req.cursor == Some(n)
    requires n <= Run(c, s0, acts).lastBroadcast
    ensures !Repeats(c, Run(c, s0, acts), more, n)
  {
    hide Run, Init, Owed;
    var s := Run(c, s0, acts);
    var s' := Run(c, s, [Register] + more);
    RunConcat(c, s0, acts, [Register] + more);
    AfterRegister(c, s, more);
    SentPositive(c, s0, acts + ([Register] + more));
    if n > 0 {
      SentIsPrefixOfOwed(c, s0, acts + ([Register] + more));
      OwedNumbers(c, s', n);
      assert s'.sent <= Owed(c, s') ==> forall i | 0 <= i < |s'.sent| :: s'.sent[i] in Owed(c, s');
    }
  }

  // A run that repeats when the cursor is ahead of what was broadcast.

  function Skips(k: nat): seq<Action> {
    if k == 0 then [] else Skips(k - 1) + [NextView]
  }

  lemma SkipOne(c: Config, s: State, vs: seq<View>)
    requires vs != [] && vs[0].end <= CursorOf(c.req)
    ensures Step(c, s.(phase := Replaying(vs)), NextView) == s.(phase := Replaying(vs[1..]))
  {
  }

  lemma {:induction false} SkipAll(c: Config, s: State, k: nat)
    requires s.phase.Replaying? && k <= |s.phase.views|
    requires forall i | 0 <= i < |s.phase.views| :: s.phase.views[i].end <= CursorOf(c.req)
    ensures Run(c, s, Skips(k)) == s.(phase := Replaying(s.phase.views[k..]))
  {
    hide Step, Run;
    if k == 0 {
      RunNone(c, s);
      assert s.phase.views[0..] == s.phase.views;
    } else {
      SkipAll(c, s, k - 1);
      RunSnoc(c, s, Skips(k - 1), NextView);
      SkipOne(c, s, s.phase.views[k - 1..]);
      assert s.phase.views[k - 1..][1..] == s.phase.views[k..];
    }
  }

  lemma EndsBelow(w: Wal, log: seq<Entry>)
    requires Layout(w, log)
    ensures forall i | 0 <= i < |w.segments| :: w.segments[i].end <= w.lastNum
    ensures w.segments[0].start <= w.lastNum + 1
  {
    var n := |w.segments| - 1;
    assert w.segments[n] == Active(w);
    forall i | 0 <= i < n ensures w.segments[i].end <= w.lastNum {
      assert w.segments[i].end < w.segments[n].path;
    }
  }

  /** An envelope emitted and broadcast right after registration waits in the channel. */
  lemma EmitAfterRegister(c: Config, s: State, env: Envelope)
    requires Inv(c, s) && s.phase == Idle && s.inHand.None? && s.walErrors == 0 && s.wal.writable && c.buffer > 0
    ensures var s3 := BroadcastStep(c, EmitStep(c, RegisterStep(s), "", env, 0, NoFault));
      && s3.phase == Registered && s3.queue == [Live(s.wal.lastNum + 1, "", env)] && s3.walErrors == 0 && s3.drops == 0
      && !s3.gap && s3.sent == [] && s3.lastSent == 0 && s3.wal.lastNum == s.wal.lastNum + 1 && WalOk(s3)
  {
    hide Append, WalOk, ChainOk, OrderOk, StartOk, ReplayOk, TailOk, WriterOk, QueueOk, LiveOk, IdleOk;
    AppendSucceeds(s.wal, c.opts, "", env, 0, s.now);
    RegisterKeeps(c, s);
    EmitKeeps(c, RegisterStep(s), "", env, 0, NoFault);
    BroadcastKeeps(c, EmitStep(c, RegisterStep(s), "", env, 0, NoFault));
  }

  lemma AppendSucceeds(w: Wal, opts: Options, agent: string, env: Envelope, size: nat, now: int)
    requires w.segments != [] && w.writable
    ensures var r := Append(w, opts, agent, env, size, now, NoFault);
      r.num == Ok(w.lastNum + 1) && r.wal.lastNum == w.lastNum + 1
  {
  }

  /** A replay from a cursor at or past every segment's end skips them all and enters the live tail
      with nothing sent. */
  lemma EnterTail(c: Config, s: State, n: nat)
    requires WalOk(s) && s.phase == Registered && c.req.cursor == Some(n)
    requires !s.gap && 0 < n && s.wal.lastNum <= n
    ensures Run(c, s, [Snapshot] + Skips(|s.wal.segments|) + [EndReplay])
         == s.(phase := Tailing, snapNum := s.wal.lastNum, start := n, covered := n)
  {
    hide Layout, Aged, Run, Skips, LogBelow, FilesFromLog;
    LayoutLog(s.wal, s.log);
    EndsBelow(s.wal, s.log);
    RunNone(c, s);
    var k, s1 := |s.wal.segments|, SnapshotStep(c, s);
    assert s1.phase.views[k..] == [];
    assert [] + [Snapshot] == [Snapshot];
    RunSnoc(c, s, [], Snapshot);
    RunConcat(c, s, [Snapshot], Skips(k));
    SkipAll(c, s1, k);
    RunSnoc(c, s, [Snapshot] + Skips(k), EndReplay);
  }

  /** The live loop then sends what waits in the channel. */
  lemma TailAfterSkips(c: Config, s: State, n: nat, ev: Live)
    requires WalOk(s) && s.phase == Registered && s.queue == [ev] && c.req.cursor == Some(n)
    requires !s.gap && s.sent == [] && s.lastSent == 0 && 0 < ev.num == s.wal.lastNum <= n && Selected(c.req, ev.env)
    ensures var s' := Run(c, s, [Snapshot] + Skips(|s.wal.segments|) + [EndReplay] + [Receive]);
      && s'.sent == [StampCursor(c.req, ev.env, ev.num)] && s'.walErrors == s.walErrors && s'.drops == s.drops && !s'.gap
  {
    hide WalOk, Run, Skips;
    EnterTail(c, s, n);
    RunSnoc(c, s, [Snapshot] + Skips(|s.wal.segments|) + [EndReplay], Receive);
  }

  lemma LastBroadcastIs(c: Config, s: State)
    requires Inv(c, s) && s.walErrors == 0
    ensures s.inHand.None? ==> s.lastBroadcast == s.wal.lastNum
    ensures s.inHand.Some? ==> s.lastBroadcast + 1 == s.inHand.value.num == s.wal.lastNum
  {
    hide WalOk, ChainOk, OrderOk, StartOk, ReplayOk, TailOk, QueueOk, LiveOk, IdleOk;
  }

  /** While no append has failed, the log can be written to. */
  lemma {:induction false} CleanIsWritable(c: Config, s0: State, acts: seq<Action>)
    requires Init(s0)
    ensures Run(c, s0, acts).walErrors == 0 ==> Run(c, s0, acts).wal.writable
  {
    hide Init;
    if acts == [] {
      assert s0.wal.writable by { InitWritable(s0); }
    } else {
      CleanIsWritable(c, s0, acts[..|acts| - 1]);
      WritableStep(c, Run(c, s0, acts[..|acts| - 1]), acts[|acts| - 1]);
    }
  }

  lemma InitWritable(s: State)
    requires Init(s)
    ensures s.wal.writable
  {
  }

  lemma WritableStep(c: Config, s: State, a: Action)
    requires s.walErrors == 0 ==> s.wal.writable
    ensures Step(c, s, a).walErrors == 0 ==> Step(c, s, a).wal.writable
  {
  }

  // Nothing in hand: a fresh envelope is numbered at or below the cursor.

  lemma AheadCursorRepeats(c: Config, s: State, n: nat, env: Envelope) returns (more: seq<Action>)
    requires Inv(c, s) && s.wal.writable && c.req.cursor == Some(n) && c.buffer > 0 && Selected(c.req, env)
    requires s.phase == Idle && s.inHand.None? && s.walErrors == 0 && s.lastBroadcast < n
    ensures Repeats(c, s, more, n)
  {
    hide Run, Inv, Skips, RegisterStep, EmitStep, BroadcastStep, WalOk;
    EmitAfterRegister(c, s, env);
    LastBroadcastIs(c, s);
    var s3 := BroadcastStep(c, EmitStep(c, RegisterStep(s), "", env, 0, NoFault));
    var first, rest := [Register, Emit("", env, 0, NoFault), Broadcast], [Snapshot] + Skips(|s3.wal.segments|) + [EndReplay] + [Receive];
    RunThree(c, s, Register, Emit("", env, 0, NoFault), Broadcast);
    RunConcat(c, s, first, rest);
    TailAfterSkips(c, s3, n, Live(s3.wal.lastNum, "", env));
    more := first[1..] + rest;
    assert [Register] + more == first + rest;
    var s' := Run(c, s, [Register] + more);
    assert CursorNum(s'.sent[0]) == s3.wal.lastNum;
  }

  // An envelope in hand, appended and not yet broadcast: a replay may already have sent it, so a
  // client can hold its number. Registering now puts it into the channel once more.

  lemma BroadcastAfterRegister(c: Config, s: State)
    requires Inv(c, s) && s.phase == Idle && s.inHand.Some? && s.walErrors == 0 && c.buffer > 0
    ensures var s2, ev := BroadcastStep(c, RegisterStep(s)), s.inHand.value;
      && s2.phase == Registered && s2.queue == [ev] && s2.walErrors == 0 && s2.drops == 0 && s2.inHand.None?
      && !s2.gap && s2.sent == [] && s2.lastSent == 0 && s2.wal == s.wal && WalOk(s2)
      && Run(c, s, [Register, Broadcast]) == s2
  {
    hide WalOk, ChainOk, OrderOk, StartOk, ReplayOk, TailOk, WriterOk, QueueOk, LiveOk, IdleOk, Run;
    WalFrame(s, BroadcastStep(c, RegisterStep(s)));
    RunTwo(c, s, Register, Broadcast);
  }

  lemma RunTwo(c: Config, s: State, a: Action, b: Action)
    ensures Run(c, s, [a, b]) == Step(c, Step(c, s, a), b)
  {
    RunSnoc(c, s, [a], b);
    RunSnoc(c, s, [], a);
    assert [a] + [b] == [a, b] && [] + [a] == [a];
  }

  lemma PendingCursorRepeats(c: Config, s: State, n: nat) returns (more: seq<Action>)
    requires Inv(c, s) && c.req.cursor == Some(n) && c.buffer > 0
    requires s.phase == Idle && s.inHand.Some? && s.walErrors == 0 && s.lastBroadcast < n
    requires Selected(c.req, s.inHand.value.env)
    ensures Repeats(c, s, more, n)
  {
    hide Run, Inv, Skips, RegisterStep, BroadcastStep, WalOk;
    LastBroadcastIs(c, s);
    BroadcastAfterRegister(c, s);
    var s2 := BroadcastStep(c, RegisterStep(s));
    var first, rest := [Register, Broadcast], [Snapshot] + Skips(|s2.wal.segments|) + [EndReplay] + [Receive];
    RunConcat(c, s, first, rest);
    TailAfterSkips(c, s2, n, s.inHand.value);
    more := first[1..] + rest;
    assert [Register] + more == first + rest;
    var s' := Run(c, s, [Register] + more);
    assert CursorNum(s'.sent[0]) == s2.wal.lastNum;
  }

  /** In the tail, an envelope emitted and broadcast is received and sent. */
  lemma EmitInTail(c: Config, s: State, env: Envelope)
    requires s.phase == Tailing && s.queue == [] && s.inHand.None? && s.wal.segments != [] && s.wal.writable
    requires c.buffer > 0 && s.lastSent <= s.wal.lastNum && Selected(c.req, env)
    ensures var s' := Run(c, s, [Emit("", env, 0, NoFault), Broadcast, Receive]);
      && s'.sent == s.sent + [StampCursor(c.req, env, s.wal.lastNum + 1)]
      && s'.walErrors == s.walErrors && s'.drops == s.drops && s'.gap == s.gap
  {
    hide Append, Run;
    RunThree(c, s, Emit("", env, 0, NoFault), Broadcast, Receive);
    AppendSucceeds(s.wal, c.opts, "", env, 0, s.now);
  }

  /** Without a cursor the subscriber is at the live tail at once: it replays nothing, and the next
      selected envelope reaches it. */
  lemma NoCursorTails(c: Config, s: State, env: Envelope)
    requires s.phase == Registered && c.req.cursor.None? && s.queue == [] && s.inHand.None?
    requires s.wal.segments != [] && s.wal.writable && c.buffer > 0 && s.lastSent <= s.wal.lastNum && Selected(c.req, env)
    ensures Run(c, s, [Snapshot]).phase == Tailing && Run(c, s, [Snapshot]).sent == s.sent
    ensures Run(c, s, [Snapshot] + [Emit("", env, 0, NoFault), Broadcast, Receive]).sent
         == s.sent + [StampCursor(c.req, env, s.wal.lastNum + 1)]
  {
    hide Run, Selected;
    RunNone(c, s);
    assert [] + [Snapshot] == [Snapshot];
    RunSnoc(c, s, [], Snapshot);
    EmitInTail(c, Run(c, s, [Snapshot]), env);
    RunConcat(c, s, [Snapshot], [Emit("", env, 0, NoFault), Broadcast, Receive]);
  }

  /** Two numbers past the last broadcast, the one after the envelope in hand is also below the cursor. */
  lemma FarCursorRepeats(c: Config, s: State, n: nat, env: Envelope) returns (more: seq<Action>)
    requires Inv(c, s) && s.wal.writable && c.req.cursor == Some(n) && c.buffer > 0 && Selected(c.req, env)
    requires s.phase == Idle && s.inHand.Some? && s.walErrors == 0 && s.lastBroadcast + 1 < n
    requires !Selected(c.req, s.inHand.value.env)
    ensures Repeats(c, s, more, n)
  {
    hide Run, Inv, Skips, RegisterStep, BroadcastStep, WalOk;
    LastBroadcastIs(c, s);
    BroadcastAfterRegister(c, s);
    var s2 := BroadcastStep(c, RegisterStep(s));
    var first, enter := [Register, Broadcast], [Snapshot] + Skips(|s2.wal.segments|) + [EndReplay];
    var rest := [Emit("", env, 0, NoFault), Broadcast, Receive];
    EnterTail(c, s2, n);
    RunConcat(c, s, first, enter);
    RunSnoc(c, s, first + enter, Receive);
    var s4 := Run(c, s, first + enter + [Receive]);
    RunConcat(c, s, first + enter + [Receive], rest);
    SomeSegments(s2);
    EmitInTail(c, s4, env);
    more := [Broadcast] + enter + [Receive] + rest;
    assert [Register] + more == first + enter + [Receive] + rest;
    var s' := Run(c, s, [Register] + more);
    assert CursorNum(s'.sent[0]) == s.wal.lastNum + 1;
  }

  lemma SomeSegments(s: State)
    requires WalOk(s)
    ensures s.wal.segments != []
  {
  }

  // The one cursor past the last broadcast that is safe: the number in hand, when it is filtered out.

  /** After registering, nothing at or below n has been sent, and n itself is filtered out. */
  ghost predicate Unseen(c: Config, s: State, n: nat) {
    && s.phase != Idle && s.baseline + 1 == n && n <= s.wal.lastNum
    && (forall e | e in s.log && e.num == n :: !Selected(c.req, e.env))
    && (Clean(s) ==> forall i | 0 <= i < |s.sent| :: CursorNum(s.sent[i]) > n)
  }

  lemma UnseenReceive(c: Config, s: State, n: nat)
    requires Inv(c, s) && Unseen(c, s, n)
    ensures Unseen(c, ReceiveStep(c, s), n)
  {
    hide WalOk, ChainOk, OrderOk, StartOk, ReplayOk, TailOk, WriterOk, LiveOk, IdleOk, Window, ToLive;
    if s.phase == Tailing && s.queue != [] && Clean(s) {
      LogOf(s);
      hide LogBelow;
      var e := HeadOfQueue(s);
    }
  }

  lemma UnseenStep(c: Config, s: State, a: Action, n: nat)
    requires Inv(c, s) && Unseen(c, s, n) && c.req.cursor == Some(n)
    ensures Unseen(c, Step(c, s, a), n)
  {
    hide WalOk, ChainOk, OrderOk, StartOk, ReplayOk, TailOk, WriterOk, QueueOk, LiveOk, IdleOk, Append, Collect, ContentOf, Selected;
    LogStep(c, s, a);
    if a.Receive? { UnseenReceive(c, s, n); }
  }

  lemma {:induction false} UnseenRun(c: Config, s: State, acts: seq<Action>, n: nat)
    requires Inv(c, s) && Unseen(c, s, n) && c.req.cursor == Some(n)
    ensures Unseen(c, Run(c, s, acts), n)
  {
    hide Inv, Unseen, Step;
    if acts != [] {
      UnseenRun(c, s, acts[..|acts| - 1], n);
      LogRun(c, s, acts[..|acts| - 1]);
      UnseenStep(c, Run(c, s, acts[..|acts| - 1]), acts[|acts| - 1], n);
    }
  }

  lemma FilteredPendingNeverRepeats(c: Config, s: State, more: seq<Action>, n: nat)
    requires Inv(c, s) && s.phase == Idle && s.inHand.Some? && s.walErrors == 0
    requires c.req.cursor == Some(n) && n == s.lastBroadcast + 1 && !Selected(c.req, s.inHand.value.env)
    ensures !Repeats(c, s, more, n)
  {
    hide Run, Selected, WalOk, ChainOk, OrderOk, StartOk, ReplayOk, TailOk, QueueOk, LiveOk, IdleOk;
    var s1 := RegisterStep(s);
    LogOf(s);
    PendingIsLast(s);
    RegisterKeeps(c, s);
    RunConcat(c, s, [Register], more);
    assert [] + [Register] == [Register];
    RunSnoc(c, s, [], Register);
    RunNone(c, s);
    assert Unseen(c, s1, n);
    UnseenRun(c, s1, more, n);
  }

  lemma PendingIsLast(s: State)
    requires WriterOk(s) && Increasing(s.log) && s.walErrors == 0 && s.inHand.Some?
    ensures forall e | e in s.log && e.num == s.inHand.value.num :: e.env == s.inHand.value.env
  {
    var last := s.log[|s.log| - 1];
    assert ToLive([last])[0] == s.inHand.value;
  }

  /** The cursor is past the last broadcast, and not merely the number of an envelope about to be
      broadcast that this subscriber filters out. */
  predicate CanRepeat(c: Config, s: State, n: nat) {
    && s.walErrors == 0 && s.lastBroadcast < n
    && (s.inHand.Some? && n == s.lastBroadcast + 1 ==> Selected(c.req, s.inHand.value.env))
  }

  lemma AheadRepeats(c: Config, s: State, n: nat, env: Envelope)
    requires Inv(c, s) && s.wal.writable && s.phase == Idle
    requires c.req.cursor == Some(n) && c.buffer > 0 && Selected(c.req, env) && CanRepeat(c, s, n)
    ensures exists more :: Repeats(c, s, more, n)
  {
    hide Inv, Repeats, Selected;
    if s.inHand.None? {
      var more := AheadCursorRepeats(c, s, n, env);
    } else if Selected(c.req, s.inHand.value.env) {
      var more := PendingCursorRepeats(c, s, n);
    } else {
      var more := FarCursorRepeats(c, s, n, env);
    }
  }

  lemma FailedNeverRepeats(c: Config, s: State, more: seq<Action>, n: nat)
    requires Inv(c, s) && s.walErrors > 0
    ensures !Repeats(c, s, more, n)
  {
    hide Inv, Run;
    LogRun(c, s, [Register] + more);
  }

  /** In any state a subscriber can register in, it can be sent something at or below its own cursor,
      with no append failed, nothing dropped and no segment gone, exactly when that cursor is past the
      last number broadcast, and not merely the number of a filtered-out envelope appended and not yet
      broadcast. (`env` is any envelope the subscriber's filter lets through.) */
  lemma RepeatsIffCursorAhead(c: Config, s0: State, acts: seq<Action>, n: nat, env: Envelope)
    requires Init(s0) && Run(c, s0, acts).phase == Idle
    requires c.req.cursor == Some(n) && c.buffer > 0 && Selected(c.req, env)
    ensures (exists more :: Repeats(c, Run(c, s0, acts), more, n)) <==> CanRepeat(c, Run(c, s0, acts), n)
  {
    hide Run, Init, Repeats, Inv, Selected;
    var s := Run(c, s0, acts);
    RunKeeps(c, s0, acts);
    CleanIsWritable(c, s0, acts);
    if CanRepeat(c, s, n) {
      AheadRepeats(c, s, n, env);
    } else {
      forall more ensures !Repeats(c, s, more, n) {
        if s.walErrors > 0 {
          FailedNeverRepeats(c, s, more, n);
        } else if n <= s.lastBroadcast {
          KnownCursorNeverRepeats(c, s0, acts, more, n);
        } else {
          FilteredPendingNeverRepeats(c, s, more, n);
        }
      }
    }
  }
}
