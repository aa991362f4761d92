// Resuming from cursor 0, which asks for whatever the log still holds. Segments collected between
// registration and snapshot are not replayed, and their entries, though they wait in the channel,
// are taken for already sent once the replay has sent anything.
module ResumeZero {
  import opened Prelude
  import opened Envelopes
  import opened WalLog
  import opened WalSpec
  import opened WalRead
  import opened WalRun
  import opened Resume
  import opened ResumeInv
  import opened ResumeSteps
  import opened ResumeReplay
  import opened ResumeRuns

  /** The selected entries written past a point. */
  function Since(c: Config, s: State, lo: int): seq<Envelope> {
    Deliver(c.req, Window(s.log, lo + 1, s.wal.lastNum))
  }

  // ----- deliveries -----

  lemma {:induction false} NothingSelected(req: Request, es: seq<Entry>)
    ensures Deliver(req, es) == [] <==> forall e | e in es :: !Selected(req, e.env)
    ensures Deliver(req, es) == [] ==> LastSelected(req, es) == 0
  {
    hide Selected, StampCursor;
    if es != [] {
      var n := |es| - 1;
      NothingSelected(req, es[..n]);
      assert es == es[..n] + [es[n]];
    }
  }

  /** Once anything was sent, the last number sent is past the start. */
  lemma SentPastStart(c: Config, s: State)
    requires Increasing(s.log) && Delivered(c, s) && s.sent != []
    ensures s.lastSent > s.start
  {
    var es := Window(s.log, s.start + 1, s.covered);
    WindowMembers(s.log, s.start + 1, s.covered);
    hide Window, Deliver, LastSelected, Increasing;
    NothingSelected(c.req, es);
    var e :| e in es && Selected(c.req, e.env);
    LastSelectedBounds(c.req, es, e);
  }

  // ----- the tail -----

  /** What the tail has sent so far: from the start when the replay sent something or nothing past the
      registration was missing; else, with the replay empty, whatever came out of the channel. */
  ghost predicate Kept(c: Config, s: State, replayed: bool) {
    s.phase == Tailing && Clean(s) ==>
      if replayed || s.start <= s.baseline then
        Delivered(c, s) && Clear(s.log, s.covered, s.taken + 1) && (s.start <= s.baseline || s.start < s.lastSent)
      else
        Delivered(c, FromChannel(s))
  }

  function FromChannel(s: State): State {
    s.(start := s.baseline, covered := s.taken)
  }

  lemma KeptAtEntry(c: Config, s: State)
    requires Inv(c, s) && s.phase == Replaying([]) && !s.gap
    ensures Kept(c, EndReplayStep(s), s.sent != [])
  {
    hide WalOk, ChainOk, OrderOk, StartOk, TailOk, WriterOk, LiveOk, IdleOk, Window, Deliver, LastSelected, ToLive;
    var s' := EndReplayStep(s);
    if Clean(s) {
      LogOf(s);
      hide LogBelow, Increasing;
      if s.sent != [] {
        SentPastStart(c, s);
      } else if s.start > s.baseline {
        NothingSelected(c.req, Window(s.log, s.start + 1, s.covered));
        WindowEmptyAt(s.log, s.baseline + 1);
        EmptyDelivers(c.req);
      }
    }
  }

  lemma EmptyDelivers(req: Request)
    ensures Deliver(req, []) == [] && LastSelected(req, []) == 0
  {
  }

  /** Receiving when the start is covered: older envelopes are skipped, newer ones continue it. */
  lemma ReceiveContinues(c: Config, s: State)
    requires Increasing(s.log) && Clean(s) && QueueOk(s) && WriterOk(s) && s.phase == Tailing && s.queue != []
    requires Delivered(c, s) && Clear(s.log, s.covered, s.taken + 1) && (s.start <= s.baseline || s.start < s.lastSent)
    ensures Kept(c, ReceiveStep(c, s), true)
  {
    hide Window, ToLive, Increasing, Deliver, LastSelected;
    var e := HeadOfQueue(s);
    AlreadySent(c, s, e);
    if s.covered < e.num {
      assert Clear(s.log, s.covered, e.num);
      DeliverNext(c, s, e);
    }
  }

  /** Receiving when the replay was empty: everything in the channel is new. */
  lemma ReceiveFromChannel(c: Config, s: State)
    requires Increasing(s.log) && Clean(s) && QueueOk(s) && WriterOk(s) && s.phase == Tailing && s.queue != []
    requires s.start > s.baseline && Delivered(c, FromChannel(s))
    ensures Kept(c, ReceiveStep(c, s), false)
  {
    hide Window, ToLive, Increasing, Deliver, LastSelected;
    var e := HeadOfQueue(s);
    AlreadySent(c, FromChannel(s), e);
    DeliverNext(c, FromChannel(s), e);
  }

  lemma KeptReceive(c: Config, s: State, replayed: bool)
    requires Inv(c, s) && Kept(c, s, replayed)
    ensures Kept(c, ReceiveStep(c, s), replayed)
  {
    hide WalOk, ChainOk, OrderOk, StartOk, ReplayOk, TailOk, WriterOk, QueueOk, LiveOk, IdleOk, Delivered, Clear;
    if s.phase == Tailing && s.queue != [] && Clean(s) {
      LogOf(s);
      if replayed || s.start <= s.baseline {
        ReceiveContinues(c, s);
      } else {
        ReceiveFromChannel(c, s);
      }
    }
  }

  lemma KeptEmit(c: Config, s: State, a: Action, replayed: bool)
    requires Inv(c, s) && Kept(c, s, replayed) && a.Emit? && s.phase == Tailing
    ensures Kept(c, Step(c, s, a), replayed)
  {
    hide WalOk, ChainOk, OrderOk, StartOk, ReplayOk, TailOk, LiveOk, IdleOk, Append, Delivered, Clear, LogBelow, Window, ToLive;
    if s.inHand.None? {
      EmitGrows(c, s, a.agent, a.env, a.size, a.fault);
      var s', more := EmitStep(c, s, a.agent, a.env, a.size, a.fault), Append(s.wal, c.opts, a.agent, a.env, a.size, s.now, a.fault).stored;
      if Clean(s') {
        if replayed || s.start <= s.baseline {
          DeliveredGrows(c, s, s', more);
          ClearGrows(s.log, more, s.wal.lastNum, s.covered, s.taken + 1);
        } else {
          DeliveredGrows(c, FromChannel(s), FromChannel(s'), more);
        }
      }
    }
  }

  lemma KeptStep(c: Config, s: State, a: Action, replayed: bool)
    requires Inv(c, s) && Kept(c, s, replayed) && (s.phase == Tailing || s.phase == Gone)
    ensures var s' := Step(c, s, a); Kept(c, s', replayed) && (s'.phase == Tailing || s'.phase == Gone)
  {
    hide WalOk, ChainOk, OrderOk, StartOk, ReplayOk, TailOk, WriterOk, QueueOk, LiveOk, IdleOk, Append, Clear, Window, Deliver, LastSelected;
    match a {
      case Emit(_, _, _, _) => if s.phase == Tailing { KeptEmit(c, s, a, replayed); }
      case Receive => KeptReceive(c, s, replayed);
      case RunGC => CollectCounter(s.wal, c.opts, s.now);
      case _ =>
    }
  }

  lemma {:induction false} KeptRun(c: Config, s: State, acts: seq<Action>, replayed: bool)
    requires Inv(c, s) && Kept(c, s, replayed) && (s.phase == Tailing || s.phase == Gone)
    ensures var s' := Run(c, s, acts); Kept(c, s', replayed) && (s'.phase == Tailing || s'.phase == Gone)
  {
    hide Inv, Kept, Step;
    if acts != [] {
      KeptRun(c, s, acts[..|acts| - 1], replayed);
      LogRun(c, s, acts[..|acts| - 1]);
      KeptStep(c, Run(c, s, acts[..|acts| - 1]), acts[|acts| - 1], replayed);
    }
  }

  // ----- what is sent -----

  lemma Drained(c: Config, s: State)
    requires LogBelow(s.log, s.wal.lastNum) && Clean(s) && WriterOk(s) && QueueOk(s) && s.phase == Tailing
    requires s.queue == [] && s.inHand.None? && Delivered(c, s) && Clear(s.log, s.covered, s.taken + 1)
    ensures s.sent == Since(c, s, s.start)
  {
    hide Deliver, LastSelected;
    WindowMembers(s.log, s.taken + 1, s.lastBroadcast);
    assert Window(s.log, s.taken + 1, s.lastBroadcast) == [];
    WindowSame(s.log, s.start + 1, s.covered, s.start + 1, s.wal.lastNum);
  }

  /** Where deliveries of a tail begin. */
  function Begin(s: State, replayed: bool): int {
    if replayed || s.start <= s.baseline then s.start else s.baseline
  }

  lemma TailSends(c: Config, s: State, replayed: bool)
    requires Inv(c, s) && Kept(c, s, replayed) && s.phase == Tailing && Clean(s)
    ensures s.sent <= Since(c, s, Begin(s, replayed))
    ensures s.queue == [] && s.inHand.None? ==> s.sent == Since(c, s, Begin(s, replayed))
  {
    hide WalOk, ChainOk, OrderOk, StartOk, ReplayOk, TailOk, WriterOk, LiveOk, IdleOk, Window, Deliver, LastSelected, ToLive, Delivered;
    LogOf(s);
    hide LogBelow, Increasing;
    var s' := if replayed || s.start <= s.baseline then s else FromChannel(s);
    WriterFrame(s, s');
    DeliveredPrefix(c, s');
    if s.queue == [] && s.inHand.None? { Drained(c, s'); }
  }

  /** From cursor 0, when the replay ends without a segment gone and afterwards no append fails and
      nothing is dropped: the subscriber is sent a prefix of everything selected from the oldest entry
      held at the snapshot on, or, if the replay sent nothing and entries past the registration had
      been collected, from the registration on; all of it once the channel is drained. */
  lemma ZeroCursorSends(c: Config, s0: State, acts: seq<Action>, more: seq<Action>)
    requires Init(s0) && c.req.cursor == Some(0)
    requires Run(c, s0, acts).phase == Replaying([]) && !Run(c, s0, acts).gap
    ensures var s1 := Run(c, s0, acts); var s := Run(c, s1, [EndReplay] + more); var lo := Begin(s1, s1.sent != []);
      s.phase == Tailing && Clean(s) ==>
        && s.sent <= Since(c, s, lo)
        && (s.queue == [] && s.inHand.None? ==> s.sent == Since(c, s, lo))
  {
    hide Run, Init, Since, Inv;
    var s1 := Run(c, s0, acts);
    RunKeeps(c, s0, acts);
    TailAfter(c, s1, more);
    var s := Run(c, s1, [EndReplay] + more);
    if s.phase == Tailing && Clean(s) {
      TailSends(c, s, s1.sent != []);
    }
  }

  /** The tail entered from a finished replay. */
  lemma TailAfter(c: Config, s1: State, more: seq<Action>)
    requires Inv(c, s1) && s1.phase == Replaying([]) && !s1.gap
    ensures var s := Run(c, s1, [EndReplay] + more);
      Inv(c, s) && Kept(c, s, s1.sent != []) && s.start == s1.start && s.baseline == s1.baseline
  {
    hide Run, Inv, Kept;
    var s2 := EndReplayStep(s1);
    RunConcat(c, s1, [EndReplay], more);
    assert [] + [EndReplay] == [EndReplay];
    RunSnoc(c, s1, [], EndReplay);
    RunNone(c, s1);
    EndReplayKeeps(c, s1);
    KeptAtEntry(c, s1);
    KeptRun(c, s2, more, s1.sent != []);
    LogRun(c, s2, more);
    StartFixed(c, s2, more);
    BaselineFixed(c, s2, more);
  }

  // ----- what is lost -----

  /** Every selected envelope numbered past the point has been sent. */
  ghost predicate AllSince(c: Config, s: State, lo: int) {
    forall e | e in s.log && lo < e.num && Selected(c.req, e.env) :: StampCursor(c.req, e.env, e.num) in s.sent
  }

  lemma SentSince(c: Config, s: State, lo: int)
    requires LogBelow(s.log, s.wal.lastNum) && s.sent == Since(c, s, lo)
    ensures AllSince(c, s, lo)
    ensures forall env | env in s.sent :: CursorNum(env) > lo
  {
    hide Selected, Deliver, Window;
    var es := Window(s.log, lo + 1, s.wal.lastNum);
    WindowMembers(s.log, lo + 1, s.wal.lastNum);
    forall env ensures env in s.sent <==> exists e :: e in es && Selected(c.req, e.env) && env == StampCursor(c.req, e.env, e.num) {
      DeliverMembers(c.req, es, env);
    }
  }

  /** A drained tail has sent everything since the registration exactly when the replay sent nothing or
      nothing selected lies between the registration and the start. */
  lemma DrainedLosesIff(c: Config, s1: State, more: seq<Action>)
    requires Inv(c, s1) && s1.phase == Replaying([]) && !s1.gap && s1.start <= s1.wal.lastNum
    requires var s := Run(c, s1, [EndReplay] + more); s.phase == Tailing && Clean(s) && s.queue == [] && s.inHand.None?
    ensures AllSince(c, Run(c, s1, [EndReplay] + more), s1.baseline) <==>
      s1.sent == [] || forall e | e in s1.log && s1.baseline < e.num <= s1.start :: !Selected(c.req, e.env)
  {
    hide Run, Inv, Since, Kept, Selected, WalOk;
    var s, lo := Run(c, s1, [EndReplay] + more), Begin(s1, s1.sent != []);
    TailAfter(c, s1, more);
    TailSends(c, s, s1.sent != []);
    LogRun(c, s1, [EndReplay] + more);
    LogOfInv(c, s);
    SentSince(c, s, lo);
    if lo > s1.baseline {
      forall e | e in s.log && s1.baseline < e.num <= s1.start && Selected(c.req, e.env)
        ensures e in s1.log && StampCursor(c.req, e.env, e.num) !in s.sent
      {
      }
    }
  }

  lemma LogOfInv(c: Config, s: State)
    requires Inv(c, s)
    ensures LogBelow(s.log, s.wal.lastNum)
  {
    hide ChainOk, OrderOk, StartOk, ReplayOk, TailOk, WriterOk, QueueOk, LiveOk, IdleOk;
    LogOf(s);
  }

  /** Written since, and no longer held: the entry was collected. */
  ghost predicate Collected(s: State, e: Entry) {
    e in s.log && e !in Contents(s.wal.segments, s.wal.dir)
  }

  /** From cursor 0 the start separates the entries collected by the snapshot from those held. */
  lemma StartIsOldestHeld(c: Config, s: State)
    requires Inv(c, s) && s.phase == Registered && c.req.cursor == Some(0)
    ensures var s' := SnapshotStep(c, s);
      && s'.phase.Replaying? && s'.start <= s.wal.lastNum && s'.log == s.log
      && forall e | e in s.log :: Collected(s, e) <==> e.num <= s'.start
  {
    hide ChainOk, OrderOk, StartOk, ReplayOk, TailOk, WriterOk, QueueOk, LiveOk, IdleOk, Backed, FilesFromLog, Contents;
    RetainedIsSuffixOfLog(s.wal, s.log);
    WindowMembers(s.log, s.wal.segments[0].start, s.wal.lastNum);
    FirstPath(s.wal, s.log);
  }

  lemma FirstPath(w: Wal, log: seq<Entry>)
    requires Layout(w, log)
    ensures w.segments[0].path <= w.lastNum + 1 && Clear(log, w.segments[0].path - 1, w.segments[0].start)
  {
    var n := |w.segments| - 1;
    assert w.segments[n] == Active(w);
    if n > 0 { assert w.segments[0].end < w.segments[n].path; }
  }

  /** A subscriber registers, takes its snapshot with cursor 0, replays without a segment gone and
      tails until drained, with no append failed and nothing dropped. It has then been sent every
      selected envelope since its registration exactly when its replay sent nothing, or nothing
      selected past its registration had been collected by the snapshot. */
  lemma ZeroCursorLosesIff(c: Config, s0: State, acts: seq<Action>, replay: seq<Action>, more: seq<Action>)
    requires Init(s0) && c.req.cursor == Some(0) && Run(c, s0, acts).phase == Registered
    requires var s1 := Run(c, Run(c, s0, acts), [Snapshot] + replay); s1.phase == Replaying([]) && !s1.gap
    requires var s := Run(c, Run(c, Run(c, s0, acts), [Snapshot] + replay), [EndReplay] + more);
      s.phase == Tailing && Clean(s) && s.queue == [] && s.inHand.None?
    ensures var r := Run(c, s0, acts);
      var s1 := Run(c, r, [Snapshot] + replay);
      AllSince(c, Run(c, s1, [EndReplay] + more), r.baseline) <==>
        s1.sent == [] || forall e | Collected(r, e) && r.baseline < e.num :: !Selected(c.req, e.env)
  {
    hide Run, Init, Inv, Selected, AllSince, Collected, LaterLog;
    var r := Run(c, s0, acts);
    RunKeeps(c, s0, acts);
    SnapshotThenReplay(c, r, replay);
    var s1 := Run(c, r, [Snapshot] + replay);
    DrainedLosesIff(c, s1, more);
    StartIsOldestHeld(c, r);
    OldEntries(r.log, r.wal.lastNum, s1.log, s1.start);
    assert forall e :: Collected(r, e) ==> e in r.log by { CollectedIsLogged(r); }
  }

  lemma CollectedIsLogged(s: State)
    ensures forall e :: Collected(s, e) ==> e in s.log
  {
  }

  lemma OldEntries(log: seq<Entry>, lastNum: nat, later: seq<Entry>, hi: int)
    requires LaterLog(log, lastNum, later) && hi <= lastNum
    ensures forall e: Entry | e.num <= hi :: e in log <==> e in later
  {
  }

  lemma SnapshotThenReplay(c: Config, r: State, replay: seq<Action>)
    requires Inv(c, r) && r.phase == Registered && c.req.cursor == Some(0)
    ensures var s1 := Run(c, r, [Snapshot] + replay);
      && Inv(c, s1) && s1.start == SnapshotStep(c, r).start <= s1.wal.lastNum && s1.baseline == r.baseline
      && LaterLog(r.log, r.wal.lastNum, s1.log)
  {
    hide Run, Inv, LaterLog;
    var s' := SnapshotStep(c, r);
    StartIsOldestHeld(c, r);
    RunConcat(c, r, [Snapshot], replay);
    assert [] + [Snapshot] == [Snapshot];
    RunSnoc(c, r, [], Snapshot);
    RunNone(c, r);
    LogRun(c, r, [Snapshot] + replay);
    StartFixed(c, s', replay);
    BaselineFixed(c, r, [Snapshot] + replay);
  }

  // ----- a run that loses -----

  const AnEnvelope := Envelope(None, NoPayload)
  const SmallLog := Config(Options(0, 1, 1), Request(Some(0), "", None, ""), 2)

  function Item(num: nat): Entry {
    Entry(num, "", AnEnvelope, 0)
  }

  function Queued(num: nat): Live {
    Live(num, "", AnEnvelope)
  }

  /** A fresh log with nothing written. */
  const Fresh := State(
    Wal(0, [Segment(1, 1, 0, 0, 0)], true, Dir(map[1 := []], {1}), 0), 0, 0, 0, None,
    Idle, [], 0, false, 0, [],
    [], 0, 0, 0, 0, 0, 0)

  lemma FreshIsInit()
    ensures Init(Fresh)
  {
    WindowEmptyAt([], 1);
    assert Paths(Fresh.wal.segments) == {1} by { assert Fresh.wal.segments[0].path == 1; }
  }

  /** Registered with both envelopes in the channel, the first one's segment already collected. */
  const Raced := State(
    Wal(2, [Segment(2, 2, 2, 1, 0), Segment(3, 3, 2, 0, 0)], true, Dir(map[1 := [Item(1)], 2 := [Item(2)], 3 := []], {2, 3}), 1),
    0, 2, 0, None,
    Registered, [Queued(1), Queued(2)], 0, false, 0, [],
    [Item(1), Item(2)], 2, 0, 0, 0, 0, 0)

  const Race := [Register, Emit("", AnEnvelope, 1, NoFault), Broadcast, RunGC, Emit("", AnEnvelope, 1, NoFault), Broadcast]

  /** An append that fills the active segment opens the next one. */
  lemma AppendRotates(w: Wal, front: seq<Segment>, p: nat)
    requires p > 0 && w.lastNum == p - 1 && w.segments == front + [Segment(p, p, p - 1, 0, 0)] && w.writable
    requires p in w.dir.inodes && w.dir.inodes[p] == [] && p + 1 !in w.dir.linked
    ensures Append(w, SmallLog.opts, "", AnEnvelope, 1, 0, NoFault) == Appended(
      Wal(p, front + [Segment(p, p, p, 1, 0), Segment(p + 1, p + 1, p, 0, 0)], true,
          Dir(w.dir.inodes[p := [Item(p)]][p + 1 := []], w.dir.linked + {p + 1}), w.trims),
      [Item(p)], Ok(p))
  {
    var w1, n, full := w.(lastNum := p), |front|, Segment(p, p, p, 1, 0);
    assert Active(w1) == Segment(p, p, p - 1, 0, 0);
    assert w1.segments[n := full] == front + [full];
    assert [] + [Item(p)] == [Item(p)];
    var w2 := Write(w1, Item(p), 1);
    assert w2 == w1.(segments := front + [full], dir := w.dir.(inodes := w.dir.inodes[p := [Item(p)]]));
    assert Active(w2) == full;
    assert front + [full] + [Segment(p + 1, p + 1, p, 0, 0)] == front + [full, Segment(p + 1, p + 1, p, 0, 0)];
    assert Append(w, SmallLog.opts, "", AnEnvelope, 1, 0, NoFault)
        == Appended(OpenSegment(w2.(writable := false), 0), [Item(p)], Ok(p));
  }

  lemma CollectsFirst(w: Wal, a: Segment, b: Segment)
    requires w.segments == [a, b] && a.bytes == 1 && b.bytes == 0 && a.createdAt == b.createdAt == 0 && a.path != b.path
    ensures Collect(w, SmallLog.opts, 0) == w.(segments := [b], dir := w.dir.(linked := w.dir.linked - {a.path}), trims := w.trims + 1)
  {
    assert [a, b][1..] == [b] && [b][1..] == [];
    assert Young([b], 0, 1) == [b] && Young([a, b], 0, 1) == [a] + [b];
    assert TotalBytes([b]) == 0 && TotalBytes([a, b]) == 1;
    assert Fit([b], 0) == [b];
    assert Paths([a, b]) == {a.path, b.path} && Paths([b]) == {b.path} by {
      PathsCons([a, b]);
      PathsCons([b]);
    }
    assert w.dir.linked - (Paths([a, b]) - Paths([b])) == w.dir.linked - {a.path};
  }

  lemma FirstHalf()
    ensures var s := Run(SmallLog, Fresh, Race[..4]);
      && s.wal == Wal(1, [Segment(2, 2, 1, 0, 0)], true, Dir(map[1 := [Item(1)], 2 := []], {2}), 1)
      && s == Fresh.(wal := s.wal, liveNum := 1, phase := Registered, queue := [Queued(1)], log := [Item(1)], lastBroadcast := 1)
  {
    hide Append, Collect, Run;
    var c, e := SmallLog, Emit("", AnEnvelope, 1, NoFault);
    assert Race[..4] == [Register, e, Broadcast] + [RunGC];
    RunSnoc(c, Fresh, [Register, e, Broadcast], RunGC);
    RunThree(c, Fresh, Register, e, Broadcast);
    AppendRotates(Fresh.wal, [], 1);
    var w := Append(Fresh.wal, c.opts, "", AnEnvelope, 1, 0, NoFault).wal;
    assert w.segments == [Segment(1, 1, 1, 1, 0), Segment(2, 2, 1, 0, 0)];
    CollectsFirst(w, Segment(1, 1, 1, 1, 0), Segment(2, 2, 1, 0, 0));
    assert Collect(w, c.opts, 0).dir == Dir(map[1 := [Item(1)], 2 := []], {2});
  }

  lemma RaceRuns()
    ensures Run(SmallLog, Fresh, Race) == Raced
  {
    hide Append, Run;
    var c, e := SmallLog, Emit("", AnEnvelope, 1, NoFault);
    FirstHalf();
    var s := Run(c, Fresh, Race[..4]);
    assert Race == Race[..4] + [e] + [Broadcast];
    RunSnoc(c, Fresh, Race[..4], e);
    RunSnoc(c, Fresh, Race[..4] + [e], Broadcast);
    AppendRotates(s.wal, [], 2);
    var w := Append(s.wal, c.opts, "", AnEnvelope, 1, 0, NoFault).wal;
    assert w.segments == Raced.wal.segments && w.dir == Raced.wal.dir;
  }

  const Replay := [Snapshot, NextView, ReadEntry, CloseFile, NextView, CloseFile]

  /** The replay sends the second envelope only. */
  lemma ReplaySends()
    ensures Run(SmallLog, Raced, Replay) == Raced.(
      phase := Replaying([]), lastSent := 2, sent := [StampCursor(SmallLog.req, AnEnvelope, 2)], snapNum := 2, start := 1, covered := 2)
  {
    hide Run;
    var c := SmallLog;
    assert Replay == [Snapshot, NextView, ReadEntry] + [CloseFile, NextView, CloseFile];
    RunThree(c, Raced, Snapshot, NextView, ReadEntry);
    RunConcat(c, Raced, [Snapshot, NextView, ReadEntry], [CloseFile, NextView, CloseFile]);
    RunThree(c, Run(c, Raced, [Snapshot, NextView, ReadEntry]), CloseFile, NextView, CloseFile);
    var s1 := Step(c, Raced, Snapshot);
    assert s1.phase.views == [View(2, 2), View(3, 2)];
    assert s1.phase.views[1..] == [View(3, 2)] && [View(3, 2)][1..] == [];
  }

  /** The channel still holds the first envelope, and the live loop passes over it: a subscriber that
      asked for everything held never sees an envelope broadcast after it registered, with nothing
      failed, dropped or reported. */
  lemma SilentLoss()
    ensures Init(Fresh)
    ensures var s := Run(SmallLog, Fresh, Race + Replay + [EndReplay, Receive, Receive]);
      && s.phase == Tailing && Clean(s) && !s.gap && s.queue == [] && s.inHand.None? && s.baseline == 0
      && s.log == [Item(1), Item(2)] && Selected(SmallLog.req, AnEnvelope)
      && s.sent == [StampCursor(SmallLog.req, AnEnvelope, 2)]
  {
    hide Run, Init;
    var c := SmallLog;
    FreshIsInit();
    RaceRuns();
    ReplaySends();
    RunConcat(c, Fresh, Race, Replay);
    RunConcat(c, Fresh, Race + Replay, [EndReplay, Receive, Receive]);
    RunThree(c, Run(c, Raced, Replay), EndReplay, Receive, Receive);
  }
}
