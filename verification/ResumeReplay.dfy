// The subscriber's own actions keep the invariant of the resume protocol.
module ResumeReplay {
  import opened Envelopes
  import opened WalLog
  import opened WalSpec
  import opened WalRead
  import opened Resume
  import opened ResumeInv
  import opened ResumeSteps

  // ----- replay -----

  lemma ChainTail(dir: Dir, log: seq<Entry>, vs: seq<View>, snapNum: nat, active: nat)
    requires Chain(dir, log, vs, snapNum, active) && vs != []
    ensures Chain(dir, log, vs[1..], snapNum, active)
    ensures |vs| > 1 ==> vs[0].path <= vs[0].end == End(dir, vs[0]) < vs[1].path && Clear(log, vs[0].end, vs[1].path)
    ensures |vs| == 1 ==> Clear(log, vs[0].end, snapNum + 1)
    ensures vs[0].path in dir.inodes && 1 <= vs[0].path <= active && vs[0].end <= End(dir, vs[0])
  {
    var rest := vs[1..];
    assert forall i | 0 <= i < |rest| :: rest[i] == vs[i + 1];
    forall i, j | 0 <= i && j == i + 1 < |rest| ensures rest[i].end < rest[j].path && Clear(log, rest[i].end, rest[j].path) {
      assert vs[i + 1].end < vs[j + 1].path && Clear(log, vs[i + 1].end, vs[j + 1].path);
    }
  }

  /** Passing over a segment that ends at or before the cursor loses nothing. */
  lemma SkipClear(log: seq<Entry>, vs: seq<View>, dir: Dir, snapNum: nat, active: nat, n: nat, start: int, covered: int)
    requires Chain(dir, log, vs, snapNum, active) && vs != [] && vs[0].end <= n
    requires Clear(log, covered, vs[0].path) && start <= covered && start >= 0 && (n > 0 ==> start == n)
    ensures |vs| > 1 ==> Clear(log, covered, vs[1].path)
    ensures |vs| == 1 ==> Clear(log, covered, snapNum + 1)
  {
    ChainTail(dir, log, vs, snapNum, active);
  }

  lemma NextViewKeeps(c: Config, s: State)
    requires Inv(c, s)
    ensures Inv(c, NextViewStep(c, s))
  {
    hide WalOk, Chain, Window, Deliver, LastSelected, Clear, ContentOf, QueueOk, WriterOk, SentIncreasing, FileEnd, SentPrefix;
    if s.phase.Replaying? && s.phase.views != [] {
      var s', vs := NextViewStep(c, s), s.phase.views;
      WalFrame(s, s');
      WriterFrame(s, s');
      QueueReplay(s, s');
      ChainTail(s.wal.dir, s.log, vs, s.snapNum, Active(s.wal).path);
      assert s'.phase.InFile? ==> Ahead(s'.phase) == vs;
      if vs[0].end <= CursorOf(c.req) && !s.gap {
        SkipClear(s.log, vs, s.wal.dir, s.snapNum, Active(s.wal).path, CursorOf(c.req), s.start, s.covered);
      }
    }
  }

  lemma QueueReplay(s: State, s': State)
    requires QueueOk(s) && InReplay(s.phase) && InReplay(s'.phase)
    requires s'.queue == s.queue && s'.log == s.log && s'.taken == s.taken && s'.baseline == s.baseline
    requires s'.lastBroadcast == s.lastBroadcast && s'.snapNum == s.snapNum
    requires s'.walErrors == s.walErrors && s'.drops == s.drops
    ensures QueueOk(s')
  {
  }

  lemma SendIncreasing(c: Config, sent: seq<Envelope>, lastSent: nat, env: Envelope, num: nat)
    requires SentIncreasing(sent, lastSent) && lastSent < num
    ensures SentIncreasing(sent + [StampCursor(c.req, env, num)], num)
  {
    var sent' := sent + [StampCursor(c.req, env, num)];
    assert forall i | 0 <= i < |sent| :: sent'[i] == sent[i];
    assert CursorNum(sent'[|sent|]) == num;
  }

  /** The entry at the read position: numbered from the bound on, with nothing unread before it. */
  lemma EntryAtPos(s: State, e: Entry)
    requires WalOk(s) && s.wal.segments != [] && ChainOk(s) && s.phase.InFile?
    requires s.phase.pos < |ContentOf(s.wal.dir, s.phase.view.path)|
    requires e == ContentOf(s.wal.dir, s.phase.view.path)[s.phase.pos]
    ensures var b := Bound(s.wal.dir, s.phase, s.snapNum);
      e in s.log && 1 <= b <= e.num <= s.wal.lastNum && Clear(s.log, b - 1, e.num)
  {
    hide Tiled, Backed, Aged, Window, Increasing;
    var p := s.phase.view.path;
    var file := ContentOf(s.wal.dir, p);
    assert Ahead(s.phase)[0] == s.phase.view;
    assert file == Window(s.log, p, FileEnd(file, p));
    WindowAt(s.log, p, FileEnd(file, p), s.phase.pos);
  }

  lemma BoundAfterRead(dir: Dir, p: Phase, snapNum: nat, e: Entry)
    requires p.InFile? && p.pos < |ContentOf(dir, p.view.path)| && e == ContentOf(dir, p.view.path)[p.pos]
    ensures Bound(dir, p.(pos := p.pos + 1), snapNum) == e.num + 1
  {
  }

  lemma ClearJoin(log: seq<Entry>, a: int, b: int, hi: int)
    requires Clear(log, a, b) && Clear(log, b - 1, hi)
    ensures Clear(log, a, hi)
  {
  }

  lemma ClearTo(log: seq<Entry>, a: int, b: int)
    requires b <= a + 1
    ensures Clear(log, a, b)
  {
  }

  lemma ReadDelivers(c: Config, s: State, e: Entry)
    requires WalOk(s) && s.wal.segments != [] && ChainOk(s) && StartOk(c, s) && ReplayOk(c, s) && !s.gap && s.phase.InFile?
    requires s.phase.pos < |ContentOf(s.wal.dir, s.phase.view.path)|
    requires e == ContentOf(s.wal.dir, s.phase.view.path)[s.phase.pos]
    ensures var s' := ReadEntryStep(c, s);
      && Delivered(c, s') && Clear(s.log, s'.covered, e.num + 1)
      && (s'.covered <= e.num || s'.covered <= CursorOf(c.req))
  {
    hide Layout, Aged, Chain, Bound, Window, Deliver, LastSelected, Clear, ContentOf;
    EntryAtPos(s, e);
    LayoutLog(s.wal, s.log);
    LogOrdered(s.log, s.wal.lastNum);
    var b := Bound(s.wal.dir, s.phase, s.snapNum);
    if e.num <= CursorOf(c.req) {
      ClearTo(s.log, s.covered, e.num + 1);
    } else {
      ClearJoin(s.log, s.covered, b, e.num);
      DeliverNext(c, s, e);
      ClearTo(s.log, e.num, e.num + 1);
    }
  }

  lemma ReadEntryKeeps(c: Config, s: State)
    requires Inv(c, s)
    ensures Inv(c, ReadEntryStep(c, s))
  {
    hide WalOk, Chain, Window, Deliver, LastSelected, Clear, QueueOk, WriterOk, SentIncreasing, Bound, Delivered, ContentOf;
    if s.phase.InFile? && s.phase.pos < |ContentOf(s.wal.dir, s.phase.view.path)| {
      var s', e := ReadEntryStep(c, s), ContentOf(s.wal.dir, s.phase.view.path)[s.phase.pos];
      WalFrame(s, s');
      WriterFrame(s, s');
      QueueReplay(s, s');
      EntryAtPos(s, e);
      BoundAfterRead(s.wal.dir, s.phase, s.snapNum, e);
      assert Ahead(s'.phase) == Ahead(s.phase);
      if !s.gap { ReadDelivers(c, s, e); }
      if s.lastSent < e.num { SendIncreasing(c, s.sent, s.lastSent, e.env, e.num); }
    }
  }

  lemma CloseClear(s: State)
    requires WalOk(s) && s.wal.segments != [] && ChainOk(s) && s.phase.InFile?
    requires s.phase.pos == |ContentOf(s.wal.dir, s.phase.view.path)|
    requires Clear(s.log, s.covered, Bound(s.wal.dir, s.phase, s.snapNum))
    ensures Clear(s.log, s.covered, if s.phase.views == [] then s.snapNum + 1 else s.phase.views[0].path)
  {
    var vs := Ahead(s.phase);
    ChainTail(s.wal.dir, s.log, vs, s.snapNum, Active(s.wal).path);
    hide Layout, Aged, Chain;
    assert vs[0] == s.phase.view && vs[1..] == s.phase.views;
    assert Bound(s.wal.dir, s.phase, s.snapNum) == End(s.wal.dir, vs[0]) + 1;
  }

  lemma CloseFileKeeps(c: Config, s: State)
    requires Inv(c, s)
    ensures Inv(c, CloseFileStep(s))
  {
    hide WalOk, Chain, Window, Deliver, LastSelected, Clear, QueueOk, WriterOk, SentIncreasing, ContentOf, FileEnd;
    if s.phase.InFile? && s.phase.pos >= |ContentOf(s.wal.dir, s.phase.view.path)| {
      var s', vs := CloseFileStep(s), Ahead(s.phase);
      WalFrame(s, s');
      WriterFrame(s, s');
      QueueReplay(s, s');
      ChainTail(s.wal.dir, s.log, vs, s.snapNum, Active(s.wal).path);
      assert vs[1..] == s.phase.views && vs[0] == s.phase.view;
      if !s.gap { CloseClear(s); }
      EndBound(s);
    }
  }

  lemma EndBound(s: State)
    requires s.phase.InFile? && s.phase.pos == |ContentOf(s.wal.dir, s.phase.view.path)|
    ensures Bound(s.wal.dir, s.phase, s.snapNum) == End(s.wal.dir, s.phase.view) + 1
  {
  }

  lemma ReplayCovers(c: Config, s: State)
    requires Increasing(s.log) && Delivered(c, s) && Clear(s.log, s.covered, s.snapNum + 1)
    ensures Deliver(c.req, Window(s.log, s.start + 1, s.snapNum)) <= s.sent
  {
    if s.snapNum <= s.covered {
      WindowsPrefix(c.req, s.log, s.start + 1, s.snapNum, s.covered);
    } else {
      WindowSame(s.log, s.start + 1, s.snapNum, s.start + 1, s.covered);
    }
  }

  lemma EndReplayKeeps(c: Config, s: State)
    requires Inv(c, s)
    ensures Inv(c, EndReplayStep(s))
  {
    hide WalOk, Chain, Window, Deliver, LastSelected, WriterOk, SentIncreasing, ContentOf, FileEnd, ToLive;
    if s.phase == Replaying([]) {
      var s' := EndReplayStep(s);
      WalFrame(s, s');
      WriterFrame(s, s');
      LogOf(s);
      hide Increasing;
      if !s.gap { ReplayCovers(c, s); }
    }
  }

  lemma LogOf(s: State)
    requires WalOk(s)
    ensures LogBelow(s.log, s.wal.lastNum) && Increasing(s.log)
  {
  }

  // ----- the live tail -----

  /** The head of the channel is the next log entry after the last one taken. */
  lemma HeadOfQueue(s: State) returns (e: Entry)
    requires Increasing(s.log) && Clean(s) && QueueOk(s) && s.phase == Tailing && s.queue != []
    ensures e in s.log && s.queue[0] == Live(e.num, e.agent, e.env)
    ensures s.taken < e.num <= s.lastBroadcast && Clear(s.log, s.taken, e.num)
    ensures s.queue[1..] == ToLive(Window(s.log, e.num + 1, s.lastBroadcast))
  {
    hide Window, Increasing;
    var es := Window(s.log, s.taken + 1, s.lastBroadcast);
    e := es[0];
    WindowAt(s.log, s.taken + 1, s.lastBroadcast, 0);
    WindowRest(s.log, s.taken + 1, s.lastBroadcast);
    assert s.queue[1..] == ToLive(es[1..]);
  }

  lemma ReceiveQueue(c: Config, s: State)
    requires Increasing(s.log) && QueueOk(s) && s.phase == Tailing && s.queue != []
    ensures QueueOk(ReceiveStep(c, s))
  {
    if Clean(s) {
      var e := HeadOfQueue(s);
    }
  }

  /** An entry already covered that is selected was already sent. */
  lemma AlreadySent(c: Config, s: State, e: Entry)
    requires Increasing(s.log) && Delivered(c, s)
    ensures e in s.log && s.start < e.num <= s.covered && Selected(c.req, e.env) ==> e.num <= s.lastSent
    ensures s.lastSent <= if s.covered < 0 then 0 else s.covered
  {
    hide Deliver;
    var es := Window(s.log, s.start + 1, s.covered);
    WindowMembers(s.log, s.start + 1, s.covered);
    LastSelectedBounds(c.req, es, e);
    if es != [] { assert es[|es| - 1] in es; }
  }

  /** So the live loop, which skips what is at or below the last number sent, loses nothing and
      repeats nothing. */
  lemma ReceiveDelivers(c: Config, s: State)
    requires Increasing(s.log) && Clean(s) && QueueOk(s) && LiveOk(c, s) && WriterOk(s)
    requires s.phase == Tailing && s.queue != [] && s.start <= s.baseline
    ensures var s' := ReceiveStep(c, s); Delivered(c, s') && Clear(s.log, s'.covered, s'.taken + 1)
  {
    hide Window, ToLive, Increasing, Deliver, LastSelected;
    var e := HeadOfQueue(s);
    AlreadySent(c, s, e);
    if s.covered < e.num {
      assert Clear(s.log, s.covered, e.num);
      DeliverNext(c, s, e);
    }
  }

  lemma ReceiveKeeps(c: Config, s: State)
    requires Inv(c, s)
    ensures Inv(c, ReceiveStep(c, s))
  {
    hide WalOk, Chain, Window, Deliver, LastSelected, Clear, QueueOk, WriterOk, SentIncreasing, ContentOf, Delivered, ToLive;
    if s.phase == Tailing && s.queue != [] {
      var s', ev := ReceiveStep(c, s), s.queue[0];
      LogOf(s);
      hide Increasing, LogBelow;
      WalFrame(s, s');
      WriterFrame(s, s');
      ReceiveQueue(c, s);
      if Clean(s) && s.start <= s.baseline { ReceiveDelivers(c, s); }
      if s.lastSent < ev.num { SendIncreasing(c, s.sent, s.lastSent, ev.env, ev.num); }
    }
  }

  lemma DisconnectKeeps(c: Config, s: State)
    requires Inv(c, s)
    ensures Inv(c, if InSubs(s.phase) then s.(phase := Gone) else s)
  {
    hide WalOk, Chain, Window, Deliver, LastSelected, Clear, WriterOk, SentIncreasing, ContentOf, Delivered, ToLive, Bound, SentPrefix;
    if InSubs(s.phase) {
      var s' := s.(phase := Gone);
      LogOf(s);
      WalFrame(s, s');
      WriterFrame(s, s');
      if Delivered(c, s) { DeliveredPrefix(c, s); }
      PrefixFrame(c, s, s');
    }
  }

  lemma PrefixFrame(c: Config, s: State, s': State)
    requires s'.sent == s.sent && s'.log == s.log && s'.start == s.start && s'.wal == s.wal
    ensures SentPrefix(c, s) || s.sent == [] ==> SentPrefix(c, s')
  {
  }

  // ----- runs -----

  lemma StepKeeps(c: Config, s: State, a: Action)
    requires Inv(c, s)
    ensures Inv(c, Step(c, s, a))
  {
    hide Inv;
    match a
    case Emit(agent, env, size, fault) => EmitKeeps(c, s, agent, env, size, fault);
    case Broadcast => BroadcastKeeps(c, s);
    case Tick(d) => TickKeeps(c, s, d);
    case RunGC => GCKeeps(c, s);
    case Register => RegisterKeeps(c, s);
    case Snapshot => SnapshotKeeps(c, s);
    case NextView => NextViewKeeps(c, s);
    case ReadEntry => ReadEntryKeeps(c, s);
    case CloseFile => CloseFileKeeps(c, s);
    case EndReplay => EndReplayKeeps(c, s);
    case Receive => ReceiveKeeps(c, s);
    case Disconnect => DisconnectKeeps(c, s);
  }

  lemma InitHolds(c: Config, s: State)
    requires Init(s)
    ensures Inv(c, s)
  {
    hide Layout, Aged, Window;
    LayoutLog(s.wal, s.log);
  }

  lemma {:induction false} RunKeeps(c: Config, s: State, acts: seq<Action>)
    requires Init(s)
    ensures Inv(c, Run(c, s, acts))
  {
    hide Inv, Init, Step;
    if acts == [] {
      InitHolds(c, s);
    } else {
      RunKeeps(c, s, acts[..|acts| - 1]);
      StepKeeps(c, Run(c, s, acts[..|acts| - 1]), acts[|acts| - 1]);
    }
  }
}
