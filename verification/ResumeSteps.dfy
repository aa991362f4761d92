// Every action of the resume protocol keeps its invariant.
module ResumeSteps {
  import opened Prelude
  import opened Envelopes
  import opened WalLog
  import opened WalSpec
  import opened WalRead
  import opened WalRun
  import opened Resume
  import opened ResumeInv

  /** s' is s after an append of `more`; the subscriber has not moved. */
  ghost predicate Grown(s: State, s': State, more: seq<Entry>) {
    && s'.log == s.log + more && |more| <= 1 && (forall e | e in more :: e.num > s.wal.lastNum)
    && s.wal.lastNum <= s'.wal.lastNum && s.walErrors <= s'.walErrors
    && s'.lastBroadcast == s.lastBroadcast
    && s' == s.(wal := s'.wal, liveNum := s'.liveNum, walErrors := s'.walErrors, inHand := s'.inHand, log := s'.log)
  }

  lemma DeliveredGrows(c: Config, s: State, s': State, more: seq<Entry>)
    requires Grown(s, s', more) && Delivered(c, s)
    ensures Delivered(c, s')
  {
    WindowGrows(s.log, more, s.wal.lastNum, s.start + 1, s.covered);
  }

  lemma PrefixGrows(c: Config, s: State, s': State, more: seq<Entry>)
    requires Grown(s, s', more) && SentPrefix(c, s) && LogBelow(s'.log, s'.wal.lastNum)
    ensures SentPrefix(c, s')
  {
    WindowGrows(s.log, more, s.wal.lastNum, s.start + 1, s.wal.lastNum);
    WindowsPrefix(c.req, s'.log, s.start + 1, s.wal.lastNum, s'.wal.lastNum);
  }

  lemma TailGrows(c: Config, s: State, s': State, more: seq<Entry>)
    requires Grown(s, s', more) && TailOk(c, s)
    ensures TailOk(c, s')
  {
    if s.phase == Tailing { WindowGrows(s.log, more, s.wal.lastNum, s.start + 1, s.snapNum); }
  }

  lemma QueueGrows(s: State, s': State, more: seq<Entry>)
    requires Grown(s, s', more) && QueueOk(s) && WriterOk(s)
    ensures QueueOk(s')
  {
    if Clean(s') && InSubs(s.phase) {
      WindowGrows(s.log, more, s.wal.lastNum, s.taken + 1, s.lastBroadcast);
    }
  }

  lemma LiveGrows(c: Config, s: State, s': State, more: seq<Entry>)
    requires Grown(s, s', more) && LiveOk(c, s) && QueueOk(s) && WriterOk(s)
    ensures LiveOk(c, s')
  {
    if Clean(s') && s.phase == Tailing && s.start <= s.baseline {
      DeliveredGrows(c, s, s', more);
      ClearGrows(s.log, more, s.wal.lastNum, s.covered, s.taken + 1);
    }
  }

  lemma ReplayGrows(c: Config, s: State, s': State, more: seq<Entry>)
    requires Grown(s, s', more) && ReplayOk(c, s)
    requires InReplay(s.phase) ==>
      Bound(s'.wal.dir, s.phase, s.snapNum) == Bound(s.wal.dir, s.phase, s.snapNum) <= s.wal.lastNum + 1
    ensures ReplayOk(c, s')
  {
    if InReplay(s.phase) && !s.gap {
      DeliveredGrows(c, s, s', more);
      ClearGrows(s.log, more, s.wal.lastNum, s.covered, Bound(s.wal.dir, s.phase, s.snapNum));
    }
  }

  lemma WriterEmits(s: State, s': State, e: Entry)
    requires WriterOk(s) && s.inHand.None? && s.walErrors == 0 && s'.walErrors == 0
    requires s'.log == s.log + [e] && e.num == s.wal.lastNum + 1 == s'.wal.lastNum
    requires s'.inHand == Some(Live(e.num, e.agent, e.env)) && s'.lastBroadcast == s.lastBroadcast
    ensures WriterOk(s')
  {
    ClearGrows(s.log, [e], s.wal.lastNum, s.lastBroadcast, e.num);
  }

  /** What an append changes in the log and the writer. */
  lemma EmitGrows(c: Config, s: State, agent: string, env: Envelope, size: nat, fault: Fault)
    requires WalOk(s) && s.wal.segments != [] && s.inHand.None?
    ensures var s', r := EmitStep(c, s, agent, env, size, fault), Append(s.wal, c.opts, agent, env, size, s.now, fault);
      && Grown(s, s', r.stored) && s'.wal.segments != [] && WalOk(s')
      && LogBelow(s'.log, s'.wal.lastNum)
      && (s'.walErrors == 0 ==>
            && s.walErrors == 0 && s'.wal.lastNum == s.wal.lastNum + 1
            && r.stored == [Entry(s'.wal.lastNum, agent, env, s.now)]
            && s'.inHand == Some(Live(s'.wal.lastNum, agent, env)))
  {
    hide Layout, Append, Aged;
    var s' := EmitStep(c, s, agent, env, size, fault);
    AppendKeepsLayout(s.wal, s.log, c.opts, agent, env, size, s.now, fault);
    AppendKeepsAge(s.wal, c.opts, agent, env, size, s.now, fault);
    AppendFiles(s.wal, s.log, c.opts, agent, env, size, s.now, fault);
    LayoutLog(s'.wal, s'.log);
    hide LogBelow, FilesFromLog, ContentOf, Active;
  }

  /** ... and in the files ahead of the reader. */
  lemma EmitChain(c: Config, s: State, s': State, agent: string, env: Envelope, size: nat, fault: Fault)
    requires WalOk(s) && s.wal.segments != [] && ChainOk(s) && s'.phase == s.phase && s'.snapNum == s.snapNum
    requires var r := Append(s.wal, c.opts, agent, env, size, s.now, fault);
      s'.wal == r.wal && s'.log == s.log + r.stored && Grown(s, s', r.stored)
    ensures s'.wal.segments != [] && ChainOk(s')
    ensures InReplay(s.phase) ==>
      Bound(s'.wal.dir, s.phase, s.snapNum) == Bound(s.wal.dir, s.phase, s.snapNum) <= s.wal.lastNum + 1
  {
    if InReplay(s.phase) {
      hide Layout, Chain, Append, Aged, Bound, LogBelow, FilesFromLog;
      var more := Append(s.wal, c.opts, agent, env, size, s.now, fault).stored;
      AppendFiles(s.wal, s.log, c.opts, agent, env, size, s.now, fault);
      LayoutLog(s.wal, s.log);
      var a, a' := Active(s.wal).path, Active(s'.wal).path;
      ChainGrows(s.wal.dir, s'.wal.dir, s.log, more, Ahead(s.phase), s.snapNum, s.wal.lastNum, a, a');
      BoundGrows(s.wal.dir, s'.wal.dir, s.log, more, s.phase, s.snapNum, s.wal.lastNum, a);
    }
  }

  lemma EmitKeeps(c: Config, s: State, agent: string, env: Envelope, size: nat, fault: Fault)
    requires Inv(c, s)
    ensures Inv(c, EmitStep(c, s, agent, env, size, fault))
  {
    hide WalOk, ChainOk, Append, SentPrefix, SentIncreasing, QueueOk, LiveOk, ReplayOk, TailOk, WriterOk, Bound, LogBelow;
    if s.inHand.None? {
      EmitGrows(c, s, agent, env, size, fault);
      var s', r := EmitStep(c, s, agent, env, size, fault), Append(s.wal, c.opts, agent, env, size, s.now, fault);
      EmitChain(c, s, s', agent, env, size, fault);
      ReplayGrows(c, s, s', r.stored);
      TailGrows(c, s, s', r.stored);
      QueueGrows(s, s', r.stored);
      LiveGrows(c, s, s', r.stored);
      if s'.walErrors == 0 { WriterEmits(s, s', r.stored[0]); } else { WriterFailed(s'); }
      if SentPrefix(c, s) { PrefixGrows(c, s, s', r.stored); }
      hide EmitStep;
    }
  }

  lemma WriterFailed(s: State)
    requires s.walErrors > 0
    ensures WriterOk(s)
  {
  }

  lemma LayoutLog(w: Wal, log: seq<Entry>)
    requires Layout(w, log)
    ensures LogBelow(log, w.lastNum) && FilesFromLog(w.dir, log) && w.segments != []
  {
  }

  // ----- broadcast, clock, GC -----

  lemma BroadcastQueue(c: Config, s: State)
    requires WriterOk(s) && QueueOk(s) && Increasing(s.log) && s.inHand.Some?
    ensures QueueOk(BroadcastStep(c, s)) && WriterOk(BroadcastStep(c, s))
  {
    var s' := BroadcastStep(c, s);
    if Clean(s') && InSubs(s.phase) {
      var e := s.log[|s.log| - 1];
      assert ToLive([e])[0] == s.inHand.value;
      WindowExtend(s.log, s.taken + 1, s.lastBroadcast, e);
    }
  }

  lemma BroadcastKeeps(c: Config, s: State)
    requires Inv(c, s)
    ensures Inv(c, BroadcastStep(c, s))
  {
    hide Layout, Aged, Chain, SentIncreasing, Bound, Window, Deliver, LastSelected, QueueOk, WriterOk, LogBelow, FilesFromLog, Clear;
    if s.inHand.Some? {
      LayoutLog(s.wal, s.log);
      LogOrdered(s.log, s.wal.lastNum);
      BroadcastQueue(c, s);
    }
  }

  lemma LogOrdered(log: seq<Entry>, lastNum: nat)
    requires LogBelow(log, lastNum)
    ensures Increasing(log)
  {
  }

  lemma TickKeeps(c: Config, s: State, d: nat)
    requires Inv(c, s)
    ensures Inv(c, s.(now := s.now + d))
  {
    hide Layout, Chain, SentIncreasing, Bound, Window, Deliver, LastSelected, ToLive, Clear;
  }

  /** A reader sees the same contents after names are unlinked. */
  lemma UnlinkKeepsChain(dir: Dir, linked: set<nat>, log: seq<Entry>, p: Phase, snapNum: nat, active: nat)
    ensures Chain(dir, log, Ahead(p), snapNum, active) ==> Chain(dir.(linked := linked), log, Ahead(p), snapNum, active)
    ensures Bound(dir.(linked := linked), p, snapNum) == Bound(dir, p, snapNum)
    ensures p.InFile? ==> ContentOf(dir.(linked := linked), p.view.path) == ContentOf(dir, p.view.path)
  {
  }

  lemma GCKeeps(c: Config, s: State)
    requires Inv(c, s)
    ensures Inv(c, s.(wal := Collect(s.wal, c.opts, s.now)))
  {
    hide Layout, Aged, Chain, SentIncreasing, Bound, Window, Deliver, LastSelected, QueueOk, Clear,
      ContentOf, Young, Fit, Paths, TotalBytes, SuffixOf, Ahead;
    var s' := s.(wal := Collect(s.wal, c.opts, s.now));
    CollectKeepsLayout(s.wal, s.log, c.opts, s.now);
    assert s'.wal.dir == s.wal.dir.(linked := s'.wal.dir.linked) && s'.wal.lastNum == s.wal.lastNum;
    hide Collect;
    LayoutLog(s'.wal, s'.log);
    hide LogBelow, FilesFromLog;
    UnlinkKeepsChain(s.wal.dir, s'.wal.dir.linked, s.log, s.phase, s.snapNum, Active(s.wal).path);
    QueueFrame(s, s');
  }

  lemma QueueFrame(s: State, s': State)
    requires QueueOk(s) && s' == s.(wal := s'.wal)
    ensures QueueOk(s')
  {
  }

  // ----- registering and taking the snapshot -----

  lemma RegisterKeeps(c: Config, s: State)
    requires Inv(c, s)
    ensures Inv(c, RegisterStep(s))
  {
    hide Layout, Aged, Chain, Deliver, LastSelected, Bound, Clear;
    WindowEmptyAt(s.log, s.lastBroadcast + 1);
    hide Window;
  }

  lemma LayoutChain(w: Wal, log: seq<Entry>)
    requires Layout(w, log)
    ensures Chain(w.dir, log, ViewsOf(w.segments), w.lastNum, Active(w).path)
  {
    var vs, n := ViewsOf(w.segments), |w.segments| - 1;
    assert w.segments[n] == Active(w);
    forall i | 0 <= i < |vs| ensures vs[i].path <= Active(w).path {
      if i < n { assert w.segments[i].end < w.segments[n].path; }
    }
    forall i, j | 0 <= i && j == i + 1 < |vs| ensures vs[i].end < vs[j].path && Clear(log, vs[i].end, vs[j].path) {
      assert w.segments[i].end < w.segments[j].path && Clear(log, w.segments[i].end, w.segments[j].start);
    }
  }

  lemma FirstSegment(w: Wal, log: seq<Entry>)
    requires Layout(w, log)
    ensures 1 <= w.segments[0].path <= w.segments[0].start
  {
  }

  lemma SnapshotReplay(c: Config, s: State)
    requires WalOk(s) && s.wal.segments != [] && s.phase == Registered && c.req.cursor.Some?
    requires s.sent == [] && s.lastSent == 0 && !TooOld(c.req.cursor.value, s.wal.segments[0].start)
    ensures var s' := SnapshotStep(c, s);
      ChainOk(s') && OrderOk(s') && ReplayOk(c, s') && StartOk(c, s')
  {
    hide Layout, Aged, Chain, Window, ContentOf;
    var s' := SnapshotStep(c, s);
    LayoutChain(s.wal, s.log);
    FirstSegment(s.wal, s.log);
    WindowEmptyAt(s.log, s'.start + 1);
    assert Ahead(s'.phase) == ViewsOf(s.wal.segments);
    assert s'.phase.views[0].path == s.wal.segments[0].path;
  }

  lemma SnapshotTail(c: Config, s: State)
    requires QueueOk(s) && s.phase == Registered && c.req.cursor.None? && s.wal.segments != []
    requires s.sent == [] && s.lastSent == 0 && !s.gap
    ensures var s' := SnapshotStep(c, s); TailOk(c, s') && QueueOk(s') && LiveOk(c, s') && OrderOk(s')
  {
    WindowEmptyAt(s.log, s.baseline + 1);
  }

  lemma SnapshotQueue(c: Config, s: State)
    requires QueueOk(s) && WriterOk(s) && s.phase == Registered && c.req.cursor.Some?
    ensures QueueOk(SnapshotStep(c, s))
  {
    hide Window, Clear, ViewsOf;
  }

  lemma SnapshotKeeps(c: Config, s: State)
    requires Inv(c, s)
    ensures Inv(c, SnapshotStep(c, s))
  {
    hide WalOk, Chain, Window, ViewsOf, Bound, Deliver, LastSelected, QueueOk, WriterOk, LiveOk, SentIncreasing;
    if s.phase == Registered {
      WriterFrame(s, SnapshotStep(c, s));
      WalFrame(s, SnapshotStep(c, s));
      if c.req.cursor.None? {
        SnapshotTail(c, s);
      } else {
        SnapshotQueue(c, s);
        LiveVacuous(c, SnapshotStep(c, s));
        if !TooOld(c.req.cursor.value, s.wal.segments[0].start) {
          SnapshotReplay(c, s);
          hide ChainOk, OrderOk, ReplayOk, StartOk;
        }
      }
    }
  }

  lemma LiveVacuous(c: Config, s: State)
    requires s.phase != Tailing
    ensures LiveOk(c, s)
  {
  }

  /** The writer's and the log's part does not depend on the subscriber. */
  lemma WriterFrame(s: State, s': State)
    requires WriterOk(s) && s'.wal == s.wal && s'.log == s.log && s'.inHand == s.inHand
    requires s'.walErrors == s.walErrors && s'.lastBroadcast == s.lastBroadcast
    ensures WriterOk(s')
  {
  }

  lemma WalFrame(s: State, s': State)
    requires WalOk(s) && s'.wal == s.wal && s'.log == s.log && s'.now == s.now
    ensures WalOk(s')
  {
  }
}
