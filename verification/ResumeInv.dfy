// The inductive invariant of the resume protocol and its preservation by every action.
module ResumeInv {
  import opened Envelopes
  import opened WalLog
  import opened WalSpec
  import opened WalRead
  import opened WalRun
  import opened Resume

  // ----- the invariant -----

  predicate InReplay(p: Phase) {
    p.Replaying? || p.InFile?
  }

  /** A segment is still to be read, or being read. */
  predicate Upcoming(p: Phase) {
    p.InFile? || (p.Replaying? && p.views != [])
  }

  function Ahead(p: Phase): seq<View> {
    match p
    case Replaying(views) => views
    case InFile(view, _, views) => [view] + views
    case _ => []
  }

  function End(dir: Dir, v: View): int {
    FileEnd(ContentOf(dir, v.path), v.path)
  }

  /** The files ahead of the reader, linked or not: each holds at least what it held at the
      snapshot, sealed ones exactly that, and together they leave out nothing up to the snapshot. */
  ghost predicate Chain(dir: Dir, log: seq<Entry>, vs: seq<View>, snapNum: nat, active: nat) {
    && (forall i | 0 <= i < |vs| ::
          vs[i].path in dir.inodes && 1 <= vs[i].path <= active && vs[i].end <= End(dir, vs[i]))
    && (forall i | 0 <= i < |vs| - 1 :: vs[i].path <= vs[i].end == End(dir, vs[i]))
    && (forall i, j | 0 <= i && j == i + 1 < |vs| ::
          vs[i].end < vs[j].path && Clear(log, vs[i].end, vs[j].path))
    && (vs != [] ==> Clear(log, vs[|vs| - 1].end, snapNum + 1))
  }

  /** The least number the replay can still meet. */
  function Bound(dir: Dir, p: Phase, snapNum: nat): int {
    match p
    case Replaying(views) => if views == [] then snapNum + 1 else views[0].path
    case InFile(v, pos, _) =>
      var file := ContentOf(dir, v.path);
      if 0 < pos <= |file| then file[pos - 1].num + 1 else v.path
    case _ => 0
  }

  function CursorNum(env: Envelope): nat {
    if env.cursor.Some? then env.cursor.value.num else 0
  }

  ghost predicate SentIncreasing(sent: seq<Envelope>, lastSent: nat) {
    && (forall i, j | 0 <= i < j < |sent| :: CursorNum(sent[i]) < CursorNum(sent[j]))
    && (forall i | 0 <= i < |sent| :: 1 <= CursorNum(sent[i]) <= lastSent)
  }

  ghost predicate WalOk(s: State) {
    Layout(s.wal, s.log) && Aged(s.wal.segments, s.now)
  }

  ghost predicate ChainOk(s: State)
    requires s.wal.segments != []
  {
    InReplay(s.phase) ==>
      && Chain(s.wal.dir, s.log, Ahead(s.phase), s.snapNum, Active(s.wal).path)
      && s.snapNum <= s.wal.lastNum
      && (s.phase.InFile? ==> s.phase.pos <= |ContentOf(s.wal.dir, s.phase.view.path)|)
  }

  ghost predicate OrderOk(s: State) {
    && SentIncreasing(s.sent, s.lastSent)
    && (Upcoming(s.phase) ==> s.lastSent < Bound(s.wal.dir, s.phase, s.snapNum))
  }

  /** Delivery is complete, in order and without repeats from past `start` up to `covered`. */
  ghost predicate Delivered(c: Config, s: State) {
    var es := Window(s.log, s.start + 1, s.covered);
    && s.start <= s.covered && (s.covered == s.start || s.covered <= s.wal.lastNum)
    && s.sent == Deliver(c.req, es) && s.lastSent == LastSelected(c.req, es)
  }

  /** Delivery starts at the cursor, at the registration point without one, and from the oldest
      retained entry for cursor 0. */
  ghost predicate StartsAt(req: Request, baseline: nat, start: int) {
    match req.cursor
    case None => start == baseline
    case Some(n) => if n > 0 then start == n else start >= 0
  }

  ghost predicate StartOk(c: Config, s: State) {
    && (InReplay(s.phase) || s.phase == Tailing || s.sent != [] ==> StartsAt(c.req, s.baseline, s.start))
    && (InReplay(s.phase) ==> c.req.cursor.Some?)
  }

  ghost predicate ReplayOk(c: Config, s: State) {
    InReplay(s.phase) && !s.gap ==>
      && Delivered(c, s)
      && Clear(s.log, s.covered, Bound(s.wal.dir, s.phase, s.snapNum))
      && (Upcoming(s.phase) ==> s.covered < Bound(s.wal.dir, s.phase, s.snapNum) || s.covered <= CursorOf(c.req))
  }

  /** The live loop is entered only after a gapless replay, and everything selected that was
      written by the snapshot has been sent by then. */
  ghost predicate TailOk(c: Config, s: State) {
    s.phase == Tailing ==>
      && !s.gap && (s.snapNum <= s.wal.lastNum || s.snapNum <= s.start)
      && Deliver(c.req, Window(s.log, s.start + 1, s.snapNum)) <= s.sent
  }

  /** Without log errors, broadcasts follow the log one behind at most. */
  ghost predicate WriterOk(s: State) {
    s.walErrors == 0 ==>
      match s.inHand
      case None => s.lastBroadcast == s.wal.lastNum
      case Some(ev) =>
        && s.log != [] && ToLive([s.log[|s.log| - 1]]) == [ev]
        && s.lastBroadcast + 1 == ev.num == s.wal.lastNum
  }

  predicate Clean(s: State) {
    s.walErrors == 0 && s.drops == 0
  }

  /** Without errors or drops, the channel holds exactly the broadcasts not yet taken. */
  ghost predicate QueueOk(s: State) {
    Clean(s) && InSubs(s.phase) ==>
      && s.baseline <= s.taken <= s.lastBroadcast
      && s.queue == ToLive(Window(s.log, s.taken + 1, s.lastBroadcast))
      && (s.phase != Tailing ==> s.taken == s.baseline)
      && (InReplay(s.phase) || s.phase == Tailing ==> s.baseline <= s.snapNum)
  }

  ghost predicate LiveOk(c: Config, s: State) {
    Clean(s) && s.phase == Tailing && s.start <= s.baseline ==>
      Delivered(c, s) && Clear(s.log, s.covered, s.taken + 1)
  }

  /** What was sent is a prefix of what should be: the selected entries past the start. */
  ghost predicate SentPrefix(c: Config, s: State) {
    s.sent <= Deliver(c.req, Window(s.log, s.start + 1, s.wal.lastNum))
  }

  ghost predicate IdleOk(c: Config, s: State) {
    && (s.phase == Idle || s.phase == Registered ==> s.sent == [] && s.lastSent == 0 && !s.gap)
    && (s.phase == Idle ==> s.drops == 0)
    && (s.phase == CursorExpired || s.phase == Gone ==>
          Clean(s) && !s.gap && s.start <= s.baseline ==> SentPrefix(c, s))
  }

  ghost predicate Inv(c: Config, s: State) {
    && WalOk(s) && s.wal.segments != [] && ChainOk(s) && OrderOk(s) && StartOk(c, s) && ReplayOk(c, s)
    && TailOk(c, s) && WriterOk(s) && QueueOk(s) && LiveOk(c, s) && IdleOk(c, s)
  }

  // ----- delivery up to a point is a prefix of delivery up to a later one -----

  lemma WindowsPrefix(req: Request, log: seq<Entry>, lo: int, mid: int, hi: int)
    requires Increasing(log) && (mid <= hi || mid < lo)
    ensures Deliver(req, Window(log, lo, mid)) <= Deliver(req, Window(log, lo, hi))
  {
    if mid < lo {
      WindowEmpty(log, lo, mid);
    } else {
      WindowSplit(log, lo, mid, hi);
      DeliverConcat(req, Window(log, lo, mid), Window(log, mid + 1, hi));
    }
  }

  lemma DeliveredPrefix(c: Config, s: State)
    requires LogBelow(s.log, s.wal.lastNum) && Delivered(c, s)
    ensures SentPrefix(c, s)
  {
    WindowsPrefix(c.req, s.log, s.start + 1, s.covered, s.wal.lastNum);
  }

  /** One more selected or skipped entry keeps delivery complete. */
  lemma DeliverNext(c: Config, s: State, e: Entry)
    requires Increasing(s.log) && Delivered(c, s) && e in s.log
    requires s.covered < e.num && Clear(s.log, s.covered, e.num)
    ensures var es, es' := Window(s.log, s.start + 1, s.covered), Window(s.log, s.start + 1, e.num);
      && Deliver(c.req, es') == s.sent + (if Selected(c.req, e.env) then [StampCursor(c.req, e.env, e.num)] else [])
      && LastSelected(c.req, es') == if Selected(c.req, e.env) then e.num else s.lastSent
  {
    WindowExtend(s.log, s.start + 1, s.covered, e);
    DeliverSnoc(c.req, Window(s.log, s.start + 1, s.covered), e);
  }

  // ----- the log growing by one append -----

  lemma ChainGrows(dir: Dir, dir': Dir, log: seq<Entry>, more: seq<Entry>, vs: seq<View>,
                   snapNum: nat, lastNum: nat, active: nat, active': nat)
    requires Chain(dir, log, vs, snapNum, active)
    requires snapNum <= lastNum && active <= active' && active <= lastNum + 1
    requires |more| <= 1 && forall e | e in more :: e.num > lastNum
    requires forall p | p in dir.inodes && p <= active :: p in dir'.inodes
               && dir'.inodes[p] == dir.inodes[p] + if p == active then more else []
    requires active in dir.inodes && FileEnd(dir.inodes[active], active) <= lastNum
    ensures Chain(dir', log + more, vs, snapNum, active')
  {
    var n := |vs| - 1;
    forall i | 0 <= i < n ensures vs[i].path < active {
      assert vs[i].end < vs[i + 1].path;
    }
    forall i | 0 <= i < |vs| ensures vs[i].end <= End(dir', vs[i]) && (i < n ==> End(dir', vs[i]) == End(dir, vs[i])) {
      if more != [] { assert more[0] in more; }
    }
    forall i, j | 0 <= i && j == i + 1 < |vs| ensures Clear(log + more, vs[i].end, vs[j].path) {
      ClearGrows(log, more, lastNum, vs[i].end, vs[j].path);
    }
    if vs != [] { ClearGrows(log, more, lastNum, vs[n].end, snapNum + 1); }
  }

  lemma BoundGrows(dir: Dir, dir': Dir, log: seq<Entry>, more: seq<Entry>, p: Phase, snapNum: nat, lastNum: nat, active: nat)
    requires InReplay(p) && Chain(dir, log, Ahead(p), snapNum, active)
    requires LogBelow(log, lastNum) && FilesFromLog(dir, log) && snapNum <= lastNum && active <= lastNum + 1
    requires forall p | p in dir.inodes && p <= active :: p in dir'.inodes
               && dir'.inodes[p] == dir.inodes[p] + if p == active then more else []
    requires p.InFile? ==> p.pos <= |ContentOf(dir, p.view.path)|
    ensures Bound(dir', p, snapNum) == Bound(dir, p, snapNum) <= lastNum + 1
    ensures p.InFile? ==> p.pos <= |ContentOf(dir', p.view.path)|
  {
    if p.InFile? {
      assert Ahead(p)[0] == p.view;
      var file := ContentOf(dir, p.view.path);
      WindowMembers(log, p.view.path, FileEnd(file, p.view.path));
      if 0 < p.pos { assert file[p.pos - 1] in file; }
    } else if p.views != [] {
      assert Ahead(p)[0] == p.views[0];
    }
  }
}
