// The log while it is read (envwal.go): appends, rotations and collections go on between the
// snapshot a reader takes under the lock and the moments at which it opens and finishes each file.
module WalRun {
  import opened Prelude
  import opened Envelopes
  import opened WalLog
  import opened WalSpec
  import opened WalRead

  // ----- one append -----

  /** What an append does to the files: the active one gains what was stored, older ones are as
      they were, and the active name never goes back. */
  lemma AppendFiles(w: Wal, log: seq<Entry>, opts: Options, agent: string, env: Envelope, size: nat, now: int, fault: Fault)
    requires Layout(w, log)
    ensures var r, a := Append(w, opts, agent, env, size, now, fault), Active(w);
      && (forall p | p in w.dir.inodes && p <= a.path :: p in r.wal.dir.inodes
            && r.wal.dir.inodes[p] == w.dir.inodes[p] + if p == a.path then r.stored else [])
      && a.path <= Active(r.wal).path && a.path <= w.lastNum + 1
      && (r.stored == [] || (|r.stored| == 1 && r.stored[0].num == w.lastNum + 1))
      && a.path in w.dir.inodes && FileEnd(w.dir.inodes[a.path], a.path) == a.end <= w.lastNum
  {
    hide Tiled, FilesFromLog, LogBelow, Paths, FileEnd;
    ActiveRange(w.segments, log);
    assert w.segments[|w.segments| - 1].path in w.dir.inodes;
    hide Backed;
  }

  lemma ClearGrows(log: seq<Entry>, more: seq<Entry>, lastNum: nat, a: int, b: int)
    requires Clear(log, a, b) && b <= lastNum + 1 && forall e | e in more :: e.num > lastNum
    ensures Clear(log + more, a, b)
  {
  }

  lemma WindowGrows(log: seq<Entry>, more: seq<Entry>, lastNum: nat, lo: int, hi: int)
    requires |more| <= 1 && (hi <= lastNum || hi < lo) && forall e | e in more :: e.num > lastNum
    ensures Window(log + more, lo, hi) == Window(log, lo, hi)
  {
    if more == [] {
      assert log + more == log;
    } else {
      assert more == [more[0]];
      WindowAppend(log, more[0], lo, hi);
    }
  }

  // ----- runs of the log -----

  /** The log object, everything ever written to it, and the clock. */
  datatype Running = Running(wal: Wal, log: seq<Entry>, now: int)

  datatype Op =
    | DoAppend(agent: string, env: Envelope, size: nat, fault: Fault)
    | DoCollect
    | DoTick(d: nat)

  function Do(opts: Options, m: Running, op: Op): Running
    requires m.wal.segments != []
  {
    match op
    case DoAppend(agent, env, size, fault) =>
      var r := Append(m.wal, opts, agent, env, size, m.now, fault);
      m.(wal := r.wal, log := m.log + r.stored)
    case DoCollect => m.(wal := Collect(m.wal, opts, m.now))
    case DoTick(d) => m.(now := m.now + d)
  }

  ghost predicate Sound(m: Running) {
    m.wal.segments != [] && Layout(m.wal, m.log) && Aged(m.wal.segments, m.now)
  }

  lemma DoKeeps(opts: Options, m: Running, op: Op)
    requires Sound(m)
    ensures Sound(Do(opts, m, op))
  {
    hide Layout, Append, Collect;
    match op {
      case DoAppend(agent, env, size, fault) =>
        AppendKeepsLayout(m.wal, m.log, opts, agent, env, size, m.now, fault);
        AppendKeepsAge(m.wal, opts, agent, env, size, m.now, fault);
      case DoCollect =>
        CollectKeepsLayout(m.wal, m.log, opts, m.now);
        NotEmpty(Collect(m.wal, opts, m.now), m.log);
      case DoTick(d) =>
    }
  }

  lemma NotEmpty(w: Wal, log: seq<Entry>)
    requires Layout(w, log)
    ensures w.segments != []
  {
  }

  /** The log after a run of operations. */
  ghost function After(opts: Options, m: Running, ops: seq<Op>): (m': Running)
    requires Sound(m)
    ensures Sound(m')
    decreases |ops|
  {
    if ops == [] then m
    else
      var before := After(opts, m, ops[..|ops| - 1]);
      DoKeeps(opts, before, ops[|ops| - 1]);
      Do(opts, before, ops[|ops| - 1])
  }

  lemma {:induction false} AfterConcat(opts: Options, m: Running, a: seq<Op>, b: seq<Op>)
    requires Sound(m)
    ensures After(opts, m, a + b) == After(opts, After(opts, m, a), b)
    decreases |b|
  {
    hide Sound, Do;
    if b == [] {
      assert a + b == a;
    } else {
      var n := |b| - 1;
      AfterConcat(opts, m, a, b[..n]);
      assert (a + b)[..|a + b| - 1] == a + b[..n];
    }
  }

  // ----- what a later state shares with an earlier one -----

  /** Files that were sealed are as they were, the then-active one has only grown. */
  ghost predicate FilesLater(w: Wal, w': Wal)
    requires w.segments != [] && w'.segments != []
  {
    && Active(w).path <= Active(w').path
    && forall p | p in w.dir.inodes && p <= Active(w).path :: p in w'.dir.inodes
         && (if p < Active(w).path then w'.dir.inodes[p] == w.dir.inodes[p] else w.dir.inodes[p] <= w'.dir.inodes[p])
  }

  ghost predicate Later(m: Running, m': Running)
    requires m.wal.segments != [] && m'.wal.segments != []
  {
    && LaterLog(m.log, m.wal.lastNum, m'.log) && m.wal.lastNum <= m'.wal.lastNum
    && FilesLater(m.wal, m'.wal)
  }

  lemma LaterSame(m: Running)
    requires Sound(m)
    ensures Later(m, m)
  {
    hide Tiled, Backed, FilesFromLog;
  }

  lemma LogGrowsOn(log: seq<Entry>, lastNum: nat, mid: seq<Entry>, midNum: nat, more: seq<Entry>)
    requires LaterLog(log, lastNum, mid) && lastNum <= midNum && Increasing(mid + more)
    requires forall e | e in more :: e.num > midNum
    ensures LaterLog(log, lastNum, mid + more)
  {
  }

  lemma LaterAppend(opts: Options, m0: Running, m: Running, agent: string, env: Envelope, size: nat, fault: Fault)
    requires Sound(m0) && Sound(m) && Later(m0, m)
    ensures Later(m0, Do(opts, m, DoAppend(agent, env, size, fault)))
  {
    hide Layout, Append, Aged, LaterLog;
    var r := Append(m.wal, opts, agent, env, size, m.now, fault);
    AppendKeepsLayout(m.wal, m.log, opts, agent, env, size, m.now, fault);
    AppendFiles(m.wal, m.log, opts, agent, env, size, m.now, fault);
    Ordered(r.wal, m.log + r.stored);
    LogGrowsOn(m0.log, m0.wal.lastNum, m.log, m.wal.lastNum, r.stored);
  }

  lemma Ordered(w: Wal, log: seq<Entry>)
    requires Layout(w, log)
    ensures Increasing(log) && LogBelow(log, w.lastNum)
  {
  }

  lemma LaterStep(opts: Options, m0: Running, m: Running, op: Op)
    requires Sound(m0) && Sound(m) && Later(m0, m)
    ensures Sound(Do(opts, m, op)) && Later(m0, Do(opts, m, op))
  {
    hide Layout, Append, Aged, LaterLog;
    DoKeeps(opts, m, op);
    match op {
      case DoAppend(agent, env, size, fault) => LaterAppend(opts, m0, m, agent, env, size, fault);
      case DoCollect => CollectKeepsLayout(m.wal, m.log, opts, m.now);
      case DoTick(d) =>
    }
  }

  lemma {:induction false} LaterAfter(opts: Options, m: Running, ops: seq<Op>)
    requires Sound(m)
    ensures Later(m, After(opts, m, ops))
    decreases |ops|
  {
    hide Layout, Aged, LaterLog, Do, FilesLater;
    if ops == [] {
      LaterSame(m);
    } else {
      LaterAfter(opts, m, ops[..|ops| - 1]);
      LaterStep(opts, m, After(opts, m, ops[..|ops| - 1]), ops[|ops| - 1]);
    }
  }

  lemma LaterInit(log: seq<Entry>, lastNum: nat, later: seq<Entry>)
    requires LaterLog(log, lastNum, later) && |later| > |log|
    ensures LaterLog(log, lastNum, later[..|later| - 1]) && later[|later| - 1].num > lastNum
  {
    var n := |later| - 1;
    LastIsLargest(later);
    assert later[n] in later && forall e | e in log :: e in later[..n];
  }

  lemma {:induction false} WindowLater(log: seq<Entry>, lastNum: nat, later: seq<Entry>, lo: int, hi: int)
    requires LaterLog(log, lastNum, later) && (hi <= lastNum || hi < lo)
    ensures Window(later, lo, hi) == Window(log, lo, hi)
    decreases |later|
  {
    hide LaterLog, Window;
    if |later| > |log| {
      var n := |later| - 1;
      LaterInit(log, lastNum, later);
      WindowLater(log, lastNum, later[..n], lo, hi);
      WindowAppend(later[..n], later[n], lo, hi);
      assert later == later[..n] + [later[n]];
    } else {
      assert later == log by { LaterPrefix(log, lastNum, later); }
    }
  }

  lemma LaterPrefix(log: seq<Entry>, lastNum: nat, later: seq<Entry>)
    requires LaterLog(log, lastNum, later)
    ensures log <= later
  {
  }

  // ----- opening files one by one -----

  /** When each view is opened and when its reader reaches the end of the file. */
  ghost predicate Moments(opens: seq<nat>, ends: seq<nat>, views: nat, ops: nat) {
    && |opens| == |ends| == views
    && forall i | 0 <= i < views :: opens[i] <= ends[i] <= ops
  }

  /** What the reader finds of one view: nothing when its name is gone at the opening, else all
      that is in the file when it reaches the end. */
  ghost function Finds(opts: Options, m: Running, ops: seq<Op>, open: nat, end: nat, path: nat): Option<seq<Entry>>
    requires Sound(m) && open <= end <= |ops|
  {
    if path !in After(opts, m, ops[..open]).wal.dir.linked then None
    else Some(ContentOf(After(opts, m, ops[..end]).wal.dir, path))
  }

  ghost function FindsAll(opts: Options, m: Running, ops: seq<Op>, opens: seq<nat>, ends: seq<nat>): (found: seq<Option<seq<Entry>>>)
    requires Sound(m) && Moments(opens, ends, |m.wal.segments|, |ops|)
    ensures |found| == |m.wal.segments|
  {
    seq(|m.wal.segments|, i requires 0 <= i < |m.wal.segments| => Finds(opts, m, ops, opens[i], ends[i], m.wal.segments[i].path))
  }

  /** The log at a moment of the run, seen from the end of the run. */
  lemma MomentLater(opts: Options, m: Running, ops: seq<Op>, t: nat)
    requires Sound(m) && t <= |ops|
    ensures var u, later := After(opts, m, ops[..t]), After(opts, m, ops);
      LaterLog(u.log, u.wal.lastNum, later.log) && FilesLater(m.wal, u.wal)
  {
    hide Sound, After, FilesLater, LaterLog;
    AfterConcat(opts, m, ops[..t], ops[t..]);
    assert ops[..t] + ops[t..] == ops;
    LaterAfter(opts, m, ops[..t]);
    LaterAfter(opts, After(opts, m, ops[..t]), ops[t..]);
  }

  /** A file read to its end at some moment is a window of the log at any later one. */
  lemma FileIsWindowLater(u: Running, later: seq<Entry>, path: nat)
    requires Sound(u) && LaterLog(u.log, u.wal.lastNum, later) && path in u.wal.dir.inodes
    ensures var file := ContentOf(u.wal.dir, path); file == Window(later, path, FileEnd(file, path))
  {
    hide Window, Aged, Tiled, Backed, LogBelow, LaterLog;
    FileWithinLog(u.wal, u.log, path);
    WindowLater(u.log, u.wal.lastNum, later, path, FileEnd(u.wal.dir.inodes[path], path));
  }

  lemma LongerFileEnds(log: seq<Entry>, file: seq<Entry>, file': seq<Entry>, p: int)
    requires Increasing(log) && file <= file' && file' == Window(log, p, FileEnd(file', p))
    ensures FileEnd(file, p) <= FileEnd(file', p)
  {
    WindowMembers(log, p, FileEnd(file', p));
    if file' != [] { assert file'[|file'| - 1] in file'; }
  }

  /** The files behind the snapshot's segments, at any later state. */
  lemma SegmentLater(w: Wal, log: seq<Entry>, w': Wal, log': seq<Entry>, i: nat)
    requires Layout(w, log) && Layout(w', log') && FilesLater(w, w') && i < |w.segments|
    ensures var s := w.segments[i];
      && s.path in w'.dir.inodes
      && (if i < |w.segments| - 1 then FileEnd(w'.dir.inodes[s.path], s.path) == s.end else FileEnd(w'.dir.inodes[s.path], s.path) >= s.end)
  {
    hide Window, FileEnd;
    var n, s := |w.segments| - 1, w.segments[i];
    assert w.segments[n] == Active(w);
    if i < n {
      assert s.end < w.segments[n].path;
    } else {
      LongerFileEnds(log', w.dir.inodes[s.path], w'.dir.inodes[s.path], s.path);
    }
  }

  /** So what the reader finds is what a read allows for. */
  lemma FindsAreOpenedLater(opts: Options, m: Running, ops: seq<Op>, opens: seq<nat>, ends: seq<nat>)
    requires Sound(m) && Moments(opens, ends, |m.wal.segments|, |ops|)
    ensures OpenedLater(m.wal, FindsAll(opts, m, ops, opens, ends), After(opts, m, ops).log)
  {
    hide After, Layout, Aged, LaterLog, FilesLater, Window, FileEnd;
    var found, later := FindsAll(opts, m, ops, opens, ends), After(opts, m, ops).log;
    forall i | 0 <= i < |found| && found[i].Some?
      ensures var s, file := m.wal.segments[i], found[i].value;
        && file == Window(later, s.path, FileEnd(file, s.path))
        && (if i < |found| - 1 then FileEnd(file, s.path) == s.end else FileEnd(file, s.path) >= s.end)
    {
      var u := After(opts, m, ops[..ends[i]]);
      MomentLater(opts, m, ops, ends[i]);
      SegmentLater(m.wal, m.log, u.wal, u.log, i);
      FileIsWindowLater(u, later, m.wal.segments[i].path);
    }
  }

  /** Whatever appends, rotations and collections run after the snapshot, and whenever each file is
      opened and finished: a read that reports no error handed over exactly the entries written with
      numbers from past the cursor (from the oldest held, for cursor 0) up to a point that covers
      everything written at the snapshot, each once and in order. */
  lemma ReadFromIsWindow(opts: Options, m: Running, ops: seq<Op>, opens: seq<nat>, ends: seq<nat>, cursor: nat)
    requires Sound(m) && Moments(opens, ends, |m.wal.segments|, |ops|)
    requires !ReadFrom(m.wal, FindsAll(opts, m, ops, opens, ends), cursor).expired
    ensures exists reach: int ::
      && ReadFrom(m.wal, FindsAll(opts, m, ops, opens, ends), cursor).entries == Window(After(opts, m, ops).log, Low(m.wal, cursor), reach)
      && cursor <= reach && forall e | e in m.log :: e.num <= reach
  {
    hide After, Layout, Aged, FilesLater, Window, FileEnd, FindsAll, ReadFrom, OpenedLater, LaterLog;
    var found := FindsAll(opts, m, ops, opens, ends);
    FindsAreOpenedLater(opts, m, ops, opens, ends);
    LaterAfter(opts, m, ops);
    ReadIsWindow(m.wal, m.log, After(opts, m, ops).log, found, cursor);
    var reach := Reach(m.wal, found, cursor, |found|);
  }

  /** It fails as expired exactly when the cursor precedes the oldest segment, or the name of a
      segment that ends past the cursor is gone when its turn comes. */
  lemma ReadFromExpires(opts: Options, m: Running, ops: seq<Op>, opens: seq<nat>, ends: seq<nat>, cursor: nat)
    requires Sound(m) && Moments(opens, ends, |m.wal.segments|, |ops|)
    ensures ReadFrom(m.wal, FindsAll(opts, m, ops, opens, ends), cursor).expired <==>
      || TooOld(cursor, m.wal.segments[0].start)
      || exists i :: 0 <= i < |m.wal.segments| && m.wal.segments[i].end > cursor
           && m.wal.segments[i].path !in After(opts, m, ops[..opens[i]]).wal.dir.linked
  {
    hide After, Layout, Aged, ReadFrom, ContentOf;
    ReadFromExpiredIff(m.wal, m.log, FindsAll(opts, m, ops, opens, ends), cursor);
  }
}
