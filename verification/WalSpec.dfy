// The segmented write-ahead log as a value (internal/aggregator/envwal/envwal.go), its layout
// invariant relative to the log of everything ever written, and the retention of GC.
module WalSpec {
  import opened Prelude
  import opened Envelopes
  import opened WalLog

  /** `path` is the number in the file name: the counter plus one when the file was opened. */
  datatype Segment = Segment(path: nat, start: nat, end: nat, bytes: nat, createdAt: int)

  /** File contents by name, and the names still linked. An unlinked file keeps its contents for
      a reader that already opened it, while opening it anew reports that it does not exist. */
  datatype Dir = Dir(inodes: map<nat, seq<Entry>>, linked: set<nat>)

  /** `lastNum` is the assigned counter, `writable` whether the active file handle is open,
      `trims` the overflow counter. The active segment is the last one. */
  datatype Wal = Wal(lastNum: nat, segments: seq<Segment>, writable: bool, dir: Dir, trims: nat)

  datatype Options = Options(maxBytes: int, segmentSize: int, ttl: int)

  /** Where an append can fail: before the counter advances, at the write, or opening the next
      segment after the entry is already on disk. */
  datatype Fault = NoFault | MarshalFault | WriteFault | RotateFault

  /** The log after the call, the entries that reached the disk, and the returned number. */
  datatype Appended = Appended(wal: Wal, stored: seq<Entry>, num: Result<nat>)

  function Active(w: Wal): Segment
    requires w.segments != []
  {
    w.segments[|w.segments| - 1]
  }

  function Paths(segs: seq<Segment>): set<nat> {
    set i | 0 <= i < |segs| :: segs[i].path
  }

  ghost predicate DistinctPaths(segs: seq<Segment>) {
    forall i, j | 0 <= i < j < |segs| :: segs[i].path != segs[j].path
  }

  lemma DistinctAt(segs: seq<Segment>, i: nat, j: nat)
    requires DistinctPaths(segs) && j < |segs|
    ensures i < j ==> segs[i].path != segs[j].path
  {
  }

  lemma PathsSnoc(segs: seq<Segment>, s: Segment)
    ensures Paths(segs + [s]) == Paths(segs) + {s.path}
  {
    var r := segs + [s];
    assert r[|segs|] == s;
    assert forall i | 0 <= i < |segs| :: r[i] == segs[i];
  }

  lemma PathsCons(segs: seq<Segment>)
    requires segs != []
    ensures Paths(segs) == {segs[0].path} + Paths(segs[1..])
  {
    assert forall i | 0 < i < |segs| :: segs[i] == segs[1..][i - 1];
  }

  function ContentOf(dir: Dir, p: nat): seq<Entry> {
    if p in dir.inodes then dir.inodes[p] else []
  }

  // ----- operations -----

  function OpenSegment(w: Wal, now: int): (w': Wal)
    ensures w'.segments != []
  {
    var p := w.lastNum + 1;
    var content := if p in w.dir.linked then ContentOf(w.dir, p) else [];
    w.(segments := w.segments + [Segment(p, p, w.lastNum, 0, now)],
       writable := true,
       dir := Dir(w.dir.inodes[p := content], w.dir.linked + {p}))
  }

  /** The entry written: appended to the active file, whose size and end advance. */
  function Write(w: Wal, e: Entry, size: nat): (w': Wal)
    requires w.segments != []
    ensures |w'.segments| == |w.segments|
  {
    var a := Active(w);
    w.(segments := w.segments[|w.segments| - 1 := a.(bytes := a.bytes + size, end := e.num)],
       dir := w.dir.(inodes := w.dir.inodes[a.path := ContentOf(w.dir, a.path) + [e]]))
  }

  /** The write and, once the segment is full, the rotation. */
  function Store(w: Wal, opts: Options, e: Entry, size: nat, now: int, rotateFails: bool): (r: Appended)
    requires w.segments != []
    ensures r.wal.segments != []
  {
    var w' := Write(w, e, size);
    if Active(w').bytes < opts.segmentSize then Appended(w', [e], Ok(e.num))
    else if rotateFails then Appended(w'.(writable := false), [e], Err)
    else Appended(OpenSegment(w'.(writable := false), now), [e], Ok(e.num))
  }

  function Append(w: Wal, opts: Options, agent: string, env: Envelope, size: nat, now: int, fault: Fault): (r: Appended)
    requires w.segments != []
    ensures r.wal.segments != []
  {
    if fault == MarshalFault then Appended(w, [], Err)
    else
      var w1 := w.(lastNum := w.lastNum + 1);
      if !w.writable || fault == WriteFault then Appended(w1, [], Err)
      else Store(w1, opts, Entry(w1.lastNum, agent, env, now), size, now, fault == RotateFault)
  }

  predicate Expired(s: Segment, now: int, ttl: int) {
    now - s.createdAt > ttl
  }

  /** Segments within their TTL; the active (last) one is kept whatever its age. */
  function Young(segs: seq<Segment>, now: int, ttl: int): (r: seq<Segment>)
    ensures segs != [] ==> r != [] && r[|r| - 1] == segs[|segs| - 1]
  {
    if |segs| <= 1 then segs
    else (if Expired(segs[0], now, ttl) then [] else [segs[0]]) + Young(segs[1..], now, ttl)
  }

  function TotalBytes(segs: seq<Segment>): nat {
    if segs == [] then 0 else segs[0].bytes + TotalBytes(segs[1..])
  }

  /** Oldest segments dropped while the total exceeds the cap and more than one remains. */
  function Fit(segs: seq<Segment>, maxBytes: int): (r: seq<Segment>) {
    if |segs| > 1 && TotalBytes(segs) > maxBytes then Fit(segs[1..], maxBytes) else segs
  }

  function Collect(w: Wal, opts: Options, now: int): (w': Wal) {
    var young := Young(w.segments, now, opts.ttl);
    var kept := Fit(young, opts.maxBytes);
    w.(segments := kept,
       dir := w.dir.(linked := w.dir.linked - (Paths(w.segments) - Paths(kept))),
       trims := if |kept| <= |young| then w.trims + (|young| - |kept|) else w.trims)
  }

  // ----- layout -----

  /** Ordered segments with disjoint ranges and distinct names that leave no entry between them. */
  ghost predicate Tiled(segs: seq<Segment>, log: seq<Entry>) {
    && (forall i | 0 <= i < |segs| :: 1 <= segs[i].path <= segs[i].start <= segs[i].end + 1)
    && (forall i | 0 <= i < |segs| - 1 :: segs[i].start <= segs[i].end)
    && (forall i, j | 0 <= i < j < |segs| :: segs[i].end < segs[j].path)
    && (forall i, j | 0 <= i && j == i + 1 < |segs| :: Clear(log, segs[i].end, segs[j].start))
    && (segs != [] ==> Clear(log, segs[0].path - 1, segs[0].start))
  }

  /** Every file ever created holds the log's window from its name to its last entry. */
  ghost predicate FilesFromLog(dir: Dir, log: seq<Entry>) {
    && dir.linked <= dir.inodes.Keys
    && forall p | p in dir.inodes :: dir.inodes[p] == Window(log, p, FileEnd(dir.inodes[p], p))
  }

  /** Each segment is linked and its `end` is its file's; other linked files are empty. */
  ghost predicate Backed(segs: seq<Segment>, dir: Dir) {
    && (forall i | 0 <= i < |segs| ::
          segs[i].path in dir.linked && segs[i].path in dir.inodes
          && FileEnd(dir.inodes[segs[i].path], segs[i].path) == segs[i].end)
    && (forall p | p in dir.linked && p in dir.inodes && p !in Paths(segs) :: dir.inodes[p] == [])
  }

  ghost predicate LogBelow(log: seq<Entry>, lastNum: nat) {
    Increasing(log) && forall e | e in log :: 1 <= e.num <= lastNum
  }

  /** The invariant every append, rotation and GC keeps. */
  ghost predicate Layout(w: Wal, log: seq<Entry>) {
    && w.segments != []
    && LogBelow(log, w.lastNum)
    && Tiled(w.segments, log)
    && Active(w).end <= w.lastNum
    && Clear(log, Active(w).end, w.lastNum + 1)
    && FilesFromLog(w.dir, log)
    && Backed(w.segments, w.dir)
  }

  /** Creation times never step back: what a nondecreasing clock gives. */
  ghost predicate Aged(segs: seq<Segment>, now: int) {
    && (forall i, j | 0 <= i < j < |segs| :: segs[i].createdAt <= segs[j].createdAt)
    && (forall i | 0 <= i < |segs| :: segs[i].createdAt <= now)
  }

  // ----- append -----

  lemma TiledPush(segs: seq<Segment>, log: seq<Entry>, s: Segment)
    requires Tiled(segs, log) && 1 <= s.path == s.start == s.end + 1
    requires segs != [] ==> segs[|segs| - 1].start <= segs[|segs| - 1].end < s.path
    requires segs != [] ==> Clear(log, segs[|segs| - 1].end, s.start)
    ensures Tiled(segs + [s], log)
  {
    var r := segs + [s];
    assert forall i | 0 <= i < |segs| :: r[i] == segs[i];
    forall i, j | 0 <= i < j < |r| ensures r[i].end < r[j].path {
      if j == |segs| && i < |segs| - 1 {
        assert segs[i].end < segs[|segs| - 1].path;
      }
    }
  }

  lemma BackedPush(segs: seq<Segment>, dir: Dir, s: Segment)
    requires Backed(segs, dir) && s.path !in Paths(segs) && s.end == s.path - 1
    ensures Backed(segs + [s], Dir(dir.inodes[s.path := []], dir.linked + {s.path}))
  {
    var r := segs + [s];
    assert r[|segs|].path == s.path;
    assert forall i | 0 <= i < |segs| :: r[i] == segs[i] && segs[i].path in Paths(segs);
    assert Paths(segs) <= Paths(r);
  }

  lemma OpenSegmentKeepsLayout(w: Wal, log: seq<Entry>, now: int)
    requires LogBelow(log, w.lastNum) && FilesFromLog(w.dir, log)
    requires Tiled(w.segments, log) && Backed(w.segments, w.dir)
    requires w.segments != [] ==>
               Active(w).start <= Active(w).end <= w.lastNum && Clear(log, Active(w).end, w.lastNum + 1)
    requires w.segments == [] ==> Clear(log, 0, w.lastNum + 1)
    ensures Layout(OpenSegment(w, now), log)
  {
    hide Tiled, Backed, FilesFromLog, LogBelow, Paths;
    var w', p := OpenSegment(w, now), w.lastNum + 1;
    var s := Segment(p, p, w.lastNum, 0, now);
    assert Active(w') == s;
    PathsBelow(w.segments, log, w.lastNum);
    FilesPush(w.segments, w.dir, log, p);
    TiledPush(w.segments, log, s);
    BackedPush(w.segments, w.dir, s);
    assert w'.dir == Dir(w.dir.inodes[p := []], w.dir.linked + {p});
  }

  lemma FilesPush(segs: seq<Segment>, dir: Dir, log: seq<Entry>, p: nat)
    requires FilesFromLog(dir, log) && Backed(segs, dir) && p !in Paths(segs)
    ensures FilesFromLog(Dir(dir.inodes[p := []], dir.linked + {p}), log)
    ensures p in dir.linked && p in dir.inodes ==> dir.inodes[p] == []
  {
    WindowEmpty(log, p, p - 1);
  }

  lemma PathsBelow(segs: seq<Segment>, log: seq<Entry>, lastNum: nat)
    requires Tiled(segs, log)
    requires segs != [] ==> segs[|segs| - 1].start <= segs[|segs| - 1].end <= lastNum
    ensures forall p | p in Paths(segs) :: p <= lastNum
  {
    forall i | 0 <= i < |segs| ensures segs[i].path <= lastNum {
      if i < |segs| - 1 { assert segs[i].end < segs[|segs| - 1].path; }
    }
  }

  /** Growing the log above the counter, and the last segment's end with it, stays tiled. */
  lemma TiledGrow(segs: seq<Segment>, log: seq<Entry>, e: Entry, size: nat)
    requires segs != [] && Tiled(segs, log) && segs[|segs| - 1].end < e.num
    ensures var a := segs[|segs| - 1];
      Tiled(segs[|segs| - 1 := a.(bytes := a.bytes + size, end := e.num)], log + [e])
  {
    var n := |segs| - 1;
    var r := segs[n := segs[n].(bytes := segs[n].bytes + size, end := e.num)];
    forall i, j | 0 <= i && j == i + 1 < |r| ensures Clear(log + [e], r[i].end, r[j].start) {
      assert Clear(log, segs[i].end, segs[j].start);
      assert j < n ==> segs[j].end < segs[n].path;
    }
    assert n > 0 ==> segs[0].end < segs[n].path;
  }

  lemma PathsUpdate(segs: seq<Segment>, n: nat, s: Segment)
    requires n < |segs| && s.path == segs[n].path
    ensures Paths(segs[n := s]) == Paths(segs)
  {
    var r := segs[n := s];
    assert forall i | 0 <= i < |segs| :: r[i].path == segs[i].path;
  }

  lemma BackedGrow(segs: seq<Segment>, log: seq<Entry>, dir: Dir, e: Entry, size: nat)
    requires segs != [] && Backed(segs, dir) && Tiled(segs, log)
    ensures var a := segs[|segs| - 1];
      a.path in dir.inodes &&
      Backed(segs[|segs| - 1 := a.(bytes := a.bytes + size, end := e.num)],
             dir.(inodes := dir.inodes[a.path := dir.inodes[a.path] + [e]]))
  {
    hide Paths, Tiled;
    var n := |segs| - 1;
    PathsUpdate(segs, n, segs[n].(bytes := segs[n].bytes + size, end := e.num));
    EarlierPaths(segs, log);
  }

  lemma EarlierPaths(segs: seq<Segment>, log: seq<Entry>)
    requires segs != [] && Tiled(segs, log)
    ensures segs[|segs| - 1].path in Paths(segs)
    ensures forall i | 0 <= i < |segs| - 1 :: segs[i].path != segs[|segs| - 1].path
  {
    hide Window;
    var n := |segs| - 1;
    forall i | 0 <= i < n ensures segs[i].path != segs[n].path {
      assert segs[i].end < segs[n].path;
    }
  }

  lemma FilesGrow(w: Wal, log: seq<Entry>, e: Entry)
    requires Layout(w, log) && e.num == w.lastNum + 1
    ensures var a := Active(w);
      a.path in w.dir.inodes &&
      FilesFromLog(w.dir.(inodes := w.dir.inodes[a.path := w.dir.inodes[a.path] + [e]]), log + [e])
  {
    var a := Active(w);
    assert w.segments[|w.segments| - 1] == a;
    var inodes := w.dir.inodes[a.path := w.dir.inodes[a.path] + [e]];
    forall p | p in inodes
      ensures inodes[p] == Window(log + [e], p, FileEnd(inodes[p], p))
    {
      if p == a.path {
        WindowAppend(log, e, p, e.num);
        WindowSame(log, p, a.end, p, e.num);
      } else {
        FileWithinLog(w, log, p);
        WindowAppend(log, e, p, FileEnd(w.dir.inodes[p], p));
      }
    }
  }

  lemma WriteKeepsLayout(w: Wal, log: seq<Entry>, e: Entry, size: nat)
    requires Layout(w, log) && e.num == w.lastNum + 1
    ensures Layout(Write(w.(lastNum := e.num), e, size), log + [e])
    ensures var a := Active(Write(w.(lastNum := e.num), e, size)); a.start <= a.end == e.num
  {
    hide Tiled, Backed, FilesFromLog, LogBelow;
    ActiveRange(w.segments, log);
    TiledGrow(w.segments, log, e, size);
    BackedGrow(w.segments, log, w.dir, e, size);
    FilesGrow(w, log, e);
    LogGrow(log, w.lastNum, e);
  }

  lemma ActiveRange(segs: seq<Segment>, log: seq<Entry>)
    requires Tiled(segs, log) && segs != []
    ensures var a := segs[|segs| - 1]; 1 <= a.path <= a.start <= a.end + 1
  {
  }

  lemma LogGrow(log: seq<Entry>, lastNum: nat, e: Entry)
    requires LogBelow(log, lastNum) && e.num == lastNum + 1
    ensures LogBelow(log + [e], e.num)
  {
  }

  /** A number assigned and lost to a failed write leaves the log where it was. */
  lemma LogSkip(log: seq<Entry>, lastNum: nat, end: nat)
    requires LogBelow(log, lastNum) && Clear(log, end, lastNum + 1)
    ensures LogBelow(log, lastNum + 1) && Clear(log, end, lastNum + 2)
  {
  }

  /** A nonempty file ends at or below the counter; an empty one below its own name. */
  lemma FileWithinLog(w: Wal, log: seq<Entry>, p: nat)
    requires LogBelow(log, w.lastNum) && FilesFromLog(w.dir, log) && p in w.dir.inodes
    ensures FileEnd(w.dir.inodes[p], p) <= w.lastNum || FileEnd(w.dir.inodes[p], p) == p - 1
  {
    var f := w.dir.inodes[p];
    if f != [] {
      WindowMembers(log, p, FileEnd(f, p));
      assert f[|f| - 1] in f;
    }
  }

  /** Every append keeps the layout for the log extended by what reached the disk, whatever
      fails; a returned number is the stored entry's, and the counter never goes back. */
  lemma AppendKeepsLayout(w: Wal, log: seq<Entry>, opts: Options, agent: string, env: Envelope,
                          size: nat, now: int, fault: Fault)
    requires Layout(w, log)
    ensures var r := Append(w, opts, agent, env, size, now, fault);
      && Layout(r.wal, log + r.stored)
      && (r.num.Ok? ==> r.num.value == r.wal.lastNum && r.stored == [Entry(r.num.value, agent, env, now)])
      && w.lastNum <= r.wal.lastNum <= w.lastNum + 1
  {
    hide Tiled, Backed, FilesFromLog, LogBelow;
    var r := Append(w, opts, agent, env, size, now, fault);
    if r.stored == [] {
      assert log + r.stored == log;
      LogSkip(log, w.lastNum, Active(w).end);
      assert Active(r.wal) == Active(w);
    } else {
      var e := Entry(w.lastNum + 1, agent, env, now);
      WriteKeepsLayout(w, log, e, size);
      var w2 := Write(w.(lastNum := e.num), e, size);
      var w3 := w2.(writable := false);
      assert Active(w3) == Active(w2);
      if Active(w2).bytes >= opts.segmentSize && fault != RotateFault {
        OpenSegmentKeepsLayout(w3, log + [e], now);
      }
    }
  }

  lemma AppendKeepsAge(w: Wal, opts: Options, agent: string, env: Envelope, size: nat, now: int, fault: Fault)
    requires w.segments != [] && Aged(w.segments, now)
    ensures Aged(Append(w, opts, agent, env, size, now, fault).wal.segments, now)
  {
  }

  // ----- retention -----

  /** Expired segments come before every unexpired one (the active segment aside). */
  ghost predicate ExpiredFirst(segs: seq<Segment>, now: int, ttl: int) {
    forall i, j | 0 <= i < j < |segs| - 1 && Expired(segs[j], now, ttl) :: Expired(segs[i], now, ttl)
  }

  /** r is segs with some of the oldest segments dropped. */
  ghost predicate SuffixOf(r: seq<Segment>, segs: seq<Segment>) {
    |r| <= |segs| && r == segs[|segs| - |r|..]
  }

  lemma {:induction false} YoungKeepsAll(segs: seq<Segment>, now: int, ttl: int)
    requires forall i | 0 <= i < |segs| - 1 :: !Expired(segs[i], now, ttl)
    ensures Young(segs, now, ttl) == segs
  {
    if |segs| > 1 { YoungKeepsAll(segs[1..], now, ttl); }
  }

  lemma {:induction false} YoungUnexpired(segs: seq<Segment>, now: int, ttl: int)
    ensures var r := Young(segs, now, ttl);
      |r| <= |segs| && forall i | 0 <= i < |r| - 1 :: !Expired(r[i], now, ttl)
  {
    if |segs| > 1 { YoungUnexpired(segs[1..], now, ttl); }
  }

  /** The TTL pass applied to a split: what it keeps of the front, then of the back. */
  lemma {:induction false} YoungAtLeast(segs: seq<Segment>, k: nat, now: int, ttl: int)
    requires k < |segs|
    ensures |Young(segs[k..], now, ttl)| <= |Young(segs, now, ttl)|
    ensures forall i | 0 <= i < k && !Expired(segs[i], now, ttl) ::
              |Young(segs[k..], now, ttl)| < |Young(segs, now, ttl)|
  {
    if k == 0 {
      assert segs[0..] == segs;
    } else {
      var rest := segs[1..];
      YoungAtLeast(rest, k - 1, now, ttl);
      assert rest[k - 1..] == segs[k..];
      assert forall i | 0 < i < k :: segs[i] == rest[i - 1];
    }
  }

  lemma {:induction false} ExpiredFirstIsSuffix(segs: seq<Segment>, now: int, ttl: int)
    requires ExpiredFirst(segs, now, ttl)
    ensures SuffixOf(Young(segs, now, ttl), segs)
  {
    if |segs| > 1 {
      if Expired(segs[0], now, ttl) {
        var rest := segs[1..];
        assert forall i | 0 <= i < |rest| :: rest[i] == segs[i + 1];
        ExpiredFirstIsSuffix(rest, now, ttl);
        var r := Young(segs, now, ttl);
        assert segs[|segs| - |r|..] == rest[|rest| - |r|..];
      } else {
        YoungKeepsAll(segs, now, ttl);
      }
    }
  }

  /** The TTL pass retains a suffix exactly when no unexpired segment precedes an expired one. */
  lemma YoungIsSuffixIff(segs: seq<Segment>, now: int, ttl: int)
    ensures SuffixOf(Young(segs, now, ttl), segs) <==> ExpiredFirst(segs, now, ttl)
  {
    if ExpiredFirst(segs, now, ttl) {
      ExpiredFirstIsSuffix(segs, now, ttl);
    } else if SuffixOf(Young(segs, now, ttl), segs) {
      var i, j :| 0 <= i < j < |segs| - 1 && Expired(segs[j], now, ttl) && !Expired(segs[i], now, ttl);
      StraggleIsNoSuffix(segs, i, j, now, ttl);
    }
  }

  /** An unexpired segment before an expired one leaves a hole. */
  lemma StraggleIsNoSuffix(segs: seq<Segment>, i: nat, j: nat, now: int, ttl: int)
    requires i < j < |segs| - 1 && Expired(segs[j], now, ttl) && !Expired(segs[i], now, ttl)
    ensures !SuffixOf(Young(segs, now, ttl), segs)
  {
    hide Young, Expired;
    var r := Young(segs, now, ttl);
    YoungUnexpired(segs, now, ttl);
    if SuffixOf(r, segs) {
      var d := |segs| - |r|;
      var tail := segs[d..];
      assert forall k | d <= k < |segs| :: segs[k] == r[k - d];
      assert j < d;
      YoungKeepsAll(tail, now, ttl);
      YoungAtLeast(segs, d, now, ttl);
    }
  }

  lemma {:induction false} YoungMembers(segs: seq<Segment>, now: int, ttl: int)
    ensures forall s | s in Young(segs, now, ttl) :: s in segs
  {
    if |segs| > 1 {
      YoungMembers(segs[1..], now, ttl);
    }
  }

  lemma {:induction false} YoungDistinct(segs: seq<Segment>, now: int, ttl: int)
    requires DistinctPaths(segs)
    ensures DistinctPaths(Young(segs, now, ttl))
  {
    hide Expired;
    if |segs| > 1 {
      var rest := segs[1..];
      assert DistinctPaths(rest);
      YoungDistinct(rest, now, ttl);
      YoungMembers(rest, now, ttl);
      var r := Young(rest, now, ttl);
      forall i | 0 <= i < |r| ensures r[i].path != segs[0].path {
        assert r[i] in rest;
      }
    }
  }

  /** Half way through the TTL pass: i segments looked at, `kept` of them kept. */
  ghost predicate Expiring(segs: seq<Segment>, i: nat, kept: seq<Segment>, linked: set<nat>, linked': set<nat>, now: int, ttl: int) {
    && i <= |segs|
    && kept + Young(segs[i..], now, ttl) == Young(segs, now, ttl)
    && Paths(kept) <= Paths(segs[..i])
    && linked' == linked - (Paths(segs[..i]) - Paths(kept))
  }

  lemma ExpiringStart(segs: seq<Segment>, linked: set<nat>, now: int, ttl: int)
    ensures Expiring(segs, 0, [], linked, linked, now, ttl)
  {
    assert segs[0..] == segs;
  }

  lemma PathBefore(segs: seq<Segment>, i: nat)
    requires DistinctPaths(segs) && i < |segs|
    ensures segs[i].path !in Paths(segs[..i])
  {
    assert forall j | 0 <= j < i :: segs[j].path != segs[i].path;
  }

  lemma ExpiringStep(segs: seq<Segment>, i: nat, kept: seq<Segment>, linked: set<nat>, linked': set<nat>, now: int, ttl: int)
    requires Expiring(segs, i, kept, linked, linked', now, ttl) && i < |segs| && DistinctPaths(segs)
    ensures i < |segs| - 1 && Expired(segs[i], now, ttl) ==>
      Expiring(segs, i + 1, kept, linked, linked' - {segs[i].path}, now, ttl)
    ensures i == |segs| - 1 || !Expired(segs[i], now, ttl) ==>
      Expiring(segs, i + 1, kept + [segs[i]], linked, linked', now, ttl)
  {
    var s := segs[i];
    assert segs[i..][0] == s && segs[i..][1..] == segs[i + 1..];
    assert segs[..i + 1] == segs[..i] + [s];
    hide Paths, DistinctPaths;
    PathBefore(segs, i);
    PathsSnoc(segs[..i], s);
    PathsSnoc(kept, s);
    if i == |segs| - 1 { assert segs[i..] == [s] && segs[i + 1..] == []; }
  }

  lemma ExpiringDone(segs: seq<Segment>, kept: seq<Segment>, linked: set<nat>, linked': set<nat>, now: int, ttl: int)
    requires Expiring(segs, |segs|, kept, linked, linked', now, ttl)
    ensures kept == Young(segs, now, ttl) && linked' == linked - (Paths(segs) - Paths(kept))
  {
    assert segs[|segs|..] == [] && segs[..|segs|] == segs;
  }

  lemma AgedExpiredFirst(segs: seq<Segment>, now: int, ttl: int)
    requires Aged(segs, now)
    ensures SuffixOf(Young(segs, now, ttl), segs)
  {
    YoungIsSuffixIff(segs, now, ttl);
  }

  /** The byte cap drops as few of the oldest segments as it can: what is left fits or is the
      active segment alone, and keeping one more would not have fitted. */
  lemma {:induction false} FitIsLongestFitting(segs: seq<Segment>, maxBytes: int)
    ensures var r := Fit(segs, maxBytes);
      && SuffixOf(r, segs)
      && (segs != [] ==> r != [])
      && (TotalBytes(r) <= maxBytes || |r| == 1 || segs == [])
      && (forall d | 0 <= d < |segs| - |r| :: TotalBytes(segs[d..]) > maxBytes)
  {
    if |segs| > 1 && TotalBytes(segs) > maxBytes {
      var rest := segs[1..];
      FitIsLongestFitting(rest, maxBytes);
      var r := Fit(segs, maxBytes);
      assert segs[|segs| - |r|..] == rest[|rest| - |r|..];
      forall d | 0 <= d < |segs| - |r| ensures TotalBytes(segs[d..]) > maxBytes {
        if d > 0 { assert segs[d..] == rest[d - 1..]; } else { assert segs[d..] == segs; }
      }
    } else {
      assert segs[|segs| - |segs|..] == segs;
    }
  }

  /** Half way through the byte trim: `rest` is left of segs. */
  ghost predicate Trimming(segs: seq<Segment>, rest: seq<Segment>, linked: set<nat>, linked': set<nat>, maxBytes: int) {
    && SuffixOf(rest, segs) && Fit(rest, maxBytes) == Fit(segs, maxBytes)
    && linked' == linked - (Paths(segs) - Paths(rest))
  }

  lemma TrimmingStart(segs: seq<Segment>, linked: set<nat>, maxBytes: int)
    ensures Trimming(segs, segs, linked, linked, maxBytes)
  {
    assert segs[|segs| - |segs|..] == segs;
  }

  lemma TrimmingDone(segs: seq<Segment>, rest: seq<Segment>, linked: set<nat>, linked': set<nat>, maxBytes: int)
    requires Trimming(segs, rest, linked, linked', maxBytes)
    requires |rest| <= 1 || TotalBytes(rest) <= maxBytes
    ensures rest == Fit(segs, maxBytes) && linked' == linked - (Paths(segs) - Paths(rest))
  {
  }

  lemma TrimmingStep(segs: seq<Segment>, rest: seq<Segment>, linked: set<nat>, linked': set<nat>, maxBytes: int)
    requires Trimming(segs, rest, linked, linked', maxBytes) && DistinctPaths(segs)
    requires |rest| > 1 && TotalBytes(rest) > maxBytes
    ensures Trimming(segs, rest[1..], linked, linked' - {rest[0].path}, maxBytes)
    ensures TotalBytes(rest[1..]) == TotalBytes(rest) - rest[0].bytes
  {
    hide Paths, DistinctPaths;
    var d := |segs| - |rest|;
    assert segs[d + 1..] == rest[1..];
    PathsCons(rest);
    SuffixPaths(segs, rest);
  }

  lemma SuffixPaths(segs: seq<Segment>, rest: seq<Segment>)
    requires SuffixOf(rest, segs) && DistinctPaths(segs) && rest != []
    ensures rest[0].path in Paths(segs) && rest[0].path !in Paths(rest[1..])
  {
    var d := |segs| - |rest|;
    assert segs[d] == rest[0];
    forall i | 0 <= i < |rest[1..]| ensures rest[1..][i].path != rest[0].path {
      assert rest[1..][i] == segs[d + 1 + i];
    }
  }

  /** Unlinking in two passes unlinks what the two passes drop together. */
  lemma UnlinkTwice(segs: seq<Segment>, young: seq<Segment>, kept: seq<Segment>, linked: set<nat>, now: int, opts: Options)
    requires young == Young(segs, now, opts.ttl) && kept == Fit(young, opts.maxBytes)
    ensures linked - (Paths(segs) - Paths(young)) - (Paths(young) - Paths(kept)) == linked - (Paths(segs) - Paths(kept))
  {
    YoungMembers(segs, now, opts.ttl);
    FitIsLongestFitting(young, opts.maxBytes);
    forall s | s in kept ensures s in young { }
    assert Paths(kept) <= Paths(young) <= Paths(segs) by {
      forall i | 0 <= i < |young| ensures young[i].path in Paths(segs) { assert young[i] in young; }
      forall i | 0 <= i < |kept| ensures kept[i].path in Paths(young) { assert kept[i] in kept; }
    }
  }

  lemma SuffixTiled(segs: seq<Segment>, r: seq<Segment>, log: seq<Entry>)
    requires Tiled(segs, log) && SuffixOf(r, segs)
    ensures Tiled(r, log)
  {
    var d := |segs| - |r|;
    assert forall i | 0 <= i < |r| :: r[i] == segs[i + d];
    forall i, j | 0 <= i && j == i + 1 < |r| ensures Clear(log, r[i].end, r[j].start) {
      assert Clear(log, segs[i + d].end, segs[j + d].start);
    }
    if d > 0 && r != [] {
      assert Clear(log, segs[d - 1].end, segs[d].start);
    }
  }

  /** Dropping the oldest segments and unlinking their files keeps the layout. */
  lemma DropKeepsLayout(w: Wal, log: seq<Entry>, kept: seq<Segment>, w': Wal)
    requires Layout(w, log) && kept != [] && SuffixOf(kept, w.segments)
    requires w'.lastNum == w.lastNum && w'.segments == kept
    requires w'.dir == w.dir.(linked := w.dir.linked - (Paths(w.segments) - Paths(kept)))
    ensures Layout(w', log)
  {
    hide Tiled, Backed, FilesFromLog, LogBelow, Paths;
    SuffixTiled(w.segments, kept, log);
    SuffixBacked(w.segments, kept, w.dir);
    FilesUnlink(w.dir, log, Paths(w.segments) - Paths(kept));
    assert Active(w') == Active(w);
  }

  lemma SuffixBacked(segs: seq<Segment>, r: seq<Segment>, dir: Dir)
    requires Backed(segs, dir) && SuffixOf(r, segs)
    ensures Backed(r, dir.(linked := dir.linked - (Paths(segs) - Paths(r))))
  {
    var d := |segs| - |r|;
    assert forall i | 0 <= i < |r| :: r[i] == segs[i + d] && r[i].path in Paths(r);
  }

  lemma FilesUnlink(dir: Dir, log: seq<Entry>, gone: set<nat>)
    requires FilesFromLog(dir, log)
    ensures FilesFromLog(dir.(linked := dir.linked - gone), log)
  {
  }

  /** What a collection leaves of the segments: a suffix with the active one, unexpired apart from
      it, that fits the cap or is the active segment alone. */
  lemma KeptSegments(segs: seq<Segment>, opts: Options, now: int)
    requires segs != [] && Aged(segs, now)
    ensures var young, kept := Young(segs, now, opts.ttl), Fit(Young(segs, now, opts.ttl), opts.maxBytes);
      && kept != [] && SuffixOf(kept, segs) && |kept| <= |young|
      && (TotalBytes(kept) <= opts.maxBytes || |kept| == 1)
      && (forall i | 0 <= i < |kept| - 1 :: !Expired(kept[i], now, opts.ttl))
  {
    hide Young, Fit, TotalBytes;
    var young := Young(segs, now, opts.ttl);
    AgedExpiredFirst(segs, now, opts.ttl);
    FitIsLongestFitting(young, opts.maxBytes);
    YoungUnexpired(segs, now, opts.ttl);
    SuffixOfSuffix(Fit(young, opts.maxBytes), young, segs);
  }

  lemma SuffixAged(r: seq<Segment>, segs: seq<Segment>, now: int)
    requires SuffixOf(r, segs) && Aged(segs, now)
    ensures Aged(r, now)
  {
    assert forall i | 0 <= i < |r| :: r[i] == segs[|segs| - |r| + i];
  }

  /** GC under a nondecreasing clock: a suffix containing the active segment is retained, the
      layout is kept, the bytes fit or only the active segment is left, and the overflow counter
      rises by the number of unexpired segments the byte cap dropped. */
  lemma CollectKeepsLayout(w: Wal, log: seq<Entry>, opts: Options, now: int)
    requires Layout(w, log) && Aged(w.segments, now)
    ensures var w' := Collect(w, opts, now);
      && Layout(w', log) && Aged(w'.segments, now)
      && SuffixOf(w'.segments, w.segments) && Active(w') == Active(w)
      && (TotalBytes(w'.segments) <= opts.maxBytes || |w'.segments| == 1)
      && (forall i | 0 <= i < |w'.segments| - 1 :: !Expired(w'.segments[i], now, opts.ttl))
      && w'.trims == w.trims + |Young(w.segments, now, opts.ttl)| - |w'.segments|
  {
    hide Tiled, Backed, FilesFromLog, LogBelow, Paths, Young, Fit, TotalBytes, Aged;
    KeptSegments(w.segments, opts, now);
    var w' := Collect(w, opts, now);
    SuffixAged(w'.segments, w.segments, now);
    DropKeepsLayout(w, log, w'.segments, w');
  }

  lemma SuffixOfSuffix(r: seq<Segment>, mid: seq<Segment>, segs: seq<Segment>)
    requires SuffixOf(r, mid) && SuffixOf(mid, segs)
    ensures SuffixOf(r, segs)
    ensures forall i | 0 <= i < |r| :: r[i] == segs[|segs| - |r| + i] && r[i] == mid[|mid| - |r| + i]
  {
    assert segs[|segs| - |mid|..][|mid| - |r|..] == segs[|segs| - |r|..];
  }

  /** What the retained files hold is a suffix of the log: every entry from the oldest segment's
      first number on. */
  function Contents(segs: seq<Segment>, dir: Dir): seq<Entry> {
    if segs == [] then []
    else ContentOf(dir, segs[0].path) + Contents(segs[1..], dir)
  }

  lemma {:induction false} ContentsWindow(segs: seq<Segment>, dir: Dir, log: seq<Entry>)
    requires segs != [] && Tiled(segs, log) && Increasing(log) && FilesFromLog(dir, log)
    requires forall i | 0 <= i < |segs| :: segs[i].path in dir.inodes
               && FileEnd(dir.inodes[segs[i].path], segs[i].path) == segs[i].end
    ensures Contents(segs, dir) == Window(log, segs[0].start, segs[|segs| - 1].end)
  {
    var s := segs[0];
    WindowSame(log, s.path, s.end, s.start, s.end);
    if |segs| > 1 {
      var rest := segs[1..];
      assert Clear(log, s.end, segs[1].start);
      assert s.start <= s.end < segs[|segs| - 1].path <= segs[|segs| - 1].end + 1;
      SuffixTiled(segs, rest, log);
      hide Tiled;
      ContentsWindow(rest, dir, log);
      var last := segs[|segs| - 1];
      WindowSame(log, rest[0].start, last.end, s.end + 1, last.end);
      WindowSplit(log, s.start, s.end, last.end);
    } else {
      assert Contents(segs[1..], dir) == [];
    }
  }

  /** The retained files hold exactly the entries numbered from the oldest segment's start. */
  lemma RetainedIsSuffixOfLog(w: Wal, log: seq<Entry>)
    requires Layout(w, log)
    ensures Contents(w.segments, w.dir) == Window(log, w.segments[0].start, w.lastNum)
  {
    ContentsWindow(w.segments, w.dir, log);
    WindowSame(log, w.segments[0].start, Active(w).end, w.segments[0].start, w.lastNum);
  }
}
