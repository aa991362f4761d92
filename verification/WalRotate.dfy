// When a segment is full (envwal.go, Append and rotate): a stored record that brings the active
// segment to its size opens the next one, so the active segment of a log that can be written to
// never reaches that size, and a segment's size is the sum of the records stored in it.
module WalRotate {
  import opened Envelopes
  import opened WalLog
  import opened WalSpec
  import opened WalRun

  /** The record is written: nothing failed before that, and the file is open. */
  predicate Stores(w: Wal, fault: Fault) {
    w.writable && fault != MarshalFault && fault != WriteFault
  }

  /** What a stored append does to the segments: the active one grows by the record, and a next one,
      empty, created now and named after the next number, follows exactly when the active one has
      reached its size and the rotation does not fail. */
  lemma RotatesIff(w: Wal, opts: Options, agent: string, env: Envelope, size: nat, now: int, fault: Fault)
    requires w.segments != []
    ensures var r, n, a := Append(w, opts, agent, env, size, now, fault), |w.segments|, Active(w);
      var full := a.bytes + size >= opts.segmentSize;
      && (r.stored != [] <==> Stores(w, fault))
      && (!Stores(w, fault) ==> r.num.Err? && r.wal.segments == w.segments && r.wal.writable == w.writable)
      && (Stores(w, fault) ==>
            && r.wal.segments[..n - 1] == w.segments[..n - 1]
            && r.wal.segments[n - 1] == a.(bytes := a.bytes + size, end := w.lastNum + 1)
            && (|r.wal.segments| == n + 1 <==> full && fault != RotateFault)
            && (|r.wal.segments| == n <==> !full || fault == RotateFault)
            && (r.num.Err? <==> full && fault == RotateFault) && (r.wal.writable <==> r.num.Ok?)
            && (|r.wal.segments| == n + 1 ==> Active(r.wal) == Segment(w.lastNum + 2, w.lastNum + 2, w.lastNum + 1, 0, now)))
  {
    var n, a := |w.segments|, Active(w);
    if Stores(w, fault) {
      var grown := a.(bytes := a.bytes + size, end := w.lastNum + 1);
      assert w.segments[n - 1 := grown][..n - 1] == w.segments[..n - 1];
      assert w.segments[n - 1 := grown][n - 1] == grown;
    }
  }

  // ----- the active segment is never full -----

  predicate HasRoom(w: Wal, opts: Options)
    requires w.segments != []
  {
    Active(w).bytes < opts.segmentSize || !w.writable
  }

  lemma RoomStep(opts: Options, m: Running, op: Op)
    requires Sound(m) && opts.segmentSize > 0 && HasRoom(m.wal, opts)
    ensures Sound(Do(opts, m, op)) && HasRoom(Do(opts, m, op).wal, opts)
  {
    hide Layout, Aged, Append;
    DoKeeps(opts, m, op);
    match op {
      case DoAppend(agent, env, size, fault) =>
        RotatesIff(m.wal, opts, agent, env, size, m.now, fault);
      case DoCollect => CollectKeepsLayout(m.wal, m.log, opts, m.now);
      case DoTick(d) =>
    }
  }

  /** After every run from a freshly opened segment the active segment is smaller than the limit, or
      a failed rotation has left the log unwritable. */
  lemma {:induction false} AlwaysHasRoom(opts: Options, m: Running, ops: seq<Op>)
    requires Sound(m) && opts.segmentSize > 0 && HasRoom(m.wal, opts)
    ensures HasRoom(After(opts, m, ops).wal, opts)
    decreases |ops|
  {
    hide Sound, Do, HasRoom;
    if ops != [] {
      AlwaysHasRoom(opts, m, ops[..|ops| - 1]);
      RoomStep(opts, After(opts, m, ops[..|ops| - 1]), ops[|ops| - 1]);
    }
  }

  // ----- a segment's size -----

  /** The recorded size of the segment with a name, 0 without one. */
  function BytesAt(segs: seq<Segment>, p: nat): nat {
    if segs == [] then 0
    else if segs[|segs| - 1].path == p then segs[|segs| - 1].bytes
    else BytesAt(segs[..|segs| - 1], p)
  }

  /** The sizes of the records a run stores in the file with a name. */
  ghost function SizesIn(opts: Options, m: Running, ops: seq<Op>, p: nat): nat
    requires Sound(m)
    decreases |ops|
  {
    if ops == [] then 0
    else
      var before, op := After(opts, m, ops[..|ops| - 1]), ops[|ops| - 1];
      SizesIn(opts, m, ops[..|ops| - 1], p) +
      if op.DoAppend? && Stores(before.wal, op.fault) && Active(before.wal).path == p then op.size else 0
  }

  lemma {:induction false} BytesOfMember(segs: seq<Segment>, i: nat)
    requires DistinctPaths(segs) && i < |segs|
    ensures BytesAt(segs, segs[i].path) == segs[i].bytes
  {
    if i < |segs| - 1 { BytesOfMember(segs[..|segs| - 1], i); }
  }

  lemma {:induction false} BytesBeyond(segs: seq<Segment>, p: nat)
    requires forall i | 0 <= i < |segs| :: segs[i].path != p
    ensures BytesAt(segs, p) == 0
  {
    if segs != [] { BytesBeyond(segs[..|segs| - 1], p); }
  }

  lemma ActiveIsLast(w: Wal, log: seq<Entry>)
    requires Layout(w, log)
    ensures forall i | 0 <= i < |w.segments| - 1 :: w.segments[i].path < Active(w).path
    ensures DistinctPaths(w.segments) && Active(w).path <= w.lastNum + 1
  {
    hide Window;
    var n := |w.segments| - 1;
    assert w.segments[n] == Active(w);
    forall i, j | 0 <= i < j < |w.segments| ensures w.segments[i].path < w.segments[j].path {
      assert w.segments[i].end < w.segments[j].path;
    }
  }

  lemma ActiveAdvances(opts: Options, m: Running, op: Op)
    requires Sound(m)
    ensures Sound(Do(opts, m, op)) && Active(m.wal).path <= Active(Do(opts, m, op).wal).path
  {
    hide Layout, Aged, Append;
    DoKeeps(opts, m, op);
    match op {
      case DoAppend(agent, env, size, fault) => AppendFiles(m.wal, m.log, opts, agent, env, size, m.now, fault);
      case DoCollect => CollectKeepsLayout(m.wal, m.log, opts, m.now);
      case DoTick(d) =>
    }
  }

  /** No run stores anything past the active name. */
  lemma {:induction false} NoneBeyond(opts: Options, m: Running, ops: seq<Op>, p: nat)
    requires Sound(m) && p > Active(After(opts, m, ops).wal).path
    ensures SizesIn(opts, m, ops, p) == 0 && p > Active(m.wal).path
    decreases |ops|
  {
    hide Sound, Do;
    if ops != [] {
      ActiveAdvances(opts, After(opts, m, ops[..|ops| - 1]), ops[|ops| - 1]);
      NoneBeyond(opts, m, ops[..|ops| - 1], p);
    }
  }

  ghost predicate Counted(opts: Options, m: Running, ops: seq<Op>, segs: seq<Segment>)
    requires Sound(m)
  {
    forall i | 0 <= i < |segs| :: segs[i].bytes == BytesAt(m.wal.segments, segs[i].path) + SizesIn(opts, m, ops, segs[i].path)
  }

  lemma CountedAppend(opts: Options, m: Running, ops: seq<Op>, op: Op)
    requires Sound(m) && op.DoAppend? && Counted(opts, m, ops, After(opts, m, ops).wal.segments)
    ensures Counted(opts, m, ops + [op], Do(opts, After(opts, m, ops), op).wal.segments)
  {
    hide Sound, Append, After, Counted, BytesAt;
    var before := After(opts, m, ops);
    SoundLast(before);
    var w, a, n := before.wal, Active(before.wal), |before.wal.segments|;
    var segs' := Do(opts, before, op).wal.segments;
    assert (ops + [op])[..|ops|] == ops;
    RotatesIff(w, opts, op.agent, op.env, op.size, before.now, op.fault);
    CountedAt(opts, m, ops, w.segments);
    if |segs'| == n + 1 {
      NoneBeyond(opts, m, ops, w.lastNum + 2);
      SoundLast(m);
      BytesBeyond(m.wal.segments, w.lastNum + 2);
    }
    forall i | 0 <= i < |segs'| ensures segs'[i].bytes == BytesAt(m.wal.segments, segs'[i].path) + SizesIn(opts, m, ops + [op], segs'[i].path) {
      if i < n - 1 {
        assert Stores(w, op.fault) ==> segs'[..n - 1][i] == w.segments[..n - 1][i];
        assert segs'[i] == w.segments[i];
      }
    }
    CountedFrom(opts, m, ops + [op], segs');
  }

  lemma SoundLast(m: Running)
    requires Sound(m)
    ensures forall i | 0 <= i < |m.wal.segments| - 1 :: m.wal.segments[i].path < Active(m.wal).path
    ensures m.wal.segments != [] && Active(m.wal).path <= m.wal.lastNum + 1
    ensures forall i | 0 <= i < |m.wal.segments| :: m.wal.segments[i].path <= Active(m.wal).path
  {
    ActiveIsLast(m.wal, m.log);
  }

  lemma CountedAt(opts: Options, m: Running, ops: seq<Op>, segs: seq<Segment>)
    requires Sound(m) && Counted(opts, m, ops, segs)
    ensures forall i | 0 <= i < |segs| :: segs[i].bytes == BytesAt(m.wal.segments, segs[i].path) + SizesIn(opts, m, ops, segs[i].path)
  {
  }

  lemma CountedFrom(opts: Options, m: Running, ops: seq<Op>, segs: seq<Segment>)
    requires Sound(m)
    requires forall i | 0 <= i < |segs| :: segs[i].bytes == BytesAt(m.wal.segments, segs[i].path) + SizesIn(opts, m, ops, segs[i].path)
    ensures Counted(opts, m, ops, segs)
  {
  }

  lemma CountedOther(opts: Options, m: Running, ops: seq<Op>, op: Op)
    requires Sound(m) && !op.DoAppend? && Counted(opts, m, ops, After(opts, m, ops).wal.segments)
    ensures Counted(opts, m, ops + [op], Do(opts, After(opts, m, ops), op).wal.segments)
  {
    hide Layout, Aged, After, BytesAt, Collect;
    var before := After(opts, m, ops);
    assert (ops + [op])[..|ops|] == ops;
    if op.DoCollect? {
      CollectKeepsLayout(before.wal, before.log, opts, before.now);
      var kept := Collect(before.wal, opts, before.now).segments;
      assert forall i | 0 <= i < |kept| :: kept[i] == before.wal.segments[|before.wal.segments| - |kept| + i];
    }
  }

  /** In every run a retained segment's size is what it was at the start plus the sizes of the records
      stored in it since. */
  lemma {:induction false} BytesAreSizes(opts: Options, m: Running, ops: seq<Op>)
    requires Sound(m)
    ensures Counted(opts, m, ops, After(opts, m, ops).wal.segments)
    decreases |ops|
  {
    hide Do, Counted, Sound;
    if ops == [] {
      CountedStart(opts, m);
    } else {
      var init, op := ops[..|ops| - 1], ops[|ops| - 1];
      BytesAreSizes(opts, m, init);
      assert ops == init + [op];
      if op.DoAppend? { CountedAppend(opts, m, init, op); } else { CountedOther(opts, m, init, op); }
    }
  }

  lemma CountedStart(opts: Options, m: Running)
    requires Sound(m)
    ensures Counted(opts, m, [], m.wal.segments)
  {
    ActiveIsLast(m.wal, m.log);
    hide Layout;
    forall i | 0 <= i < |m.wal.segments| ensures m.wal.segments[i].bytes == BytesAt(m.wal.segments, m.wal.segments[i].path) {
      BytesOfMember(m.wal.segments, i);
    }
  }

  // ----- what a collection keeps -----

  /** A collection keeps a segment that is not active exactly when it is no older than the TTL and it
      and everything after it fit the byte cap. */
  lemma KeptIff(w: Wal, log: seq<Entry>, opts: Options, now: int, i: nat)
    requires Layout(w, log) && Aged(w.segments, now) && i < |w.segments| - 1
    ensures w.segments[i] in Collect(w, opts, now).segments <==>
      now - w.segments[i].createdAt <= opts.ttl && TotalBytes(w.segments[i..]) <= opts.maxBytes
  {
    hide Young, Fit, TotalBytes, Layout;
    ActiveIsLast(w, log);
    NotEmpty(w, log);
    var kept := Fit(Young(w.segments, now, opts.ttl), opts.maxBytes);
    KeptSegments(w.segments, opts, now);
    KeptFrom(w.segments, kept, i);
    if i >= |w.segments| - |kept| {
      KeptFits(w.segments, kept, opts, now, i);
    } else {
      DroppedDoesNot(w.segments, opts, now, i);
    }
  }

  lemma KeptFits(segs: seq<Segment>, kept: seq<Segment>, opts: Options, now: int, i: nat)
    requires SuffixOf(kept, segs) && |segs| - |kept| <= i < |segs| - 1
    requires TotalBytes(kept) <= opts.maxBytes || |kept| == 1
    requires forall j | 0 <= j < |kept| - 1 :: !Expired(kept[j], now, opts.ttl)
    ensures now - segs[i].createdAt <= opts.ttl && TotalBytes(segs[i..]) <= opts.maxBytes
  {
    hide TotalBytes;
    var d := |segs| - |kept|;
    assert kept[i - d] == segs[i];
    TotalShrinks(segs, d, i);
  }

  lemma DroppedDoesNot(segs: seq<Segment>, opts: Options, now: int, i: nat)
    requires Aged(segs, now) && i < |segs| - |Fit(Young(segs, now, opts.ttl), opts.maxBytes)|
    ensures now - segs[i].createdAt > opts.ttl || TotalBytes(segs[i..]) > opts.maxBytes
  {
    hide Young, Fit, TotalBytes, Aged, ExpiredFirst;
    var young := Young(segs, now, opts.ttl);
    AgedExpiredFirst(segs, now, opts.ttl);
    YoungIsSuffixIff(segs, now, opts.ttl);
    FitIsLongestFitting(young, opts.maxBytes);
    var y := |segs| - |young|;
    if i >= y {
      assert young[i - y..] == segs[i..];
    } else {
      YoungDropsExpired(segs, now, opts.ttl, i);
    }
  }

  lemma KeptFrom(segs: seq<Segment>, kept: seq<Segment>, i: nat)
    requires DistinctPaths(segs) && SuffixOf(kept, segs) && i < |segs|
    ensures segs[i] in kept <==> i >= |segs| - |kept|
  {
    var d := |segs| - |kept|;
    if i >= d { assert kept[i - d] == segs[i]; }
    if segs[i] in kept {
      var j :| 0 <= j < |kept| && kept[j] == segs[i];
      assert kept[j] == segs[d + j];
    }
  }

  lemma {:induction false} TotalShrinks(segs: seq<Segment>, d: nat, i: nat)
    requires d <= i <= |segs|
    ensures TotalBytes(segs[i..]) <= TotalBytes(segs[d..])
    decreases i - d
  {
    if d < i {
      TotalShrinks(segs, d + 1, i);
      assert segs[d..][1..] == segs[d + 1..];
    }
  }

  /** When what is young is a suffix, what is before it is expired. */
  lemma YoungDropsExpired(segs: seq<Segment>, now: int, ttl: int, i: nat)
    requires SuffixOf(Young(segs, now, ttl), segs) && i < |segs| - |Young(segs, now, ttl)| && ExpiredFirst(segs, now, ttl)
    ensures now - segs[i].createdAt > ttl
  {
    hide Young;
    var young := Young(segs, now, ttl);
    if !Expired(segs[i], now, ttl) {
      YoungAtLeast(segs, i, now, ttl);
      YoungFrom(segs, i, now, ttl);
    }
  }

  /** From an unexpired segment on nothing is expired, so all of it is young. */
  lemma YoungFrom(segs: seq<Segment>, i: nat, now: int, ttl: int)
    requires i < |segs| && ExpiredFirst(segs, now, ttl) && !Expired(segs[i], now, ttl)
    ensures |Young(segs[i..], now, ttl)| == |segs| - i
  {
    var tail := segs[i..];
    forall j | 0 <= j < |tail| - 1 ensures !Expired(tail[j], now, ttl) {
      assert tail[j] == segs[i + j];
    }
    YoungKeepsAll(tail, now, ttl);
  }
}
