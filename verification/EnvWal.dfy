// The write-ahead log object (internal/aggregator/envwal/envwal.go): fields and segments updated
// in place, each method proved to compute the corresponding function of WalSpec and WalRead.
module EnvWal {
  import opened Prelude
  import opened Envelopes
  import opened WalLog
  import W = WalSpec
  import R = WalRead
  import L = WalReopen

  class Segment {
    const path: nat
    const start: nat
    var end: nat
    var bytes: nat
    const createdAt: int

    constructor (path: nat, start: nat, end: nat, bytes: nat, createdAt: int)
      ensures View() == W.Segment(path, start, end, bytes, createdAt)
    {
      this.path, this.start, this.end, this.bytes, this.createdAt := path, start, end, bytes, createdAt;
    }

    function View(): W.Segment
      reads this
    {
      W.Segment(path, start, end, bytes, createdAt)
    }
  }

  ghost function Views(segs: seq<Segment>): (vs: seq<W.Segment>)
    reads segs
    ensures |vs| == |segs|
    ensures forall i | 0 <= i < |segs| :: vs[i] == segs[i].View()
  {
    if segs == [] then [] else Views(segs[..|segs| - 1]) + [segs[|segs| - 1].View()]
  }

  /** The TTL pass. The kept segments are written over the front of the slice being read. */
  method Compact(segs: seq<Segment>, cur: Segment, linked: set<nat>, now: int, ttl: int)
    returns (kept: seq<Segment>, linked': set<nat>)
    requires segs != [] && cur == segs[|segs| - 1] && W.DistinctPaths(Views(segs))
    ensures W.Expiring(Views(segs), |segs|, Views(kept), linked, linked', now, ttl)
    ensures kept != [] && kept[|kept| - 1] == cur
  {
    hide Views, W.Paths, W.Young, W.Expiring, W.DistinctPaths;
    var slice, k := segs, 0;
    linked' := linked;
    ghost var vs, done := Views(segs), [];
    W.ExpiringStart(vs, linked, now, ttl);
    for i := 0 to |slice|
      invariant k <= i && |slice| == |segs|
      invariant forall j | i <= j < |segs| :: slice[j] == segs[j]
      invariant |done| == k && forall j | 0 <= j < k :: slice[j].View() == done[j]
      invariant W.Expiring(vs, i, done, linked, linked', now, ttl)
      invariant i == |segs| ==> k > 0 && slice[k - 1] == cur
    {
      var s := slice[i];
      assert s == segs[i] && s.View() == vs[i];
      assert i < |segs| - 1 ==> s != cur by { W.DistinctAt(vs, i, |segs| - 1); }
      W.ExpiringStep(vs, i, done, linked, linked', now, ttl);
      if s != cur && now - s.createdAt > ttl {
        linked' := linked' - {s.path};
      } else {
        slice, k, done := slice[k := s], k + 1, done + [vs[i]];
      }
    }
    kept := slice[..k];
    assert Views(kept) == done;
  }

  /** The byte cap: oldest segments go while the total exceeds it and more than one is left. */
  method TrimOldest(segs: seq<Segment>, cur: Segment, linked: set<nat>, total: int, maxBytes: int)
    returns (rest: seq<Segment>, linked': set<nat>, victims: nat)
    requires segs != [] && cur == segs[|segs| - 1] && W.DistinctPaths(Views(segs))
    requires total == W.TotalBytes(Views(segs))
    ensures W.Trimming(Views(segs), Views(rest), linked, linked', maxBytes)
    ensures |rest| == 1 || W.TotalBytes(Views(rest)) <= maxBytes
    ensures 1 <= |rest| && |segs| == |rest| + victims && rest == segs[victims..]
  {
    hide Views, W.TotalBytes, W.Trimming;
    var left := total;
    rest, linked', victims := segs, linked, 0;
    W.TrimmingStart(Views(segs), linked, maxBytes);
    while left > maxBytes && |rest| > 1
      invariant victims < |segs| && rest == segs[victims..]
      invariant W.Trimming(Views(segs), Views(rest), linked, linked', maxBytes)
      invariant left == W.TotalBytes(Views(rest))
      decreases |rest|
    {
      var victim := rest[0];
      assert victim != cur by { W.DistinctAt(Views(segs), victims, |segs| - 1); }
      if victim == cur {
        assert false;
        break;
      }
      W.TrimmingStep(Views(segs), Views(rest), linked, linked', maxBytes);
      assert Views(rest[1..]) == Views(rest)[1..];
      linked' := linked' - {victim.path};
      left := left - victim.bytes;
      rest := rest[1..];
      victims := victims + 1;
    }
  }

  method BuildSegments(loaded: seq<W.Segment>) returns (segs: seq<Segment>)
    ensures Views(segs) == loaded && fresh(segs)
  {
    segs := [];
    for i := 0 to |loaded|
      invariant |segs| == i && fresh(segs)
      invariant forall j | 0 <= j < i :: segs[j].View() == loaded[j]
    {
      var s := new Segment(loaded[i].path, loaded[i].start, loaded[i].end, loaded[i].bytes, loaded[i].createdAt);
      segs := segs + [s];
    }
  }

  function WithDefaults(opts: W.Options): W.Options {
    W.Options(
      if opts.maxBytes <= 0 then 0x8000_0000 else opts.maxBytes,
      if opts.segmentSize <= 0 then 0x200_0000 else opts.segmentSize,
      if opts.ttl <= 0 then TWO_HOURS else opts.ttl)
  }

  const TWO_HOURS := 2 * 60 * 60 * 1_000_000_000

  /** Options that are set stay; the others become 2 GiB, 32 MiB segments and two hours. */
  lemma DefaultsAre(opts: W.Options)
    ensures var r := WithDefaults(opts);
      && r.maxBytes > 0 && r.segmentSize > 0 && r.ttl > 0
      && (r.maxBytes == opts.maxBytes || (opts.maxBytes <= 0 && r.maxBytes == 2 * 1024 * 1024 * 1024))
      && (r.segmentSize == opts.segmentSize || (opts.segmentSize <= 0 && r.segmentSize == 32 * 1024 * 1024))
      && (r.ttl == opts.ttl || (opts.ttl <= 0 && r.ttl == 7200 * 1000 * 1000 * 1000))
  {
  }

  class Wal {
    const opts: W.Options
    var lastNum: nat
    var segments: seq<Segment>
    var cur: Segment
    var writable: bool
    var dir: W.Dir
    var overflowTrims: nat

    /** The active segment is last; names are distinct (so segments are), none past the next number. */
    ghost predicate Valid()
      reads this, segments
    {
      && segments != [] && cur == segments[|segments| - 1]
      && W.DistinctPaths(Views(segments))
      && (forall i | 0 <= i < |segments| :: segments[i].path <= lastNum + 1)
    }

    ghost function State(): W.Wal
      reads this, segments
    {
      W.Wal(lastNum, Views(segments), writable, dir, overflowTrims)
    }

    /** Opens a directory that a run left behind (w and log say which run); unset options take
        their defaults. The new log keeps exactly the entries still on disk. */
    constructor (opts: W.Options, dir: W.Dir, listing: seq<L.FileInfo>, now: int, ghost w: W.Wal, ghost log: seq<Entry>)
      requires W.Layout(w, log) && w.dir == dir && L.Lists(listing, dir)
      ensures Valid() && fresh(segments)
      ensures this.opts == WithDefaults(opts)
      ensures W.Layout(State(), W.Contents(w.segments, dir))
      ensures W.Contents(State().segments, State().dir) == W.Contents(w.segments, dir)
      ensures lastNum == FileEnd(W.Contents(w.segments, dir), 1)
      ensures W.Aged(State().segments, now) <==> L.OrderedTimes(dir, listing, now)
      ensures writable && W.Active(State()).bytes == 0 < this.opts.segmentSize && W.Active(State()).createdAt == now
    {
      hide L.OrderedTimes, W.Aged, Views, W.Layout, W.Contents, L.LoadedFrom, L.Mounted, L.LoadAll, L.Lists, FileEnd, L.SortedByStart, W.OpenSegment;
      this.opts := WithDefaults(opts);
      var loaded := L.Reload(dir, listing);
      var segs := BuildSegments(loaded);
      this.dir := L.Mounted(dir);
      lastNum := if segs == [] then 0 else segs[|segs| - 1].end;
      segments := segs;
      cur := new Segment(0, 0, 0, 0, 0);
      writable, overflowTrims := false, 0;
      new;
      assert State() == L.Reloaded(dir, loaded);
      L.ReloadedNames(w, log, listing, loaded);
      L.ReopenKeepsRetained(w, log, listing, loaded, now);
      L.ReopenedIsAgedIff(w, log, listing, loaded, now);
      hide L.Reloaded;
      var done := OpenSegment(now, true);
    }

    /** Opens the segment named after the next number and makes it the active one. */
    method OpenSegment(now: int, ok: bool) returns (done: bool)
      requires W.DistinctPaths(Views(segments))
      requires forall i | 0 <= i < |segments| :: segments[i].path <= lastNum
      modifies this
      ensures done == ok && lastNum == old(lastNum)
      ensures !ok ==> unchanged(this)
      ensures ok ==> Valid() && writable && fresh(cur) && segments == old(segments) + [cur]
      ensures ok ==> State() == W.OpenSegment(old(State()), now)
      ensures ok ==> cur.path == cur.start == lastNum + 1 && cur.end == lastNum && cur.bytes == 0 && cur.createdAt == now
    {
      hide Views;
      if !ok { return false; }
      var p := lastNum + 1;
      var content := if p in dir.linked then W.ContentOf(dir, p) else [];
      dir := W.Dir(dir.inodes[p := content], dir.linked + {p});
      cur := new Segment(p, p, lastNum, 0, now);
      segments := segments + [cur];
      writable := true;
      assert Views(segments) == Views(old(segments)) + [cur.View()];
      return true;
    }

    /** Appends one record to the active file and advances the segment's size and end. */
    method Write(e: Entry, size: nat)
      requires Valid()
      modifies this`dir, cur
      ensures Valid() && State() == W.Write(old(State()), e, size)
      ensures cur.bytes == old(cur.bytes) + size
    {
      hide Views;
      dir := dir.(inodes := dir.inodes[cur.path := W.ContentOf(dir, cur.path) + [e]]);
      cur.bytes := cur.bytes + size;
      cur.end := e.num;
      assert forall i | 0 <= i < |segments| - 1 :: Views(segments)[i].path != Views(segments)[|segments| - 1].path;
      assert Views(segments) == W.Write(old(State()), e, size).segments;
    }

    /** Closes the active file and opens the next one; on failure the log stays unwritable. */
    method Rotate(now: int, ok: bool) returns (done: bool)
      requires Valid() && forall i | 0 <= i < |segments| :: segments[i].path <= lastNum
      modifies this
      ensures done == ok && Valid()
      ensures if ok then fresh(cur) && segments == old(segments) + [cur] else segments == old(segments) && cur == old(cur)
      ensures State() == if ok then W.OpenSegment(old(State()).(writable := false), now)
                               else old(State()).(writable := false)
    {
      hide Views;
      writable := false;
      hide W.OpenSegment;
      done := OpenSegment(now, ok);
    }

    /** The part of Append after the number is assigned and the record encoded. */
    method Store(e: Entry, size: nat, now: int, rotateFails: bool) returns (num: Result<nat>)
      requires Valid() && e.num == lastNum && forall i | 0 <= i < |segments| :: segments[i].path <= lastNum
      modifies this, cur
      ensures Valid()
      ensures segments == old(segments) || (fresh(cur) && segments == old(segments) + [cur])
      ensures var r := W.Store(old(State()), opts, e, size, now, rotateFails); State() == r.wal && num == r.num
    {
      hide Views, W.DistinctPaths, W.Write, W.OpenSegment;
      Write(e, size);
      assert W.Active(State()).bytes == cur.bytes;
      if cur.bytes >= opts.segmentSize {
        var rotated := Rotate(now, !rotateFails);
        if !rotated { return Err; }
      }
      return Ok(e.num);
    }

    method Append(agent: string, env: Envelope, size: nat, now: int, fault: W.Fault) returns (num: Result<nat>)
      requires Valid()
      modifies this, cur
      ensures Valid()
      ensures segments == old(segments) || (fresh(cur) && segments == old(segments) + [cur])
      ensures var r := W.Append(old(State()), opts, agent, env, size, now, fault); State() == r.wal && num == r.num
    {
      hide Views, W.DistinctPaths, W.Store;
      if fault == W.MarshalFault { return Err; }
      lastNum := lastNum + 1;
      if !writable || fault == W.WriteFault { return Err; }
      num := Store(Entry(lastNum, agent, env, now), size, now, fault == W.RotateFault);
    }

    method ExpireOld(now: int)
      requires Valid()
      modifies this`segments, this`dir
      ensures Valid() && Views(segments) == W.Young(old(Views(segments)), now, opts.ttl)
      ensures dir == old(dir).(linked := old(dir).linked - (W.Paths(old(Views(segments))) - W.Paths(Views(segments))))
    {
      hide Views, W.Paths, W.Young, W.Expiring;
      ghost var vs := Views(segments);
      var kept, linked := Compact(segments, cur, dir.linked, now, opts.ttl);
      W.ExpiringDone(vs, Views(kept), dir.linked, linked, now, opts.ttl);
      W.YoungMembers(vs, now, opts.ttl);
      W.YoungDistinct(vs, now, opts.ttl);
      assert forall j | 0 <= j < |kept| :: Views(kept)[j] in vs;
      segments, dir := kept, dir.(linked := linked);
    }

    method TrimToCap()
      requires Valid()
      modifies this`segments, this`dir, this`overflowTrims
      ensures Valid() && Views(segments) == W.Fit(old(Views(segments)), opts.maxBytes)
      ensures dir == old(dir).(linked := old(dir).linked - (W.Paths(old(Views(segments))) - W.Paths(Views(segments))))
      ensures |segments| <= |old(segments)| && overflowTrims == old(overflowTrims) + |old(segments)| - |segments|
    {
      hide Views, W.Paths, W.TotalBytes, W.Trimming, W.Fit;
      ghost var vs := Views(segments);
      var total := Total();
      var rest, linked, victims := TrimOldest(segments, cur, dir.linked, total, opts.maxBytes);
      W.TrimmingDone(vs, Views(rest), dir.linked, linked, opts.maxBytes);
      segments, dir, overflowTrims := rest, dir.(linked := linked), overflowTrims + victims;
      assert Views(segments) == vs[|vs| - |rest|..];
    }

    method Total() returns (total: int)
      requires Valid()
      ensures total == W.TotalBytes(Views(segments))
    {
      hide Views;
      total := 0;
      ghost var vs := Views(segments);
      var i := |segments|;
      assert vs[|segments|..] == [];
      while i > 0
        invariant 0 <= i <= |segments| && total == W.TotalBytes(vs[i..])
      {
        i := i - 1;
        assert vs[i..][1..] == vs[i + 1..] && vs[i..][0] == segments[i].View();
        total := total + segments[i].bytes;
      }
      assert vs[0..] == vs;
    }

    method GC(now: int)
      requires Valid()
      modifies this
      ensures Valid() && State() == W.Collect(old(State()), opts, now)
    {
      hide Views, W.Paths, W.Young, W.Fit, W.DistinctPaths;
      ghost var before := State();
      ExpireOld(now);
      ghost var young := Views(segments);
      TrimToCap();
      W.UnlinkTwice(before.segments, young, Views(segments), before.dir.linked, now, opts);
    }

    /** Streams the entries past the cursor. The views are taken under the lock; found[i] is what
        opening view i meets afterwards. */
    method ReadFrom(cursor: nat, found: seq<Option<seq<Entry>>>) returns (entries: seq<Entry>, expired: bool)
      requires Valid() && |found| == |segments|
      ensures R.ReadOutcome(entries, expired) == R.ReadFrom(State(), found, cursor)
    {
      hide Views;
      entries, expired := [], false;
      if R.TooOld(cursor, segments[0].start) { return [], true; }
      ghost var views := R.ViewsOf(Views(segments));
      hide R.ViewsOf;
      var gap := false;
      for i := 0 to |segments|
        invariant R.ReadOutcome(entries, gap) == R.ReadViews(views[..i], found[..i], cursor)
      {
        assert views[..i + 1][..i] == views[..i] && found[..i + 1][..i] == found[..i];
        if segments[i].end <= cursor { continue; }
        if found[i].None? { gap := true; continue; }
        var file := found[i].value;
        ghost var before := entries;
        for j := 0 to |file|
          invariant entries == before + R.Beyond(file[..j], cursor)
        {
          assert file[..j + 1][..j] == file[..j];
          if file[j].num > cursor { entries := entries + [file[j]]; }
        }
        assert file[..|file|] == file;
      }
      assert views[..|segments|] == views && found[..|segments|] == found;
      expired := gap;
    }
  }
}
