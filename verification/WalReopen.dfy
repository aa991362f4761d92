// Reopening a log directory (envwal.go, Open and reload): the segments are rebuilt from the
// files' first and last entries, and numbering resumes after the largest stored number.
module WalReopen {
  import opened WalLog
  import opened WalSpec

  /** One directory listing row. */
  datatype FileInfo = FileInfo(path: nat, size: nat, modTime: int)

  function SegmentOf(info: FileInfo, file: seq<Entry>): Segment
    requires file != []
  {
    Segment(info.path, file[0].num, file[|file| - 1].num, info.size, info.modTime)
  }

  predicate LoadedRow(dir: Dir, info: FileInfo, s: Segment) {
    ContentOf(dir, info.path) != [] && s == SegmentOf(info, ContentOf(dir, info.path))
  }

  /** The segments of the nonempty files, in listing order. */
  function LoadAll(dir: Dir, listing: seq<FileInfo>): seq<Segment> {
    if listing == [] then []
    else
      var init, info := LoadAll(dir, listing[..|listing| - 1]), listing[|listing| - 1];
      var file := ContentOf(dir, info.path);
      if file == [] then init else init + [SegmentOf(info, file)]
  }

  ghost predicate SortedByStart(segs: seq<Segment>) {
    forall i, j | 0 <= i < j < |segs| :: segs[i].start <= segs[j].start
  }

  /** Every linked file listed once. */
  ghost predicate Lists(listing: seq<FileInfo>, dir: Dir) {
    && (forall i, j | 0 <= i < j < |listing| :: listing[i].path != listing[j].path)
    && (forall i | 0 <= i < |listing| :: listing[i].path in dir.linked)
    && (forall p | p in dir.linked :: exists i :: 0 <= i < |listing| && listing[i].path == p)
  }

  function InsertByStart(r: seq<Segment>, s: Segment): (r': seq<Segment>)
    ensures multiset(r') == multiset(r) + multiset{s}
  {
    if r == [] then [s]
    else
      var n := |r| - 1;
      assert r == r[..n] + [r[n]];
      if r[n].start <= s.start then r + [s] else InsertByStart(r[..n], s) + [r[n]]
  }

  lemma {:induction false} InsertSorted(r: seq<Segment>, s: Segment)
    requires SortedByStart(r)
    ensures SortedByStart(InsertByStart(r, s))
  {
    if r != [] && r[|r| - 1].start > s.start {
      var init, last := r[..|r| - 1], r[|r| - 1];
      InsertSorted(init, s);
      var r' := InsertByStart(init, s);
      forall i | 0 <= i < |r'| ensures r'[i].start <= last.start {
        assert r'[i] in multiset(r');
      }
    }
  }

  lemma {:induction false} InsertDistinct(r: seq<Segment>, s: Segment)
    requires DistinctPaths(r) && forall x | x in r :: x.path != s.path
    ensures DistinctPaths(InsertByStart(r, s))
  {
    if r != [] && r[|r| - 1].start > s.start {
      var init, last := r[..|r| - 1], r[|r| - 1];
      InsertDistinct(init, s);
      var r' := InsertByStart(init, s);
      forall i | 0 <= i < |r'| ensures r'[i].path != last.path {
        assert r'[i] in multiset(r');
        assert last in r;
      }
    }
  }

  /** The library sort, as an insertion sort. */
  method SortByStart(segs: seq<Segment>) returns (r: seq<Segment>)
    ensures multiset(r) == multiset(segs) && SortedByStart(r)
    ensures DistinctPaths(segs) ==> DistinctPaths(r)
  {
    r := [];
    for n := 0 to |segs|
      invariant multiset(r) == multiset(segs[..n]) && SortedByStart(r)
      invariant DistinctPaths(segs) ==> DistinctPaths(r)
    {
      assert segs[..n + 1] == segs[..n] + [segs[n]];
      InsertSorted(r, segs[n]);
      if DistinctPaths(segs) {
        forall x | x in r ensures x.path != segs[n].path {
          assert x in multiset(segs[..n]);
        }
        InsertDistinct(r, segs[n]);
      }
      r := InsertByStart(r, segs[n]);
    }
    assert segs[..|segs|] == segs;
  }

  /** Scans the listed files, remembering each nonempty one's first and last number, and orders
      the result by first number. */
  method Reload(dir: Dir, listing: seq<FileInfo>) returns (segs: seq<Segment>)
    ensures multiset(segs) == multiset(LoadAll(dir, listing)) && SortedByStart(segs)
    ensures Lists(listing, dir) ==> LoadedFrom(segs, dir, listing)
  {
    var found: seq<Segment> := [];
    for n := 0 to |listing|
      invariant found == LoadAll(dir, listing[..n])
    {
      var file := ContentOf(dir, listing[n].path);
      var start, end, first := 0, 0, true;
      for k := 0 to |file|
        invariant first == (k == 0)
        invariant k > 0 ==> start == file[0].num && end == file[k - 1].num
      {
        if first { start, first := file[k].num, false; }
        end := file[k].num;
      }
      if !first {
        found := found + [Segment(listing[n].path, start, end, listing[n].size, listing[n].modTime)];
      }
      assert listing[..n + 1][..n] == listing[..n];
    }
    assert listing[..|listing|] == listing;
    segs := SortByStart(found);
    if Lists(listing, dir) {
      LoadAllDistinct(dir, listing);
      forall s ensures s in segs <==> s in found { assert s in multiset(segs) <==> s in multiset(found); }
    }
  }

  lemma {:induction false} LoadAllMembers(dir: Dir, listing: seq<FileInfo>)
    ensures forall s | s in LoadAll(dir, listing) :: exists i :: 0 <= i < |listing| && LoadedRow(dir, listing[i], s)
    ensures forall i | 0 <= i < |listing| && ContentOf(dir, listing[i].path) != [] ::
      SegmentOf(listing[i], ContentOf(dir, listing[i].path)) in LoadAll(dir, listing)
  {
    if listing != [] {
      var n := |listing| - 1;
      var init := listing[..n];
      LoadAllMembers(dir, init);
      assert forall i | 0 <= i < n :: init[i] == listing[i];
    }
  }

  lemma {:induction false} LoadAllDistinct(dir: Dir, listing: seq<FileInfo>)
    requires forall i, j | 0 <= i < j < |listing| :: listing[i].path != listing[j].path
    ensures DistinctPaths(LoadAll(dir, listing))
  {
    if listing != [] {
      var n := |listing| - 1;
      var init := listing[..n];
      LoadAllDistinct(dir, init);
      LoadAllMembers(dir, init);
      var r0 := LoadAll(dir, init);
      forall i | 0 <= i < |r0| ensures r0[i].path != listing[n].path {
        assert r0[i] in r0;
        var k :| 0 <= k < n && LoadedRow(dir, init[k], r0[i]);
        assert init[k] == listing[k];
      }
      var r := LoadAll(dir, listing);
      assert |r| > |r0| ==> r[|r0|].path == listing[n].path;
      assert forall i | 0 <= i < |r0| :: r[i] == r0[i];
    }
  }

  /** The directory as a fresh process finds it: unlinked files are gone. */
  function Mounted(dir: Dir): Dir {
    Dir(map p | p in dir.linked && p in dir.inodes :: dir.inodes[p], dir.linked)
  }

  /** The log object right after reload, before the new active segment is opened. */
  function Reloaded(dir: Dir, segs: seq<Segment>): Wal {
    Wal(if segs == [] then 0 else segs[|segs| - 1].end, segs, false, Mounted(dir), 0)
  }

  ghost predicate LoadedFrom(segs: seq<Segment>, dir: Dir, listing: seq<FileInfo>) {
    && Lists(listing, dir)
    && (forall s :: s in segs <==> s in LoadAll(dir, listing))
    && DistinctPaths(segs) && SortedByStart(segs)
  }

  /** A nonempty linked file is one of the log's segments. */
  lemma NonemptyFile(w: Wal, log: seq<Entry>, p: nat) returns (i: nat)
    requires Layout(w, log) && p in w.dir.linked && ContentOf(w.dir, p) != []
    ensures i < |w.segments| && w.segments[i].path == p
    ensures var file := ContentOf(w.dir, p);
      && file == Window(log, p, w.segments[i].end)
      && p <= file[0].num <= file[|file| - 1].num == w.segments[i].end == FileEnd(file, p)
  {
    hide Tiled;
    assert p in Paths(w.segments);
    i :| 0 <= i < |w.segments| && w.segments[i].path == p;
    WindowMembers(log, p, w.segments[i].end);
    var file := ContentOf(w.dir, p);
    assert file[0] in file;
  }

  /** What reload knows of each segment it built. */
  ghost predicate Rebuilt(w: Wal, log: seq<Entry>, s: Segment, i: nat)
    requires i < |w.segments|
  {
    var file := ContentOf(w.dir, s.path);
    && s.path in w.dir.linked && s.path in w.dir.inodes && file != []
    && w.segments[i].path == s.path && w.segments[i].end == s.end
    && file == Window(log, s.path, s.end) && s.end == FileEnd(file, s.path)
    && s.path <= s.start <= s.end && s.start == file[0].num
  }

  lemma LoadedAt(w: Wal, log: seq<Entry>, listing: seq<FileInfo>, segs: seq<Segment>, k: nat) returns (i: nat)
    requires Layout(w, log) && LoadedFrom(segs, w.dir, listing) && k < |segs|
    ensures i < |w.segments| && Rebuilt(w, log, segs[k], i)
  {
    hide Layout, LoadAll, Window;
    assert segs[k] in segs;
    LoadAllMembers(w.dir, listing);
    var j :| 0 <= j < |listing| && LoadedRow(w.dir, listing[j], segs[k]);
    i := NonemptyFile(w, log, segs[k].path);
  }

  lemma LoadedHas(w: Wal, listing: seq<FileInfo>, segs: seq<Segment>, p: nat) returns (k: nat)
    requires LoadedFrom(segs, w.dir, listing) && p in w.dir.linked && ContentOf(w.dir, p) != []
    ensures k < |segs| && segs[k].path == p
  {
    hide LoadAll;
    LoadAllMembers(w.dir, listing);
    var j :| 0 <= j < |listing| && listing[j].path == p;
    var s := SegmentOf(listing[j], ContentOf(w.dir, p));
    assert s in LoadAll(w.dir, listing);
    assert s in segs;
    k :| 0 <= k < |segs| && segs[k] == s;
  }

  /** Rebuilt segments are in the order of the log's own. */
  lemma LoadedOrdered(w: Wal, log: seq<Entry>, listing: seq<FileInfo>, segs: seq<Segment>, i: nat, j: nat)
    requires Layout(w, log) && LoadedFrom(segs, w.dir, listing) && i < j < |segs|
    ensures segs[i].end < segs[j].path
  {
    var a := LoadedAt(w, log, listing, segs, i);
    var b := LoadedAt(w, log, listing, segs, j);
    hide Backed, FilesFromLog, LogBelow, LoadAll, Window, Lists;
    assert segs[i].start <= segs[j].start && segs[i].path != segs[j].path;
    assert forall i, j | 0 <= i < j < |w.segments| :: w.segments[i].end < w.segments[j].path;
  }

  lemma {:induction false} ContentsMember(segs: seq<Segment>, dir: Dir, e: Entry)
    ensures e in Contents(segs, dir) <==>
      exists i :: 0 <= i < |segs| && e in ContentOf(dir, segs[i].path)
  {
    if segs != [] {
      ContentsMember(segs[1..], dir, e);
      assert forall i | 0 < i < |segs| :: segs[1..][i - 1] == segs[i];
    }
  }

  /** Every retained entry lies within one of the rebuilt segments. */
  lemma EntryCovered(w: Wal, log: seq<Entry>, listing: seq<FileInfo>, segs: seq<Segment>, e: Entry) returns (k: nat)
    requires Layout(w, log) && LoadedFrom(segs, w.dir, listing) && e in Contents(w.segments, w.dir)
    ensures k < |segs| && segs[k].start <= e.num <= segs[k].end
  {
    ContentsMember(w.segments, w.dir, e);
    var i :| 0 <= i < |w.segments| && e in ContentOf(w.dir, w.segments[i].path);
    var p := w.segments[i].path;
    k := LoadedHas(w, listing, segs, p);
    var a := LoadedAt(w, log, listing, segs, k);
    hide Tiled, Backed, FilesFromLog, LoadAll;
    var file := ContentOf(w.dir, p);
    WindowMembers(log, p, segs[k].end);
    var m :| 0 <= m < |file| && file[m] == e;
  }

  ghost predicate Covered(segs: seq<Segment>, e: Entry) {
    exists k :: 0 <= k < |segs| && segs[k].start <= e.num <= segs[k].end
  }

  /** Ordered segments whose ranges hold every entry leave none between them. */
  lemma TiledFromCover(segs: seq<Segment>, log: seq<Entry>)
    requires forall i | 0 <= i < |segs| :: 1 <= segs[i].path <= segs[i].start <= segs[i].end
    requires forall i, j | 0 <= i < j < |segs| :: segs[i].end < segs[j].path
    requires forall e | e in log :: Covered(segs, e)
    ensures Tiled(segs, log)
    ensures forall e | e in log :: segs != [] && segs[0].start <= e.num <= segs[|segs| - 1].end
  {
    forall e | e in log ensures segs != [] && segs[0].start <= e.num <= segs[|segs| - 1].end {
      var k :| 0 <= k < |segs| && segs[k].start <= e.num <= segs[k].end;
      assert k > 0 ==> segs[0].end < segs[k].path;
      assert k < |segs| - 1 ==> segs[k].end < segs[|segs| - 1].path;
    }
    forall i, j | 0 <= i && j == i + 1 < |segs| ensures Clear(log, segs[i].end, segs[j].start) {
      forall e | e in log ensures !(segs[i].end < e.num < segs[j].start) {
        var k :| 0 <= k < |segs| && segs[k].start <= e.num <= segs[k].end;
        assert k < i ==> segs[k].end < segs[i].path;
        assert k > j ==> segs[j].end < segs[k].path;
      }
    }
  }

  lemma ReloadedTiled(w: Wal, log: seq<Entry>, listing: seq<FileInfo>, segs: seq<Segment>)
    requires Layout(w, log) && LoadedFrom(segs, w.dir, listing)
    ensures Tiled(segs, Contents(w.segments, w.dir))
    ensures segs == [] <==> Contents(w.segments, w.dir) == []
    ensures forall e | e in Contents(w.segments, w.dir) ::
      segs != [] && segs[0].start <= e.num <= segs[|segs| - 1].end
  {
    hide Tiled, Backed, FilesFromLog, LogBelow, LoadedFrom, Contents, Window;
    var kept := Contents(w.segments, w.dir);
    forall i | 0 <= i < |segs| ensures 1 <= segs[i].path <= segs[i].start <= segs[i].end {
      var a := LoadedAt(w, log, listing, segs, i);
      NamesPositive(w.segments, log, a);
    }
    forall i, j | 0 <= i < j < |segs| ensures segs[i].end < segs[j].path {
      LoadedOrdered(w, log, listing, segs, i, j);
    }
    forall e | e in kept ensures Covered(segs, e) {
      var k := EntryCovered(w, log, listing, segs, e);
    }
    TiledFromCover(segs, kept);
    if kept != [] { assert kept[0] in kept; }
    if segs != [] { ReloadedNonempty(w, log, listing, segs); }
  }

  lemma NamesPositive(segs: seq<Segment>, log: seq<Entry>, i: nat)
    requires Tiled(segs, log) && i < |segs|
    ensures segs[i].path >= 1
  {
  }

  lemma ReloadedNonempty(w: Wal, log: seq<Entry>, listing: seq<FileInfo>, segs: seq<Segment>)
    requires Layout(w, log) && LoadedFrom(segs, w.dir, listing) && segs != []
    ensures Contents(w.segments, w.dir) != []
    ensures exists e :: e in Contents(w.segments, w.dir) && e.num == segs[|segs| - 1].end
  {
    var k := |segs| - 1;
    var i := LoadedAt(w, log, listing, segs, k);
    var file := ContentOf(w.dir, segs[k].path);
    var e := file[|file| - 1];
    assert e in ContentOf(w.dir, w.segments[i].path);
    ContentsMember(w.segments, w.dir, e);
  }

  lemma ReloadedBacked(w: Wal, log: seq<Entry>, listing: seq<FileInfo>, segs: seq<Segment>)
    requires Layout(w, log) && LoadedFrom(segs, w.dir, listing)
    ensures Backed(segs, Mounted(w.dir))
  {
    var dir := Mounted(w.dir);
    hide Layout, LoadedFrom;
    forall i | 0 <= i < |segs|
      ensures segs[i].path in dir.linked && segs[i].path in dir.inodes
           && FileEnd(dir.inodes[segs[i].path], segs[i].path) == segs[i].end
    {
      var a := LoadedAt(w, log, listing, segs, i);
    }
    forall p | p in dir.linked && p in dir.inodes && p !in Paths(segs) ensures dir.inodes[p] == [] {
      if dir.inodes[p] != [] {
        var k := LoadedHas(w, listing, segs, p);
        assert false;
      }
    }
  }

  /** A file of retained entries is the same window of the retained log. */
  lemma ReloadedFiles(w: Wal, log: seq<Entry>)
    requires Layout(w, log)
    ensures FilesFromLog(Mounted(w.dir), Contents(w.segments, w.dir))
  {
    var dir, lo := Mounted(w.dir), w.segments[0].start;
    RetainedIsSuffixOfLog(w, log);
    forall p | p in dir.inodes
      ensures dir.inodes[p] == Window(Contents(w.segments, w.dir), p, FileEnd(dir.inodes[p], p))
    {
      var file := dir.inodes[p];
      var end := FileEnd(file, p);
      WindowOfWindow(log, lo, w.lastNum, p, end);
      if file == [] {
        WindowEmpty(log, if p > lo then p else lo, if end < w.lastNum then end else w.lastNum);
      } else {
        var i := NonemptyFile(w, log, p);
        FirstIsOldest(w, log, i);
        WindowSame(log, p, end, if p > lo then p else lo, if end < w.lastNum then end else w.lastNum);
      }
    }
  }

  lemma FirstIsOldest(w: Wal, log: seq<Entry>, i: nat)
    requires Layout(w, log) && i < |w.segments|
    ensures w.segments[i].end <= w.lastNum
    ensures i > 0 ==> w.segments[0].start <= w.segments[i].path
    ensures i == 0 ==> Clear(log, w.segments[0].path - 1, w.segments[0].start)
  {
    if i > 0 { assert w.segments[0].end < w.segments[i].path; }
    if i < |w.segments| - 1 { assert w.segments[i].end < w.segments[|w.segments| - 1].path; }
  }

  lemma {:induction false} WindowOfWindow(log: seq<Entry>, lo: int, hi: int, lo': int, hi': int)
    ensures Window(Window(log, lo, hi), lo', hi')
         == Window(log, if lo' > lo then lo' else lo, if hi' < hi then hi' else hi)
  {
    if log != [] {
      var init, e := log[..|log| - 1], log[|log| - 1];
      WindowOfWindow(init, lo, hi, lo', hi');
      if lo <= e.num <= hi { WindowAppend(Window(init, lo, hi), e, lo', hi'); }
    }
  }

  lemma ReloadedCounter(w: Wal, log: seq<Entry>, listing: seq<FileInfo>, segs: seq<Segment>)
    requires Layout(w, log) && LoadedFrom(segs, w.dir, listing)
    ensures var kept, r := Contents(w.segments, w.dir), Reloaded(w.dir, segs);
      && LogBelow(kept, r.lastNum) && r.lastNum == FileEnd(kept, 1) && r.lastNum <= w.lastNum
      && (segs != [] ==> Active(r).start <= Active(r).end)
  {
    var kept := Contents(w.segments, w.dir);
    RetainedIsSuffixOfLog(w, log);
    WindowMembers(log, w.segments[0].start, w.lastNum);
    ReloadedTiled(w, log, listing, segs);
    if segs != [] {
      var a := LoadedAt(w, log, listing, segs, |segs| - 1);
      ReloadedNonempty(w, log, listing, segs);
      hide Layout, LoadedFrom, Contents, Tiled;
      var e :| e in kept && e.num == segs[|segs| - 1].end;
      assert kept[|kept| - 1] in kept;
    }
  }

  lemma {:induction false} WindowAll(log: seq<Entry>, lo: int, hi: int)
    requires forall e | e in log :: lo <= e.num <= hi
    ensures Window(log, lo, hi) == log
  {
    if log != [] {
      assert log[|log| - 1] in log;
      WindowAll(log[..|log| - 1], lo, hi);
    }
  }

  lemma ReloadedNames(w: Wal, log: seq<Entry>, listing: seq<FileInfo>, segs: seq<Segment>)
    requires Layout(w, log) && LoadedFrom(segs, w.dir, listing)
    ensures DistinctPaths(segs)
    ensures forall i | 0 <= i < |segs| :: segs[i].path <= segs[|segs| - 1].end
  {
    ReloadedTiled(w, log, listing, segs);
    forall i | 0 <= i < |segs| ensures segs[i].path <= segs[|segs| - 1].end {
      var a := LoadedAt(w, log, listing, segs, i);
      if i < |segs| - 1 {
        var b := LoadedAt(w, log, listing, segs, |segs| - 1);
      }
    }
  }

  /** Reopening what a run left behind: the rebuilt log keeps the layout for exactly the entries
      still on disk and resumes at the largest stored number, or at zero when none is stored. */
  lemma ReopenKeepsRetained(w: Wal, log: seq<Entry>, listing: seq<FileInfo>, segs: seq<Segment>, now: int)
    requires Layout(w, log) && LoadedFrom(segs, w.dir, listing)
    ensures var kept := Contents(w.segments, w.dir);
      && Layout(OpenSegment(Reloaded(w.dir, segs), now), kept)
      && Contents(OpenSegment(Reloaded(w.dir, segs), now).segments, OpenSegment(Reloaded(w.dir, segs), now).dir) == kept
      && Reloaded(w.dir, segs).lastNum == FileEnd(kept, 1)
  {
    hide Tiled, Backed, FilesFromLog, LoadedFrom, Contents, Window;
    var kept, r := Contents(w.segments, w.dir), Reloaded(w.dir, segs);
    ReloadedTiled(w, log, listing, segs);
    ReloadedBacked(w, log, listing, segs);
    ReloadedFiles(w, log);
    ReloadedCounter(w, log, listing, segs);
    OpenSegmentKeepsLayout(r, kept, now);
    var w' := OpenSegment(r, now);
    RetainedIsSuffixOfLog(w', kept);
    assert segs != [] ==> w'.segments[0] == segs[0];
    WindowAll(kept, w'.segments[0].start, w'.lastNum);
  }

  /** Numbering goes on where it stopped exactly when the last assigned number is on disk; in any
      case the next number assigned is past every stored one. */
  lemma NumberingContinuesIff(w: Wal, log: seq<Entry>, listing: seq<FileInfo>, segs: seq<Segment>, now: int)
    requires Layout(w, log) && LoadedFrom(segs, w.dir, listing) && w.lastNum > 0
    ensures var kept := Contents(w.segments, w.dir);
      && (OpenSegment(Reloaded(w.dir, segs), now).lastNum == w.lastNum <==> exists e :: e in kept && e.num == w.lastNum)
      && (forall e | e in kept :: e.num < OpenSegment(Reloaded(w.dir, segs), now).lastNum + 1)
  {
    ReloadedCounter(w, log, listing, segs);
    var kept := Contents(w.segments, w.dir);
    hide Layout, LoadedFrom, Contents;
    if kept != [] { assert kept[|kept| - 1] in kept; }
  }

  /** Files with something in them were last modified in the order of their names, none after now. */
  ghost predicate OrderedTimes(dir: Dir, listing: seq<FileInfo>, now: int) {
    && (forall i | 0 <= i < |listing| && ContentOf(dir, listing[i].path) != [] :: listing[i].modTime <= now)
    && (forall i, j | 0 <= i < |listing| && 0 <= j < |listing| && listing[i].path < listing[j].path
          && ContentOf(dir, listing[i].path) != [] && ContentOf(dir, listing[j].path) != [] ::
          listing[i].modTime <= listing[j].modTime)
  }

  lemma RowOf(dir: Dir, listing: seq<FileInfo>, segs: seq<Segment>, k: nat) returns (i: nat)
    requires LoadedFrom(segs, dir, listing) && k < |segs|
    ensures i < |listing| && LoadedRow(dir, listing[i], segs[k])
  {
    LoadAllMembers(dir, listing);
    assert segs[k] in segs;
    i :| 0 <= i < |listing| && LoadedRow(dir, listing[i], segs[k]);
  }

  lemma SegmentFor(dir: Dir, listing: seq<FileInfo>, segs: seq<Segment>, i: nat) returns (k: nat)
    requires LoadedFrom(segs, dir, listing) && i < |listing| && ContentOf(dir, listing[i].path) != []
    ensures k < |segs| && LoadedRow(dir, listing[i], segs[k])
  {
    LoadAllMembers(dir, listing);
    var s := SegmentOf(listing[i], ContentOf(dir, listing[i].path));
    assert s in segs;
    k :| 0 <= k < |segs| && segs[k] == s;
  }

  /** Every rebuilt segment has the size and modification time of its listing row and the first and
      last number in its file, and every nonempty file listed has one. */
  lemma RebuiltFromRows(dir: Dir, listing: seq<FileInfo>, segs: seq<Segment>)
    requires LoadedFrom(segs, dir, listing)
    ensures forall k | 0 <= k < |segs| :: HasRow(dir, listing, segs[k])
    ensures forall i | 0 <= i < |listing| && ContentOf(dir, listing[i].path) != [] :: exists k :: 0 <= k < |segs| && FromRow(dir, listing[i], segs[k])
  {
    hide LoadedFrom, ContentOf;
    forall k | 0 <= k < |segs| ensures HasRow(dir, listing, segs[k]) {
      var i := RowOf(dir, listing, segs, k);
      assert FromRow(dir, listing[i], segs[k]);
    }
    forall i | 0 <= i < |listing| && ContentOf(dir, listing[i].path) != [] ensures exists k :: 0 <= k < |segs| && FromRow(dir, listing[i], segs[k]) {
      var k := SegmentFor(dir, listing, segs, i);
      assert FromRow(dir, listing[i], segs[k]);
    }
  }

  ghost predicate HasRow(dir: Dir, listing: seq<FileInfo>, s: Segment) {
    exists i :: 0 <= i < |listing| && FromRow(dir, listing[i], s)
  }

  ghost predicate FromRow(dir: Dir, row: FileInfo, s: Segment) {
    var file := ContentOf(dir, row.path);
    && s.path == row.path && s.bytes == row.size && s.createdAt == row.modTime
    && file != [] && s.start == file[0].num && s.end == file[|file| - 1].num
  }

  /** Segment ages are in order after a reopen exactly when the modification times they come from are. */
  lemma ReopenedIsAgedIff(w: Wal, log: seq<Entry>, listing: seq<FileInfo>, segs: seq<Segment>, now: int)
    requires Layout(w, log) && LoadedFrom(segs, w.dir, listing)
    ensures Aged(OpenSegment(Reloaded(w.dir, segs), now).segments, now) <==> OrderedTimes(w.dir, listing, now)
  {
    hide Layout, LoadedFrom, ContentOf;
    var all := OpenSegment(Reloaded(w.dir, segs), now).segments;
    assert forall k | 0 <= k < |segs| :: all[k] == segs[k];
    if OrderedTimes(w.dir, listing, now) {
      TimesToAges(w, log, listing, segs, now);
    }
    if Aged(all, now) {
      forall i | 0 <= i < |listing| && ContentOf(w.dir, listing[i].path) != [] ensures listing[i].modTime <= now {
        var k := SegmentFor(w.dir, listing, segs, i);
        assert all[k].createdAt <= now;
      }
      forall i, j | 0 <= i < |listing| && 0 <= j < |listing| && listing[i].path < listing[j].path
          && ContentOf(w.dir, listing[i].path) != [] && ContentOf(w.dir, listing[j].path) != []
        ensures listing[i].modTime <= listing[j].modTime
      {
        var k := SegmentFor(w.dir, listing, segs, i);
        var l := SegmentFor(w.dir, listing, segs, j);
        if l < k { PathsOrdered(w, log, listing, segs, l, k); }
        assert all[k].createdAt <= all[l].createdAt;
      }
    }
  }

  lemma PathsOrdered(w: Wal, log: seq<Entry>, listing: seq<FileInfo>, segs: seq<Segment>, i: nat, j: nat)
    requires Layout(w, log) && LoadedFrom(segs, w.dir, listing) && i < j < |segs|
    ensures segs[i].path < segs[j].path
  {
    LoadedOrdered(w, log, listing, segs, i, j);
    var a := LoadedAt(w, log, listing, segs, i);
  }

  lemma TimesToAges(w: Wal, log: seq<Entry>, listing: seq<FileInfo>, segs: seq<Segment>, now: int)
    requires Layout(w, log) && LoadedFrom(segs, w.dir, listing) && OrderedTimes(w.dir, listing, now)
    ensures forall k | 0 <= k < |segs| :: segs[k].createdAt <= now
    ensures forall k, l | 0 <= k < l < |segs| :: segs[k].createdAt <= segs[l].createdAt
  {
    hide Layout, LoadedFrom, ContentOf;
    forall k | 0 <= k < |segs| ensures segs[k].createdAt <= now {
      var i := RowOf(w.dir, listing, segs, k);
    }
    forall k, l | 0 <= k < l < |segs| ensures segs[k].createdAt <= segs[l].createdAt {
      var i := RowOf(w.dir, listing, segs, k);
      var j := RowOf(w.dir, listing, segs, l);
      PathsOrdered(w, log, listing, segs, k, l);
    }
  }
}
