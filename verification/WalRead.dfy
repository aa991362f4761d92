// Reading the log from a cursor (envwal.go, ReadFrom): the views taken under the lock are found
// one by one afterwards, while appends, rotations and GC go on.
module WalRead {
  import opened Prelude
  import opened WalLog
  import opened WalSpec

  /** What the snapshot remembers of a segment. */
  datatype View = View(path: nat, end: nat)

  datatype ReadOutcome = ReadOutcome(entries: seq<Entry>, expired: bool)

  function ViewsOf(segs: seq<Segment>): (vs: seq<View>)
    ensures |vs| == |segs|
    ensures forall i | 0 <= i < |segs| :: vs[i] == View(segs[i].path, segs[i].end)
  {
    seq(|segs|, i requires 0 <= i < |segs| => View(segs[i].path, segs[i].end))
  }

  /** The cursor is older than the oldest retained segment. Cursor 0 means everything held. */
  predicate TooOld(cursor: nat, oldest: nat) {
    cursor > 0 && cursor + 1 < oldest
  }

  /** The entries of a file past the cursor. */
  function Beyond(file: seq<Entry>, cursor: nat): seq<Entry> {
    if file == [] then []
    else Beyond(file[..|file| - 1], cursor) +
         if file[|file| - 1].num > cursor then [file[|file| - 1]] else []
  }

  /** What reading the views yields when opening view i found `found[i]`: its contents by the
      time the end of file was reached, or nothing when the file was gone. */
  function ReadViews(views: seq<View>, found: seq<Option<seq<Entry>>>, cursor: nat): (r: ReadOutcome)
    requires |found| == |views|
  {
    if views == [] then ReadOutcome([], false)
    else
      var v := |views| - 1;
      var before := ReadViews(views[..v], found[..v], cursor);
      if views[v].end <= cursor then before
      else
        match found[v]
        case None => before.(expired := true)
        case Some(file) => before.(entries := before.entries + Beyond(file, cursor))
  }

  function ReadFrom(w: Wal, found: seq<Option<seq<Entry>>>, cursor: nat): (r: ReadOutcome)
    requires |found| == |w.segments|
  {
    if w.segments == [] then ReadOutcome([], false)
    else if TooOld(cursor, w.segments[0].start) then ReadOutcome([], true)
    else ReadViews(ViewsOf(w.segments), found, cursor)
  }

  /** The writes after a snapshot: the log only grows, above the snapshot's counter. */
  ghost predicate LaterLog(log: seq<Entry>, lastNum: nat, later: seq<Entry>) {
    && log <= later && Increasing(later)
    && forall e | e in later && e !in log :: e.num > lastNum
  }

  /** What opens during the replay can find: a sealed segment's file as it was, the then-active
      segment's file possibly longer, or no file. */
  ghost predicate OpenedLater(w: Wal, found: seq<Option<seq<Entry>>>, later: seq<Entry>)
    requires w.segments != []
  {
    && |found| == |w.segments|
    && forall i | 0 <= i < |found| && found[i].Some? ::
         var s, file := w.segments[i], found[i].value;
         && file == Window(later, s.path, FileEnd(file, s.path))
         && (if i < |found| - 1 then FileEnd(file, s.path) == s.end else FileEnd(file, s.path) >= s.end)
  }

  lemma {:induction false} BeyondWindow(file: seq<Entry>, log: seq<Entry>, lo: int, hi: int, cursor: nat)
    requires file == Window(log, lo, hi)
    ensures Beyond(file, cursor) == Window(log, if lo <= cursor then cursor + 1 else lo, hi)
  {
    if log != [] {
      var init, e := log[..|log| - 1], log[|log| - 1];
      if lo <= e.num <= hi {
        assert file[..|file| - 1] == Window(init, lo, hi);
        BeyondWindow(file[..|file| - 1], init, lo, hi, cursor);
      } else {
        BeyondWindow(file, init, lo, hi, cursor);
      }
    }
  }

  lemma LaterClear(log: seq<Entry>, lastNum: nat, later: seq<Entry>, a: int, b: int)
    requires LaterLog(log, lastNum, later) && Clear(log, a, b) && b <= lastNum + 1
    ensures Clear(later, a, b)
  {
  }

  /** The first number a read from the cursor is after. */
  function Low(w: Wal, cursor: nat): nat
    requires w.segments != []
  {
    if cursor > 0 then cursor + 1 else w.segments[0].start
  }

  /** How far a read of the first k views reached. */
  function Reach(w: Wal, found: seq<Option<seq<Entry>>>, cursor: nat, k: nat): int
    requires k <= |w.segments| == |found| && w.segments != []
  {
    if k == 0 || w.segments[k - 1].end <= cursor || found[k - 1].None? then Low(w, cursor) - 1
    else FileEnd(found[k - 1].value, w.segments[k - 1].path)
  }

  lemma Glue(log: seq<Entry>, lo: int, mid: int, from: int, hi: int)
    requires Increasing(log) && lo <= mid + 1 && mid <= hi
    requires Clear(log, mid, from) && Clear(log, from - 1, mid + 1)
    ensures Window(log, lo, mid) + Window(log, from, hi) == Window(log, lo, hi)
  {
    WindowSplit(log, lo, mid, hi);
    WindowSame(log, from, hi, mid + 1, hi);
  }

  /** One more view: what it adds continues where the views before it stopped. */
  lemma ReadNext(w: Wal, log: seq<Entry>, later: seq<Entry>, found: seq<Option<seq<Entry>>>, cursor: nat, k: nat)
    requires Layout(w, log) && LaterLog(log, w.lastNum, later) && OpenedLater(w, found, later)
    requires !TooOld(cursor, w.segments[0].start) && k < |found|
    requires w.segments[k].end > cursor && found[k].Some?
    requires k > 0 && w.segments[k - 1].end > cursor ==> found[k - 1].Some?
    ensures Window(later, Low(w, cursor), Reach(w, found, cursor, k)) + Beyond(found[k].value, cursor)
         == Window(later, Low(w, cursor), Reach(w, found, cursor, k + 1))
  {
    hide Backed, FilesFromLog, ViewsOf, ReadViews;
    var s, file, mid := w.segments[k], found[k].value, Reach(w, found, cursor, k);
    var from, hi := if s.path <= cursor then cursor + 1 else s.path, FileEnd(file, s.path);
    BeyondWindow(file, later, s.path, hi, cursor);
    if k == 0 {
      LaterClear(log, w.lastNum, later, s.path - 1, s.start);
    } else {
      var prev := w.segments[k - 1];
      assert prev.end < s.path && Clear(log, prev.end, s.start);
      LaterClear(log, w.lastNum, later, prev.end, s.start);
    }
    Glue(later, Low(w, cursor), mid, from, hi);
  }

  lemma EndsIncrease(segs: seq<Segment>, log: seq<Entry>, k: nat)
    requires Tiled(segs, log) && 0 < k < |segs|
    ensures segs[k - 1].end < segs[k].path <= segs[k].end + 1
  {
  }

  lemma WindowEmptyAt(log: seq<Entry>, lo: int)
    ensures Window(log, lo, lo - 1) == []
  {
    WindowEmpty(log, lo, lo - 1);
  }

  lemma {:induction false} ReadPrefix(
    w: Wal, log: seq<Entry>, later: seq<Entry>, found: seq<Option<seq<Entry>>>, cursor: nat, k: nat)
    requires Layout(w, log) && LaterLog(log, w.lastNum, later) && OpenedLater(w, found, later)
    requires !TooOld(cursor, w.segments[0].start) && k <= |found| == |w.segments|
    requires !ReadViews(ViewsOf(w.segments)[..k], found[..k], cursor).expired
    ensures ReadViews(ViewsOf(w.segments)[..k], found[..k], cursor).entries
         == Window(later, Low(w, cursor), Reach(w, found, cursor, k))
    ensures k > 0 && w.segments[k - 1].end > cursor ==> found[k - 1].Some?
  {
    hide Tiled, Backed, FilesFromLog, LogBelow, LaterLog, OpenedLater;
    var views := ViewsOf(w.segments);
    if k == 0 {
      WindowEmptyAt(later, Low(w, cursor));
    } else {
      assert views[..k][..k - 1] == views[..k - 1] && found[..k][..k - 1] == found[..k - 1];
      ReadPrefix(w, log, later, found, cursor, k - 1);
      if w.segments[k - 1].end > cursor {
        ReadNext(w, log, later, found, cursor, k - 1);
      } else if k > 1 {
        EndsIncrease(w.segments, log, k - 1);
      }
    }
  }

  /** A read that reports no error handed over exactly the entries written with numbers from past
      the cursor (or from the oldest held, for cursor 0) up to a point that covers everything
      written when it took its snapshot, each once and in order. */
  lemma ReadIsWindow(w: Wal, log: seq<Entry>, later: seq<Entry>, found: seq<Option<seq<Entry>>>, cursor: nat)
    requires Layout(w, log) && LaterLog(log, w.lastNum, later) && OpenedLater(w, found, later)
    requires !ReadFrom(w, found, cursor).expired
    ensures var reach := Reach(w, found, cursor, |found|);
      && ReadFrom(w, found, cursor).entries == Window(later, Low(w, cursor), reach)
      && cursor <= reach && forall e | e in log :: e.num <= reach
  {
    var n := |found|;
    assert ViewsOf(w.segments)[..n] == ViewsOf(w.segments) && found[..n] == found;
    ReadPrefix(w, log, later, found, cursor, n);
    assert w.segments[n - 1] == Active(w);
  }

  lemma {:induction false} ReadViewsExpired(views: seq<View>, found: seq<Option<seq<Entry>>>, cursor: nat)
    requires |found| == |views|
    ensures ReadViews(views, found, cursor).expired
       <==> exists i :: 0 <= i < |views| && views[i].end > cursor && found[i].None?
  {
    if views != [] {
      var v := |views| - 1;
      ReadViewsExpired(views[..v], found[..v], cursor);
      assert forall i | 0 <= i < v :: views[..v][i] == views[i] && found[..v][i] == found[i];
    }
  }

  /** A read fails as expired exactly when the cursor is before the oldest segment or a segment
      it needed was gone; and whenever an entry past a nonzero cursor had been trimmed, it does. */
  lemma ReadFromExpiredIff(w: Wal, log: seq<Entry>, found: seq<Option<seq<Entry>>>, cursor: nat)
    requires Layout(w, log) && |found| == |w.segments|
    ensures ReadFrom(w, found, cursor).expired <==>
      || TooOld(cursor, w.segments[0].start)
      || exists i :: 0 <= i < |found| && w.segments[i].end > cursor && found[i].None?
    ensures cursor > 0 && (exists e :: e in log && e.num > cursor && e !in Contents(w.segments, w.dir))
      ==> ReadFrom(w, found, cursor).expired
  {
    var views := ViewsOf(w.segments);
    ReadViewsExpired(views, found, cursor);
    assert forall i | 0 <= i < |found| :: views[i].end == w.segments[i].end;
    RetainedIsSuffixOfLog(w, log);
    WindowMembers(log, w.segments[0].start, w.lastNum);
  }
}
