// Logs of numbered entries, and the window of a log between two numbers.
// Used as the history that the write-ahead log's files are compared against.
module WalLog {
  import opened Envelopes

  /** One WAL record; `num` is the cluster-assigned sequence number. */
  datatype Entry = Entry(num: nat, agent: string, env: Envelope, ts: int)

  ghost predicate Increasing(log: seq<Entry>) {
    forall i, j | 0 <= i < j < |log| :: log[i].num < log[j].num
  }

  /** No entry of the log is numbered strictly between a and b. */
  ghost predicate Clear(log: seq<Entry>, a: int, b: int) {
    forall e | e in log :: !(a < e.num < b)
  }

  /** The entries numbered lo..hi, in log order. */
  function Window(log: seq<Entry>, lo: int, hi: int): (w: seq<Entry>) {
    if log == [] then []
    else
      var init, e := log[..|log| - 1], log[|log| - 1];
      if lo <= e.num <= hi then Window(init, lo, hi) + [e] else Window(init, lo, hi)
  }

  /** The number of the last entry of a file named p; p - 1 while it is empty. */
  function FileEnd(file: seq<Entry>, p: int): int {
    if file == [] then p - 1 else file[|file| - 1].num
  }

  lemma WindowAppend(log: seq<Entry>, e: Entry, lo: int, hi: int)
    ensures Window(log + [e], lo, hi)
         == Window(log, lo, hi) + if lo <= e.num <= hi then [e] else []
  {
    assert (log + [e])[..|log|] == log;
  }

  lemma {:induction false} WindowMembers(log: seq<Entry>, lo: int, hi: int)
    ensures forall e :: e in Window(log, lo, hi) <==> e in log && lo <= e.num <= hi
    ensures Increasing(log) ==> Increasing(Window(log, lo, hi))
  {
    if log != [] {
      var init, e := log[..|log| - 1], log[|log| - 1];
      WindowMembers(init, lo, hi);
      assert log == init + [e];
      if Increasing(log) { LastIsLargest(log); }
    }
  }

  lemma LastIsLargest(log: seq<Entry>)
    requires log != [] && Increasing(log)
    ensures forall e | e in log[..|log| - 1] :: e.num < log[|log| - 1].num
    ensures Increasing(log[..|log| - 1])
  {
  }

  /** Windows that select the same entries are the same window. */
  lemma {:induction false} WindowSame(log: seq<Entry>, lo: int, hi: int, lo': int, hi': int)
    requires forall e | e in log :: lo <= e.num <= hi <==> lo' <= e.num <= hi'
    ensures Window(log, lo, hi) == Window(log, lo', hi')
  {
    if log != [] {
      assert log[|log| - 1] in log;
      WindowSame(log[..|log| - 1], lo, hi, lo', hi');
    }
  }

  lemma WindowEmpty(log: seq<Entry>, lo: int, hi: int)
    requires Clear(log, lo - 1, hi + 1)
    ensures Window(log, lo, hi) == []
  {
    WindowMembers(log, lo, hi);
    if Window(log, lo, hi) != [] { assert Window(log, lo, hi)[0] in Window(log, lo, hi); }
  }

  /** Adjacent windows concatenate. */
  lemma {:induction false} WindowSplit(log: seq<Entry>, lo: int, mid: int, hi: int)
    requires Increasing(log)
    requires lo <= mid + 1 && mid <= hi
    ensures Window(log, lo, mid) + Window(log, mid + 1, hi) == Window(log, lo, hi)
  {
    if log != [] {
      var init, e := log[..|log| - 1], log[|log| - 1];
      WindowSplit(init, lo, mid, hi);
      if lo <= e.num <= mid {
        assert forall x | x in log :: x.num <= mid;
        WindowEmpty(log, mid + 1, hi);
        WindowEmpty(init, mid + 1, hi);
      }
    }
  }

  /** The next entry after everything up to mid extends the window by exactly itself. */
  lemma WindowExtend(log: seq<Entry>, lo: int, mid: int, e: Entry)
    requires Increasing(log) && e in log
    requires lo <= mid + 1 && mid < e.num && Clear(log, mid, e.num)
    ensures Window(log, lo, e.num) == Window(log, lo, mid) + [e]
  {
    WindowSplit(log, lo, mid, e.num);
    var w := Window(log, mid + 1, e.num);
    WindowMembers(log, mid + 1, e.num);
    assert forall x | x in w :: x.num == e.num;
    assert w[0] in w && w[|w| - 1] in w;
    assert w == [e];
  }

  /** Consecutive entries of a window have no log entry between them. */
  lemma WindowSteps(log: seq<Entry>, lo: int, hi: int, k: nat)
    requires Increasing(log)
    requires k <= |Window(log, lo, hi)|
    ensures var w := Window(log, lo, hi);
      Clear(log, if k == 0 then lo - 1 else w[k - 1].num, if k == |w| then hi + 1 else w[k].num)
  {
    var w := Window(log, lo, hi);
    WindowMembers(log, lo, hi);
    if k > 0 { assert w[k - 1] in w; }
    if k < |w| { assert w[k] in w; }
  }

  /** The entry at a position: in the log and range, after its predecessor, with none between. */
  lemma WindowAt(log: seq<Entry>, lo: int, hi: int, k: nat)
    requires Increasing(log) && k < |Window(log, lo, hi)|
    ensures var w := Window(log, lo, hi);
      && w[k] in log && lo <= w[k].num <= hi
      && (k > 0 ==> lo <= w[k - 1].num < w[k].num)
      && Clear(log, if k == 0 then lo - 1 else w[k - 1].num, w[k].num)
  {
    var w := Window(log, lo, hi);
    WindowMembers(log, lo, hi);
    WindowSteps(log, lo, hi, k);
    assert w[k] in w;
    if k > 0 { assert w[k - 1] in w; }
  }

  /** The rest of a nonempty window is the window past its first entry. */
  lemma WindowRest(log: seq<Entry>, lo: int, hi: int)
    requires Increasing(log) && Window(log, lo, hi) != []
    ensures var w := Window(log, lo, hi); w[1..] == Window(log, w[0].num + 1, hi)
  {
    var e := Window(log, lo, hi)[0];
    WindowAt(log, lo, hi, 0);
    WindowEmpty(log, lo, lo - 1);
    WindowExtend(log, lo, lo - 1, e);
    WindowSplit(log, lo, e.num, hi);
  }
}
