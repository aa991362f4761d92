// Runs of the resume protocol: composing them, and what they leave fixed.
module ResumeRuns {
  import opened WalLog
  import opened WalSpec
  import opened WalRead
  import opened Resume
  import opened ResumeInv
  import opened ResumeSteps
  import opened ResumeReplay

  lemma RunNone(c: Config, s: State)
    ensures Run(c, s, []) == s
  {
  }

  lemma RunSnoc(c: Config, s: State, acts: seq<Action>, a: Action)
    ensures Run(c, s, acts + [a]) == Step(c, Run(c, s, acts), a)
  {
    assert (acts + [a])[..|acts|] == acts;
  }

  lemma {:induction false} RunConcat(c: Config, s: State, a: seq<Action>, b: seq<Action>)
    ensures Run(c, s, a + b) == Run(c, Run(c, s, a), b)
  {
    if b == [] {
      assert a + b == a;
    } else {
      var n := |b| - 1;
      RunConcat(c, s, a, b[..n]);
      assert a + b == (a + b[..n]) + [b[n]];
      RunSnoc(c, s, a + b[..n], b[n]);
    }
  }

  lemma BaselineStep(c: Config, s: State, a: Action)
    ensures var s' := Step(c, s, a); s.phase != Idle ==> s'.phase != Idle && s'.baseline == s.baseline
  {
  }

  lemma {:induction false} BaselineFixed(c: Config, s: State, acts: seq<Action>)
    requires s.phase != Idle
    ensures Run(c, s, acts).phase != Idle && Run(c, s, acts).baseline == s.baseline
  {
    if acts != [] {
      BaselineFixed(c, s, acts[..|acts| - 1]);
      BaselineStep(c, Run(c, s, acts[..|acts| - 1]), acts[|acts| - 1]);
    }
  }

  lemma RunThree(c: Config, s: State, a: Action, b: Action, d: Action)
    ensures Run(c, s, [a, b, d]) == Step(c, Step(c, Step(c, s, a), b), d)
  {
    RunSnoc(c, s, [a, b], d);
    RunSnoc(c, s, [a], b);
    RunSnoc(c, s, [], a);
    assert [a, b] + [d] == [a, b, d] && [a] + [b] == [a, b] && [] + [a] == [a];
  }

  /** Where delivery starts is settled at the snapshot. */
  lemma StartStep(c: Config, s: State, a: Action)
    requires s.phase != Idle && s.phase != Registered
    ensures var s' := Step(c, s, a); s'.phase != Idle && s'.phase != Registered && s'.start == s.start
  {
  }

  lemma {:induction false} StartFixed(c: Config, s: State, acts: seq<Action>)
    requires s.phase != Idle && s.phase != Registered
    ensures var s' := Run(c, s, acts); s'.phase != Idle && s'.phase != Registered && s'.start == s.start
  {
    hide Step;
    if acts != [] {
      StartFixed(c, s, acts[..|acts| - 1]);
      StartStep(c, Run(c, s, acts[..|acts| - 1]), acts[|acts| - 1]);
    }
  }

  lemma LogStep(c: Config, s: State, a: Action)
    requires Inv(c, s)
    ensures var s' := Step(c, s, a);
      LaterLog(s.log, s.wal.lastNum, s'.log) && s.wal.lastNum <= s'.wal.lastNum && s.walErrors <= s'.walErrors
  {
    hide ChainOk, OrderOk, StartOk, ReplayOk, TailOk, WriterOk, QueueOk, LiveOk, IdleOk, Append, Collect, WalOk;
    LogOf(s);
    if a.Emit? && s.inHand.None? {
      EmitGrows(c, s, a.agent, a.env, a.size, a.fault);
      LogOf(EmitStep(c, s, a.agent, a.env, a.size, a.fault));
    } else if a.RunGC? {
      CollectCounter(s.wal, c.opts, s.now);
    }
  }

  lemma CollectCounter(w: Wal, opts: Options, now: int)
    ensures Collect(w, opts, now).lastNum == w.lastNum
  {
  }

  /** A run only adds to the log, above the counter it started from. */
  lemma {:induction false} LogRun(c: Config, s: State, acts: seq<Action>)
    requires Inv(c, s)
    ensures var s' := Run(c, s, acts);
      && Inv(c, s') && LaterLog(s.log, s.wal.lastNum, s'.log)
      && s.wal.lastNum <= s'.wal.lastNum && s.walErrors <= s'.walErrors
  {
    hide Inv, Step, LaterLog;
    if acts == [] {
      LogStep(c, s, Tick(0));
      NoTick(c, s);
    } else {
      var mid := Run(c, s, acts[..|acts| - 1]);
      LogRun(c, s, acts[..|acts| - 1]);
      StepKeeps(c, mid, acts[|acts| - 1]);
      LogStep(c, mid, acts[|acts| - 1]);
      LaterTransitive(s.log, s.wal.lastNum, mid.log, mid.wal.lastNum, Run(c, s, acts).log);
    }
  }

  lemma NoTick(c: Config, s: State)
    ensures Step(c, s, Tick(0)) == s
  {
  }

  lemma LaterTransitive(a: seq<Entry>, n: nat, b: seq<Entry>, m: nat, d: seq<Entry>)
    requires LaterLog(a, n, b) && LaterLog(b, m, d) && n <= m
    ensures LaterLog(a, n, d)
  {
  }
}
