// What a re-export subscriber receives, over every interleaving of the resume protocol.
module ResumeTheorems {
  import opened Prelude
  import opened Envelopes
  import opened WalLog
  import opened WalSpec
  import opened Resume
  import opened ResumeInv
  import opened ResumeReplay

  /** Where delivery should start: at the cursor, or at the registration without one. */
  function From(c: Config, s: State): int {
    if c.req.cursor.Some? then c.req.cursor.value else s.baseline
  }

  /** Everything a subscriber that started there should have been sent by now. */
  function Owed(c: Config, s: State): seq<Envelope> {
    Deliver(c.req, Window(s.log, From(c, s) + 1, s.wal.lastNum))
  }

  lemma CaughtUp(c: Config, s: State)
    requires LogBelow(s.log, s.wal.lastNum) && Clean(s) && WriterOk(s) && QueueOk(s) && LiveOk(c, s)
    requires s.phase == Tailing && s.queue == [] && s.inHand.None? && s.start <= s.baseline
    ensures s.sent == Deliver(c.req, Window(s.log, s.start + 1, s.wal.lastNum))
  {
    var es := Window(s.log, s.taken + 1, s.lastBroadcast);
    WindowMembers(s.log, s.taken + 1, s.lastBroadcast);
    assert es == [];
    WindowSame(s.log, s.start + 1, s.covered, s.start + 1, s.wal.lastNum);
  }

  lemma OwedFromInv(c: Config, s: State)
    requires Inv(c, s) && Clean(s) && !s.gap && From(c, s) <= s.baseline && c.req.cursor != Some(0)
    ensures s.sent <= Owed(c, s)
    ensures s.phase == Tailing && s.queue == [] && s.inHand.None? ==> s.sent == Owed(c, s)
  {
    hide WalOk, ChainOk, OrderOk, TailOk, WriterOk, QueueOk, Clear, Window, Deliver, LastSelected, Bound;
    LogOf(s);
    hide LogBelow, Increasing;
    if InReplay(s.phase) || s.phase == Tailing { DeliveredPrefix(c, s); }
    if s.phase == Tailing && s.queue == [] && s.inHand.None? { CaughtUp(c, s); }
    assert s.sent != [] ==> SentPrefix(c, s) && From(c, s) == s.start;
  }

  /** Resume from a cursor, or from now without one, is exact: as long as no append failed, nothing
      was dropped for this subscriber and no segment vanished under its replay, and its cursor is not
      past the last broadcast at registration, what it was sent is a prefix of what is owed; once the
      channel is drained and no broadcast is pending it is all of it. Cursor 0, which asks for
      whatever is held, is the subject of ResumeZero. */
  lemma SentIsPrefixOfOwed(c: Config, s0: State, acts: seq<Action>)
    requires Init(s0) && c.req.cursor != Some(0)
    ensures var s := Run(c, s0, acts);
      Clean(s) && !s.gap && From(c, s) <= s.baseline ==>
        && s.sent <= Owed(c, s)
        && (s.phase == Tailing && s.queue == [] && s.inHand.None? ==> s.sent == Owed(c, s))
  {
    hide Inv, Owed, Run;
    RunKeeps(c, s0, acts);
    var s := Run(c, s0, acts);
    if Clean(s) && !s.gap && From(c, s) <= s.baseline { OwedFromInv(c, s); }
  }

  /** Whatever fails, is dropped or vanishes, and whatever the cursor: numbers sent to a subscriber
      strictly increase. */
  lemma SentStrictlyIncreases(c: Config, s0: State, acts: seq<Action>)
    requires Init(s0)
    ensures var sent := Run(c, s0, acts).sent;
      forall i, j | 0 <= i < j < |sent| :: CursorNum(sent[i]) < CursorNum(sent[j])
  {
    hide Run, WalOk, ChainOk, StartOk, ReplayOk, TailOk, WriterOk, QueueOk, LiveOk, IdleOk, Init;
    RunKeeps(c, s0, acts);
  }

  /** The live tail is reached only with every selected entry from the start up to the snapshot
      sent, in order; a replay that missed a segment never gets there. The start is the cursor, the
      registration without one, and the oldest entry held at the snapshot for cursor 0. */
  lemma TailOnlyAfterFullReplay(c: Config, s0: State, acts: seq<Action>)
    requires Init(s0)
    ensures var s := Run(c, s0, acts);
      s.phase == Tailing ==>
        && !s.gap && Deliver(c.req, Window(s.log, s.start + 1, s.snapNum)) <= s.sent
        && (c.req.cursor != Some(0) ==> s.start == From(c, s))
  {
    hide Run, WalOk, ChainOk, OrderOk, ReplayOk, WriterOk, QueueOk, LiveOk, IdleOk, Init, Window, Deliver;
    RunKeeps(c, s0, acts);
  }
}
