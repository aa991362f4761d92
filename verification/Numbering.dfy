// How broadcast numbers are assigned when appends succeed and fail
// (internal/aggregator/aggregator.go, emitEnvelope; envwal.go, Append).
module Numbering {
  import opened Prelude
  import opened Envelopes
  import opened WalSpec
  import Resume

  /** What an append came to: stored; failed after its number was assigned; or refused before. */
  datatype Outcome = Stored | Burnt | Refused

  /** The log's counter and the live counter. */
  datatype Counters = Counters(walNum: nat, liveNum: nat)

  function Next(c: Counters, o: Outcome): Counters {
    match o
    case Stored => Counters(c.walNum + 1, c.walNum + 1)
    case Burnt => Counters(c.walNum + 1, c.liveNum + 1)
    case Refused => Counters(c.walNum, c.liveNum + 1)
  }

  /** The numbers broadcast; each is the live counter right after its emit. */
  function Numbers(c: Counters, os: seq<Outcome>): (nums: seq<nat>)
    ensures |nums| == |os|
    decreases |os|
  {
    if os == [] then [] else [Next(c, os[0]).liveNum] + Numbers(Next(c, os[0]), os[1..])
  }

  /** Both counters after the outcomes. */
  function Final(c: Counters, os: seq<Outcome>): Counters
    decreases |os|
  {
    if os == [] then c else Final(Next(c, os[0]), os[1..])
  }

  lemma {:induction false} NumbersSnoc(c: Counters, os: seq<Outcome>, o: Outcome)
    ensures Final(c, os + [o]) == Next(Final(c, os), o)
    ensures Numbers(c, os + [o]) == Numbers(c, os) + [Next(Final(c, os), o).liveNum]
    decreases |os|
  {
    if os == [] {
      assert [o][1..] == [];
    } else {
      NumbersSnoc(Next(c, os[0]), os[1..], o);
      assert (os + [o])[1..] == os[1..] + [o];
    }
  }

  ghost predicate IncreasingFrom(last: nat, nums: seq<nat>)
    decreases |nums|
  {
    nums == [] || (last < nums[0] && IncreasingFrom(nums[0], nums[1..]))
  }

  lemma {:induction false} IncreasingPairs(last: nat, nums: seq<nat>)
    ensures IncreasingFrom(last, nums) <==>
      (forall i | 0 <= i < |nums| :: last < nums[i]) && forall i, j | 0 <= i < j < |nums| :: nums[i] < nums[j]
    decreases |nums|
  {
    if nums != [] {
      IncreasingPairs(nums[0], nums[1..]);
      assert forall i | 0 < i < |nums| :: nums[i] == nums[1..][i - 1];
    }
  }

  /** Read off the outcomes alone: up to the first stored append there are at most `slack`
      refusals, and after it no stored append follows a refusal. */
  ghost predicate Affordable(slack: int, os: seq<Outcome>)
    decreases |os|
  {
    os == [] ||
    match os[0]
    case Stored => slack >= 0 && forall i, j | 0 < i < j < |os| :: !(os[i].Refused? && os[j].Stored?)
    case Burnt => Affordable(slack, os[1..])
    case Refused => Affordable(slack - 1, os[1..])
  }

  lemma {:induction false} AffordableFromZero(os: seq<Outcome>)
    ensures Affordable(0, os) <==> forall i, j | 0 <= i < j < |os| :: !(os[i].Refused? && os[j].Stored?)
  {
    if os != [] {
      var rest := os[1..];
      assert forall i | 0 <= i < |rest| :: rest[i] == os[i + 1];
      match os[0]
      case Stored =>
      case Burnt =>
        AffordableFromZero(rest);
        assert (forall i, j | 0 <= i < j < |rest| :: !(rest[i].Refused? && rest[j].Stored?)) <==>
               (forall i, j | 0 <= i < j < |os| :: !(os[i].Refused? && os[j].Stored?)) by {
          forall i, j | 0 <= i < j < |os| && os[i].Refused? && os[j].Stored?
            ensures rest[i - 1].Refused? && rest[j - 1].Stored? { }
        }
      case Refused =>
        AffordableOverdrawn(-1, rest);
        assert (exists j :: 0 <= j < |rest| && rest[j].Stored?) ==> exists j :: 0 < j < |os| && os[j].Stored? by {
          if j :| 0 <= j < |rest| && rest[j].Stored? { assert os[j + 1].Stored?; }
        }
        if Affordable(-1, rest) {
          forall j | 0 < j < |os| ensures !os[j].Stored? { assert os[j] == rest[j - 1]; }
          NoneAfterRefusal(os);
        }
    }
  }

  lemma NoneAfterRefusal(os: seq<Outcome>)
    requires forall j | 0 < j < |os| :: !os[j].Stored?
    ensures forall i, j | 0 <= i < j < |os| :: !(os[i].Refused? && os[j].Stored?)
  {
  }

  lemma {:induction false} AffordableOverdrawn(slack: int, os: seq<Outcome>)
    requires slack < 0
    ensures Affordable(slack, os) <==> forall j | 0 <= j < |os| :: !os[j].Stored?
    decreases |os|
  {
    if os != [] {
      var rest := os[1..];
      assert forall j | 0 < j < |os| :: os[j] == rest[j - 1];
      if !os[0].Stored? { AffordableOverdrawn(if os[0].Refused? then slack - 1 else slack, rest); }
    }
  }

  /** Broadcast numbers strictly increase, from whatever was broadcast before, exactly when the
      run of outcomes is affordable for the lead the log's counter has over the live one. */
  lemma {:induction false} IncreasingIffAffordable(c: Counters, os: seq<Outcome>)
    ensures IncreasingFrom(c.liveNum, Numbers(c, os)) <==> Affordable(c.walNum - c.liveNum, os)
    decreases |os|
  {
    if os != [] {
      var c', rest := Next(c, os[0]), os[1..];
      IncreasingIffAffordable(c', rest);
      assert Numbers(c, os)[1..] == Numbers(c', rest);
      if os[0].Stored? {
        AffordableFromZero(rest);
        assert forall i | 0 < i < |os| :: os[i] == rest[i - 1];
        assert (forall i, j | 0 <= i < j < |rest| :: !(rest[i].Refused? && rest[j].Stored?)) <==>
               (forall i, j | 0 < i < j < |os| :: !(os[i].Refused? && os[j].Stored?)) by {
          forall i, j | 0 <= i < j < |rest| && rest[i].Refused? && rest[j].Stored?
            ensures os[i + 1].Refused? && os[j + 1].Stored? { }
        }
      }
    }
  }

  /** With no refusals the live counter never passes the log's, whatever else fails. */
  lemma {:induction false} LiveBehindLog(c: Counters, os: seq<Outcome>)
    requires c.liveNum <= c.walNum && forall i | 0 <= i < |os| :: !os[i].Refused?
    ensures IncreasingFrom(c.liveNum, Numbers(c, os))
    ensures forall i | 0 <= i < |os| :: Numbers(c, os)[i] <= c.walNum + i + 1
    ensures Final(c, os).liveNum <= Final(c, os).walNum
    decreases |os|
  {
    if os != [] {
      LiveBehindLog(Next(c, os[0]), os[1..]);
      var nums, rest := Numbers(c, os), Numbers(Next(c, os[0]), os[1..]);
      assert nums[1..] == rest;
      assert forall i | 0 < i < |os| :: nums[i] == rest[i - 1];
    }
  }

  /** Without any failure numbers are consecutive, so an edge emitted right after its trigger
      carries the trigger's number plus one. */
  lemma {:induction false} StoredAreConsecutive(c: Counters, os: seq<Outcome>)
    requires forall i | 0 <= i < |os| :: os[i].Stored?
    ensures forall i | 0 <= i < |os| :: Numbers(c, os)[i] == c.walNum + 1 + i
    decreases |os|
  {
    if os != [] {
      StoredAreConsecutive(Next(c, os[0]), os[1..]);
    }
  }

  // ----- the counters are those of the log and the writer -----

  function OutcomeOf(w: Wal, r: Appended): Outcome {
    if r.num.Ok? then Stored else if r.wal.lastNum == w.lastNum then Refused else Burnt
  }

  /** The writer's emit assigns numbers as above. */
  lemma EmitFollowsCounters(c: Resume.Config, s: Resume.State, agent: string, env: Envelope, size: nat, fault: Fault)
    requires s.inHand.None? && s.wal.segments != []
    ensures var s' := Resume.EmitStep(c, s, agent, env, size, fault);
      var o := OutcomeOf(s.wal, Append(s.wal, c.opts, agent, env, size, s.now, fault));
      && Counters(s'.wal.lastNum, s'.liveNum) == Next(Counters(s.wal.lastNum, s.liveNum), o)
      && s'.inHand == Some(Resume.Live(s'.liveNum, agent, env))
      && (o == Refused <==> fault == MarshalFault)
  {
  }

  /** A failed rotation is final: the log never stores another entry. */
  lemma FailedRotationIsFinal(w: Wal, opts: Options, agent: string, env: Envelope, size: nat, now: int, fault: Fault)
    requires w.segments != []
    ensures var r := Append(w, opts, agent, env, size, now, fault);
      && (!w.writable ==> !r.num.Ok? && r.stored == [] && !r.wal.writable)
      && (w.writable && r.stored != [] && r.num.Err? ==> !r.wal.writable)
  {
  }

  // ----- over every run of the resume protocol -----

  /** The next emit does something: no envelope is in hand. */
  predicate Emits(s: Resume.State, a: Resume.Action) {
    a.Emit? && s.inHand.None? && s.wal.segments != []
  }

  /** What the appends of a run came to. */
  function Outcomes(c: Resume.Config, s: Resume.State, acts: seq<Resume.Action>): seq<Outcome> {
    if acts == [] then []
    else
      var n := |acts| - 1;
      var before, a := Resume.Run(c, s, acts[..n]), acts[n];
      Outcomes(c, s, acts[..n]) +
      if Emits(before, a) then
        [OutcomeOf(before.wal, Append(before.wal, c.opts, a.agent, a.env, a.size, before.now, a.fault))]
      else []
  }

  /** The numbers the writer assigned in a run, each broadcast before the next is assigned. */
  function Assigned(c: Resume.Config, s: Resume.State, acts: seq<Resume.Action>): seq<nat> {
    if acts == [] then []
    else
      var n := |acts| - 1;
      var before := Resume.Run(c, s, acts[..n]);
      Assigned(c, s, acts[..n]) +
      if Emits(before, acts[n]) then [Resume.Step(c, before, acts[n]).liveNum] else []
  }

  lemma CountersStep(c: Resume.Config, s: Resume.State, a: Resume.Action)
    ensures var s' := Resume.Step(c, s, a);
      Counters(s'.wal.lastNum, s'.liveNum) ==
        if Emits(s, a) then Next(Counters(s.wal.lastNum, s.liveNum), OutcomeOf(s.wal, Append(s.wal, c.opts, a.agent, a.env, a.size, s.now, a.fault)))
        else Counters(s.wal.lastNum, s.liveNum)
  {
    hide Append, Collect;
    if Emits(s, a) {
      EmitFollowsCounters(c, s, a.agent, a.env, a.size, a.fault);
    } else if a.RunGC? {
      CollectKeepsCounter(s.wal, c.opts, s.now);
    }
  }

  lemma CollectKeepsCounter(w: Wal, opts: Options, now: int)
    ensures Collect(w, opts, now).lastNum == w.lastNum
  {
  }

  lemma EmptyRun(c: Counters)
    ensures Numbers(c, []) == [] && Final(c, []) == c
  {
  }

  /** Every run assigns numbers as its outcomes say. */
  lemma {:induction false} RunFollowsCounters(c: Resume.Config, s: Resume.State, acts: seq<Resume.Action>)
    ensures var from, s', os := Counters(s.wal.lastNum, s.liveNum), Resume.Run(c, s, acts), Outcomes(c, s, acts);
      Assigned(c, s, acts) == Numbers(from, os) && Counters(s'.wal.lastNum, s'.liveNum) == Final(from, os)
  {
    hide Resume.Step, Append, OutcomeOf, Numbers, Final;
    EmptyRun(Counters(s.wal.lastNum, s.liveNum));
    if acts != [] {
      var n := |acts| - 1;
      var a, before := acts[n], Resume.Run(c, s, acts[..n]);
      RunFollowsCounters(c, s, acts[..n]);
      CountersStep(c, before, a);
      if Emits(before, a) {
        var o := OutcomeOf(before.wal, Append(before.wal, c.opts, a.agent, a.env, a.size, before.now, a.fault));
        NumbersSnoc(Counters(s.wal.lastNum, s.liveNum), Outcomes(c, s, acts[..n]), o);
      } else {
        assert Outcomes(c, s, acts) == Outcomes(c, s, acts[..n]) && Assigned(c, s, acts) == Assigned(c, s, acts[..n]);
      }
    }
  }

  /** In every run the numbers a process assigns strictly increase exactly when the run's outcomes
      are affordable for what its log held at the start. */
  lemma RunIncreasesIff(c: Resume.Config, s: Resume.State, acts: seq<Resume.Action>)
    requires Resume.Init(s)
    ensures var nums := Assigned(c, s, acts);
      (forall i, j | 0 <= i < j < |nums| :: nums[i] < nums[j]) <==> Affordable(s.wal.lastNum, Outcomes(c, s, acts))
  {
    hide Resume.Run, Assigned, Outcomes, Numbers, Affordable;
    var from := Counters(s.wal.lastNum, s.liveNum);
    RunFollowsCounters(c, s, acts);
    IncreasingIffAffordable(from, Outcomes(c, s, acts));
    IncreasingPairs(0, Assigned(c, s, acts));
    NumbersPositive(from, Outcomes(c, s, acts));
  }

  lemma {:induction false} NumbersPositive(c: Counters, os: seq<Outcome>)
    ensures forall i | 0 <= i < |os| :: Numbers(c, os)[i] > 0
    decreases |os|
  {
    if os != [] {
      NumbersPositive(Next(c, os[0]), os[1..]);
      assert forall i | 0 < i < |os| :: Numbers(c, os)[i] == Numbers(Next(c, os[0]), os[1..])[i - 1];
    }
  }

  lemma {:induction false} NoneRefused(c: Resume.Config, s: Resume.State, acts: seq<Resume.Action>)
    requires forall a | a in acts && a.Emit? :: a.fault != MarshalFault
    ensures forall o | o in Outcomes(c, s, acts) :: !o.Refused?
  {
    hide Resume.Step;
    if acts != [] {
      var n := |acts| - 1;
      NoneRefused(c, s, acts[..n]);
      var a, before := acts[n], Resume.Run(c, s, acts[..n]);
      assert a in acts;
      if Emits(before, a) { EmitFollowsCounters(c, before, a.agent, a.env, a.size, a.fault); }
    }
  }

  /** In every run whose appends all get as far as the counter, whatever fails after that, the live
      counter stays at or below the log's and numbers strictly increase. */
  lemma LiveNeverPassesLog(c: Resume.Config, s: Resume.State, acts: seq<Resume.Action>)
    requires Resume.Init(s) && forall a | a in acts && a.Emit? :: a.fault != MarshalFault
    ensures Resume.Run(c, s, acts).liveNum <= Resume.Run(c, s, acts).wal.lastNum
    ensures var nums := Assigned(c, s, acts); forall i, j | 0 <= i < j < |nums| :: nums[i] < nums[j]
  {
    hide Resume.Run, Assigned, Outcomes, Numbers, Final;
    var from, os := Counters(s.wal.lastNum, s.liveNum), Outcomes(c, s, acts);
    NoneRefused(c, s, acts);
    assert forall i | 0 <= i < |os| :: os[i] in os;
    RunFollowsCounters(c, s, acts);
    LiveBehindLog(from, os);
    IncreasingPairs(0, Assigned(c, s, acts));
  }
}
