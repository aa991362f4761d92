// The fleet of agent endpoints (internal/aggregator/aggregator.go, Run, reconcileFleet,
// startEndpoint): one run per endpoint, one loop per run and stream, and the merge channel that
// closes behind the last loop.
module Fleet {

  datatype Endpoint = Endpoint(name: string, addr: string)

  /** A started endpoint, with its context's cancellation. */
  datatype Run = Run(endpoint: Endpoint, cancelled: bool)

  function Names(eps: seq<Endpoint>): set<string> {
    set ep | ep in eps :: ep.name
  }

  ghost predicate DistinctNames(eps: seq<Endpoint>) {
    forall i, j | 0 <= i < j < |eps| :: eps[i].name != eps[j].name
  }

  /** The run is the one its name stands for. */
  predicate InFleet(active: map<string, nat>, runs: seq<Run>, r: nat)
    requires r < |runs|
  {
    runs[r].endpoint.name in active && active[runs[r].endpoint.name] == r
  }

  /** Every name stands for a run of that name, and the uncancelled runs are those and the orphans. */
  ghost predicate Tied(active: map<string, nat>, runs: seq<Run>, orphans: set<nat>) {
    && (forall n | n in active :: active[n] < |runs| && runs[active[n]].endpoint.name == n)
    && (forall r | r in orphans :: r < |runs| && !InFleet(active, runs, r))
    && (forall r: nat | r < |runs| :: !runs[r].cancelled <==> InFleet(active, runs, r) || r in orphans)
  }

  /** The wait group counts the loops, and no uncancelled run lacks one of its loops. */
  ghost predicate Looping(runs: seq<Run>, loops: set<(nat, nat)>, streams: nat, wg: nat, done: bool) {
    && wg == |loops|
    && (forall l | l in loops :: l.0 < |runs| && l.1 < streams)
    && (!done ==> forall r: nat, s: nat | r < |runs| && s < streams && !runs[r].cancelled :: (r, s) in loops)
  }

  /** One loop per stream. */
  function LoopsOf(r: nat, streams: nat): set<(nat, nat)> {
    set s: nat | s < streams :: (r, s)
  }

  /** The run a name stood for. */
  ghost function Displaced(active: map<string, nat>, name: string): set<nat> {
    if name in active then {active[name]} else {}
  }

  /** The last endpoint of each name. */
  ghost predicate LastNamed(want: map<string, Endpoint>, eps: seq<Endpoint>) {
    want.Keys == Names(eps) && forall n | n in want :: IsLast(eps, n, want[n])
  }

  ghost predicate IsLast(eps: seq<Endpoint>, name: string, ep: Endpoint) {
    ep.name == name && exists i :: 0 <= i < |eps| && eps[i] == ep && forall j | i < j < |eps| :: eps[j].name != name
  }

  lemma LastNamedSnoc(want: map<string, Endpoint>, eps: seq<Endpoint>, ep: Endpoint)
    requires LastNamed(want, eps)
    ensures LastNamed(want[ep.name := ep], eps + [ep])
  {
    var all, want' := eps + [ep], want[ep.name := ep];
    NamesSnoc(eps, ep);
    assert all[|eps|] == ep && forall i | 0 <= i < |eps| :: all[i] == eps[i];
    forall n | n in want' ensures IsLast(all, n, want'[n]) {
      if n != ep.name {
        var i :| 0 <= i < |eps| && eps[i] == want[n] && forall j | i < j < |eps| :: eps[j].name != n;
        assert all[i] == want[n];
      }
    }
  }

  method Wanted(eps: seq<Endpoint>) returns (want: map<string, Endpoint>)
    ensures LastNamed(want, eps)
  {
    want := map[];
    assert LastNamed(want, []);
    assert eps[..0] == [];
    for k := 0 to |eps|
      invariant LastNamed(want, eps[..k])
    {
      hide LastNamed;
      assert eps[..k + 1] == eps[..k] + [eps[k]];
      LastNamedSnoc(want, eps[..k], eps[k]);
      want := want[eps[k].name := eps[k]];
    }
    assert eps[..|eps|] == eps;
  }

  lemma NamesSnoc(eps: seq<Endpoint>, ep: Endpoint)
    ensures Names(eps + [ep]) == Names(eps) + {ep.name}
  {
    assert forall e :: e in eps + [ep] <==> e in eps || e == ep;
  }

  /** Whether a run's name has left the wanted names. */
  ghost predicate Departed(active: map<string, nat>, runs: seq<Run>, names: set<string>, r: nat)
    requires r < |runs|
  {
    InFleet(active, runs, r) && runs[r].endpoint.name !in names
  }

  /** Runs after cancelling those whose names are gone. */
  ghost predicate Cancelled(active: map<string, nat>, runs: seq<Run>, runs': seq<Run>, names: set<string>) {
    && |runs'| == |runs|
    && forall r: nat | r < |runs| ::
      runs'[r] == if Departed(active, runs, names, r) then runs[r].(cancelled := true) else runs[r]
  }

  /** The names still wanted. */
  function Keep(active: map<string, nat>, names: set<string>): map<string, nat> {
    map n | n in active && n in names :: active[n]
  }

  lemma CancelStep(active: map<string, nat>, runs: seq<Run>, orphans: set<nat>, runs': seq<Run>, names: set<string>, name: string)
    requires Tied(active, runs, orphans) && Cancelled(active, runs, runs', names + {name}) && name in active && name !in names
    ensures active[name] < |runs'|
    ensures Cancelled(active, runs, runs'[active[name] := runs'[active[name]].(cancelled := true)], names)
    ensures Keep(active, names + {name}) - {name} == Keep(active, names)
  {
    var r' := active[name];
    assert r' < |runs| && Departed(active, runs, names, r');
    forall r: nat | r < |runs| && r != r' ensures Departed(active, runs, names, r) <==> Departed(active, runs, names + {name}, r) {
    }
  }

  /** The loop over the active map, in any order. */
  method CancelDeparted(active: map<string, nat>, runs: seq<Run>, want: map<string, Endpoint>, ghost orphans: set<nat>)
    returns (active': map<string, nat>, runs': seq<Run>)
    requires Tied(active, runs, orphans)
    ensures Tied(active', runs', orphans) && Cancelled(active, runs, runs', want.Keys)
    ensures active' == Keep(active, want.Keys)
  {
    active', runs' := active, runs;
    var todo := active.Keys;
    NothingCancelled(active, runs, want.Keys);
    while todo != {}
      invariant todo <= active.Keys
      invariant Cancelled(active, runs, runs', want.Keys + todo) && active' == Keep(active, want.Keys + todo)
      decreases |todo|
    {
      hide Cancelled, Tied, Keep;
      var name :| name in todo;
      if name !in want {
        assert want.Keys + todo == want.Keys + (todo - {name}) + {name};
        CancelStep(active, runs, orphans, runs', want.Keys + (todo - {name}), name);
        runs' := runs'[active[name] := runs'[active[name]].(cancelled := true)];
        active' := active' - {name};
      } else {
        assert want.Keys + todo == want.Keys + (todo - {name});
      }
      todo := todo - {name};
    }
    assert want.Keys + todo == want.Keys;
    CancelledTied(active, runs, orphans, active', runs', want);
  }

  lemma NothingCancelled(active: map<string, nat>, runs: seq<Run>, names: set<string>)
    ensures Cancelled(active, runs, runs, names + active.Keys) && Keep(active, names + active.Keys) == active
  {
  }

  lemma CancelledTied(active: map<string, nat>, runs: seq<Run>, orphans: set<nat>, active': map<string, nat>, runs': seq<Run>, want: map<string, Endpoint>)
    requires Tied(active, runs, orphans) && Cancelled(active, runs, runs', want.Keys)
    requires active' == Keep(active, want.Keys)
    ensures Tied(active', runs', orphans)
  {
    forall r: nat | r < |runs| ensures InFleet(active', runs', r) <==> InFleet(active, runs, r) && !Departed(active, runs, want.Keys, r) {
    }
  }

  class Fleet {
    const streams: seq<string>
    var active: map<string, nat>
    var runs: seq<Run>
    /** Loops that have not returned, as run and stream positions; and their wait group. */
    var loops: set<(nat, nat)>
    var wg: nat
    var done: bool
    var merged: bool
    /** Runs a later one of the same name displaced. */
    ghost var orphans: set<nat>

    ghost predicate Valid()
      reads this
    {
      && Tied(active, runs, orphans)
      && Looping(runs, loops, |streams|, wg, done)
      && (merged ==> loops == {})
    }

    constructor (streams: seq<string>)
      ensures Valid() && active == map[] && runs == [] && orphans == {} && !merged && !done
      ensures this.streams == if streams == [] then ["intent"] else streams
    {
      this.streams := if streams == [] then ["intent"] else streams;
      active, runs, loops, wg, done, merged, orphans := map[], [], {}, 0, false, false, {};
    }

    /** A new run with one loop per stream takes over the name. */
    method StartEndpoint(ep: Endpoint)
      requires Valid() && !merged
      modifies `active, `runs, `loops, `wg, `orphans
      ensures Valid()
      ensures runs == old(runs) + [Run(ep, false)] && active == old(active)[ep.name := |old(runs)|]
      ensures loops == old(loops) + LoopsOf(|old(runs)|, |streams|)
      ensures orphans == old(orphans) + Displaced(old(active), ep.name)
    {
      hide Tied, Looping, LoopsOf, Displaced;
      StartTied(active, runs, orphans, ep);
      orphans := orphans + Displaced(active, ep.name);
      var r := |runs|;
      LoopsBelow(runs, loops, |streams|, wg, done);
      active := active[ep.name := r];
      runs := runs + [Run(ep, false)];
      loops, wg := StartLoops(loops, wg, r, |streams|);
      StartLooping(old(runs), old(loops), |streams|, old(wg), done, ep, loops, wg);
    }

    /** The static endpoints. No run is orphaned exactly when their names are distinct. */
    method Seed(eps: seq<Endpoint>)
      requires Valid() && !merged && active == map[] && orphans == {}
      modifies `active, `runs, `loops, `wg, `orphans
      ensures Valid() && active.Keys == Names(eps)
      ensures orphans == {} <==> DistinctNames(eps)
    {
      hide Tied, Looping;
      for k := 0 to |eps|
        invariant Valid() && !merged && active.Keys == Names(eps[..k])
        invariant orphans == {} <==> DistinctNames(eps[..k])
      {
        assert eps[..k + 1] == eps[..k] + [eps[k]];
        NamesSnoc(eps[..k], eps[k]);
        DistinctSnoc(eps[..k], eps[k]);
        StartEndpoint(eps[k]);
      }
      assert eps[..|eps|] == eps;
    }

    /** One emission: the fleet becomes its names, endpoints already running keep their run, even
        under a changed address, and orphans stay. */
    method Reconcile(eps: seq<Endpoint>)
      requires Valid() && !merged
      modifies `active, `runs, `loops, `wg, `orphans
      ensures Valid() && active.Keys == Names(eps) && orphans == old(orphans)
      ensures forall n | n in old(active) && n in active :: active[n] == old(active)[n]
      ensures |runs| >= |old(runs)| && forall r: nat | r < |old(runs)| :: runs[r].endpoint == old(runs)[r].endpoint
      ensures forall n | n in active && n !in old(active) :: active[n] >= |old(runs)| && runs[active[n]].endpoint in eps
    {
      hide Tied, Looping, Grown;
      var want := Wanted(eps);
      active, runs := CancelDeparted(active, runs, want, orphans);
      CancelledLoops(old(active), old(runs), runs, want.Keys, loops, |streams|, wg, done);
      ghost var kept, were := active, runs;
      StartMissing(want, eps);
      GrownFacts(kept, were, active, runs, eps);
    }

    /** The loop over the wanted endpoints, in any order. */
    method StartMissing(want: map<string, Endpoint>, ghost eps: seq<Endpoint>)
      requires Valid() && !merged && LastNamed(want, eps)
      modifies `active, `runs, `loops, `wg, `orphans
      ensures Valid() && orphans == old(orphans) && active.Keys == old(active).Keys + want.Keys
      ensures Grown(old(active), old(runs), active, runs, eps)
    {
      hide Tied, Looping, Grown, LastNamed;
      WantedFacts(want, eps);
      var todo := want.Keys;
      NotGrown(active, runs, eps);
      while todo != {}
        invariant Valid() && !merged && orphans == old(orphans) && todo <= want.Keys
        invariant old(active).Keys + (want.Keys - todo) <= active.Keys <= old(active).Keys + want.Keys
        invariant Grown(old(active), old(runs), active, runs, eps)
        decreases |todo|
      {
        var name :| name in todo;
        todo := todo - {name};
        if name !in active {
          GrowStep(old(active), old(runs), active, runs, eps, want[name]);
          StartEndpoint(want[name]);
        }
      }
    }

    // ----- loops and shutdown -----

    /** The parent context ends. */
    method Cancel()
      requires Valid()
      modifies `done
      ensures Valid() && done
    {
      done := true;
    }

    /** A loop returns only once its context is cancelled. */
    method LoopReturns(r: nat, s: nat)
      requires Valid() && (r, s) in loops && r < |runs| && (runs[r].cancelled || done)
      modifies `loops, `wg
      ensures Valid() && loops == old(loops) - {(r, s)} && wg == old(wg) - 1
    {
      loops, wg := loops - {(r, s)}, wg - 1;
    }

    /** After the wait: the merge channel closes with no loop left to send on it. */
    method CloseMerge()
      requires Valid() && done && wg == 0
      modifies `merged
      ensures Valid() && merged && loops == {}
    {
      merged := true;
    }
  }

  method StartLoops(loops: set<(nat, nat)>, wg: nat, r: nat, streams: nat) returns (loops': set<(nat, nat)>, wg': nat)
    requires wg == |loops| && forall l | l in loops :: l.0 < r
    ensures wg' == |loops'| && loops' == loops + LoopsOf(r, streams)
  {
    loops', wg' := loops, wg;
    for i := 0 to streams
      invariant wg' == |loops'|
      invariant forall l :: l in loops' <==> l in loops || (l.0 == r && l.1 < i)
    {
      wg' := wg' + 1;
      loops' := loops' + {(r, i)};
    }
  }

  lemma StartTied(active: map<string, nat>, runs: seq<Run>, orphans: set<nat>, ep: Endpoint)
    requires Tied(active, runs, orphans)
    ensures Tied(active[ep.name := |runs|], runs + [Run(ep, false)],
                 orphans + Displaced(active, ep.name))
  {
    var active', runs' := active[ep.name := |runs|], runs + [Run(ep, false)];
    forall r: nat | r < |runs|
      ensures InFleet(active', runs', r) <==> InFleet(active, runs, r) && runs[r].endpoint.name != ep.name
    {
    }
  }

  lemma LoopsBelow(runs: seq<Run>, loops: set<(nat, nat)>, streams: nat, wg: nat, done: bool)
    requires Looping(runs, loops, streams, wg, done)
    ensures wg == |loops| && forall l | l in loops :: l.0 < |runs|
  {
  }

  lemma StartLooping(runs: seq<Run>, loops: set<(nat, nat)>, streams: nat, wg: nat, done: bool, ep: Endpoint,
                     loops': set<(nat, nat)>, wg': nat)
    requires Looping(runs, loops, streams, wg, done)
    requires wg' == |loops'| && loops' == loops + LoopsOf(|runs|, streams)
    ensures Looping(runs + [Run(ep, false)], loops', streams, wg', done)
  {
  }

  /** Names kept keep their run; runs are only added; added names stand for added runs. */
  ghost predicate Grown(active: map<string, nat>, runs: seq<Run>, active': map<string, nat>, runs': seq<Run>, eps: seq<Endpoint>) {
    && (forall n | n in active :: n in active' && active'[n] == active[n])
    && |runs| <= |runs'| && (forall r: nat | r < |runs| :: runs'[r] == runs[r])
    && (forall n | n in active' && n !in active :: |runs| <= active'[n] < |runs'| && runs'[active'[n]].endpoint in eps)
  }

  lemma NotGrown(active: map<string, nat>, runs: seq<Run>, eps: seq<Endpoint>)
    ensures Grown(active, runs, active, runs, eps)
  {
  }

  lemma GrowStep(active: map<string, nat>, runs: seq<Run>, active': map<string, nat>, runs': seq<Run>, eps: seq<Endpoint>, ep: Endpoint)
    requires Grown(active, runs, active', runs', eps) && ep.name !in active' && ep in eps
    ensures Grown(active, runs, active'[ep.name := |runs'|], runs' + [Run(ep, false)], eps)
  {
  }

  lemma GrownFacts(active: map<string, nat>, runs: seq<Run>, active': map<string, nat>, runs': seq<Run>, eps: seq<Endpoint>)
    requires Grown(active, runs, active', runs', eps)
    ensures forall n | n in active :: n in active' && active'[n] == active[n]
    ensures |runs| <= |runs'| && forall r: nat | r < |runs| :: runs'[r] == runs[r]
    ensures forall n | n in active' && n !in active :: |runs| <= active'[n] < |runs'| && runs'[active'[n]].endpoint in eps
  {
  }

  lemma DistinctSnoc(eps: seq<Endpoint>, ep: Endpoint)
    ensures DistinctNames(eps + [ep]) <==> DistinctNames(eps) && ep.name !in Names(eps)
  {
    var all := eps + [ep];
    assert forall i | 0 <= i < |eps| :: all[i] == eps[i];
    if DistinctNames(all) {
      assert forall i | 0 <= i < |eps| :: all[i].name != all[|eps|].name;
    } else {
      var i, j :| 0 <= i < j < |all| && all[i].name == all[j].name;
      if j == |eps| { assert eps[i] in eps; } else { assert eps[i].name == eps[j].name; }
    }
  }

  lemma WantedFacts(want: map<string, Endpoint>, eps: seq<Endpoint>)
    requires LastNamed(want, eps)
    ensures want.Keys == Names(eps) && forall n | n in want :: want[n].name == n && want[n] in eps
  {
  }

  lemma CancelledLoops(active: map<string, nat>, runs: seq<Run>, runs': seq<Run>, names: set<string>, loops: set<(nat, nat)>, streams: nat, wg: nat, done: bool)
    requires Cancelled(active, runs, runs', names) && Looping(runs, loops, streams, wg, done)
    ensures Looping(runs', loops, streams, wg, done)
  {
  }
}
