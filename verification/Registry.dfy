// The registry object (internal/aggregator/clusterpeers/registry.go): the two maps are updated by
// Observe, Remove and Stats; Join reads them with loops over maps in no particular order. Each
// method is proved against the registry's event history.
module Registry {
  import opened Prelude
  import opened Addresses
  import opened Indexes
  import opened Peers
  import opened PeersHistory

  /** Deletes the expired entries of one map, counting those left. */
  method SweepMap(m: map<string, Listener>, now: int) returns (m': map<string, Listener>, count: nat)
    ensures m' == LiveOf(m, now) && count == |m'|
  {
    m', count := m, 0;
    var todo := m.Keys;
    while todo != {}
      invariant todo <= m.Keys && count + |todo| == |m'|
      invariant m' == LiveOr(m, now, todo)
      decreases |todo|
    {
      var k :| k in todo;
      LiveOrStep(m, now, todo, k);
      hide LiveOr;
      todo := todo - {k};
      if !Unexpired(m[k], now) {
        m' := m' - {k};
      } else {
        count := count + 1;
      }
    }
    assert m' == LiveOf(m, now);
  }

  /** Half way through a sweep: entries not yet looked at, and unexpired ones. */
  ghost function LiveOr(m: map<string, Listener>, now: int, todo: set<string>): map<string, Listener> {
    map k | k in m && (k in todo || Unexpired(m[k], now)) :: m[k]
  }

  lemma LiveOrStep(m: map<string, Listener>, now: int, todo: set<string>, k: string)
    requires todo <= m.Keys && k in todo
    ensures k in LiveOr(m, now, todo)
    ensures LiveOr(m, now, todo - {k}) == if Unexpired(m[k], now) then LiveOr(m, now, todo) else LiveOr(m, now, todo) - {k}
    ensures |LiveOr(m, now, todo) - {k}| == |LiveOr(m, now, todo)| - 1
  {
    var r := LiveOr(m, now, todo);
    assert (r - {k}).Keys == r.Keys - {k};
  }

  /** The only unexpired entry of a map. */
  ghost predicate SoleIn(inner: map<string, Listener>, now: int, ident: string) {
    && ident in inner && Unexpired(inner[ident], now)
    && forall other | other in inner && Unexpired(inner[other], now) :: other == ident
  }

  /** The single unexpired entry when exactly one is left, in whatever order the map is walked. */
  method SoleLiveWild(inner: map<string, Listener>, now: int) returns (sole: Option<Listener>)
    ensures sole.Some? ==> exists ident :: SoleIn(inner, now, ident) && sole.value == inner[ident]
    ensures forall ident | SoleIn(inner, now, ident) :: sole == Some(inner[ident])
  {
    var found: Option<Listener>, live, todo := None, 0, inner.Keys;
    ghost var a, b := "", "";
    while todo != {}
      invariant todo <= inner.Keys
      invariant live == 0 ==> forall k | k in inner.Keys - todo :: !Unexpired(inner[k], now)
      invariant live >= 1 ==> a in inner.Keys - todo && Unexpired(inner[a], now)
      invariant live == 1 ==> found == Some(inner[a]) && forall k | k in inner.Keys - todo && k != a :: !Unexpired(inner[k], now)
      invariant live >= 2 ==> b in inner.Keys - todo && Unexpired(inner[b], now) && a != b
      decreases |todo|
    {
      var k :| k in todo;
      todo := todo - {k};
      if Unexpired(inner[k], now) {
        a, b := k, a;
        found := Some(inner[k]);
        live := live + 1;
      }
    }
    sole := if live == 1 then found else None;
    if live == 1 { assert SoleIn(inner, now, a); }
  }

  class Registry {
    var exact: map<string, Listener>
    var wild: map<string, map<string, Listener>>
    const ttl: int
    ghost var history: seq<Event>
    ghost var clock: int

    /** The maps are what the history leaves, under a clock that does not step back. */
    ghost predicate Valid()
      reads this
    {
      ttl > 0 && State() == Replay(history, ttl) && InOrder(history, clock)
    }

    function State(): Reg
      reads this
    {
      Reg(exact, wild)
    }

    constructor (ttl: int, now: int)
      ensures Valid() && history == [] && clock == now
      ensures this.ttl == if ttl <= 0 then 30_000_000_000 else ttl
    {
      this.ttl := if ttl <= 0 then 30_000_000_000 else ttl;
      exact, wild, history, clock := map[], map[], [], now;
    }

    ghost method Record(e: Event, now: int)
      requires ttl > 0 && clock <= now && InOrder(history, clock) && (Timed(e) ==> e.at == now)
      requires State() == Apply(Replay(history, ttl), e, ttl)
      modifies this`history, this`clock
      ensures Valid() && history == old(history) + [e] && clock == now
    {
      assert (history + [e])[..|history|] == history;
      history, clock := history + [e], now;
    }

    method Observe(l: Listener, now: int)
      requires Valid() && clock <= now
      modifies this
      ensures Valid() && history == old(history) + [Observed(l, now)] && clock == now
    {
      hide Replay, SplitHostPort;
      if l.addr != "" {
        var l' := l.(expires := now + ttl);
        if l.wildcard {
          var port := PortOf(l.port, l.addr);
          if port != "" {
            var key := ":" + port;
            var inner := if key in wild then wild[key] else map[];
            wild := wild[key := inner[PodIdent(l.namespace, l.pod) := l']];
          }
        } else {
          exact := exact[l.addr := l'];
        }
      }
      Record(Observed(l, now), now);
    }

    method Remove(l: Listener)
      requires Valid()
      modifies this
      ensures Valid() && history == old(history) + [Removed(l)] && clock == old(clock)
    {
      hide Replay, SplitHostPort, PodIdent, InOrder;
      if l.addr != "" {
        if l.wildcard {
          var port := PortOf(l.port, l.addr);
          if port != "" {
            var key := ":" + port;
            if key in wild {
              var inner := wild[key] - {PodIdent(l.namespace, l.pod)};
              assert |inner| == 0 <==> inner == map[];
              wild := if |inner| == 0 then wild - {key} else wild[key := inner];
            } else {
              assert Inner(State(), key) - {PodIdent(l.namespace, l.pod)} == map[];
              assert wild - {key} == wild;
            }
          }
        } else {
          exact := exact - {l.addr};
        }
      }
      Record(Removed(l), clock);
    }

    /** Sweeps both maps and reports how many entries are left in each. */
    method Stats(now: int) returns (exactCount: nat, wildCount: nat)
      requires Valid() && clock <= now
      modifies this
      ensures Valid() && history == old(history) + [Swept(now)] && clock == now
      ensures exactCount == |exact| && wildCount == |WildPairs(wild)|
    {
      hide Replay, InOrder;
      ghost var r := State();
      exact, exactCount := SweepMap(exact, now);
      wild, wildCount := SweepWild(wild, now);
      assert State() == Sweep(r, now);
      Record(Swept(now), now);
    }

    method FindExact(addr: string, now: int, res: Resolvers) returns (found: Option<Listener>)
      ensures found == LiveExact(Stored(State(), now), res, addr)
    {
      hide SplitHostPort;
      if addr !in exact { return None; }
      var l := exact[addr];
      if !Unexpired(l, now) || !StillOwns(res, l, addr) { return None; }
      return Some(l);
    }

    /** The port's sole live wildcard listener. */
    method FindSole(key: string, now: int) returns (found: Option<Listener>)
      ensures found == Sole(Stored(State(), now), key)
    {
      var inner := Inner(State(), key);
      found := SoleLiveWild(inner, now);
      SoleInIsSole(State(), key, now);
      ghost var src := Stored(State(), now);
      if ident :| SoleIn(inner, now, ident) {
        assert IsSole(src, key, ident);
        SoleUnique(src, key, ident);
      } else {
        assert forall ident :: !IsSole(src, key, ident);
      }
    }

    method FindWild(addr: string, now: int, res: Resolvers) returns (found: Option<Listener>)
      ensures found == LiveWild(Stored(State(), now), res, addr)
    {
      hide SplitHostPort, Sole, PodIdent, PodForIP;
      var hp := SplitHostPort(addr);
      if hp.None? || hp.value.port == "" { return None; }
      var key := ":" + hp.value.port;
      ghost var src := Stored(State(), now);
      if key !in wild || |wild[key]| == 0 {
        EmptyPort(State(), key, now);
        return None;
      }
      if HasLocator(res) {
        var pl := PodForIP(res.pods.value, hp.value.host);
        if pl.None? { return None; }
        var ident := PodIdent(pl.value.namespace, pl.value.pod);
        if ident in wild[key] && Unexpired(wild[key][ident], now) { return Some(wild[key][ident]); }
        var sole := FindSole(key, now);
        if sole.None? || sole.value.pod != pl.value.pod { return None; }
        return sole;
      }
      found := FindSole(key, now);
    }

    method FindVip(backends: seq<string>, svc: ServiceRef, now: int, res: Resolvers) returns (found: Option<Listener>)
      ensures found == ResolveVip(Stored(State(), now), res, backends, svc)
    {
      hide LiveExact, LiveWild;
      var live: seq<Listener> := [];
      ghost var src := Stored(State(), now);
      for n := 0 to |backends|
        invariant live == LiveBackends(src, res, backends[..n])
      {
        assert backends[..n + 1][..n] == backends[..n];
        var l := FindExact(backends[n], now, res);
        if l.None? { l := FindWild(backends[n], now, res); }
        if l.Some? { live := live + [l.value]; }
      }
      assert backends[..|backends|] == backends;
      if live == [] { return None; }
      var rep := live[0].(service := svc);
      if |live| == 1 { return Some(rep); }
      for i := 1 to |live|
        invariant forall j | 0 < j < i :: SameWorkload(live[j], live[0])
      {
        if live[i].process != rep.process || live[i].image != rep.image { return None; }
      }
      return Some(rep.(replicaAmbiguous := true, replicaCount := |live|));
    }

    /** Read-only; the answer is the one the events so far determine. */
    method Join(addr: string, now: int, res: Resolvers) returns (ans: Option<Answer>)
      requires Valid() && clock <= now
      ensures ans == JoinBy(Recorded(history, ttl, now), res, addr)
    {
      hide LiveExact, LiveWild, ResolvePodAddr, ResolveVIP, ResolveVip, InOrder, Replay;
      LaterClock(history, clock, now);
      JoinIsFunctionOfHistory(history, ttl, now, res, addr);
      var l := FindExact(addr, now, res);
      if l.Some? { return Some(Answer(l.value, Direct)); }
      if res.pods.Some? {
        var podAddr := ResolvePodAddr(res.pods.value, addr);
        if podAddr.Some? {
          l := FindExact(podAddr.value, now, res);
          if l.Some? { return Some(Answer(l.value, Endpointslice)); }
          l := FindWild(podAddr.value, now, res);
          if l.Some? { return Some(Answer(l.value, Endpointslice)); }
        }
      }
      if res.services.Some? {
        var vip := ResolveVIP(res.services.value, addr);
        if vip.Some? {
          l := FindVip(vip.value.backends, vip.value.service, now, res);
          if l.Some? { return Some(Answer(l.value, ServiceVip)); }
        }
      }
      l := FindWild(addr, now, res);
      return if l.Some? then Some(Answer(l.value, Wildcard)) else None;
    }
  }

  lemma LaterClock(h: seq<Event>, clock: int, now: int)
    requires InOrder(h, clock) && clock <= now
    ensures InOrder(h, now)
  {
  }

  lemma SoleInIsSole(r: Reg, key: string, now: int)
    ensures forall ident :: SoleIn(Inner(r, key), now, ident) <==> IsSole(Stored(r, now), key, ident)
  {
    forall ident ensures SoleIn(Inner(r, key), now, ident) <==> IsSole(Stored(r, now), key, ident) {
      assert forall other :: At(Stored(r, now), Wild(key, other)).Some? <==>
        other in Inner(r, key) && Unexpired(Inner(r, key)[other], now);
    }
  }

  lemma EmptyPort(r: Reg, key: string, now: int)
    requires Inner(r, key) == map[]
    ensures forall ident :: At(Stored(r, now), Wild(key, ident)).None?
    ensures Sole(Stored(r, now), key).None?
  {
  }

  ghost function WildPairs(wild: map<string, map<string, Listener>>): set<(string, string)> {
    set p, i | p in wild && i in wild[p] :: (p, i)
  }

  /** Half way through: the inner maps already looked at, swept, those left empty dropped. */
  ghost function SweptInners(wild: map<string, map<string, Listener>>, now: int, todo: set<string>): map<string, map<string, Listener>> {
    map p | p in wild && p !in todo && LiveOf(wild[p], now) != map[] :: LiveOf(wild[p], now)
  }

  lemma SweptInnersStep(wild: map<string, map<string, Listener>>, now: int, todo: set<string>, p: string)
    requires p in todo && p in wild
    ensures var r, inner := SweptInners(wild, now, todo), LiveOf(wild[p], now);
      && p !in r
      && SweptInners(wild, now, todo - {p}) == if inner == map[] then r else r[p := inner]
  {
    hide LiveOf;
  }

  /** Sweeps every inner map, dropping the ones left empty, and counts what is left. */
  method SweepWild(wild: map<string, map<string, Listener>>, now: int)
    returns (wild': map<string, map<string, Listener>>, count: nat)
    ensures wild' == map p | p in wild && LiveOf(wild[p], now) != map[] :: LiveOf(wild[p], now)
    ensures count == |WildPairs(wild')|
  {
    wild', count := map[], 0;
    var todo := wild.Keys;
    assert WildPairs(wild') == {};
    while todo != {}
      invariant todo <= wild.Keys && count == |WildPairs(wild')|
      invariant wild' == SweptInners(wild, now, todo)
      decreases |todo|
    {
      hide SweptInners, LiveOf, WildPairs;
      var p :| p in todo;
      SweptInnersStep(wild, now, todo, p);
      todo := todo - {p};
      var inner, n := SweepMap(wild[p], now);
      PairsAdd(wild', p, inner);
      count := count + n;
      if |inner| != 0 { wild' := wild'[p := inner]; }
    }
  }

  lemma PairsAdd(wild: map<string, map<string, Listener>>, p: string, inner: map<string, Listener>)
    requires p !in wild
    ensures |WildPairs(wild[p := inner])| == |WildPairs(wild)| + |inner|
  {
    var before, added := WildPairs(wild), set i | i in inner.Keys :: (p, i);
    PairsUnion(wild, p, inner, added);
    ImageSize(p, inner.Keys);
    hide WildPairs;
  }

  lemma PairsUnion(wild: map<string, map<string, Listener>>, p: string, inner: map<string, Listener>, added: set<(string, string)>)
    requires p !in wild && forall q :: q in added <==> q.0 == p && q.1 in inner
    ensures WildPairs(wild[p := inner]) == WildPairs(wild) + added && WildPairs(wild) !! added
  {
    var after := wild[p := inner];
    forall q ensures q in WildPairs(after) <==> q in WildPairs(wild) || q in added {
      assert q in WildPairs(after) <==> q.0 in after && q.1 in after[q.0];
      assert q in WildPairs(wild) <==> q.0 in wild && q.1 in wild[q.0];
    }
  }

  lemma {:induction false} ImageSize(p: string, s: set<string>)
    ensures |set i | i in s :: (p, i)| == |s|
  {
    var image := set i | i in s :: (p, i);
    if s != {} {
      var x :| x in s;
      ImageSize(p, s - {x});
      assert image == (set i | i in s - {x} :: (p, i)) + {(p, x)};
    }
  }
}
