// The registry refines its event history: what a join answers is a function of the events alone,
// and when reclamation runs makes no difference (registry.go, Observe, Remove, Stats, Join).
module PeersHistory {
  import opened Prelude
  import opened Peers

  function Apply(r: Reg, e: Event, ttl: int): Reg {
    match e
    case Observed(l, at) => Observe(r, l, at, ttl)
    case Removed(l) => Remove(r, l)
    case Swept(at) => Sweep(r, at)
  }

  const EmptyReg := Reg(map[], map[])

  /** The stored maps after a history. */
  function Replay(h: seq<Event>, ttl: int): Reg {
    if h == [] then EmptyReg else Apply(Replay(h[..|h| - 1], ttl), h[|h| - 1], ttl)
  }

  predicate Timed(e: Event) {
    e.Observed? || e.Swept?
  }

  /** A nondecreasing clock, read up to `now`. */
  ghost predicate InOrder(h: seq<Event>, now: int) {
    && (forall i | 0 <= i < |h| && Timed(h[i]) :: h[i].at <= now)
    && (forall i, j | 0 <= i < j < |h| && Timed(h[i]) && Timed(h[j]) :: h[i].at <= h[j].at)
  }

  // ----- one event, one key -----

  lemma ObserveLookup(r: Reg, l: Listener, now: int, ttl: int, k: Key)
    ensures Lookup(Observe(r, l, now, ttl), k)
         == if KeyOf(l) == Some(k) then Some(l.(expires := now + ttl)) else Lookup(r, k)
  {
    hide KeyOf;
  }

  lemma RemoveLookup(r: Reg, l: Listener, k: Key)
    ensures Lookup(Remove(r, l), k) == if KeyOf(l) == Some(k) then None else Lookup(r, k)
  {
    hide KeyOf;
    match KeyOf(l)
    case Some(Wild(portKey, ident)) =>
      var inner := Inner(r, portKey) - {ident};
      assert forall i | i in Inner(r, portKey) && i != ident :: i in inner;
    case _ =>
  }

  lemma SweepLookup(r: Reg, now: int, k: Key)
    ensures Lookup(Sweep(r, now), k)
         == if Lookup(r, k).Some? && Unexpired(Lookup(r, k).value, now) then Lookup(r, k) else None
  {
    match k
    case Exact(_) =>
    case Wild(portKey, ident) =>
      if portKey in r.wild && ident in r.wild[portKey] && Unexpired(r.wild[portKey][ident], now) {
        assert ident in LiveOf(r.wild[portKey], now);
      }
  }

  // ----- refinement -----

  /** What is stored under a key is its latest entry, or nothing where that has expired by `t`. */
  ghost predicate Agrees(stored: Option<Listener>, latest: Option<Listener>, t: int) {
    stored == latest || (stored.None? && latest.Some? && !Unexpired(latest.value, t))
  }

  lemma {:induction false} StoredAgreesWithLatest(h: seq<Event>, ttl: int, now: int, k: Key)
    requires InOrder(h, now)
    ensures Agrees(Lookup(Replay(h, ttl), k), Latest(h, ttl, k), now)
  {
    if h != [] {
      var n := |h| - 1;
      var init, e := h[..n], h[n];
      var t := if Timed(e) then e.at else now;
      assert InOrder(init, t) by {
        assert forall i | 0 <= i < n && Timed(h[i]) && Timed(h[n]) :: h[i].at <= h[n].at;
      }
      StoredAgreesWithLatest(init, ttl, t, k);
      var r := Replay(init, ttl);
      hide Lookup, KeyOf, Observe, Remove, Sweep, InOrder;
      match e
      case Observed(l, at) => ObserveLookup(r, l, at, ttl, k);
      case Removed(l) => RemoveLookup(r, l, k);
      case Swept(at) => SweepLookup(r, at, k);
    }
  }

  lemma StoredLivesAsRecorded(h: seq<Event>, ttl: int, now: int)
    requires InOrder(h, now)
    ensures SameLive(Stored(Replay(h, ttl), now), Recorded(h, ttl, now))
  {
    forall k ensures At(Stored(Replay(h, ttl), now), k) == At(Recorded(h, ttl, now), k) {
      StoredAgreesWithLatest(h, ttl, now, k);
      hide Replay, Latest, Lookup;
    }
  }

  /** Join after any history equals the join computed from the events alone. */
  lemma JoinIsFunctionOfHistory(h: seq<Event>, ttl: int, now: int, res: Resolvers, addr: string)
    requires InOrder(h, now)
    ensures JoinBy(Stored(Replay(h, ttl), now), res, addr) == JoinBy(Recorded(h, ttl, now), res, addr)
  {
    hide JoinBy, SameLive;
    StoredLivesAsRecorded(h, ttl, now);
    SameJoin(Stored(Replay(h, ttl), now), Recorded(h, ttl, now), res, addr);
  }

  // ----- sweeping is unobservable -----

  function WithoutSweeps(h: seq<Event>): seq<Event> {
    if h == [] then []
    else
      var rest := WithoutSweeps(h[..|h| - 1]);
      if h[|h| - 1].Swept? then rest else rest + [h[|h| - 1]]
  }

  lemma LatestSnoc(h: seq<Event>, e: Event, ttl: int, k: Key)
    ensures Latest(h + [e], ttl, k) ==
      match e
      case Observed(l, at) => if KeyOf(l) == Some(k) then Some(l.(expires := at + ttl)) else Latest(h, ttl, k)
      case Removed(l) => if KeyOf(l) == Some(k) then None else Latest(h, ttl, k)
      case Swept(_) => Latest(h, ttl, k)
  {
    hide KeyOf;
    assert (h + [e])[..|h|] == h;
  }

  lemma {:induction false} LatestIgnoresSweeps(h: seq<Event>, ttl: int, k: Key)
    ensures Latest(WithoutSweeps(h), ttl, k) == Latest(h, ttl, k)
  {
    hide Latest, KeyOf;
    if h != [] {
      var init, e := h[..|h| - 1], h[|h| - 1];
      LatestIgnoresSweeps(init, ttl, k);
      assert h == init + [e];
      LatestSnoc(init, e, ttl, k);
      LatestSnoc(WithoutSweeps(init), e, ttl, k);
    }
  }

  lemma {:induction false} SweepsOnlyRemove(h: seq<Event>, now: int)
    requires InOrder(h, now)
    ensures InOrder(WithoutSweeps(h), now)
    ensures forall e | e in WithoutSweeps(h) :: e in h
  {
    if h != [] {
      var n := |h| - 1;
      var init, e := h[..n], h[n];
      SweepsOnlyRemove(init, now);
      if !e.Swept? && Timed(e) {
        var w := WithoutSweeps(init);
        forall i | 0 <= i < |w| && Timed(w[i]) ensures w[i].at <= e.at {
          assert w[i] in init;
        }
      }
    }
  }

  /** Histories that differ only in when, and whether, the registry was swept answer every join
      the same way. */
  lemma SweepsAreUnobservable(h: seq<Event>, h': seq<Event>, ttl: int, now: int, res: Resolvers, addr: string)
    requires InOrder(h, now) && InOrder(h', now) && WithoutSweeps(h) == WithoutSweeps(h')
    ensures JoinBy(Stored(Replay(h, ttl), now), res, addr) == JoinBy(Stored(Replay(h', ttl), now), res, addr)
  {
    hide JoinBy, Replay, WithoutSweeps, Latest;
    JoinIsFunctionOfHistory(h, ttl, now, res, addr);
    JoinIsFunctionOfHistory(h', ttl, now, res, addr);
    forall k ensures At(Recorded(h, ttl, now), k) == At(Recorded(h', ttl, now), k) {
      LatestIgnoresSweeps(h, ttl, k);
      LatestIgnoresSweeps(h', ttl, k);
    }
    SameJoin(Recorded(h, ttl, now), Recorded(h', ttl, now), res, addr);
  }

  // ----- withdraw undoes advertise -----

  /** Withdrawing the key an advertise wrote leaves the registry without that key and otherwise as
      it was before; if the key was absent before, exactly as it was. */
  lemma RemoveUndoesObserve(r: Reg, l: Listener, w: Listener, now: int, ttl: int)
    requires KeyOf(l) == KeyOf(w) && NoEmptyInner(r)
    ensures Remove(Observe(r, l, now, ttl), w) == Remove(r, w)
    ensures KeyOf(l).None? || Lookup(r, KeyOf(l).value).None? ==> Remove(Observe(r, l, now, ttl), w) == r
  {
    hide KeyOf;
    match KeyOf(l)
    case None =>
    case Some(Exact(addr)) =>
      assert r.exact[addr := l.(expires := now + ttl)] - {addr} == r.exact - {addr};
      assert addr !in r.exact ==> r.exact - {addr} == r.exact;
    case Some(Wild(portKey, ident)) =>
      var l', inner := l.(expires := now + ttl), Inner(r, portKey);
      assert inner[ident := l'] - {ident} == inner - {ident};
      assert r.wild[portKey := inner[ident := l']] - {portKey} == r.wild - {portKey};
      assert ident !in inner ==> inner - {ident} == inner;
      if portKey in r.wild { assert inner != map[]; } else { assert r.wild - {portKey} == r.wild; }
      if ident !in inner && portKey in r.wild { assert r.wild[portKey := inner] == r.wild; }
  }

  lemma {:induction false} NoEmptyInnerKept(h: seq<Event>, ttl: int)
    ensures NoEmptyInner(Replay(h, ttl))
  {
    if h != [] {
      NoEmptyInnerKept(h[..|h| - 1], ttl);
      var r, e := Replay(h[..|h| - 1], ttl), h[|h| - 1];
      hide KeyOf;
      if e.Observed? && KeyOf(e.l).Some? && KeyOf(e.l).value.Wild? {
        assert KeyOf(e.l).value.ident in Inner(Observe(r, e.l, e.at, ttl), KeyOf(e.l).value.portKey);
      }
    }
  }

  // ----- residency -----

  /** The keys observed since a time. */
  function ObservedSince(h: seq<Event>, since: int): set<Key> {
    if h == [] then {}
    else
      var e := h[|h| - 1];
      ObservedSince(h[..|h| - 1], since) +
      if e.Observed? && e.at > since && KeyOf(e.l).Some? then {KeyOf(e.l).value} else {}
  }

  ghost predicate SweptSince(h: seq<Event>, since: int) {
    exists i :: 0 <= i < |h| && h[i].Swept? && h[i].at >= since
  }

  lemma SweptEarlier(h: seq<Event>, now: int, since: int)
    requires h != [] && InOrder(h, now) && SweptSince(h, since)
    ensures (h[|h| - 1].Swept? && h[|h| - 1].at >= since) || SweptSince(h[..|h| - 1], since)
    ensures h[|h| - 1].Observed? ==> h[|h| - 1].at >= since
  {
    var i :| 0 <= i < |h| && h[i].Swept? && h[i].at >= since;
    if i < |h| - 1 { assert h[..|h| - 1][i] == h[i]; }
  }

  /** What the registry stores was put there by an observation of that key, and outlived every
      sweep since. */
  lemma {:induction false} StoredWasObserved(h: seq<Event>, ttl: int, now: int, k: Key, since: int)
    requires InOrder(h, now) && ttl > 0 && Lookup(Replay(h, ttl), k).Some?
    ensures Lookup(Replay(h, ttl), k).value.expires - ttl > since ==> k in ObservedSince(h, since)
    ensures SweptSince(h, since) ==> Lookup(Replay(h, ttl), k).value.expires > since
  {
    if h != [] {
      var init, e, r := h[..|h| - 1], h[|h| - 1], Replay(h[..|h| - 1], ttl);
      if SweptSince(h, since) { SweptEarlier(h, now, since); }
      assert InOrder(init, now);
      hide KeyOf, Observe, Remove, Sweep, Lookup, InOrder, SweptSince;
      match e {
        case Observed(l, at) => ObserveLookup(r, l, at, ttl, k);
        case Removed(l) => RemoveLookup(r, l, k);
        case Swept(at) => SweepLookup(r, at, k);
      }
      if Lookup(r, k).Some? { StoredWasObserved(init, ttl, now, k, since); }
    }
  }

  /** All keys with a stored entry. */
  function StoredKeys(r: Reg): set<Key> {
    (set a | a in r.exact :: Exact(a)) + (set p, i | p in r.wild && i in r.wild[p] :: Wild(p, i))
  }

  /** With a sweep within the last TTL, everything stored was observed within the last two, so the
      number of stored entries is at most the number of distinct keys observed in that window. */
  lemma ResidencyIsBounded(h: seq<Event>, ttl: int, now: int)
    requires InOrder(h, now) && ttl > 0 && SweptSince(h, now - ttl)
    ensures StoredKeys(Replay(h, ttl)) <= ObservedSince(h, now - 2 * ttl)
    ensures |StoredKeys(Replay(h, ttl))| <= |ObservedSince(h, now - 2 * ttl)|
  {
    var stored, recent := StoredKeys(Replay(h, ttl)), ObservedSince(h, now - 2 * ttl);
    forall k | k in stored ensures k in recent {
      assert Lookup(Replay(h, ttl), k).Some?;
      StoredWasObserved(h, ttl, now, k, now - ttl);
      StoredWasObserved(h, ttl, now, k, now - 2 * ttl);
    }
    SubsetSize(stored, recent);
  }

  lemma SubsetSize<T>(a: set<T>, b: set<T>)
    requires a <= b
    ensures |a| <= |b|
  {
    assert |b| == |a| + |b - a| by { assert b == a + (b - a); }
  }
}
