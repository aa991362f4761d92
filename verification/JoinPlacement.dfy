// A join and the pod index: an answer for an IP the index places does not name another pod
// (internal/aggregator/clusterpeers/registry.go, Join and the lookups it makes).
module JoinPlacement {
  import opened Prelude
  import opened Addresses
  import opened Indexes
  import opened Peers
  import opened PodIndexes

  /** No advertise carries a namespace with a slash in it. */
  ghost predicate SlashFree(h: seq<Event>) {
    forall e | e in h && e.Observed? :: '/' !in e.l.namespace
  }

  /** What a history holds under a key was advertised under that key. */
  lemma {:induction false} LatestWasObserved(h: seq<Event>, ttl: int, k: Key)
    requires Latest(h, ttl, k).Some?
    ensures var l := Latest(h, ttl, k).value;
      KeyOf(l) == Some(k) && exists e :: e in h && e.Observed? && e.l.namespace == l.namespace
  {
    var n := |h| - 1;
    var init := h[..n];
    assert forall e | e in init :: e in h;
    assert h[n] in h;
    match h[n] {
      case Observed(l, at) =>
        if KeyOf(l) != Some(k) { LatestWasObserved(init, ttl, k); }
      case Removed(l) => LatestWasObserved(init, ttl, k);
      case Swept(_) => LatestWasObserved(init, ttl, k);
    }
  }

  lemma AtFacts(h: seq<Event>, ttl: int, now: int, k: Key)
    requires SlashFree(h) && At(Recorded(h, ttl, now), k).Some?
    ensures var l := At(Recorded(h, ttl, now), k).value;
      KeyOf(l) == Some(k) && '/' !in l.namespace
  {
    hide Latest, KeyOf;
    LatestWasObserved(h, ttl, k);
  }

  /** Where the first slash of an identity is. */
  lemma FirstSlash(namespace: string, pod: string)
    requires '/' !in namespace
    ensures IndexOf(PodIdent(namespace, pod), '/') == |namespace|
  {
    var s := PodIdent(namespace, pod);
    var i := IndexOf(s, '/');
    assert s[|namespace|] == '/' && forall k | 0 <= k < |namespace| :: s[k] == namespace[k];
    assert forall k | 0 <= k < i :: s[k] in s[..i];
  }

  /** Pod identities are injective on slash-free namespaces. */
  lemma PodIdentInjective(namespace: string, pod: string, namespace': string, pod': string)
    requires '/' !in namespace && '/' !in namespace' && PodIdent(namespace, pod) == PodIdent(namespace', pod')
    ensures namespace == namespace' && pod == pod'
  {
    FirstSlash(namespace, pod);
    FirstSlash(namespace', pod');
    var n := |namespace|;
    var s, s' := PodIdent(namespace, pod), PodIdent(namespace', pod');
    assert s[..n] == namespace && s'[..n] == namespace' && s[n + 1..] == pod && s'[n + 1..] == pod';
  }

  // ----- what an answer may name -----

  /** The placed pod has no wildcard entry of its own, and the listener is its port's only live one. */
  ghost predicate SoleFallback(src: Source, l: Listener, pl: Placement) {
    var key := ":" + PortOf(l.port, l.addr);
    l.wildcard && Sole(src, key) == Some(l) && At(src, Wild(key, PodIdent(pl.namespace, pl.pod))).None?
  }

  /** The listener names the placed pod, in its namespace save through the sole-wildcard fallback;
      or it is an exact entry that names no pod. */
  ghost predicate Names(src: Source, l: Listener, pl: Placement) {
    || (l.pod == pl.pod && (l.namespace == pl.namespace || SoleFallback(src, l, pl)))
    || (l.pod == "" && !l.wildcard)
  }

  /** The address parses and the index places its IP. */
  ghost predicate Placed(res: Resolvers, addr: string, pl: Placement) {
    && HasLocator(res) && SplitHostPort(addr).Some?
    && PodForIP(res.pods.value, SplitHostPort(addr).value.host) == Some(pl)
  }

  lemma ExactNames(h: seq<Event>, ttl: int, now: int, res: Resolvers, addr: string, pl: Placement)
    requires SlashFree(h) && Placed(res, addr, pl) && LiveExact(Recorded(h, ttl, now), res, addr).Some?
    ensures Names(Recorded(h, ttl, now), LiveExact(Recorded(h, ttl, now), res, addr).value, pl)
  {
    hide At, SplitHostPort, PodForIP, SoleFallback;
    AtFacts(h, ttl, now, Exact(addr));
  }

  lemma WildNames(h: seq<Event>, ttl: int, now: int, res: Resolvers, addr: string, pl: Placement)
    requires SlashFree(h) && '/' !in pl.namespace && Placed(res, addr, pl)
    requires LiveWild(Recorded(h, ttl, now), res, addr).Some?
    ensures Names(Recorded(h, ttl, now), LiveWild(Recorded(h, ttl, now), res, addr).value, pl)
  {
    hide At, SplitHostPort, PodForIP, PodIdent, Sole, PortOf;
    var src := Recorded(h, ttl, now);
    var l := LiveWild(src, res, addr).value;
    var key := ":" + SplitHostPort(addr).value.port;
    var own := Wild(key, PodIdent(pl.namespace, pl.pod));
    if At(src, own).Some? {
      AtFacts(h, ttl, now, own);
      PodIdentInjective(l.namespace, l.pod, pl.namespace, pl.pod);
    } else {
      SoleIsAt(src, key);
      var ident :| At(src, Wild(key, ident)) == Some(l);
      AtFacts(h, ttl, now, Wild(key, ident));
    }
  }

  lemma SoleIsAt(src: Source, portKey: string)
    requires Sole(src, portKey).Some?
    ensures exists ident :: At(src, Wild(portKey, ident)) == Sole(src, portKey)
  {
    hide At;
  }

  lemma AtNames(h: seq<Event>, ttl: int, now: int, res: Resolvers, addr: string, pl: Placement)
    requires SlashFree(h) && '/' !in pl.namespace && Placed(res, addr, pl)
    requires LiveAt(Recorded(h, ttl, now), res, addr).Some?
    ensures Names(Recorded(h, ttl, now), LiveAt(Recorded(h, ttl, now), res, addr).value, pl)
  {
    hide LiveExact, LiveWild, Placed, Names, SlashFree;
    if LiveExact(Recorded(h, ttl, now), res, addr).Some? {
      ExactNames(h, ttl, now, res, addr, pl);
    } else {
      WildNames(h, ttl, now, res, addr, pl);
    }
  }

  /** A direct, endpointslice or wildcard answer names the placed pod. */
  ghost predicate Faithful(src: Source, answer: Option<Answer>, pl: Placement) {
    answer.Some? && !answer.value.how.ServiceVip? ==> Names(src, answer.value.listener, pl)
  }

  /** Where the property is claimed: a well-built index places the address's IP, and no namespace
      has a slash in it. */
  ghost predicate Setting(h: seq<Event>, res: Resolvers, addr: string, pl: Placement) {
    SlashFree(h) && '/' !in pl.namespace && Placed(res, addr, pl) && Folded(res.pods.value)
  }

  /** For a colon-free host, no answer contradicts the index. */
  lemma JoinNamesPlacedPod(h: seq<Event>, ttl: int, now: int, res: Resolvers, addr: string, pl: Placement)
    requires Setting(h, res, addr, pl) && ':' !in SplitHostPort(addr).value.host
    ensures Faithful(Recorded(h, ttl, now), JoinBy(Recorded(h, ttl, now), res, addr), pl)
  {
    hide LiveExact, LiveWild, LiveAt, ViaVip, Names, SlashFree, ResolvePodAddr, PodForIP, SplitHostPort, Folded;
    var src := Recorded(h, ttl, now);
    if LiveExact(src, res, addr).Some? {
      ExactNames(h, ttl, now, res, addr, pl);
    } else if ViaEndpoint(src, res, addr).Some? {
      ResolveKeepsHost(res.pods.value, addr);
      AtNames(h, ttl, now, res, ResolvePodAddr(res.pods.value, addr).value, pl);
    } else if LiveWild(src, res, addr).Some? {
      WildNames(h, ttl, now, res, addr, pl);
    }
  }

  // ----- hosts with a colon -----

  /** A listener of pod "y" at an address. */
  function Stranger(addr: string): Listener {
    Listener(addr, "", "", "", false, "", "n", "y", "", "", "", NoService, false, 0, 0)
  }

  /** With a colon in the host, an index that places the IP on pod "x" and folds it to another port
      answers with a listener of pod "y": the folded address does not parse, so ownership passes. */
  lemma ColonHostContradicts(addr: string)
    requires SplitHostPort(addr).Some? && ':' in SplitHostPort(addr).value.host
    ensures var hp := SplitHostPort(addr).value; var folded := JoinHostPort(hp.host, OtherPort(hp.port));
      var pl := Placement("n", "x"); var h := [Observed(Stranger(folded), 0)];
      var res := Resolvers(Some(OneEndpoint(hp.host, OtherPort(hp.port), pl)), true, None);
      && Setting(h, res, addr, pl) && !Faithful(Recorded(h, 1, 0), JoinBy(Recorded(h, 1, 0), res, addr), pl)
  {
    hide SplitHostPort, ResolvePodAddr, Folded, LiveWild, ViaVip;
    var hp := SplitHostPort(addr).value;
    var folded := JoinHostPort(hp.host, OtherPort(hp.port));
    var pl := Placement("n", "x");
    var h := [Observed(Stranger(folded), 0)];
    var res := Resolvers(Some(OneEndpoint(hp.host, OtherPort(hp.port), pl)), true, None);
    var src := Recorded(h, 1, 0);
    ColonHostFoldsAway(addr, OtherPort(hp.port), pl);
    assert addr != folded;
    assert Latest(h, 1, Exact(folded)).Some? && Latest(h, 1, Exact(addr)).None? by {
      assert h[..0] == [];
    }
    assert LiveExact(src, res, addr).None? && LiveExact(src, res, folded).Some?;
    assert JoinBy(src, res, addr) == Some(Answer(LiveExact(src, res, folded).value, Endpointslice));
  }

  /** No history and no index makes a join contradict the index, exactly for colon-free hosts. */
  lemma NeverContradictsIffNoColon(addr: string)
    requires SplitHostPort(addr).Some?
    ensures ':' !in SplitHostPort(addr).value.host <==>
      forall h, ttl, now, res, pl | Setting(h, res, addr, pl) ::
        Faithful(Recorded(h, ttl, now), JoinBy(Recorded(h, ttl, now), res, addr), pl)
  {
    hide SplitHostPort, Setting, Faithful, JoinBy;
    if ':' !in SplitHostPort(addr).value.host {
      forall h, ttl, now, res, pl | Setting(h, res, addr, pl)
        ensures Faithful(Recorded(h, ttl, now), JoinBy(Recorded(h, ttl, now), res, addr), pl)
      {
        JoinNamesPlacedPod(h, ttl, now, res, addr, pl);
      }
    } else {
      ColonHostContradicts(addr);
    }
  }
}
