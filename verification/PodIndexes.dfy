// The pod endpoint index (internal/aggregator/discovery/podindex.go): two whole-state refreshes
// that do not disturb each other, and what folding an address onto a target port keeps.
module PodIndexes {
  import opened Prelude
  import opened Addresses
  import opened Indexes

  datatype PodEntry = PodEntry(ip: string, ports: seq<int>, namespace: string, pod: string)

  datatype PodIdentity = PodIdentity(ip: string, namespace: string, pod: string)

  /** The (IP, port) pairs the entries serve. */
  ghost function Targets(entries: seq<PodEntry>): set<(string, string)> {
    set e, p | e in entries && p in e.ports :: (e.ip, Itoa(p))
  }

  /** The placement of an IP: its last entry that names a pod. */
  function PlacedBy(entries: seq<PodEntry>, ip: string): Option<Placement> {
    if entries == [] then None
    else
      var e := entries[|entries| - 1];
      if e.ip == ip && e.pod != "" then Some(Placement(e.namespace, e.pod)) else PlacedBy(entries[..|entries| - 1], ip)
  }

  function IdentifiedBy(pods: seq<PodIdentity>, ip: string): Option<Placement> {
    if pods == [] then None
    else
      var p := pods[|pods| - 1];
      if p.ip == ip && ip != "" && p.pod != "" then Some(Placement(p.namespace, p.pod))
      else IdentifiedBy(pods[..|pods| - 1], ip)
  }

  function ListOf(ports: map<string, seq<string>>, ip: string): seq<string> {
    if ip in ports then ports[ip] else []
  }

  predicate Distinct(s: seq<string>) {
    forall i, j | 0 <= i < j < |s| :: s[i] != s[j]
  }

  /** Per IP, a list without repetition of exactly its target ports. */
  ghost predicate Lists(ports: map<string, seq<string>>, targets: set<(string, string)>) {
    && (forall ip :: Distinct(ListOf(ports, ip)))
    && (forall ip | ip in ports :: ports[ip] != [])
    && (forall ip, p :: p in ListOf(ports, ip) <==> (ip, p) in targets)
  }

  ghost predicate Joins(addrs: set<string>, targets: set<(string, string)>) {
    addrs == set t | t in targets :: JoinHostPort(t.0, t.1)
  }

  ghost predicate Places(byIP: map<string, Placement>, entries: seq<PodEntry>) {
    forall ip :: (if ip in byIP then Some(byIP[ip]) else None) == PlacedBy(entries, ip)
  }

  ghost predicate Identifies(podIP: map<string, Placement>, pods: seq<PodIdentity>) {
    forall ip :: (if ip in podIP then Some(podIP[ip]) else None) == IdentifiedBy(pods, ip)
  }

  /** The placement is the last entry's that names a pod for the IP. */
  lemma {:induction false} PlacedByIff(entries: seq<PodEntry>, ip: string, pl: Placement)
    ensures PlacedBy(entries, ip) == Some(pl) <==> exists i :: LastPlacing(entries, ip, i) && Placement(entries[i].namespace, entries[i].pod) == pl
  {
    if entries != [] {
      var n := |entries| - 1;
      var init := entries[..n];
      PlacedByIff(init, ip, pl);
      if entries[n].ip == ip && entries[n].pod != "" {
        assert LastPlacing(entries, ip, n);
        assert forall i | LastPlacing(entries, ip, i) :: i == n;
      } else {
        forall i ensures LastPlacing(entries, ip, i) <==> LastPlacing(init, ip, i) { }
      }
    }
  }

  ghost predicate LastPlacing(entries: seq<PodEntry>, ip: string, i: int) {
    && 0 <= i < |entries| && entries[i].ip == ip && entries[i].pod != ""
    && forall j | i < j < |entries| :: entries[j].ip != ip || entries[j].pod == ""
  }

  /** A watched identity is the last one that has both an IP and a pod. */
  lemma {:induction false} IdentifiedByIff(pods: seq<PodIdentity>, ip: string, pl: Placement)
    ensures IdentifiedBy(pods, ip) == Some(pl) <==> exists i :: LastIdentifying(pods, ip, i) && Placement(pods[i].namespace, pods[i].pod) == pl
  {
    if pods != [] {
      var n := |pods| - 1;
      var init := pods[..n];
      IdentifiedByIff(init, ip, pl);
      if pods[n].ip == ip && ip != "" && pods[n].pod != "" {
        assert LastIdentifying(pods, ip, n);
        assert forall i | LastIdentifying(pods, ip, i) :: i == n;
      } else {
        forall i ensures LastIdentifying(pods, ip, i) <==> LastIdentifying(init, ip, i) { }
      }
    }
  }

  ghost predicate LastIdentifying(pods: seq<PodIdentity>, ip: string, i: int) {
    && 0 <= i < |pods| && pods[i].ip == ip != "" && pods[i].pod != ""
    && forall j | i < j < |pods| :: pods[j].ip != ip || pods[j].pod == ""
  }

  lemma TargetsStep(done: seq<PodEntry>, e: PodEntry, j: nat)
    requires j < |e.ports|
    ensures Targets(done + [e.(ports := e.ports[..j + 1])]) ==
            Targets(done + [e.(ports := e.ports[..j])]) + {(e.ip, Itoa(e.ports[j]))}
  {
    hide Itoa;
    var a, b := done + [e.(ports := e.ports[..j])], done + [e.(ports := e.ports[..j + 1])];
    var last, last' := e.(ports := e.ports[..j]), e.(ports := e.ports[..j + 1]);
    assert forall p :: p in e.ports[..j + 1] <==> p in e.ports[..j] || p == e.ports[j];
    assert forall x :: x in a <==> x in done || x == last;
    assert forall x :: x in b <==> x in done || x == last';
    assert last in a && last' in b && e.ports[j] in last'.ports;
    forall t | t in Targets(b) ensures t in Targets(a) + {(e.ip, Itoa(e.ports[j]))} {
      var x, p :| x in b && p in x.ports && t == (x.ip, Itoa(p));
      assert x in done ==> x in a;
    }
    forall t | t in Targets(a) ensures t in Targets(b) {
      var x, p :| x in a && p in x.ports && t == (x.ip, Itoa(p));
      if x !in done { assert last' in b && p in last'.ports; } else { assert x in b; }
    }
  }

  lemma TargetsOfEmptyLast(done: seq<PodEntry>, e: PodEntry)
    requires e.ports == []
    ensures Targets(done + [e]) == Targets(done)
  {
    hide Itoa;
    assert forall x :: x in done + [e] <==> x in done || x == e;
  }

  lemma PlacedStep(done: seq<PodEntry>, e: PodEntry, ip: string)
    ensures PlacedBy(done + [e], ip) ==
            if e.ip == ip && e.pod != "" then Some(Placement(e.namespace, e.pod)) else PlacedBy(done, ip)
  {
    assert (done + [e])[..|done|] == done;
  }

  lemma DistinctSnoc(s: seq<string>, x: string)
    requires Distinct(s) && x !in s
    ensures Distinct(s + [x])
  {
  }

  /** One target port more. */
  method AddPort(ports: map<string, seq<string>>, ip: string, p: string, ghost targets: set<(string, string)>)
    returns (r: map<string, seq<string>>)
    requires Lists(ports, targets)
    ensures Lists(r, targets + {(ip, p)})
  {
    hide Distinct;
    r := ports;
    if p !in ListOf(ports, ip) {
      r := ports[ip := ListOf(ports, ip) + [p]];
      DistinctSnoc(ListOf(ports, ip), p);
      assert forall other | other != ip :: ListOf(r, other) == ListOf(ports, other);
      assert forall q :: q in r[ip] <==> q in ListOf(ports, ip) || q == p;
    }
  }

  /** The inner loop: all of one entry's ports. */
  method AddEntry(addrs: set<string>, ports: map<string, seq<string>>, e: PodEntry, ghost done: seq<PodEntry>)
    returns (addrs': set<string>, ports': map<string, seq<string>>)
    requires Joins(addrs, Targets(done)) && Lists(ports, Targets(done))
    ensures Joins(addrs', Targets(done + [e])) && Lists(ports', Targets(done + [e]))
  {
    hide Targets, Lists, Itoa;
    addrs', ports' := addrs, ports;
    TargetsOfEmptyLast(done, e.(ports := []));
    assert e.ports[..0] == [];
    for j := 0 to |e.ports|
      invariant Joins(addrs', Targets(done + [e.(ports := e.ports[..j])]))
      invariant Lists(ports', Targets(done + [e.(ports := e.ports[..j])]))
    {
      var ps := Itoa(e.ports[j]);
      TargetsStep(done, e, j);
      addrs' := addrs' + {JoinHostPort(e.ip, ps)};
      ports' := AddPort(ports', e.ip, ps, Targets(done + [e.(ports := e.ports[..j])]));
    }
    assert e.ports[..|e.ports|] == e.ports;
  }

  method BuildEndpoints(entries: seq<PodEntry>)
    returns (addrs: set<string>, ports: map<string, seq<string>>, byIP: map<string, Placement>)
    ensures Joins(addrs, Targets(entries)) && Lists(ports, Targets(entries)) && Places(byIP, entries)
  {
    hide Targets, Lists, Joins, PlacedBy;
    addrs, ports, byIP := {}, map[], map[];
    NothingBuilt();
    assert entries[..0] == [];
    for i := 0 to |entries|
      invariant Joins(addrs, Targets(entries[..i])) && Lists(ports, Targets(entries[..i])) && Places(byIP, entries[..i])
    {
      var e := entries[i];
      assert entries[..i + 1] == entries[..i] + [e];
      addrs, ports := AddEntry(addrs, ports, e, entries[..i]);
      forall ip ensures PlacedBy(entries[..i + 1], ip) ==
          if e.ip == ip && e.pod != "" then Some(Placement(e.namespace, e.pod)) else PlacedBy(entries[..i], ip)
      {
        PlacedStep(entries[..i], e, ip);
      }
      if e.pod != "" {
        byIP := byIP[e.ip := Placement(e.namespace, e.pod)];
      }
    }
    assert entries[..|entries|] == entries;
  }

  lemma NothingBuilt()
    ensures Joins({}, Targets([])) && Lists(map[], Targets([])) && Places(map[], [])
  {
  }

  method BuildIdentities(pods: seq<PodIdentity>) returns (m: map<string, Placement>)
    ensures Identifies(m, pods)
  {
    m := map[];
    for i := 0 to |pods|
      invariant Identifies(m, pods[..i])
    {
      var p := pods[i];
      assert pods[..i + 1][..i] == pods[..i];
      if p.ip != "" && p.pod != "" {
        m := m[p.ip := Placement(p.namespace, p.pod)];
      }
    }
    assert pods[..|pods|] == pods;
  }

  /** The index refreshed from two sources; the ghost fields are the last refresh from each. */
  class PodEndpointIndex {
    var addrs: set<string>
    var ports: map<string, seq<string>>
    var byIP: map<string, Placement>
    var podIP: map<string, Placement>
    ghost var endpoints: seq<PodEntry>
    ghost var identities: seq<PodIdentity>

    function Value(): PodIndex
      reads this
    {
      PodIndex(addrs, ports, byIP, podIP)
    }

    ghost predicate Valid()
      reads this
    {
      && Joins(addrs, Targets(endpoints))
      && Lists(ports, Targets(endpoints))
      && Places(byIP, endpoints)
      && Identifies(podIP, identities)
    }

    constructor ()
      ensures Valid() && endpoints == [] && identities == []
    {
      addrs, ports, byIP, podIP := {}, map[], map[], map[];
      endpoints, identities := [], [];
      new;
      NothingBuilt();
    }

    method Replace(entries: seq<PodEntry>)
      requires Valid()
      modifies this
      ensures Valid() && endpoints == entries && identities == old(identities) && podIP == old(podIP)
    {
      addrs, ports, byIP := BuildEndpoints(entries);
      endpoints := entries;
    }

    method ReplacePodIdentities(pods: seq<PodIdentity>)
      requires Valid()
      modifies `podIP, `identities
      ensures Valid() && identities == pods
    {
      podIP := BuildIdentities(pods);
      identities := pods;
    }

    /** The last slice refresh decides; where it is silent, the last pod refresh. */
    method PodForIP(ip: string) returns (r: Option<Placement>)
      requires Valid()
      ensures r == Indexes.PodForIP(Value(), ip)
      ensures r == if PlacedBy(endpoints, ip).Some? then PlacedBy(endpoints, ip) else IdentifiedBy(identities, ip)
    {
      r := if ip in byIP then Some(byIP[ip]) else if ip in podIP then Some(podIP[ip]) else None;
    }

    method ResolvePodAddr(addr: string) returns (r: Option<string>)
      requires Valid()
      ensures r == Indexes.ResolvePodAddr(Value(), addr)
      ensures Folded(Value())
    {
      hide SplitHostPort, Joins, Lists, Targets, Itoa;
      ValidIsFolded(Value(), endpoints);
      var split := SplitHostPort(addr);
      if split.None? {
        return None;
      }
      var hp := split.value;
      if addr in addrs {
        return Some(addr);
      }
      var list := if hp.host in ports then ports[hp.host] else [];
      if hp.port in list {
        return Some(addr);
      }
      if |list| == 1 {
        return Some(JoinHostPort(hp.host, list[0]));
      }
      return None;
    }
  }

  // ----- folding an address -----

  /** Every listed port is a number whose joined address is a known endpoint. */
  ghost predicate Folded(idx: PodIndex) {
    forall ip, p | p in PortsOf(idx, ip) :: Plain(p) && JoinHostPort(ip, p) in idx.addrs
  }

  lemma ValidIsFolded(idx: PodIndex, entries: seq<PodEntry>)
    requires Joins(idx.addrs, Targets(entries)) && Lists(idx.ports, Targets(entries))
    ensures Folded(idx)
  {
    hide Itoa, Plain;
    forall ip, p | p in PortsOf(idx, ip) ensures Plain(p) && JoinHostPort(ip, p) in idx.addrs {
      assert p in ListOf(idx.ports, ip) && (ip, p) in Targets(entries);
      var e, n :| e in entries && n in e.ports && (ip, p) == (e.ip, Itoa(n));
      ItoaPlain(n);
    }
  }

  /** An address resolves to itself when it is a known endpoint or its port is one of its IP's targets,
      else to its IP's only target port, and to nothing when the IP has no target port or several. */
  lemma ResolvesIff(idx: PodIndex, entries: seq<PodEntry>, addr: string, a: string)
    requires Joins(idx.addrs, Targets(entries)) && Lists(idx.ports, Targets(entries))
    ensures ResolvePodAddr(idx, addr) == Some(a) <==>
      && SplitHostPort(addr).Some?
      && var hp := SplitHostPort(addr).value;
      var known := addr in idx.addrs || (hp.host, hp.port) in Targets(entries);
      if known then a == addr
      else exists p :: (hp.host, p) in Targets(entries) && a == JoinHostPort(hp.host, p) && forall q | (hp.host, q) in Targets(entries) :: q == p
  {
    hide SplitHostPort, Targets, Joins;
    match SplitHostPort(addr) {
      case None =>
      case Some(hp) =>
        var list := PortsOf(idx, hp.host);
        assert list == ListOf(idx.ports, hp.host);
        SingleOrNot(list, Targets(entries), hp.host);
    }
  }

  lemma OnlyElement(list: seq<string>, p: string)
    requires Distinct(list) && p in list && forall x | x in list :: x == p
    ensures list == [p]
  {
    assert list[0] in list && list[|list| - 1] in list;
  }

  lemma SingleOrNot(list: seq<string>, targets: set<(string, string)>, host: string)
    requires Distinct(list) && forall p :: p in list <==> (host, p) in targets
    ensures forall p :: list == [p] <==> (host, p) in targets && forall q | (host, q) in targets :: q == p
    ensures |list| == 1 ==> list == [list[0]]
  {
    forall p | (host, p) in targets && forall q | (host, q) in targets :: q == p ensures list == [p] {
      assert p in list;
      forall x | x in list ensures x == p { assert (host, x) in targets; }
      OnlyElement(list, p);
    }
    forall p | list == [p] ensures (host, p) in targets && forall q | (host, q) in targets :: q == p {
      assert p in list;
    }
  }

  /** Resolving keeps a colon-free host, is idempotent, and lands on a known endpoint. */
  lemma ResolveKeepsHost(idx: PodIndex, addr: string)
    requires Folded(idx) && ResolvePodAddr(idx, addr).Some? && ':' !in SplitHostPort(addr).value.host
    ensures var a := ResolvePodAddr(idx, addr).value;
      && SplitHostPort(a).Some? && SplitHostPort(a).value.host == SplitHostPort(addr).value.host
      && ResolvePodAddr(idx, a) == Some(a)
      && (a in idx.addrs || JoinHostPort(SplitHostPort(a).value.host, SplitHostPort(a).value.port) in idx.addrs)
  {
    hide SplitHostPort, Plain;
    var hp := SplitHostPort(addr).value;
    if addr !in idx.addrs && hp.port !in PortsOf(idx, hp.host) {
      var p := PortsOf(idx, hp.host)[0];
      assert p in PortsOf(idx, hp.host);
      SplitIsClean(addr);
      PlainHost(hp.host);
      JoinThenSplit(hp.host, p);
    }
  }

  lemma PlainHost(host: string)
    requires ':' !in host && '[' !in host && ']' !in host
    ensures Plain(host)
  {
  }

  /** The index with one endpoint, at another port. */
  function OneEndpoint(host: string, port: string, pl: Placement): PodIndex {
    PodIndex({JoinHostPort(host, port)}, map[host := [port]], map[host := pl], map[])
  }

  /** With a colon in the host, an index that folds it yields an address that does not resolve. */
  lemma ColonHostFoldsAway(addr: string, port: string, pl: Placement)
    requires SplitHostPort(addr).Some? && ':' in SplitHostPort(addr).value.host
    requires Plain(port) && port != SplitHostPort(addr).value.port
    ensures var host := SplitHostPort(addr).value.host; var idx := OneEndpoint(host, port, pl);
      && Folded(idx) && ResolvePodAddr(idx, addr) == Some(JoinHostPort(host, port))
      && ResolvePodAddr(idx, JoinHostPort(host, port)).None? && SplitHostPort(JoinHostPort(host, port)).None?
  {
    hide SplitHostPort;
    var host := SplitHostPort(addr).value.host;
    SplitIsClean(addr);
    ColonHostDoesNotSplit(host, port);
  }

  /** Idempotence over every index holds exactly for colon-free hosts. */
  lemma IdempotentIffNoColon(addr: string)
    requires SplitHostPort(addr).Some?
    ensures ':' !in SplitHostPort(addr).value.host <==>
      forall idx | Folded(idx) && ResolvePodAddr(idx, addr).Some? ::
        ResolvePodAddr(idx, ResolvePodAddr(idx, addr).value) == ResolvePodAddr(idx, addr)
  {
    hide SplitHostPort, Plain, ResolvePodAddr, Folded;
    var hp := SplitHostPort(addr).value;
    if ':' !in hp.host {
      forall idx | Folded(idx) && ResolvePodAddr(idx, addr).Some?
        ensures ResolvePodAddr(idx, ResolvePodAddr(idx, addr).value) == ResolvePodAddr(idx, addr)
      {
        ResolveKeepsHost(idx, addr);
      }
    } else {
      var p := OtherPort(hp.port);
      ColonHostFoldsAway(addr, p, Placement("n", "p"));
      assert Folded(OneEndpoint(hp.host, p, Placement("n", "p")));
    }
  }

  function OtherPort(port: string): (p: string)
    ensures Plain(p) && p != port
  {
    if port == "1" then "2" else "1"
  }
}
