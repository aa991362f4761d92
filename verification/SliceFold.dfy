// Folding EndpointSlices into pod endpoint entries (internal/aggregator/discovery/service.go,
// podEntriesFromSlices, sliceEndpointReady): nested loops over state in any order, against the set
// of visits the state implies.
module SliceFold {
  import opened Prelude
  import opened Addresses
  import opened Indexes
  import opened Ordering
  import opened PodIndexes

  datatype TargetRef = TargetRef(kind: string, namespace: string, name: string)

  datatype SliceEndpoint = SliceEndpoint(
    addresses: seq<string>, ready: Option<bool>, terminating: Option<bool>, target: Option<TargetRef>)

  datatype SlicePort = SlicePort(name: string, port: int)

  /** `service` is the owning Service's label, empty when missing. */
  datatype Slice = Slice(namespace: string, service: string, ports: seq<SlicePort>, endpoints: seq<SliceEndpoint>)

  /** Readiness unknown means ready unless terminating. */
  predicate Ready(ep: SliceEndpoint) {
    match ep.ready
    case None => ep.terminating.None? || !ep.terminating.value
    case Some(ready) => ready
  }

  predicate PodBacked(ep: SliceEndpoint) {
    ep.target.Some? && ep.target.value.kind == "Pod" && ep.target.value.name != ""
  }

  function PlacementOf(slice: Slice, ep: SliceEndpoint): Placement
    requires PodBacked(ep)
  {
    var ref := ep.target.value;
    Placement(if ref.namespace == "" then slice.namespace else ref.namespace, ref.name)
  }

  /** One address of one ready, pod-backed endpoint, with its slice's ports. */
  datatype Visit = Visit(ip: string, pl: Placement, ports: set<int>)

  function NonzeroPorts(slice: Slice): set<int> {
    set p | p in slice.ports && p.port != 0 :: p.port
  }

  function VisitAt(slice: Slice, ep: SliceEndpoint, ip: string): Visit
    requires PodBacked(ep)
  {
    Visit(ip, PlacementOf(slice, ep), NonzeroPorts(slice))
  }

  /** The visits of the first n addresses of an endpoint. */
  function AddressVisits(slice: Slice, ep: SliceEndpoint, n: nat): seq<Visit>
    requires n <= |ep.addresses| && PodBacked(ep)
  {
    if n == 0 then [] else AddressVisits(slice, ep, n - 1) + [VisitAt(slice, ep, ep.addresses[n - 1])]
  }

  /** The visits of a slice's first n endpoints, in order. */
  function EndpointVisits(slice: Slice, n: nat): seq<Visit>
    requires n <= |slice.endpoints|
  {
    if n == 0 then []
    else
      var ep := slice.endpoints[n - 1];
      EndpointVisits(slice, n - 1) + if Ready(ep) && PodBacked(ep) then AddressVisits(slice, ep, |ep.addresses|) else []
  }

  function VisitsOf(slice: Slice): seq<Visit> {
    EndpointVisits(slice, |slice.endpoints|)
  }

  /** The visits of a walk through the state. */
  function VisitsIn(state: map<string, Slice>, order: seq<string>): seq<Visit> {
    if order == [] then []
    else
      var init, k := order[..|order| - 1], order[|order| - 1];
      if k in state then VisitsIn(state, init) + VisitsOf(state[k]) else VisitsIn(state, init)
  }

  function AllVisits(state: map<string, Slice>): set<Visit> {
    set k, v | k in state && v in VisitsOf(state[k]) :: v
  }

  /** The pod of the first visit to an IP. */
  function FirstPod(visits: seq<Visit>, ip: string): Option<Placement> {
    if visits == [] then None
    else
      var before, v := FirstPod(visits[..|visits| - 1], ip), visits[|visits| - 1];
      if before.Some? then before else if v.ip == ip then Some(v.pl) else None
  }

  lemma FirstPodSnoc(visits: seq<Visit>, v: Visit, ip: string)
    ensures FirstPod(visits + [v], ip) ==
      if FirstPod(visits, ip).Some? then FirstPod(visits, ip) else if v.ip == ip then Some(v.pl) else None
  {
    assert (visits + [v])[..|visits|] == visits;
  }

  // ----- the tally of visits -----

  ghost predicate DistinctInts(s: seq<int>) {
    forall i, j | 0 <= i < j < |s| :: s[i] != s[j]
  }

  /** An entry for an IP collects its visits: the union of their ports, and the pod of the first. */
  ghost predicate Collects(e: PodEntry, ip: string, visits: seq<Visit>) {
    && e.ip == ip && DistinctInts(e.ports)
    && (forall p :: p in e.ports <==> exists v :: v in visits && v.ip == ip && p in v.ports)
    && FirstPod(visits, ip) == Some(Placement(e.namespace, e.pod))
  }

  ghost predicate Tally(byIP: map<string, PodEntry>, visits: seq<Visit>) {
    && (forall ip :: ip in byIP <==> FirstPod(visits, ip).Some?)
    && (forall ip | ip in byIP :: Collects(byIP[ip], ip, visits))
  }

  /** Adds ports not yet listed. */
  method AddPorts(old_: seq<int>, ports: seq<int>) returns (r: seq<int>)
    requires DistinctInts(old_)
    ensures DistinctInts(r) && forall p :: p in r <==> p in old_ || p in ports
  {
    r := old_;
    for i := 0 to |ports|
      invariant DistinctInts(r) && forall p :: p in r <==> p in old_ || p in ports[..i]
    {
      if ports[i] !in r {
        r := r + [ports[i]];
      }
    }
    assert ports[..|ports|] == ports;
  }

  /** One address: its entry, made if missing, takes the slice's ports. */
  method AddAddress(byIP: map<string, PodEntry>, v: Visit, ports: seq<int>, ghost visits: seq<Visit>)
    returns (r: map<string, PodEntry>)
    requires Tally(byIP, visits) && forall p :: p in ports <==> p in v.ports
    ensures Tally(r, visits + [v])
  {
    hide FirstPod, Collects;
    var e := if v.ip in byIP then byIP[v.ip] else PodEntry(v.ip, [], v.pl.namespace, v.pl.pod);
    if v.ip in byIP { CollectsIsDistinct(e, v.ip, visits); }
    var merged := AddPorts(e.ports, ports);
    r := byIP[v.ip := e.(ports := merged)];
    if v.ip in byIP {
      CollectsMore(e, v, merged, visits);
    } else {
      CollectsFirst(e, v, merged, visits);
    }
    forall ip ensures ip in r <==> FirstPod(visits + [v], ip).Some? {
      FirstPodSnoc(visits, v, ip);
    }
    forall ip | ip in byIP && ip != v.ip ensures Collects(byIP[ip], ip, visits + [v]) {
      CollectsOther(byIP[ip], ip, v, visits);
    }
  }

  lemma CollectsMore(e: PodEntry, v: Visit, merged: seq<int>, visits: seq<Visit>)
    requires DistinctInts(merged) && (forall p :: p in merged <==> p in e.ports || p in v.ports) && Collects(e, v.ip, visits)
    ensures Collects(e.(ports := merged), v.ip, visits + [v])
  {
    FirstPodSnoc(visits, v, v.ip);
    hide FirstPod;
    forall p ensures p in merged <==> exists u :: u in visits + [v] && u.ip == v.ip && p in u.ports {
      PortStep(visits, v, v.ip, p);
    }
  }

  lemma CollectsFirst(e: PodEntry, v: Visit, merged: seq<int>, visits: seq<Visit>)
    requires DistinctInts(merged) && (forall p :: p in merged <==> p in v.ports)
    requires e == PodEntry(v.ip, [], v.pl.namespace, v.pl.pod) && FirstPod(visits, v.ip).None?
    ensures Collects(e.(ports := merged), v.ip, visits + [v])
  {
    FirstPodSnoc(visits, v, v.ip);
    NeverVisited(visits, v.ip);
    hide FirstPod;
    forall p ensures p in merged <==> exists u :: u in visits + [v] && u.ip == v.ip && p in u.ports {
      PortStep(visits, v, v.ip, p);
    }
  }

  lemma CollectsOther(e: PodEntry, ip: string, v: Visit, visits: seq<Visit>)
    requires Collects(e, ip, visits) && ip != v.ip
    ensures Collects(e, ip, visits + [v])
  {
    FirstPodSnoc(visits, v, ip);
    hide FirstPod;
    forall p ensures p in e.ports <==> exists u :: u in visits + [v] && u.ip == ip && p in u.ports {
      PortStep(visits, v, ip, p);
    }
  }

  lemma PortStep(visits: seq<Visit>, v: Visit, ip: string, p: int)
    ensures (exists u :: u in visits + [v] && u.ip == ip && p in u.ports) <==>
      (exists u :: u in visits && u.ip == ip && p in u.ports) || (v.ip == ip && p in v.ports)
  {
    if u :| u in visits && u.ip == ip && p in u.ports { assert u in visits + [v]; }
    assert v in visits + [v];
  }

  lemma {:induction false} NeverVisited(visits: seq<Visit>, ip: string)
    ensures FirstPod(visits, ip).None? <==> forall v | v in visits :: v.ip != ip
    ensures FirstPod(visits, ip).Some? ==> exists v :: v in visits && v.ip == ip && Some(v.pl) == FirstPod(visits, ip)
  {
    if visits != [] {
      var n := |visits| - 1;
      NeverVisited(visits[..n], ip);
      assert visits == visits[..n] + [visits[n]];
    }
  }

  method AddEndpoint(byIP: map<string, PodEntry>, slice: Slice, ep: SliceEndpoint, ports: seq<int>, ghost visits: seq<Visit>)
    returns (r: map<string, PodEntry>)
    requires Tally(byIP, visits) && PodBacked(ep) && forall p :: p in ports <==> p in NonzeroPorts(slice)
    ensures Tally(r, visits + AddressVisits(slice, ep, |ep.addresses|))
  {
    hide Tally, NonzeroPorts, PlacementOf;
    r := byIP;
    assert visits + AddressVisits(slice, ep, 0) == visits;
    for i := 0 to |ep.addresses|
      invariant Tally(r, visits + AddressVisits(slice, ep, i))
    {
      var v := VisitAt(slice, ep, ep.addresses[i]);
      assert visits + AddressVisits(slice, ep, i + 1) == visits + AddressVisits(slice, ep, i) + [v];
      r := AddAddress(r, v, ports, visits + AddressVisits(slice, ep, i));
    }
  }

  method PortsList(slice: Slice) returns (ports: seq<int>)
    ensures forall p :: p in ports <==> p in NonzeroPorts(slice)
  {
    ports := [];
    for i := 0 to |slice.ports|
      invariant forall p :: p in ports <==> exists j :: 0 <= j < i && slice.ports[j].port != 0 && slice.ports[j].port == p
    {
      if slice.ports[i].port != 0 {
        ports := ports + [slice.ports[i].port];
      }
    }
    forall p ensures p in ports <==> p in NonzeroPorts(slice) {
      if p in ports {
        var j :| 0 <= j < |slice.ports| && slice.ports[j].port != 0 && slice.ports[j].port == p;
        assert slice.ports[j] in slice.ports;
      }
    }
  }

  method AddSlice(byIP: map<string, PodEntry>, slice: Slice, ghost visits: seq<Visit>) returns (r: map<string, PodEntry>)
    requires Tally(byIP, visits)
    ensures Tally(r, visits + VisitsOf(slice))
  {
    hide Tally, NonzeroPorts, Ready, PodBacked, AddressVisits;
    var ports := PortsList(slice);
    r := byIP;
    assert visits + EndpointVisits(slice, 0) == visits;
    for n := 0 to |slice.endpoints|
      invariant Tally(r, visits + EndpointVisits(slice, n))
    {
      var ep := slice.endpoints[n];
      if Ready(ep) && PodBacked(ep) {
        assert visits + EndpointVisits(slice, n + 1) == visits + EndpointVisits(slice, n) + AddressVisits(slice, ep, |ep.addresses|);
        r := AddEndpoint(r, slice, ep, ports, visits + EndpointVisits(slice, n));
      } else {
        assert EndpointVisits(slice, n + 1) == EndpointVisits(slice, n);
      }
    }
  }

  // ----- the whole fold -----

  /** Entries in order of IP, one for each IP visited, with its ports in order. */
  ghost predicate EntriesOf(entries: seq<PodEntry>, visits: seq<Visit>) {
    && (forall i, j | 0 <= i < j < |entries| :: Less(entries[i].ip, entries[j].ip))
    && (forall ip :: FirstPod(visits, ip).Some? <==> exists i :: 0 <= i < |entries| && entries[i].ip == ip)
    && (forall i | 0 <= i < |entries| :: Collects(entries[i], entries[i].ip, visits) && Ascending(entries[i].ports))
  }

  /** Walks the state in some order, then sorts. */
  method PodEntries(state: map<string, Slice>) returns (entries: seq<PodEntry>, ghost order: seq<string>)
    ensures Walk(order, state.Keys) && EntriesOf(entries, VisitsIn(state, order))
  {
    hide Tally, VisitsOf, EntriesOf;
    var byIP: map<string, PodEntry> := map[];
    var todo := state.Keys;
    order := [];
    NothingVisited();
    while todo != {}
      invariant todo <= state.Keys && Walk(order, state.Keys - todo) && Tally(byIP, VisitsIn(state, order))
      decreases |todo|
    {
      var k :| k in todo;
      WalkNext(order, state.Keys - todo, k);
      assert state.Keys - (todo - {k}) == state.Keys - todo + {k};
      byIP := AddSlice(byIP, state[k], VisitsIn(state, order));
      assert (order + [k])[..|order|] == order;
      order := order + [k];
      todo := todo - {k};
    }
    assert state.Keys - todo == state.Keys;
    entries := SortEntries(byIP, VisitsIn(state, order));
  }

  lemma NothingVisited()
    ensures Tally(map[], [])
  {
  }

  method SortEntries(byIP: map<string, PodEntry>, ghost visits: seq<Visit>) returns (entries: seq<PodEntry>)
    requires Tally(byIP, visits)
    ensures EntriesOf(entries, visits)
  {
    hide Less, FirstPod, Collects;
    var ips := SortStrings(byIP.Keys);
    entries := [];
    for i := 0 to |ips|
      invariant |entries| == i
      invariant forall j | 0 <= j < i :: entries[j].ip == ips[j] && Collects(entries[j], ips[j], visits) && Ascending(entries[j].ports)
    {
      assert ips[i] in byIP;
      var e := byIP[ips[i]];
      CollectsIsDistinct(e, ips[i], visits);
      var ports := SortInts(e.ports);
      CollectsReordered(e, ips[i], visits, ports);
      entries := entries + [e.(ports := ports)];
    }
    forall ip ensures FirstPod(visits, ip).Some? <==> exists i :: 0 <= i < |entries| && entries[i].ip == ip {
      if FirstPod(visits, ip).Some? {
        assert ip in ips;
        var i :| 0 <= i < |ips| && ips[i] == ip;
        assert entries[i].ip == ip;
      }
    }
  }

  lemma CollectsIsDistinct(e: PodEntry, ip: string, visits: seq<Visit>)
    requires Collects(e, ip, visits)
    ensures DistinctInts(e.ports) && e.ip == ip
  {
  }

  lemma CollectsReordered(e: PodEntry, ip: string, visits: seq<Visit>, ports: seq<int>)
    requires Collects(e, ip, visits) && Ascending(ports) && forall p :: p in ports <==> p in e.ports
    ensures Collects(e.(ports := ports), ip, visits)
  {
    hide FirstPod;
    var e' := e.(ports := ports);
    forall p ensures p in e'.ports <==> exists v :: v in visits && v.ip == ip && p in v.ports {
      assert p in e.ports <==> exists v :: v in visits && v.ip == ip && p in v.ports;
    }
  }

  // ----- the order of the walk -----

  lemma {:induction false} VisitsInMembers(state: map<string, Slice>, order: seq<string>, v: Visit)
    ensures v in VisitsIn(state, order) <==> exists k :: k in order && k in state && v in VisitsOf(state[k])
  {
    hide VisitsOf;
    if order != [] {
      var n := |order| - 1;
      VisitsInMembers(state, order[..n], v);
      assert order == order[..n] + [order[n]];
    }
  }

  /** Every walk makes the same visits, in some order. */
  lemma WalkVisitsAll(state: map<string, Slice>, order: seq<string>)
    requires Walk(order, state.Keys)
    ensures forall v :: v in VisitsIn(state, order) <==> v in AllVisits(state)
  {
    hide VisitsOf;
    forall v ensures v in VisitsIn(state, order) <==> v in AllVisits(state) {
      VisitsInMembers(state, order, v);
    }
  }

  /** Two walks find the same IPs with the same ports, and the same entries outright exactly when they
      come to the same pod first for every IP. */
  lemma EntriesSameIff(a: seq<PodEntry>, b: seq<PodEntry>, visits: seq<Visit>, visits': seq<Visit>)
    requires EntriesOf(a, visits) && EntriesOf(b, visits') && forall v :: v in visits <==> v in visits'
    ensures |a| == |b| && forall i | 0 <= i < |a| :: a[i].ip == b[i].ip && a[i].ports == b[i].ports
    ensures a == b <==> forall ip :: FirstPod(visits, ip) == FirstPod(visits', ip)
  {
    hide Less, Collects, FirstPod;
    var ia, ib := seq(|a|, i requires 0 <= i < |a| => a[i].ip), seq(|b|, i requires 0 <= i < |b| => b[i].ip);
    forall ip ensures ip in ia <==> ip in ib {
      InIPs(a, ip);
      InIPs(b, ip);
      NeverVisited(visits, ip);
      NeverVisited(visits', ip);
      assert FirstPod(visits, ip).Some? <==> exists i :: 0 <= i < |a| && a[i].ip == ip;
      assert FirstPod(visits', ip).Some? <==> exists i :: 0 <= i < |b| && b[i].ip == ip;
    }
    SortedUnique(ia, ib);
    forall i | 0 <= i < |a|
      ensures a[i].ip == b[i].ip && a[i].ports == b[i].ports
      ensures a[i] == b[i] <==> FirstPod(visits, a[i].ip) == FirstPod(visits', a[i].ip)
    {
      assert ia[i] == ib[i];
      CollectsSame(a[i], b[i], a[i].ip, visits, visits');
    }
    if ip :| FirstPod(visits, ip) != FirstPod(visits', ip) {
      NeverVisited(visits, ip);
      NeverVisited(visits', ip);
      assert FirstPod(visits, ip).Some?;
      var i :| 0 <= i < |a| && a[i].ip == ip;
      assert a[i] != b[i];
    } else {
      assert forall i | 0 <= i < |a| :: a[i] == b[i];
      assert a == b;
    }
  }

  lemma CollectsSame(a: PodEntry, b: PodEntry, ip: string, visits: seq<Visit>, visits': seq<Visit>)
    requires Collects(a, ip, visits) && Collects(b, ip, visits') && Ascending(a.ports) && Ascending(b.ports)
    requires forall v :: v in visits <==> v in visits'
    ensures a.ports == b.ports && (a == b <==> FirstPod(visits, ip) == FirstPod(visits', ip))
  {
    hide FirstPod;
    forall p ensures p in a.ports <==> p in b.ports {
      assert p in a.ports <==> exists v :: v in visits && v.ip == ip && p in v.ports;
      assert p in b.ports <==> exists v :: v in visits' && v.ip == ip && p in v.ports;
    }
    AscendingUnique(a.ports, b.ports);
  }

  /** Slices that visit the same IP come to the same pod first. */
  ghost predicate OnePodEach(state: map<string, Slice>) {
    forall k, k', ip | k in state && k' in state
        && FirstPod(VisitsOf(state[k]), ip).Some? && FirstPod(VisitsOf(state[k']), ip).Some? ::
      FirstPod(VisitsOf(state[k]), ip) == FirstPod(VisitsOf(state[k']), ip)
  }

  lemma {:induction false} FirstPodConcat(a: seq<Visit>, b: seq<Visit>, ip: string)
    ensures FirstPod(a + b, ip) == if FirstPod(a, ip).Some? then FirstPod(a, ip) else FirstPod(b, ip)
  {
    if b == [] {
      assert a + b == a;
    } else {
      var n := |b| - 1;
      FirstPodConcat(a, b[..n], ip);
      assert (a + b)[..|a + b| - 1] == a + b[..n];
    }
  }

  /** The first pod of a walk is the first pod of one of its slices. */
  lemma {:induction false} FirstPodOfSlice(state: map<string, Slice>, order: seq<string>, ip: string)
    ensures FirstPod(VisitsIn(state, order), ip).Some? ==>
      exists k :: k in order && k in state && FirstPod(VisitsOf(state[k]), ip) == FirstPod(VisitsIn(state, order), ip)
    ensures FirstPod(VisitsIn(state, order), ip).None? ==>
      forall k | k in order && k in state :: FirstPod(VisitsOf(state[k]), ip).None?
  {
    hide VisitsOf, FirstPod;
    if order == [] {
      NeverVisited([], ip);
    } else {
      var n := |order| - 1;
      FirstPodOfSlice(state, order[..n], ip);
      assert order == order[..n] + [order[n]];
      if order[n] in state { FirstPodConcat(VisitsIn(state, order[..n]), VisitsOf(state[order[n]]), ip); }
    }
  }

  lemma FirstSliceDecides(state: map<string, Slice>, k: string, rest: seq<string>, ip: string)
    requires k in state && FirstPod(VisitsOf(state[k]), ip).Some?
    ensures FirstPod(VisitsIn(state, [k] + rest), ip) == FirstPod(VisitsOf(state[k]), ip)
    decreases |rest|
  {
    hide VisitsOf, FirstPod;
    if rest == [] {
      assert [k] + rest == [k] && [k][..0] == [];
      assert VisitsIn(state, [k]) == VisitsOf(state[k]);
    } else {
      var n := |rest| - 1;
      FirstSliceDecides(state, k, rest[..n], ip);
      assert ([k] + rest)[..|[k] + rest| - 1] == [k] + rest[..n];
      if rest[n] in state { FirstPodConcat(VisitsIn(state, [k] + rest[..n]), VisitsOf(state[rest[n]]), ip); }
    }
  }

  /** The walk's order shows in no placement, and so in no entry, exactly when slices that visit the
      same IP come to the same pod first. */
  lemma PodsWalkIff(state: map<string, Slice>)
    ensures OnePodEach(state) <==>
      forall o, o', ip | Walk(o, state.Keys) && Walk(o', state.Keys) :: FirstPod(VisitsIn(state, o), ip) == FirstPod(VisitsIn(state, o'), ip)
  {
    hide FirstPod, VisitsOf, VisitsIn;
    if OnePodEach(state) {
      forall o, o', ip | Walk(o, state.Keys) && Walk(o', state.Keys)
        ensures FirstPod(VisitsIn(state, o), ip) == FirstPod(VisitsIn(state, o'), ip)
      {
        FirstPodOfSlice(state, o, ip);
        FirstPodOfSlice(state, o', ip);
      }
    } else {
      var k, k', ip :| k in state && k' in state
        && FirstPod(VisitsOf(state[k]), ip).Some? && FirstPod(VisitsOf(state[k']), ip).Some?
        && FirstPod(VisitsOf(state[k]), ip) != FirstPod(VisitsOf(state[k']), ip);
      var rest := WalkStartingWith(state.Keys, k);
      var rest' := WalkStartingWith(state.Keys, k');
      FirstSliceDecides(state, k, rest, ip);
      FirstSliceDecides(state, k', rest', ip);
    }
  }

  lemma InIPs(a: seq<PodEntry>, ip: string)
    ensures ip in seq(|a|, i requires 0 <= i < |a| => a[i].ip) <==> exists i :: 0 <= i < |a| && a[i].ip == ip
  {
    var ips := seq(|a|, i requires 0 <= i < |a| => a[i].ip);
    if i :| 0 <= i < |a| && a[i].ip == ip { assert ips[i] == ip; }
  }

  // ----- the visits, read off the state -----

  /** An endpoint counts when it is ready, or not known not to be and not terminating. */
  ghost predicate Serving(ep: SliceEndpoint) {
    ep.ready == Some(true) || (ep.ready == None && ep.terminating != Some(true))
  }

  /** An address of a serving endpoint that a slice says is a pod's, with the slice's set ports; the
      pod's namespace is the slice's when the reference has none. */
  ghost predicate SliceVisits(slice: Slice, v: Visit) {
    && (exists ep :: ep in slice.endpoints && Serving(ep) && v.ip in ep.addresses && NamesPod(slice, ep, v.pl))
    && forall n :: n in v.ports <==> n != 0 && exists p :: p in slice.ports && p.port == n
  }

  ghost predicate NamesPod(slice: Slice, ep: SliceEndpoint, pl: Placement) {
    && ep.target.Some? && ep.target.value.kind == "Pod" && ep.target.value.name == pl.pod != ""
    && pl.namespace == if ep.target.value.namespace == "" then slice.namespace else ep.target.value.namespace
  }

  lemma {:induction false} AddressVisitsMembers(slice: Slice, ep: SliceEndpoint, n: nat, v: Visit)
    requires n <= |ep.addresses| && PodBacked(ep)
    ensures v in AddressVisits(slice, ep, n) <==> exists i :: 0 <= i < n && v == VisitAt(slice, ep, ep.addresses[i])
  {
    hide VisitAt;
    if n > 0 { AddressVisitsMembers(slice, ep, n - 1, v); }
  }

  lemma {:induction false} EndpointVisitsMembers(slice: Slice, n: nat, v: Visit)
    requires n <= |slice.endpoints|
    ensures v in EndpointVisits(slice, n) <==> exists i :: 0 <= i < n && EndpointVisit(slice, slice.endpoints[i], v)
  {
    hide AddressVisits, Ready, PodBacked, VisitAt;
    if n > 0 {
      EndpointVisitsMembers(slice, n - 1, v);
      var ep := slice.endpoints[n - 1];
      if Ready(ep) && PodBacked(ep) {
        AddressVisitsMembers(slice, ep, |ep.addresses|, v);
        assert v in AddressVisits(slice, ep, |ep.addresses|) <==> EndpointVisit(slice, ep, v);
      }
    }
  }

  ghost predicate EndpointVisit(slice: Slice, ep: SliceEndpoint, v: Visit) {
    Ready(ep) && PodBacked(ep) && exists i :: 0 <= i < |ep.addresses| && v == VisitAt(slice, ep, ep.addresses[i])
  }

  lemma EndpointVisitIs(slice: Slice, ep: SliceEndpoint, v: Visit)
    ensures EndpointVisit(slice, ep, v) <==>
      Serving(ep) && v.ip in ep.addresses && NamesPod(slice, ep, v.pl) && v.ports == NonzeroPorts(slice)
  {
    hide NonzeroPorts;
    if Serving(ep) && v.ip in ep.addresses && NamesPod(slice, ep, v.pl) && v.ports == NonzeroPorts(slice) {
      var i :| 0 <= i < |ep.addresses| && ep.addresses[i] == v.ip;
      assert v == VisitAt(slice, ep, ep.addresses[i]);
    }
  }

  /** The visits are exactly those the slices' own fields call for. */
  lemma VisitsAre(state: map<string, Slice>, v: Visit)
    ensures v in AllVisits(state) <==> exists k :: k in state && SliceVisits(state[k], v)
  {
    hide EndpointVisits, EndpointVisit, Serving, NamesPod;
    forall k | k in state ensures v in VisitsOf(state[k]) <==> SliceVisits(state[k], v) {
      var slice := state[k];
      EndpointVisitsMembers(slice, |slice.endpoints|, v);
      forall ep ensures EndpointVisit(slice, ep, v) <==>
        Serving(ep) && v.ip in ep.addresses && NamesPod(slice, ep, v.pl) && v.ports == NonzeroPorts(slice)
      {
        EndpointVisitIs(slice, ep, v);
      }
      PortsAreNonzero(slice, v.ports);
    }
  }

  lemma PortsAreNonzero(slice: Slice, ports: set<int>)
    ensures ports == NonzeroPorts(slice) <==> forall n :: n in ports <==> n != 0 && exists p :: p in slice.ports && p.port == n
  {
    forall n ensures n in NonzeroPorts(slice) <==> n != 0 && exists p :: p in slice.ports && p.port == n {
    }
  }

  // ----- what the pod index then knows -----

  ghost predicate Visited(visits: set<Visit>, ip: string) {
    exists v :: v in visits && v.ip == ip
  }

  /** The index built from the entries serves, for every IP, exactly the nonzero ports of its ready
      pod-backed endpoints, and places exactly the IPs visited, each on a pod that claims it. */
  lemma EntriesServeVisits(entries: seq<PodEntry>, walk: seq<Visit>, visits: set<Visit>)
    requires EntriesOf(entries, walk) && (forall v :: v in walk <==> v in visits) && forall v | v in visits :: v.pl.pod != ""
    ensures forall ip, p :: (ip, p) in Targets(entries) <==> exists v, n :: v in visits && v.ip == ip && n in v.ports && p == Itoa(n)
    ensures forall ip :: PlacedBy(entries, ip).Some? <==> Visited(visits, ip)
    ensures forall ip | PlacedBy(entries, ip).Some? :: exists v :: v in visits && v.ip == ip && v.pl == PlacedBy(entries, ip).value
  {
    hide Itoa, Less, PlacedBy, FirstPod;
    forall ip, p ensures (ip, p) in Targets(entries) <==> exists v, n :: v in visits && v.ip == ip && n in v.ports && p == Itoa(n) {
      if (ip, p) in Targets(entries) {
        var e, n :| e in entries && n in e.ports && (ip, p) == (e.ip, Itoa(n));
        var i :| 0 <= i < |entries| && entries[i] == e;
        assert Collects(e, ip, walk);
      }
      if v, n :| v in visits && v.ip == ip && n in v.ports && p == Itoa(n) {
        NeverVisited(walk, ip);
        assert v in walk;
        var i :| 0 <= i < |entries| && entries[i].ip == ip;
        assert Collects(entries[i], ip, walk) && n in entries[i].ports && entries[i] in entries;
      }
    }
    EntriesPlaceVisits(entries, walk, visits);
  }

  lemma EntriesPlaceVisits(entries: seq<PodEntry>, walk: seq<Visit>, visits: set<Visit>)
    requires EntriesOf(entries, walk) && (forall v :: v in walk <==> v in visits) && forall v | v in visits :: v.pl.pod != ""
    ensures forall ip :: PlacedBy(entries, ip).Some? <==> Visited(visits, ip)
    ensures forall ip | PlacedBy(entries, ip).Some? :: exists v :: v in visits && v.ip == ip && v.pl == PlacedBy(entries, ip).value
  {
    hide Less, PlacedBy, FirstPod;
    forall ip | Visited(visits, ip) ensures PlacedBy(entries, ip).Some? {
      NeverVisited(walk, ip);
      var v :| v in visits && v.ip == ip;
      assert v in walk;
      var i :| 0 <= i < |entries| && entries[i].ip == ip;
      assert Collects(entries[i], ip, walk);
      EntryPlaces(entries, i);
    }
    forall ip | PlacedBy(entries, ip).Some?
      ensures exists v :: v in visits && v.ip == ip && v.pl == PlacedBy(entries, ip).value
    {
      PlacedByEntry(entries, ip);
      NeverVisited(walk, ip);
      var i :| 0 <= i < |entries| && entries[i].ip == ip && PlacedBy(entries, ip) == Some(Placement(entries[i].namespace, entries[i].pod));
      assert Collects(entries[i], ip, walk);
    }
  }

  lemma {:induction false} EntryPlaces(entries: seq<PodEntry>, i: nat)
    requires i < |entries| && entries[i].pod != ""
    ensures PlacedBy(entries, entries[i].ip).Some?
  {
    if i < |entries| - 1 { EntryPlaces(entries[..|entries| - 1], i); }
  }

  lemma {:induction false} AddressVisitsNamePods(slice: Slice, ep: SliceEndpoint, n: nat)
    requires n <= |ep.addresses| && PodBacked(ep)
    ensures forall v | v in AddressVisits(slice, ep, n) :: v.pl.pod != ""
  {
    if n > 0 { AddressVisitsNamePods(slice, ep, n - 1); }
  }

  lemma {:induction false} EndpointVisitsNamePods(slice: Slice, n: nat)
    requires n <= |slice.endpoints|
    ensures forall v | v in EndpointVisits(slice, n) :: v.pl.pod != ""
  {
    hide AddressVisits;
    if n > 0 {
      var ep := slice.endpoints[n - 1];
      EndpointVisitsNamePods(slice, n - 1);
      if Ready(ep) && PodBacked(ep) { AddressVisitsNamePods(slice, ep, |ep.addresses|); }
    }
  }

  /** The state's visits all name a pod. */
  lemma VisitsNamePods(state: map<string, Slice>)
    ensures forall v | v in AllVisits(state) :: v.pl.pod != ""
  {
    hide EndpointVisits;
    forall v | v in AllVisits(state) ensures v.pl.pod != "" {
      var k :| k in state && v in VisitsOf(state[k]);
      EndpointVisitsNamePods(state[k], |state[k].endpoints|);
    }
  }

  lemma {:induction false} PlacedByEntry(entries: seq<PodEntry>, ip: string)
    ensures PlacedBy(entries, ip).Some? ==>
      exists i :: 0 <= i < |entries| && entries[i].ip == ip && PlacedBy(entries, ip) == Some(Placement(entries[i].namespace, entries[i].pod))
  {
    if entries != [] {
      var n := |entries| - 1;
      PlacedByEntry(entries[..n], ip);
      if PlacedBy(entries, ip).Some? && PlacedBy(entries, ip) == PlacedBy(entries[..n], ip) {
        var i :| 0 <= i < n && entries[..n][i].ip == ip
          && PlacedBy(entries, ip) == Some(Placement(entries[..n][i].namespace, entries[..n][i].pod));
        assert entries[i].ip == ip;
      }
    }
  }
}
