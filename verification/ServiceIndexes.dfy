// The Service VIP index (internal/aggregator/discovery/service.go): how it is rebuilt from Service
// and EndpointSlice state walked in any order, and what a VIP resolves to.
module ServiceIndexes {
  import opened Indexes
  import opened Ordering

  datatype ServiceObject = ServiceObject(
    namespace: string, name: string, clusterIP: string, clusterIPs: seq<string>, ports: seq<ServicePort>)

  // ----- Services -----

  /** Routable ClusterIPs: neither unset nor headless. */
  function ClusterIPs(so: ServiceObject): set<string> {
    (set ip | ip in so.clusterIPs) + {so.clusterIP} - {"", "None"}
  }

  method ClusterIPsOf(so: ServiceObject) returns (out: seq<string>)
    ensures forall i, j | 0 <= i < j < |out| :: out[i] != out[j]
    ensures forall ip :: ip in out <==> ip != "" && ip != "None" && (ip == so.clusterIP || ip in so.clusterIPs)
    ensures forall ip :: ip in out <==> ip in ClusterIPs(so)
  {
    out := [];
    if so.clusterIP != "" && so.clusterIP != "None" {
      out := [so.clusterIP];
    }
    for i := 0 to |so.clusterIPs|
      invariant forall i, j | 0 <= i < j < |out| :: out[i] != out[j]
      invariant forall ip :: ip in out <==> ip != "" && ip != "None" && (ip == so.clusterIP || ip in so.clusterIPs[..i])
    {
      var ip := so.clusterIPs[i];
      if ip != "" && ip != "None" && ip !in out {
        out := out + [ip];
      }
    }
    assert so.clusterIPs[..|so.clusterIPs|] == so.clusterIPs;
  }

  function Nonzero(ports: seq<ServicePort>): seq<ServicePort> {
    if ports == [] then []
    else
      var n := |ports| - 1;
      Nonzero(ports[..n]) + if ports[n].port != 0 then [ports[n]] else []
  }

  ghost predicate Absent(ports: seq<ServicePort>, port: int) {
    forall i | 0 <= i < |ports| :: ports[i].port != port
  }

  lemma AbsentSnoc(ports: seq<ServicePort>, p: ServicePort, port: int)
    ensures Absent(ports + [p], port) <==> Absent(ports, port) && p.port != port
  {
    var all := ports + [p];
    assert all[|ports|] == p && forall i | 0 <= i < |ports| :: all[i] == ports[i];
  }

  lemma PublishesSnoc(ports: seq<ServicePort>, p: ServicePort, port: int, n: string)
    ensures Publishes(ports + [p], port, n) <==>
      Publishes(ports, port, n) || (p == ServicePort(port, n) && Absent(ports, port))
  {
    var all := ports + [p];
    assert forall i | 0 <= i < |ports| :: all[i] == ports[i];
    if i :| 0 <= i < |ports| && ports[i] == ServicePort(port, n) && forall j | 0 <= j < i :: ports[j].port != port {
      assert all[i] == ServicePort(port, n);
    }
    if p == ServicePort(port, n) && forall i | 0 <= i < |ports| :: ports[i].port != port {
      assert all[|ports|] == ServicePort(port, n);
    }
  }

  /** Leaving out unset ports changes nothing for a set one. */
  lemma {:induction false} NonzeroPublishes(ports: seq<ServicePort>, port: int, n: string)
    ensures Publishes(Nonzero(ports), port, n) <==> port != 0 && Publishes(ports, port, n)
    ensures port != 0 ==> (Absent(Nonzero(ports), port) <==> Absent(ports, port))
  {
    hide Publishes, Absent;
    if ports == [] {
      NothingPublished(port, n);
    } else {
      var k := |ports| - 1;
      var init, p := ports[..k], ports[k];
      NonzeroPublishes(init, port, n);
      assert ports == init + [p];
      PublishesSnoc(init, p, port, n);
      PublishesSnoc(Nonzero(init), p, port, n);
      AbsentSnoc(init, p, port);
      AbsentSnoc(Nonzero(init), p, port);
      if p.port == 0 { assert Nonzero(ports) == Nonzero(init); }
    }
  }

  lemma NothingPublished(port: int, n: string)
    ensures !Publishes([], port, n) && Absent([], port)
  {
  }

  lemma {:induction false} SomeNonzero(ports: seq<ServicePort>)
    ensures Nonzero(ports) != [] <==> exists p :: p in ports && p.port != 0
  {
    if ports != [] {
      var n := |ports| - 1;
      SomeNonzero(ports[..n]);
      assert ports == ports[..n] + [ports[n]];
    }
  }

  method NonzeroList(ports: seq<ServicePort>) returns (out: seq<ServicePort>)
    ensures out == Nonzero(ports)
  {
    out := [];
    for i := 0 to |ports|
      invariant out == Nonzero(ports[..i])
    {
      assert ports[..i + 1][..i] == ports[..i];
      if ports[i].port != 0 {
        out := out + [ports[i]];
      }
    }
    assert ports[..|ports|] == ports;
  }

  function EntryOf(so: ServiceObject): ServiceEntry {
    ServiceEntry(ServiceRef(so.namespace, so.name), Nonzero(so.ports))
  }

  /** A named Service with a port claims its ClusterIPs. */
  predicate Claims(so: ServiceObject, ip: string) {
    so.name != "" && Nonzero(so.ports) != [] && ip in ClusterIPs(so)
  }

  /** A named Service with a set port, and a ClusterIP of it that is neither unset nor headless. */
  ghost predicate Owns(so: ServiceObject, ip: string) {
    && so.name != "" && (exists p :: p in so.ports && p.port != 0)
    && ip != "" && ip != "None" && (ip == so.clusterIP || ip in so.clusterIPs)
  }

  lemma ClaimsIffOwns(so: ServiceObject, ip: string)
    ensures Claims(so, ip) <==> Owns(so, ip)
  {
    SomeNonzero(so.ports);
  }

  ghost predicate Claimed(state: map<string, ServiceObject>, keys: set<string>, ip: string, entry: ServiceEntry) {
    exists k :: k in keys && k in state && Claims(state[k], ip) && entry == EntryOf(state[k])
  }

  /** The map holds an entry for every claimed ClusterIP, of a Service that claims it. */
  ghost predicate Owned(out: map<string, ServiceEntry>, state: map<string, ServiceObject>, keys: set<string>) {
    && (forall ip | ip in out :: Claimed(state, keys, ip, out[ip]))
    && (forall k, ip | k in keys && k in state && Claims(state[k], ip) :: ip in out)
  }

  /** What one Service adds. */
  function Claimings(so: ServiceObject): map<string, ServiceEntry> {
    map ip | ip in ClusterIPs(so) && Claims(so, ip) :: EntryOf(so)
  }

  /** The map after walking the state in an order: later Services take over. */
  function ServicesIn(state: map<string, ServiceObject>, order: seq<string>): map<string, ServiceEntry> {
    if order == [] then map[]
    else
      var init, k := order[..|order| - 1], order[|order| - 1];
      if k in state then ServicesIn(state, init) + Claimings(state[k]) else ServicesIn(state, init)
  }

  method AddService(out: map<string, ServiceEntry>, so: ServiceObject) returns (r: map<string, ServiceEntry>)
    ensures r == out + Claimings(so)
  {
    r := out;
    if so.name == "" {
      return;
    }
    var ports := NonzeroList(so.ports);
    if ports == [] {
      return;
    }
    var entry := ServiceEntry(ServiceRef(so.namespace, so.name), ports);
    var ips := ClusterIPsOf(so);
    ClaimingsAre(so, ips);
    hide Claimings, ClusterIPs, Nonzero;
    assert ips[..0] == [];
    for i := 0 to |ips|
      invariant r == out + AllTo(ips[..i], entry)
    {
      assert ips[..i + 1] == ips[..i] + [ips[i]];
      AllToSnoc(out, ips[..i], ips[i], entry);
      r := r[ips[i] := entry];
    }
    assert ips[..|ips|] == ips;
  }

  function AllTo(ips: seq<string>, entry: ServiceEntry): map<string, ServiceEntry> {
    map ip | ip in ips :: entry
  }

  lemma AllToSnoc(out: map<string, ServiceEntry>, ips: seq<string>, ip: string, entry: ServiceEntry)
    ensures out + AllTo(ips + [ip], entry) == (out + AllTo(ips, entry))[ip := entry]
  {
  }

  lemma ClaimingsAre(so: ServiceObject, ips: seq<string>)
    requires so.name != "" && Nonzero(so.ports) != [] && forall ip :: ip in ips <==> ip in ClusterIPs(so)
    ensures Claimings(so) == AllTo(ips, EntryOf(so))
  {
  }

  /** The walk takes the keys in some order. */
  method BuildServices(state: map<string, ServiceObject>) returns (out: map<string, ServiceEntry>, ghost order: seq<string>)
    ensures Walk(order, state.Keys) && out == ServicesIn(state, order)
    ensures Owned(out, state, state.Keys)
  {
    hide Owned, Claimings;
    out, order := map[], [];
    var todo := state.Keys;
    while todo != {}
      invariant todo <= state.Keys && Walk(order, state.Keys - todo) && out == ServicesIn(state, order)
      decreases |todo|
    {
      var k :| k in todo;
      WalkNext(order, state.Keys - todo, k);
      assert state.Keys - (todo - {k}) == state.Keys - todo + {k};
      out := AddService(out, state[k]);
      assert (order + [k])[..|order|] == order;
      order := order + [k];
      todo := todo - {k};
    }
    assert state.Keys - todo == state.Keys;
    WalkOwns(state, order, state.Keys);
  }

  /** Whatever the order, exactly the claimed ClusterIPs have an entry, of a Service that claims them. */
  lemma {:induction false} WalkOwns(state: map<string, ServiceObject>, order: seq<string>, keys: set<string>)
    requires Walk(order, keys) && keys <= state.Keys
    ensures Owned(ServicesIn(state, order), state, keys)
    decreases |order|
  {
    if order == [] {
      assert keys == {};
    } else {
      var n := |order| - 1;
      var k, init := order[n], order[..n];
      assert order == init + [k] && k in order;
      WalkOwns(state, init, keys - {k});
      OwnedWith(ServicesIn(state, init), state, keys - {k}, k);
      assert keys - {k} + {k} == keys;
    }
  }

  lemma OwnedWith(out: map<string, ServiceEntry>, state: map<string, ServiceObject>, keys: set<string>, k: string)
    requires Owned(out, state, keys) && k in state
    ensures Owned(out + Claimings(state[k]), state, keys + {k})
  {
    hide EntryOf, ClusterIPs, Nonzero;
    var r := out + Claimings(state[k]);
    forall ip | ip in r ensures Claimed(state, keys + {k}, ip, r[ip]) {
      if ip in Claimings(state[k]) {
        assert k in keys + {k};
      } else {
        var k' :| k' in keys && k' in state && Claims(state[k'], ip) && out[ip] == EntryOf(state[k']);
        assert k' in keys + {k};
      }
    }
  }

  /** No ClusterIP is claimed by two Services. */
  ghost predicate UniqueIPs(state: map<string, ServiceObject>) {
    forall k, k', ip | k in state && k' in state && Claims(state[k], ip) && Claims(state[k'], ip) ::
      EntryOf(state[k]) == EntryOf(state[k'])
  }

  /** Then the map does not depend on the order of the walk. */
  lemma OwnedUnique(a: map<string, ServiceEntry>, b: map<string, ServiceEntry>, state: map<string, ServiceObject>)
    requires Owned(a, state, state.Keys) && Owned(b, state, state.Keys) && UniqueIPs(state)
    ensures a == b
  {
    hide Claims, EntryOf;
    forall ip ensures ip in a <==> ip in b {
      if ip in a { assert Claimed(state, state.Keys, ip, a[ip]); }
      if ip in b { assert Claimed(state, state.Keys, ip, b[ip]); }
    }
    forall ip | ip in a ensures a[ip] == b[ip] {
      assert Claimed(state, state.Keys, ip, a[ip]) && Claimed(state, state.Keys, ip, b[ip]);
    }
  }

  /** The walk's order shows in nothing exactly when no ClusterIP is claimed by two Services. */
  lemma ServicesWalkIff(state: map<string, ServiceObject>)
    ensures UniqueIPs(state) <==>
      forall o, o' | Walk(o, state.Keys) && Walk(o', state.Keys) :: ServicesIn(state, o) == ServicesIn(state, o')
  {
    hide EntryOf, Walk, Claims, Owned;
    if UniqueIPs(state) {
      forall o, o' | Walk(o, state.Keys) && Walk(o', state.Keys) ensures ServicesIn(state, o) == ServicesIn(state, o') {
        WalkOwns(state, o, state.Keys);
        WalkOwns(state, o', state.Keys);
        OwnedUnique(ServicesIn(state, o), ServicesIn(state, o'), state);
      }
    } else {
      var k, k', ip :| k in state && k' in state && Claims(state[k], ip) && Claims(state[k'], ip) && EntryOf(state[k]) != EntryOf(state[k']);
      var o := LastClaims(state, k, ip);
      var o' := LastClaims(state, k', ip);
      assert ServicesIn(state, o) != ServicesIn(state, o');
    }
  }

  lemma LastClaims(state: map<string, ServiceObject>, k: string, ip: string) returns (o: seq<string>)
    requires k in state && Claims(state[k], ip)
    ensures Walk(o, state.Keys) && ip in ServicesIn(state, o) && ServicesIn(state, o)[ip] == EntryOf(state[k])
  {
    var before := WalkEndingIn(state.Keys, k);
    o := before + [k];
    assert o[..|before|] == before;
  }
}
