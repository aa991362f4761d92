// The EndpointSlice half of the Service VIP index (internal/aggregator/discovery/service.go,
// applySlices): slices grouped by owning Service.
module SliceGroups {
  import opened Indexes
  import opened Ordering
  import opened SliceFold

  function OwnerKey(slice: Slice): string {
    GroupKey(ServiceRef(slice.namespace, slice.service))
  }

  /** The slice belongs to the group. */
  predicate Of(slice: Slice, key: string) {
    slice.service != "" && OwnerKey(slice) == key
  }

  function ReadyAddresses(slice: Slice): set<string> {
    set ep, ip | ep in slice.endpoints && Ready(ep) && ip in ep.addresses :: ip
  }

  /** Port names of a slice; the last nonzero port under a name counts. */
  function NamedPorts(ports: seq<SlicePort>): map<string, int> {
    if ports == [] then map[]
    else
      var init, p := NamedPorts(ports[..|ports| - 1]), ports[|ports| - 1];
      if p.port != 0 then init[p.name := p.port] else init
  }

  function Published(slice: Slice): set<SlicePort> {
    set n | n in NamedPorts(slice.ports) :: SlicePort(n, NamedPorts(slice.ports)[n])
  }

  lemma {:induction false} PublishedByPort(ports: seq<SlicePort>)
    ensures forall n | n in NamedPorts(ports) :: NamedPorts(ports)[n] != 0 && SlicePort(n, NamedPorts(ports)[n]) in ports
  {
    if ports != [] {
      PublishedByPort(ports[..|ports| - 1]);
    }
  }

  /** The last set port under a name. */
  ghost predicate LastUnder(ports: seq<SlicePort>, p: SlicePort) {
    p.port != 0 && exists i :: 0 <= i < |ports| && ports[i] == p && forall j | i < j < |ports| && ports[j].name == p.name :: ports[j].port == 0
  }

  lemma {:induction false} NamedPortsAre(ports: seq<SlicePort>, p: SlicePort)
    ensures p.name in NamedPorts(ports) && NamedPorts(ports)[p.name] == p.port <==> LastUnder(ports, p)
  {
    if ports != [] {
      var n := |ports| - 1;
      var init := ports[..n];
      NamedPortsAre(init, p);
      if i :| 0 <= i < n && init[i] == p && forall j | i < j < n && init[j].name == p.name :: init[j].port == 0 {
        assert ports[i] == p;
      }
      if LastUnder(ports, p) {
        var i :| 0 <= i < |ports| && ports[i] == p && forall j | i < j < |ports| && ports[j].name == p.name :: ports[j].port == 0;
        if i < n {
          assert init[i] == p && forall j | i < j < n :: init[j] == ports[j];
        }
      }
    }
  }

  /** A serving address of a slice labelled with the Service. */
  ghost predicate ServedBy(slices: map<string, Slice>, ref: ServiceRef, ip: string) {
    exists k, ep :: k in slices && slices[k].service != "" && GroupKey(ref) == GroupKey(ServiceRef(slices[k].namespace, slices[k].service))
      && ep in slices[k].endpoints && Serving(ep) && ip in ep.addresses
  }

  /** A target port that a slice labelled with the Service gives under a name. */
  ghost predicate TargetOf(slices: map<string, Slice>, ref: ServiceRef, p: SlicePort) {
    exists k :: k in slices && slices[k].service != "" && GroupKey(ref) == GroupKey(ServiceRef(slices[k].namespace, slices[k].service))
      && LastUnder(slices[k].ports, p)
  }

  lemma GroupIsServed(slices: map<string, Slice>, ref: ServiceRef, ip: string)
    ensures ip in GroupAddresses(slices, slices.Keys, GroupKey(ref)) <==> ServedBy(slices, ref, ip)
  {
    hide GroupKey;
    if ServedBy(slices, ref, ip) {
      var k, ep :| k in slices && slices[k].service != "" && GroupKey(ref) == GroupKey(ServiceRef(slices[k].namespace, slices[k].service))
        && ep in slices[k].endpoints && Serving(ep) && ip in ep.addresses;
      assert Of(slices[k], GroupKey(ref)) && ip in ReadyAddresses(slices[k]);
    }
    if ip in GroupAddresses(slices, slices.Keys, GroupKey(ref)) {
      var k :| k in slices && Of(slices[k], GroupKey(ref)) && ip in ReadyAddresses(slices[k]);
      var ep :| ep in slices[k].endpoints && Ready(ep) && ip in ep.addresses;
      assert Serving(ep);
    }
  }

  lemma GroupIsTargeted(slices: map<string, Slice>, ref: ServiceRef, p: SlicePort)
    ensures p in GroupPorts(slices, slices.Keys, GroupKey(ref)) <==> TargetOf(slices, ref, p)
  {
    hide GroupKey, NamedPorts, LastUnder;
    if TargetOf(slices, ref, p) {
      var k :| k in slices && slices[k].service != "" && GroupKey(ref) == GroupKey(ServiceRef(slices[k].namespace, slices[k].service))
        && LastUnder(slices[k].ports, p);
      NamedPortsAre(slices[k].ports, p);
      assert Of(slices[k], GroupKey(ref)) && p in Published(slices[k]);
    }
    if p in GroupPorts(slices, slices.Keys, GroupKey(ref)) {
      var k :| k in slices && Of(slices[k], GroupKey(ref)) && p in Published(slices[k]);
      NamedPortsAre(slices[k].ports, p);
    }
  }

  /** The ready addresses of a group's slices, and the named target ports they publish. */
  ghost function GroupAddresses(state: map<string, Slice>, keys: set<string>, key: string): set<string> {
    set k, ip | k in keys && k in state && Of(state[k], key) && ip in ReadyAddresses(state[k]) :: ip
  }

  ghost function GroupPorts(state: map<string, Slice>, keys: set<string>, key: string): set<SlicePort> {
    set k, p | k in keys && k in state && Of(state[k], key) && p in Published(state[k]) :: p
  }

  ghost predicate Populated(state: map<string, Slice>, keys: set<string>, key: string) {
    exists k :: k in keys && k in state && Of(state[k], key)
  }

  /** Exactly the published names, each with a port published under it. */
  ghost predicate Names(ports: map<string, int>, published: set<SlicePort>) {
    && (forall n | n in ports :: SlicePort(n, ports[n]) in published)
    && (forall p | p in published :: p.name in ports)
  }

  /** A group being built. */
  datatype Group = Group(ports: map<string, int>, ips: set<string>)

  ghost predicate Building(groups: map<string, Group>, state: map<string, Slice>, keys: set<string>) {
    && (forall key :: key in groups <==> Populated(state, keys, key))
    && (forall key | key in groups ::
      groups[key].ips == GroupAddresses(state, keys, key) && Names(groups[key].ports, GroupPorts(state, keys, key)))
  }

  method AddPortNames(ports: map<string, int>, slice: Slice) returns (r: map<string, int>)
    ensures r == ports + NamedPorts(slice.ports)
  {
    r := ports;
    for i := 0 to |slice.ports|
      invariant r == ports + NamedPorts(slice.ports[..i])
    {
      var p := slice.ports[i];
      assert slice.ports[..i + 1][..i] == slice.ports[..i];
      if p.port != 0 {
        r := r[p.name := p.port];
      }
    }
    assert slice.ports[..|slice.ports|] == slice.ports;
  }

  method AddReady(ips: set<string>, slice: Slice) returns (r: set<string>)
    ensures r == ips + ReadyAddresses(slice)
  {
    r := ips;
    for i := 0 to |slice.endpoints|
      invariant forall ip :: ip in r <==> ip in ips || exists j :: 0 <= j < i && Ready(slice.endpoints[j]) && ip in slice.endpoints[j].addresses
    {
      var ep := slice.endpoints[i];
      if Ready(ep) {
        r := r + set ip | ip in ep.addresses;
      }
    }
    forall ip ensures ip in r <==> ip in ips + ReadyAddresses(slice) {
      if ip in r && ip !in ips {
        var j :| 0 <= j < |slice.endpoints| && Ready(slice.endpoints[j]) && ip in slice.endpoints[j].addresses;
        assert slice.endpoints[j] in slice.endpoints;
      }
    }
  }

  /** One slice more. */
  ghost predicate Grouping(state: map<string, Slice>, keys: set<string>, k: string, key: string)
    requires k in state
  {
    var addresses, ports := GroupAddresses(state, keys, key), GroupPorts(state, keys, key);
    && GroupAddresses(state, keys + {k}, key) == (if Of(state[k], key) then addresses + ReadyAddresses(state[k]) else addresses)
    && GroupPorts(state, keys + {k}, key) == (if Of(state[k], key) then ports + Published(state[k]) else ports)
    && (Populated(state, keys + {k}, key) <==> Populated(state, keys, key) || Of(state[k], key))
  }

  lemma GroupStep(state: map<string, Slice>, keys: set<string>, k: string, key: string)
    requires k in state
    ensures Grouping(state, keys, k, key)
  {
    hide Of, ReadyAddresses, Published;
    if Of(state[k], key) { assert k in keys + {k}; }
    if Populated(state, keys, key) {
      var k' :| k' in keys && k' in state && Of(state[k'], key);
      assert k' in keys + {k};
    }
  }

  lemma NoneYet(state: map<string, Slice>, keys: set<string>, key: string)
    requires !Populated(state, keys, key)
    ensures GroupAddresses(state, keys, key) == {} && GroupPorts(state, keys, key) == {}
  {
    hide Of;
  }

  /** One slice into its group. */
  function Joined(groups: map<string, Group>, slice: Slice): map<string, Group> {
    if slice.service == "" then groups
    else
      var key := OwnerKey(slice);
      var g := if key in groups then groups[key] else Group(map[], {});
      groups[key := Group(g.ports + NamedPorts(slice.ports), g.ips + ReadyAddresses(slice))]
  }

  /** The groups after walking the state in an order. */
  function GroupsIn(state: map<string, Slice>, order: seq<string>): map<string, Group> {
    if order == [] then map[]
    else
      var init, k := order[..|order| - 1], order[|order| - 1];
      if k in state then Joined(GroupsIn(state, init), state[k]) else GroupsIn(state, init)
  }

  method AddToGroups(groups: map<string, Group>, slice: Slice) returns (r: map<string, Group>)
    ensures r == Joined(groups, slice)
  {
    hide ReadyAddresses, NamedPorts;
    r := groups;
    if slice.service == "" {
      return;
    }
    var key := OwnerKey(slice);
    var g := if key in groups then groups[key] else Group(map[], {});
    var ports := AddPortNames(g.ports, slice);
    var ips := AddReady(g.ips, slice);
    r := groups[key := Group(ports, ips)];
  }

  lemma NamesMore(ports: map<string, int>, published: set<SlicePort>, slice: Slice)
    requires Names(ports, published)
    ensures Names(ports + NamedPorts(slice.ports), published + Published(slice))
  {
    hide NamedPorts;
  }

  lemma BuildingMore(groups: map<string, Group>, state: map<string, Slice>, keys: set<string>, k: string)
    requires Building(groups, state, keys) && k in state
    ensures Building(Joined(groups, state[k]), state, keys + {k})
  {
    hide Names, GroupAddresses, GroupPorts, Populated, ReadyAddresses, Published, OwnerKey, NamedPorts;
    var slice, r := state[k], Joined(groups, state[k]);
    forall key ensures Grouping(state, keys, k, key) && (key in r <==> Populated(state, keys + {k}, key)) {
      GroupStep(state, keys, k, key);
    }
    if slice.service != "" {
      var key := OwnerKey(slice);
      var g := if key in groups then groups[key] else Group(map[], {});
      if key !in groups {
        NoneYet(state, keys, key);
        NoNames();
      }
      NamesMore(g.ports, GroupPorts(state, keys, key), slice);
    }
    forall key | key in r
      ensures r[key].ips == GroupAddresses(state, keys + {k}, key) && Names(r[key].ports, GroupPorts(state, keys + {k}, key))
    {
      assert Grouping(state, keys, k, key);
    }
  }

  /** Whatever the order, groups hold exactly the ready addresses and published names. */
  lemma {:induction false} WalkBuilds(state: map<string, Slice>, order: seq<string>, keys: set<string>)
    requires Walk(order, keys) && keys <= state.Keys
    ensures Building(GroupsIn(state, order), state, keys)
    decreases |order|
  {
    hide Building, Joined;
    if order == [] {
      assert keys == {};
      NoGroups(state);
    } else {
      var n := |order| - 1;
      var k, init := order[n], order[..n];
      assert order == init + [k] && k in order;
      WalkBuilds(state, init, keys - {k});
      BuildingMore(GroupsIn(state, init), state, keys - {k}, k);
      assert keys - {k} + {k} == keys;
    }
  }

  lemma NoNames()
    ensures Names(map[], {})
  {
  }

  /** The finished map: per Service, ready addresses in order, each once, and named ports. */
  ghost predicate Grouped(out: map<string, SliceGroup>, state: map<string, Slice>) {
    && (forall key :: key in out <==> Populated(state, state.Keys, key))
    && (forall key | key in out ::
      && Sorted(out[key].podIPs) && (forall ip :: ip in out[key].podIPs <==> ip in GroupAddresses(state, state.Keys, key))
      && Names(out[key].ports, GroupPorts(state, state.Keys, key)))
  }

  method BuildGroups(state: map<string, Slice>) returns (groups: map<string, Group>, ghost order: seq<string>)
    ensures Walk(order, state.Keys) && groups == GroupsIn(state, order)
  {
    hide Joined;
    groups, order := map[], [];
    var todo := state.Keys;
    while todo != {}
      invariant todo <= state.Keys && Walk(order, state.Keys - todo) && groups == GroupsIn(state, order)
      decreases |todo|
    {
      var k :| k in todo;
      WalkNext(order, state.Keys - todo, k);
      assert state.Keys - (todo - {k}) == state.Keys - todo + {k};
      groups := AddToGroups(groups, state[k]);
      assert (order + [k])[..|order|] == order;
      order := order + [k];
      todo := todo - {k};
    }
    assert state.Keys - todo == state.Keys;
  }

  lemma NoGroups(state: map<string, Slice>)
    ensures Building(map[], state, {})
  {
  }

  /** The groups with their addresses sorted. */
  ghost predicate SortedGroups(out: map<string, SliceGroup>, groups: map<string, Group>) {
    && out.Keys == groups.Keys
    && forall key | key in out :: out[key].ports == groups[key].ports
         && Sorted(out[key].podIPs) && (forall ip :: ip in out[key].podIPs <==> ip in groups[key].ips)
  }

  method SortGroups(groups: map<string, Group>) returns (out: map<string, SliceGroup>)
    ensures SortedGroups(out, groups)
  {
    hide Sorted;
    out := map[];
    var todo := groups.Keys;
    while todo != {}
      invariant todo <= groups.Keys && out.Keys == groups.Keys - todo
      invariant forall key | key in out ::
        && out[key].ports == groups[key].ports
        && Sorted(out[key].podIPs) && (forall ip :: ip in out[key].podIPs <==> ip in groups[key].ips)
      decreases |todo|
    {
      var key :| key in todo;
      var ips := SortStrings(groups[key].ips);
      out := out[key := SliceGroup(groups[key].ports, ips)];
      todo := todo - {key};
    }
  }

  lemma SortedIsGrouped(out: map<string, SliceGroup>, groups: map<string, Group>, state: map<string, Slice>)
    requires SortedGroups(out, groups) && Building(groups, state, state.Keys)
    ensures Grouped(out, state)
  {
    hide Populated, GroupAddresses, GroupPorts, Names, Sorted;
    assert forall key :: key in out <==> key in groups;
  }

  /** The walk takes the keys in some order. */
  method BuildSlices(state: map<string, Slice>) returns (out: map<string, SliceGroup>, ghost order: seq<string>)
    ensures Grouped(out, state)
    ensures Walk(order, state.Keys) && SortedGroups(out, GroupsIn(state, order))
  {
    hide Grouped, Building, SortedGroups, Walk, GroupsIn;
    var groups;
    groups, order := BuildGroups(state);
    WalkBuilds(state, order, state.Keys);
    out := SortGroups(groups);
    SortedIsGrouped(out, groups, state);
  }

  /** A Service's slices publish one port under each name. */
  ghost predicate AgreeOnPorts(state: map<string, Slice>) {
    forall key, p, q | p in GroupPorts(state, state.Keys, key) && q in GroupPorts(state, state.Keys, key) && p.name == q.name :: p == q
  }

  /** Then the map does not depend on the order of the walk; its addresses never do. */
  lemma GroupedUnique(a: map<string, SliceGroup>, b: map<string, SliceGroup>, state: map<string, Slice>)
    requires Grouped(a, state) && Grouped(b, state)
    ensures a.Keys == b.Keys && forall key | key in a :: a[key].podIPs == b[key].podIPs
    ensures AgreeOnPorts(state) ==> a == b
  {
    hide Populated, GroupAddresses, GroupPorts, Sorted, AgreeOnPorts, Names;
    forall key ensures key in a <==> key in b {
      assert key in a <==> Populated(state, state.Keys, key);
      assert key in b <==> Populated(state, state.Keys, key);
    }
    forall key | key in a ensures a[key].podIPs == b[key].podIPs && (AgreeOnPorts(state) ==> a[key] == b[key]) {
      SortedUnique(a[key].podIPs, b[key].podIPs);
      if AgreeOnPorts(state) { NamesUnique(a[key].ports, b[key].ports, state, key); }
    }
  }

  lemma NamesUnique(a: map<string, int>, b: map<string, int>, state: map<string, Slice>, key: string)
    requires AgreeOnPorts(state)
    requires Names(a, GroupPorts(state, state.Keys, key)) && Names(b, GroupPorts(state, state.Keys, key))
    ensures a == b
  {
    hide GroupPorts;
    forall n ensures (n in a <==> n in b) && (n in a ==> a[n] == b[n]) {
      if n in a { assert SlicePort(n, a[n]) in GroupPorts(state, state.Keys, key); }
      if n in b { assert SlicePort(n, b[n]) in GroupPorts(state, state.Keys, key); }
    }
  }

  /** The walk's order shows in nothing exactly when a Service's slices agree on each port name. */
  lemma SlicesWalkIff(state: map<string, Slice>)
    ensures AgreeOnPorts(state) <==>
      forall o, o' | Walk(o, state.Keys) && Walk(o', state.Keys) :: GroupsIn(state, o) == GroupsIn(state, o')
  {
    hide Walk, GroupsIn, GroupPorts, Building;
    if AgreeOnPorts(state) {
      forall o, o' | Walk(o, state.Keys) && Walk(o', state.Keys) ensures GroupsIn(state, o) == GroupsIn(state, o') {
        WalkBuilds(state, o, state.Keys);
        WalkBuilds(state, o', state.Keys);
        BuildingUnique(GroupsIn(state, o), GroupsIn(state, o'), state);
      }
    } else {
      var key, p, q :| p in GroupPorts(state, state.Keys, key) && q in GroupPorts(state, state.Keys, key) && p.name == q.name && p != q;
      var o := LastNames(state, key, p);
      var o' := LastNames(state, key, q);
      assert GroupsIn(state, o) != GroupsIn(state, o');
    }
  }

  lemma BuildingUnique(a: map<string, Group>, b: map<string, Group>, state: map<string, Slice>)
    requires Building(a, state, state.Keys) && Building(b, state, state.Keys) && AgreeOnPorts(state)
    ensures a == b
  {
    hide Populated, GroupAddresses, GroupPorts, AgreeOnPorts, Names;
    forall key ensures key in a <==> key in b {
      assert key in a <==> Populated(state, state.Keys, key);
      assert key in b <==> Populated(state, state.Keys, key);
    }
    forall key | key in a ensures a[key] == b[key] {
      NamesUnique(a[key].ports, b[key].ports, state, key);
    }
  }

  /** A walk that ends with a slice leaves the ports that slice publishes. */
  lemma LastNames(state: map<string, Slice>, key: string, p: SlicePort) returns (o: seq<string>)
    requires p in GroupPorts(state, state.Keys, key)
    ensures Walk(o, state.Keys) && key in GroupsIn(state, o)
    ensures p.name in GroupsIn(state, o)[key].ports && GroupsIn(state, o)[key].ports[p.name] == p.port
  {
    hide NamedPorts, ReadyAddresses;
    var k :| k in state && Of(state[k], key) && p in Published(state[k]);
    var before := WalkEndingIn(state.Keys, k);
    o := before + [k];
    assert o[..|before|] == before;
  }
}
