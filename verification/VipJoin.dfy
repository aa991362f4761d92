// Resolving a Service VIP over its backends (registry.go, resolveVIP): when it succeeds, what it
// reports, and that the order of the backends does not matter.
module VipJoin {
  import opened Prelude
  import opened Indexes
  import opened Peers

  lemma {:induction false} LiveBackendsConcat(src: Source, res: Resolvers, a: seq<string>, b: seq<string>)
    ensures LiveBackends(src, res, a + b) == LiveBackends(src, res, a) + LiveBackends(src, res, b)
  {
    hide LiveAt;
    if b == [] {
      assert a + b == a;
    } else {
      var n := |b| - 1;
      LiveBackendsConcat(src, res, a, b[..n]);
      assert (a + b)[..|a + b| - 1] == a + b[..n];
    }
  }

  /** Dropping a backend drops its live listener, if it has one. */
  lemma LiveBackendsWithout(src: Source, res: Resolvers, backends: seq<string>, j: nat)
    requires j < |backends|
    ensures multiset(LiveBackends(src, res, backends)) ==
            multiset(LiveBackends(src, res, backends[..j] + backends[j + 1..])) + multiset(LiveBackends(src, res, [backends[j]]))
  {
    hide LiveAt, LiveBackends;
    var before, after := backends[..j], backends[j + 1..];
    assert backends == (before + [backends[j]]) + after;
    LiveBackendsConcat(src, res, before, after);
    LiveBackendsConcat(src, res, before + [backends[j]], after);
    LiveBackendsConcat(src, res, before, [backends[j]]);
  }

  lemma MultisetWithout(s: seq<string>, j: nat)
    requires j < |s|
    ensures multiset(s[..j] + s[j + 1..]) == multiset(s) - multiset{s[j]}
  {
    assert s == s[..j] + [s[j]] + s[j + 1..];
  }

  /** Reordered backends give the same live listeners, reordered. */
  lemma {:induction false} LiveBackendsPermute(src: Source, res: Resolvers, a: seq<string>, b: seq<string>)
    requires multiset(a) == multiset(b)
    ensures multiset(LiveBackends(src, res, a)) == multiset(LiveBackends(src, res, b))
    decreases |a|
  {
    hide LiveAt, LiveBackends;
    assert |a| == |multiset(a)| == |multiset(b)| == |b|;
    if a == [] {
      assert b == [];
    } else {
      assert a[0] in multiset(b);
      var j :| 0 <= j < |b| && b[j] == a[0];
      MultisetWithout(a, 0);
      MultisetWithout(b, j);
      LiveBackendsPermute(src, res, a[..0] + a[1..], b[..j] + b[j + 1..]);
      LiveBackendsWithout(src, res, a, 0);
      LiveBackendsWithout(src, res, b, j);
    }
  }

  /** Success and what identifies the workload do not depend on which listener comes first. */
  lemma RepresentativePermute(a: seq<Listener>, b: seq<Listener>, svc: ServiceRef)
    requires multiset(a) == multiset(b)
    ensures Representative(a, svc).Some? <==> Representative(b, svc).Some?
    ensures Representative(a, svc).Some? ==>
      var ra, rb := Representative(a, svc).value, Representative(b, svc).value;
      && SameWorkload(ra, rb) && ra.service == rb.service == svc
      && ra.replicaAmbiguous == rb.replicaAmbiguous && ra.replicaCount == rb.replicaCount
  {
    assert |a| == |multiset(a)| == |multiset(b)| == |b|;
    if a != [] {
      if Agree(a) { AgreePermute(a, b); } else if Agree(b) { AgreePermute(b, a); }
      if |a| == 1 { assert a[0] in multiset(b) && b == [a[0]]; }
    }
  }

  ghost predicate Agree(live: seq<Listener>)
    requires live != []
  {
    forall i | 0 < i < |live| :: SameWorkload(live[i], live[0])
  }

  lemma AgreePermute(a: seq<Listener>, b: seq<Listener>)
    requires multiset(a) == multiset(b) && a != [] && b != [] && Agree(a)
    ensures SameWorkload(b[0], a[0]) && Agree(b)
  {
    forall i | 0 <= i < |b| ensures SameWorkload(b[i], a[0]) {
      assert b[i] in multiset(a);
    }
  }

  /** For the same live entries, any order of a Service's backends resolves alike: success,
      process, image, Service and replica count. */
  lemma VipOrderIrrelevant(src: Source, res: Resolvers, a: seq<string>, b: seq<string>, svc: ServiceRef)
    requires multiset(a) == multiset(b)
    ensures ResolveVip(src, res, a, svc).Some? <==> ResolveVip(src, res, b, svc).Some?
    ensures ResolveVip(src, res, a, svc).Some? ==>
      var ra, rb := ResolveVip(src, res, a, svc).value, ResolveVip(src, res, b, svc).value;
      && SameWorkload(ra, rb) && ra.service == rb.service == svc
      && ra.replicaAmbiguous == rb.replicaAmbiguous && ra.replicaCount == rb.replicaCount
  {
    hide Representative, LiveBackends, SameWorkload;
    LiveBackendsPermute(src, res, a, b);
    RepresentativePermute(LiveBackends(src, res, a), LiveBackends(src, res, b), svc);
  }

  // ----- when it succeeds -----

  ghost predicate LiveBackend(src: Source, res: Resolvers, backend: string) {
    LiveAt(src, res, backend).Some?
  }

  /** How many of the backends have a live listener. */
  ghost function LiveCount(src: Source, res: Resolvers, backends: seq<string>): nat {
    |set i | 0 <= i < |backends| && LiveBackend(src, res, backends[i])|
  }

  lemma {:induction false} LiveBackendsCounted(src: Source, res: Resolvers, backends: seq<string>)
    ensures |LiveBackends(src, res, backends)| == LiveCount(src, res, backends)
  {
    hide LiveAt;
    if backends == [] {
      assert LiveCount(src, res, backends) == 0;
    } else {
      var n := |backends| - 1;
      var live := set i | 0 <= i < |backends| && LiveBackend(src, res, backends[i]);
      var init := backends[..n];
      var before := set i | 0 <= i < |init| && LiveBackend(src, res, init[i]);
      LiveBackendsCounted(src, res, init);
      if LiveBackend(src, res, backends[n]) {
        assert live == before + {n};
      } else {
        assert live == before;
      }
    }
  }

  lemma {:induction false} LiveBackendsAre(src: Source, res: Resolvers, backends: seq<string>, l: Listener)
    ensures l in LiveBackends(src, res, backends) <==> exists b :: b in backends && LiveAt(src, res, b) == Some(l)
  {
    hide LiveAt;
    if backends != [] {
      var n := |backends| - 1;
      LiveBackendsAre(src, res, backends[..n], l);
      assert backends == backends[..n] + [backends[n]];
    }
  }

  /** A VIP resolves exactly when some backend has a live listener and all that do run the same
      process and image; the answer carries that workload and the Service, and with several live
      backends says how many and that the replica is ambiguous. */
  lemma VipResolvesIff(src: Source, res: Resolvers, backends: seq<string>, svc: ServiceRef)
    ensures ResolveVip(src, res, backends, svc).Some? <==>
      && (exists b :: b in backends && LiveBackend(src, res, b))
      && (forall b, b' | b in backends && b' in backends && LiveBackend(src, res, b) && LiveBackend(src, res, b') ::
            SameWorkload(LiveAt(src, res, b).value, LiveAt(src, res, b').value))
    ensures ResolveVip(src, res, backends, svc).Some? ==>
      var r := ResolveVip(src, res, backends, svc).value;
      && r.service == svc
      && (forall b | b in backends && LiveBackend(src, res, b) :: SameWorkload(r, LiveAt(src, res, b).value))
      && (LiveCount(src, res, backends) > 1 ==> r.replicaAmbiguous && r.replicaCount == LiveCount(src, res, backends))
  {
    hide LiveAt, LiveBackends, LiveCount;
    LiveBackendsCounted(src, res, backends);
    forall l ensures l in LiveBackends(src, res, backends) <==> exists b :: b in backends && LiveAt(src, res, b) == Some(l) {
      LiveBackendsAre(src, res, backends, l);
    }
    var live := LiveBackends(src, res, backends);
    forall b | b in backends && LiveBackend(src, res, b) ensures LiveAt(src, res, b).value in live { }
    if live != [] {
      assert live[0] in live;
      if Agree(live) {
        assert forall l | l in live :: SameWorkload(l, live[0]);
      } else {
        var i :| 0 < i < |live| && !SameWorkload(live[i], live[0]);
        assert live[i] in live;
        var b :| b in backends && LiveAt(src, res, b) == Some(live[0]);
        var b' :| b' in backends && LiveAt(src, res, b') == Some(live[i]);
        assert LiveBackend(src, res, b) && LiveBackend(src, res, b');
      }
    }
  }
}
