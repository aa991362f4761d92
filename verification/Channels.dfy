// Live subscribers (internal/aggregator/aggregator.go, registerSubscriber, unregisterSubscriber,
// broadcast, Stats): bounded channels, drops, and the drop total reported while clients come and
// go. Each method is what one goroutine does without being interleaved with another.
module Channels {
  import opened Prelude
  import opened Resume

  /** A subscriber's channel with its drop counter. */
  datatype Channel = Channel(cap: nat, queue: seq<Live>, closed: bool, drops: nat)

  /** The drops of the channels in a set of positions. */
  ghost function Drops(chans: seq<Channel>, ids: set<nat>): nat {
    if chans == [] then 0
    else
      var n := |chans| - 1;
      Drops(chans[..n], ids) + if n in ids then chans[n].drops else 0
  }

  /** Taking one position into the set adds that channel's drops. */
  lemma {:induction false} DropsAdd(chans: seq<Channel>, ids: set<nat>, id: nat)
    requires id < |chans| && id !in ids
    ensures Drops(chans, ids + {id}) == Drops(chans, ids) + chans[id].drops
  {
    var n := |chans| - 1;
    if id == n {
      DropsBeyond(chans[..n], ids, id);
    } else {
      DropsAdd(chans[..n], ids, id);
    }
  }

  lemma {:induction false} DropsBeyond(chans: seq<Channel>, ids: set<nat>, id: nat)
    requires id >= |chans|
    ensures Drops(chans, ids + {id}) == Drops(chans, ids)
  {
    if chans != [] {
      DropsBeyond(chans[..|chans| - 1], ids, id);
    }
  }

  /** Replacing one channel moves the sum by its difference in drops. */
  lemma {:induction false} DropsUpdate(chans: seq<Channel>, ids: set<nat>, id: nat, ch: Channel)
    requires id < |chans|
    ensures Drops(chans[id := ch], ids) == Drops(chans, ids) + if id in ids then ch.drops - chans[id].drops else 0
  {
    var n := |chans| - 1;
    if id == n {
      assert chans[id := ch][..n] == chans[..n];
    } else {
      DropsUpdate(chans[..n], ids, id, ch);
      assert chans[id := ch][..n] == chans[..n][id := ch];
    }
  }

  predicate NoDrops(chans: seq<Channel>, ids: set<nat>) {
    forall id | id in ids && id < |chans| :: chans[id].drops == 0
  }

  lemma {:induction false} NoneDropped(chans: seq<Channel>, ids: set<nat>)
    ensures Drops(chans, ids) == 0 <==> NoDrops(chans, ids)
  {
    if chans != [] {
      var n := |chans| - 1;
      NoneDropped(chans[..n], ids);
      assert (forall id | id in ids && id < n :: chans[..n][id].drops == 0) <==>
             (forall id | id in ids && id < n :: chans[id].drops == 0);
    }
  }

  /** All drops that ever happened. */
  ghost function AllDrops(chans: seq<Channel>): nat {
    if chans == [] then 0 else AllDrops(chans[..|chans| - 1]) + chans[|chans| - 1].drops
  }

  lemma {:induction false} AllDropsUpdate(chans: seq<Channel>, id: nat, ch: Channel)
    requires id < |chans|
    ensures AllDrops(chans[id := ch]) == AllDrops(chans) + ch.drops - chans[id].drops
  {
    var n := |chans| - 1;
    if id == n {
      assert chans[id := ch][..n] == chans[..n];
    } else {
      AllDropsUpdate(chans[..n], id, ch);
      assert chans[id := ch][..n] == chans[..n][id := ch];
    }
  }

  /** A non-blocking send. */
  function Push(ch: Channel, ev: Live): Channel {
    if |ch.queue| < ch.cap then ch.(queue := ch.queue + [ev]) else ch.(drops := ch.drops + 1)
  }

  /** The channels after a broadcast has been through some of the subscribers: with room the queue
      gains exactly the envelope and no drop, a full queue stays as it is and counts one. */
  ghost predicate Pushed(chans: seq<Channel>, chans': seq<Channel>, ids: set<nat>, ev: Live) {
    && |chans'| == |chans|
    && (forall id: nat | id < |chans| && id !in ids :: chans'[id] == chans[id])
    && (forall id: nat | id < |chans| && id in ids && |chans[id].queue| < chans[id].cap ::
          chans'[id] == chans[id].(queue := chans[id].queue + [ev]))
    && (forall id: nat | id < |chans| && id in ids && |chans[id].queue| >= chans[id].cap ::
          chans'[id] == chans[id].(drops := chans[id].drops + 1))
  }

  /** New drops are all on the channels pushed to. */
  lemma {:induction false} PushedDrops(chans: seq<Channel>, chans': seq<Channel>, ids: set<nat>, others: set<nat>, ev: Live)
    requires Pushed(chans, chans', ids, ev) && ids !! others
    ensures AllDrops(chans) <= AllDrops(chans') && Drops(chans', others) == Drops(chans, others)
    ensures AllDrops(chans') - AllDrops(chans) == Drops(chans', ids) - Drops(chans, ids)
  {
    if chans != [] {
      var n := |chans| - 1;
      PushedDrops(chans[..n], chans'[..n], ids, others, ev);
    }
  }

  /** Sends to each registered subscriber, in any order; none of them is closed. */
  method PushAll(chans: seq<Channel>, subs: set<nat>, ev: Live) returns (chans': seq<Channel>)
    requires AllOpen(chans, subs)
    ensures Pushed(chans, chans', subs, ev)
  {
    chans' := chans;
    var todo := subs;
    while todo != {}
      invariant todo <= subs && Pushed(chans, chans', subs - todo, ev)
      decreases |todo|
    {
      var id :| id in todo;
      assert !chans'[id].closed;
      chans' := chans'[id := Push(chans'[id], ev)];
      todo := todo - {id};
    }
    assert subs - todo == subs;
  }

  /** The total a snapshot reports: folded drops and those of registered subscribers. */
  ghost function Reported(chans: seq<Channel>, subs: set<nat>, folded: nat): nat {
    folded + Drops(chans, subs)
  }

  /** Taken alone, removing a subscriber lowers the report by its drops; folding them in restores it. */
  lemma RemovalGap(chans: seq<Channel>, subs: set<nat>, folded: nat, id: nat)
    requires id in subs && id < |chans|
    ensures Reported(chans, subs - {id}, folded) == Reported(chans, subs, folded) - chans[id].drops
    ensures Reported(chans, subs - {id}, folded) < Reported(chans, subs, folded) <==> chans[id].drops > 0
    ensures Reported(chans, subs - {id}, folded + chans[id].drops) == Reported(chans, subs, folded)
  {
    DropsAdd(chans, subs - {id}, id);
    assert subs - {id} + {id} == subs;
  }

  /** A whole unregister between the load and the lock: 3 was reported before, 0 is reported now,
      and nobody is half unregistered. */
  lemma StaleLoadFalls()
    ensures var before, after := [Channel(1, [], false, 3)], [Channel(1, [], true, 3)];
      Reported(before, {0}, 0) == 3 && Reported(after, {}, 0) == 0 && Reported(after, {}, 3) == AllDrops(after) == 3
  {
    var before, after := [Channel(1, [], false, 3)], [Channel(1, [], true, 3)];
    assert before[..0] == [] && after[..0] == [];
  }

  /** Between removal and folding the report can fall below one already given. */
  lemma ReportCanFall()
    ensures var chans := [Channel(1, [], false, 3)];
      Reported(chans, {0}, 0) == 3 && Reported(chans, {}, 0) == 0
  {
    var chans := [Channel(1, [], false, 3)];
    assert chans[..0] == [];
  }

  ghost predicate AllOpen(chans: seq<Channel>, ids: set<nat>) {
    forall id | id in ids :: id < |chans| && !chans[id].closed
  }

  /** A subscriber's broadcasts are dropped, queued or received; with no drops, in that order. Nothing
      has been dropped exactly when the broadcasts were never ahead of the receipts by more than the
      channel holds; `ahead` is the furthest they have been. */
  ghost predicate Balanced(ch: Channel, offered: seq<Live>, received: seq<Live>, ahead: nat) {
    && |ch.queue| <= ch.cap
    && |offered| == ch.drops + |ch.queue| + |received|
    && (ch.drops == 0 ==> offered == received + ch.queue)
    && (ch.drops == 0 <==> ahead <= ch.cap)
  }

  ghost predicate AllBalanced(chans: seq<Channel>, offered: seq<seq<Live>>, received: seq<seq<Live>>, ahead: seq<nat>) {
    && |offered| == |received| == |ahead| == |chans|
    && forall id: nat | id < |chans| :: Balanced(chans[id], offered[id], received[id], ahead[id])
  }

  /** One broadcast more for the registered subscribers. */
  ghost function Offer(offered: seq<seq<Live>>, subs: set<nat>, ev: Live): (r: seq<seq<Live>>)
    ensures |r| == |offered|
    ensures forall id: nat | id < |r| :: r[id] == if id in subs then offered[id] + [ev] else offered[id]
  {
    seq(|offered|, i requires 0 <= i < |offered| => if i in subs then offered[i] + [ev] else offered[i])
  }

  ghost function Further(ahead: seq<nat>, offered: seq<seq<Live>>, received: seq<seq<Live>>, subs: set<nat>): (r: seq<nat>)
    requires |offered| == |received| == |ahead|
    ensures |r| == |ahead|
    ensures forall id: nat | id < |r| :: r[id] == if id in subs then Max(ahead[id], |offered[id]| - |received[id]|) else ahead[id]
  {
    seq(|ahead|, i requires 0 <= i < |ahead| => if i in subs then Max(ahead[i], |offered[i]| - |received[i]|) else ahead[i])
  }

  lemma BroadcastBalances(chans: seq<Channel>, chans': seq<Channel>, subs: set<nat>, ev: Live,
                          offered: seq<seq<Live>>, received: seq<seq<Live>>, ahead: seq<nat>)
    requires AllBalanced(chans, offered, received, ahead) && Pushed(chans, chans', subs, ev)
    ensures AllBalanced(chans', Offer(offered, subs, ev), received, Further(ahead, Offer(offered, subs, ev), received, subs))
  {
    hide Balanced, Offer, Further;
    var offered', ahead' := Offer(offered, subs, ev), Further(ahead, Offer(offered, subs, ev), received, subs);
    forall id: nat | id < |chans'| ensures Balanced(chans'[id], offered'[id], received[id], ahead'[id]) {
      assert Balanced(chans[id], offered[id], received[id], ahead[id]);
      if id in subs { PushFlow(chans[id], offered[id], received[id], ahead[id], ev); }
    }
  }

  lemma BalancedLengths(chans: seq<Channel>, offered: seq<seq<Live>>, received: seq<seq<Live>>, ahead: seq<nat>)
    requires AllBalanced(chans, offered, received, ahead)
    ensures |offered| == |received| == |ahead| == |chans|
  {
  }

  lemma PushedOpen(chans: seq<Channel>, chans': seq<Channel>, ids: set<nat>, ev: Live, others: set<nat>)
    requires Pushed(chans, chans', ids, ev) && AllOpen(chans, others)
    ensures AllOpen(chans', others)
  {
  }

  lemma RegisterBalances(chans: seq<Channel>, cap: nat, offered: seq<seq<Live>>, received: seq<seq<Live>>, ahead: seq<nat>)
    requires AllBalanced(chans, offered, received, ahead)
    ensures AllBalanced(chans + [Channel(cap, [], false, 0)], offered + [[]], received + [[]], ahead + [0])
  {
    assert Balanced(Channel(cap, [], false, 0), [], [], 0);
    hide Balanced;
  }

  class Subscribers {
    /** Every subscriber so far, by position; the registered ones; drops of those gone. */
    var chans: seq<Channel>
    var subs: set<nat>
    var subsDropped: nat
    /** Stats calls under way: what each has loaded of the folded total before taking the lock. */
    var pending: map<nat, nat>
    /** Removed but not yet folded in; folded in but not yet closed. */
    ghost var gap: set<nat>
    ghost var open: set<nat>
    /** Per subscriber, what was broadcast since it registered and what it has received. */
    ghost var offered: seq<seq<Live>>
    ghost var received: seq<seq<Live>>
    /** Per subscriber, the most by which broadcasts have been ahead of receipts. */
    ghost var ahead: seq<nat>
    /** Every total reported so far. */
    ghost var reports: seq<nat>

    /** No channel still registered, or on its way out, is closed. */
    ghost predicate Sets()
      reads this
    {
      && subs !! gap && subs !! open && gap !! open
      && AllOpen(chans, subs) && AllOpen(chans, gap) && AllOpen(chans, open)
    }

    ghost predicate Flows()
      reads this
    {
      AllBalanced(chans, offered, received, ahead)
    }

    /** A report falls short of all drops by those in the gap, and no report exceeded them. */
    ghost predicate Totals()
      reads this
    {
      && Reported(chans, subs, subsDropped) + Drops(chans, gap) == AllDrops(chans)
      && forall i | 0 <= i < |reports| :: reports[i] <= AllDrops(chans)
    }

    /** The folded total only grows. */
    ghost predicate Loads()
      reads this
    {
      forall call | call in pending :: pending[call] <= subsDropped
    }

    ghost predicate Valid()
      reads this
    {
      Sets() && Flows() && Totals() && Loads()
    }

    constructor ()
      ensures Valid() && subs == {} && chans == [] && reports == [] && pending == map[]
    {
      pending, ahead := map[], [];
      chans, subs, subsDropped, gap, open, offered, received, reports := [], {}, 0, {}, {}, [], [], [];
    }

    method Register(buf: int) returns (id: nat)
      requires Valid()
      modifies `chans, `subs, `offered, `received, `ahead
      ensures Valid() && id == |old(chans)| && subs == old(subs) + {id}
      ensures chans == old(chans) + [Channel(if buf <= 0 then 1024 else buf, [], false, 0)]
      ensures offered == old(offered) + [[]] && received == old(received) + [[]] && ahead == old(ahead) + [0]
      ensures AllDrops(chans) == old(AllDrops(chans))
    {
      var ch := Channel(if buf <= 0 then 1024 else buf, [], false, 0);
      id := |chans|;
      RegisterDrops(chans, subs, gap, ch);
      RegisterBalances(chans, ch.cap, offered, received, ahead);
      hide AllBalanced, Drops, AllDrops;
      chans, subs := chans + [ch], subs + {id};
      offered, received, ahead := offered + [[]], received + [[]], ahead + [0];
    }

    method Broadcast(ev: Live)
      requires Valid()
      modifies `chans, `offered, `ahead
      ensures Valid() && Pushed(old(chans), chans, subs, ev)
      ensures AllDrops(chans) >= old(AllDrops(chans)) && offered == Offer(old(offered), subs, ev)
      ensures |offered| == |received| == |old(ahead)| && ahead == Further(old(ahead), offered, received, subs)
    {
      hide Drops, AllDrops, AllBalanced, Pushed, Offer, Further;
      BalancedLengths(chans, offered, received, ahead);
      chans := PushAll(chans, subs, ev);
      PushedDrops(old(chans), chans, subs, gap, ev);
      BroadcastBalances(old(chans), chans, subs, ev, offered, received, ahead);
      PushedOpen(old(chans), chans, subs, ev, subs);
      PushedOpen(old(chans), chans, subs, ev, gap);
      PushedOpen(old(chans), chans, subs, ev, open);
      offered := Offer(offered, subs, ev);
      ahead := Further(ahead, offered, received, subs);
    }

    /** The subscriber takes the oldest queued envelope. */
    method Receive(id: nat) returns (ev: Option<Live>)
      requires Valid() && id < |chans|
      modifies `chans, `received
      ensures Valid()
      ensures ev == if old(chans)[id].queue == [] then None else Some(old(chans)[id].queue[0])
      ensures received == if ev.None? then old(received) else old(received)[id := old(received)[id] + [ev.value]]
      ensures AllDrops(chans) == old(AllDrops(chans))
    {
      hide Drops, AllDrops;
      if chans[id].queue == [] {
        return None;
      }
      var ch := chans[id];
      ev := Some(ch.queue[0]);
      var ch' := ch.(queue := ch.queue[1..]);
      DropsUpdate(chans, subs, id, ch');
      DropsUpdate(chans, gap, id, ch');
      AllDropsUpdate(chans, id, ch');
      chans := chans[id := ch'];
      received := received[id := received[id] + [ev.value]];
      assert Balanced(ch, offered[id], old(received)[id], ahead[id]);
    }

    /** A subscriber that never falls behind by more than its channel holds, and only such a one, has
        every broadcast since its registration received or waiting, in order. */
    lemma KeepingUpIsLossless(id: nat)
      requires Valid() && id < |chans|
      ensures |offered| == |received| == |ahead| == |chans|
      ensures ahead[id] <= chans[id].cap <==> offered[id] == received[id] + chans[id].queue
      ensures ahead[id] <= chans[id].cap <==> chans[id].drops == 0
    {
      hide Totals, Sets;
      assert Balanced(chans[id], offered[id], received[id], ahead[id]);
    }

    // ----- unregistering, in the source's three steps -----

    method Delete(id: nat)
      requires Valid() && id in subs
      modifies `subs, `gap
      ensures Valid() && subs == old(subs) - {id} && gap == old(gap) + {id}
    {
      hide AllDrops, Drops;
      RemovalGap(chans, subs, subsDropped, id);
      DropsAdd(chans, gap, id);
      subs, gap := subs - {id}, gap + {id};
    }

    method FoldDrops(id: nat)
      requires Valid() && id in gap
      modifies `subsDropped, `gap, `open
      ensures Valid() && gap == old(gap) - {id} && open == old(open) + {id}
      ensures id < |chans| && subsDropped == old(subsDropped) + chans[id].drops
    {
      hide AllDrops, Drops;
      DropsAdd(chans, gap - {id}, id);
      assert gap - {id} + {id} == gap;
      subsDropped := subsDropped + chans[id].drops;
      gap, open := gap - {id}, open + {id};
    }

    method Close(id: nat)
      requires Valid() && id in open
      modifies `chans, `open
      ensures Valid() && open == old(open) - {id}
      ensures id < |old(chans)| && chans == old(chans)[id := old(chans)[id].(closed := true)]
      ensures AllDrops(chans) == old(AllDrops(chans))
    {
      hide AllDrops, Drops;
      var ch := chans[id].(closed := true);
      DropsUpdate(chans, subs, id, ch);
      DropsUpdate(chans, gap, id, ch);
      AllDropsUpdate(chans, id, ch);
      chans := chans[id := ch];
      open := open - {id};
    }

    /** The three steps without interleaving leave no gap of their own. */
    method Unregister(id: nat)
      requires Valid() && id in subs
      modifies `chans, `subs, `subsDropped, `gap, `open
      ensures Valid() && subs == old(subs) - {id} && gap == old(gap) && AllDrops(chans) == old(AllDrops(chans))
      ensures id < |old(chans)| && chans == old(chans)[id := old(chans)[id].(closed := true)]
    {
      hide Totals, Flows, AllDrops;
      assert id < |chans| && id !in gap;
      Delete(id);
      FoldDrops(id);
      Close(id);
    }

    // ----- Stats, in the source's two steps -----

    /** The folded total is read before the lock is taken. */
    method LoadFolded(call: nat)
      requires Valid() && call !in pending
      modifies `pending
      ensures Valid() && pending == old(pending)[call := subsDropped]
    {
      pending := pending[call := subsDropped];
    }

    /** The locked sum. The total falls short of all drops by those in the gap and by those folded in
        since the load; so it is exact just when there are none of either, and then it is no less than
        any total reported before. */
    method SumUnderLock(call: nat) returns (total: nat)
      requires Valid() && call in pending
      modifies `pending, `reports
      ensures Valid() && pending == old(pending) - {call} && reports == old(reports) + [total]
      ensures total + Drops(chans, gap) + (subsDropped - old(pending)[call]) == AllDrops(chans)
      ensures total == AllDrops(chans) <==> NoDrops(chans, gap) && subsDropped == old(pending)[call]
      ensures total == AllDrops(chans) ==> forall i | 0 <= i < |reports| :: reports[i] <= total
    {
      hide AllDrops, Drops;
      total := SumDrops(chans, subs, pending[call]);
      NoneDropped(chans, gap);
      pending := pending - {call};
      reports := reports + [total];
    }

    /** Taken as one step: exact just when nobody half unregistered has drops, so that with every
        register, unregister, broadcast and Stats taken whole, reports never fall. */
    method Stats(call: nat) returns (total: nat)
      requires Valid() && call !in pending
      modifies `pending, `reports
      ensures Valid() && pending == old(pending) && reports == old(reports) + [total]
      ensures total + Drops(chans, gap) == AllDrops(chans)
      ensures total == AllDrops(chans) <==> NoDrops(chans, gap)
      ensures gap == {} ==> forall i | 0 <= i < |reports| :: reports[i] <= total
    {
      hide AllDrops, Drops, Totals, Flows, Sets;
      LoadFolded(call);
      total := SumUnderLock(call);
      assert pending == old(pending);
    }
  }

  lemma RegisterDrops(chans: seq<Channel>, subs: set<nat>, gap: set<nat>, ch: Channel)
    requires ch.drops == 0
    ensures Drops(chans + [ch], subs + {|chans|}) == Drops(chans, subs)
    ensures Drops(chans + [ch], gap) == Drops(chans, gap) && AllDrops(chans + [ch]) == AllDrops(chans)
  {
    assert (chans + [ch])[..|chans|] == chans;
    DropsBeyond(chans, subs, |chans|);
  }

  /** A send leaves the flow balanced. */
  lemma PushFlow(ch: Channel, offered: seq<Live>, received: seq<Live>, ahead: nat, ev: Live)
    requires Balanced(ch, offered, received, ahead)
    ensures Balanced(Push(ch, ev), offered + [ev], received, Max(ahead, |offered| + 1 - |received|))
  {
  }

  function Max(a: nat, b: int): nat {
    if a < b then b else a
  }

  /** The sum over the registered subscribers, in any order. */
  method SumDrops(chans: seq<Channel>, subs: set<nat>, folded: nat) returns (total: nat)
    requires AllOpen(chans, subs)
    ensures total == Reported(chans, subs, folded)
  {
    total := folded;
    var todo := subs;
    NoneDropped(chans, {});
    assert subs - todo == {};
    while todo != {}
      invariant todo <= subs && total == Reported(chans, subs - todo, folded)
      decreases |todo|
    {
      hide Drops;
      var id :| id in todo;
      DropsAdd(chans, subs - todo, id);
      assert subs - (todo - {id}) == subs - todo + {id};
      total := total + chans[id].drops;
      todo := todo - {id};
    }
    assert subs - todo == subs;
  }
}
