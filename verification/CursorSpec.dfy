// Resume cursors as values (internal/aggregator/cursorstore.go): what a run of saves leaves under
// a key, and what survives being written out and read back.
module CursorSpec {
  import opened Prelude
  import opened Envelopes
  import opened Addresses

  const Nul := '\0'

  function KeyOf(agent: string, stream: string): string {
    agent + [Nul] + stream
  }

  /** The agent a key is written out under: what comes before its first NUL. */
  function AgentOf(key: string): string {
    key[..IndexOf(key, Nul)]
  }

  lemma AgentOfKey(agent: string, stream: string)
    requires Nul !in agent
    ensures AgentOf(KeyOf(agent, stream)) == agent
  {
    var k := KeyOf(agent, stream);
    var i := IndexOf(k, Nul);
    assert k[|agent|] == Nul && forall j | 0 <= j < |agent| :: k[j] == agent[j];
    assert forall j | 0 <= j < i :: k[j] in k[..i];
    assert k[..|agent|] == agent;
  }

  lemma KeyInjective(agent: string, stream: string, agent': string, stream': string)
    requires Nul !in agent && Nul !in agent' && KeyOf(agent, stream) == KeyOf(agent', stream')
    ensures agent == agent' && stream == stream'
  {
    AgentOfKey(agent, stream);
    AgentOfKey(agent', stream');
    assert KeyOf(agent, stream)[|agent| + 1..] == stream;
    assert KeyOf(agent', stream')[|agent'| + 1..] == stream';
  }

  // ----- saves under one key -----

  /** A lower number from the same node is refused. */
  function SaveOne(prev: Option<Cursor>, c: Cursor): Cursor {
    if prev.Some? && c.num < prev.value.num && c.nodeId == prev.value.nodeId then prev.value else c
  }

  function SaveAll(cs: seq<Cursor>): Option<Cursor> {
    if cs == [] then None else Some(SaveOne(SaveAll(cs[..|cs| - 1]), cs[|cs| - 1]))
  }

  /** Where the trailing run of cursors from the last one's node begins. */
  ghost predicate TrailingRun(cs: seq<Cursor>, i: nat) {
    && i < |cs|
    && (forall j | i <= j < |cs| :: cs[j].nodeId == cs[|cs| - 1].nodeId)
    && (i > 0 ==> cs[i - 1].nodeId != cs[|cs| - 1].nodeId)
  }

  /** The latest cursor with the greatest number from position i on. */
  ghost predicate LatestGreatest(cs: seq<Cursor>, i: nat, k: nat) {
    && i <= k < |cs|
    && (forall j | i <= j < k :: cs[j].num <= cs[k].num)
    && (forall j | k < j < |cs| :: cs[j].num < cs[k].num)
  }

  /** What is stored is the latest of the greatest cursors in the trailing run of saves from the
      last save's node; a preloaded cursor counts as the first save. */
  lemma {:induction false} SavedIsLatestGreatest(cs: seq<Cursor>, i: nat)
    requires TrailingRun(cs, i)
    ensures exists k: nat :: k < |cs| && LatestGreatest(cs, i, k) && SaveAll(cs) == Some(cs[k])
  {
    hide LatestGreatest;
    var n: nat := |cs| - 1;
    var init := cs[..n];
    if i == n {
      if n > 0 { SavedNode(init); }
      LastAlone(cs);
      assert LatestGreatest(cs, i, n) && SaveAll(cs) == Some(cs[n]);
    } else {
      assert TrailingRun(init, i);
      SavedIsLatestGreatest(init, i);
      var k: nat :| k < |init| && LatestGreatest(init, i, k) && SaveAll(init) == Some(init[k]);
      GreatestStep(cs, i, k);
      SavedNode(init);
      var k': nat := if cs[n].num < cs[k].num then k else n;
      assert LatestGreatest(cs, i, k') && SaveAll(cs) == Some(cs[k']);
    }
  }

  lemma LastAlone(cs: seq<Cursor>)
    requires cs != []
    ensures LatestGreatest(cs, |cs| - 1, |cs| - 1)
  {
  }

  lemma GreatestStep(cs: seq<Cursor>, i: nat, k: nat)
    requires i < |cs| - 1 && LatestGreatest(cs[..|cs| - 1], i, k)
    ensures LatestGreatest(cs, i, if cs[|cs| - 1].num < cs[k].num then k else |cs| - 1)
  {
    var init := cs[..|cs| - 1];
    assert forall j | 0 <= j < |init| :: init[j] == cs[j];
  }

  lemma {:induction false} SavedNode(cs: seq<Cursor>)
    requires cs != []
    ensures SaveAll(cs).value.nodeId == cs[|cs| - 1].nodeId
  {
  }

  /** The number never falls while the node stays the same. */
  lemma NumberNeverFalls(cs: seq<Cursor>, c: Cursor)
    requires cs != [] && c.nodeId == cs[|cs| - 1].nodeId
    ensures SaveAll(cs + [c]).value.num >= SaveAll(cs).value.num && SaveAll(cs + [c]).value.num >= c.num
  {
    SavedNode(cs);
    assert (cs + [c])[..|cs|] == cs;
  }

  // ----- writing out and reading back -----

  datatype Entry = Entry(agent: string, cursor: Cursor)

  /** Reading entries back: the last one under a key wins. */
  function Decode(entries: seq<Entry>): map<string, Cursor> {
    if entries == [] then map[]
    else
      var e := entries[|entries| - 1];
      Decode(entries[..|entries| - 1])[KeyOf(e.agent, e.cursor.stream) := e.cursor]
  }

  /** Under a key is the cursor of the last entry for its agent and stream. */
  lemma {:induction false} DecodeIff(entries: seq<Entry>, key: string, c: Cursor)
    ensures key in Decode(entries) && Decode(entries)[key] == c <==> exists i :: LastFor(entries, key, i) && entries[i].cursor == c
  {
    hide KeyOf;
    if entries != [] {
      var n := |entries| - 1;
      var init := entries[..n];
      DecodeIff(init, key, c);
      if KeyOf(entries[n].agent, entries[n].cursor.stream) == key {
        assert LastFor(entries, key, n);
        assert forall i | LastFor(entries, key, i) :: i == n;
      } else {
        forall i ensures LastFor(entries, key, i) <==> LastFor(init, key, i) { }
      }
    }
  }

  ghost predicate LastFor(entries: seq<Entry>, key: string, i: int) {
    && 0 <= i < |entries| && KeyOf(entries[i].agent, entries[i].cursor.stream) == key
    && forall j | i < j < |entries| :: KeyOf(entries[j].agent, entries[j].cursor.stream) != key
  }

  /** The entries list the map, in the order of `keys`. */
  ghost predicate Enumerates(entries: seq<Entry>, keys: seq<string>, m: map<string, Cursor>) {
    && |entries| == |keys|
    && (forall i, j | 0 <= i < j < |keys| :: keys[i] != keys[j])
    && (forall k :: k in keys <==> k in m)
    && (forall i | 0 <= i < |keys| :: keys[i] in m && entries[i] == Entry(AgentOf(keys[i]), m[keys[i]]))
  }

  /** Every cursor's own stream is its key's stream. */
  ghost predicate WellKeyed(m: map<string, Cursor>) {
    forall k | k in m :: k == KeyOf(AgentOf(k), m[k].stream)
  }

  /** What is read back from NUL-free agents is well keyed. */
  lemma {:induction false} DecodedIsWellKeyed(entries: seq<Entry>)
    requires forall i | 0 <= i < |entries| :: Nul !in entries[i].agent
    ensures WellKeyed(Decode(entries))
  {
    if entries != [] {
      var e := entries[|entries| - 1];
      DecodedIsWellKeyed(entries[..|entries| - 1]);
      AgentOfKey(e.agent, e.cursor.stream);
    }
  }

  lemma {:induction false} DecodePrefix(entries: seq<Entry>, keys: seq<string>, m: map<string, Cursor>, n: nat)
    requires WellKeyed(m) && Enumerates(entries, keys, m) && n <= |keys|
    ensures Decode(entries[..n]) == map k | k in m && k in keys[..n] :: m[k]
  {
    hide KeyOf, AgentOf;
    if n == 0 {
      assert entries[..0] == [] && keys[..0] == [];
    } else {
      DecodePrefix(entries, keys, m, n - 1);
      assert entries[..n][..n - 1] == entries[..n - 1];
      assert keys[..n] == keys[..n - 1] + [keys[n - 1]];
      assert keys[n - 1] in m && keys[n - 1] == KeyOf(AgentOf(keys[n - 1]), m[keys[n - 1]].stream);
    }
  }

  /** Writing a map out, in any order, and reading it back gives the same map exactly when every
      cursor's own stream is its key's. */
  lemma RoundTripIff(entries: seq<Entry>, keys: seq<string>, m: map<string, Cursor>)
    requires Enumerates(entries, keys, m)
    ensures Decode(entries) == m <==> WellKeyed(m)
  {
    hide KeyOf, Decode, WellKeyed;
    if WellKeyed(m) {
      DecodePrefix(entries, keys, m, |keys|);
      assert entries[..|keys|] == entries && keys[..|keys|] == keys;
    } else {
      DecodedIsWellKeyed(entries);
    }
  }

  /** A save keeps every key well keyed exactly when the cursor names the stream it is saved under. */
  lemma SaveKeepsWellKeyed(m: map<string, Cursor>, agent: string, stream: string, c: Cursor)
    requires WellKeyed(m) && Nul !in agent
    ensures WellKeyed(m[KeyOf(agent, stream) := c]) <==> c.stream == stream
  {
    hide KeyOf;
    AgentOfKey(agent, stream);
    var k, m' := KeyOf(agent, stream), m[KeyOf(agent, stream) := c];
    if WellKeyed(m') {
      assert k in m' && k == KeyOf(agent, c.stream);
      KeyInjective(agent, stream, agent, c.stream);
    }
  }
}
