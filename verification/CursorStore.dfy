// The file-backed cursor store (internal/aggregator/cursorstore.go): a map guarded by a lock, a
// dirty flag, and a file that is replaced whole.
module CursorStore {
  import opened Prelude
  import opened Envelopes
  import opened CursorSpec

  /** What reading the file can come to. */
  datatype Disk = Missing | Unreadable | Blank | Malformed | Parsed(entries: seq<Entry>)

  function Stored(disk: Disk): map<string, Cursor> {
    if disk.Parsed? then Decode(disk.entries) else map[]
  }

  /** The cursors saved under one key, oldest first. */
  function Under(saves: seq<(string, Cursor)>, key: string): seq<Cursor> {
    if saves == [] then []
    else
      var s := saves[|saves| - 1];
      Under(saves[..|saves| - 1], key) + if s.0 == key then [s.1] else []
  }

  /** A preloaded cursor, then the saves. */
  function HistoryOf(loaded: map<string, Cursor>, saves: seq<(string, Cursor)>, key: string): seq<Cursor> {
    (if key in loaded then [loaded[key]] else []) + Under(saves, key)
  }

  /** Each key holds what its own history of saves leaves. */
  ghost predicate Holds(data: map<string, Cursor>, loaded: map<string, Cursor>, saves: seq<(string, Cursor)>) {
    forall k :: (if k in data then Some(data[k]) else None) == SaveAll(HistoryOf(loaded, saves, k))
  }

  lemma HoldsLoaded(loaded: map<string, Cursor>)
    ensures Holds(loaded, loaded, [])
  {
    forall k ensures (if k in loaded then Some(loaded[k]) else None) == SaveAll(HistoryOf(loaded, [], k)) {
      if k in loaded { assert HistoryOf(loaded, [], k) == [loaded[k]] && [loaded[k]][..0] == []; }
    }
  }

  lemma HoldsSave(data: map<string, Cursor>, loaded: map<string, Cursor>, saves: seq<(string, Cursor)>, key: string, c: Cursor)
    requires Holds(data, loaded, saves)
    ensures Holds(data[key := SaveOne(if key in data then Some(data[key]) else None, c)], loaded, saves + [(key, c)])
  {
    var data' := data[key := SaveOne(if key in data then Some(data[key]) else None, c)];
    var saves' := saves + [(key, c)];
    assert saves'[..|saves|] == saves;
    forall k ensures (if k in data' then Some(data'[k]) else None) == SaveAll(HistoryOf(loaded, saves', k)) {
      var h, h' := HistoryOf(loaded, saves, k), HistoryOf(loaded, saves', k);
      if k == key {
        assert h' == h + [c] && h'[..|h|] == h;
      } else {
        assert h' == h;
      }
    }
  }

  method DecodeAll(entries: seq<Entry>) returns (m: map<string, Cursor>)
    ensures m == Decode(entries)
  {
    m := map[];
    for i := 0 to |entries|
      invariant m == Decode(entries[..i])
    {
      var e := entries[i];
      assert entries[..i + 1][..i] == entries[..i];
      m := m[KeyOf(e.agent, e.cursor.stream) := e.cursor];
    }
    assert entries[..|entries|] == entries;
  }

  /** The loop over the map, in any order. */
  method EncodeAll(m: map<string, Cursor>) returns (entries: seq<Entry>, ghost keys: seq<string>)
    ensures Enumerates(entries, keys, m)
  {
    entries, keys := [], [];
    var todo := m.Keys;
    while todo != {}
      invariant todo <= m.Keys && |entries| == |keys|
      invariant forall i, j | 0 <= i < j < |keys| :: keys[i] != keys[j]
      invariant forall k :: k in keys <==> k in m.Keys - todo
      invariant forall i | 0 <= i < |keys| :: keys[i] in m && entries[i] == Entry(AgentOf(keys[i]), m[keys[i]])
      decreases |todo|
    {
      hide AgentOf;
      var k :| k in todo;
      todo := todo - {k};
      assert k !in keys;
      entries, keys := entries + [Entry(AgentOf(k), m[k])], keys + [k];
    }
  }

  class FileStore {
    var data: map<string, Cursor>
    var dirty: bool
    var closing: bool
    var disk: Disk
    /** What was read at the start, the saves since, and memory as last written out (or read). */
    ghost var loaded: map<string, Cursor>
    ghost var saves: seq<(string, Cursor)>
    ghost var flushed: map<string, Cursor>

    /** Memory is what the saves leave, and the file reads back as memory at some earlier moment,
        the present one when nothing is pending. */
    ghost predicate Valid()
      reads this
    {
      && Holds(data, loaded, saves)
      && (!dirty ==> data == flushed)
      && (WellKeyed(flushed) ==> Stored(disk) == flushed)
    }

    constructor (disk: Disk)
      requires !disk.Unreadable? && !disk.Malformed?
      ensures this.disk == disk && data == loaded == flushed == Stored(disk) && saves == []
      ensures Valid() && !dirty && !closing
    {
      this.disk := disk;
      dirty, closing, saves := false, false, [];
      var m := map[];
      if disk.Parsed? {
        m := DecodeAll(disk.entries);
      }
      data, loaded, flushed := m, m, m;
      new;
      HoldsLoaded(m);
    }

    method Load(agent: string, stream: string) returns (c: Option<Cursor>)
      requires Valid()
      ensures c == SaveAll(HistoryOf(loaded, saves, KeyOf(agent, stream)))
    {
      hide KeyOf, HistoryOf, SaveAll;
      var k := KeyOf(agent, stream);
      c := if k in data then Some(data[k]) else None;
    }

    /** A save of nothing changes nothing. Saving into a store being closed is not allowed. */
    method Save(agent: string, stream: string, c: Option<Cursor>)
      requires Valid() && !closing
      modifies `data, `dirty, `saves
      ensures Valid() && saves == if c.Some? then old(saves) + [(KeyOf(agent, stream), c.value)] else old(saves)
      ensures data != old(data) ==> dirty
    {
      hide Holds, KeyOf, Stored, WellKeyed;
      if c.None? {
        return;
      }
      var k := KeyOf(agent, stream);
      HoldsSave(data, loaded, saves, k, c.value);
      saves := saves + [(k, c.value)];
      if k in data && c.value.num < data[k].num && c.value.nodeId == data[k].nodeId {
        assert data[k := data[k]] == data;
        return;
      }
      data := data[k := c.value];
      dirty := true;
    }

    /** Writes the map out and renames it into place; a failure leaves the file as it was. */
    method Flush(ok: bool) returns (r: Result<()>)
      requires Valid()
      modifies `dirty, `disk, `flushed
      ensures Valid() && (r.Err? <==> old(dirty) && !ok)
      ensures r.Err? ==> disk == old(disk) && dirty && flushed == old(flushed)
      ensures r.Ok? ==> !dirty && flushed == data
      ensures r.Ok? && old(dirty) ==> (Stored(disk) == data <==> WellKeyed(data))
    {
      hide Holds, WellKeyed, Decode, Enumerates;
      if !dirty {
        return Ok(());
      }
      var entries, keys := EncodeAll(data);
      if !ok {
        return Err;
      }
      RoundTripIff(entries, keys, data);
      disk := Parsed(entries);
      flushed := data;
      dirty := false;
      return Ok(());
    }

    /** Marks the store closing and flushes a last time: if that goes through, the file reads back
        as memory, provided memory is well keyed. */
    method Close(ok: bool)
      requires Valid()
      modifies `dirty, `disk, `flushed, `closing
      ensures Valid() && closing
      ensures old(closing) ==> disk == old(disk)
      ensures !old(closing) && (ok || !old(dirty)) && WellKeyed(data) ==> Stored(disk) == data
      ensures !old(closing) && ok && old(dirty) && !WellKeyed(data) ==> Stored(disk) != data
    {
      hide Holds, WellKeyed, Decode;
      if closing {
        return;
      }
      closing := true;
      var r := Flush(ok);
    }
  }

  /** Opening fails on a file that cannot be read or parsed. */
  method Open(disk: Disk) returns (r: Option<FileStore>)
    ensures r.None? <==> disk.Unreadable? || disk.Malformed?
    ensures r.Some? ==> fresh(r.value) && r.value.Valid() && r.value.disk == disk && r.value.loaded == Stored(disk)
    ensures r.Some? ==> r.value.saves == [] && !r.value.dirty && !r.value.closing
  {
    if disk.Unreadable? || disk.Malformed? {
      return None;
    }
    var s := new FileStore(disk);
    return Some(s);
  }

  /** A store opened on the file of a cleanly flushed, well-keyed store holds the same cursors. */
  lemma ReopenedHoldsTheSame(s: FileStore)
    requires s.Valid() && !s.dirty && WellKeyed(s.data)
    ensures Stored(s.disk) == s.data
    ensures forall k :: SaveAll(HistoryOf(Stored(s.disk), [], k)) == SaveAll(HistoryOf(s.loaded, s.saves, k))
  {
    hide SaveAll, HistoryOf;
    HoldsLoaded(s.data);
  }
}
