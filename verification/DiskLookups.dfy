/** Point lookups that read the tables from their bytes: writing, opening and searching files against the lookup over
    tables of entries (crates/ingodb-lsm/src/lib.rs:264-290, 455-498, crates/ingodb-sstable/src). */
module DiskLookups {
  import opened Prelude
  import opened Bytes
  import opened Blobs
  import opened Views
  import opened Tables
  import opened Lsm
  import opened Refinement
  import opened Runs
  import opened Codec
  import opened TableFormat
  import opened TableReader
  import opened TableFiles
  import opened Engine
  import VersionLookups

  /** The bytes are what the writer makes of the table's versions, each within the format's limits. */
  ghost predicate StoredAs(env: Env, t: Table, blockSize: nat, data: Bytes) {
    var entries := KeyedEntries(t.entries, VersionLookups.VersionKey);
    t.entries != [] && Fits(env, entries, blockSize) && IsTable(env, entries, blockSize, data)
  }

  ghost predicate AllStored(env: Env, tables: seq<Table>, blockSize: nat, files: seq<Bytes>) {
    |files| == |tables| && forall i :: 0 <= i < |tables| ==> StoredAs(env, tables[i], blockSize, files[i])
  }

  /** An open table that serves the versions of `t`. */
  ghost predicate ServesTable(env: Env, r: Reader, t: Table, blockSize: nat) {
    var entries := KeyedEntries(t.entries, VersionLookups.VersionKey);
    Serves(env, r, entries, Split(env, entries, blockSize))
  }

  ghost predicate AllServed(env: Env, readers: seq<Reader>, tables: seq<Table>, blockSize: nat) {
    |readers| == |tables| && forall i :: 0 <= i < |tables| ==> ServesTable(env, readers[i], tables[i], blockSize)
  }

  /** What opening makes of the files, the unreadable ones left out. */
  function OpenedFrom(env: Env, files: seq<Bytes>): seq<Reader> {
    if files == [] then []
    else
      var rest := OpenedFrom(env, files[1..]);
      match TableReader.Open(env, files[0])
      case Ok(r) => [r] + rest
      case Err(_) => rest
  }

  method OpenTables(env: Env, files: seq<Bytes>) returns (readers: seq<Reader>)
    ensures readers == OpenedFrom(env, files)
  {
    hide TableReader.Open;
    readers := [];
    assert files[0..] == files;
    for i := 0 to |files|
      invariant readers + OpenedFrom(env, files[i..]) == OpenedFrom(env, files)
    {
      assert files[i..][1..] == files[i + 1..];
      var r := OpenTable(env, files[i]);
      if r.Ok? {
        readers := readers + [r.value];
      }
    }
    assert files[|files|..] == [];
  }

  /** Stored tables all open, and serve what was stored. */
  lemma {:induction false} StoredOpen(env: Env, tables: seq<Table>, blockSize: nat, files: seq<Bytes>)
    requires Lossless(env) && AllStored(env, tables, blockSize, files)
    ensures AllServed(env, OpenedFrom(env, files), tables, blockSize)
  {
    hide Lossless, TableReader.Open, Serves, KeyedEntries, Fits, IsTable, Split;
    if files != [] {
      TableRoundTrip(env, tables[0].entries, VersionLookups.VersionKey, blockSize, files[0]);
      StoredOpen(env, tables[1..], blockSize, files[1..]);
      assert OpenedFrom(env, files) == [TableReader.Open(env, files[0]).value] + OpenedFrom(env, files[1..]);
    }
  }

  /** The tables in order, each searched in its file; an unreadable block ends the lookup with its error. */
  method LookupReaders(env: Env, readers: seq<Reader>, id: DocumentId, s: DocumentId, ghost tables: seq<Table>,
                       ghost blockSize: nat)
    returns (r: Result<Option<Blob>>)
    ensures AllServed(env, readers, tables, blockSize) && (forall t :: t in tables ==> Coherent(t.entries)) ==>
            r == Ok(FirstMatch(EntriesOf(tables), id, s))
  {
    hide Visible, ServesTable, Coherent;
    ghost var good := AllServed(env, readers, tables, blockSize) && forall t :: t in tables ==> Coherent(t.entries);
    for k := 0 to |readers|
      invariant good ==>
                  k <= |tables| && FirstMatch(EntriesOf(tables), id, s) == FirstMatch(EntriesOf(tables)[k..], id, s)
    {
      ghost var t := if k < |tables| then tables[k] else Table(0, 0, []);
      ghost var blocks := Split(env, KeyedEntries(t.entries, VersionLookups.VersionKey), blockSize);
      var hit := VersionLookups.GetByIdAt(env, readers[k], id, s, t.entries, blocks);
      if good {
        ServedHit(env, readers, tables, blockSize, k);
        assert EntriesOf(tables)[k..][1..] == EntriesOf(tables)[k + 1..];
      }
      if hit.Err? || hit.value.Some? {
        return hit;
      }
    }
    return Ok(None);
  }

  lemma ServedHit(env: Env, readers: seq<Reader>, tables: seq<Table>, blockSize: nat, k: nat)
    requires AllServed(env, readers, tables, blockSize) && k < |tables|
    ensures var entries := KeyedEntries(tables[k].entries, VersionLookups.VersionKey);
            Serves(env, readers[k], entries, Split(env, entries, blockSize))
  {
    hide Serves, KeyedEntries, Split;
    assert ServesTable(env, readers[k], tables[k], blockSize);
  }

  /** The lookup of the engine object with its tables in files. */
  method LookupFiles(env: Env, e: LsmEngine, readers: seq<Reader>, id: DocumentId, snapshot: DocumentId,
                     ghost blockSize: nat)
    returns (r: Result<Option<Blob>>)
    requires e.Valid()
    ensures AllServed(env, readers, e.sstables, blockSize) && (forall t :: t in e.sstables ==> Coherent(t.entries)) ==>
            r == Ok(GetAt(e.Abs(), id, snapshot))
  {
    hide FirstMatch, AllServed, Coherent, Wal.LogBytes, KeyStrict;
    var hit := e.LookupMemory(id, snapshot);
    LookupParts(e.Abs(), id, snapshot);
    if hit.None? {
      var found := LookupReaders(env, readers, id, snapshot, e.sstables, blockSize);
      if found.Err? {
        return found;
      }
      hit := found.value;
    }
    return Ok(if hit.Some? && hit.value.Deleted() then None else hit);
  }

  lemma LookupParts(st: State, id: DocumentId, s: DocumentId)
    ensures var here := FirstMatch([st.mem] + Reverse(st.queued), id, s);
            Find(st, id, s) == if here.Some? then here else FirstMatch(EntriesOf(st.tables), id, s)
  {
    FirstMatchAppend([st.mem] + Reverse(st.queued), EntriesOf(st.tables), id, s);
  }

  /** From bytes to map: after any placed run, opening the table files and looking up reads each id back as the last
      document written for it, and as nothing if it was never written or last deleted. */
  method ReadBack(env: Env, e: LsmEngine, files: seq<Bytes>, id: DocumentId, ghost ops: seq<Op>, ghost blockSize: nat)
    returns (r: Result<Option<Blob>>)
    requires e.Valid() && RunPlaced(e.cfg, EMPTY, ops)
    ensures var m := RunModel(e.cfg, EMPTY, map[], ops);
            && e.Abs() == Run(e.cfg, EMPTY, ops) && Lossless(env) && AllStored(env, e.sstables, blockSize, files)
            ==> r == Ok(if id in m then Some(m[id]) else None)
  {
    hide Lossless, AllStored, AllServed, Run, RunModel, Inv, Answers, OpenedFrom, Coherent, Get, Wal.LogBytes,
         KeyStrict;
    var readers := OpenTables(env, files);
    r := LookupFiles(env, e, readers, id, MAX_ID, blockSize);
    if e.Abs() == Run(e.cfg, EMPTY, ops) && Lossless(env) && AllStored(env, e.sstables, blockSize, files) {
      StoredOpen(env, e.sstables, blockSize, files);
      EmptyAnswers(e.cfg);
      RunAnswers(e.cfg, EMPTY, map[], ops);
      TablesAreCoherent(e.cfg, e.Abs());
      StoreIsMap(e.cfg, ops, id);
      GetIsGetAt(e.Abs(), id);
    }
  }

  lemma GetIsGetAt(st: State, id: DocumentId)
    ensures GetAt(st, id, MAX_ID) == Get(st, id)
  {
  }

  lemma TablesAreCoherent(cfg: Config, st: State)
    requires Inv(cfg, st)
    ensures forall t :: t in st.tables ==> Coherent(t.entries)
  {
    hide Inv, AllEntries;
    HeldCoherent(cfg, st);
    forall t | t in st.tables ensures Coherent(t.entries) {
      forall b | b in t.entries ensures b in Held(st) { InAllEntries(st.tables, b); }
    }
  }
}
