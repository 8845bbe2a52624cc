/** The engine object: its fields are swapped, pushed, sorted and retained in place, and every method
    is proved to be one step of module Lsm (crates/ingodb-lsm/src/lib.rs). */
module Engine {
  import opened Prelude
  import opened Bytes
  import opened Blobs
  import opened Views
  import opened Merging
  import opened Compaction
  import opened Tables
  import opened Lsm
  import opened MemTables
  import opened Wal
  import Codec
  import Queries
  import Scans

  /** What the queued memtables hold. */
  function Contents(ms: seq<MemTable>): seq<seq<Blob>>
    reads ms
  {
    if ms == [] then [] else [ms[0].entries] + Contents(ms[1..])
  }

  class LsmEngine {
    const cfg: Config
    var memtable: MemTable
    /** Rotated memtables waiting for flush, the newest last. */
    var immutableMemtables: seq<MemTable>
    var wal: WalFile
    var sstables: seq<Table>
    var nextSstId: nat
    var activeSnapshots: set<DocumentId>
    var clock: nat
    /** Whether the coordinator thread runs. */
    var compactionThread: bool
    /** What the log file holds: bytes left from opening, and the records logged since. */
    ghost var torn: Bytes
    ghost var logged: seq<Blob>

    /** The memtables are separate objects in good order, and the log file holds the logged records. */
    ghost predicate Valid()
      reads this, memtable, immutableMemtables, wal
    {
      && wal.Valid() && wal.env == cfg.env && wal.data == torn + LogBytes(cfg.env, logged)
      && Fits(memtable) && memtable !in immutableMemtables
      && (forall m :: m in immutableMemtables ==> Fits(m))
      && forall i, j :: 0 <= i < j < |immutableMemtables| ==> immutableMemtables[i] != immutableMemtables[j]
    }

    ghost predicate Fits(m: MemTable)
      reads m
    {
      m.Valid() && m.maxSize == cfg.memtableSize && m.blobSize == cfg.blobSize
    }

    ghost function Abs(): State
      reads this, memtable, immutableMemtables
    {
      State(memtable.entries, Contents(immutableMemtables), sstables, torn, logged, activeSnapshots, nextSstId, clock,
            compactionThread)
    }

    /** Opens on a log file and the table files: recover, replay, sort; a log that gave no record is kept and
        appended to, any other starts anew. */
    constructor (cfg: Config, file: Bytes, files: seq<Table>, clock: nat)
      ensures Valid() && this.cfg == cfg && Abs() == Open(cfg, file, files, clock)
      ensures fresh(memtable) && fresh(wal)
    {
      hide RecoverFrom, LogBytes, SortTables, MaxPath, MemInsertAll, KeyStrict, MemSize;
      var recovered := Recover(cfg.env, file);
      var left := if recovered == [] then file else [];
      this.cfg := cfg;
      var mem := new MemTable(cfg.memtableSize, cfg.blobSize);
      var log := new WalFile(cfg.env, left);
      this.memtable := mem;
      this.immutableMemtables := [];
      this.wal := log;
      this.torn := left;
      this.logged := [];
      this.sstables := SortTables(cfg.ucs, files);
      this.nextSstId := MaxPath(files) + 1;
      this.activeSnapshots := {};
      this.clock := clock;
      this.compactionThread := false;
      new;
      EmptyLog(cfg.env);
      assert left + [] == left;
      InsertAll(recovered);
    }

    method InsertAll(blobs: seq<Blob>)
      requires Valid()
      modifies memtable
      ensures Valid() && Abs() == old(Abs()).(mem := MemInsertAll(old(memtable.entries), blobs))
    {
      hide KeyStrict, MemSize, LogBytes;
      for i := 0 to |blobs|
        invariant Valid() && Contents(immutableMemtables) == old(Contents(immutableMemtables))
        invariant MemInsertAll(memtable.entries, blobs[i..]) == MemInsertAll(old(memtable.entries), blobs)
      {
        assert blobs[i..][1..] == blobs[i + 1..];
        label L:
        var _ := memtable.Insert(blobs[i]);
        SameContents@L(immutableMemtables);
      }
    }

    /** Gives each blob the next version. */
    method StampAll(blobs: seq<Blob>) returns (stamped: seq<Blob>)
      requires clock + |blobs| <= MAX_ID + 1
      modifies this`clock
      ensures stamped == Stamp(blobs, old(clock)) && clock == old(clock) + |blobs|
    {
      hide Stamp;
      stamped := [];
      for i := 0 to |blobs|
        invariant |stamped| == i && clock == old(clock) + i
        invariant forall j :: 0 <= j < i ==> stamped[j] == blobs[j].(version := old(clock) + j)
      {
        stamped := stamped + [blobs[i].(version := clock)];
        clock := clock + 1;
      }
    }

    /** Appends the records to the log file. */
    method LogAll(blobs: seq<Blob>)
      requires Valid()
      modifies wal, this`logged
      ensures Valid() && Abs() == old(Abs()).(log := old(logged) + blobs)
    {
      hide LogBytes, Fits;
      label L:
      wal.AppendBatch(blobs);
      LogConcat(cfg.env, logged, blobs);
      logged := logged + blobs;
      SameContents@L(immutableMemtables);
    }

    /** Stamps, logs and inserts the whole batch, then flushes when the memtable is full. */
    method PutBatch(blobs: seq<Blob>)
      requires Valid() && clock + |blobs| <= MAX_ID + 1
      modifies this, memtable, immutableMemtables, wal
      ensures Valid() && Abs() == Write(cfg, old(Abs()), blobs)
    {
      hide KeyStrict, MemSize, MemInsertAll, Rotate, LogBytes, Fits;
      if blobs == [] {
        return;
      }
      ghost var before := Abs();
      var stamped := StampAll(blobs);
      LogAll(stamped);
      InsertAll(stamped);
      assert Abs() == Logged(before, stamped).(clock := before.clock + |blobs|);
      FullWhen(memtable);
      if memtable.ShouldFlush() {
        RotateMemtable();
      }
    }

    lemma FullWhen(m: MemTable)
      requires Fits(m)
      ensures m.ShouldFlush() <==> MemSize(cfg.blobSize, m.entries) >= cfg.memtableSize
    {
    }

    method Put(blob: Blob)
      requires Valid() && clock <= MAX_ID
      modifies this, memtable, immutableMemtables, wal
      ensures Valid() && Abs() == Write(cfg, old(Abs()), [blob])
    {
      PutBatch([blob]);
    }

    method Delete(id: DocumentId)
      requires Valid() && clock <= MAX_ID
      modifies this, memtable, immutableMemtables, wal
      ensures Valid() && Abs() == Write(cfg, old(Abs()), [Tombstone(id)])
    {
      PutBatch([Tombstone(id)]);
    }

    /** First match wins over the memtable, the queued memtables newest first, and the tables in order. */
    method Lookup(id: DocumentId, snapshot: DocumentId) returns (r: Option<Blob>)
      requires Valid()
      ensures r == GetAt(Abs(), id, snapshot)
    {
      hide KeyStrict, MemSize, FirstMatch, LogBytes;
      assert Sources(Abs()) == ([memtable.entries] + Reverse(Contents(immutableMemtables))) + EntriesOf(sstables);
      FirstMatchAppend([memtable.entries] + Reverse(Contents(immutableMemtables)), EntriesOf(sstables), id, snapshot);
      var hit := LookupMemory(id, snapshot);
      if hit.None? {
        hit := LookupTables(id, snapshot);
      }
      return if hit.Some? && hit.value.Deleted() then None else hit;
    }

    /** The memtable, then the queued memtables. */
    method LookupMemory(id: DocumentId, snapshot: DocumentId) returns (hit: Option<Blob>)
      requires Valid()
      ensures hit == FirstMatch([memtable.entries] + Reverse(Contents(immutableMemtables)), id, snapshot)
    {
      hide KeyStrict, MemSize, Visible, LogBytes;
      FirstMatchAppend([memtable.entries], Reverse(Contents(immutableMemtables)), id, snapshot);
      FirstMatchOne(memtable.entries, id, snapshot);
      hit := memtable.Get(id, snapshot);
      if hit.None? {
        hit := LookupQueued(id, snapshot);
      }
    }

    method LookupQueued(id: DocumentId, snapshot: DocumentId) returns (hit: Option<Blob>)
      requires Valid()
      ensures hit == FirstMatch(Reverse(Contents(immutableMemtables)), id, snapshot)
    {
      hide KeyStrict, MemSize, Visible, LogBytes;
      var ms := immutableMemtables;
      var i := |ms|;
      assert ms[..i] == ms;
      while i > 0
        invariant 0 <= i <= |ms|
        invariant FirstMatch(Reverse(Contents(ms)), id, snapshot) ==
                  FirstMatch(Reverse(Contents(ms[..i])), id, snapshot)
      {
        i := i - 1;
        ReverseLast(ms, i);
        assert Fits(ms[i]);
        hit := ms[i].Get(id, snapshot);
        if hit.Some? {
          return;
        }
        assert ([ms[i].entries] + Reverse(Contents(ms[..i])))[1..] == Reverse(Contents(ms[..i]));
      }
      return None;
    }

    method LookupTables(id: DocumentId, snapshot: DocumentId) returns (hit: Option<Blob>)
      ensures hit == FirstMatch(EntriesOf(sstables), id, snapshot)
    {
      hide Visible;
      for k := 0 to |sstables|
        invariant FirstMatch(EntriesOf(sstables), id, snapshot) == FirstMatch(EntriesOf(sstables)[k..], id, snapshot)
      {
        assert EntriesOf(sstables)[k..][1..] == EntriesOf(sstables)[k + 1..];
        hit := Visible(sstables[k].entries, id, snapshot);
        if hit.Some? {
          return;
        }
      }
      return None;
    }

    /** Gathers everything from the memtable, the queued memtables and the tables, and scans it. */
    method ScanAt(filter: Option<Queries.Filter>, sort: Option<seq<Scans.SortField>>, project: Option<seq<Bytes>>,
                  limit: Option<nat>, snapshot: DocumentId) returns (results: seq<Blob>)
      requires Valid()
      ensures results == Scans.FullScan(Scans.Gathered(Abs()), filter, sort, project, limit, snapshot)
    {
      hide KeyStrict, MemSize, LogBytes, Scans.FullScan;
      var all := GatherMemory();
      ghost var inMemory := all;
      for k := 0 to |sstables|
        invariant all == inMemory + Flatten(EntriesOf(sstables)[..k])
      {
        assert EntriesOf(sstables)[..k + 1] == EntriesOf(sstables)[..k] + [EntriesOf(sstables)[k]];
        FlattenLast(EntriesOf(sstables)[..k], EntriesOf(sstables)[k]);
        all := all + sstables[k].entries;
      }
      assert EntriesOf(sstables)[..|sstables|] == EntriesOf(sstables);
      results := Scans.Scan(all, filter, sort, project, limit, snapshot);
    }

    /** Everything in the memtable and the queued memtables. */
    method GatherMemory() returns (all: seq<Blob>)
      ensures all == memtable.entries + Flatten(Contents(immutableMemtables))
    {
      all := memtable.entries;
      for i := 0 to |immutableMemtables|
        invariant all == memtable.entries + Flatten(Contents(immutableMemtables[..i]))
      {
        assert immutableMemtables[..i + 1] == immutableMemtables[..i] + [immutableMemtables[i]];
        ContentsAppend(immutableMemtables[..i], immutableMemtables[i]);
        FlattenLast(Contents(immutableMemtables[..i]), immutableMemtables[i].entries);
        all := all + immutableMemtables[i].entries;
      }
      assert immutableMemtables[..|immutableMemtables|] == immutableMemtables;
    }

    /** Leaves flushing and compacting to the coordinator from now on. */
    method StartBackgroundCompaction()
      requires Valid()
      modifies this`compactionThread
      ensures Valid() && Abs() == StartBackground(old(Abs()))
    {
      compactionThread := true;
    }

    /** One pass of the coordinator with a single worker: flush what is queued, list all jobs, run the first. */
    method CoordinatorPass()
      requires Valid() && compactionThread
      modifies this`sstables, this`nextSstId, this`wal, this`torn, this`logged, this`immutableMemtables,
        immutableMemtables
      ensures Valid() && Abs() == MaybeCompact(cfg, FlushQueued(cfg, old(Abs())))
    {
      hide KeyStrict, MemSize, LogBytes, PickAll, PickCompaction, RunCompaction, FlushQueued, Metas;
      FlushImmutableMemtables();
      var picks := PickAllCompactions(cfg.ucs, Metas(sstables));
      FirstJob(cfg.ucs, Metas(sstables));
      if picks != [] {
        var oldest := OldestSnapshot(activeSnapshots);
        Compact(picks[0].inputs, Purges(picks[0].outputLevel, picks[0].maxLevel, oldest));
      }
    }

    /** Swaps in a new memtable, queues the old one and, without a coordinator, flushes inline. */
    method RotateMemtable()
      requires Valid()
      modifies this, memtable, immutableMemtables
      ensures Valid() && Abs() == Rotate(cfg, old(Abs()))
    {
      hide KeyStrict, MemSize, FlushQueued, LogBytes;
      var oldMemtable := memtable;
      var newMemtable := new MemTable(cfg.memtableSize, cfg.blobSize);
      SameContents(immutableMemtables);
      ContentsAppend(immutableMemtables, oldMemtable);
      memtable := newMemtable;
      immutableMemtables := immutableMemtables + [oldMemtable];
      if !compactionThread {
        FlushImmutableMemtables();
      }
    }

    /** Pops the newest queued memtable until none is left. */
    method FlushImmutableMemtables()
      requires Valid()
      modifies this`sstables, this`nextSstId, this`wal, this`torn, this`logged, this`immutableMemtables,
        immutableMemtables
      ensures Valid() && Abs() == FlushQueued(cfg, old(Abs()))
    {
      hide KeyStrict, MemSize, FlushOne, FlushQueued, LogBytes;
      while immutableMemtables != []
        invariant Valid() && memtable == old(memtable) && (wal == old(wal) || fresh(wal))
        invariant forall m :: m in immutableMemtables ==> m in old(immutableMemtables)
        invariant FlushQueued(cfg, Abs()) == FlushQueued(cfg, old(Abs()))
        decreases |immutableMemtables|
      {
        ghost var before := Abs();
        var last := TakeNewest();
        FlushSingleMemtable(last);
        FlushQueuedStep(cfg, before);
      }
      FlushQueuedDone(cfg, Abs());
    }

    /** Pops the newest queued memtable. */
    method TakeNewest() returns (last: MemTable)
      requires Valid() && immutableMemtables != []
      modifies this`immutableMemtables
      ensures var queued := old(immutableMemtables);
              last == queued[|queued| - 1] && immutableMemtables == queued[..|queued| - 1]
      ensures Valid() && Fits(last) && last in old(immutableMemtables) && last != memtable
      ensures last !in immutableMemtables
      ensures var before := old(Abs());
              var n := |before.queued| - 1;
              n >= 0 && Abs() == before.(queued := before.queued[..n]) && last.entries == before.queued[n]
    {
      hide KeyStrict, MemSize, LogBytes;
      var n := |immutableMemtables| - 1;
      last := immutableMemtables[n];
      ContentsPop(immutableMemtables);
      assert last in immutableMemtables;
      immutableMemtables := immutableMemtables[..n];
    }

    /** Writes one memtable as a table, resets the log and, without a coordinator, compacts inline. */
    method FlushSingleMemtable(m: MemTable)
      requires Valid() && Fits(m) && m != memtable && m !in immutableMemtables
      modifies this`sstables, this`nextSstId, this`wal, this`torn, this`logged, m
      ensures wal == old(wal) || fresh(wal)
      ensures Valid() && Abs() == FlushOne(cfg, old(Abs()), old(m.entries))
    {
      hide KeyStrict, MemSize, MaybeCompact, TableWritten, LogBytes;
      var blobs := m.Drain();
      SameContents(immutableMemtables);
      if blobs == [] {
        return;
      }
      WriteTable(blobs);
      if !compactionThread {
        MaybeCompactNow();
      }
    }

    /** Adds the table to the stack and starts a new log file. */
    method WriteTable(blobs: seq<Blob>)
      requires Valid()
      modifies this`sstables, this`nextSstId, this`wal, this`torn, this`logged
      ensures fresh(wal) && Valid() && Abs() == TableWritten(cfg, old(Abs()), blobs).(torn := [], log := [])
    {
      hide Fits, SortTables, FlushedTable, LogBytes;
      var table := FlushedTable(cfg, nextSstId, blobs);
      nextSstId := nextSstId + 1;
      sstables := SortTables(cfg.ucs, [table] + sstables);
      wal := new WalFile(cfg.env, []);
      torn, logged := [], [];
      EmptyLog(cfg.env);
    }

    /** Picks at most one group of tables and merges it. */
    method MaybeCompactNow()
      requires Valid()
      modifies this`sstables, this`nextSstId
      ensures Valid() && Abs() == MaybeCompact(cfg, old(Abs()))
    {
      hide KeyStrict, MemSize, LogBytes, PickCompaction, RunCompaction, Metas;
      var pick := PickOne(cfg.ucs, Metas(sstables));
      if pick.Some? {
        var oldest := OldestSnapshot(activeSnapshots);
        Compact(pick.value.inputs, Purges(pick.value.outputLevel, pick.value.maxLevel, oldest));
      }
    }

    /** Merges the inputs and swaps them for the output, or just drops them when nothing survives. */
    method Compact(inputs: seq<SstMeta>, purge: bool)
      requires Valid()
      modifies this`sstables, this`nextSstId
      ensures Valid() && Abs() == RunCompaction(cfg, old(Abs()), inputs, purge)
    {
      hide KeyStrict, MemSize, LogBytes, Compacted, SortTables, OutputTable, OldestSnapshot;
      var merged := MergeInputs(sstables, inputs);
      merged := Merge(merged, OldestSnapshot(activeSnapshots), purge);
      var rest := DropInputs(sstables, inputs);
      if merged == [] {
        sstables := rest;
      } else {
        sstables := SortTables(cfg.ucs, rest + [OutputTable(nextSstId, cfg.fileSize, merged)]);
        nextSstId := nextSstId + 1;
      }
    }

    method TakeSnapshot() returns (version: DocumentId)
      requires Valid() && clock <= MAX_ID
      modifies this`activeSnapshots, this`clock
      ensures Valid() && Abs() == OpenSnapshot(old(Abs())) && version == old(clock)
    {
      version := clock;
      clock := clock + 1;
      activeSnapshots := activeSnapshots + {version};
    }

    method DropSnapshot(version: DocumentId)
      requires Valid()
      modifies this`activeSnapshots
      ensures Valid() && Abs() == CloseSnapshot(old(Abs()), version)
    {
      activeSnapshots := activeSnapshots - {version};
    }
  }

  lemma EmptyLog(env: Codec.Env)
    ensures LogBytes(env, []) == []
  {
  }

  lemma FlattenLast(ss: seq<seq<Blob>>, s: seq<Blob>)
    ensures Flatten(ss + [s]) == Flatten(ss) + s
  {
    FlattenAppend(ss, [s]);
    assert [s][1..] == [] && s + [] == s;
    assert Flatten([s]) == s + Flatten<Blob>([]);
  }

  lemma FlushQueuedStep(cfg: Config, st: State)
    requires st.queued != []
    ensures var n := |st.queued| - 1;
            FlushQueued(cfg, st) == FlushQueued(cfg, FlushOne(cfg, st.(queued := st.queued[..n]), st.queued[n]))
  {
  }

  lemma FlushQueuedDone(cfg: Config, st: State)
    requires st.queued == []
    ensures FlushQueued(cfg, st) == st
  {
  }

  /** Reads all inputs into one list. */
  method MergeInputs(sstables: seq<Table>, inputs: seq<SstMeta>) returns (merged: seq<Blob>)
    ensures merged == Inputs(sstables, inputs)
  {
    merged := [];
    for i := 0 to |inputs|
      invariant merged + Inputs(sstables, inputs[i..]) == Inputs(sstables, inputs)
    {
      assert inputs[i..][1..] == inputs[i + 1..];
      merged := merged + EntriesAt(sstables, inputs[i].path);
    }
    assert inputs[|inputs|..] == [] && merged + [] == merged;
  }

  /** Retains, path by path, the tables that are not inputs. */
  method DropInputs(sstables: seq<Table>, inputs: seq<SstMeta>) returns (rest: seq<Table>)
    ensures rest == Outside(sstables, Paths(inputs))
  {
    rest := sstables;
    assert Paths(inputs[..0]) == {};
    OutsideNothing(sstables);
    for i := 0 to |inputs|
      invariant rest == Outside(sstables, Paths(inputs[..i]))
    {
      DropPath(sstables, Paths(inputs[..i]), inputs[i].path);
      assert inputs[..i + 1] == inputs[..i] + [inputs[i]];
      assert Paths(inputs[..i + 1]) == Paths(inputs[..i]) + {inputs[i].path};
      rest := Outside(rest, {inputs[i].path});
    }
    assert inputs[..|inputs|] == inputs;
  }

  /** Dropping one more input path. */
  lemma {:induction false} DropPath(tables: seq<Table>, paths: set<nat>, path: nat)
    ensures Outside(Outside(tables, paths), {path}) == Outside(tables, paths + {path})
  {
    if tables != [] {
      DropPath(tables[1..], paths, path);
      var rest := Outside(tables[1..], paths);
      if tables[0].path !in paths {
        assert ([tables[0]] + rest)[1..] == rest;
      }
    }
  }

  lemma ReverseLast(ms: seq<MemTable>, i: nat)
    requires i < |ms|
    ensures Reverse(Contents(ms[..i + 1])) == [ms[i].entries] + Reverse(Contents(ms[..i]))
  {
    assert ms[..i + 1] == ms[..i] + [ms[i]];
    ContentsAppend(ms[..i], ms[i]);
    ReverseAppend(Contents(ms[..i]), ms[i].entries);
  }

  lemma {:induction false} ContentsAppend(ms: seq<MemTable>, m: MemTable)
    ensures Contents(ms + [m]) == Contents(ms) + [m.entries]
  {
    if ms != [] {
      assert (ms + [m])[1..] == ms[1..] + [m];
      ContentsAppend(ms[1..], m);
    } else {
      assert [m][1..] == [];
    }
  }

  lemma ContentsPop(ms: seq<MemTable>)
    requires ms != []
    ensures var n := |ms| - 1;
            |Contents(ms)| == |ms| && Contents(ms)[..n] == Contents(ms[..n]) && Contents(ms)[n] == ms[n].entries
  {
    var n := |ms| - 1;
    assert ms == ms[..n] + [ms[n]];
    ContentsAppend(ms[..n], ms[n]);
    ContentsLength(ms);
    ContentsLength(ms[..n]);
  }

  lemma {:induction false} ContentsLength(ms: seq<MemTable>)
    ensures |Contents(ms)| == |ms|
  {
    if ms != [] {
      ContentsLength(ms[1..]);
    }
  }

  lemma {:induction false} OutsideNothing(tables: seq<Table>)
    ensures Outside(tables, {}) == tables
  {
    FilterAll(tables, OutsideTest({}));
  }

  /** Untouched memtables keep their contents. */
  twostate lemma {:induction false} SameContents(ms: seq<MemTable>)
    requires forall m :: m in ms ==> m.entries == old(m.entries)
    ensures Contents(ms) == old(Contents(ms))
  {
    if ms != [] {
      SameContents(ms[1..]);
    }
  }
}
