/** The engine as a state machine over values: writes, flush, compaction, snapshots, restart
    (crates/ingodb-lsm/src/lib.rs). Module Engine runs these steps on objects. */
module Lsm {
  import opened Prelude
  import opened Bytes
  import opened Blobs
  import opened Sorting
  import opened Views
  import opened Merging
  import opened Compaction
  import opened Tables
  import Codec
  import Wal

  /** Hash and checksum; W and flush size; the flush threshold; encoded sizes of blobs and of table files. */
  datatype Config = Config(env: Codec.Env, ucs: Ucs, memtableSize: nat, blobSize: Blob -> nat,
                           fileSize: seq<Blob> -> nat)

  /** `mem` and each queued memtable are their entries in key order; the newest queued memtable is last. The log
      file is `torn`, bytes that were there at opening and gave no record, and then the records of `log`.
      `clock` is the next version to be handed out. `background` says that a thread of its own flushes and compacts. */
  datatype State = State(mem: seq<Blob>, queued: seq<seq<Blob>>, tables: seq<Table>, torn: Bytes, log: seq<Blob>,
                         snapshots: set<DocumentId>, nextPath: nat, clock: nat, background: bool)

  const EMPTY: State := State([], [], [], [], [], {}, 1, 1, false)

  function LogFile(env: Codec.Env, st: State): Bytes { st.torn + Wal.LogBytes(env, st.log) }

  // ---- memtable contents ----

  /** Map insertion by (id, version). */
  function MemInsert(mem: seq<Blob>, b: Blob): seq<Blob> {
    if mem == [] then [b]
    else if mem[0].id == b.id && mem[0].version == b.version then [b] + mem[1..]
    else if KeyLe(b, mem[0]) then [b] + mem
    else [mem[0]] + MemInsert(mem[1..], b)
  }

  function MemInsertAll(mem: seq<Blob>, bs: seq<Blob>): seq<Blob>
    decreases bs
  {
    if bs == [] then mem else MemInsertAll(MemInsert(mem, bs[0]), bs[1..])
  }

  /** Strictly increasing keys. */
  ghost predicate KeyStrict(s: seq<Blob>) {
    forall i, j :: 0 <= i < j < |s| ==> KeyLe(s[i], s[j]) && (s[i].id != s[j].id || s[i].version != s[j].version)
  }

  function MemSize(blobSize: Blob -> nat, mem: seq<Blob>): nat {
    if mem == [] then 0 else blobSize(mem[0]) + MemSize(blobSize, mem[1..])
  }

  // ---- reads ----

  /** Where a reader looks, in order: memtable, queued memtables newest first, tables. */
  function Sources(st: State): seq<seq<Blob>> { [st.mem] + Reverse(st.queued) + EntriesOf(st.tables) }

  function Reverse<T>(s: seq<T>): seq<T> {
    if s == [] then [] else Reverse(s[1..]) + [s[0]]
  }

  lemma {:induction false} ReverseAppend<T>(s: seq<T>, x: T)
    ensures Reverse(s + [x]) == [x] + Reverse(s)
  {
    if s != [] {
      assert (s + [x])[1..] == s[1..] + [x];
      ReverseAppend(s[1..], x);
    }
  }

  function AllBlobs(st: State): seq<Blob> { Flatten(Sources(st)) }

  /** The blob a point lookup stops at, tombstones included. */
  function Find(st: State, id: DocumentId, s: DocumentId): Option<Blob> { FirstMatch(Sources(st), id, s) }

  function GetAt(st: State, id: DocumentId, s: DocumentId): Option<Blob> { Live(Find(st, id, s)) }

  function Get(st: State, id: DocumentId): Option<Blob> { GetAt(st, id, MAX_ID) }

  // ---- writes ----

  /** Each blob gets the next version. */
  function Stamp(bs: seq<Blob>, clock: nat): (r: seq<Blob>)
    requires clock + |bs| <= MAX_ID + 1
    ensures |r| == |bs| && forall i :: 0 <= i < |bs| ==> r[i] == bs[i].(version := clock + i)
  {
    if bs == [] then [] else [bs[0].(version := clock)] + Stamp(bs[1..], clock + 1)
  }

  /** Log first, then the memtable. */
  function Logged(st: State, bs: seq<Blob>): State {
    st.(log := st.log + bs, mem := MemInsertAll(st.mem, bs))
  }

  /** A batch of writes; a put is a batch of one and a delete a batch of one tombstone. */
  function Write(cfg: Config, st: State, bs: seq<Blob>): State
    requires st.clock + |bs| <= MAX_ID + 1
  {
    if bs == [] then st
    else
      var st1 := Logged(st, Stamp(bs, st.clock)).(clock := st.clock + |bs|);
      if MemSize(cfg.blobSize, st1.mem) >= cfg.memtableSize then Rotate(cfg, st1) else st1
  }

  // ---- flush ----

  /** Queue the active memtable; without a background thread, flush what is queued. */
  function Rotate(cfg: Config, st: State): State {
    var next := st.(mem := [], queued := st.queued + [st.mem]);
    if st.background then next else FlushQueued(cfg, next)
  }

  /** The newest queued memtable first, until the queue is empty. */
  function FlushQueued(cfg: Config, st: State): State
    decreases |st.queued|
  {
    if st.queued == [] then st
    else
      var last := |st.queued| - 1;
      FlushQueued(cfg, FlushOne(cfg, st.(queued := st.queued[..last]), st.queued[last]))
  }

  function FlushedTable(cfg: Config, path: nat, entries: seq<Blob>): Table {
    var sorted := Sort(entries, KeyLe);
    Table(path, cfg.fileSize(sorted), sorted)
  }

  /** The table is written and visible; the log is still there. */
  function TableWritten(cfg: Config, st: State, entries: seq<Blob>): State {
    st.(tables := SortTables(cfg.ucs, [FlushedTable(cfg, st.nextPath, entries)] + st.tables),
        nextPath := st.nextPath + 1)
  }

  /** With a background thread, compaction is left to it. */
  function FlushOne(cfg: Config, st: State, entries: seq<Blob>): (r: State)
    ensures r.queued == st.queued
  {
    if entries == [] then st
    else
      var written := TableWritten(cfg, st, entries).(torn := [], log := []);
      if st.background then written else MaybeCompact(cfg, written)
  }

  /** From now on rotations only queue and flushes do not compact. */
  function StartBackground(st: State): State { st.(background := true) }

  // ---- compaction ----

  function OldestSnapshot(snapshots: set<DocumentId>): (r: Option<DocumentId>)
    ensures r.None? <==> snapshots == {}
    ensures r.Some? ==> r.value in snapshots && forall s :: s in snapshots ==> r.value <= s
  {
    if snapshots == {} then None else Some(MinOf(snapshots))
  }

  function MinOf(s: set<DocumentId>): (m: DocumentId)
    requires s != {}
    ensures m in s && forall x :: x in s ==> m <= x
  {
    HasMin(s);
    var m :| IsMin(m, s);
    m
  }

  lemma {:induction false} HasMin(s: set<DocumentId>)
    requires s != {}
    ensures exists m :: IsMin(m, s)
    decreases |s|
  {
    var y :| y in s;
    if s == {y} {
      assert IsMin(y, s);
    } else {
      HasMin(s - {y});
      var m :| IsMin(m, s - {y});
      assert s == s - {y} + {y};
      assert IsMin(if y < m then y else m, s);
    }
  }

  predicate IsMin(m: DocumentId, s: set<DocumentId>) { m in s && forall x :: x in s ==> m <= x }

  function MaybeCompact(cfg: Config, st: State): (r: State)
    ensures r.queued == st.queued
  {
    match PickCompaction(cfg.ucs, Metas(st.tables))
    case None => st
    case Some(pick) =>
      RunCompaction(cfg, st, pick.inputs, Purges(pick.outputLevel, pick.maxLevel, OldestSnapshot(st.snapshots)))
  }

  function Output(st: State, inputs: seq<SstMeta>, purge: bool): seq<Blob> {
    Compacted(Inputs(st.tables, inputs), OldestSnapshot(st.snapshots), purge)
  }

  function RunCompaction(cfg: Config, st: State, inputs: seq<SstMeta>, purge: bool): State {
    var out := Output(st, inputs, purge);
    st.(tables := CompactTables(cfg.ucs, st.tables, inputs, out, st.nextPath, cfg.fileSize),
        nextPath := if out == [] then st.nextPath else st.nextPath + 1)
  }

  // ---- snapshots and restart ----

  function OpenSnapshot(st: State): State
    requires st.clock <= MAX_ID
  {
    st.(snapshots := st.snapshots + {st.clock}, clock := st.clock + 1)
  }

  function CloseSnapshot(st: State, s: DocumentId): State { st.(snapshots := st.snapshots - {s}) }

  function MaxPath(tables: seq<Table>): (m: nat)
    ensures forall t :: t in tables ==> t.path <= m
  {
    if tables == [] then 0 else Max(tables[0].path, MaxPath(tables[1..]))
  }

  /** A store over these replayed blobs, with these bytes left in the log file. */
  function Opened(cfg: Config, recovered: seq<Blob>, torn: Bytes, files: seq<Table>, clock: nat): State {
    State(MemInsertAll([], recovered), [], SortTables(cfg.ucs, files), torn, [], {}, MaxPath(files) + 1, clock, false)
  }

  /** What `open` makes of a log file and the table files, listed by name: the log is replayed into the memtable,
      and the file is removed if it gave any record and kept otherwise. */
  function Open(cfg: Config, file: Bytes, files: seq<Table>, clock: nat): State {
    var recovered := Wal.RecoverFrom(cfg.env, file, 0);
    Opened(cfg, recovered, if recovered == [] then file else [], files, clock)
  }

  /** A crash or shutdown between operations, then `open`: only the log file and the table files survive. */
  function Restart(cfg: Config, st: State): State { Open(cfg, LogFile(cfg.env, st), st.tables, st.clock) }
}
