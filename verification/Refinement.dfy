/** Invariants of the engine over all runs, and the map it implements. */
module Refinement {
  import opened Prelude
  import opened Bytes
  import opened Blobs
  import opened Sorting
  import opened Views
  import opened Merging
  import opened Compaction
  import opened Tables
  import opened Lsm

  /** What holds between operations of an engine without a background thread. */
  ghost predicate Inv(cfg: Config, st: State) {
    && st.queued == [] && !st.background
    && WellFormed(st.tables) && Sorted(st.tables, TableLe(cfg.ucs)) && Ordered(cfg.ucs, st.tables)
    && (forall t :: t in st.tables ==> t.path < st.nextPath && ReadBefore(st.mem, t.entries))
    && KeyStrict(st.mem)
    && Coherent(Held(st))
    && Issued(st)
    && LogFits(st)
  }

  /** The log holds memtable entries only, and the newest of them. */
  ghost predicate LogFits(st: State) {
    && (forall b :: b in st.log ==> b in st.mem)
    && forall w, v :: w in st.log && v in st.mem && v !in st.log ==> v.version < w.version
  }

  /** Every blob the state holds, in memory or in tables. */
  ghost function Held(st: State): seq<Blob> { st.mem + AllEntries(st.tables) }

  /** All versions and snapshots in use came from the clock. */
  ghost predicate Issued(st: State) {
    && st.clock <= MAX_ID + 1
    && (forall b :: b in Held(st) ==> b.version < st.clock)
    && forall s :: s in st.snapshots ==> s < st.clock
  }

  lemma SourcesHold(st: State)
    requires st.queued == []
    ensures Sources(st) == [st.mem] + EntriesOf(st.tables) && AllBlobs(st) == Held(st)
  {
    assert Sources(st) == [st.mem] + EntriesOf(st.tables);
    assert Sources(st)[1..] == EntriesOf(st.tables);
  }

  /** The read order holds in every state of the invariant, so point lookups see the true view at every snapshot. */
  lemma LookupIsView(cfg: Config, st: State, id: DocumentId, s: DocumentId)
    requires Inv(cfg, st)
    ensures ReadOrdered(Sources(st))
    ensures Find(st, id, s) == Visible(Held(st), id, s)
  {
    SourcesHold(st);
    OrderedSources(cfg.ucs, st.tables);
    var sources := Sources(st);
    forall i, j | 0 <= i < j < |sources| ensures ReadBefore(sources[i], sources[j]) {
      assert sources[j] == EntriesOf(st.tables)[j - 1] == st.tables[j - 1].entries;
      assert st.tables[j - 1] in st.tables;
      if i > 0 {
        assert sources[i] == EntriesOf(st.tables)[i - 1];
      }
    }
    FirstMatchIsVisible(sources, id, s);
  }

  // ---- writes ----

  lemma {:induction false} MemInsertMembers(mem: seq<Blob>, b: Blob, x: Blob)
    requires KeyStrict(mem)
    ensures x in MemInsert(mem, b) <==> x == b || (x in mem && (x.id != b.id || x.version != b.version))
  {
    if mem != [] {
      assert mem == [mem[0]] + mem[1..];
      MemInsertMembers(mem[1..], b, x);
      if x in mem {
        var k :| 0 <= k < |mem| && mem[k] == x;
        assert k > 0 ==> KeyLe(mem[0], mem[k]) && (mem[0].id != mem[k].id || mem[0].version != mem[k].version);
      }
    }
  }

  lemma {:induction false} MemInsertStrict(mem: seq<Blob>, b: Blob)
    requires KeyStrict(mem)
    ensures KeyStrict(MemInsert(mem, b))
  {
    if mem != [] && !(mem[0].id == b.id && mem[0].version == b.version) && !KeyLe(b, mem[0]) {
      MemInsertStrict(mem[1..], b);
      var rest := MemInsert(mem[1..], b);
      forall j | 0 <= j < |rest|
        ensures KeyLe(mem[0], rest[j]) && (mem[0].id != rest[j].id || mem[0].version != rest[j].version)
      {
        assert rest[j] in rest;
        MemInsertMembers(mem[1..], b, rest[j]);
        if rest[j] != b {
          var k :| 0 <= k < |mem[1..]| && mem[1..][k] == rest[j];
          assert mem[k + 1] == rest[j];
        }
      }
    }
  }

  /** One stamped write: into the log and the memtable. */
  ghost function WriteOne(st: State, b: Blob): State
    requires st.clock <= MAX_ID
  {
    Logged(st, [b.(version := st.clock)]).(clock := st.clock + 1)
  }

  ghost function WriteMany(st: State, bs: seq<Blob>): State
    requires st.clock + |bs| <= MAX_ID + 1
  {
    Logged(st, Stamp(bs, st.clock)).(clock := st.clock + |bs|)
  }

  /** A write flushes exactly when the memtable with it is full: below the threshold nothing else happens, and no write
      leaves a full one behind. */
  lemma WriteFlushes(cfg: Config, st: State, bs: seq<Blob>)
    requires st.clock + |bs| <= MAX_ID + 1 && bs != []
    ensures MemSize(cfg.blobSize, WriteMany(st, bs).mem) < cfg.memtableSize ==> Write(cfg, st, bs) == WriteMany(st, bs)
    ensures MemSize(cfg.blobSize, WriteMany(st, bs).mem) >= cfg.memtableSize ==>
              && Write(cfg, st, bs).mem == []
              && Write(cfg, st, bs).queued == if st.background then st.queued + [WriteMany(st, bs).mem] else []
    ensures cfg.memtableSize > 0 ==> MemSize(cfg.blobSize, Write(cfg, st, bs).mem) < cfg.memtableSize
  {
    hide MemInsertAll, FlushQueued, Stamp;
    var full := WriteMany(st, bs);
    FlushedQueue(cfg, full.(mem := [], queued := full.queued + [full.mem]));
  }

  lemma {:induction false} FlushedQueue(cfg: Config, st: State)
    ensures FlushQueued(cfg, st).mem == st.mem && FlushQueued(cfg, st).queued == []
    decreases |st.queued|
  {
    hide TableWritten, PickCompaction, RunCompaction;
    if st.queued != [] {
      var last := |st.queued| - 1;
      var popped := st.(queued := st.queued[..last]);
      FlushOneMem(cfg, popped, st.queued[last]);
      FlushedQueue(cfg, FlushOne(cfg, popped, st.queued[last]));
    }
  }

  lemma FlushOneMem(cfg: Config, st: State, entries: seq<Blob>)
    ensures FlushOne(cfg, st, entries).mem == st.mem
  {
  }

  lemma MemInsertOne(mem: seq<Blob>, b: Blob)
    ensures MemInsertAll(mem, [b]) == MemInsert(mem, b)
  {
    assert MemInsertAll(mem, [b]) == MemInsertAll(MemInsert(mem, b), [b][1..]);
  }

  lemma WriteManyStep(st: State, bs: seq<Blob>)
    requires bs != [] && st.clock + |bs| <= MAX_ID + 1
    ensures WriteMany(st, bs) == WriteMany(WriteOne(st, bs[0]), bs[1..])
  {
    hide MemInsert, MemInsertAll, Stamp;
    var b, rest := bs[0].(version := st.clock), Stamp(bs[1..], st.clock + 1);
    StampFirst(bs, st.clock);
    StampOne(bs[0], st.clock);
    InsertAllFirst(st.mem, b, rest);
    MemInsertOne(st.mem, b);
    assert st.log + ([b] + rest) == (st.log + [b]) + rest;
  }

  lemma StampFirst(bs: seq<Blob>, clock: nat)
    requires bs != [] && clock + |bs| <= MAX_ID + 1
    ensures Stamp(bs, clock) == [bs[0].(version := clock)] + Stamp(bs[1..], clock + 1)
  {
  }

  lemma StampOne(b: Blob, clock: nat)
    requires clock <= MAX_ID
    ensures Stamp([b], clock) == [b.(version := clock)]
  {
  }

  lemma InsertAllFirst(mem: seq<Blob>, b: Blob, rest: seq<Blob>)
    ensures MemInsertAll(mem, [b] + rest) == MemInsertAll(MemInsert(mem, b), rest)
  {
    assert ([b] + rest)[1..] == rest;
  }

  /** A write becomes the newest version of its document and touches no other. */
  lemma WriteOneView(cfg: Config, st: State, b: Blob, id: DocumentId)
    requires Inv(cfg, st) && st.clock <= MAX_ID
    ensures Inv(cfg, WriteOne(st, b))
    ensures Find(WriteOne(st, b), id, MAX_ID) ==
            if id == b.id then Some(b.(version := st.clock)) else Find(st, id, MAX_ID)
  {
    hide FirstMatch, WellFormed, Ordered, Sorted, Visible;
    var x, after := b.(version := st.clock), WriteOne(st, b);
    WriteOneInv(cfg, st, b);
    LookupIsView(cfg, st, id, MAX_ID);
    LookupIsView(cfg, after, id, MAX_ID);
    if id == b.id {
      VisibleUnique(Held(after), id, MAX_ID, x);
    } else {
      OtherIds(Held(st), Held(after), id);
    }
  }

  lemma WriteOneInv(cfg: Config, st: State, b: Blob)
    requires Inv(cfg, st) && st.clock <= MAX_ID
    ensures var after := WriteOne(st, b);
            Inv(cfg, after) && forall y :: y in Held(after) <==> y == b.(version := st.clock) || y in Held(st)
  {
    hide WellFormed, Ordered, Sorted, MemInsert, MemInsertAll;
    var x, after := b.(version := st.clock), WriteOne(st, b);
    MemInsertOne(st.mem, x);
    MemInsertStrict(st.mem, x);
    forall y ensures y in after.mem <==> y == x || y in st.mem {
      MemInsertMembers(st.mem, x, y);
      if y in st.mem { assert y in Held(st); }
    }
    forall t | t in st.tables ensures ReadBefore(after.mem, t.entries) {
      assert ReadBefore(st.mem, t.entries);
      forall v | v in t.entries ensures v.version < st.clock { InAllEntries(st.tables, v); assert v in Held(st); }
    }
  }

  lemma OtherIds(before: seq<Blob>, after: seq<Blob>, id: DocumentId)
    requires Coherent(before) && Coherent(after)
    requires forall y: Blob :: y.id == id ==> (y in after <==> y in before)
    ensures Visible(after, id, MAX_ID) == Visible(before, id, MAX_ID)
  {
    var r := Visible(before, id, MAX_ID);
    if r.Some? {
      VisibleUnique(after, id, MAX_ID, r.value);
    }
  }

  // ---- the map ----

  /** The documents the store promises to hold: id to last written version. */
  type Model = map<DocumentId, Blob>

  ghost function Apply(m: Model, b: Blob): Model {
    if b.Deleted() then m - {b.id} else m[b.id := b]
  }

  ghost function ApplyAll(m: Model, bs: seq<Blob>): Model
    decreases bs
  {
    if bs == [] then m else ApplyAll(Apply(m, bs[0]), bs[1..])
  }

  /** Every read of the engine answers as the map does. */
  ghost predicate Answers(st: State, m: Model) {
    forall id :: Get(st, id) == if id in m then Some(m[id]) else None
  }

  lemma {:induction false} WriteManyAnswers(cfg: Config, st: State, bs: seq<Blob>, m: Model)
    requires Inv(cfg, st) && st.clock + |bs| <= MAX_ID + 1 && Answers(st, m)
    ensures Inv(cfg, WriteMany(st, bs)) && Answers(WriteMany(st, bs), ApplyAll(m, Stamp(bs, st.clock)))
    decreases bs
  {
    hide Inv, Answers, WriteMany, WriteOne, Apply;
    if bs == [] {
      WriteManyNone(st);
    } else {
      var st1, b := WriteOne(st, bs[0]), bs[0].(version := st.clock);
      WriteOneAnswers(cfg, st, bs[0], m);
      WriteManyAnswers(cfg, st1, bs[1..], Apply(m, b));
      WriteManyStep(st, bs);
      assert Stamp(bs, st.clock) == [b] + Stamp(bs[1..], st.clock + 1);
    }
  }

  lemma WriteManyNone(st: State)
    requires st.clock <= MAX_ID + 1
    ensures WriteMany(st, []) == st
  {
    assert st.log + [] == st.log;
  }

  lemma WriteOneAnswers(cfg: Config, st: State, b: Blob, m: Model)
    requires Inv(cfg, st) && st.clock <= MAX_ID && Answers(st, m)
    ensures var after := WriteOne(st, b);
            Inv(cfg, after) && Answers(after, Apply(m, b.(version := st.clock))) && after.clock == st.clock + 1
  {
    hide Inv, FirstMatch, MemInsertAll;
    var after, x := WriteOne(st, b), b.(version := st.clock);
    WriteOneView(cfg, st, b, 0);
    forall id ensures Get(after, id) == if id in Apply(m, x) then Some(Apply(m, x)[id]) else None {
      WriteOneView(cfg, st, b, id);
      assert Get(st, id) == if id in m then Some(m[id]) else None;
    }
  }

  // ---- flush ----

  /** The state after a non-empty memtable became a table and the log was reset. */
  ghost function Flushed(cfg: Config, st: State): State {
    TableWritten(cfg, st.(mem := []), st.mem).(torn := [], log := [])
  }

  /** Without a background thread, a rotation is one flush followed by at most one compaction. */
  lemma RotateIs(cfg: Config, st: State)
    requires st.queued == [] && !st.background
    ensures Rotate(cfg, st) == if st.mem == [] then st else MaybeCompact(cfg, Flushed(cfg, st))
  {
    var q := st.(mem := [], queued := [] + [st.mem]);
    assert q.queued[..0] == [];
    var one := FlushOne(cfg, q.(queued := []), st.mem);
    assert FlushQueued(cfg, q) == FlushQueued(cfg, one) == one;
  }

  /** The flushed table must not land above a table it shares a document with. */
  ghost predicate FlushOk(cfg: Config, st: State) {
    st.mem == [] || FlushPlaced(cfg.ucs, st.tables, FlushedTable(cfg, st.nextPath, st.mem))
  }

  lemma FlushedTableSame(cfg: Config, st: State)
    requires Inv(cfg, st) && st.mem != []
    ensures var t := FlushedTable(cfg, st.nextPath, st.mem);
            && t.entries != [] && Sorted(t.entries, KeyLe) && (forall b :: b in t.entries <==> b in st.mem)
            && WellFormed([t] + st.tables)
            && forall v :: v in st.tables ==> v.path < t.path && ReadBefore(t.entries, v.entries)
  {
    hide Sorted, Coherent, Ordered, LogFits, KeyStrict, ReadBefore, WellFormed;
    var t := FlushedTable(cfg, st.nextPath, st.mem);
    FlushedEntries(cfg, st.nextPath, st.mem);
    AddedWellFormed(st.tables, t);
    forall v | v in st.tables ensures ReadBefore(t.entries, v.entries) { SameBefore(st.mem, t.entries, v.entries); }
  }

  lemma FlushedEntries(cfg: Config, path: nat, mem: seq<Blob>)
    ensures var t := FlushedTable(cfg, path, mem);
            && t.path == path && Sorted(t.entries, KeyLe) && |t.entries| == |mem|
            && forall b :: b in t.entries <==> b in mem
  {
    hide Sort, Sorted;
    MergeLeTotal();
    SortSorted(mem, KeyLe);
    SortMultiset(mem, KeyLe);
    forall b ensures b in Sort(mem, KeyLe) <==> b in mem { InSort(mem, KeyLe, b); }
  }

  lemma AddedWellFormed(tables: seq<Table>, t: Table)
    requires WellFormed(tables) && t.entries != [] && Sorted(t.entries, KeyLe)
    requires forall v :: v in tables ==> v.path < t.path
    ensures WellFormed([t] + tables)
  {
    hide Sorted;
    assert t !in tables;
    assert multiset([t] + tables) == multiset{t} + multiset(tables);
  }

  lemma SameBefore(a: seq<Blob>, b: seq<Blob>, later: seq<Blob>)
    requires ReadBefore(a, later) && forall x :: x in b <==> x in a
    ensures ReadBefore(b, later)
  {
  }

  /** A well-placed flush keeps the invariant and every view, at every snapshot. */
  lemma FlushKeepsViews(cfg: Config, st: State, id: DocumentId, s: DocumentId)
    requires Inv(cfg, st) && st.mem != [] && FlushOk(cfg, st)
    ensures Inv(cfg, Flushed(cfg, st)) && Find(Flushed(cfg, st), id, s) == Find(st, id, s)
  {
    hide FirstMatch, Sorted, WellFormed;
    var after, t := Flushed(cfg, st), FlushedTable(cfg, st.nextPath, st.mem);
    FlushInv(cfg, st);
    LookupIsView(cfg, st, id, s);
    LookupIsView(cfg, after, id, s);
    SameEntriesSameView(Held(st), Held(after), id, s);
  }

  lemma FlushInv(cfg: Config, st: State)
    requires Inv(cfg, st) && st.mem != [] && FlushOk(cfg, st)
    ensures Inv(cfg, Flushed(cfg, st)) && forall b :: b in Held(Flushed(cfg, st)) <==> b in Held(st)
  {
    hide Sorted, WellFormed, ReadBefore, Ordered, AllEntries;
    var after, t := Flushed(cfg, st), FlushedTable(cfg, st.nextPath, st.mem);
    FlushedTableSame(cfg, st);
    AddedOrdered(cfg.ucs, st.tables, t);
    SortTablesSame(cfg.ucs, [t] + st.tables);
    OrderedSame(cfg.ucs, [t] + st.tables, after.tables);
    FlushHolds(cfg, st);
    forall v | v in after.tables ensures ReadBefore([], v.entries) { NothingBefore(v.entries); }
  }

  lemma FlushHolds(cfg: Config, st: State)
    requires Inv(cfg, st) && st.mem != []
    ensures forall b :: b in Held(Flushed(cfg, st)) <==> b in Held(st)
  {
    hide Inv, Sorted, WellFormed, ReadBefore, Ordered, AllEntries;
    var after, t := Flushed(cfg, st), FlushedTable(cfg, st.nextPath, st.mem);
    FlushedTableSame(cfg, st);
    SortTablesSame(cfg.ucs, [t] + st.tables);
    forall b ensures b in Held(after) <==> b in Held(st) {
      InAllEntries(st.tables, b);
      InAllEntries(after.tables, b);
      if b in st.mem { assert t in after.tables; }
    }
  }

  lemma NothingBefore(s: seq<Blob>)
    ensures ReadBefore([], s)
  {
  }

  lemma OrderedSame(u: Ucs, a: seq<Table>, b: seq<Table>)
    requires Ordered(u, a) && forall t :: t in b <==> t in a
    ensures Ordered(u, b)
  {
  }

  // ---- snapshots ----

  lemma SameBelow(before: seq<Blob>, after: seq<Blob>, x: Blob, id: DocumentId, s: DocumentId)
    requires Coherent(after) && (forall y :: y in after <==> y == x || y in before) && x.version > s
    ensures Visible(after, id, s) == Visible(before, id, s)
  {
    var r := Visible(before, id, s);
    if r.Some? {
      VisibleUnique(after, id, s, r.value);
    }
  }

  lemma WriteOneSnapshot(cfg: Config, st: State, b: Blob, id: DocumentId, s: DocumentId)
    requires Inv(cfg, st) && st.clock <= MAX_ID && s < st.clock
    ensures Find(WriteOne(st, b), id, s) == Find(st, id, s)
  {
    hide Inv, FirstMatch, Visible, WriteOne;
    WriteOneInv(cfg, st, b);
    LookupIsView(cfg, st, id, s);
    LookupIsView(cfg, WriteOne(st, b), id, s);
    HeldCoherent(cfg, WriteOne(st, b));
    SameBelow(Held(st), Held(WriteOne(st, b)), b.(version := st.clock), id, s);
  }

  /** Writes never disturb a snapshot that is already open. */
  lemma {:induction false} WritesKeepSnapshots(cfg: Config, st: State, bs: seq<Blob>, id: DocumentId, s: DocumentId)
    requires Inv(cfg, st) && st.clock + |bs| <= MAX_ID + 1 && s < st.clock
    ensures Find(WriteMany(st, bs), id, s) == Find(st, id, s)
    decreases bs
  {
    if bs == [] {
      WriteManyNone(st);
    } else {
      hide Inv, WriteMany, Find;
      WriteOneInv(cfg, st, bs[0]);
      WriteOneSnapshot(cfg, st, bs[0], id, s);
      NextClock(st, bs[0]);
      WritesKeepSnapshots(cfg, WriteOne(st, bs[0]), bs[1..], id, s);
      WriteManyStep(st, bs);
    }
  }

  lemma NextClock(st: State, b: Blob)
    requires st.clock <= MAX_ID
    ensures WriteOne(st, b).clock == st.clock + 1
  {
  }

  // ---- compaction ----

  /** The compaction output must keep its place between newer and older tables. */
  ghost predicate CompactOk(cfg: Config, st: State) {
    match PickCompaction(cfg.ucs, Metas(st.tables))
    case None => true
    case Some(pick) =>
      pick.outputLevel >= 1 &&
      RunOk(cfg, st, pick.inputs, pick.outputLevel - 1,
            Purges(pick.outputLevel, pick.maxLevel, OldestSnapshot(st.snapshots)))
  }

  ghost predicate RunOk(cfg: Config, st: State, inputs: seq<SstMeta>, level: nat, purge: bool) {
    var out := Output(st, inputs, purge);
    out == [] ||
      OutputPlaced(cfg.ucs, Outside(st.tables, Paths(inputs)), level, OutputTable(st.nextPath, cfg.fileSize, out))
  }

  /** A compaction as the picker sets it up. */
  ghost predicate Runnable(cfg: Config, st: State, inputs: seq<SstMeta>, level: nat, purge: bool) {
    && WholeGroup(cfg.ucs, st.tables, inputs, level)
    && (purge ==> st.snapshots == {} && forall t :: t in st.tables ==> Level(cfg.ucs, t) <= level)
  }

  lemma PickIsRunnable(cfg: Config, st: State)
    requires Inv(cfg, st) && PickCompaction(cfg.ucs, Metas(st.tables)).Some?
    ensures var pick := PickCompaction(cfg.ucs, Metas(st.tables)).value;
            && pick.outputLevel >= 1
            && Runnable(cfg, st, pick.inputs, pick.outputLevel - 1,
                        Purges(pick.outputLevel, pick.maxLevel, OldestSnapshot(st.snapshots)))
  {
    PickIsWholeGroup(cfg.ucs, st.tables);
  }

  /** A compaction purges tombstones exactly when no snapshot is open and no table is above its inputs. */
  lemma PurgeIff(cfg: Config, st: State)
    requires WellFormed(st.tables) && PickCompaction(cfg.ucs, Metas(st.tables)).Some?
    ensures var pick := PickCompaction(cfg.ucs, Metas(st.tables)).value;
            Purges(pick.outputLevel, pick.maxLevel, OldestSnapshot(st.snapshots)) <==>
              st.snapshots == {} && forall t :: t in st.tables ==> Level(cfg.ucs, t) < pick.outputLevel
  {
    hide PickCompaction, MaxLevel, WellFormed, OldestSnapshot;
    var pick, metas := PickCompaction(cfg.ucs, Metas(st.tables)).value, Metas(st.tables);
    PickIsWholeGroup(cfg.ucs, st.tables);
    NoneOpen(st.snapshots);
    PickedMax(cfg.ucs, st.tables);
  }

  lemma NoneOpen(snapshots: set<DocumentId>)
    ensures OldestSnapshot(snapshots).None? <==> snapshots == {}
  {
  }

  /** The highest level a pick reports is that of some table. */
  lemma PickedMax(u: Ucs, tables: seq<Table>)
    requires WellFormed(tables) && PickCompaction(u, Metas(tables)).Some?
    ensures exists t :: t in tables && Level(u, t) == PickCompaction(u, Metas(tables)).value.maxLevel
  {
    hide PickFrom, MaxLevel, WellFormed;
    var metas := Metas(tables);
    MetasSound(tables);
    PickIsLowest(u, metas);
    var m := MaxLevelIs(u, metas);
    var k :| 0 <= k < |metas| && metas[k] == m;
    assert m == tables[k].Meta() && tables[k] in tables;
  }

  lemma TablesCoherent(st: State)
    requires Coherent(Held(st))
    ensures Coherent(AllEntries(st.tables))
  {
    forall b | b in AllEntries(st.tables) ensures b in Held(st) {}
  }

  /** What the state holds after a compaction: everything outside the inputs and the surviving versions. */
  lemma CompactionHolds(cfg: Config, st: State, inputs: seq<SstMeta>, level: nat, purge: bool, b: Blob)
    requires Inv(cfg, st) && Runnable(cfg, st, inputs, level, purge)
    ensures b in Held(RunCompaction(cfg, st, inputs, purge)) <==>
            b in st.mem || b in AllEntries(Outside(st.tables, Paths(inputs))) || b in Output(st, inputs, purge)
  {
    hide Compacted, Inputs;
    var out, rest := Output(st, inputs, purge), Outside(st.tables, Paths(inputs));
    var after := RunCompaction(cfg, st, inputs, purge);
    InAllEntries(after.tables, b);
    InAllEntries(rest, b);
    if out != [] {
      var output := OutputTable(st.nextPath, cfg.fileSize, out);
      OutputTableSame(st.nextPath, cfg.fileSize, out);
      SortTablesSame(cfg.ucs, rest + [output]);
      assert output in after.tables;
    }
  }

  lemma InsideOrOutside(cfg: Config, st: State, inputs: seq<SstMeta>, level: nat, purge: bool, b: Blob)
    requires Inv(cfg, st) && Runnable(cfg, st, inputs, level, purge)
    ensures b in AllEntries(st.tables) <==>
            b in AllEntries(Outside(st.tables, Paths(inputs))) || b in Inputs(st.tables, inputs)
    ensures Coherent(Inputs(st.tables, inputs))
  {
    TablesCoherent(st);
    InputsAreEntries(cfg.ucs, st.tables, inputs, level);
    InOutside(st.tables, Paths(inputs));
    InAllEntries(st.tables, b);
    InAllEntries(Outside(st.tables, Paths(inputs)), b);
  }

  lemma CompactionInv(cfg: Config, st: State, inputs: seq<SstMeta>, level: nat, purge: bool)
    requires Inv(cfg, st) && Runnable(cfg, st, inputs, level, purge) && RunOk(cfg, st, inputs, level, purge)
    ensures Inv(cfg, RunCompaction(cfg, st, inputs, purge))
    ensures forall b :: b in Held(RunCompaction(cfg, st, inputs, purge)) ==> b in Held(st)
  {
    hide Compacted, Inputs, Sorted, ReadBefore, WellFormed, Ordered, KeyStrict;
    var after := RunCompaction(cfg, st, inputs, purge);
    forall b | b in Held(after) ensures b in Held(st) {
      CompactionHolds(cfg, st, inputs, level, purge, b);
      InsideOrOutside(cfg, st, inputs, level, purge, b);
      CompactedMembers(Inputs(st.tables, inputs), OldestSnapshot(st.snapshots), purge, b);
    }
    CompactionTables(cfg, st, inputs, level, purge);
  }

  lemma CompactionTables(cfg: Config, st: State, inputs: seq<SstMeta>, level: nat, purge: bool)
    requires Inv(cfg, st) && Runnable(cfg, st, inputs, level, purge) && RunOk(cfg, st, inputs, level, purge)
    ensures var after := RunCompaction(cfg, st, inputs, purge);
            && WellFormed(after.tables) && Sorted(after.tables, TableLe(cfg.ucs)) && Ordered(cfg.ucs, after.tables)
            && forall t :: t in after.tables ==> t.path < after.nextPath && ReadBefore(st.mem, t.entries)
  {
    hide Compacted, Inputs, Sorted;
    var out, rest := Output(st, inputs, purge), Outside(st.tables, Paths(inputs));
    var after := RunCompaction(cfg, st, inputs, purge);
    InOutside(st.tables, Paths(inputs));
    if out == [] {
      FilterSorted(st.tables, TableLe(cfg.ucs), OutsideTest(Paths(inputs)));
    } else {
      var output := OutputTable(st.nextPath, cfg.fileSize, out);
      OutputTableSame(st.nextPath, cfg.fileSize, out);
      TablesCoherent(st);
      CompactionFits(cfg.ucs, st.tables, inputs, level, OldestSnapshot(st.snapshots), purge, st.nextPath, cfg.fileSize);
      PlacedOrdered(cfg.ucs, rest, level, output);
      SortTablesSame(cfg.ucs, rest + [output]);
      OrderedSame(cfg.ucs, rest + [output], after.tables);
      OutputWellFormed(rest, output);
      MemBeforeOutput(cfg, st, inputs, level, purge);
    }
  }

  lemma OutputWellFormed(rest: seq<Table>, output: Table)
    requires WellFormed(rest) && output.entries != [] && Sorted(output.entries, KeyLe)
    requires forall t :: t in rest ==> t.path < output.path
    ensures WellFormed(rest + [output])
  {
    assert output !in rest;
    assert multiset(rest + [output]) == multiset(rest) + multiset{output};
  }

  lemma MemBeforeOutput(cfg: Config, st: State, inputs: seq<SstMeta>, level: nat, purge: bool)
    requires Inv(cfg, st) && Runnable(cfg, st, inputs, level, purge)
    ensures ReadBefore(st.mem, OutputTable(st.nextPath, cfg.fileSize, Output(st, inputs, purge)).entries)
  {
    hide Compacted, Inputs, Sorted, WellFormed, Ordered;
    var out := Output(st, inputs, purge);
    OutputTableSame(st.nextPath, cfg.fileSize, out);
    TablesCoherent(st);
    InputsAreEntries(cfg.ucs, st.tables, inputs, level);
    forall v, w | v in out && w in st.mem && v.id == w.id && w.version < v.version ensures v in st.mem {
      CompactedMembers(Inputs(st.tables, inputs), OldestSnapshot(st.snapshots), purge, v);
      var i :| i in st.tables && i.path in Paths(inputs) && v in i.entries;
      assert ReadBefore(st.mem, i.entries);
    }
  }

  /** Dropping elements keeps a list sorted. */
  lemma {:induction false} FilterSorted<T(!new)>(s: seq<T>, le: (T, T) -> bool, p: T -> bool)
    requires Sorted(s, le)
    ensures Sorted(Filter(s, p), le)
  {
    if s != [] {
      FilterSorted(s[1..], le, p);
      var f := Filter(s[1..], p);
      forall j | 0 <= j < |f| ensures le(s[0], f[j]) {
        InFilter(s[1..], p, f[j]);
        assert f[j] in s[1..];
        var k :| 0 <= k < |s[1..]| && s[1..][k] == f[j];
        assert s[k + 1] == f[j];
      }
    }
  }

  /** A well-placed compaction changes no latest read: what it drops is shadowed, or a tombstone with nothing left
      below it. */
  lemma CompactionKeepsLatest(cfg: Config, st: State, inputs: seq<SstMeta>, level: nat, purge: bool, id: DocumentId)
    requires Inv(cfg, st) && Runnable(cfg, st, inputs, level, purge) && RunOk(cfg, st, inputs, level, purge)
    ensures Get(RunCompaction(cfg, st, inputs, purge), id) == Get(st, id)
  {
    hide Inv, Runnable, RunOk, RunCompaction, FirstMatch, Visible;
    var after := RunCompaction(cfg, st, inputs, purge);
    CompactionInv(cfg, st, inputs, level, purge);
    LookupIsView(cfg, st, id, MAX_ID);
    LookupIsView(cfg, after, id, MAX_ID);
    HeldCoherent(cfg, after);
    HeldCoherent(cfg, st);
    var before := Visible(Held(st), id, MAX_ID);
    if before.Some? {
      var b := before.value;
      if b in Held(after) {
        VisibleUnique(Held(after), id, MAX_ID, b);
      } else {
        DroppedLatest(cfg, st, inputs, level, purge, b);
      }
    }
  }

  lemma HeldCoherent(cfg: Config, st: State)
    requires Inv(cfg, st)
    ensures Coherent(Held(st))
  {
  }

  /** A latest version that a compaction drops is a purged tombstone, and no version of its document is left. */
  lemma DroppedLatest(cfg: Config, st: State, inputs: seq<SstMeta>, level: nat, purge: bool, b: Blob)
    requires Inv(cfg, st) && Runnable(cfg, st, inputs, level, purge)
    requires b in Held(st) && b !in Held(RunCompaction(cfg, st, inputs, purge)) && IsNewest(b, Held(st))
    ensures b.Deleted() && forall c :: c in Held(RunCompaction(cfg, st, inputs, purge)) ==> c.id != b.id
  {
    hide Inv, WholeGroup, RunCompaction, Compacted, Inputs;
    var merged, oldest := Inputs(st.tables, inputs), OldestSnapshot(st.snapshots);
    CompactionHolds(cfg, st, inputs, level, purge, b);
    InsideOrOutside(cfg, st, inputs, level, purge, b);
    assert b in merged;
    forall c | c in merged ensures c in Held(st) { InsideOrOutside(cfg, st, inputs, level, purge, c); }
    CompactedMembers(merged, oldest, purge, b);
    assert purge && b.Deleted();
    forall c | c in Held(RunCompaction(cfg, st, inputs, purge)) && c.id == b.id ensures false {
      CompactionHolds(cfg, st, inputs, level, purge, c);
      if c in Output(st, inputs, purge) {
        CompactedMembers(merged, oldest, purge, c);
        NewestUnique(merged, b, c);
      } else {
        NothingLeft(cfg, st, inputs, level, b, c);
      }
    }
  }

  lemma NewestUnique(s: seq<Blob>, b: Blob, c: Blob)
    requires Coherent(s) && b in s && c in s && b.id == c.id && IsNewest(b, s) && IsNewest(c, s)
    ensures b == c
  {
  }

  /** When the inputs are at the top level, nothing outside them holds a version below one of theirs. */
  lemma NothingLeft(cfg: Config, st: State, inputs: seq<SstMeta>, level: nat, b: Blob, c: Blob)
    requires Inv(cfg, st) && Runnable(cfg, st, inputs, level, true)
    requires b in Inputs(st.tables, inputs) && b !in st.mem && b !in AllEntries(Outside(st.tables, Paths(inputs)))
    requires IsNewest(b, Held(st)) && c.id == b.id
    ensures c !in st.mem && c !in AllEntries(Outside(st.tables, Paths(inputs)))
  {
    hide Inputs, Sorted, WellFormed, ReadBefore;
    var rest := Outside(st.tables, Paths(inputs));
    TablesCoherent(st);
    InputsAreEntries(cfg.ucs, st.tables, inputs, level);
    var i :| i in st.tables && i.path in Paths(inputs) && b in i.entries;
    InAllEntries(st.tables, b);
    assert b in Held(st);
    if c in st.mem {
      NewerIsShared(st, st.mem, i.entries, b, c);
    }
    InOutside(st.tables, Paths(inputs));
    InAllEntries(rest, c);
    InAllEntries(rest, b);
    InAllEntries(st.tables, c);
    if t :| t in rest && c in t.entries {
      BelowTop(cfg, st, inputs, level, i, t);
      NewerIsShared(st, t.entries, i.entries, b, c);
    }
  }

  /** The newest version, when an earlier source has some version of its document, is in that source too. */
  lemma NewerIsShared(st: State, earlier: seq<Blob>, later: seq<Blob>, b: Blob, c: Blob)
    requires Coherent(Held(st)) && b in Held(st) && c in Held(st) && IsNewest(b, Held(st))
    requires ReadBefore(earlier, later) && b in later && c in earlier && b.id == c.id
    ensures b in earlier
  {
    if c.version == b.version {
      assert c == b;
    }
  }

  /** A table that shares a document with a top-level input, and is not one, is read before it. */
  lemma BelowTop(cfg: Config, st: State, inputs: seq<SstMeta>, level: nat, i: Table, t: Table)
    requires Inv(cfg, st) && Runnable(cfg, st, inputs, level, true)
    requires i in st.tables && i.path in Paths(inputs) && t in st.tables && t.path !in Paths(inputs)
    ensures ShareId(i.entries, t.entries) ==> ReadBefore(t.entries, i.entries)
  {
    hide Sorted, WellFormed, ReadBefore, ShareId;
    if ShareId(i.entries, t.entries) {
      assert TableLe(cfg.ucs)(t, i) && t != i;
    }
  }

  /** At an open snapshot a compaction keeps a read exactly when the version it showed is absent, is outside
      the inputs, is the newest of its document among them, or is not older than the oldest snapshot. */
  lemma CompactionSnapshotView(cfg: Config, st: State, inputs: seq<SstMeta>, level: nat, id: DocumentId, s: DocumentId)
    requires Inv(cfg, st) && Runnable(cfg, st, inputs, level, false) && RunOk(cfg, st, inputs, level, false)
    ensures var before := Find(st, id, s);
            Find(RunCompaction(cfg, st, inputs, false), id, s) == before <==>
              || before.None?
              || before.value in st.mem || before.value in AllEntries(Outside(st.tables, Paths(inputs)))
              || IsNewest(before.value, Inputs(st.tables, inputs))
              || (st.snapshots != {} && before.value.version >= OldestSnapshot(st.snapshots).value)
  {
    hide Inv, Runnable, RunOk, RunCompaction, FirstMatch, Visible, Compacted, Inputs;
    var after := RunCompaction(cfg, st, inputs, false);
    CompactionInv(cfg, st, inputs, level, false);
    LookupIsView(cfg, st, id, s);
    LookupIsView(cfg, after, id, s);
    HeldCoherent(cfg, after);
    var before := Visible(Held(st), id, s);
    if before.Some? {
      var b := before.value;
      CompactionHolds(cfg, st, inputs, level, false, b);
      InsideOrOutside(cfg, st, inputs, level, false, b);
      CompactedMembers(Inputs(st.tables, inputs), OldestSnapshot(st.snapshots), false, b);
      if b in Held(after) {
        VisibleUnique(Held(after), id, s, b);
      }
    }
  }
}
