/** The engine with a background thread (crates/ingodb-lsm/src/lib.rs:510-600, 912-1008): writers only queue full
    memtables, and a coordinator drains the queue and compacts, one job at a time. Its steps come between the writes
    in any order. */
module Background {
  import opened Prelude
  import opened Bytes
  import opened Blobs
  import opened Sorting
  import opened Views
  import opened Merging
  import opened Compaction
  import opened Tables
  import opened Lsm
  import opened Refinement
  import opened Recovery
  import opened Runs
  import opened Limits
  import opened Copies
  import opened Draining
  import opened Wal

  /** What holds between the steps, whatever is queued. */
  ghost predicate BackInv(cfg: Config, st: State) {
    && st.background && DrainInv(cfg, st)
    && KeyStrict(st.mem) && (forall m :: m in st.queued ==> KeyStrict(m))
    && BackIssued(st) && LogHeld(st)
  }

  /** All versions and snapshots in use came from the clock. */
  ghost predicate BackIssued(st: State) {
    && st.clock <= MAX_ID + 1
    && (forall b :: b in AllBlobs(st) ==> b.version < st.clock)
    && forall s :: s in st.snapshots ==> s < st.clock
  }

  ghost predicate InMemory(st: State, b: Blob) { b in st.mem || exists i :: 0 <= i < |st.queued| && b in st.queued[i] }

  /** What is logged is still in memory. */
  ghost predicate LogHeld(st: State) { forall b :: b in st.log ==> InMemory(st, b) }

  /** Whatever is queued, first match gives the global view, at every snapshot. */
  lemma BackLookupIsView(cfg: Config, st: State, id: DocumentId, s: DocumentId)
    requires DrainInv(cfg, st)
    ensures Find(st, id, s) == Visible(AllBlobs(st), id, s) && Coherent(AllBlobs(st))
  {
    hide Sources, FirstMatch, Visible, WellFormed, Sorted, Ordered, AllApart;
    FirstMatchIsVisible(Sources(st), id, s);
  }

  // ---- writes ----

  lemma WriteOneBlobs(cfg: Config, st: State, b: Blob, y: Blob)
    requires KeyStrict(st.mem) && BackIssued(st) && st.clock <= MAX_ID
    ensures y in AllBlobs(WriteOne(st, b)) <==> y == b.(version := st.clock) || y in AllBlobs(st)
  {
    hide KeyStrict, AllEntries, Sources;
    var x := b.(version := st.clock);
    MemInsertOne(st.mem, x);
    MemInsertMembers(st.mem, x, y);
    InAllBlobs(st, y);
    InAllBlobs(WriteOne(st, b), y);
    forall z | z in st.mem ensures z.version < st.clock { InAllBlobs(st, z); }
  }

  lemma WriteOneBack(cfg: Config, st: State, b: Blob)
    requires BackInv(cfg, st) && st.clock <= MAX_ID
    ensures BackInv(cfg, WriteOne(st, b))
  {
    hide DrainInv, AllBlobs, KeyStrict, MemInsertAll;
    var after, x := WriteOne(st, b), b.(version := st.clock);
    WriteDrains(cfg, st, b);
    MemInsertOne(st.mem, x);
    MemInsertStrict(st.mem, x);
    forall y ensures y in AllBlobs(after) <==> y == x || y in AllBlobs(st) { WriteOneBlobs(cfg, st, b, y); }
    WriteOneMem(st, b);
    forall y | y in after.log ensures InMemory(after, y) {
      assert y != x ==> InMemory(st, y);
    }
  }

  lemma WriteOneMem(st: State, b: Blob)
    requires KeyStrict(st.mem) && BackIssued(st) && st.clock <= MAX_ID
    ensures forall y :: y in WriteOne(st, b).mem <==> y == b.(version := st.clock) || y in st.mem
  {
    hide KeyStrict, AllBlobs;
    var x := b.(version := st.clock);
    MemInsertOne(st.mem, x);
    forall y ensures y in WriteOne(st, b).mem <==> y == x || y in st.mem {
      MemInsertMembers(st.mem, x, y);
      if y in st.mem { MemIsHeld(st, y); }
    }
  }

  lemma MemIsHeld(st: State, b: Blob)
    requires b in st.mem
    ensures b in AllBlobs(st)
  {
    InAllBlobs(st, b);
  }

  lemma WriteOneBackView(cfg: Config, st: State, b: Blob, id: DocumentId)
    requires BackInv(cfg, st) && st.clock <= MAX_ID
    ensures Find(WriteOne(st, b), id, MAX_ID) ==
            if id == b.id then Some(b.(version := st.clock)) else Find(st, id, MAX_ID)
  {
    hide DrainInv, AllBlobs, KeyStrict, WriteOne, Visible, Find, Coherent;
    var x, after := b.(version := st.clock), WriteOne(st, b);
    WriteOneBack(cfg, st, b);
    BackLookupIsView(cfg, st, id, MAX_ID);
    BackLookupIsView(cfg, after, id, MAX_ID);
    forall y ensures y in AllBlobs(after) <==> y == x || y in AllBlobs(st) { WriteOneBlobs(cfg, st, b, y); }
    if id == b.id {
      VisibleUnique(AllBlobs(after), id, MAX_ID, x);
    } else {
      OtherIds(AllBlobs(st), AllBlobs(after), id);
    }
  }

  lemma WriteOneBackAnswers(cfg: Config, st: State, b: Blob, m: Model)
    requires BackInv(cfg, st) && st.clock <= MAX_ID && Answers(st, m)
    ensures BackInv(cfg, WriteOne(st, b)) && Answers(WriteOne(st, b), Apply(m, b.(version := st.clock)))
  {
    hide BackInv, WriteOne, Find;
    var after, x := WriteOne(st, b), b.(version := st.clock);
    WriteOneBack(cfg, st, b);
    forall id ensures Get(after, id) == if id in Apply(m, x) then Some(Apply(m, x)[id]) else None {
      WriteOneBackView(cfg, st, b, id);
      assert Get(st, id) == if id in m then Some(m[id]) else None;
    }
  }

  lemma {:induction false} WriteManyBack(cfg: Config, st: State, bs: seq<Blob>, m: Model)
    requires BackInv(cfg, st) && st.clock + |bs| <= MAX_ID + 1 && Answers(st, m)
    ensures BackInv(cfg, WriteMany(st, bs)) && Answers(WriteMany(st, bs), ApplyAll(m, Stamp(bs, st.clock)))
    decreases bs
  {
    hide BackInv, Answers, WriteMany, WriteOne, Apply;
    if bs == [] {
      WriteManyNone(st);
    } else {
      var b := bs[0].(version := st.clock);
      WriteOneBackAnswers(cfg, st, bs[0], m);
      NextClock(st, bs[0]);
      WriteManyBack(cfg, WriteOne(st, bs[0]), bs[1..], Apply(m, b));
      WriteManyStep(st, bs);
      assert Stamp(bs, st.clock) == [b] + Stamp(bs[1..], st.clock + 1);
    }
  }

  /** A rotation only queues: no read changes. */
  lemma QueueBack(cfg: Config, st: State)
    requires BackInv(cfg, st)
    ensures BackInv(cfg, Rotate(cfg, st)) && SameViews(st, Rotate(cfg, st))
  {
    hide DrainInv, FirstMatch, Sources, KeyStrict;
    var after := Rotate(cfg, st);
    QueueUp(cfg, st);
    QueuedUpSources(st);
    EmptyStrict();
    assert Sources(after)[1..] == Sources(st);
    forall b | InMemory(st, b) ensures InMemory(after, b) {
      assert b in st.mem ==> b in after.queued[|st.queued|];
      if i :| 0 <= i < |st.queued| && b in st.queued[i] { assert b in after.queued[i]; }
    }
    forall id, s ensures Find(after, id, s) == Find(st, id, s) { SkipEmpty(Sources(st), id, s); }
  }

  lemma EmptyStrict()
    ensures KeyStrict([])
  {
  }

  lemma SkipEmpty(sources: seq<seq<Blob>>, id: DocumentId, s: DocumentId)
    ensures FirstMatch([[]] + sources, id, s) == FirstMatch(sources, id, s)
  {
    assert ([[]] + sources)[1..] == sources;
  }

  // ---- one memtable at a time in front of the tables ----

  /** The tables behind one of the memtables, as an engine without a background thread would hold them. */
  ghost function Alone(st: State, m: seq<Blob>): State {
    st.(mem := m, queued := [], torn := [], log := [], background := false)
  }

  /** Each memtable in front of the tables makes a good state. */
  lemma AloneInv(cfg: Config, st: State, m: seq<Blob>)
    requires BackInv(cfg, st) && (m == st.mem || m in st.queued || m == [])
    ensures Inv(cfg, Alone(st, m)) && StoredOnce(Alone(st, m))
    ensures forall b :: b in Held(Alone(st, m)) ==> b in AllBlobs(st)
  {
    hide WellFormed, Sorted, Ordered, ReadOrdered, AllApart, Sources, NoCopies, Newer, AllEntries, KeyStrict, Coherent;
    QueueFacts(cfg, st);
    EmptyStrict();
    EmptyApart();
    forall t | t in st.tables ensures ReadBefore(m, t.entries) && NoCopies(m, t.entries) {
      NewerBefore(m, t.entries);
      if m != st.mem && m != [] {
        var i :| 0 <= i < |st.queued| && st.queued[i] == m;
        assert Newer(st.queued[i], t.entries);
      }
    }
    forall t, v | t in st.tables && v in st.tables && t != v ensures NoCopies(t.entries, v.entries) {
      OldApart(cfg, st, t, v);
    }
    forall b | b in m + AllEntries(st.tables) ensures b in AllBlobs(st) { InAllBlobs(st, b); }
    CoherentPart(AllBlobs(st), m + AllEntries(st.tables));
  }

  lemma EmptyApart()
    ensures forall s: seq<Blob> :: Newer([], s) && NoCopies([], s)
  {
  }

  lemma NewerBefore(a: seq<Blob>, b: seq<Blob>)
    ensures Newer(a, b) ==> ReadBefore(a, b)
  {
  }

  lemma CoherentPart(all: seq<Blob>, part: seq<Blob>)
    requires Coherent(all) && forall b :: b in part ==> b in all
    ensures Coherent(part)
  {
  }

  /** Nothing newer, and no copy, of what the memtable holds is in a table. */
  ghost predicate BeforeTables(m: seq<Blob>, tables: seq<Table>) {
    forall t :: t in tables ==> ReadBefore(m, t.entries) && NoCopies(m, t.entries)
  }

  ghost predicate AllBeforeTables(st: State) {
    BeforeTables(st.mem, st.tables) && forall i :: 0 <= i < |st.queued| ==> BeforeTables(st.queued[i], st.tables)
  }

  /** And the other way round: memtables in order, each good in front of the tables, make a good state. */
  lemma TogetherInv(cfg: Config, st: State)
    requires Inv(cfg, Alone(st, [])) && StoredOnce(Alone(st, [])) && Coherent(AllBlobs(st))
    requires AllBeforeTables(st) && MemoryOrdered(st)
    ensures DrainInv(cfg, st)
  {
    hide WellFormed, Sorted, Ordered, NoCopies, ReadBefore, Coherent, KeyStrict, Sources, AllEntries, AllBeforeTables,
         MemoryOrdered;
    InvDrains(cfg, Alone(st, []));
    forall i, j | 0 <= i < j < |Sources(st)|
      ensures ReadBefore(Sources(st)[i], Sources(st)[j]) && NoCopies(Sources(st)[i], Sources(st)[j])
    {
      TogetherPair(st, i, j);
    }
    ByPairs(Sources(st));
  }

  lemma TogetherPair(st: State, i: nat, j: nat)
    requires ReadOrdered(Sources(Alone(st, []))) && AllApart(Sources(Alone(st, [])))
    requires AllBeforeTables(st) && MemoryOrdered(st) && i < j < |Sources(st)|
    ensures ReadBefore(Sources(st)[i], Sources(st)[j]) && NoCopies(Sources(st)[i], Sources(st)[j])
  {
    hide NoCopies, ReadBefore, Sources, Alone;
    var n := |st.queued|;
    SourcePlaces(st);
    if i > n {
      TableSource(st, i - n - 1);
      TableSource(st, j - n - 1);
      PairOf(Sources(Alone(st, [])), i - n, j - n);
    } else if j > n {
      TableSource(st, j - n - 1);
      assert st.tables[j - n - 1] in st.tables;
      if i > 0 {
        QueueSource(st, i);
        assert BeforeTables(st.queued[n - i], st.tables);
      }
    } else {
      QueueSource(st, j);
      if i > 0 {
        QueueSource(st, i);
      }
    }
  }

  lemma QueueSource(st: State, i: nat)
    requires 1 <= i <= |st.queued|
    ensures i < |Sources(st)| && Sources(st)[i] == st.queued[|st.queued| - i]
  {
    hide Sources;
    SourcePlaces(st);
    var k := |st.queued| - i;
    assert Sources(st)[|st.queued| - k] == st.queued[k];
  }

  lemma TableSource(st: State, k: nat)
    requires k < |st.tables|
    ensures |Sources(st)| == 1 + |st.queued| + |st.tables| && |Sources(Alone(st, []))| == 1 + |st.tables|
    ensures Sources(st)[1 + |st.queued| + k] == Sources(Alone(st, []))[1 + k] == st.tables[k].entries
  {
    SourcePlaces(st);
    SourceAt(Alone(st, []), k);
  }

  /** The memtables by themselves are in read order, the newest first. */
  ghost predicate MemoryOrdered(st: State) {
    && (forall i :: 0 <= i < |st.queued| ==> ReadBefore(st.mem, st.queued[i]) && NoCopies(st.mem, st.queued[i]))
    && forall i, j :: 0 <= i < j < |st.queued| ==>
         ReadBefore(st.queued[j], st.queued[i]) && NoCopies(st.queued[j], st.queued[i])
  }

  lemma DrainMemory(cfg: Config, st: State)
    requires DrainInv(cfg, st)
    ensures MemoryOrdered(st)
  {
    hide DrainInv, Newer, NoCopies, ReadBefore;
    QueueFacts(cfg, st);
    forall a: seq<Blob>, b: seq<Blob> ensures Newer(a, b) ==> ReadBefore(a, b) { NewerBefore(a, b); }
  }

  // ---- the coordinator ----

  /** One compaction acts on the tables alone. */
  lemma WorkAlone(cfg: Config, st: State, m: seq<Blob>)
    ensures MaybeCompact(cfg, Alone(st, m)) == Alone(MaybeCompact(cfg, st), m)
    ensures CompactOk(cfg, Alone(st, m)) <==> CompactOk(cfg, st)
    ensures var after := MaybeCompact(cfg, st);
            after == st.(tables := after.tables, nextPath := after.nextPath)
  {
    hide PickCompaction, Compacted, CompactTables, Inputs, OutputPlaced;
  }

  lemma WorkKeeps(cfg: Config, st: State)
    requires Inv(cfg, st) && StoredOnce(st) && CompactOk(cfg, st)
    ensures Inv(cfg, MaybeCompact(cfg, st)) && StoredOnce(MaybeCompact(cfg, st))
    ensures forall b :: b in Held(MaybeCompact(cfg, st)) ==> b in Held(st)
  {
    hide Inv, StoredOnce, RunCompaction, PickCompaction, RunOk, Purges;
    match PickCompaction(cfg.ucs, Metas(st.tables))
    case None =>
    case Some(pick) =>
      var purge := Purges(pick.outputLevel, pick.maxLevel, OldestSnapshot(st.snapshots));
      PickIsRunnable(cfg, st);
      CompactionInv(cfg, st, pick.inputs, pick.outputLevel - 1, purge);
      CompactionStoredOnce(cfg, st, pick.inputs, pick.outputLevel - 1, purge);
  }

  lemma WorkAloneKeeps(cfg: Config, st: State, m: seq<Blob>)
    requires BackInv(cfg, st) && CompactOk(cfg, st) && (m == st.mem || m in st.queued || m == [])
    ensures var after := MaybeCompact(cfg, st);
            && Inv(cfg, Alone(after, m)) && StoredOnce(Alone(after, m))
            && forall b :: b in Held(Alone(after, m)) ==> b in AllBlobs(st)
  {
    hide BackInv, Inv, StoredOnce, MaybeCompact, Alone, CompactOk, Held, AllBlobs;
    AloneInv(cfg, st, m);
    WorkAlone(cfg, st, m);
    WorkKeeps(cfg, Alone(st, m));
  }

  /** A well-placed compaction under a queue of any length keeps the state good. */
  lemma WorkBack(cfg: Config, st: State)
    requires BackInv(cfg, st) && CompactOk(cfg, st)
    ensures BackInv(cfg, MaybeCompact(cfg, st))
  {
    hide DrainInv, MaybeCompact, CompactOk, Inv, StoredOnce, AllBlobs, MemoryOrdered, KeyStrict, Held, BeforeTables;
    var after := MaybeCompact(cfg, st);
    WorkAlone(cfg, st, []);
    forall b | b in AllBlobs(after) ensures b in AllBlobs(st) { WorkHolds(cfg, st, b); }
    DrainParts(cfg, st);
    CoherentPart(AllBlobs(st), AllBlobs(after));
    WorkAloneKeeps(cfg, st, []);
    WorkBefore(cfg, st, st.mem);
    forall i | 0 <= i < |st.queued| ensures BeforeTables(st.queued[i], after.tables) {
      assert st.queued[i] in st.queued;
      WorkBefore(cfg, st, st.queued[i]);
    }
    DrainMemory(cfg, st);
    SameMemory(st, after);
    TogetherInv(cfg, after);
  }

  lemma SameMemory(st: State, after: State)
    requires after == st.(tables := after.tables, nextPath := after.nextPath)
    ensures MemoryOrdered(after) <==> MemoryOrdered(st)
    ensures LogHeld(after) <==> LogHeld(st)
  {
    hide NoCopies, ReadBefore;
    assert forall b :: InMemory(after, b) <==> InMemory(st, b);
  }

  lemma WorkBefore(cfg: Config, st: State, m: seq<Blob>)
    requires BackInv(cfg, st) && CompactOk(cfg, st) && (m == st.mem || m in st.queued)
    ensures BeforeTables(m, MaybeCompact(cfg, st).tables)
  {
    hide BackInv, CompactOk, MaybeCompact, WellFormed, Sorted, Ordered, NoCopies, ReadBefore, Coherent, AllBlobs;
    WorkAloneKeeps(cfg, st, m);
  }

  lemma WorkHolds(cfg: Config, st: State, b: Blob)
    requires BackInv(cfg, st) && CompactOk(cfg, st) && b in AllBlobs(MaybeCompact(cfg, st))
    ensures b in AllBlobs(st)
  {
    hide BackInv, CompactOk, Inv, StoredOnce, AllBlobs, MaybeCompact, AllEntries;
    var after := MaybeCompact(cfg, st);
    WorkAlone(cfg, st, []);
    InAllBlobs(after, b);
    InAllBlobs(st, b);
    if b in AllEntries(after.tables) {
      WorkAloneKeeps(cfg, st, []);
      assert b in Held(Alone(after, []));
    }
  }

  /** And it changes no latest read. */
  lemma WorkGet(cfg: Config, st: State, id: DocumentId)
    requires BackInv(cfg, st) && CompactOk(cfg, st)
    ensures Get(MaybeCompact(cfg, st), id) == Get(st, id)
  {
    hide BackInv, CompactOk, Inv, StoredOnce, MaybeCompact, FirstMatch, Sources;
    var after := MaybeCompact(cfg, st);
    WorkAlone(cfg, st, []);
    AloneInv(cfg, st, []);
    MaybeCompactKeeps(cfg, Alone(st, []), id);
    FindSplit(st, id, MAX_ID);
    FindSplit(after, id, MAX_ID);
  }

  /** A read stops in memory or goes on to the tables. */
  lemma FindSplit(st: State, id: DocumentId, s: DocumentId)
    ensures var here := FirstMatch([st.mem] + Reverse(st.queued), id, s);
            Find(st, id, s) == if here.Some? then here else Find(Alone(st, []), id, s)
  {
    hide Visible;
    FirstMatchAppend([st.mem] + Reverse(st.queued), EntriesOf(st.tables), id, s);
    assert Sources(Alone(st, [])) == [[]] + EntriesOf(st.tables);
    SkipEmpty(EntriesOf(st.tables), id, s);
  }

  /** Draining a placed queue keeps every read and leaves a good state with nothing queued. */
  lemma DrainBack(cfg: Config, st: State)
    requires BackInv(cfg, st) && QueuePlaced(cfg, st)
    ensures var after := FlushQueued(cfg, st);
            && BackInv(cfg, after) && SameViews(st, after)
            && after.queued == [] && after.mem == st.mem && after.torn == (if Full(st.queued) == 0 then st.torn else [])
            && after.log == (if Full(st.queued) == 0 then st.log else [])
  {
    hide DrainInv, FlushQueued, QueuePlaced, Full, DrainedTables, Inv, StoredOnce, KeyStrict, AllBlobs, Find;
    var after := FlushQueued(cfg, st);
    DrainIs(cfg, st);
    DrainKeepsReadsIff(cfg, st);
    DrainedAlone(cfg, st);
    InvDrains(cfg, Alone(after, after.mem));
    NothingQueued(cfg, after);
    forall b | b in AllBlobs(after) ensures b in AllBlobs(st) { DrainedBlobs(cfg, st, b); }
    if Full(st.queued) == 0 {
      forall b | b in after.log ensures InMemory(after, b) { NoneFull(st, b); }
    }
  }

  lemma NoneFull(st: State, b: Blob)
    requires Full(st.queued) == 0 && InMemory(st, b)
    ensures b in st.mem
  {
    if i :| 0 <= i < |st.queued| && b in st.queued[i] {
      OneFull(st.queued, i);
    }
  }

  lemma {:induction false} OneFull(qs: seq<seq<Blob>>, i: nat)
    requires i < |qs| && qs[i] != []
    ensures Full(qs) > Full(qs[i + 1..])
  {
    if i > 0 {
      OneFull(qs[1..], i - 1);
      assert qs[1..][i..] == qs[i + 1..];
    }
  }

  lemma DrainedBlobs(cfg: Config, st: State, b: Blob)
    requires DrainInv(cfg, st) && st.background
    ensures b in AllBlobs(FlushQueued(cfg, st)) <==> b in AllBlobs(st)
  {
    hide DrainInv, FlushQueued, DrainedTables, IsQueued, Full, AllBlobs, Held, Sources;
    var after := FlushQueued(cfg, st);
    DrainIs(cfg, st);
    forall t ensures t in after.tables <==> t in st.tables || IsQueued(cfg, st.nextPath, st.queued, t) {
      DrainedMembers(cfg, st.nextPath, st.queued, st.tables, t);
    }
    DrainHolds(cfg, st, after);
    SourcesHold(after);
  }

  /** The drained tables behind the memtable. */
  lemma DrainedAlone(cfg: Config, st: State)
    requires BackInv(cfg, st) && QueuePlaced(cfg, st)
    ensures var after := FlushQueued(cfg, st);
            Inv(cfg, Alone(after, after.mem)) && StoredOnce(Alone(after, after.mem))
  {
    hide DrainInv, FlushQueued, QueuePlaced, Full, DrainedTables, IsQueued, KeyStrict, AllBlobs, WellFormed, Sorted,
         Ordered, Coherent, Newer, NoCopies, ReadBefore, AllEntries;
    var after := FlushQueued(cfg, st);
    DrainIs(cfg, st);
    DrainParts(cfg, st);
    forall t ensures t in after.tables <==> t in st.tables || IsQueued(cfg, st.nextPath, st.queued, t) {
      DrainedMembers(cfg, st.nextPath, st.queued, st.tables, t);
    }
    DrainedWellFormed(cfg, st.nextPath, st.queued, st.tables);
    DrainedOrderedIff(cfg, st);
    DrainedApart(cfg, st, after.tables);
    forall t | t in after.tables ensures t.path < after.nextPath && ReadBefore(after.mem, t.entries) {
      DrainedPath(cfg, st, t);
      NewerBefore(st.mem, t.entries);
    }
    SourcesHold(after);
    forall b ensures b in Held(after) <==> b in AllBlobs(st) { DrainedBlobs(cfg, st, b); }
    CoherentPart(AllBlobs(st), Held(after));
  }

  lemma DrainedPath(cfg: Config, st: State, t: Table)
    requires DrainInv(cfg, st) && (t in st.tables || IsQueued(cfg, st.nextPath, st.queued, t))
    ensures t.path < st.nextPath + Full(st.queued)
  {
    hide DrainInv, Full, QueuedTable;
    DrainParts(cfg, st);
    if t !in st.tables {
      var i := WhichQueued(cfg, st.nextPath, st.queued, t);
      OneFull(st.queued, i);
      QueuedPath(cfg, st.nextPath, st.queued, i);
    }
  }

  lemma QueuedPath(cfg: Config, path: nat, queued: seq<seq<Blob>>, i: nat)
    requires i < |queued|
    ensures QueuedTable(cfg, path, queued, i).path == path + Full(queued[i + 1..])
  {
  }

  lemma NothingQueued(cfg: Config, st: State)
    requires st.queued == [] && DrainInv(cfg, Alone(st, st.mem))
    ensures DrainInv(cfg, st)
  {
  }

  // ---- all runs ----

  /** What happens once the thread runs: operations of users, a drain, and one compaction if there is one to run. */
  datatype Event = Do(op: Op) | Drain | Work

  ghost function EventStep(cfg: Config, st: State, e: Event): State
    requires e.Do? ==> st.clock + Ticks(e.op) <= MAX_ID + 1
  {
    match e
    case Do(op) => Step(cfg, st, op)
    case Drain => FlushQueued(cfg, st)
    case Work => MaybeCompact(cfg, st)
  }

  /** Placement is asked of drains and compactions only; the users' operations just need the clock. */
  ghost predicate EventOk(cfg: Config, st: State, e: Event) {
    match e
    case Do(op) => st.clock + Ticks(op) <= MAX_ID + 1 && !op.Reopen?
    case Drain => QueuePlaced(cfg, st)
    case Work => CompactOk(cfg, st)
  }

  ghost function EventModel(m: Model, st: State, e: Event): Model
    requires e.Do? ==> st.clock + Ticks(e.op) <= MAX_ID + 1
  {
    if e.Do? then StepModel(m, st, e.op) else m
  }

  lemma SameAnswers(st: State, after: State, m: Model)
    requires Answers(st, m) && SameViews(st, after)
    ensures Answers(after, m)
  {
    hide Find;
    forall id ensures Get(after, id) == Get(st, id) { assert Find(after, id, MAX_ID) == Find(st, id, MAX_ID); }
  }

  lemma BackWriteAnswers(cfg: Config, st: State, m: Model, op: Op)
    requires BackInv(cfg, st) && Answers(st, m) && st.clock + Ticks(op) <= MAX_ID + 1 && (op.PutBatch? || op.Delete?)
    ensures BackInv(cfg, Write(cfg, st, Batch(op))) && Answers(Write(cfg, st, Batch(op)), StepModel(m, st, op))
  {
    hide BackInv, Answers, Rotate, SameViews;
    if Batch(op) != [] {
      WriteManyBack(cfg, st, Batch(op), m);
      if Rotates(cfg, st, op) {
        QueueBack(cfg, WriteMany(st, Batch(op)));
        SameAnswers(WriteMany(st, Batch(op)), Rotate(cfg, WriteMany(st, Batch(op))), StepModel(m, st, op));
      }
    }
  }

  lemma BackSnapshot(cfg: Config, st: State, after: State)
    requires BackInv(cfg, st) && after == st.(snapshots := after.snapshots, clock := after.clock)
    requires st.clock <= after.clock <= MAX_ID + 1
    requires forall s :: s in after.snapshots ==> s in st.snapshots || s < after.clock
    ensures BackInv(cfg, after) && SameViews(st, after)
  {
    hide WellFormed, Sorted, Ordered, ReadOrdered, AllApart, Coherent, KeyStrict;
    assert Sources(after) == Sources(st);
    assert forall b :: InMemory(after, b) <==> InMemory(st, b);
  }

  lemma DoAnswers(cfg: Config, st: State, m: Model, op: Op)
    requires BackInv(cfg, st) && Answers(st, m) && EventOk(cfg, st, Do(op))
    ensures BackInv(cfg, Step(cfg, st, op)) && Answers(Step(cfg, st, op), StepModel(m, st, op))
  {
    hide BackInv, Answers, Rotate, WriteMany, SameViews;
    match op
    case PutBatch(bs) => BackWriteAnswers(cfg, st, m, op);
    case Delete(id) => BackWriteAnswers(cfg, st, m, op);
    case Flush => QueueBack(cfg, st); SameAnswers(st, Rotate(cfg, st), m);
    case Snapshot => BackSnapshot(cfg, st, OpenSnapshot(st)); SameAnswers(st, OpenSnapshot(st), m);
    case Close(s) =>
      BackClock(cfg, st);
      BackSnapshot(cfg, st, CloseSnapshot(st, s));
      SameAnswers(st, CloseSnapshot(st, s), m);
  }

  lemma BackClock(cfg: Config, st: State)
    requires BackInv(cfg, st)
    ensures st.clock <= MAX_ID + 1
  {
  }

  /** Every step, of users or of the coordinator, keeps the invariant and the agreement with the map. */
  lemma EventAnswers(cfg: Config, st: State, m: Model, e: Event)
    requires BackInv(cfg, st) && Answers(st, m) && EventOk(cfg, st, e)
    ensures BackInv(cfg, EventStep(cfg, st, e)) && Answers(EventStep(cfg, st, e), EventModel(m, st, e))
  {
    hide BackInv, Get, CompactOk, QueuePlaced, MaybeCompact, FlushQueued, SameViews, Step;
    match e
    case Do(op) => DoAnswers(cfg, st, m, op);
    case Drain => DrainBack(cfg, st); SameAnswers(st, FlushQueued(cfg, st), m);
    case Work =>
      WorkBack(cfg, st);
      forall id ensures Get(MaybeCompact(cfg, st), id) == Get(st, id) { WorkGet(cfg, st, id); }
  }

  ghost predicate EventsPlaced(cfg: Config, st: State, es: seq<Event>)
    decreases es
  {
    es == [] || (EventOk(cfg, st, es[0]) && EventsPlaced(cfg, EventStep(cfg, st, es[0]), es[1..]))
  }

  ghost function RunEvents(cfg: Config, st: State, es: seq<Event>): State
    requires EventsPlaced(cfg, st, es)
    decreases es
  {
    if es == [] then st else RunEvents(cfg, EventStep(cfg, st, es[0]), es[1..])
  }

  ghost function EventsModel(cfg: Config, st: State, m: Model, es: seq<Event>): Model
    requires EventsPlaced(cfg, st, es)
    decreases es
  {
    if es == [] then m else EventsModel(cfg, EventStep(cfg, st, es[0]), EventModel(m, st, es[0]), es[1..])
  }

  lemma {:induction false} EventsAnswer(cfg: Config, st: State, m: Model, es: seq<Event>)
    requires BackInv(cfg, st) && Answers(st, m) && EventsPlaced(cfg, st, es)
    ensures BackInv(cfg, RunEvents(cfg, st, es)) && Answers(RunEvents(cfg, st, es), EventsModel(cfg, st, m, es))
    decreases es
  {
    hide BackInv, Answers, EventStep, EventModel, EventOk;
    if es != [] {
      EventClock(cfg, st, es[0]);
      EventAnswers(cfg, st, m, es[0]);
      EventsAnswer(cfg, EventStep(cfg, st, es[0]), EventModel(m, st, es[0]), es[1..]);
    }
  }

  lemma EventClock(cfg: Config, st: State, e: Event)
    requires EventOk(cfg, st, e)
    ensures e.Do? ==> st.clock + Ticks(e.op) <= MAX_ID + 1
  {
  }

  lemma StartBack(cfg: Config, st: State)
    requires Inv(cfg, st) && StoredOnce(st)
    ensures BackInv(cfg, StartBackground(st)) && SameViews(st, StartBackground(st))
  {
    hide WellFormed, Sorted, Ordered, ReadOrdered, AllApart, Coherent, KeyStrict, FirstMatch;
    InvDrains(cfg, st);
    SourcesHold(st);
    assert Sources(StartBackground(st)) == Sources(st);
  }

  /** The states of an engine that ran these operations, started its thread, and went through these events. */
  ghost function Reached(cfg: Config, ops: seq<Op>, es: seq<Event>): State
    requires RunPlaced(cfg, EMPTY, ops) && EventsPlaced(cfg, StartBackground(Run(cfg, EMPTY, ops)), es)
  {
    RunEvents(cfg, StartBackground(Run(cfg, EMPTY, ops)), es)
  }

  /** The store with a background thread is a map: however writes, drains and compactions follow each other, each id
      reads back the last document written for it, and nothing if it was never written or last deleted. */
  lemma BackgroundStoreIsMap(cfg: Config, ops: seq<Op>, es: seq<Event>, id: DocumentId)
    requires RunPlaced(cfg, EMPTY, ops) && EventsPlaced(cfg, StartBackground(Run(cfg, EMPTY, ops)), es)
    ensures BackInv(cfg, Reached(cfg, ops, es))
    ensures var m := EventsModel(cfg, StartBackground(Run(cfg, EMPTY, ops)), RunModel(cfg, EMPTY, map[], ops), es);
            Get(Reached(cfg, ops, es), id) == if id in m then Some(m[id]) else None
  {
    hide BackInv, Inv, StoredOnce, Run, RunModel, RunEvents, EventsModel, EventsPlaced, SameViews, Get;
    var st, m := Run(cfg, EMPTY, ops), RunModel(cfg, EMPTY, map[], ops);
    EmptyAnswers(cfg);
    RunAnswers(cfg, EMPTY, map[], ops);
    ReachableFacts(cfg, ops);
    StartBack(cfg, st);
    SameAnswers(st, StartBackground(st), m);
    EventsAnswer(cfg, StartBackground(st), m, es);
  }

  /** In every such state a drain keeps every read at every snapshot exactly when the queue is placed. */
  lemma ReachableDrainIff(cfg: Config, ops: seq<Op>, es: seq<Event>)
    requires RunPlaced(cfg, EMPTY, ops) && EventsPlaced(cfg, StartBackground(Run(cfg, EMPTY, ops)), es)
    ensures var st := Reached(cfg, ops, es); SameViews(st, FlushQueued(cfg, st)) <==> QueuePlaced(cfg, st)
  {
    hide DrainInv, Reached, Run, EventsPlaced, SameViews, FlushQueued, QueuePlaced, Get, EventsModel, RunModel;
    BackgroundStoreIsMap(cfg, ops, es, 0);
    DrainKeepsReadsIff(cfg, Reached(cfg, ops, es));
  }

  // ---- crashes ----

  /** A restart of such an engine keeps every read exactly when everything in memory is logged. */
  lemma BackRestartIff(cfg: Config, st: State)
    requires BackInv(cfg, st) && CleanLog(cfg, st)
    ensures SameViews(st, Restart(cfg, st)) <==> forall b :: InMemory(st, b) ==> b in st.log
  {
    hide BackInv, Restart, Find, Visible, AllBlobs, Held, InMemory;
    var after := Restart(cfg, st);
    BackRestartHolds(cfg, st);
    forall id, s
      ensures Find(st, id, s) == Visible(AllBlobs(st), id, s) && Find(after, id, s) == Visible(Held(after), id, s)
    {
      BackFind(cfg, st, id, s);
      LookupIsView(cfg, after, id, s);
    }
    HeldCoherent(cfg, after);
    if forall b :: InMemory(st, b) ==> b in st.log {
      forall id, s ensures Find(after, id, s) == Find(st, id, s) {
        SameEntriesSameView(Held(after), AllBlobs(st), id, s);
      }
    }
    if SameViews(st, after) {
      forall b | InMemory(st, b) ensures b in st.log {
        BackFind(cfg, st, b.id, b.version);
        VisibleUnique(AllBlobs(st), b.id, b.version, b);
        assert Find(after, b.id, b.version) == Find(st, b.id, b.version);
      }
    }
  }

  lemma BackFind(cfg: Config, st: State, id: DocumentId, s: DocumentId)
    requires BackInv(cfg, st)
    ensures Find(st, id, s) == Visible(AllBlobs(st), id, s) && Coherent(AllBlobs(st))
  {
    hide DrainInv;
    BackLookupIsView(cfg, st, id, s);
  }

  /** What a restart brings back: the log and the tables; what is in memory is in no table. */
  lemma BackRestartHolds(cfg: Config, st: State)
    requires BackInv(cfg, st) && CleanLog(cfg, st)
    ensures Inv(cfg, Restart(cfg, st))
    ensures forall b :: b in Held(Restart(cfg, st)) <==> b in st.log || b in AllEntries(st.tables)
    ensures forall b :: b in AllBlobs(st) <==> InMemory(st, b) || b in AllEntries(st.tables)
    ensures forall b :: InMemory(st, b) ==> b !in AllEntries(st.tables)
    ensures forall b :: b in st.log ==> InMemory(st, b)
  {
    hide DrainInv, KeyStrict, AllBlobs, AllEntries, RecoverFrom, Openable, Inv, Newer, NoCopies, LogFile;
    CleanRecovers(cfg, st);
    BackOpenable(cfg, st);
    OpenInv(cfg, st.log, if st.log == [] then LogFile(cfg.env, st) else [], st.tables, st.clock);
    forall b ensures b in AllBlobs(st) <==> InMemory(st, b) || b in AllEntries(st.tables) { InAllBlobs(st, b); }
    forall b | InMemory(st, b) ensures b !in AllEntries(st.tables) { MemoryApart(cfg, st, b); }
  }

  lemma MemoryApart(cfg: Config, st: State, b: Blob)
    requires DrainInv(cfg, st) && InMemory(st, b)
    ensures b !in AllEntries(st.tables)
    ensures forall t :: t in st.tables ==> Newer([b], t.entries)
  {
    hide DrainInv, NoCopies;
    QueueFacts(cfg, st);
    InAllEntries(st.tables, b);
    var m := if b in st.mem then st.mem else
      var i :| 0 <= i < |st.queued| && b in st.queued[i];
      st.queued[i];
    forall t | t in st.tables ensures b !in t.entries && Newer([b], t.entries) {
      assert Newer(m, t.entries) && NoCopies(m, t.entries);
      NotInBoth(m, t.entries, b);
    }
  }

  lemma BackOpenable(cfg: Config, st: State)
    requires BackInv(cfg, st)
    ensures Openable(cfg, st.log, st.tables, st.clock)
  {
    hide DrainInv, WellFormed, Ordered, AllBlobs, Coherent, KeyStrict, AllEntries;
    DrainPartsOrdered(cfg, st);
    forall t | t in st.tables ensures ReadBefore(st.log, t.entries) {
      forall x, y | x in st.log && y in t.entries && x.id == y.id ensures y.version < x.version {
        MemoryApart(cfg, st, x);
        assert Newer([x], t.entries) && x in [x];
      }
      NewerBefore(st.log, t.entries);
    }
    forall b | b in st.log + AllEntries(st.tables) ensures b in AllBlobs(st) { InAllBlobs(st, b); }
    CoherentPart(AllBlobs(st), st.log + AllEntries(st.tables));
  }

  lemma DrainPartsOrdered(cfg: Config, st: State)
    requires DrainInv(cfg, st)
    ensures WellFormed(st.tables) && Ordered(cfg.ucs, st.tables) && Coherent(AllBlobs(st))
  {
  }

  /** A drain that writes a table empties the log, which also held the records of the active memtable: a restart after
      it keeps every read exactly when that memtable is empty. */
  lemma DrainForgets(cfg: Config, st: State)
    requires BackInv(cfg, st) && QueuePlaced(cfg, st) && Full(st.queued) > 0
    ensures var after := FlushQueued(cfg, st);
            SameViews(st, Restart(cfg, after)) <==> st.mem == []
  {
    hide BackInv, QueuePlaced, Full, FlushQueued, Restart, Find, RecoverFrom;
    var after := FlushQueued(cfg, st);
    DrainBack(cfg, st);
    BackRestartIff(cfg, after);
    assert st.mem != [] ==> InMemory(after, st.mem[0]);
    assert SameViews(after, Restart(cfg, after)) <==> SameViews(st, Restart(cfg, after));
  }
}
