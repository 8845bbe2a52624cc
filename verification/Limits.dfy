/** Where the promises stop: the exact conditions under which a flush or a compaction keeps first-match
    reads right, and runs in which the program breaks them. */
module Limits {
  import opened Prelude
  import opened Bytes
  import opened Values
  import opened Blobs
  import opened Sorting
  import opened Views
  import opened Merging
  import opened Compaction
  import opened Tables
  import opened Lsm
  import opened Refinement
  import opened Codec

  /** No blob is stored in two places; module Copies shows it of every run. */
  ghost predicate StoredOnce(st: State) {
    && (forall t :: t in st.tables ==> NoCopies(st.mem, t.entries))
    && forall t, v :: t in st.tables && v in st.tables && t != v ==> NoCopies(t.entries, v.entries)
  }

  lemma TablePosition(u: Ucs, tables: seq<Table>, t: Table, v: Table) returns (i: nat, j: nat)
    requires Sorted(tables, TableLe(u)) && t in tables && v in tables && t != v
    requires TableLe(u)(t, v) && !TableLe(u)(v, t)
    ensures i < j < |tables| && tables[i] == t && tables[j] == v
  {
    i :| 0 <= i < |tables| && tables[i] == t;
    j :| 0 <= j < |tables| && tables[j] == v;
    if j < i {
      assert false;
    }
  }

  /** A source with an older version before every source that holds a newer one: some read is wrong. */
  lemma InvertedSources(sources: seq<seq<Blob>>, i: nat, j: nat, older: Blob, newer: Blob)
    requires Coherent(Flatten(sources)) && i < j < |sources|
    requires older in sources[i] && newer in sources[j] && older.id == newer.id && older.version < newer.version
    requires forall k :: 0 <= k <= i ==> newer !in sources[k]
    ensures !ReadsExact(sources)
  {
    hide Coherent;
    if ReadsExact(sources) {
      WeakOrderNeeded(sources, i, j, newer, older);
    }
  }

  /** A table with an older version read before the only place that holds a newer one. */
  lemma InvertedReadsWrong(u: Ucs, st: State, t: Table, v: Table, older: Blob, newer: Blob)
    requires st.queued == [] && newer !in st.mem && Sorted(st.tables, TableLe(u)) && Coherent(Held(st))
    requires t in st.tables && v in st.tables && t != v && TableLe(u)(t, v) && !TableLe(u)(v, t)
    requires older in t.entries && newer in v.entries && older.id == newer.id && older.version < newer.version
    requires forall x :: x in st.tables && newer in x.entries ==> x == v
    ensures !ReadsExact(Sources(st))
  {
    hide Coherent, ReadsExact, Sources, AllEntries, TableLe, Sorted;
    SourcesHold(st);
    var i, j := TablePosition(u, st.tables, t, v);
    forall k | 0 <= k <= i + 1 ensures newer !in Sources(st)[k] {
      SourceAt(st, if k == 0 then 0 else k - 1);
      if k > 0 {
        NotAfter(u, st.tables, t, v, i, k - 1);
      }
    }
    SourceAt(st, i);
    SourceAt(st, j);
    InvertedSources(Sources(st), i + 1, j + 1, older, newer);
  }

  lemma SourceAt(st: State, k: nat)
    requires st.queued == [] && k < |st.tables|
    ensures |Sources(st)| == 1 + |st.tables| && Sources(st)[0] == st.mem && Sources(st)[k + 1] == st.tables[k].entries
  {
    SourcesHold(st);
  }

  lemma NotAfter(u: Ucs, tables: seq<Table>, t: Table, v: Table, i: nat, k: nat)
    requires Sorted(tables, TableLe(u)) && k <= i < |tables| && tables[i] == t && t != v && !TableLe(u)(v, t)
    ensures tables[k] != v
  {
    if k < i {
      assert TableLe(u)(tables[k], tables[i]);
    }
  }

  lemma ExactReads(cfg: Config, st: State)
    requires Inv(cfg, st)
    ensures ReadsExact(Sources(st))
  {
    hide Inv, FirstMatch, Visible;
    SourcesHeld(cfg, st);
    forall id, s ensures FirstMatch(Sources(st), id, s) == Visible(Flatten(Sources(st)), id, s) {
      LookupIsView(cfg, st, id, s);
      FindIs(st, id, s);
    }
  }

  lemma FindIs(st: State, id: DocumentId, s: DocumentId)
    ensures Find(st, id, s) == FirstMatch(Sources(st), id, s)
  {
  }

  lemma SourcesHeld(cfg: Config, st: State)
    requires Inv(cfg, st)
    ensures Flatten(Sources(st)) == Held(st)
  {
    SourcesHold(st);
  }

  /** The newer of two blobs of one document, by which side may be read before the other. */
  lemma WhichIsNewer(earlier: seq<Blob>, later: seq<Blob>, x: Blob, y: Blob, all: seq<Blob>)
    requires ReadBefore(earlier, later) && NoCopies(earlier, later) && Coherent(all) && x in all && y in all
    requires x in earlier && y in later && x.id == y.id
    ensures y.version < x.version
  {
  }

  /** A flush leaves every read at every version right exactly when the new table is placed no higher than
      the tables it shares a document with. */
  lemma FlushReadsExactIff(cfg: Config, st: State)
    requires Inv(cfg, st) && st.mem != [] && StoredOnce(st)
    ensures ReadsExact(Sources(Flushed(cfg, st))) <==> FlushOk(cfg, st)
  {
    hide ReadsExact, Inv, FlushOk, StoredOnce;
    if FlushOk(cfg, st) {
      FlushInv(cfg, st);
      ExactReads(cfg, Flushed(cfg, st));
    } else {
      MisplacedFlush(cfg, st);
    }
  }

  /** A flushed table placed too high, a table it shares a document with, and the versions they share. */
  lemma MisplacedTable(cfg: Config, st: State) returns (t: Table, x: Blob, y: Blob)
    requires Inv(cfg, st) && st.mem != [] && !FlushOk(cfg, st)
    ensures var after, v := Flushed(cfg, st), FlushedTable(cfg, st.nextPath, st.mem);
            && after.mem == [] && after.queued == [] && Sorted(after.tables, TableLe(cfg.ucs))
            && t in st.tables && t in after.tables && v in after.tables && t != v
            && TableLe(cfg.ucs)(t, v) && !TableLe(cfg.ucs)(v, t)
            && x in st.mem && x in v.entries && y in t.entries && x.id == y.id
  {
    hide Coherent, WellFormed, Sorted, Ordered, Held, ReadBefore, Sources, KeyStrict, Level;
    var u, v := cfg.ucs, FlushedTable(cfg, st.nextPath, st.mem);
    FlushedTableSame(cfg, st);
    SortTablesSame(u, [v] + st.tables);
    t :| t in st.tables && ShareId(v.entries, t.entries) && Level(u, t) < Level(u, v);
    x, y :| x in v.entries && y in t.entries && x.id == y.id;
  }

  lemma MisplacedFlush(cfg: Config, st: State)
    requires Inv(cfg, st) && st.mem != [] && StoredOnce(st) && !FlushOk(cfg, st)
    ensures !ReadsExact(Sources(Flushed(cfg, st)))
  {
    hide ReadsExact, Inv, Coherent, Sorted, TableLe, Held, Sources, StoredOnce, FlushedTable, FlushOk;
    var t, x, y := MisplacedTable(cfg, st);
    HeldSame(cfg, st, Flushed(cfg, st));
    FreshIsNewer(cfg, st, t, x, y);
    OnlyInFlushed(cfg, st, x);
    InvertedReadsWrong(cfg.ucs, Flushed(cfg, st), t, FlushedTable(cfg, st.nextPath, st.mem), y, x);
  }

  /** A blob of the memtable is in no table but the flushed one. */
  lemma OnlyInFlushed(cfg: Config, st: State, x: Blob)
    requires Inv(cfg, st) && st.mem != [] && StoredOnce(st) && x in st.mem
    ensures forall z :: z in Flushed(cfg, st).tables && x in z.entries ==> z == FlushedTable(cfg, st.nextPath, st.mem)
  {
    hide Inv, NoCopies, Level;
    var v := FlushedTable(cfg, st.nextPath, st.mem);
    SortTablesSame(cfg.ucs, [v] + st.tables);
    forall z | z in Flushed(cfg, st).tables && x in z.entries ensures z == v {
      if z in st.tables {
        NotInBoth(st.mem, z.entries, x);
      }
    }
  }

  lemma NotInBoth(a: seq<Blob>, b: seq<Blob>, x: Blob)
    requires x in a && NoCopies(a, b)
    ensures x !in b
  {
  }

  lemma FreshIsNewer(cfg: Config, st: State, t: Table, x: Blob, y: Blob)
    requires Inv(cfg, st) && StoredOnce(st) && t in st.tables && x in st.mem && y in t.entries && x.id == y.id
    ensures y.version < x.version
  {
    hide Coherent, WellFormed, Sorted, Ordered;
    InAllEntries(st.tables, y);
    assert x in Held(st) && y in Held(st);
    WhichIsNewer(st.mem, t.entries, x, y, Held(st));
  }

  lemma HeldSame(cfg: Config, st: State, after: State)
    requires Inv(cfg, st) && st.mem != [] && after == Flushed(cfg, st)
    ensures Coherent(Held(st)) && Coherent(Held(after)) && after.mem == [] && after.queued == []
  {
    FlushHolds(cfg, st);
  }

  ghost predicate SameLatest(st: State, after: State) {
    forall id :: Find(after, id, MAX_ID) == Find(st, id, MAX_ID)
  }

  /** And already the latest reads stay the same exactly then: misplaced, the table hides some newest version. */
  lemma FlushLatestIff(cfg: Config, st: State)
    requires Inv(cfg, st) && st.mem != [] && StoredOnce(st)
    ensures SameLatest(st, Flushed(cfg, st)) <==> FlushOk(cfg, st)
  {
    hide Inv, FlushOk, StoredOnce, Find, Flushed;
    if FlushOk(cfg, st) {
      forall id ensures Find(Flushed(cfg, st), id, MAX_ID) == Find(st, id, MAX_ID) {
        FlushKeepsViews(cfg, st, id, MAX_ID);
      }
    } else {
      var x := HiddenByFlush(cfg, st);
    }
  }

  /** The newest version of a document that the misplaced table shares with one above it. */
  lemma HiddenByFlush(cfg: Config, st: State) returns (x: Blob)
    requires Inv(cfg, st) && st.mem != [] && StoredOnce(st) && !FlushOk(cfg, st)
    ensures Find(st, x.id, MAX_ID) == Some(x) && Find(Flushed(cfg, st), x.id, MAX_ID) != Some(x)
  {
    hide Inv, Sorted, TableLe, StoredOnce, FlushedTable, FlushOk, Find, Flushed;
    var t, x0, y := MisplacedTable(cfg, st);
    x := FoundInMem(st, x0);
    OnlyInFlushed(cfg, st, x);
    ReadAbove(cfg.ucs, Flushed(cfg, st), t, FlushedTable(cfg, st.nextPath, st.mem), y, x);
  }

  lemma FoundInMem(st: State, x0: Blob) returns (x: Blob)
    requires x0 in st.mem
    ensures x in st.mem && x.id == x0.id && Find(st, x.id, MAX_ID) == Some(x)
  {
    assert Shows(x0, x0.id, MAX_ID) && Sources(st)[0] == st.mem;
    x := Visible(st.mem, x0.id, MAX_ID).value;
  }

  /** A read of a document that a table above holds stops before the only table with this version. */
  lemma ReadAbove(u: Ucs, st: State, t: Table, v: Table, y: Blob, x: Blob)
    requires st.queued == [] && x !in st.mem && Sorted(st.tables, TableLe(u)) && t in st.tables && v in st.tables
    requires t != v && TableLe(u)(t, v) && !TableLe(u)(v, t) && y in t.entries && x.id == y.id
    requires forall z :: z in st.tables && x in z.entries ==> z == v
    ensures Find(st, x.id, MAX_ID) != Some(x)
  {
    hide Sorted, TableLe, Visible, Sources;
    var i, j := TablePosition(u, st.tables, t, v);
    var k := FirstMatchFound(Sources(st), x.id, MAX_ID);
    FindIs(st, x.id, MAX_ID);
    SourceAt(st, i);
    assert Shows(y, x.id, MAX_ID) && y in Sources(st)[i + 1];
    if k == 0 {
    } else {
      InFlatten(Sources(st), y);
      assert k <= i + 1;
      SourceAt(st, k - 1);
      NotAfter(u, st.tables, t, v, i, k - 1);
    }
  }

  /** A compaction leaves every read at every version that it still holds right exactly when its output is placed
      above the newer tables and not above the older ones that share a document with it. */
  lemma CompactionReadsExactIff(cfg: Config, st: State, inputs: seq<SstMeta>, level: nat, purge: bool)
    requires Inv(cfg, st) && StoredOnce(st) && Runnable(cfg, st, inputs, level, purge)
    ensures ReadsExact(Sources(RunCompaction(cfg, st, inputs, purge))) <==> RunOk(cfg, st, inputs, level, purge)
  {
    hide ReadsExact, Inv, RunOk, Runnable, StoredOnce, RunCompaction;
    if RunOk(cfg, st, inputs, level, purge) {
      CompactionInv(cfg, st, inputs, level, purge);
      ExactReads(cfg, RunCompaction(cfg, st, inputs, purge));
    } else {
      MisplacedOutput(cfg, st, inputs, level, purge);
    }
  }

  lemma OutputCoherent(cfg: Config, st: State, inputs: seq<SstMeta>, level: nat, purge: bool)
    requires Inv(cfg, st) && Runnable(cfg, st, inputs, level, purge)
    ensures Coherent(Held(RunCompaction(cfg, st, inputs, purge)))
    ensures forall b :: b in Output(st, inputs, purge) ==>
              exists i :: i in st.tables && i.path in Paths(inputs) && b in i.entries
  {
    hide Compacted, Inputs, WellFormed, Ordered, Sorted, RunCompaction;
    TablesCoherent(st);
    InputsAreEntries(cfg.ucs, st.tables, inputs, level);
    forall b | b in Held(RunCompaction(cfg, st, inputs, purge)) ensures b in Held(st) {
      CompactionHolds(cfg, st, inputs, level, purge, b);
      InsideOrOutside(cfg, st, inputs, level, purge, b);
      CompactedMembers(Inputs(st.tables, inputs), OldestSnapshot(st.snapshots), purge, b);
    }
    forall b | b in Output(st, inputs, purge) ensures b in Inputs(st.tables, inputs) {
      CompactedMembers(Inputs(st.tables, inputs), OldestSnapshot(st.snapshots), purge, b);
    }
  }

  /** What is known of the state after the swap, next to one remaining table. */
  lemma AfterSwap(cfg: Config, st: State, inputs: seq<SstMeta>, level: nat, purge: bool, t: Table)
    requires Inv(cfg, st) && Runnable(cfg, st, inputs, level, purge)
    requires t in Outside(st.tables, Paths(inputs)) && Output(st, inputs, purge) != []
    ensures var after := RunCompaction(cfg, st, inputs, purge);
            var output := OutputTable(st.nextPath, cfg.fileSize, Output(st, inputs, purge));
            && after.mem == st.mem && after.queued == [] && Coherent(Held(after))
            && Sorted(after.tables, TableLe(cfg.ucs)) && t in after.tables && output in after.tables
            && t.path < output.path
            && (Level(cfg.ucs, t) < level ==> ReadBefore(t.entries, output.entries))
            && (Level(cfg.ucs, t) > level ==> ReadBefore(output.entries, t.entries))
  {
    hide Coherent, WellFormed, Ordered, Compacted, Inputs, ReadBefore, Level, WholeGroup;
    var u, rest := cfg.ucs, Outside(st.tables, Paths(inputs));
    OutputCoherent(cfg, st, inputs, level, purge);
    SortTablesSame(u, rest + [OutputTable(st.nextPath, cfg.fileSize, Output(st, inputs, purge))]);
    InOutside(st.tables, Paths(inputs));
    TablesCoherent(st);
    CompactionFits(u, st.tables, inputs, level, OldestSnapshot(st.snapshots), purge, st.nextPath, cfg.fileSize);
  }

  lemma MisplacedOutput(cfg: Config, st: State, inputs: seq<SstMeta>, level: nat, purge: bool)
    requires Inv(cfg, st) && StoredOnce(st) && Runnable(cfg, st, inputs, level, purge)
    requires !RunOk(cfg, st, inputs, level, purge)
    ensures !ReadsExact(Sources(RunCompaction(cfg, st, inputs, purge)))
  {
    hide Inv, Runnable, StoredOnce, RunCompaction, Output, Sources, ReadsExact, ReadBefore, Level, OutputTable, Held,
         Outside, Coherent, NoCopies;
    var u, out, rest := cfg.ucs, Output(st, inputs, purge), Outside(st.tables, Paths(inputs));
    var after, output := RunCompaction(cfg, st, inputs, purge), OutputTable(st.nextPath, cfg.fileSize, out);
    var t :| t in rest && ShareId(output.entries, t.entries)
          && (|| (Level(u, t) < level && Level(u, t) >= Level(u, output))
              || (Level(u, t) > level && Level(u, output) > Level(u, t)));
    var x, y :| x in output.entries && y in t.entries && x.id == y.id;
    AfterSwap(cfg, st, inputs, level, purge, t);
    OutputTableSame(st.nextPath, cfg.fileSize, out);
    RestTable(cfg, st, inputs, t);
    OnlyPlace(cfg, st, inputs, level, purge, x, y, t);
    InHeld(after, output, x);
    InHeld(after, t, y);
    if Level(u, t) < level {
      WhichIsNewer(t.entries, output.entries, y, x, Held(after));
      InvertedReadsWrong(u, after, output, t, x, y);
    } else {
      WhichIsNewer(output.entries, t.entries, x, y, Held(after));
      InvertedReadsWrong(u, after, t, output, y, x);
    }
  }

  lemma RestTable(cfg: Config, st: State, inputs: seq<SstMeta>, t: Table)
    requires t in Outside(st.tables, Paths(inputs))
    ensures t in st.tables && t.path !in Paths(inputs)
  {
    InOutside(st.tables, Paths(inputs));
  }

  lemma InHeld(st: State, t: Table, b: Blob)
    requires t in st.tables && b in t.entries
    ensures b in Held(st)
  {
    InAllEntries(st.tables, b);
  }

  /** After the swap each blob still has one place. */
  lemma OnlyPlace(cfg: Config, st: State, inputs: seq<SstMeta>, level: nat, purge: bool, x: Blob, y: Blob, t: Table)
    requires Inv(cfg, st) && StoredOnce(st) && Runnable(cfg, st, inputs, level, purge)
    requires x in Output(st, inputs, purge) && t in st.tables && t.path !in Paths(inputs) && y in t.entries
    ensures var output := OutputTable(st.nextPath, cfg.fileSize, Output(st, inputs, purge));
            && NoCopies(output.entries, t.entries) && NoCopies(t.entries, output.entries) && x !in st.mem
            && y !in st.mem
            && (forall z :: z in RunCompaction(cfg, st, inputs, purge).tables && x in z.entries ==> z == output)
            && forall z :: z in RunCompaction(cfg, st, inputs, purge).tables && y in z.entries ==> z == t
  {
    hide Coherent, WellFormed, Sorted, Ordered, Compacted, Inputs, ReadBefore, WholeGroup;
    var u, out, rest := cfg.ucs, Output(st, inputs, purge), Outside(st.tables, Paths(inputs));
    var output := OutputTable(st.nextPath, cfg.fileSize, out);
    OutputTableSame(st.nextPath, cfg.fileSize, out);
    OutputCoherent(cfg, st, inputs, level, purge);
    SortTablesSame(u, rest + [output]);
    InOutside(st.tables, Paths(inputs));
    forall z, b | z in rest && b in out ensures b !in z.entries {
      var i :| i in st.tables && i.path in Paths(inputs) && b in i.entries;
      assert NoCopies(i.entries, z.entries);
    }
    forall z | z in rest && y in z.entries ensures z == t {
      assert z != t ==> NoCopies(z.entries, t.entries);
    }
    var i :| i in st.tables && i.path in Paths(inputs) && x in i.entries;
    assert NoCopies(st.mem, i.entries) && NoCopies(st.mem, t.entries);
  }

  // ---- runs that break a promise ----

  /** One table is never compacted alone. */
  lemma NoPick(u: Ucs, tables: seq<Table>)
    requires forall l: nat :: |AtLevel(u, Metas(tables), l)| < 2
    ensures PickCompaction(u, Metas(tables)) == None
  {
    if tables != [] {
      NoPickFrom(u, Metas(tables), 0);
    }
  }

  lemma {:induction false} NoPickFrom(u: Ucs, ssts: seq<SstMeta>, level: nat)
    requires forall l: nat :: |AtLevel(u, ssts, l)| < 2
    ensures PickFrom(u, ssts, level) == None
    decreases MaxLevel(u, ssts) + 1 - level
  {
    if level <= MaxLevel(u, ssts) {
      NoPickFrom(u, ssts, level + 1);
    }
  }

  const X: Blob := Blob(5, 0, 0, [])

  /** A document with a field of two thousand bytes. */
  const Y: Blob := Blob(7, 0, 0, [Field([100], Raw(seq(2000, _ => 0)))])

  /** The default W zero. Memtables are flushed at a thousand encoded bytes, and that is the expected flush size; a file
      takes its documents' bytes and three hundred more. */
  function SizedConfig(env: Env): Config {
    var size := (b: Blob) => |Serialize(env, b)|;
    Config(env, Ucs(0, 1000), 1000, size, (s: seq<Blob>) => 300 + MemSize(size, s))
  }

  lemma BareSize(env: Env, b: Blob)
    requires b.fields == []
    ensures SizedConfig(env).blobSize(b) == 75
    ensures MemSize(SizedConfig(env).blobSize, [b]) == 75 && SizedConfig(env).fileSize([b]) == 375
  {
    hide Header, IndexBytes, ContentHash;
    assert MemSize(SizedConfig(env).blobSize, [b]) == 75 + MemSize(SizedConfig(env).blobSize, []);
  }

  lemma LargeSize(env: Env, b: Blob)
    requires b.fields == Y.fields
    ensures SizedConfig(env).blobSize(b) == 2101
  {
    hide Header, IndexBytes, ContentHash, LittleEndian;
    assert Y.fields[1..] == [];
    assert EncodingEntries(Y.fields) == EncodingEntry(Y.fields[0]) + [];
    assert |Encoding(Y.fields[0].value)| == 2005;
  }

  const X1: Blob := X.(version := 1)
  const X2: Blob := X.(version := 2)
  const X3: Blob := X.(version := 3)
  const Y3: Blob := Y.(version := 3)

  const OLDER: Table := Table(1, 375, [X1])
  const NEWER: Table := Table(2, 2476, [X2, Y3])

  const FIRST: State := State([], [], [OLDER], [], [], {}, 2, 2, false)
  const SECOND: State := State([X2, Y3], [], [OLDER], [], [X2, Y3], {}, 2, 4, false)
  const THIRD: State := State([], [], [OLDER, NEWER], [], [], {}, 3, 4, false)

  /** A put and a flush. */
  lemma FirstFlush(env: Env)
    ensures Rotate(SizedConfig(env), Write(SizedConfig(env), EMPTY, [X])) == FIRST
  {
    hide SizedConfig;
    var cfg := SizedConfig(env);
    SizedParts(env);
    assert Stamp([X], 1) == [X1];
    MemInsertOne([], X1);
    var st := WriteMany(EMPTY, [X]);
    assert st == State([X1], [], [], [], [X1], {}, 1, 2, false);
    BareSize(env, X1);
    RotateIs(cfg, st);
    OneSorted(X1);
    assert FlushedTable(cfg, 1, [X1]) == OLDER;
    OneTable(cfg.ucs, OLDER);
  }

  lemma SizedParts(env: Env)
    ensures SizedConfig(env).ucs == Ucs(0, 1000) && SizedConfig(env).memtableSize == 1000
  {
  }

  lemma OneSorted(x: Blob)
    ensures Sort([x], KeyLe) == [x]
  {
    assert Sort([x], KeyLe) == Insert(x, Sort([x][1..], KeyLe), KeyLe);
  }

  lemma OneTable(u: Ucs, t: Table)
    ensures SortTables(u, [t] + []) == [t]
    ensures PickCompaction(u, Metas([t])) == None
  {
    assert Sort([t], TableLe(u)) == Insert(t, Sort([t][1..], TableLe(u)), TableLe(u));
    assert [t] + [] == [t];
    assert |Metas([t])| == 1;
    forall l: nat ensures |AtLevel(u, Metas([t]), l)| < 2 { FilterShorter(Metas([t]), LevelTest(u, l)); }
    NoPick(u, [t]);
  }

  lemma TwoSorted(a: Blob, b: Blob)
    requires KeyLe(a, b)
    ensures Sort([a, b], KeyLe) == [a, b]
  {
    OneSorted(b);
    assert [a, b][1..] == [b];
  }

  /** The newer table lands on level 1, above the older one on level 0. */
  lemma StaleOrder(older: Table, newer: Table)
    requires older.size == 375 && newer.size == 2476
    ensures SortTables(Ucs(0, 1000), [newer] + [older]) == [older, newer]
    ensures PickCompaction(Ucs(0, 1000), Metas([older, newer])) == None
  {
    var u := Ucs(0, 1000);
    LevelIsBand(u, 2476, 0);
    assert Pow(2, 1) == 2 * Pow(2, 0) == 2;
    assert Level(u, older) == 0 && Level(u, newer) >= 1;
    assert [newer] + [older] == [newer, older] && [newer, older][1..] == [older];
    OneTable(u, older);
    assert Sort([newer, older], TableLe(u)) == Insert(newer, [older], TableLe(u));
    assert [older][1..] == [];
    var ms := Metas([older, newer]);
    assert ms[0] == older.Meta() && ms[1] == newer.Meta() && |ms| == 2;
    forall l: nat ensures |AtLevel(u, ms, l)| < 2 {
      assert ms == [ms[0]] + [ms[1]];
      FilterAppend([ms[0]], [ms[1]], LevelTest(u, l));
      FilterShorter([ms[0]], LevelTest(u, l));
      FilterShorter([ms[1]], LevelTest(u, l));
    }
    NoPick(u, [older, newer]);
  }

  /** A batch with a large document overfills the memtable. */
  lemma SecondWrite(env: Env)
    ensures WriteMany(FIRST, [X, Y]) == SECOND
    ensures Write(SizedConfig(env), FIRST, [X, Y]) == Rotate(SizedConfig(env), SECOND)
  {
    hide SizedConfig, Rotate;
    assert Stamp([X, Y], 2) == [X2, Y3];
    MemInsertTwo(X2, Y3);
    assert [] + [X2, Y3] == [X2, Y3];
    SizedParts(env);
    SecondSize(env);
  }

  lemma SecondSize(env: Env)
    ensures MemSize(SizedConfig(env).blobSize, [X2, Y3]) == 2176 && SizedConfig(env).fileSize([X2, Y3]) == 2476
  {
    var size := SizedConfig(env).blobSize;
    BareSize(env, X2);
    LargeSize(env, Y3);
    hide Serialize;
    assert [X2, Y3][1..] == [Y3] && [Y3][1..] == [];
    assert MemSize(size, [X2, Y3]) == size(X2) + MemSize(size, [Y3]) == size(X2) + (size(Y3) + MemSize(size, []));
  }

  /** Its flush lands on level 1. */
  lemma SecondFlush(env: Env)
    ensures Rotate(SizedConfig(env), SECOND) == THIRD
  {
    hide SortTables, PickCompaction, Metas, SizedConfig;
    SizedParts(env);
    SecondSize(env);
    RotateIs(SizedConfig(env), SECOND);
    TwoSorted(X2, Y3);
    StaleOrder(OLDER, NEWER);
    assert FlushedTable(SizedConfig(env), 2, SECOND.mem) == NEWER;
  }

  /** A put, a flush, and a batch too large for the flush band, which is flushed at once: the second version of the
      document is on disk, but the first one is read. */
  lemma LargeFlushReadsStale(env: Env)
    ensures var cfg := SizedConfig(env);
            && FIRST == Rotate(cfg, Write(cfg, EMPTY, [X]))
            && THIRD == Write(cfg, FIRST, [X, Y])
            && Get(THIRD, X.id) == Some(X1)
            && Visible(Held(THIRD), X.id, MAX_ID) == Some(X2)
  {
    hide Rotate, Write, SizedConfig;
    FirstFlush(env);
    SecondWrite(env);
    SecondFlush(env);
    var a, b := [X1], [X2, Y3];
    SourcesHold(THIRD);
    assert Sources(THIRD) == [[], a, b] && Sources(THIRD)[1..] == [a, b] && [a, b][1..] == [b];
    assert Find(THIRD, X.id, MAX_ID) == FirstMatch([a, b], X.id, MAX_ID) == Visible(a, X.id, MAX_ID) == Some(X1);
    assert Flatten([b]) == b + Flatten([b][1..]) == b;
    assert Flatten([a, b]) == a + Flatten([b]);
    assert Held(THIRD) == [X1, X2, Y3];
    assert [X1, X2, Y3][1..] == b && b[1..] == [Y3];
  }

  lemma MemInsertTwo(a: Blob, b: Blob)
    requires a.id < b.id
    ensures MemInsertAll([], [a, b]) == [a, b]
  {
    assert MemInsertAll([], [a, b]) == MemInsertAll(MemInsert([], a), [a, b][1..]);
    MemInsertOne([a], b);
    assert [a][1..] == [];
  }

  /** Two tables of one level with the same ids are merged at threshold two. */
  lemma PickTwo(u: Ucs, a: SstMeta, b: SstMeta)
    requires u.Threshold() == 2 && a.minId == b.minId == a.maxId == b.maxId
    requires u.LevelForSize(a.fileSize) == 0 && u.LevelForSize(b.fileSize) == 0
    ensures PickCompaction(u, [a, b]) == Some(CompactionPick([a, b], 1, 0))
  {
    assert [a, b][1..] == [b] && [b][1..] == [];
    assert MaxLevel(u, [b]) == 0 && MaxLevel(u, [a, b]) == 0;
    assert Filter([b], LevelTest(u, 0)) == [b] + Filter([], LevelTest(u, 0)) == [b];
    assert AtLevel(u, [a, b], 0) == [a] + [b] == [a, b];
    OneGroup(a, b);
    assert OverlapGroup([a, b], 2) == BestOf([[a, b]], 2, None) == BestOf([[a, b]][1..], 2, Some([a, b])) ==
           Some([a, b]);
  }

  lemma OneGroup(a: SstMeta, b: SstMeta)
    requires a.minId == b.minId == a.maxId == b.maxId
    ensures Groups([a, b]) == [[a, b]]
  {
    assert [a, b][1..] == [b] && [b][1..] == [];
    assert Sort([b], MinIdLe) == Insert(b, Sort([b][1..], MinIdLe), MinIdLe) == [b];
    assert Sort([a, b], MinIdLe) == Insert(a, [b], MinIdLe) == [a, b];
    assert [a] + [b] == [a, b];
    assert Chains([a], a.maxId, [b]) == Chains([a] + [b], a.maxId, [b][1..]) == [[a, b]];
  }

  /** Two tables of one blob each, both on level 0, and the compaction that merges them. */
  lemma MergeTwo(cfg: Config, st: State, newer: Table, older: Table)
    requires cfg.ucs == Ucs(0, 1000) && st.tables == [newer, older] && newer.path != older.path
    requires newer.size == 375 && older.size == 375 && |newer.entries| == 1 && |older.entries| == 1
    requires newer.entries[0].id == older.entries[0].id
    ensures var purge := st.snapshots == {};
            var out := Compacted([newer.entries[0], older.entries[0]], OldestSnapshot(st.snapshots), purge);
            && MaybeCompact(cfg, st) ==
                 st.(tables := if out == [] then [] else [OutputTable(st.nextPath, cfg.fileSize, out)],
                     nextPath := if out == [] then st.nextPath else st.nextPath + 1)
  {
    hide Compacted, OutputTable, PickCompaction, OldestSnapshot;
    var a, b := newer.Meta(), older.Meta();
    assert [newer, older][1..] == [older] && [older][1..] == [] && [a, b][1..] == [b] && [b][1..] == [];
    assert Metas([newer, older]) == [a, b];
    PickTwo(cfg.ucs, a, b);
    assert EntriesAt([newer, older], a.path) == newer.entries == [newer.entries[0]];
    assert EntriesAt([newer, older], b.path) == EntriesAt([older], b.path) == older.entries == [older.entries[0]];
    assert Inputs(st.tables, [b]) == older.entries + Inputs(st.tables, []) == older.entries;
    assert Inputs(st.tables, [a, b]) == newer.entries + older.entries == [newer.entries[0], older.entries[0]];
    assert a.path in Paths([a, b]) && b.path in Paths([a, b]);
    FilterNone(st.tables, OutsideTest(Paths([a, b])));
    var purge := Purges(1, 0, OldestSnapshot(st.snapshots));
    OneOutput(cfg.ucs, OutputTable(st.nextPath, cfg.fileSize, Output(st, [a, b], purge)));
  }

  lemma OneOutput(u: Ucs, t: Table)
    ensures SortTables(u, [] + [t]) == [t]
  {
    assert [] + [t] == [t] && [t][1..] == [];
    assert Sort([t], TableLe(u)) == Insert(t, Sort([t][1..], TableLe(u)), TableLe(u));
  }

  const WITH_SNAPSHOT: State := State([X3], [], [OLDER], [], [X3], {2}, 2, 4, false)

  /** The document is written again after the snapshot. */
  lemma WriteAfterSnapshot(env: Env)
    ensures Write(SizedConfig(env), OpenSnapshot(FIRST), [X]) == WITH_SNAPSHOT
  {
    hide SizedConfig;
    assert OpenSnapshot(FIRST) == State([], [], [OLDER], [], [], {2}, 2, 3, false);
    assert Stamp([X], 3) == [X3];
    MemInsertOne([], X3);
    assert WriteMany(OpenSnapshot(FIRST), [X]) == WITH_SNAPSHOT;
    SizedParts(env);
    BareSize(env, X3);
  }

  /** Its flush merges both tables, and keeps what the oldest snapshot is said to need. */
  lemma FlushAfterSnapshot(env: Env)
    ensures var after := Rotate(SizedConfig(env), WITH_SNAPSHOT);
            && after.mem == [] && after.queued == [] && after.snapshots == {2}
            && after.tables == [OutputTable(3, SizedConfig(env).fileSize, Compacted([X3, X1], Some(2), false))]
  {
    hide Compacted, OutputTable, MaybeCompact, SizedConfig;
    var cfg, t := SizedConfig(env), Table(2, 375, [X3]);
    SizedParts(env);
    BareSize(env, X3);
    RotateIs(cfg, WITH_SNAPSHOT);
    OneSorted(X3);
    NewestFirst(cfg.ucs, t, OLDER);
    var st := State([], [], [t, OLDER], [], [], {2}, 3, 4, false);
    assert Flushed(cfg, WITH_SNAPSHOT) == st;
    MergeTwo(cfg, st, t, OLDER);
    assert OldestSnapshot({2}) == Some(2);
    SurvivesMerge();
  }

  lemma SurvivesMerge()
    ensures Compacted([X3, X1], Some(2), false) != []
  {
    hide Compacted;
    CompactedMembers([X3, X1], Some(2), false, X3);
    assert X3 in [X3, X1];
  }

  lemma NewestFirst(u: Ucs, newer: Table, older: Table)
    requires u == Ucs(0, 1000) && newer.size == 375 && older.size == 375 && newer.path > older.path
    ensures SortTables(u, [newer] + [older]) == [newer, older]
  {
    assert [newer] + [older] == [newer, older] && [newer, older][1..] == [older] && [older][1..] == [];
    assert Sort([older], TableLe(u)) == Insert(older, Sort([older][1..], TableLe(u)), TableLe(u));
    assert Sort([newer, older], TableLe(u)) == Insert(newer, [older], TableLe(u));
  }

  /** A put, a flush, a snapshot, the same document put again, a flush: the snapshot is open throughout and showed the
      first version, and the merge that the second flush starts drops that version. */
  lemma SnapshotReadLost(env: Env)
    ensures var cfg := SizedConfig(env);
            && FIRST == Rotate(cfg, Write(cfg, EMPTY, [X]))
            && WITH_SNAPSHOT == Write(cfg, OpenSnapshot(FIRST), [X])
            && 2 in WITH_SNAPSHOT.snapshots && Find(WITH_SNAPSHOT, X.id, 2) == Some(X1)
            && 2 in Rotate(cfg, WITH_SNAPSHOT).snapshots && Find(Rotate(cfg, WITH_SNAPSHOT), X.id, 2) == None
  {
    hide Rotate, Write, Compacted, OutputTable, SizedConfig;
    FirstFlush(env);
    WriteAfterSnapshot(env);
    FlushAfterSnapshot(env);
    SnapshotBefore();
    var out := Compacted([X3, X1], Some(2), false);
    var t := OutputTable(3, SizedConfig(env).fileSize, out);
    OutputTableSame(3, SizedConfig(env).fileSize, out);
    forall b | b in t.entries ensures !Shows(b, X.id, 2) { CompactedMembers([X3, X1], Some(2), false, b); }
    var after := Rotate(SizedConfig(env), WITH_SNAPSHOT);
    SourcesHold(after);
    NothingShown(t, X.id, 2);
    assert EntriesOf([t]) == [t.entries];
    assert Sources(after) == [[], t.entries];
  }

  const GONE: Blob := Tombstone(X.id).(version := 3)

  const WITH_DELETE: State := State([GONE], [], [OLDER], [], [GONE], {}, 2, 4, false)

  lemma DeleteAfterClose(env: Env)
    ensures Write(SizedConfig(env), CloseSnapshot(OpenSnapshot(FIRST), 2), [Tombstone(X.id)]) == WITH_DELETE
  {
    hide SizedConfig;
    var closed := CloseSnapshot(OpenSnapshot(FIRST), 2);
    assert closed == State([], [], [OLDER], [], [], {}, 2, 3, false);
    assert Stamp([Tombstone(X.id)], 3) == [GONE];
    MemInsertOne([], GONE);
    assert WriteMany(closed, [Tombstone(X.id)]) == WITH_DELETE;
    SizedParts(env);
    BareSize(env, GONE);
  }

  /** The flush of a tombstone over the one table with its document, as the merge finds them. */
  lemma DeleteMerge(env: Env, snapshots: set<DocumentId>)
    ensures var st := WITH_DELETE.(snapshots := snapshots);
            var out := Compacted([GONE, X1], OldestSnapshot(snapshots), snapshots == {});
            Rotate(SizedConfig(env), st).tables ==
              if out == [] then [] else [OutputTable(3, SizedConfig(env).fileSize, out)]
  {
    hide Compacted, OutputTable, MaybeCompact, SizedConfig, OldestSnapshot;
    var cfg, t := SizedConfig(env), Table(2, 375, [GONE]);
    var st := WITH_DELETE.(snapshots := snapshots);
    SizedParts(env);
    BareSize(env, GONE);
    RotateIs(cfg, st);
    OneSorted(GONE);
    NewestFirst(cfg.ucs, t, OLDER);
    var flushed := State([], [], [t, OLDER], [], [], snapshots, 3, 4, false);
    assert Flushed(cfg, st) == flushed;
    MergeTwo(cfg, flushed, t, OLDER);
  }

  /** A put, a flush, a snapshot that is closed again, the deletion, a flush: the merge that the flush starts purges the
      tombstone, and no table is left. With the snapshot still open the tombstone stays in a table. */
  lemma ClosedSnapshotPurges(env: Env)
    ensures var cfg := SizedConfig(env);
            && FIRST == Rotate(cfg, Write(cfg, EMPTY, [X]))
            && WITH_DELETE == Write(cfg, CloseSnapshot(OpenSnapshot(FIRST), 2), [Tombstone(X.id)])
            && Rotate(cfg, WITH_DELETE).tables == []
            && Rotate(cfg, WITH_DELETE.(snapshots := {2})).tables != []
  {
    hide Rotate, Write, Compacted, SizedConfig;
    FirstFlush(env);
    DeleteAfterClose(env);
    DeleteMerge(env, {});
    DeleteMerge(env, {2});
    var out := Compacted([GONE, X1], None, true);
    assert GONE in [GONE, X1];
    if out != [] {
      CompactedMembers([GONE, X1], None, true, out[0]);
      assert false;
    }
    assert OldestSnapshot({2}) == Some(2);
    CompactedMembers([GONE, X1], Some(2), false, GONE);
  }

  lemma NothingShown(t: Table, id: DocumentId, s: DocumentId)
    requires forall b :: b in t.entries ==> !Shows(b, id, s)
    ensures FirstMatch([[], t.entries], id, s) == None
  {
    assert [[], t.entries][1..] == [t.entries] && [t.entries][1..] == [];
    assert FirstMatch([t.entries], id, s) == FirstMatch([], id, s);
  }

  lemma SnapshotBefore()
    ensures Find(WITH_SNAPSHOT, X.id, 2) == Some(X1)
  {
    SourcesHold(WITH_SNAPSHOT);
    assert EntriesOf([OLDER]) == [[X1]];
    assert Sources(WITH_SNAPSHOT) == [[X3], [X1]] && [[X3], [X1]][1..] == [[X1]];
    assert FirstMatch([[X3], [X1]], X.id, 2) == FirstMatch([[X1]], X.id, 2) == Visible([X1], X.id, 2) == Some(X1);
  }

  // ---- a queue of two memtables ----

  const ONE_QUEUED: State := State([], [[X1]], [], [], [X1], {}, 1, 2, true)
  const QUEUED: State := State([], [[X1], [X2]], [], [], [X1, X2], {}, 1, 3, true)

  const LATER_TABLE: Table := Table(1, 375, [X2])
  const EARLIER_TABLE: Table := Table(2, 375, [X1])

  const DRAINED: State := State([], [], [EARLIER_TABLE, LATER_TABLE], [], [], {}, 3, 3, true)

  /** With a background thread, two puts and rotations leave two memtables in the queue. */
  lemma QueueTwo(env: Env)
    ensures var cfg := SizedConfig(env);
            && ONE_QUEUED == Rotate(cfg, Write(cfg, StartBackground(EMPTY), [X]))
            && QUEUED == Rotate(cfg, Write(cfg, ONE_QUEUED, [X]))
  {
    hide SizedConfig;
    SizedParts(env);
    BareSize(env, X1);
    BareSize(env, X2);
    assert Stamp([X], 1) == [X1] && Stamp([X], 2) == [X2];
    MemInsertOne([], X1);
    MemInsertOne([], X2);
    assert WriteMany(StartBackground(EMPTY), [X]) == State([X1], [], [], [], [X1], {}, 1, 2, true);
    assert [X1] + [X2] == [X1, X2] && [[X1]] + [[X2]] == [[X1], [X2]];
    assert WriteMany(ONE_QUEUED, [X]) == State([X2], [[X1]], [], [], [X1, X2], {}, 1, 3, true);
  }

  lemma DrainTwo(env: Env)
    ensures FlushQueued(SizedConfig(env), QUEUED) == DRAINED
  {
    hide SizedConfig, SortTables;
    var cfg, mid := SizedConfig(env), State([], [[X1]], [LATER_TABLE], [], [], {}, 2, 3, true);
    SizedParts(env);
    BareSize(env, X1);
    BareSize(env, X2);
    OneSorted(X1);
    OneSorted(X2);
    OneTable(cfg.ucs, LATER_TABLE);
    NewestFirst(cfg.ucs, EARLIER_TABLE, LATER_TABLE);
    assert QUEUED.queued[..1] == [[X1]] && mid.queued[..0] == [];
    assert FlushedTable(cfg, 1, [X2]) == LATER_TABLE && FlushedTable(cfg, 2, [X1]) == EARLIER_TABLE;
    assert FlushQueued(cfg, QUEUED) == FlushQueued(cfg, mid);
    assert FlushQueued(cfg, mid) == FlushQueued(cfg, DRAINED);
  }

  lemma ReadsFirst(a: Blob, b: Blob)
    ensures FirstMatch([[], [a], [b]], a.id, MAX_ID) == Some(a)
  {
    assert [[], [a], [b]][1..] == [[a], [b]];
    assert FirstMatch([[], [a], [b]], a.id, MAX_ID) == FirstMatch([[a], [b]], a.id, MAX_ID);
  }

  lemma QueuedSources()
    ensures Sources(QUEUED) == [[], [X2], [X1]]
    ensures Sources(DRAINED) == [[], [X1], [X2]]
  {
    assert [[X1], [X2]][1..] == [[X2]] && [[X2]][1..] == [];
    assert Reverse([[X2]]) == [[X2]];
    assert Reverse([[X1], [X2]]) == [[X2]] + [[X1]];
    SourcesHold(DRAINED);
    assert EntriesOf(DRAINED.tables) == [[X1], [X2]];
  }

  /** The drain takes the newest memtable first, so of two queued ones the older gets the newer file name, is read
      first, and hides the newer version. */
  lemma QueueOfTwoReadsStale(env: Env)
    ensures var cfg := SizedConfig(env);
            && ONE_QUEUED == Rotate(cfg, Write(cfg, StartBackground(EMPTY), [X]))
            && QUEUED == Rotate(cfg, Write(cfg, ONE_QUEUED, [X]))
            && Get(QUEUED, X.id) == Some(X2)
            && DRAINED == FlushQueued(cfg, QUEUED) && Get(DRAINED, X.id) == Some(X1)
  {
    hide FirstMatch, Sources, FlushQueued, SizedConfig, Rotate, Write;
    QueueTwo(env);
    DrainTwo(env);
    QueuedSources();
    ReadsFirst(X2, X1);
    ReadsFirst(X1, X2);
  }
}
