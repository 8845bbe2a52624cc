/** Draining a queue of memtables, newest first, as an engine with a background thread does
    (crates/ingodb-lsm/src/lib.rs:510-600, 940-945): which tables it leaves, and exactly when every read stays right. */
module Draining {
  import opened Prelude
  import opened Bytes
  import opened Blobs
  import opened Sorting
  import opened Views
  import opened Compaction
  import opened Tables
  import opened Lsm
  import opened Refinement
  import opened Recovery
  import opened Limits

  /** How many of these memtables hold anything. */
  function Full(qs: seq<seq<Blob>>): nat {
    if qs == [] then 0 else Full(qs[1..]) + if qs[0] == [] then 0 else 1
  }

  lemma {:induction false} FullAppend(qs: seq<seq<Blob>>, q: seq<Blob>)
    ensures Full(qs + [q]) == Full(qs) + if q == [] then 0 else 1
  {
    if qs == [] {
      assert [q][1..] == [];
      assert [] + [q] == [q];
    } else {
      assert (qs + [q])[1..] == qs[1..] + [q];
      FullAppend(qs[1..], q);
    }
  }

  /** The table of the `i`-th queued memtable: the newer ones get the lower names. */
  function QueuedTable(cfg: Config, path: nat, queued: seq<seq<Blob>>, i: nat): Table
    requires i < |queued|
  {
    FlushedTable(cfg, path + Full(queued[i + 1..]), queued[i])
  }

  /** The tables after the drain. */
  function DrainedTables(cfg: Config, path: nat, queued: seq<seq<Blob>>, tables: seq<Table>): seq<Table>
    decreases |queued|
  {
    if queued == [] then tables
    else
      var last := |queued| - 1;
      if queued[last] == [] then DrainedTables(cfg, path, queued[..last], tables)
      else
        DrainedTables(cfg, path + 1, queued[..last],
                      SortTables(cfg.ucs, [FlushedTable(cfg, path, queued[last])] + tables))
  }

  /** What the drain computes: its tables, an empty log if anything was flushed, and nothing else changed. */
  lemma {:induction false} DrainIs(cfg: Config, st: State)
    requires st.background
    ensures var n, tables := Full(st.queued), DrainedTables(cfg, st.nextPath, st.queued, st.tables);
            FlushQueued(cfg, st) ==
            State(st.mem, [], tables, if n == 0 then st.torn else [], if n == 0 then st.log else [], st.snapshots,
                  st.nextPath + n, st.clock, true)
    decreases |st.queued|
  {
    hide SortTables, FlushedTable, FlushOne;
    if st.queued != [] {
      var last := |st.queued| - 1;
      var q, popped := st.queued[last], st.(queued := st.queued[..last]);
      assert st.queued == st.queued[..last] + [q];
      FullAppend(st.queued[..last], q);
      FlushOneIs(cfg, popped, q);
      DrainIs(cfg, FlushOne(cfg, popped, q));
    }
  }

  lemma FlushOneIs(cfg: Config, st: State, entries: seq<Blob>)
    requires st.background
    ensures FlushOne(cfg, st, entries) ==
            if entries == [] then st
            else
              st.(tables := SortTables(cfg.ucs, [FlushedTable(cfg, st.nextPath, entries)] + st.tables),
                  nextPath := st.nextPath + 1, torn := [], log := [])
  {
  }

  // ---- which tables there are ----

  ghost predicate IsQueued(cfg: Config, path: nat, queued: seq<seq<Blob>>, t: Table) {
    exists i :: 0 <= i < |queued| && queued[i] != [] && t == QueuedTable(cfg, path, queued, i)
  }

  /** Taking off the newest memtable leaves the tables of the others what they were. */
  lemma PopQueued(cfg: Config, path: nat, queued: seq<seq<Blob>>, i: nat)
    requires i < |queued| - 1
    ensures var last := |queued| - 1;
            QueuedTable(cfg, if queued[last] == [] then path else path + 1, queued[..last], i)
            == QueuedTable(cfg, path, queued, i)
  {
    var last := |queued| - 1;
    assert queued[i + 1..] == queued[..last][i + 1..] + [queued[last]];
    FullAppend(queued[..last][i + 1..], queued[last]);
  }

  lemma NewestQueued(cfg: Config, path: nat, queued: seq<seq<Blob>>)
    requires queued != []
    ensures QueuedTable(cfg, path, queued, |queued| - 1) == FlushedTable(cfg, path, queued[|queued| - 1])
  {
    assert queued[|queued| - 1 + 1..] == [];
  }

  lemma IsQueuedPop(cfg: Config, path: nat, queued: seq<seq<Blob>>, t: Table)
    requires queued != []
    ensures var last := |queued| - 1;
            IsQueued(cfg, path, queued, t) <==>
              (queued[last] != [] && t == FlushedTable(cfg, path, queued[last]))
              || IsQueued(cfg, if queued[last] == [] then path else path + 1, queued[..last], t)
  {
    hide QueuedTable, FlushedTable;
    var last := |queued| - 1;
    var next := if queued[last] == [] then path else path + 1;
    NewestQueued(cfg, path, queued);
    if IsQueued(cfg, path, queued, t) {
      var i :| 0 <= i < |queued| && queued[i] != [] && t == QueuedTable(cfg, path, queued, i);
      if i < last {
        PopQueued(cfg, path, queued, i);
        assert queued[..last][i] != [];
      }
    }
    if IsQueued(cfg, next, queued[..last], t) {
      var i :| 0 <= i < last && queued[..last][i] != [] && t == QueuedTable(cfg, next, queued[..last], i);
      PopQueued(cfg, path, queued, i);
      assert queued[i] != [];
    }
  }

  /** The drain adds exactly one table for each memtable that holds anything. */
  lemma {:induction false} DrainedMembers(cfg: Config, path: nat, queued: seq<seq<Blob>>, tables: seq<Table>, t: Table)
    ensures t in DrainedTables(cfg, path, queued, tables) <==> t in tables || IsQueued(cfg, path, queued, t)
    decreases |queued|
  {
    hide IsQueued, SortTables, FlushedTable;
    if queued == [] {
      NoneQueued(cfg, path, t);
    } else {
      var last := |queued| - 1;
      IsQueuedPop(cfg, path, queued, t);
      if queued[last] == [] {
        DrainedMembers(cfg, path, queued[..last], tables, t);
      } else {
        var added := FlushedTable(cfg, path, queued[last]);
        SortTablesSame(cfg.ucs, [added] + tables);
        DrainedMembers(cfg, path + 1, queued[..last], SortTables(cfg.ucs, [added] + tables), t);
      }
    }
  }

  lemma NoneQueued(cfg: Config, path: nat, t: Table)
    ensures !IsQueued(cfg, path, [], t)
  {
  }

  lemma {:induction false} DrainedWellFormed(cfg: Config, path: nat, queued: seq<seq<Blob>>, tables: seq<Table>)
    requires WellFormed(tables) && Sorted(tables, TableLe(cfg.ucs)) && forall t :: t in tables ==> t.path < path
    ensures var after := DrainedTables(cfg, path, queued, tables);
            WellFormed(after) && Sorted(after, TableLe(cfg.ucs))
    decreases |queued|
  {
    hide WellFormed, Sorted, SortTables, FlushedTable, TableLe;
    if queued != [] {
      var last := |queued| - 1;
      if queued[last] == [] {
        DrainedWellFormed(cfg, path, queued[..last], tables);
      } else {
        var added := FlushedTable(cfg, path, queued[last]);
        FlushedEntries(cfg, path, queued[last]);
        AddedWellFormed(tables, added);
        SortTablesSame(cfg.ucs, [added] + tables);
        DrainedWellFormed(cfg, path + 1, queued[..last], SortTables(cfg.ucs, [added] + tables));
      }
    }
  }

  // ---- when reads stay right ----

  ghost predicate AllApart(sources: seq<seq<Blob>>) {
    forall i, j :: 0 <= i < j < |sources| ==> NoCopies(sources[i], sources[j])
  }

  /** A state with any queue whose reads are right and in which no blob is stored twice. */
  ghost predicate DrainInv(cfg: Config, st: State) {
    && WellFormed(st.tables) && Sorted(st.tables, TableLe(cfg.ucs)) && Ordered(cfg.ucs, st.tables)
    && (forall t :: t in st.tables ==> t.path < st.nextPath)
    && ReadOrdered(Sources(st)) && Coherent(AllBlobs(st)) && AllApart(Sources(st))
  }

  /** Each queued table is placed as a flush of its own would have to be, and of two that share a document the newer
      one is on a strictly lower level. */
  ghost predicate QueuePlaced(cfg: Config, st: State) {
    && (forall i :: 0 <= i < |st.queued| && st.queued[i] != [] ==>
         FlushPlaced(cfg.ucs, st.tables, QueuedTable(cfg, st.nextPath, st.queued, i)))
    && forall i, j :: 0 <= i < j < |st.queued| && ShareId(st.queued[i], st.queued[j]) ==>
         Level(cfg.ucs, QueuedTable(cfg, st.nextPath, st.queued, j)) <
           Level(cfg.ucs, QueuedTable(cfg, st.nextPath, st.queued, i))
  }

  /** `a` holds newer versions than `b` of every document they share. */
  ghost predicate Newer(a: seq<Blob>, b: seq<Blob>) {
    forall x, y :: x in a && y in b && x.id == y.id ==> y.version < x.version
  }

  lemma SourcesNewer(sources: seq<seq<Blob>>, i: nat, j: nat)
    requires i < j < |sources| && ReadOrdered(sources) && Coherent(Flatten(sources)) && AllApart(sources)
    ensures Newer(sources[i], sources[j]) && NoCopies(sources[i], sources[j])
  {
    hide Coherent;
    forall x, y | x in sources[i] && y in sources[j] && x.id == y.id ensures y.version < x.version {
      InFlatten(sources, x);
      InFlatten(sources, y);
      WhichIsNewer(sources[i], sources[j], x, y, Flatten(sources));
    }
  }

  lemma {:induction false} ReverseAt<T>(s: seq<T>, k: nat)
    requires k < |s|
    ensures |Reverse(s)| == |s| && Reverse(s)[|s| - 1 - k] == s[k]
  {
    if |s| > 1 {
      ReverseAt(s[1..], if k == 0 then 0 else k - 1);
    }
  }

  /** Where the sources of a state are. */
  lemma SourcePlaces(st: State)
    ensures |Sources(st)| == 1 + |st.queued| + |st.tables| && Sources(st)[0] == st.mem
    ensures forall i :: 0 <= i < |st.queued| ==> Sources(st)[|st.queued| - i] == st.queued[i]
    ensures forall k :: 0 <= k < |st.tables| ==> Sources(st)[1 + |st.queued| + k] == st.tables[k].entries
  {
    if st.queued != [] { ReverseAt(st.queued, 0); }
    forall i | 0 <= i < |st.queued| ensures Sources(st)[|st.queued| - i] == st.queued[i] { ReverseAt(st.queued, i); }
  }

  /** What the order of the sources says about two of them. */
  lemma QueueFacts(cfg: Config, st: State)
    requires DrainInv(cfg, st)
    ensures forall i, t :: 0 <= i < |st.queued| && t in st.tables ==>
              Newer(st.queued[i], t.entries) && NoCopies(st.queued[i], t.entries)
    ensures forall i, j :: 0 <= i < j < |st.queued| ==>
              Newer(st.queued[j], st.queued[i]) && NoCopies(st.queued[j], st.queued[i])
    ensures forall t :: t in st.tables ==> Newer(st.mem, t.entries) && NoCopies(st.mem, t.entries)
    ensures forall i :: 0 <= i < |st.queued| ==> Newer(st.mem, st.queued[i]) && NoCopies(st.mem, st.queued[i])
  {
    hide Newer, NoCopies, Coherent, ReadOrdered, AllApart, Sources, WellFormed, Ordered, Sorted;
    SourcePlaces(st);
    var sources, n := Sources(st), |st.queued|;
    forall i, t | 0 <= i < n && t in st.tables
      ensures Newer(st.queued[i], t.entries) && NoCopies(st.queued[i], t.entries)
    {
      var k :| 0 <= k < |st.tables| && st.tables[k] == t;
      SourcesNewer(sources, n - i, 1 + n + k);
    }
    forall i, j | 0 <= i < j < n ensures Newer(st.queued[j], st.queued[i]) && NoCopies(st.queued[j], st.queued[i]) {
      SourcesNewer(sources, n - j, n - i);
    }
    forall t | t in st.tables ensures Newer(st.mem, t.entries) && NoCopies(st.mem, t.entries) {
      var k :| 0 <= k < |st.tables| && st.tables[k] == t;
      SourcesNewer(sources, 0, 1 + n + k);
    }
    forall i | 0 <= i < n ensures Newer(st.mem, st.queued[i]) && NoCopies(st.mem, st.queued[i]) {
      SourcesNewer(sources, 0, n - i);
    }
  }

  /** In a table order, the pair is right. */
  ghost predicate PairOrdered(u: Ucs, t: Table, v: Table) {
    && (TableLe(u)(t, v) ==> ReadBefore(t.entries, v.entries))
    && (TableLe(u)(v, t) ==> ReadBefore(v.entries, t.entries))
  }

  /** A table with the newer versions must come first if a document is shared, and may be anywhere if none is. */
  lemma PairOrderedIff(u: Ucs, a: Table, b: Table)
    requires Newer(a.entries, b.entries) && NoCopies(a.entries, b.entries)
    ensures PairOrdered(u, a, b) <==> !ShareId(a.entries, b.entries) || !TableLe(u)(b, a)
  {
    hide Level;
  }

  lemma SameShare(a: seq<Blob>, a2: seq<Blob>, b: seq<Blob>, b2: seq<Blob>)
    requires (forall x :: x in a <==> x in a2) && forall x :: x in b <==> x in b2
    ensures ShareId(a, b) <==> ShareId(a2, b2)
    ensures ShareId(a, b) <==> ShareId(b, a)
    ensures Newer(a, b) ==> Newer(a2, b2)
    ensures NoCopies(a, b) ==> NoCopies(a2, b2)
  {
  }

  /** One queued table against one that was there. */
  lemma QueuedAgainstOld(cfg: Config, st: State, i: nat, t: Table)
    requires DrainInv(cfg, st) && i < |st.queued| && t in st.tables
    ensures var v := QueuedTable(cfg, st.nextPath, st.queued, i);
            PairOrdered(cfg.ucs, v, t) <==> (ShareId(v.entries, t.entries) ==> Level(cfg.ucs, v) <= Level(cfg.ucs, t))
  {
    hide PairOrdered, Newer, NoCopies, ShareId, ReadOrdered, AllApart, Coherent, Sources, WellFormed, Ordered, Level;
    var v := QueuedTable(cfg, st.nextPath, st.queued, i);
    QueueFacts(cfg, st);
    FlushedEntries(cfg, v.path, st.queued[i]);
    SameShare(st.queued[i], v.entries, t.entries, t.entries);
    PairOrderedIff(cfg.ucs, v, t);
  }

  /** Two queued tables against each other. */
  lemma QueuedAgainstQueued(cfg: Config, st: State, i: nat, j: nat)
    requires DrainInv(cfg, st) && i < j < |st.queued| && st.queued[j] != []
    ensures var v, w := QueuedTable(cfg, st.nextPath, st.queued, i), QueuedTable(cfg, st.nextPath, st.queued, j);
            && w.path < v.path
            && (PairOrdered(cfg.ucs, w, v) <==>
                 (ShareId(st.queued[i], st.queued[j]) ==> Level(cfg.ucs, w) < Level(cfg.ucs, v)))
  {
    hide PairOrdered, Newer, NoCopies, ShareId, ReadOrdered, AllApart, Coherent, Sources, WellFormed, Ordered, Level;
    var v, w := QueuedTable(cfg, st.nextPath, st.queued, i), QueuedTable(cfg, st.nextPath, st.queued, j);
    QueueFacts(cfg, st);
    FlushedEntries(cfg, v.path, st.queued[i]);
    FlushedEntries(cfg, w.path, st.queued[j]);
    SameShare(st.queued[j], w.entries, st.queued[i], v.entries);
    FullLater(st.queued, i, j);
    PairOrderedIff(cfg.ucs, w, v);
  }

  lemma {:induction false} FullLater(qs: seq<seq<Blob>>, i: nat, j: nat)
    requires i < j < |qs| && qs[j] != []
    ensures Full(qs[i + 1..]) > Full(qs[j + 1..])
    decreases j - i
  {
    var rest := qs[i + 1..];
    assert rest[0] == qs[i + 1] && rest[1..] == qs[i + 2..];
    if i + 1 < j {
      FullLater(qs, i + 1, j);
    }
  }

  /** The drained tables are in read order exactly when the queue is placed. */
  lemma DrainedOrderedIff(cfg: Config, st: State)
    requires DrainInv(cfg, st)
    ensures Ordered(cfg.ucs, DrainedTables(cfg, st.nextPath, st.queued, st.tables)) <==> QueuePlaced(cfg, st)
  {
    hide DrainInv, QueuedTable, PairOrdered, ShareId, ReadBefore, TableLe, Level, QueuePlaced, DrainedTables;
    var after := DrainedTables(cfg, st.nextPath, st.queued, st.tables);
    forall t ensures t in after <==> t in st.tables || IsQueued(cfg, st.nextPath, st.queued, t) {
      DrainedMembers(cfg, st.nextPath, st.queued, st.tables, t);
    }
    if QueuePlaced(cfg, st) {
      PlacedIsOrdered(cfg, st, after);
    }
    if Ordered(cfg.ucs, after) {
      OrderedIsPlaced(cfg, st, after);
    }
  }

  ghost predicate DrainedTo(cfg: Config, st: State, after: seq<Table>) {
    forall t :: t in after <==> t in st.tables || IsQueued(cfg, st.nextPath, st.queued, t)
  }

  lemma PlacedIsOrdered(cfg: Config, st: State, after: seq<Table>)
    requires DrainInv(cfg, st) && DrainedTo(cfg, st, after) && QueuePlaced(cfg, st)
    ensures Ordered(cfg.ucs, after)
  {
    hide QueuedTable, ShareId, ReadBefore, TableLe, Level, DrainInv, DrainedTo, IsQueued, QueuePlaced;
    forall t, v | t in after && v in after && t != v && TableLe(cfg.ucs)(t, v)
      ensures ReadBefore(t.entries, v.entries)
    {
      InDrained(cfg, st, after, t);
      InDrained(cfg, st, after, v);
      PlacedPair(cfg, st, t, v);
    }
  }

  lemma InDrained(cfg: Config, st: State, after: seq<Table>, t: Table)
    requires DrainedTo(cfg, st, after) && t in after
    ensures t in st.tables || IsQueued(cfg, st.nextPath, st.queued, t)
  {
  }

  lemma PlacedPair(cfg: Config, st: State, t: Table, v: Table)
    requires DrainInv(cfg, st) && QueuePlaced(cfg, st) && t != v && TableLe(cfg.ucs)(t, v)
    requires t in st.tables || IsQueued(cfg, st.nextPath, st.queued, t)
    requires v in st.tables || IsQueued(cfg, st.nextPath, st.queued, v)
    ensures ReadBefore(t.entries, v.entries)
  {
    hide QueuedTable, ShareId, ReadBefore, TableLe, Level, ReadOrdered, AllApart, Coherent, Sources, WellFormed, Sorted;
    if t in st.tables && v in st.tables {
    } else if t in st.tables {
      var i :| 0 <= i < |st.queued| && st.queued[i] != [] && v == QueuedTable(cfg, st.nextPath, st.queued, i);
      QueuedAgainstOld(cfg, st, i, t);
    } else if v in st.tables {
      var i :| 0 <= i < |st.queued| && st.queued[i] != [] && t == QueuedTable(cfg, st.nextPath, st.queued, i);
      QueuedAgainstOld(cfg, st, i, v);
    } else {
      var i :| 0 <= i < |st.queued| && st.queued[i] != [] && t == QueuedTable(cfg, st.nextPath, st.queued, i);
      var j :| 0 <= j < |st.queued| && st.queued[j] != [] && v == QueuedTable(cfg, st.nextPath, st.queued, j);
      if i < j {
        QueuedAgainstQueued(cfg, st, i, j);
      } else if j < i {
        QueuedAgainstQueued(cfg, st, j, i);
      }
    }
  }

  lemma OrderedIsPlaced(cfg: Config, st: State, after: seq<Table>)
    requires DrainInv(cfg, st) && DrainedTo(cfg, st, after) && Ordered(cfg.ucs, after)
    ensures QueuePlaced(cfg, st)
  {
    hide QueuedTable, ShareId, ReadBefore, TableLe, Level, DrainInv, DrainedTo, IsQueued, Ordered;
    forall i, t | 0 <= i < |st.queued| && st.queued[i] != [] && t in st.tables
                  && ShareId(QueuedTable(cfg, st.nextPath, st.queued, i).entries, t.entries)
      ensures Level(cfg.ucs, QueuedTable(cfg, st.nextPath, st.queued, i)) <= Level(cfg.ucs, t)
    {
      IsInDrained(cfg, st, after, i);
      OldInDrained(cfg, st, after, i, t);
      OrderedPair(cfg.ucs, after, QueuedTable(cfg, st.nextPath, st.queued, i), t);
      QueuedAgainstOld(cfg, st, i, t);
    }
    forall i, j | 0 <= i < j < |st.queued| && ShareId(st.queued[i], st.queued[j])
      ensures Level(cfg.ucs, QueuedTable(cfg, st.nextPath, st.queued, j)) <
              Level(cfg.ucs, QueuedTable(cfg, st.nextPath, st.queued, i))
    {
      ShareNotEmpty(st.queued[i], st.queued[j]);
      IsInDrained(cfg, st, after, i);
      IsInDrained(cfg, st, after, j);
      QueuedAgainstQueued(cfg, st, i, j);
      OrderedPair(cfg.ucs, after, QueuedTable(cfg, st.nextPath, st.queued, j),
                  QueuedTable(cfg, st.nextPath, st.queued, i));
    }
  }

  lemma ShareNotEmpty(a: seq<Blob>, b: seq<Blob>)
    requires ShareId(a, b)
    ensures a != [] && b != []
  {
  }

  lemma IsInDrained(cfg: Config, st: State, after: seq<Table>, i: nat)
    requires DrainedTo(cfg, st, after) && i < |st.queued| && st.queued[i] != []
    ensures QueuedTable(cfg, st.nextPath, st.queued, i) in after
  {
    hide QueuedTable;
    assert IsQueued(cfg, st.nextPath, st.queued, QueuedTable(cfg, st.nextPath, st.queued, i));
  }

  lemma OldInDrained(cfg: Config, st: State, after: seq<Table>, i: nat, t: Table)
    requires DrainInv(cfg, st) && DrainedTo(cfg, st, after) && i < |st.queued| && t in st.tables
    ensures t in after && t.path < QueuedTable(cfg, st.nextPath, st.queued, i).path
  {
    hide IsQueued, ReadOrdered, AllApart, Coherent, WellFormed, Ordered, Sorted;
  }

  lemma OrderedPair(u: Ucs, tables: seq<Table>, t: Table, v: Table)
    requires Ordered(u, tables) && t in tables && v in tables && t.path != v.path
    ensures PairOrdered(u, t, v)
  {
    hide ReadBefore, Level;
  }

  /** Over tables that store nothing twice, behind a memtable of newer versions, all reads are right exactly when the
      tables are in read order. */
  lemma TablesExactIff(u: Ucs, st: State)
    requires st.queued == [] && WellFormed(st.tables) && Sorted(st.tables, TableLe(u)) && Coherent(Held(st))
    requires forall t :: t in st.tables ==> Newer(st.mem, t.entries) && NoCopies(st.mem, t.entries)
    requires forall t, v :: t in st.tables && v in st.tables && t != v ==> NoCopies(t.entries, v.entries)
    ensures ReadsExact(Sources(st)) <==> Ordered(u, st.tables)
  {
    hide ReadsExact, Coherent, WellFormed, Sorted, Sources, Newer, NoCopies, TableLe, Held;
    if Ordered(u, st.tables) {
      OrderedReadsExact(u, st);
    } else {
      var t, v :| t in st.tables && v in st.tables && t != v && TableLe(u)(t, v) && !ReadBefore(t.entries, v.entries);
      var newer, older :| newer in v.entries && older in t.entries && newer.id == older.id
                       && older.version < newer.version && newer !in t.entries;
      NotBothWays(u, st.tables, t, v);
      forall x | x in st.tables && newer in x.entries ensures x == v { NotInTwo(x.entries, v.entries, newer); }
      NotInMem(st.mem, v.entries, newer);
      InvertedReadsWrong(u, st, t, v, older, newer);
    }
  }

  lemma NotBothWays(u: Ucs, tables: seq<Table>, t: Table, v: Table)
    requires WellFormed(tables) && t in tables && v in tables && t != v && TableLe(u)(t, v)
    ensures !TableLe(u)(v, t)
  {
    hide Level;
  }

  lemma NotInTwo(a: seq<Blob>, b: seq<Blob>, x: Blob)
    requires x in a && x in b
    ensures !NoCopies(a, b)
  {
  }

  lemma NotInMem(a: seq<Blob>, b: seq<Blob>, x: Blob)
    requires NoCopies(a, b) && x in b
    ensures x !in a
  {
  }

  lemma OrderedReadsExact(u: Ucs, st: State)
    requires st.queued == [] && WellFormed(st.tables) && Sorted(st.tables, TableLe(u)) && Coherent(Held(st))
    requires Ordered(u, st.tables) && forall t :: t in st.tables ==> Newer(st.mem, t.entries)
    ensures ReadsExact(Sources(st))
  {
    hide Coherent, WellFormed, Sorted, FirstMatch, Visible, Ordered, AllEntries;
    SourcesHold(st);
    OrderedSources(u, st.tables);
    var sources := Sources(st);
    forall i, j | 0 <= i < j < |sources| ensures ReadBefore(sources[i], sources[j]) {
      assert sources[j] == EntriesOf(st.tables)[j - 1] == st.tables[j - 1].entries;
      assert st.tables[j - 1] in st.tables;
      if i > 0 {
        assert sources[i] == EntriesOf(st.tables)[i - 1];
      }
    }
    forall id, s ensures FirstMatch(sources, id, s) == Visible(Flatten(sources), id, s) {
      FirstMatchIsVisible(sources, id, s);
    }
  }

  // ---- the drain as a whole ----

  /** Nothing is lost or gained. */
  lemma DrainHolds(cfg: Config, st: State, after: State)
    requires after.mem == st.mem && after.queued == [] && DrainedTo(cfg, st, after.tables)
    ensures forall b :: b in Held(after) <==> b in AllBlobs(st)
  {
    hide QueuedTable, Sources, AllEntries, DrainedTo, IsQueued;
    forall b ensures b in Held(after) <==> b in AllBlobs(st) {
      InAllEntries(after.tables, b);
      InAllEntries(st.tables, b);
      InAllBlobs(st, b);
      if b in AllEntries(after.tables) {
        var t :| t in after.tables && b in t.entries;
        InDrained(cfg, st, after.tables, t);
        if t !in st.tables { FromQueue(cfg, st, t, b); }
      }
      if i :| 0 <= i < |st.queued| && b in st.queued[i] {
        ToQueue(cfg, st, after, i, b);
      }
      if t :| t in st.tables && b in t.entries {
        StillThere(cfg, st, after, t);
      }
    }
  }

  lemma InAllBlobs(st: State, b: Blob)
    ensures b in AllBlobs(st) <==>
            b in st.mem || (exists i :: 0 <= i < |st.queued| && b in st.queued[i]) || b in AllEntries(st.tables)
  {
    hide Sources, AllEntries;
    SourcePlaces(st);
    InFlatten(Sources(st), b);
    InAllEntries(st.tables, b);
    var n := |st.queued|;
    if b in AllBlobs(st) {
      var k :| 0 <= k < |Sources(st)| && b in Sources(st)[k];
      if 1 <= k <= n {
        assert Sources(st)[k] == st.queued[n - k];
      } else if k > n {
        assert Sources(st)[k] == st.tables[k - 1 - n].entries;
        assert st.tables[k - 1 - n] in st.tables;
      }
    }
    if i :| 0 <= i < n && b in st.queued[i] {
      assert b in Sources(st)[n - i];
    }
    if t :| t in st.tables && b in t.entries {
      var k :| 0 <= k < |st.tables| && st.tables[k] == t;
      assert b in Sources(st)[1 + n + k];
    }
  }

  /** A queued table holds what one of the memtables holds. */
  lemma WhichQueued(cfg: Config, path: nat, queued: seq<seq<Blob>>, t: Table) returns (i: nat)
    requires IsQueued(cfg, path, queued, t)
    ensures i < |queued| && queued[i] != [] && t == QueuedTable(cfg, path, queued, i)
    ensures forall b :: b in t.entries <==> b in queued[i]
  {
    hide FlushedTable, Full;
    i :| 0 <= i < |queued| && queued[i] != [] && t == QueuedTable(cfg, path, queued, i);
    FlushedEntries(cfg, path + Full(queued[i + 1..]), queued[i]);
  }

  lemma FromQueue(cfg: Config, st: State, t: Table, b: Blob)
    requires IsQueued(cfg, st.nextPath, st.queued, t) && b in t.entries
    ensures exists i :: 0 <= i < |st.queued| && b in st.queued[i]
  {
    hide IsQueued, QueuedTable;
    var i := WhichQueued(cfg, st.nextPath, st.queued, t);
    assert b in st.queued[i];
  }

  lemma ToQueue(cfg: Config, st: State, after: State, i: nat, b: Blob)
    requires DrainedTo(cfg, st, after.tables) && i < |st.queued| && b in st.queued[i]
    ensures b in AllEntries(after.tables)
  {
    hide FlushedTable, DrainedTo, AllEntries;
    IsInDrained(cfg, st, after.tables, i);
    FlushedEntries(cfg, st.nextPath + Full(st.queued[i + 1..]), st.queued[i]);
    InAllEntries(after.tables, b);
  }

  lemma StillThere(cfg: Config, st: State, after: State, t: Table)
    requires DrainedTo(cfg, st, after.tables) && t in st.tables
    ensures t in after.tables
  {
    hide IsQueued;
  }

  lemma OldApart(cfg: Config, st: State, t: Table, v: Table)
    requires DrainInv(cfg, st) && t in st.tables && v in st.tables && t != v
    ensures NoCopies(t.entries, v.entries)
  {
    hide Coherent, ReadOrdered, Sources, WellFormed, Ordered, Sorted;
    SourcePlaces(st);
    var i :| 0 <= i < |st.tables| && st.tables[i] == t;
    var j :| 0 <= j < |st.tables| && st.tables[j] == v;
    var n := 1 + |st.queued|;
    assert NoCopies(Sources(st)[n + (if i < j then i else j)], Sources(st)[n + (if i < j then j else i)]);
  }

  /** A queued table is apart from every other table after the drain. */
  lemma QueuedApart(cfg: Config, st: State, t: Table, v: Table)
    requires DrainInv(cfg, st) && t != v && IsQueued(cfg, st.nextPath, st.queued, t)
    requires v in st.tables || IsQueued(cfg, st.nextPath, st.queued, v)
    ensures NoCopies(t.entries, v.entries) && NoCopies(v.entries, t.entries)
  {
    hide QueuedTable, IsQueued, DrainInv, NoCopies, Newer;
    QueueFacts(cfg, st);
    var i := WhichQueued(cfg, st.nextPath, st.queued, t);
    if v in st.tables {
      SameApart(st.queued[i], v.entries, t.entries, v.entries);
    } else {
      var j := WhichQueued(cfg, st.nextPath, st.queued, v);
      if i < j {
        SameApart(st.queued[j], st.queued[i], v.entries, t.entries);
      } else if j < i {
        SameApart(st.queued[i], st.queued[j], t.entries, v.entries);
      }
    }
  }

  lemma SameApart(a: seq<Blob>, b: seq<Blob>, c: seq<Blob>, d: seq<Blob>)
    requires NoCopies(a, b)
    requires (forall x :: x in c <==> x in a) && forall x :: x in d <==> x in b
    ensures NoCopies(c, d) && NoCopies(d, c)
  {
  }

  lemma DrainedApart(cfg: Config, st: State, after: seq<Table>)
    requires DrainInv(cfg, st) && DrainedTo(cfg, st, after)
    ensures forall t, v :: t in after && v in after && t != v ==> NoCopies(t.entries, v.entries)
    ensures forall t :: t in after ==> Newer(st.mem, t.entries) && NoCopies(st.mem, t.entries)
  {
    hide DrainInv, QueuedTable, NoCopies, IsQueued, DrainedTo, Newer;
    forall t, v | t in after && v in after && t != v ensures NoCopies(t.entries, v.entries) {
      InDrained(cfg, st, after, t);
      InDrained(cfg, st, after, v);
      if t in st.tables && v in st.tables {
        OldApart(cfg, st, t, v);
      } else if t in st.tables {
        QueuedApart(cfg, st, v, t);
      } else {
        QueuedApart(cfg, st, t, v);
      }
    }
    forall t | t in after ensures Newer(st.mem, t.entries) && NoCopies(st.mem, t.entries) {
      InDrained(cfg, st, after, t);
      BehindMem(cfg, st, t);
    }
  }

  lemma BehindMem(cfg: Config, st: State, t: Table)
    requires DrainInv(cfg, st) && (t in st.tables || IsQueued(cfg, st.nextPath, st.queued, t))
    ensures Newer(st.mem, t.entries) && NoCopies(st.mem, t.entries)
  {
    hide FlushedTable, ReadOrdered, AllApart, Coherent, Sources, WellFormed, Ordered, Sorted, Newer, NoCopies, Full;
    QueueFacts(cfg, st);
    if t !in st.tables {
      var i :| 0 <= i < |st.queued| && st.queued[i] != [] && t == QueuedTable(cfg, st.nextPath, st.queued, i);
      FlushedEntries(cfg, st.nextPath + Full(st.queued[i + 1..]), st.queued[i]);
      SameShare(st.mem, st.mem, st.queued[i], t.entries);
    }
  }

  /** Draining a queue of any length keeps every read at every version exactly when every queued table is placed as a
      flush must be, and of two that share a document the newer is on a strictly lower level. */
  lemma DrainKeepsReadsIff(cfg: Config, st: State)
    requires DrainInv(cfg, st) && st.background
    ensures SameViews(st, FlushQueued(cfg, st)) <==> QueuePlaced(cfg, st)
    ensures ReadsExact(Sources(FlushQueued(cfg, st))) <==> QueuePlaced(cfg, st)
  {
    hide DrainInv, FlushQueued, QueuePlaced, Ordered, ReadsExact, Sources, DrainedTables, NoCopies,
         Newer, Find, Held, WellFormed, Sorted, Coherent, IsQueued, SameViews, AllBlobs;
    var after := FlushQueued(cfg, st);
    DrainIs(cfg, st);
    forall t ensures t in after.tables <==> t in st.tables || IsQueued(cfg, st.nextPath, st.queued, t) {
      DrainedMembers(cfg, st.nextPath, st.queued, st.tables, t);
    }
    DrainParts(cfg, st);
    DrainedWellFormed(cfg, st.nextPath, st.queued, st.tables);
    DrainHolds(cfg, st, after);
    CoherentSame(AllBlobs(st), Held(after));
    DrainedApart(cfg, st, after.tables);
    TablesExactIff(cfg.ucs, after);
    DrainedOrderedIff(cfg, st);
    ExactIffSame(cfg, st, after);
  }

  lemma DrainParts(cfg: Config, st: State)
    requires DrainInv(cfg, st)
    ensures WellFormed(st.tables) && Sorted(st.tables, TableLe(cfg.ucs))
    ensures forall t :: t in st.tables ==> t.path < st.nextPath
    ensures Coherent(AllBlobs(st)) && ReadOrdered(Sources(st))
  {
  }

  lemma CoherentSame(a: seq<Blob>, b: seq<Blob>)
    requires Coherent(a) && forall x :: x in b <==> x in a
    ensures Coherent(b)
  {
  }

  lemma ExactIffSame(cfg: Config, st: State, after: State)
    requires DrainInv(cfg, st) && after.queued == [] && forall b :: b in Held(after) <==> b in AllBlobs(st)
    ensures ReadsExact(Sources(after)) <==> SameViews(st, after)
  {
    hide DrainInv, FirstMatch, Visible, Coherent, Sources, Held, Find, ReadOrdered;
    DrainParts(cfg, st);
    SourcesHold(after);
    forall id, s ensures Find(after, id, s) == Find(st, id, s) <==>
                         FirstMatch(Sources(after), id, s) == Visible(Flatten(Sources(after)), id, s)
    {
      FirstMatchIsVisible(Sources(st), id, s);
      FindIs(st, id, s);
      FindIs(after, id, s);
      SameEntriesSameView(AllBlobs(st), Held(after), id, s);
    }
  }

  // ---- how such a state comes about ----

  /** Rotating without a flush, as a background engine does, keeps the state good. */
  lemma QueueUp(cfg: Config, st: State)
    requires DrainInv(cfg, st)
    ensures DrainInv(cfg, st.(mem := [], queued := st.queued + [st.mem]))
  {
    hide WellFormed, Sorted, Ordered, Coherent, Sources, ReadOrdered, AllApart;
    var after := st.(mem := [], queued := st.queued + [st.mem]);
    QueuedUpSources(st);
    EmptyFirst(Sources(st));
    assert AllBlobs(after) == AllBlobs(st) by { assert ([[]] + Sources(st))[1..] == Sources(st); }
  }

  lemma QueuedUpSources(st: State)
    ensures Sources(st.(mem := [], queued := st.queued + [st.mem])) == [[]] + Sources(st)
  {
    ReverseAppend(st.queued, st.mem);
  }

  lemma EmptyFirst(sources: seq<seq<Blob>>)
    requires ReadOrdered(sources) && AllApart(sources)
    ensures ReadOrdered([[]] + sources) && AllApart([[]] + sources)
  {
    var after := [[]] + sources;
    forall i, j | 0 <= i < j < |after| ensures ReadBefore(after[i], after[j]) && NoCopies(after[i], after[j]) {
      if i > 0 {
        assert ReadBefore(sources[i - 1], sources[j - 1]) && NoCopies(sources[i - 1], sources[j - 1]);
      }
    }
  }

  /** So does a write, whatever is queued. */
  lemma WriteDrains(cfg: Config, st: State, b: Blob)
    requires DrainInv(cfg, st) && KeyStrict(st.mem) && st.clock <= MAX_ID
    requires forall x :: x in AllBlobs(st) ==> x.version < st.clock
    ensures DrainInv(cfg, WriteOne(st, b))
  {
    hide WellFormed, Sorted, Ordered, Coherent, Sources, AllApart, ReadOrdered, KeyStrict;
    var after, x := WriteOne(st, b), b.(version := st.clock);
    MemInsertOne(st.mem, x);
    forall y | y in st.mem ensures y.version < st.clock { InAllBlobs(st, y); }
    forall y ensures y in after.mem <==> y == x || y in st.mem { MemInsertMembers(st.mem, x, y); }
    WriteSources(st, b);
    SourcePlaces(st);
    FirstReplaced(Sources(st), Sources(after), x);
  }

  lemma WriteSources(st: State, b: Blob)
    requires st.clock <= MAX_ID
    ensures var sources, after := Sources(st), Sources(WriteOne(st, b));
            |after| == |sources| >= 1 && after[0] == WriteOne(st, b).mem && after[1..] == sources[1..]
  {
  }

  /** A first source with one more blob, newer than all others. */
  lemma FirstReplaced(before: seq<seq<Blob>>, after: seq<seq<Blob>>, x: Blob)
    requires |before| == |after| >= 1 && after[1..] == before[1..]
    requires forall y :: y in after[0] <==> y == x || y in before[0]
    requires forall y :: y in Flatten(before) ==> y.version < x.version
    requires ReadOrdered(before) && AllApart(before) && Coherent(Flatten(before))
    ensures ReadOrdered(after) && AllApart(after) && Coherent(Flatten(after))
  {
    hide ReadOrdered, AllApart, Coherent;
    forall y ensures y in Flatten(after) <==> y == x || y in Flatten(before) {
      assert before == [before[0]] + before[1..] && after == [after[0]] + after[1..];
    }
    OneMoreCoherent(Flatten(before), Flatten(after), x);
    forall i, j | 0 <= i < j < |after| ensures ReadBefore(after[i], after[j]) && NoCopies(after[i], after[j]) {
      assert after[j] == after[1..][j - 1] == before[j];
      assert i > 0 ==> after[i] == after[1..][i - 1] == before[i];
      PairOf(before, i, j);
      forall y | y in before[j] ensures y.version < x.version { InFlatten(before, y); }
    }
    ByPairs(after);
  }

  lemma PairOf(sources: seq<seq<Blob>>, i: nat, j: nat)
    requires ReadOrdered(sources) && AllApart(sources) && i < j < |sources|
    ensures ReadBefore(sources[i], sources[j]) && NoCopies(sources[i], sources[j])
  {
  }

  lemma ByPairs(sources: seq<seq<Blob>>)
    requires forall i, j :: 0 <= i < j < |sources| ==>
             ReadBefore(sources[i], sources[j]) && NoCopies(sources[i], sources[j])
    ensures ReadOrdered(sources) && AllApart(sources)
  {
  }

  lemma OneMoreCoherent(before: seq<Blob>, after: seq<Blob>, x: Blob)
    requires Coherent(before) && (forall y :: y in after <==> y == x || y in before)
    requires forall y :: y in before ==> y.version < x.version
    ensures Coherent(after)
  {
  }

  /** Every state of the engine's invariant that stores nothing twice is one, so every reachable state is. */
  lemma InvDrains(cfg: Config, st: State)
    requires Inv(cfg, st) && StoredOnce(st)
    ensures DrainInv(cfg, st)
  {
    hide FirstMatch, Sorted, Ordered, Coherent, ReadOrdered, AllApart, StoredOnce, WellFormed, LogFits, Issued,
         KeyStrict;
    LookupIsView(cfg, st, 0, 0);
    SourcesHold(st);
    InvApart(cfg, st);
  }

  lemma InvApart(cfg: Config, st: State)
    requires Inv(cfg, st) && StoredOnce(st)
    ensures AllApart(Sources(st))
  {
    hide Inv, NoCopies, StoredOnce, Sources;
    forall i, j | 0 <= i < j < |Sources(st)| ensures NoCopies(Sources(st)[i], Sources(st)[j]) {
      ApartPair(cfg, st, i, j);
    }
  }

  lemma ApartPair(cfg: Config, st: State, i: nat, j: nat)
    requires Inv(cfg, st) && StoredOnce(st) && i < j < |Sources(st)|
    ensures NoCopies(Sources(st)[i], Sources(st)[j])
  {
    hide Sorted, Ordered, Coherent, NoCopies, ReadBefore, LogFits, Issued, KeyStrict, Sources, Distinct, AllEntries;
    SourcePlaces(st);
    SourceAt(st, j - 1);
    assert st.tables[j - 1] in st.tables;
    if i > 0 {
      SourceAt(st, i - 1);
      assert st.tables[i - 1] in st.tables;
      DistinctAt(st.tables, i - 1, j - 1);
    }
  }
}
