/** The ordered list of tables: read order by level and creation, and what adding a flushed table or swapping
    inputs for an output does to it (crates/ingodb-lsm/src/lib.rs:575-583, 784-881, 1692-1705). */
module Tables {
  import opened Prelude
  import opened Bytes
  import opened Blobs
  import opened Sorting
  import opened Views
  import opened Merging
  import opened Compaction

  /** A table file: its number (file names sort by it), its size in bytes, and its entries in key order. */
  datatype Table = Table(path: nat, size: nat, entries: seq<Blob>) {
    function MinId(): DocumentId { if entries == [] then 0 else entries[0].id }

    function MaxId(): DocumentId { if entries == [] then 0 else entries[|entries| - 1].id }

    function Meta(): SstMeta { SstMeta(path, MinId(), MaxId(), size) }
  }

  function Level(u: Ucs, t: Table): nat { u.LevelForSize(t.size) }

  /** Lower levels first, within a level the newest file first. */
  function TableLe(u: Ucs): (Table, Table) -> bool {
    (a: Table, b: Table) => Level(u, a) < Level(u, b) || (Level(u, a) == Level(u, b) && a.path >= b.path)
  }

  function SortTables(u: Ucs, tables: seq<Table>): seq<Table> { Sort(tables, TableLe(u)) }

  function EntriesOf(tables: seq<Table>): seq<seq<Blob>> { Map(tables, (t: Table) => t.entries) }

  function AllEntries(tables: seq<Table>): seq<Blob> { Flatten(EntriesOf(tables)) }

  /** File names are unique, and every table is non-empty and in key order. */
  ghost predicate WellFormed(tables: seq<Table>) {
    && Distinct(tables)
    && (forall t, v :: t in tables && v in tables && t.path == v.path ==> t == v)
    && forall t :: t in tables ==> t.entries != [] && Sorted(t.entries, KeyLe)
  }

  /** Any table read before another may be. */
  ghost predicate Ordered(u: Ucs, tables: seq<Table>) {
    forall t, v :: t in tables && v in tables && t != v && TableLe(u)(t, v) ==> ReadBefore(t.entries, v.entries)
  }

  lemma InAllEntries(tables: seq<Table>, b: Blob)
    ensures b in AllEntries(tables) <==> exists t :: t in tables && b in t.entries
  {
    InFlatten(EntriesOf(tables), b);
    if b in AllEntries(tables) {
      var i :| 0 <= i < |EntriesOf(tables)| && b in EntriesOf(tables)[i];
      assert tables[i] in tables;
    }
    if t :| t in tables && b in t.entries {
      var i :| 0 <= i < |tables| && tables[i] == t;
      assert b in EntriesOf(tables)[i];
    }
  }

  /** The id range by which a table is picked: the ids of two of its entries, with all others between them. */
  lemma MetaIsRange(t: Table)
    requires t.entries != [] && Sorted(t.entries, KeyLe)
    ensures forall b :: b in t.entries ==> t.Meta().minId <= b.id <= t.Meta().maxId
    ensures exists b :: b in t.entries && b.id == t.Meta().minId
    ensures exists b :: b in t.entries && b.id == t.Meta().maxId
  {
    var es := t.entries;
    assert es[0] in es && es[|es| - 1] in es;
    forall b | b in es ensures es[0].id <= b.id <= es[|es| - 1].id {
      var i :| 0 <= i < |es| && es[i] == b;
      assert i > 0 ==> KeyLe(es[0], es[i]);
      assert i < |es| - 1 ==> KeyLe(es[i], es[|es| - 1]);
    }
  }

  lemma SortTablesSame(u: Ucs, tables: seq<Table>)
    ensures Sorted(SortTables(u, tables), TableLe(u))
    ensures forall t :: t in SortTables(u, tables) <==> t in tables
    ensures WellFormed(tables) ==> WellFormed(SortTables(u, tables))
  {
    SortSorted(tables, TableLe(u));
    SortMultiset(tables, TableLe(u));
    forall t ensures t in SortTables(u, tables) <==> t in tables { InSort(tables, TableLe(u), t); }
  }

  /** A sorted, well-formed, ordered list of tables is read in a permitted order. */
  lemma OrderedSources(u: Ucs, tables: seq<Table>)
    requires WellFormed(tables) && Sorted(tables, TableLe(u)) && Ordered(u, tables)
    ensures ReadOrdered(EntriesOf(tables))
  {
    forall i, j | 0 <= i < j < |tables| ensures ReadBefore(tables[i].entries, tables[j].entries) {
      DistinctAt(tables, i, j);
    }
  }

  lemma {:induction false} DistinctAt<T(!new)>(s: seq<T>, i: nat, j: nat)
    requires Distinct(s) && i < j < |s|
    ensures s[i] != s[j]
  {
    var x := s[i];
    assert s == s[..j] + s[j..];
    assert multiset(s) == multiset(s[..j]) + multiset(s[j..]);
    assert s[..j][i] == x && s[j..][0] == s[j];
    assert x in s[..j] && s[j] in s[j..];
    assert multiset(s)[x] == 1;
  }

  // ---- adding a flushed table ----

  /** Every table that shares a document with the new one is at its level or above. */
  ghost predicate FlushPlaced(u: Ucs, tables: seq<Table>, flushed: Table) {
    forall t :: t in tables && ShareId(flushed.entries, t.entries) ==> Level(u, flushed) <= Level(u, t)
  }

  lemma AddedOrdered(u: Ucs, tables: seq<Table>, flushed: Table)
    requires Ordered(u, tables) && FlushPlaced(u, tables, flushed)
    requires forall t :: t in tables ==> t.path < flushed.path && ReadBefore(flushed.entries, t.entries)
    ensures Ordered(u, [flushed] + tables)
  {
    forall t, v | t in [flushed] + tables && v in [flushed] + tables && t != v && TableLe(u)(t, v)
      ensures ReadBefore(t.entries, v.entries)
    {
      if v == flushed {
        assert !ShareId(flushed.entries, t.entries);
      }
    }
  }

  /** No blob is in two places. */
  ghost predicate NoCopies(a: seq<Blob>, b: seq<Blob>) { forall x :: x in a ==> x !in b }

  /** When nothing is stored twice, a flush keeps the read order exactly when the new table is placed
      at or below the level of every table it shares a document with. */
  lemma FlushOrderIff(u: Ucs, tables: seq<Table>, flushed: Table)
    requires Ordered(u, tables) && Coherent(AllEntries(tables) + flushed.entries)
    requires forall t :: t in tables ==> t.path < flushed.path && ReadBefore(flushed.entries, t.entries)
    requires forall t :: t in tables ==> NoCopies(flushed.entries, t.entries)
    ensures Ordered(u, [flushed] + tables) <==> FlushPlaced(u, tables, flushed)
  {
    hide ReadBefore, Coherent, NoCopies, ShareId;
    if FlushPlaced(u, tables, flushed) {
      AddedOrdered(u, tables, flushed);
    }
    if Ordered(u, [flushed] + tables) {
      forall t | t in tables && ShareId(flushed.entries, t.entries) ensures Level(u, flushed) <= Level(u, t) {
        if Level(u, t) < Level(u, flushed) {
          assert t in [flushed] + tables && flushed in [flushed] + tables;
          BothOrders(tables, t, flushed.entries);
        }
      }
    }
  }

  /** Two disjoint sources with a common document cannot be read in either order. */
  lemma BothOrders(tables: seq<Table>, t: Table, b: seq<Blob>)
    requires t in tables && Coherent(AllEntries(tables) + b)
    requires ReadBefore(t.entries, b) && ReadBefore(b, t.entries) && NoCopies(b, t.entries)
    ensures !ShareId(b, t.entries)
  {
    forall x, y | x in b && y in t.entries ensures x.id != y.id {
      InAllEntries(tables, y);
      assert x in AllEntries(tables) + b && y in AllEntries(tables) + b;
    }
  }

  // ---- compaction ----

  function EntriesAt(tables: seq<Table>, path: nat): seq<Blob> {
    if tables == [] then [] else if tables[0].path == path then tables[0].entries else EntriesAt(tables[1..], path)
  }

  /** The entries of all inputs, in pick order. */
  function Inputs(tables: seq<Table>, inputs: seq<SstMeta>): seq<Blob> {
    if inputs == [] then [] else EntriesAt(tables, inputs[0].path) + Inputs(tables, inputs[1..])
  }

  function OutsideTest(paths: set<nat>): Table -> bool { (t: Table) => t.path !in paths }

  function Outside(tables: seq<Table>, paths: set<nat>): seq<Table> { Filter(tables, OutsideTest(paths)) }

  lemma InOutside(tables: seq<Table>, paths: set<nat>)
    ensures forall t :: t in Outside(tables, paths) <==> t in tables && t.path !in paths
    ensures WellFormed(tables) ==> WellFormed(Outside(tables, paths))
  {
    forall t ensures t in Outside(tables, paths) <==> t in tables && t.path !in paths {
      InFilter(tables, OutsideTest(paths), t);
    }
    if WellFormed(tables) {
      FilterDistinct(tables, OutsideTest(paths));
    }
  }

  lemma {:induction false} EntriesAtTable(tables: seq<Table>, t: Table)
    requires t in tables && forall v :: v in tables && v.path == t.path ==> v == t
    ensures EntriesAt(tables, t.path) == t.entries
  {
    if tables[0].path != t.path {
      EntriesAtTable(tables[1..], t);
    }
  }

  lemma {:induction false} InInputs(tables: seq<Table>, inputs: seq<SstMeta>, b: Blob)
    requires WellFormed(tables)
    requires forall m :: m in inputs ==> exists t :: t in tables && t.path == m.path
    ensures b in Inputs(tables, inputs) <==> exists t :: t in tables && t.path in Paths(inputs) && b in t.entries
  {
    if inputs != [] {
      var m := inputs[0];
      assert inputs == [m] + inputs[1..];
      assert Paths(inputs) == {m.path} + Paths(inputs[1..]);
      InInputs(tables, inputs[1..], b);
      var t :| t in tables && t.path == m.path;
      EntriesAtTable(tables, t);
    }
  }

  /** The inputs are all of one level, exist, and share no document with other tables of that level. */
  ghost predicate WholeGroup(u: Ucs, tables: seq<Table>, inputs: seq<SstMeta>, level: nat) {
    && (forall m :: m in inputs ==> exists t :: t in tables && t.path == m.path)
    && (forall t :: t in tables && t.path in Paths(inputs) ==> Level(u, t) == level)
    && forall t, v | t in tables && v in tables && t.path in Paths(inputs) && v.path !in Paths(inputs) ::
         Level(u, v) == level ==> !ShareId(t.entries, v.entries)
  }

  function Metas(tables: seq<Table>): seq<SstMeta> { Map(tables, (t: Table) => t.Meta()) }

  lemma WithinRange(t: Table, b: Blob)
    requires Sorted(t.entries, KeyLe) && b in t.entries
    ensures t.MinId() <= b.id <= t.MaxId()
  {
    var k :| 0 <= k < |t.entries| && t.entries[k] == b;
    if k > 0 { assert KeyLe(t.entries[0], t.entries[k]); }
    if k < |t.entries| - 1 { assert KeyLe(t.entries[k], t.entries[|t.entries| - 1]); }
  }

  lemma MetasSound(tables: seq<Table>)
    requires WellFormed(tables)
    ensures ValidRanges(Metas(tables)) && Distinct(Metas(tables)) && DistinctPaths(Metas(tables))
    ensures forall m :: m in Metas(tables) <==> exists t :: t in tables && t.Meta() == m
  {
    var ms := Metas(tables);
    forall m ensures m in ms <==> exists t :: t in tables && t.Meta() == m {
      if m in ms {
        var i :| 0 <= i < |ms| && ms[i] == m;
        assert tables[i] in tables && tables[i].Meta() == m;
      }
      if t :| t in tables && t.Meta() == m {
        var i :| 0 <= i < |tables| && tables[i] == t;
        assert ms[i] == m;
      }
    }
    forall m | m in ms ensures m.minId <= m.maxId {
      var t :| t in tables && t.Meta() == m;
      WithinRange(t, t.entries[0]);
    }
    forall i, j | 0 <= i < j < |ms| ensures ms[i] != ms[j] {
      DistinctAt(tables, i, j);
      assert tables[i] in tables && tables[j] in tables;
    }
    DistinctByIndex(ms);
  }

  lemma {:induction false} DistinctByIndex<T(!new)>(s: seq<T>)
    requires forall i, j :: 0 <= i < j < |s| ==> s[i] != s[j]
    ensures Distinct(s)
  {
    if s != [] {
      assert s == [s[0]] + s[1..];
      DistinctByIndex(s[1..]);
      assert s[0] !in s[1..];
      assert multiset(s) == multiset{s[0]} + multiset(s[1..]);
    }
  }

  lemma SharedMeansOverlap(t: Table, v: Table)
    requires Sorted(t.entries, KeyLe) && Sorted(v.entries, KeyLe) && ShareId(t.entries, v.entries)
    ensures Overlap(t.Meta(), v.Meta())
  {
    var x, y :| x in t.entries && y in v.entries && x.id == y.id;
    WithinRange(t, x);
    WithinRange(v, y);
  }

  /** A component of a level's overlap graph is a whole group of tables. */
  lemma ComponentIsWholeGroup(u: Ucs, tables: seq<Table>, inputs: seq<SstMeta>, level: nat)
    requires WellFormed(tables) && Component(Elements(inputs), Elements(AtLevel(u, Metas(tables), level)))
    ensures WholeGroup(u, tables, inputs, level)
  {
    hide Connected, AtLevel, Distinct, Metas;
    var ms := Metas(tables);
    MetasSound(tables);
    AtLevelSound(u, ms, level);
    forall m | m in inputs ensures exists t :: t in tables && t.path == m.path {
      assert m in Elements(inputs);
      var t :| t in tables && t.Meta() == m;
    }
    forall t | t in tables && t.path in Paths(inputs) ensures t.Meta() in Elements(inputs) && Level(u, t) == level {
      var m :| m in inputs && m.path == t.path;
      assert m in Elements(inputs);
      var v :| v in tables && v.Meta() == m;
      assert v == t;
    }
    forall t, v | && t in tables && v in tables && t.path in Paths(inputs) && v.path !in Paths(inputs)
                  && Level(u, v) == level
      ensures !ShareId(t.entries, v.entries)
    {
      assert v.Meta() in Elements(AtLevel(u, ms, level)) && v.Meta() !in inputs;
      if ShareId(t.entries, v.entries) {
        SharedMeansOverlap(t, v);
        assert false;
      }
    }
  }

  /** What the picker returns is a whole group, and no table lies above it when the output level exceeds the maximum. */
  lemma PickIsWholeGroup(u: Ucs, tables: seq<Table>)
    requires WellFormed(tables) && PickCompaction(u, Metas(tables)).Some?
    ensures var pick := PickCompaction(u, Metas(tables)).value;
            && pick.outputLevel >= 1 && |pick.inputs| >= 2
            && WholeGroup(u, tables, pick.inputs, pick.outputLevel - 1)
            && (pick.outputLevel > pick.maxLevel ==> forall t :: t in tables ==> Level(u, t) < pick.outputLevel)
  {
    hide PickCompaction, Component, WholeGroup, MaxLevel, AtLevel;
    var pick := PickCompaction(u, Metas(tables)).value;
    MetasSound(tables);
    PickIsLowest(u, Metas(tables));
    ComponentIsWholeGroup(u, tables, pick.inputs, pick.outputLevel - 1);
    DistinctSizeAtLeast(pick.inputs);
    forall t | t in tables ensures Level(u, t) <= pick.maxLevel { assert t.Meta() in Metas(tables); }
  }

  lemma DistinctSizeAtLeast(g: seq<SstMeta>)
    ensures |Elements(g)| <= |g|
  {
    if g != [] {
      DistinctSizeAtLeast(g[1..]);
      assert Elements(g) == {g[0]} + Elements(g[1..]);
    }
  }

  /** The output table of a compaction: the survivors in key order. */
  function OutputTable(path: nat, sizeOf: seq<Blob> -> nat, out: seq<Blob>): Table {
    var entries := Sort(out, KeyLe);
    Table(path, sizeOf(entries), entries)
  }

  /** The tables after a compaction: the others, and the output unless everything was dropped. */
  function CompactTables(u: Ucs, tables: seq<Table>, inputs: seq<SstMeta>, out: seq<Blob>, path: nat,
                         sizeOf: seq<Blob> -> nat): seq<Table>
  {
    var rest := Outside(tables, Paths(inputs));
    if out == [] then rest else SortTables(u, rest + [OutputTable(path, sizeOf, out)])
  }

  /** The facts a compaction starts from. */
  ghost predicate Compactable(u: Ucs, tables: seq<Table>, inputs: seq<SstMeta>, level: nat) {
    && WellFormed(tables) && Ordered(u, tables) && Coherent(AllEntries(tables))
    && WholeGroup(u, tables, inputs, level)
  }

  lemma InputsAreEntries(u: Ucs, tables: seq<Table>, inputs: seq<SstMeta>, level: nat)
    requires Compactable(u, tables, inputs, level)
    ensures Coherent(Inputs(tables, inputs))
    ensures forall b :: b in Inputs(tables, inputs) <==>
            exists t :: t in tables && t.path in Paths(inputs) && b in t.entries
  {
    var merged := Inputs(tables, inputs);
    forall b ensures b in merged <==> exists t :: t in tables && t.path in Paths(inputs) && b in t.entries {
      InInputs(tables, inputs, b);
    }
    forall a | a in merged ensures a in AllEntries(tables) { InAllEntries(tables, a); }
  }

  /** A table below the inputs' level stays readable before the output: the output only drops. */
  lemma LowerBeforeOutput(u: Ucs, tables: seq<Table>, inputs: seq<SstMeta>, level: nat, out: seq<Blob>, t: Table)
    requires Compactable(u, tables, inputs, level)
    requires forall b :: b in out ==> b in Inputs(tables, inputs)
    requires t in tables && Level(u, t) < level
    ensures ReadBefore(t.entries, out)
  {
    hide Coherent, WellFormed, Inputs, AllEntries, EntriesOf;
    InputsAreEntries(u, tables, inputs, level);
    forall v, w | v in out && w in t.entries && v.id == w.id && w.version < v.version ensures v in t.entries {
      var i :| i in tables && i.path in Paths(inputs) && v in i.entries;
      assert ReadBefore(t.entries, i.entries);
    }
  }

  /** The output stays readable before a table above the inputs' level: what it keeps of a document it keeps upwards. */
  lemma OutputBeforeHigher(u: Ucs, tables: seq<Table>, inputs: seq<SstMeta>, level: nat,
                           oldest: Option<DocumentId>, purge: bool, t: Table)
    requires Compactable(u, tables, inputs, level) && (purge ==> oldest.None?)
    requires t in tables && Level(u, t) > level
    ensures ReadBefore(Compacted(Inputs(tables, inputs), oldest, purge), t.entries)
  {
    hide Compacted, Coherent, WellFormed, Inputs;
    var merged := Inputs(tables, inputs);
    var out := Compacted(merged, oldest, purge);
    InputsAreEntries(u, tables, inputs, level);
    forall v, w | v in t.entries && w in out && v.id == w.id && w.version < v.version ensures v in out {
      FromInput(u, tables, inputs, level, oldest, purge, w, t, v);
      KeptUpwards(merged, oldest, purge, w, v);
    }
  }

  /** A newer version above the inputs' level is also in the input that holds the older one. */
  lemma FromInput(u: Ucs, tables: seq<Table>, inputs: seq<SstMeta>, level: nat,
                  oldest: Option<DocumentId>, purge: bool, w: Blob, t: Table, v: Blob)
    requires Compactable(u, tables, inputs, level)
    requires t in tables && Level(u, t) > level && v in t.entries
    requires w in Compacted(Inputs(tables, inputs), oldest, purge) && v.id == w.id && w.version < v.version
    ensures v in Inputs(tables, inputs)
  {
    hide Compacted, Coherent, WellFormed, Inputs;
    InputsAreEntries(u, tables, inputs, level);
    CompactedMembers(Inputs(tables, inputs), oldest, purge, w);
    var i :| i in tables && i.path in Paths(inputs) && w in i.entries;
    assert TableLe(u)(i, t) && i != t;
    assert ReadBefore(i.entries, t.entries);
    assert v in i.entries;
  }

  lemma OutputApartOnLevel(u: Ucs, tables: seq<Table>, inputs: seq<SstMeta>, level: nat, out: seq<Blob>, t: Table)
    requires Compactable(u, tables, inputs, level)
    requires forall b :: b in out ==> b in Inputs(tables, inputs)
    requires t in tables && t.path !in Paths(inputs) && Level(u, t) == level
    ensures !ShareId(out, t.entries)
  {
    InputsAreEntries(u, tables, inputs, level);
    forall x, y | x in out && y in t.entries ensures x.id != y.id {
      var i :| i in tables && i.path in Paths(inputs) && x in i.entries;
      assert !ShareId(i.entries, t.entries);
    }
  }

  /** Where the output must go: below no newer table and above no older one that shares a document with it. */
  ghost predicate OutputPlaced(u: Ucs, rest: seq<Table>, level: nat, output: Table) {
    forall t :: t in rest && ShareId(output.entries, t.entries) ==>
      && (Level(u, t) < level ==> Level(u, t) < Level(u, output))
      && (Level(u, t) > level ==> Level(u, output) <= Level(u, t))
  }

  lemma OutputTableSame(path: nat, sizeOf: seq<Blob> -> nat, out: seq<Blob>)
    ensures var t := OutputTable(path, sizeOf, out);
            Sorted(t.entries, KeyLe) && (forall b :: b in t.entries <==> b in out) && |t.entries| == |out|
  {
    MergeLeTotal();
    SortSorted(out, KeyLe);
    SortMultiset(out, KeyLe);
    forall b ensures b in Sort(out, KeyLe) <==> b in out { InSort(out, KeyLe, b); }
  }

  /** How the output stands to each remaining table. */
  ghost predicate OutputFits(u: Ucs, rest: seq<Table>, level: nat, output: Table) {
    forall t :: t in rest ==>
      && (Level(u, t) < level ==> ReadBefore(t.entries, output.entries))
      && (Level(u, t) > level ==> ReadBefore(output.entries, t.entries))
      && (Level(u, t) == level ==> !ShareId(output.entries, t.entries))
  }

  lemma CompactionFits(u: Ucs, tables: seq<Table>, inputs: seq<SstMeta>, level: nat,
                       oldest: Option<DocumentId>, purge: bool, path: nat, sizeOf: seq<Blob> -> nat)
    requires Compactable(u, tables, inputs, level) && (purge ==> oldest.None?)
    ensures OutputFits(u, Outside(tables, Paths(inputs)), level,
                       OutputTable(path, sizeOf, Compacted(Inputs(tables, inputs), oldest, purge)))
  {
    var merged := Inputs(tables, inputs);
    var out := Compacted(merged, oldest, purge);
    var output := OutputTable(path, sizeOf, out);
    OutputTableSame(path, sizeOf, out);
    InputsAreEntries(u, tables, inputs, level);
    forall b | b in out ensures b in merged { CompactedMembers(merged, oldest, purge, b); }
    InOutside(tables, Paths(inputs));
    forall t | t in Outside(tables, Paths(inputs))
      ensures (Level(u, t) < level ==> ReadBefore(t.entries, output.entries))
           && (Level(u, t) > level ==> ReadBefore(output.entries, t.entries))
           && (Level(u, t) == level ==> !ShareId(output.entries, t.entries))
    {
      if Level(u, t) < level {
        LowerBeforeOutput(u, tables, inputs, level, out, t);
      } else if Level(u, t) > level {
        OutputBeforeHigher(u, tables, inputs, level, oldest, purge, t);
      } else {
        OutputApartOnLevel(u, tables, inputs, level, out, t);
      }
    }
  }

  lemma Apartness(a: seq<Blob>, b: seq<Blob>)
    requires !ShareId(a, b)
    ensures ReadBefore(a, b) && ReadBefore(b, a) && !ShareId(b, a)
  {
  }

  lemma PlacedOrdered(u: Ucs, rest: seq<Table>, level: nat, output: Table)
    requires Ordered(u, rest) && OutputFits(u, rest, level, output) && OutputPlaced(u, rest, level, output)
    requires forall t :: t in rest ==> t.path < output.path
    ensures Ordered(u, rest + [output])
  {
    forall t, v | t in rest + [output] && v in rest + [output] && t != v && TableLe(u)(t, v)
      ensures ReadBefore(t.entries, v.entries)
    {
      var other := if t == output then v else t;
      if other in rest && !ShareId(output.entries, other.entries) {
        Apartness(output.entries, other.entries);
      }
    }
  }

  /** When nothing is stored twice, a compaction keeps the read order exactly when its output is placed
      above every newer table and not above any older one that shares a document with it. */
  lemma OutputOrderIff(u: Ucs, rest: seq<Table>, level: nat, output: Table)
    requires Ordered(u, rest) && OutputFits(u, rest, level, output)
    requires Coherent(AllEntries(rest) + output.entries)
    requires forall t :: t in rest ==> t.path < output.path && NoCopies(output.entries, t.entries)
    ensures Ordered(u, rest + [output]) <==> OutputPlaced(u, rest, level, output)
  {
    hide ReadBefore, Coherent, NoCopies, ShareId;
    if OutputPlaced(u, rest, level, output) {
      PlacedOrdered(u, rest, level, output);
    }
    if Ordered(u, rest + [output]) {
      forall t | t in rest && ShareId(output.entries, t.entries)
        ensures Level(u, t) < level ==> Level(u, t) < Level(u, output)
        ensures Level(u, t) > level ==> Level(u, output) <= Level(u, t)
      {
        assert t in rest + [output] && output in rest + [output];
        if ReadBefore(output.entries, t.entries) && ReadBefore(t.entries, output.entries) {
          BothOrders(rest, t, output.entries);
        }
      }
    }
  }
}
