/** Compaction makes progress: every merge leaves fewer tables, so without flushes it comes to rest
    (crates/ingodb-lsm/src/lib.rs:600-636, 843-878). */
module Progress {
  import opened Prelude
  import opened Blobs
  import opened Sorting
  import opened Merging
  import opened Compaction
  import opened Tables
  import opened Lsm
  import opened Refinement

  lemma {:induction false} FilterDropsTwo<T>(s: seq<T>, p: T -> bool, x: T, y: T)
    requires x in s && y in s && x != y && !p(x) && !p(y)
    ensures |Filter(s, p)| <= |s| - 2
  {
    assert s == [s[0]] + s[1..];
    if s[0] == x {
      FilterDropsOne(s[1..], p, y);
    } else if s[0] == y {
      FilterDropsOne(s[1..], p, x);
    } else {
      FilterDropsTwo(s[1..], p, x, y);
    }
  }

  lemma TwoMembers<T>(c: set<T>) returns (x: T, y: T)
    requires |c| >= 2
    ensures x in c && y in c && x != y
  {
    x :| x in c;
    assert |c - {x}| == |c| - 1;
    y :| y in c - {x};
  }

  /** Every picked compaction removes at least two tables and adds at most one. */
  lemma PickShrinks(cfg: Config, st: State)
    requires WellFormed(st.tables) && PickCompaction(cfg.ucs, Metas(st.tables)).Some?
    ensures |st.tables| >= 2 && |MaybeCompact(cfg, st).tables| < |st.tables|
  {
    hide Compacted, Inputs, PickCompaction, Connected, Closed, SortTables, OutputTable, Metas;
    var u, tables := cfg.ucs, st.tables;
    var pick := PickCompaction(u, Metas(tables)).value;
    MetasSound(tables);
    PickIsLowest(u, Metas(tables));
    var level := pick.outputLevel - 1;
    AtLevelSound(u, Metas(tables), level);
    var a, b := TwoMembers(Elements(pick.inputs));
    assert a in AtLevel(u, Metas(tables), level) && b in AtLevel(u, Metas(tables), level);
    var t :| t in tables && t.Meta() == a;
    var v :| v in tables && v.Meta() == b;
    FilterDropsTwo(tables, OutsideTest(Paths(pick.inputs)), t, v);
    FilterShorter(tables, OutsideTest(Paths(pick.inputs)));
    var out := Output(st, pick.inputs, Purges(pick.outputLevel, pick.maxLevel, OldestSnapshot(st.snapshots)));
    AtMostOneMore(u, tables, pick.inputs, out, st.nextPath, cfg.fileSize);
  }

  lemma AtMostOneMore(u: Ucs, tables: seq<Table>, inputs: seq<SstMeta>, out: seq<Blob>, path: nat,
                      sizeOf: seq<Blob> -> nat)
    ensures |CompactTables(u, tables, inputs, out, path, sizeOf)| <= |Outside(tables, Paths(inputs))| + 1
  {
    hide OutputTable;
    SortMultiset(Outside(tables, Paths(inputs)) + [OutputTable(path, sizeOf, out)], TableLe(u));
  }

  /** Unique names and sorted tables, all named before the next name. */
  ghost predicate Named(st: State) { WellFormed(st.tables) && forall t :: t in st.tables ==> t.path < st.nextPath }

  lemma MaybeCompactNamed(cfg: Config, st: State)
    requires Named(st)
    ensures Named(MaybeCompact(cfg, st))
  {
    hide Compacted, Inputs, PickCompaction, Distinct, Sorted, OutputTable, Sort;
    match PickCompaction(cfg.ucs, Metas(st.tables))
    case None =>
    case Some(pick) =>
      var out := Output(st, pick.inputs, Purges(pick.outputLevel, pick.maxLevel, OldestSnapshot(st.snapshots)));
      var rest, output := Outside(st.tables, Paths(pick.inputs)), OutputTable(st.nextPath, cfg.fileSize, out);
      InOutside(st.tables, Paths(pick.inputs));
      if out != [] {
        OutputTableSame(st.nextPath, cfg.fileSize, out);
        OutputPath(st.nextPath, cfg.fileSize, out);
        OutputWellFormed(rest, output);
        SortTablesSame(cfg.ucs, rest + [output]);
      }
  }

  lemma OutputPath(path: nat, sizeOf: seq<Blob> -> nat, out: seq<Blob>)
    ensures OutputTable(path, sizeOf, out).path == path
  {
  }

  /** `n` compaction attempts in a row, with no flush between them. */
  function CompactTimes(cfg: Config, st: State, n: nat): State
    decreases n
  {
    if n == 0 then st else CompactTimes(cfg, MaybeCompact(cfg, st), n - 1)
  }

  /** Nothing left to merge. */
  ghost predicate AtRest(cfg: Config, st: State) { PickCompaction(cfg.ucs, Metas(st.tables)).None? }

  lemma RestStays(cfg: Config, st: State, n: nat)
    requires AtRest(cfg, st)
    ensures CompactTimes(cfg, st, n) == st
  {
  }

  /** Compacting without flushes stops in fewer steps than there are tables. */
  lemma {:induction false} CompactionSettles(cfg: Config, st: State, n: nat)
    requires Named(st) && |st.tables| <= n + 1
    ensures AtRest(cfg, CompactTimes(cfg, st, n))
    decreases n
  {
    hide MaybeCompact, WellFormed, PickCompaction, Metas, Named;
    if AtRest(cfg, st) {
      RestStays(cfg, st, n);
    } else {
      NamedTables(st);
      PickShrinks(cfg, st);
      MaybeCompactNamed(cfg, st);
      CompactionSettles(cfg, MaybeCompact(cfg, st), n - 1);
    }
  }

  lemma NamedTables(st: State)
    requires Named(st)
    ensures WellFormed(st.tables)
  {
  }
}
